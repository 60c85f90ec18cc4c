/** The ranking of matches, and the best of them kept by insertion into a bounded array. */
module SegmentRank {
  import opened Ordering
  import opened Segments
  import opened Slices

  // --- The order ---

  function NameCompare(a: string, b: string): int {
    if a == "" && b == "" then 0
    else if a == "" then -1
    else if b == "" then 1
    else if a[0] != b[0] then a[0] as int - b[0] as int
    else NameCompare(a[1..], b[1..])
  }

  function TierRank(t: Tier): nat {
    match t
    case Exact => 0
    case Suffix => 1
    case Contains => 2
  }

  function NameOf(es: seq<Entry>, m: Match): string {
    if m.entry < |es| then es[m.entry].name else ""
  }

  /** Tier, then start, then shorter name, then name. */
  function Compare(es: seq<Entry>): (Match, Match) -> int {
    (a: Match, b: Match) =>
      if a.tier != b.tier then TierRank(a.tier) - TierRank(b.tier)
      else if a.start != b.start then a.start - b.start
      else if |NameOf(es, a)| != |NameOf(es, b)| then |NameOf(es, a)| - |NameOf(es, b)|
      else NameCompare(NameOf(es, a), NameOf(es, b))
  }

  lemma {:induction false} NameAntisymmetric(a: string, b: string)
    ensures NameCompare(a, b) < 0 <==> NameCompare(b, a) > 0
    decreases |a|
  {
    if a != "" && b != "" { NameAntisymmetric(a[1..], b[1..]); }
  }

  lemma {:induction false} NameTransitive(a: string, b: string, c: string)
    requires NameCompare(a, b) <= 0 && NameCompare(b, c) <= 0
    ensures NameCompare(a, c) <= 0
    ensures NameCompare(a, b) < 0 || NameCompare(b, c) < 0 ==> NameCompare(a, c) < 0
    decreases |a|
  {
    if a != "" && b != "" && c != "" && a[0] == b[0] == c[0] { NameTransitive(a[1..], b[1..], c[1..]); }
  }

  lemma CompareConsistent(es: seq<Entry>)
    ensures Consistent(Compare(es))
  {
    var cmp := Compare(es);
    forall a, b ensures cmp(a, b) < 0 <==> cmp(b, a) > 0 {
      NameAntisymmetric(NameOf(es, a), NameOf(es, b));
    }
    forall a, b, c | cmp(a, b) <= 0 && cmp(b, c) <= 0 ensures cmp(a, c) <= 0 {
      CompareTransitive(es, a, b, c);
    }
  }

  lemma CompareTransitive(es: seq<Entry>, a: Match, b: Match, c: Match)
    requires Compare(es)(a, b) <= 0 && Compare(es)(b, c) <= 0
    ensures Compare(es)(a, c) <= 0
  {
    hide NameCompare;
    if a.tier == b.tier == c.tier && a.start == b.start == c.start
       && |NameOf(es, a)| == |NameOf(es, b)| == |NameOf(es, c)| {
      NameTransitive(NameOf(es, a), NameOf(es, b), NameOf(es, c));
    }
  }

  /** Name `a` stands before `b` in a dictionary: smaller where they first differ, or the beginning of `b`. */
  predicate Precedes(a: string, b: string) {
    a < b || exists i :: 0 <= i < |a| && i < |b| && a[..i] == b[..i] && a[i] < b[i]
  }

  lemma {:induction false} NameComparePrecedes(a: string, b: string)
    ensures NameCompare(a, b) < 0 <==> Precedes(a, b)
    ensures NameCompare(a, b) == 0 <==> a == b
    decreases |a|
  {
    hide Precedes;
    if a == "" || b == "" {
      EmptyPrecedes(a, b);
    } else if a[0] == b[0] {
      NameComparePrecedes(a[1..], b[1..]);
      PrecedesTail(a, b);
      assert a == [a[0]] + a[1..] && b == [b[0]] + b[1..];
    } else {
      FirstDecides(a, b);
    }
  }

  lemma EmptyPrecedes(a: string, b: string)
    requires a == "" || b == ""
    ensures Precedes(a, b) <==> a == "" && b != ""
  {
  }

  lemma FirstDecides(a: string, b: string)
    requires a != "" && b != "" && a[0] != b[0]
    ensures Precedes(a, b) <==> a[0] < b[0]
  {
    assert a[..0] == b[..0];
    forall i | 0 < i < |a| && i < |b| ensures a[..i] != b[..i] { assert a[..i][0] == a[0] && b[..i][0] == b[0]; }
  }

  /** The place where two strings first differ, seen with and without their equal first characters. */
  lemma DifferAt(s: string, t: string, c: char, i: nat)
    requires i < |s| && i < |t|
    ensures s[..i] == t[..i] <==> ([c] + s)[..i + 1] == ([c] + t)[..i + 1]
    ensures ([c] + s)[i + 1] == s[i] && ([c] + t)[i + 1] == t[i]
  {
    assert ([c] + s)[..i + 1] == [c] + s[..i] && ([c] + t)[..i + 1] == [c] + t[..i];
    assert ([c] + s[..i])[1..] == s[..i] && ([c] + t[..i])[1..] == t[..i];
  }

  lemma PrecedesTail(a: string, b: string)
    requires a != "" && b != "" && a[0] == b[0]
    ensures Precedes(a, b) <==> Precedes(a[1..], b[1..])
  {
    var s, t := a[1..], b[1..];
    assert a == [a[0]] + s && b == [a[0]] + t;
    if Precedes(a, b) && !(a < b) {
      var i :| 0 <= i < |a| && i < |b| && a[..i] == b[..i] && a[i] < b[i];
      DifferAt(s, t, a[0], i - 1);
    }
    if Precedes(s, t) && !(s < t) {
      var i :| 0 <= i < |s| && i < |t| && s[..i] == t[..i] && s[i] < t[i];
      DifferAt(s, t, a[0], i);
    }
  }

  /** A match ranks before another iff it is exact and the other is not, or ends its name and the other does not; or, of
      one kind, starts earlier; or, at one start, has the shorter name; or, of one length, the name that comes first. */
  lemma RankMeans(es: seq<Entry>, a: Match, b: Match)
    ensures Compare(es)(a, b) < 0 <==>
              || (a.tier == Exact && b.tier != Exact) || (a.tier == Suffix && b.tier == Contains)
              || (a.tier == b.tier && a.start < b.start)
              || (a.tier == b.tier && a.start == b.start && |NameOf(es, a)| < |NameOf(es, b)|)
              || (a.tier == b.tier && a.start == b.start && |NameOf(es, a)| == |NameOf(es, b)|
                  && Precedes(NameOf(es, a), NameOf(es, b)))
  {
    NameComparePrecedes(NameOf(es, a), NameOf(es, b));
    hide NameCompare, Precedes, NameOf;
  }

  // --- Ranking by insertion ---

  /** Behind everything that is not after it. */
  function Insert<T>(cmp: (T, T) -> int, s: seq<T>, m: T): (r: seq<T>)
    ensures |r| == |s| + 1
  {
    if s == [] then [m] else if cmp(m, s[0]) < 0 then [m] + s else [s[0]] + Insert(cmp, s[1..], m)
  }

  function Ranked<T>(cmp: (T, T) -> int, found: seq<T>): (r: seq<T>)
    ensures |r| == |found|
  {
    if found == [] then [] else Insert(cmp, Ranked(cmp, found[..|found| - 1]), found[|found| - 1])
  }

  function Top<T>(s: seq<T>, cap: nat): seq<T> {
    s[..Min(cap, |s|)]
  }

  lemma {:induction false} InsertMembers<T>(cmp: (T, T) -> int, s: seq<T>, m: T)
    ensures forall x :: x in Insert(cmp, s, m) <==> x == m || x in s
    decreases |s|
  {
    if s != [] { InsertMembers(cmp, s[1..], m); }
  }

  lemma {:induction false} InsertInOrder<T(!new)>(cmp: (T, T) -> int, s: seq<T>, m: T)
    requires Consistent(cmp) && InOrder(cmp, s)
    ensures InOrder(cmp, Insert(cmp, s, m))
    decreases |s|
  {
    if s != [] {
      InOrderTail(cmp, s);
      if cmp(m, s[0]) < 0 {
        assert forall y :: y in s ==> y == s[0] || y in s[1..];
        InOrderCons(cmp, m, s);
      } else {
        InsertInOrder(cmp, s[1..], m);
        InsertMembers(cmp, s[1..], m);
        InOrderCons(cmp, s[0], Insert(cmp, s[1..], m));
      }
    }
  }

  lemma {:induction false} InsertKeepsTies<T(!new)>(cmp: (T, T) -> int, s: seq<T>, m: T, x: T)
    requires Consistent(cmp) && InOrder(cmp, s)
    ensures Filter(Insert(cmp, s, m), Like(cmp, x)) == Filter(s, Like(cmp, x)) + Filter([m], Like(cmp, x))
    decreases |s|
  {
    hide Filter, Consistent, InOrder;
    var p := Like(cmp, x);
    if s == [] {
      FilterNothing(p);
    } else if cmp(m, s[0]) < 0 {
      FilterCons(m, s, p);
      FilterOne(m, p);
      if p(m) { LowerUnlike(cmp, s, m, x); }
    } else {
      InOrderTail(cmp, s);
      InsertKeepsTies(cmp, s[1..], m, x);
      FilterCons(s[0], Insert(cmp, s[1..], m), p);
      FilterCons(s[0], s[1..], p);
      assert s == [s[0]] + s[1..];
      Regroup(if p(s[0]) then [s[0]] else [], Filter(s[1..], p), Filter([m], p));
    }
  }

  lemma FilterNothing<T>(p: T -> bool)
    ensures Filter([], p) == []
  {
  }

  lemma LowerUnlike<T(!new)>(cmp: (T, T) -> int, s: seq<T>, m: T, x: T)
    requires Consistent(cmp) && InOrder(cmp, s) && s != [] && cmp(m, s[0]) < 0 && cmp(m, x) == 0
    ensures Filter(s, Like(cmp, x)) == []
  {
    NoneLike(cmp, s, m, x);
  }

  lemma InsertExtends<T(!new)>(cmp: (T, T) -> int, found: seq<T>, ranked: seq<T>, m: T)
    requires Consistent(cmp) && InOrder(cmp, ranked) && KeepsTies(cmp, found, ranked)
    ensures KeepsTies(cmp, found + [m], Insert(cmp, ranked, m))
  {
    hide Filter, Insert, Consistent, InOrder;
    forall x: T ensures Filter(found + [m], Like(cmp, x)) == Filter(Insert(cmp, ranked, m), Like(cmp, x)) {
      InsertKeepsTies(cmp, ranked, m, x);
      FilterJoin(found, [m], Like(cmp, x));
    }
  }

  lemma RankedStep<T>(cmp: (T, T) -> int, found: seq<T>)
    requires found != []
    ensures var init, last := found[..|found| - 1], found[|found| - 1];
            Ranked(cmp, found) == Insert(cmp, Ranked(cmp, init), last) && found == init + [last]
  {
    hide Insert;
  }

  lemma NothingRanked<T(!new)>(cmp: (T, T) -> int)
    ensures Ranked(cmp, []) == [] && InOrder(cmp, []) && KeepsTies(cmp, [], [])
  {
  }

  /** Insertion one by one is a stable sort. */
  lemma {:induction false} RankedIsStableSort<T(!new)>(cmp: (T, T) -> int, found: seq<T>)
    requires Consistent(cmp)
    ensures InOrder(cmp, Ranked(cmp, found)) && KeepsTies(cmp, found, Ranked(cmp, found))
    decreases |found|
  {
    hide *;
    if found == [] {
      NothingRanked(cmp);
    } else {
      var init, last := found[..|found| - 1], found[|found| - 1];
      RankedIsStableSort(cmp, init);
      RankedStep(cmp, found);
      InsertInOrder(cmp, Ranked(cmp, init), last);
      InsertExtends(cmp, init, Ranked(cmp, init), last);
    }
  }

  /** What does not make the top now never makes it. */
  lemma {:induction false} TopInsert<T>(cmp: (T, T) -> int, s: seq<T>, m: T, cap: nat)
    ensures Top(Insert(cmp, Top(s, cap), m), cap) == Top(Insert(cmp, s, m), cap)
    decreases |s|
  {
    if s != [] && cap > 0 {
      var t := s[1..];
      assert Top(s, cap) == [s[0]] + Top(t, cap - 1);
      if cmp(m, s[0]) >= 0 {
        TopInsert(cmp, t, m, cap - 1);
        TopCons(s[0], Insert(cmp, t, m), cap);
        TopCons(s[0], Insert(cmp, Top(t, cap - 1), m), cap);
        assert Top(s, cap)[1..] == Top(t, cap - 1);
      } else {
        assert Top([m] + Top(s, cap), cap) == Top([m] + s, cap);
      }
    }
  }

  lemma TopCons<T>(x: T, s: seq<T>, cap: nat)
    requires cap > 0
    ensures Top([x] + s, cap) == [x] + Top(s, cap - 1)
  {
  }

  lemma {:induction false} InsertIs<T>(cmp: (T, T) -> int, s: seq<T>, m: T, pos: nat)
    requires pos <= |s| && (forall i :: 0 <= i < pos ==> cmp(m, s[i]) >= 0) && (pos < |s| ==> cmp(m, s[pos]) < 0)
    ensures Insert(cmp, s, m) == s[..pos] + [m] + s[pos..]
    decreases |s|
  {
    if pos > 0 {
      InsertIs(cmp, s[1..], m, pos - 1);
      assert s[..pos] == [s[0]] + s[1..][..pos - 1] && s[1..][pos - 1..] == s[pos..];
    }
  }
}
