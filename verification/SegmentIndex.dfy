/** The positional index of name segments, filled by adding names and asked by binary search in the
    rarest posting list. */
module SegmentIndex {
  import opened Options
  import opened Ordering
  import opened SegmentRank
  import opened Segments
  import opened Slices

  const NONE: int := -1

  /** Folding of names: what it accepts fits a name buffer. */
  type Fold = string -> Option<string>

  ghost predicate FitsBuffer(fold: Fold) {
    forall name :: fold(name).Some? ==> |fold(name).value| <= NAME_MAX
  }

  /** The segments of a query; none if it does not fold or has an empty segment. */
  function QuerySegments(fold: Fold, query: string): seq<string> {
    match fold(query)
    case None => []
    case Some(folded) => if NoneEmpty(Split(folded, 0)) then Split(folded, 0) else []
  }

  function ListOf(postings: map<string, seq<Posting>>, seg: string): seq<Posting> {
    if seg in postings then postings[seg] else []
  }

  /** All matches of a query in the order the index finds them. */
  function FoundBy(es: seq<Entry>, q: seq<string>): seq<Match> {
    if q == [] then [] else Hits(es, q, 0, PostingsOf(es, q[0]))
  }

  // --- Found in the same order whichever segment is rarest ---

  predicate RisingMatches(s: seq<Match>) {
    forall i, j :: 0 <= i < j < |s| ==> MatchBefore(s[i], s[j])
  }

  lemma RisingInit(a: seq<Match>)
    requires a != [] && RisingMatches(a)
    ensures RisingMatches(a[..|a| - 1]) && a[|a| - 1] !in a[..|a| - 1]
    ensures forall m :: m in a <==> m == a[|a| - 1] || m in a[..|a| - 1]
    ensures forall m :: m in a ==> m == a[|a| - 1] || MatchBefore(m, a[|a| - 1])
  {
    assert a == a[..|a| - 1] + [a[|a| - 1]];
  }

  lemma {:induction false} SameRising(a: seq<Match>, b: seq<Match>)
    requires RisingMatches(a) && RisingMatches(b) && forall m :: m in a <==> m in b
    ensures a == b
    decreases |a|
  {
    assert a != [] ==> a[0] in a;
    assert b != [] ==> b[0] in b;
    if a != [] {
      RisingInit(a);
      RisingInit(b);
      hide RisingMatches;
      var c, d, x, y := a[..|a| - 1], b[..|b| - 1], a[|a| - 1], b[|b| - 1];
      assert x in a && y in b;
      assert x == y;
      forall m: Match ensures m in c <==> m in d {
        assert m in a <==> m == x || m in c;
        assert m in b <==> m == y || m in d;
      }
      SameRising(c, d);
      assert a == c + [x] && b == d + [y];
    }
  }

  lemma FoundByAny(es: seq<Entry>, q: seq<string>, r: nat)
    requires r < |q|
    ensures Hits(es, q, r, PostingsOf(es, q[r])) == FoundBy(es, q)
  {
    PostingsAre(es, q[r]);
    PostingsAre(es, q[0]);
    HitsAre(es, q, r, PostingsOf(es, q[r]));
    HitsAre(es, q, 0, PostingsOf(es, q[0]));
    HitsAreAllMatches(es, q, r);
    HitsAreAllMatches(es, q, 0);
    hide Hits, AllMatches;
    SameRising(Hits(es, q, r, PostingsOf(es, q[r])), FoundBy(es, q));
  }

  // --- Looking a posting up ---

  /** Binary search by entry, then a scan of the entry's run. */
  method FindPosting(list: seq<Posting>, entry: nat, position: nat) returns (found: bool)
    requires Rising(list)
    ensures found == (Posting(entry, position) in list)
  {
    var lo, hi: nat := 0, |list|;
    while lo < hi
      invariant lo <= hi <= |list|
      invariant forall i :: 0 <= i < lo ==> list[i].entry < entry
      invariant forall i :: hi <= i < |list| ==> list[i].entry >= entry
    {
      var mid := lo + (hi - lo) / 2;
      if list[mid].entry < entry { lo := mid + 1; } else { hi := mid; }
    }
    var i := lo;
    while i < |list|
      invariant lo <= i <= |list|
      invariant forall j :: 0 <= j < i ==> list[j] != Posting(entry, position)
    {
      if list[i].entry != entry {
        assert forall j :: i < j < |list| ==> Before(list[i], list[j]);
        return false;
      }
      if list[i].position == position { return true; }
      i := i + 1;
    }
    return false;
  }

  /** A place of the query is there iff the posting for it is. */
  lemma PlaceByPosting(es: seq<Entry>, q: seq<string>, e: nat, start: nat, k: nat)
    requires k < |q|
    ensures Posting(e, start + k) in PostingsOf(es, q[k]) <==>
              e < |es| && start + k < |Segs(es[e])| && Segs(es[e])[start + k] == q[k]
  {
    hide PostingsOf, Segs, Rising;
    PostingsAre(es, q[k]);
    assert Posting(e, start + k).entry == e && Posting(e, start + k).position == start + k;
  }

  /** The query stands at `start` iff each of its segments has the posting for its place. */
  lemma OccursByPostings(es: seq<Entry>, q: seq<string>, e: nat, start: nat)
    requires q != []
    ensures (forall k :: 0 <= k < |q| ==> Posting(e, start + k) in PostingsOf(es, q[k]))
            <==> e < |es| && OccursAt(Segs(es[e]), start, q)
  {
    hide PostingsOf, Segs, OccursAt;
    if forall k :: 0 <= k < |q| ==> Posting(e, start + k) in PostingsOf(es, q[k]) {
      PlaceByPosting(es, q, e, start, |q| - 1);
      forall k | 0 <= k < |q| ensures start + k < |Segs(es[e])| && Segs(es[e])[start + k] == q[k] {
        PlaceByPosting(es, q, e, start, k);
      }
      OccursByPlaces(Segs(es[e]), start, q);
    }
    if e < |es| && OccursAt(Segs(es[e]), start, q) {
      OccursByPlaces(Segs(es[e]), start, q);
      forall k | 0 <= k < |q| ensures Posting(e, start + k) in PostingsOf(es, q[k]) {
        PlaceByPosting(es, q, e, start, k);
      }
    }
  }

  lemma OccursByPlaces(segs: seq<string>, start: nat, q: seq<string>)
    requires q != []
    ensures OccursAt(segs, start, q) <==> start + |q| <= |segs| && forall k :: 0 <= k < |q| ==> segs[start + k] == q[k]
  {
    if start + |q| <= |segs| {
      var t := segs[start..start + |q|];
      assert forall k :: 0 <= k < |q| ==> t[k] == segs[start + k];
    }
  }

  // --- Keeping the best ---

  lemma ShiftIsTop<T>(s: seq<T>, m: T, pos: nat, cap: nat, size: nat, after: seq<T>)
    requires pos <= |s| <= cap && pos < cap && size == Min(|s| + 1, cap) == |after|
    requires forall j :: 0 <= j < pos ==> after[j] == s[j]
    requires after[pos] == m
    requires forall j :: pos < j < size ==> after[j] == s[j - 1]
    ensures after == Top(s[..pos] + [m] + s[pos..], cap)
  {
  }

  /** Inserts a match into the best kept so far. */
  method InsertMatch<T(!new)>(cmp: (T, T) -> int, out: array<T>, cap: nat, kept: nat, m: T) returns (size: nat)
    requires kept <= cap <= out.Length && cap > 0
    modifies out
    ensures size <= cap && out[..size] == Top(Insert(cmp, old(out[..kept]), m), cap)
    ensures forall j :: cap <= j < out.Length ==> out[j] == old(out[j])
  {
    hide Insert, Top;
    ghost var s := out[..kept];
    var pos := 0;
    while pos < kept && cmp(m, out[pos]) >= 0
      invariant pos <= kept && forall i :: 0 <= i < pos ==> cmp(m, s[i]) >= 0
    {
      pos := pos + 1;
    }
    InsertIs(cmp, s, m, pos);
    if pos >= cap {
      TopOfFull(s, m, cap);
      return kept;
    }
    size := if kept < cap then kept + 1 else kept;
    var i := size - 1;
    while i > pos
      invariant pos <= i < size
      invariant forall j :: 0 <= j <= i && j < kept ==> out[j] == s[j]
      invariant forall j :: i < j < size ==> out[j] == s[j - 1]
      invariant forall j :: cap <= j < out.Length ==> out[j] == old(out[j])
    {
      out[i] := out[i - 1];
      i := i - 1;
    }
    out[pos] := m;
    ShiftIsTop(s, m, pos, cap, size, out[..size]);
  }

  lemma TopOfFull<T>(s: seq<T>, m: T, cap: nat)
    requires |s| == cap
    ensures Top(s[..cap] + [m] + s[cap..], cap) == s
  {
  }

  // --- The index ---

  lemma PostingsGrow(es: seq<Entry>, e: Entry, seg: string)
    ensures PostingsOf(es + [e], seg) == PostingsOf(es, seg) + Positions(|es|, Segs(e), seg, |Segs(e)|)
  {
    assert (es + [e])[..|es|] == es;
  }

  /** What is found is all there is. */
  lemma FoundIsAll(es: seq<Entry>, q: seq<string>)
    requires q != []
    ensures |FoundBy(es, q)| == |AllMatches(es, q)|
  {
    HitsAreAllMatches(es, q, 0);
  }

  lemma NothingFound(es: seq<Entry>, q: seq<string>, k: nat)
    requires k < |q| && PostingsOf(es, q[k]) == []
    ensures FoundBy(es, q) == [] && |AllMatches(es, q)| == 0
    ensures forall cmp: (Match, Match) -> int, cap: nat :: Top(Ranked(cmp, FoundBy(es, q)), cap) == []
  {
    FoundByAny(es, q, k);
    FoundIsAll(es, q);
  }

  lemma NothingHit(es: seq<Entry>, q: seq<string>, r: nat, list: seq<Posting>, cmp: (Match, Match) -> int, cap: nat)
    ensures Hits(es, q, r, list[..0]) == [] && Top(Ranked(cmp, []), cap) == []
  {
  }

  lemma HitsStep(es: seq<Entry>, q: seq<string>, r: nat, list: seq<Posting>, i: nat)
    requires i < |list|
    ensures Hits(es, q, r, list[..i + 1]) == Hits(es, q, r, list[..i]) + Hit(es, q, r, list[i])
  {
    assert list[..i + 1][..i] == list[..i];
  }

  lemma HitIs(es: seq<Entry>, q: seq<string>, r: nat, p: Posting)
    ensures Hit(es, q, r, p)
            == if p.position >= r && p.entry < |es| && OccursAt(Segs(es[p.entry]), p.position - r, q)
               then [MatchAt(es, p.entry, p.position - r, q)] else []
  {
  }

  /** Inserting into the best of what was found gives the best of what is found then. */
  lemma KeepsTop<T>(cmp: (T, T) -> int, found: seq<T>, m: T, cap: nat)
    ensures Top(Insert(cmp, Top(Ranked(cmp, found), cap), m), cap) == Top(Ranked(cmp, found + [m]), cap)
    ensures |Top(Ranked(cmp, found + [m]), cap)| == Min(cap, |found| + 1)
  {
    hide Insert, Ranked;
    RankedStep(cmp, found + [m]);
    assert (found + [m])[..|found|] == found;
    TopInsert(cmp, Ranked(cmp, found), m, cap);
  }

  function WithPosting(postings: map<string, seq<Posting>>, segment: string, p: Posting): map<string, seq<Posting>> {
    postings[segment := ListOf(postings, segment) + [p]]
  }

  /** The postings are those of the entries so far and of the first segments of the one being added. */
  ghost predicate Posted(postings: map<string, seq<Posting>>, es: seq<Entry>, segs: seq<string>, n: nat)
    requires n <= |segs|
  {
    forall seg: string ::
      ListOf(postings, seg) == PostingsOf(es, seg) + Positions(|es|, segs, seg, n)
  }

  lemma PostedNothing(postings: map<string, seq<Posting>>, es: seq<Entry>, segs: seq<string>)
    requires forall seg: string :: ListOf(postings, seg) == PostingsOf(es, seg)
    ensures Posted(postings, es, segs, 0)
  {
  }

  lemma PostedStep(postings: map<string, seq<Posting>>, es: seq<Entry>, segs: seq<string>, n: nat)
    requires n < |segs| && Posted(postings, es, segs, n)
    ensures Posted(WithPosting(postings, segs[n], Posting(|es|, n)), es, segs, n + 1)
  {
    hide PostingsOf, Positions, ListOf, WithPosting;
    var next, wider := n + 1, WithPosting(postings, segs[n], Posting(|es|, n));
    forall seg: string ensures ListOf(wider, seg) == PostingsOf(es, seg) + Positions(|es|, segs, seg, next) {
      OneMorePosting(postings, segs[n], Posting(|es|, n), seg);
      OneMorePosition(|es|, segs, seg, n);
      Regroup(PostingsOf(es, seg), Positions(|es|, segs, seg, n), if segs[n] == seg then [Posting(|es|, n)] else []);
    }
  }

  lemma OneMorePosting(postings: map<string, seq<Posting>>, segment: string, p: Posting, seg: string)
    ensures ListOf(WithPosting(postings, segment, p), seg) == ListOf(postings, seg) + if segment == seg then [p] else []
  {
  }

  lemma OneMorePosition(entry: nat, segs: seq<string>, seg: string, n: nat)
    requires n < |segs|
    ensures Positions(entry, segs, seg, n + 1)
            == Positions(entry, segs, seg, n) + if segs[n] == seg then [Posting(entry, n)] else []
  {
  }

  lemma {:induction false} PositionsOfFront(entry: nat, segs: seq<string>, n: nat, seg: string, k: nat)
    requires k <= n <= |segs|
    ensures Positions(entry, segs[..n], seg, k) == Positions(entry, segs, seg, k)
  {
    if k > 0 { PositionsOfFront(entry, segs, n, seg, k - 1); }
  }

  lemma PostedAll(postings: map<string, seq<Posting>>, es: seq<Entry>, e: Entry, segs: seq<string>, n: nat)
    requires n <= |segs| && Posted(postings, es, segs, n) && Segs(e) == segs[..n]
    ensures forall seg: string :: ListOf(postings, seg) == PostingsOf(es + [e], seg)
  {
    hide PostingsOf, Segs;
    forall seg: string ensures ListOf(postings, seg) == PostingsOf(es + [e], seg) {
      PostingsGrow(es, e, seg);
      PositionsOfFront(|es|, segs, n, seg, n);
    }
  }

  /** What the allocator and the hash map do when a posting is asked for: whether a new segment gets its list,
      and whether the list takes another row. */
  datatype Answer = Answer(minted: bool, taken: bool)

  /** The posting of segment `i` is refused: its list has no room, or there is no list yet and none is minted. */
  predicate Refused(known: set<string>, segs: seq<string>, answers: nat -> Answer, i: nat)
    requires i < |segs|
  {
    !answers(i).taken || (!answers(i).minted && segs[i] !in known && segs[i] !in segs[..i])
  }

  /** The first `n` postings are taken and the next, if there is one, is refused. */
  predicate TakenUpTo(known: set<string>, segs: seq<string>, answers: nat -> Answer, n: nat) {
    && n <= |segs| && (forall i :: 0 <= i < n ==> !Refused(known, segs, answers, i))
    && (n < |segs| ==> Refused(known, segs, answers, n))
  }

  lemma RefusedIff(known: set<string>, segs: seq<string>, answers: nat -> Answer, i: nat, keys: set<string>)
    requires i < |segs| && keys == known + Distinct(segs[..i])
    ensures Refused(known, segs, answers, i) <==> !(answers(i).taken && (answers(i).minted || segs[i] in keys))
  {
  }

  function Distinct(segs: seq<string>): set<string> {
    set seg | seg in segs
  }

  lemma NoneDistinct(segs: seq<string>)
    ensures Distinct(segs[..0]) == {}
  {
  }

  lemma DistinctGrows(segs: seq<string>, i: nat)
    requires i < |segs|
    ensures Distinct(segs[..i + 1]) == Distinct(segs[..i]) + {segs[i]}
  {
    assert segs[..i + 1] == segs[..i] + [segs[i]];
  }

  lemma PostedSame(postings: map<string, seq<Posting>>, postings': map<string, seq<Posting>>, es: seq<Entry>,
                   segs: seq<string>, n: nat)
    requires n <= |segs| && Posted(postings, es, segs, n)
             && forall seg: string :: ListOf(postings', seg) == ListOf(postings, seg)
    ensures Posted(postings', es, segs, n)
  {
    hide PostingsOf, ListOf;
  }

  /** Where the next segment starts. */
  function After(s: string, dot: nat): nat
    requires dot <= |s|
  {
    if dot == |s| then dot else dot + 1
  }

  lemma CutStep(s: string, segs: seq<string>, p: nat)
    requires p < |s| && segs + Split(s, p) == Split(s, 0)
    ensures var dot := Dot(s, p); (segs + [s[p..dot]]) + Split(s, After(s, dot)) == Split(s, 0)
    ensures Dot(s, p) == p ==> !NoneEmpty(Split(s, 0))
    ensures Dot(s, p) > p && NoneEmpty(segs) ==> NoneEmpty(segs + [s[p..Dot(s, p)]])
  {
    var dot := Dot(s, p);
    SplitStep(s, p);
    SplitEnd(s);
    hide Split;
    var segment, rest := s[p..dot], Split(s, After(s, dot));
    Regroup(segs, [segment], rest);
    assert Split(s, 0)[|segs|] == segment;
  }

  lemma NoneEmptyYet()
    ensures NoneEmpty([])
  {
  }

  class Index {
    const fold: Fold
    var entries: seq<Entry>
    var postings: map<string, seq<Posting>>

    /** Every segment has its postings. */
    ghost predicate Valid()
      reads this
    {
      && FitsBuffer(fold)
      && forall seg: string :: ListOf(postings, seg) == PostingsOf(entries, seg)
    }

    constructor (folding: Fold)
      requires FitsBuffer(folding)
      ensures Valid() && entries == [] && fold == folding
    {
      fold, entries, postings := folding, [], map[];
    }

    /** Appends one posting, minting the list of a new segment. A list that is minted and then takes no row
        stays. */
    method PostSegment(entry: nat, position: nat, segment: string, answer: Answer) returns (posted: bool)
      modifies this`postings
      ensures posted == (answer.taken && (answer.minted || segment in old(postings)))
      ensures posted ==> postings == WithPosting(old(postings), segment, Posting(entry, position))
      ensures !posted ==> forall seg: string :: ListOf(postings, seg) == ListOf(old(postings), seg)
    {
      if segment !in postings {
        if !answer.minted { return false; }
        postings := postings[segment := []];
      }
      if !answer.taken { return false; }
      postings := postings[segment := postings[segment] + [Posting(entry, position)]];
      posted := true;
    }

    /** Adds a name under its payload, if it folds and there is room for a row: the new entry, or none when a
        posting is refused. The entry is there in both cases, with the segments posted until then. */
    method Add(name: string, payload: int, room: bool, answers: nat -> Answer) returns (entry: int)
      requires Valid()
      modifies this
      ensures Valid()
      ensures fold(name).None? || !room ==> entry == NONE && entries == old(entries) && postings == old(postings)
      ensures fold(name).Some? && room ==>
                var segs := Split(fold(name).value, 0);
                && |entries| == |old(entries)| + 1
                && var last := entries[|old(entries)|];
                   && entries == old(entries) + [last] && last == Entry(fold(name).value, payload, last.segments)
                   && TakenUpTo(old(postings.Keys), segs, answers, last.segments)
                   && entry == (if last.segments == |segs| then |old(entries)| else NONE)
    {
      hide PostingsOf, Posted, Split, Dot, Refused, Distinct, ListOf;
      var folding := fold(name);
      if folding.None? || !room { return NONE; }
      var folded := folding.value;
      ghost var es, segs, known := entries, Split(folded, 0), postings.Keys;
      var row := |entries|;
      entries := entries + [Entry(folded, payload, 0)];
      var position, p, posted := 0, 0, true;
      PostedNothing(postings, es, segs);
      NoneDistinct(segs);
      while p < |folded| && posted
        invariant p <= |folded| && position <= |segs| && (posted ==> Split(folded, p) == segs[position..])
        invariant Posted(postings, es, segs, position) && entries == es + [Entry(folded, payload, 0)]
        invariant posted ==> postings.Keys == known + Distinct(segs[..position])
        invariant forall i :: 0 <= i < position ==> !Refused(known, segs, answers, i)
        invariant !posted ==> position < |segs| && Refused(known, segs, answers, position)
        decreases |folded| - p, posted
      {
        var dot := Dot(folded, p);
        SplitStep(folded, p);
        SplitEnd(folded);
        assert segs[position] == segs[position..][0] == folded[p..dot];
        assert segs[position + 1..] == segs[position..][1..];
        PostedStep(postings, es, segs, position);
        RefusedIff(known, segs, answers, position, postings.Keys);
        ghost var before := postings;
        posted := PostSegment(row, position, folded[p..dot], answers(position));
        if posted {
          DistinctGrows(segs, position);
          position := position + 1;
          p := After(folded, dot);
        } else {
          PostedSame(before, postings, es, segs, position);
        }
      }
      SplitEnd(folded);
      assert posted ==> |segs[position..]| == 0;
      entries := entries[row := entries[row].(segments := position)];
      entry := if posted then row else NONE;
      assert entries == es + [Entry(folded, payload, position)];
      PostedAll(postings, es, Entry(folded, payload, position), segs, position);
    }

    /** The segments of a folded query, at most 12; none when one is empty. */
    method SplitFold(query: string) returns (segs: seq<string>)
      requires FitsBuffer(fold)
      ensures segs == QuerySegments(fold, query)
    {
      hide Split, NoneEmpty, Dot;
      var folding := fold(query);
      if folding.None? { return []; }
      var folded := folding.value;
      assert |folded| <= NAME_MAX;
      segs := [];
      var p := 0;
      NoneEmptyYet();
      while p < |folded| && |segs| < QUERY_MAX
        invariant p <= |folded| && NoneEmpty(segs) && segs + Split(folded, p) == Split(folded, 0)
        invariant 2 * |segs| <= p + (if p == |folded| then 1 else 0)
        decreases |folded| - p
      {
        var dot := Dot(folded, p);
        CutStep(folded, segs, p);
        if dot == p { return []; }
        segs := segs + [folded[p..dot]];
        p := After(folded, dot);
      }
      SplitEnd(folded);
      assert segs + [] == segs;
    }

    /** The posting lists of a query's segments, and which of them is shortest; nothing if one is missing. */
    method GatherLists(q: seq<string>) returns (ok: bool, lists: seq<seq<Posting>>, rarest: nat)
      requires Valid() && q != []
      ensures ok ==>
                |lists| == |q| && rarest < |q| && forall k :: 0 <= k < |q| ==> lists[k] == PostingsOf(entries, q[k])
      ensures ok ==> forall k :: 0 <= k < |q| ==> |lists[rarest]| <= |lists[k]|
      ensures !ok ==> exists k :: 0 <= k < |q| && PostingsOf(entries, q[k]) == []
    {
      hide PostingsOf;
      lists, rarest := [], 0;
      var k := 0;
      while k < |q|
        invariant k <= |q| && |lists| == k && (if k > 0 then rarest < k else rarest == 0)
        invariant forall j :: 0 <= j < k ==> lists[j] == PostingsOf(entries, q[j])
        invariant forall j :: 0 <= j < k ==> |lists[rarest]| <= |lists[j]|
      {
        assert ListOf(postings, q[k]) == PostingsOf(entries, q[k]);
        if q[k] !in postings { return false, [], 0; }
        lists := lists + [postings[q[k]]];
        if k > 0 && |lists[k]| < |lists[rarest]| { rarest := k; }
        k := k + 1;
      }
      ok := true;
    }

    /** Whether the whole query stands where one of its segments was found. */
    method Stands(q: seq<string>, lists: seq<seq<Posting>>, entry: nat, start: nat) returns (ok: bool)
      requires q != [] && |lists| == |q| && forall k :: 0 <= k < |q| ==> lists[k] == PostingsOf(entries, q[k])
      ensures ok == (entry < |entries| && OccursAt(Segs(entries[entry]), start, q))
    {
      hide PostingsOf, OccursAt, Segs;
      OccursByPostings(entries, q, entry, start);
      var k := 0;
      while k < |q|
        invariant k <= |q| && forall j :: 0 <= j < k ==> Posting(entry, start + j) in PostingsOf(entries, q[j])
      {
        PostingsAre(entries, q[k]);
        var found := FindPosting(lists[k], entry, start + k);
        if !found { return false; }
        k := k + 1;
      }
      ok := true;
    }

    /** How the match covers its entry. */
    method Grade(q: seq<string>, entry: nat, start: nat) returns (m: Match)
      requires entry < |entries|
      ensures m == MatchAt(entries, entry, start, q)
    {
      var segments := |Segs(entries[entry])|;
      var tier := Contains;
      if |q| == segments && start == 0 { tier := Exact; } else if start + |q| == segments { tier := Suffix; }
      m := Match(entries[entry].payload, entry, start, tier);
    }

    /** Counts all matches of the naive scan and keeps the best of them: the first `cap` of the ranking of
        what is found in order of entries and starts, which is in order and leaves equals in that order. */
    method Query(query: string, out: array<Match>, cap: nat) returns (total: nat, truncated: bool)
      requires Valid() && cap <= out.Length
      modifies out
      ensures QuerySegments(fold, query) == [] || cap == 0 ==> total == 0 && !truncated
      ensures var q := QuerySegments(fold, query);
              q != [] && cap > 0 ==>
                && total == |AllMatches(entries, q)| && truncated == (total > cap)
                && out[..Min(cap, total)] == Top(Ranked(Compare(entries), FoundBy(entries, q)), cap)
      ensures var q := QuerySegments(fold, query);
              var ranking := Ranked(Compare(entries), FoundBy(entries, q));
              InOrder(Compare(entries), ranking) && KeepsTies(Compare(entries), FoundBy(entries, q), ranking)
      ensures forall j :: cap <= j < out.Length ==> out[j] == old(out[j])
    {
      hide PostingsOf, QuerySegments, AllMatches, Hits, Ranked, Compare, Valid, InOrder, KeepsTies, FoundBy;
      CompareConsistent(entries);
      RankedIsStableSort(Compare(entries), FoundBy(entries, QuerySegments(fold, query)));
      if cap == 0 { return 0, false; }
      assert FitsBuffer(fold) by { FoldFits(); }
      var q := SplitFold(query);
      if q == [] { return 0, false; }
      ghost var all := FoundBy(entries, q);
      FoundIsAll(entries, q);
      var ok, lists, rarest := GatherLists(q);
      if !ok {
        ghost var k :| 0 <= k < |q| && PostingsOf(entries, q[k]) == [];
        NothingFound(entries, q, k);
        return 0, false;
      }
      FoundByAny(entries, q, rarest);
      total, truncated := Collect(q, lists, rarest, out, cap);
    }

    lemma FoldFits()
      requires Valid()
      ensures FitsBuffer(fold)
    {
    }

    /** Goes through the candidates of the rarest segment. */
    method Collect(q: seq<string>, lists: seq<seq<Posting>>, rarest: nat, out: array<Match>, cap: nat)
      returns (total: nat, truncated: bool)
      requires q != [] && 0 < cap <= out.Length && rarest < |q|
      requires |lists| == |q| && forall k :: 0 <= k < |q| ==> lists[k] == PostingsOf(entries, q[k])
      modifies out
      ensures var found := Hits(entries, q, rarest, lists[rarest]);
              && total == |found| && truncated == (total > cap)
              && out[..Min(cap, total)] == Top(Ranked(Compare(entries), found), cap)
      ensures forall j :: cap <= j < out.Length ==> out[j] == old(out[j])
    {
      hide PostingsOf, Hits, Hit, Ranked, Compare, OccursAt, Segs, Insert, Top;
      var cand, cmp, kept, i := lists[rarest], Compare(entries), 0, 0;
      total := 0;
      NothingHit(entries, q, rarest, cand, cmp, cap);
      while i < |cand|
        invariant i <= |cand| && kept == Min(cap, total) && total == |Hits(entries, q, rarest, cand[..i])|
        invariant out[..kept] == Top(Ranked(cmp, Hits(entries, q, rarest, cand[..i])), cap)
        invariant forall j :: cap <= j < out.Length ==> out[j] == old(out[j])
      {
        var p := cand[i];
        HitsStep(entries, q, rarest, cand, i);
        assert Hits(entries, q, rarest, cand[..i]) + [] == Hits(entries, q, rarest, cand[..i]);
        if p.position >= rarest {
          var start := p.position - rarest;
          var ok := Stands(q, lists, p.entry, start);
          HitIs(entries, q, rarest, p);
          if ok {
            var m := Grade(q, p.entry, start);
            KeepsTop(cmp, Hits(entries, q, rarest, cand[..i]), m, cap);
            kept := InsertMatch(cmp, out, cap, kept, m);
            total := total + 1;
          }
        } else {
          HitIs(entries, q, rarest, p);
        }
        i := i + 1;
      }
      assert cand[..i] == cand;
      truncated := total > kept;
    }
  }
}
