/** Dotted names, the postings of their segments, and what a query means by naive scan. */
module Segments {

  const NAME_MAX: nat := 23
  const QUERY_MAX: nat := 12

  /** A name and how many of its segments have been posted. */
  datatype Entry = Entry(name: string, payload: int, segments: nat)

  datatype Posting = Posting(entry: nat, position: nat)

  datatype Tier = Exact | Suffix | Contains

  datatype Match = Match(payload: int, entry: nat, start: nat, tier: Tier)

  // --- Names ---

  /** Where the segment that starts at `p` ends. */
  function Dot(s: string, p: nat): (d: nat)
    requires p <= |s|
    ensures p <= d <= |s| && (d < |s| ==> s[d] == '.') && forall i :: p <= i < d ==> s[i] != '.'
    decreases |s| - p
  {
    if p == |s| || s[p] == '.' then p else Dot(s, p + 1)
  }

  /** The segments from position `p` on; a dot at the very end starts none. */
  function Split(s: string, p: nat): seq<string>
    requires p <= |s|
    decreases |s| - p
  {
    if p == |s| then []
    else
      var d := Dot(s, p);
      [s[p..d]] + if d == |s| then [] else Split(s, d + 1)
  }

  /** The segments an entry was posted with: all of its name's, unless a posting was refused. */
  function Segs(e: Entry): seq<string> {
    if e.segments <= |Split(e.name, 0)| then Split(e.name, 0)[..e.segments] else Split(e.name, 0)
  }

  predicate NoneEmpty(segs: seq<string>) {
    forall i :: 0 <= i < |segs| ==> segs[i] != ""
  }

  lemma SplitStep(s: string, p: nat)
    requires p < |s|
    ensures var d := Dot(s, p); Split(s, p) == [s[p..d]] + if d == |s| then [] else Split(s, d + 1)
  {
  }

  lemma SplitEnd(s: string)
    ensures Split(s, |s|) == []
  {
  }

  lemma FirstNonEmpty(first: string, rest: seq<string>)
    requires NoneEmpty([first] + rest)
    ensures first != "" && NoneEmpty(rest)
  {
    assert ([first] + rest)[0] == first;
    forall i | 0 <= i < |rest| ensures rest[i] != "" {
      assert ([first] + rest)[i + 1] == rest[i];
    }
  }

  /** The segments with dots between them. */
  function Dotted(segs: seq<string>): string {
    if segs == [] then "" else if |segs| == 1 then segs[0] else segs[0] + "." + Dotted(segs[1..])
  }

  /** The segments are what stands between the dots of a name, of which one at its very end counts for nothing. */
  lemma {:induction false} SegmentsSpell(s: string, p: nat)
    requires p <= |s|
    ensures forall i :: 0 <= i < |Split(s, p)| ==> '.' !in Split(s, p)[i]
    ensures s[p..] == Dotted(Split(s, p)) || (s[p..] == Dotted(Split(s, p)) + "." && Split(s, p) != [])
    decreases |s| - p
  {
    hide Split, Dot, Dotted;
    SplitEnd(s);
    DottedFirst("", []);
    if p < |s| {
      var d := Dot(s, p);
      var rest := if d == |s| then [] else Split(s, d + 1);
      SplitStep(s, p);
      DottedFirst(s[p..d], rest);
      if d < |s| {
        SegmentsSpell(s, d + 1);
        assert s[p..] == s[p..d] + "." + s[d + 1..];
        if d + 1 == |s| { assert s[d + 1..] == ""; }
      }
    }
  }

  lemma DottedFirst(first: string, rest: seq<string>)
    ensures Dotted([]) == "" && Dotted([first]) == first
    ensures rest != [] ==> Dotted([first] + rest) == first + "." + Dotted(rest)
    ensures rest == [] ==> [first] + rest == [first]
  {
  }

  /** A name of 23 characters has at most 12 non-empty segments, so no query is cut. */
  lemma {:induction false} FewSegments(s: string, p: nat)
    requires p <= |s| && NoneEmpty(Split(s, p))
    ensures 2 * |Split(s, p)| <= |s| - p + 1
    decreases |s| - p
  {
    hide NoneEmpty, Split, Dot;
    SplitEnd(s);
    if p < |s| {
      var d := Dot(s, p);
      var rest := if d == |s| then [] else Split(s, d + 1);
      SplitStep(s, p);
      FirstNonEmpty(s[p..d], rest);
      if d < |s| { FewSegments(s, d + 1); }
    }
  }

  // --- What a query means ---

  /** The query stands in the segments at `start`. */
  predicate OccursAt(segs: seq<string>, start: nat, q: seq<string>) {
    start + |q| <= |segs| && segs[start..start + |q|] == q
  }

  function TierOf(segs: seq<string>, start: nat, q: seq<string>): Tier {
    if |q| == |segs| && start == 0 then Exact
    else if start + |q| == |segs| then Suffix
    else Contains
  }

  /** A match is exact if the query is all there is, a suffix if something stands before it and nothing behind. */
  lemma TierMeans(before: seq<string>, q: seq<string>, behind: seq<string>)
    ensures var segs := before + q + behind;
            && OccursAt(segs, |before|, q)
            && TierOf(segs, |before|, q)
               == if behind != [] then Contains else if before != [] then Suffix else Exact
  {
  }

  function MatchAt(es: seq<Entry>, e: nat, start: nat, q: seq<string>): Match
    requires e < |es|
  {
    Match(es[e].payload, e, start, TierOf(Segs(es[e]), start, q))
  }

  /** All matches by naive scan: every entry, every start. */
  function AllMatches(es: seq<Entry>, q: seq<string>): set<Match> {
    set e: nat, start: nat |
      e < |es| && start < |Segs(es[e])| && OccursAt(Segs(es[e]), start, q) :: MatchAt(es, e, start, q)
  }

  // --- Postings ---

  /** The postings of a segment among the first `n` segments of one entry. */
  function Positions(entry: nat, segs: seq<string>, seg: string, n: nat): seq<Posting>
    requires n <= |segs|
  {
    if n == 0 then []
    else Positions(entry, segs, seg, n - 1) + if segs[n - 1] == seg then [Posting(entry, n - 1)] else []
  }

  /** The postings of a segment, in order of entries and positions. */
  function PostingsOf(es: seq<Entry>, seg: string): seq<Posting> {
    if es == [] then []
    else
      var last := |es| - 1;
      PostingsOf(es[..last], seg) + Positions(last, Segs(es[last]), seg, |Segs(es[last])|)
  }

  predicate Before(a: Posting, b: Posting) {
    a.entry < b.entry || (a.entry == b.entry && a.position < b.position)
  }

  predicate Rising(list: seq<Posting>) {
    forall i, j :: 0 <= i < j < |list| ==> Before(list[i], list[j])
  }

  lemma {:induction false} PositionsAre(entry: nat, segs: seq<string>, seg: string, n: nat)
    requires n <= |segs|
    ensures Rising(Positions(entry, segs, seg, n))
    ensures forall p :: p in Positions(entry, segs, seg, n) <==>
              p.entry == entry && p.position < n && segs[p.position] == seg
  {
    if n > 0 {
      PositionsAre(entry, segs, seg, n - 1);
      var init, tail := Positions(entry, segs, seg, n - 1), if segs[n - 1] == seg then [Posting(entry, n - 1)] else [];
      assert Positions(entry, segs, seg, n) == init + tail;
      hide Positions;
      forall p: Posting ensures p in init + tail <==> p.entry == entry && p.position < n && segs[p.position] == seg {
        assert p in init + tail <==> p in init || p in tail;
      }
    }
  }

  lemma {:induction false} PostingsAre(es: seq<Entry>, seg: string)
    ensures Rising(PostingsOf(es, seg))
    ensures forall p :: p in PostingsOf(es, seg) <==>
              p.entry < |es| && p.position < |Segs(es[p.entry])| && Segs(es[p.entry])[p.position] == seg
    decreases |es|
  {
    if es != [] {
      var last := |es| - 1;
      PostingsAre(es[..last], seg);
      PositionsAre(last, Segs(es[last]), seg, |Segs(es[last])|);
      hide Segs;
      var a, b := PostingsOf(es[..last], seg), Positions(last, Segs(es[last]), seg, |Segs(es[last])|);
      forall i, j | 0 <= i < |a| && 0 <= j < |b| ensures Before(a[i], b[j]) {
        assert a[i] in a && b[j] in b;
      }
    }
  }

  // --- Matches found along one list of postings ---

  /** The match a posting of the query's segment number `r` stands for, if it does. */
  function Hit(es: seq<Entry>, q: seq<string>, r: nat, p: Posting): seq<Match> {
    if p.position >= r && p.entry < |es| && OccursAt(Segs(es[p.entry]), p.position - r, q)
    then [MatchAt(es, p.entry, p.position - r, q)] else []
  }

  function Hits(es: seq<Entry>, q: seq<string>, r: nat, list: seq<Posting>): seq<Match> {
    if list == [] then [] else Hits(es, q, r, list[..|list| - 1]) + Hit(es, q, r, list[|list| - 1])
  }

  predicate MatchBefore(a: Match, b: Match) {
    a.entry < b.entry || (a.entry == b.entry && a.start < b.start)
  }

  lemma {:induction false} HitsAre(es: seq<Entry>, q: seq<string>, r: nat, list: seq<Posting>)
    requires Rising(list)
    ensures forall i, j :: 0 <= i < j < |Hits(es, q, r, list)| ==>
              MatchBefore(Hits(es, q, r, list)[i], Hits(es, q, r, list)[j])
    ensures forall m :: m in Hits(es, q, r, list) <==> exists p :: p in list && Hit(es, q, r, p) == [m]
    decreases |list|
  {
    if list != [] {
      var init, last := list[..|list| - 1], list[|list| - 1];
      HitsAre(es, q, r, init);
      hide OccursAt, Segs;
      assert list == init + [last];
      forall m | m in Hits(es, q, r, init) && Hit(es, q, r, last) != [] ensures MatchBefore(m, Hit(es, q, r, last)[0]) {
        var p :| p in init && Hit(es, q, r, p) == [m];
        assert Before(p, last);
      }
    }
  }

  /** Along the postings of any one segment of the query, every match of the naive scan is found, once. */
  lemma HitsAreAllMatches(es: seq<Entry>, q: seq<string>, r: nat)
    requires r < |q|
    ensures var found := Hits(es, q, r, PostingsOf(es, q[r]));
            (forall m :: m in found <==> m in AllMatches(es, q)) && |found| == |AllMatches(es, q)|
  {
    var list := PostingsOf(es, q[r]);
    var found := Hits(es, q, r, list);
    PostingsAre(es, q[r]);
    HitsAre(es, q, r, list);
    forall m | m in AllMatches(es, q) ensures m in found {
      MatchIsHit(es, q, r, m);
    }
    forall m | m in found ensures m in AllMatches(es, q) {
      var p :| p in list && Hit(es, q, r, p) == [m];
      HitIsMatch(es, q, r, p, m);
    }
    DistinctCount(found, AllMatches(es, q));
  }

  lemma MatchIsHit(es: seq<Entry>, q: seq<string>, r: nat, m: Match)
    requires r < |q| && m in AllMatches(es, q)
    ensures exists p :: p in PostingsOf(es, q[r]) && Hit(es, q, r, p) == [m]
  {
    var e: nat, start: nat :| e < |es| && start < |Segs(es[e])| && OccursAt(Segs(es[e]), start, q)
                              && m == MatchAt(es, e, start, q);
    var segs, p := Segs(es[e]), Posting(e, start + r);
    assert segs[start + r] == segs[start..start + |q|][r] == q[r];
    PostingsAre(es, q[r]);
    assert p in PostingsOf(es, q[r]) && Hit(es, q, r, p) == [m];
  }

  lemma HitIsMatch(es: seq<Entry>, q: seq<string>, r: nat, p: Posting, m: Match)
    requires r < |q| && Hit(es, q, r, p) == [m]
    ensures m in AllMatches(es, q)
  {
    var e, start := p.entry, p.position - r;
    assert e < |es| && OccursAt(Segs(es[e]), start, q) && start < |Segs(es[e])|;
  }

  lemma {:induction false} DistinctCount(found: seq<Match>, all: set<Match>)
    requires forall i, j :: 0 <= i < j < |found| ==> MatchBefore(found[i], found[j])
    requires forall m :: m in found <==> m in all
    ensures |found| == |all|
    decreases |found|
  {
    if found == [] {
      assert all == {};
    } else {
      var init, last := found[..|found| - 1], found[|found| - 1];
      assert found == init + [last];
      assert last !in init;
      DistinctCount(init, all - {last});
    }
  }
}
