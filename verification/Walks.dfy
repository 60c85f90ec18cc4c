/** Directed weighted graphs, the walks through them, and what those walks weigh:
    the reference notions against which the shortest-path solver is judged. */
module Walks {

  datatype Edge = Edge(target: nat, weight: real)

  /** Out-edges of each node, in insertion order. */
  type Graph = seq<seq<Edge>>

  /** One step of a walk: edge number `edge` of node `from`. */
  datatype Hop = Hop(from: nat, edge: nat)

  /** Every edge leads to a node of the graph, as adding an edge enforces. */
  ghost predicate WellFormed(g: Graph) {
    forall u, e :: 0 <= u < |g| && 0 <= e < |g[u]| ==> g[u][e].target < |g|
  }

  ghost predicate NonNegative(g: Graph) {
    forall u, e :: 0 <= u < |g| && 0 <= e < |g[u]| ==> g[u][e].weight >= 0.0
  }

  predicate IsHop(g: Graph, h: Hop) {
    h.from < |g| && h.edge < |g[h.from]|
  }

  /** `hops` leads from `start` to `end`. */
  predicate IsWalk(g: Graph, start: nat, hops: seq<Hop>, end: nat) {
    if hops == [] then start == end
    else
      var last := hops[|hops| - 1];
      IsHop(g, last) && g[last.from][last.edge].target == end && IsWalk(g, start, hops[..|hops| - 1], last.from)
  }

  function Weight(g: Graph, hops: seq<Hop>): real
    requires forall h :: h in hops ==> IsHop(g, h)
  {
    if hops == [] then 0.0
    else
      var last := hops[|hops| - 1];
      assert IsHop(g, last);
      Weight(g, hops[..|hops| - 1]) + g[last.from][last.edge].weight
  }

  /** The nodes a walk visits, first to last. */
  function Nodes(hops: seq<Hop>, end: nat): (p: seq<nat>)
    ensures |p| == |hops| + 1 && p[|hops|] == end
  {
    if hops == [] then [end]
    else Nodes(hops[..|hops| - 1], hops[|hops| - 1].from) + [end]
  }

  /** `hops` is a walk and weighs `w`. */
  ghost predicate Weighs(g: Graph, start: nat, hops: seq<Hop>, end: nat, w: real) {
    && IsWalk(g, start, hops, end)
    && (forall h :: h in hops ==> IsHop(g, h))
    && Weight(g, hops) == w
  }

  /** Appending one hop appends its target and adds its weight. */
  lemma ExtendWalk(g: Graph, start: nat, hops: seq<Hop>, u: nat, w: real, e: nat)
    requires Weighs(g, start, hops, u, w) && u < |g| && e < |g[u]|
    ensures Weighs(g, start, hops + [Hop(u, e)], g[u][e].target, w + g[u][e].weight)
    ensures Nodes(hops + [Hop(u, e)], g[u][e].target) == Nodes(hops, u) + [g[u][e].target]
  {
    assert (hops + [Hop(u, e)])[..|hops|] == hops;
  }

  function Sum(counts: seq<nat>): nat {
    if counts == [] then 0 else Sum(counts[..|counts| - 1]) + counts[|counts| - 1]
  }

  function Degrees(g: Graph): (d: seq<nat>)
    ensures |d| == |g|
  {
    seq(|g|, i requires 0 <= i < |g| => |g[i]|)
  }

  /** Number of edges of the graph. */
  function EdgeTotal(g: Graph): nat {
    Sum(Degrees(g))
  }

  lemma {:induction false} SumBump(counts: seq<nat>, i: nat)
    requires i < |counts|
    ensures Sum(counts[i := counts[i] + 1]) == Sum(counts) + 1
  {
    var n := |counts| - 1;
    var bumped := counts[i := counts[i] + 1];
    if i == n {
      assert bumped[..n] == counts[..n];
    } else {
      assert bumped[..n] == counts[..n][i := counts[i] + 1];
      SumBump(counts[..n], i);
    }
  }

  lemma {:induction false} SumMonotone(a: seq<nat>, b: seq<nat>)
    requires |a| == |b| && forall i :: 0 <= i < |a| ==> a[i] <= b[i]
    ensures Sum(a) <= Sum(b)
    ensures (exists i :: 0 <= i < |a| && a[i] < b[i]) ==> Sum(a) < Sum(b)
  {
    if a != [] {
      SumMonotone(a[..|a| - 1], b[..|b| - 1]);
      if i :| 0 <= i < |a| && a[i] < b[i] {
        assert i == |a| - 1 || a[..|a| - 1][i] < b[..|b| - 1][i];
      }
    }
  }

  lemma {:induction false} SumZero(a: seq<nat>)
    requires forall i :: 0 <= i < |a| ==> a[i] == 0
    ensures Sum(a) == 0
  {
    if a != [] { SumZero(a[..|a| - 1]); }
  }

  /** Distinct node numbers below `n` are at most `n` many. */
  lemma {:induction false} DistinctBounded(s: seq<nat>, n: nat)
    requires forall i :: 0 <= i < |s| ==> s[i] < n
    requires forall i, j :: 0 <= i < j < |s| ==> s[i] != s[j]
    ensures |s| <= n
  {
    if s != [] {
      if k :| 0 <= k < |s| && s[k] == n - 1 {
        var t := s[..k] + s[k + 1..];
        forall i | 0 <= i < |t| ensures t[i] < n - 1 {
          assert t[i] == if i < k then s[i] else s[i + 1];
        }
        DistinctBounded(t, n - 1);
      } else {
        assert s[0] < n;
        DistinctBounded(s, n - 1);
      }
    }
  }

  /** If every settled node has all its edges relaxed and every other node is at least `bound`
      away, then no walk undercuts both its end's dist and the bound. */
  lemma {:induction false} LabelsAreLowerBounds(
      g: Graph, start: nat, dist: seq<real>, settled: seq<bool>, bound: real, hops: seq<Hop>, x: nat)
    requires WellFormed(g) && NonNegative(g) && start < |g|
    requires |dist| == |settled| == |g| && dist[start] <= 0.0
    requires forall u, e :: 0 <= u < |g| && settled[u] && 0 <= e < |g[u]| ==>
               dist[g[u][e].target] <= dist[u] + g[u][e].weight
    requires forall y :: 0 <= y < |g| && !settled[y] ==> dist[y] >= bound
    requires IsWalk(g, start, hops, x) && forall h :: h in hops ==> IsHop(g, h)
    ensures x < |g| && (Weight(g, hops) >= bound || Weight(g, hops) >= dist[x])
  {
    if hops != [] {
      var init, last := hops[..|hops| - 1], hops[|hops| - 1];
      LabelsAreLowerBounds(g, start, dist, settled, bound, init, last.from);
      assert g[last.from][last.edge].weight >= 0.0;
    }
  }
}
