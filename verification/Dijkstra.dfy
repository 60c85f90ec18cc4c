/** The shortest-path solver: best-first relaxation over the budgeted heap, then the
    predecessor chain written backwards into a 1024-entry scratch and reversed out. */
module Dijkstra {
  import opened MinQueue
  import opened Options
  import opened Walks

  const INFINITY: real := 1_000_000_000_000_000_000_000_000_000_000.0
  const NO_NODE: nat := 0xFFFF_FFFF
  const PATH_SCRATCH: nat := 1024

  /** Heap capacity, computed in 32-bit arithmetic. */
  function QueueBudget(nodeCount: nat): nat {
    (nodeCount * 4 + 16) % 0x1_0000_0000
  }

  /** A snapshot of the search. `relaxed` counts the out-edges already considered of each node
      and `walk` remembers how each label was reached; the rest is the solver's own scratch. */
  datatype Search = Search(
    dist: seq<real>, prev: seq<nat>, visited: seq<bool>, queue: multiset<QItem>,
    relaxed: seq<nat>, walk: seq<seq<Hop>>)

  ghost predicate Shape(g: Graph, st: Search) {
    |st.dist| == |st.prev| == |st.visited| == |st.relaxed| == |st.walk| == |g|
  }

  ghost predicate Distinct(p: seq<nat>) {
    forall i, j :: 0 <= i < j < |p| ==> p[i] != p[j]
  }

  /** All nodes but the last are visited. */
  ghost predicate Trodden(visited: seq<bool>, p: seq<nat>) {
    forall i :: 0 <= i < |p| - 1 ==> p[i] < |visited| && visited[p[i]]
  }

  /** A finite label is the weight of a real simple walk that the predecessor entries spell out. */
  ghost predicate Labelled(g: Graph, start: nat, st: Search, v: nat)
    requires Shape(g, st) && v < |g|
  {
    && Weighs(g, start, st.walk[v], v, st.dist[v])
    && Distinct(Nodes(st.walk[v], v))
    && Trodden(st.visited, Nodes(st.walk[v], v))
    && (v == start <==> st.walk[v] == [])
    && (v != start ==>
          var init, last := st.walk[v][..|st.walk[v]| - 1], st.walk[v][|st.walk[v]| - 1];
          last.from == st.prev[v] < |g| && init == st.walk[st.prev[v]])
  }

  ghost predicate QueueSound(g: Graph, st: Search)
    requires Shape(g, st)
  {
    forall it :: it in st.queue ==> it.node < |g| && st.dist[it.node] <= it.dist && st.dist[it.node] < INFINITY
  }

  ghost predicate Labels(g: Graph, start: nat, st: Search)
    requires Shape(g, st)
  {
    forall v :: 0 <= v < |g| && st.dist[v] < INFINITY ==> Labelled(g, start, st, v)
  }

  ghost predicate Ranges(g: Graph, start: nat, st: Search)
    requires Shape(g, st)
  {
    && start < |g| && st.dist[start] == 0.0
    && (forall v :: 0 <= v < |g| ==> st.dist[v] <= INFINITY)
    && (forall v :: 0 <= v < |g| && st.visited[v] ==> st.dist[v] < INFINITY)
  }

  /** What holds whatever the weights and however full the heap. */
  ghost predicate Sound(g: Graph, start: nat, st: Search) {
    Shape(g, st) && Ranges(g, start, st) && Labels(g, start, st) && QueueSound(g, st)
  }

  /** Every relaxed edge is satisfied. */
  ghost predicate EdgesSatisfied(g: Graph, st: Search)
    requires Shape(g, st)
  {
    forall u, e :: 0 <= u < |g| && 0 <= e < st.relaxed[u] && e < |g[u]| ==>
      g[u][e].target < |g| && st.dist[g[u][e].target] <= st.dist[u] + g[u][e].weight
  }

  /** Every labelled node still to be visited is queued under its label. */
  ghost predicate AllQueued(g: Graph, st: Search)
    requires Shape(g, st)
  {
    forall v :: 0 <= v < |g| && !st.visited[v] && st.dist[v] < INFINITY ==> QItem(v, st.dist[v]) in st.queue
  }

  ghost predicate VisitedNearest(g: Graph, st: Search)
    requires Shape(g, st)
  {
    forall u, v :: 0 <= u < |g| && 0 <= v < |g| && st.visited[u] && !st.visited[v] ==> st.dist[u] <= st.dist[v]
  }

  /** No visited label exceeds that of `u`. */
  ghost predicate Latest(st: Search, u: nat)
    requires |st.dist| == |st.visited| && u < |st.dist|
  {
    forall x :: 0 <= x < |st.dist| && st.visited[x] ==> st.dist[x] <= st.dist[u]
  }

  ghost predicate Complete(g: Graph, st: Search)
    requires Shape(g, st)
  {
    EdgesSatisfied(g, st) && AllQueued(g, st) && VisitedNearest(g, st)
  }

  /** The relaxation counters: unvisited nodes have none, visited ones (but `current`) all. */
  ghost predicate Counted(g: Graph, st: Search, current: nat)
    requires Shape(g, st)
  {
    && (forall v :: 0 <= v < |g| ==> st.relaxed[v] <= |g[v]|)
    && (forall v :: 0 <= v < |g| && !st.visited[v] ==> st.relaxed[v] == 0)
    && (forall v :: 0 <= v < |g| && st.visited[v] && v != current ==> st.relaxed[v] == |g[v]|)
  }

  function Settle(st: Search, u: nat): Search
    requires u < |st.visited|
  {
    st.(visited := st.visited[u := true])
  }

  /** The edge leads to an unvisited node on a shorter way. */
  predicate Improves(g: Graph, st: Search, u: nat, e: nat)
    requires |st.dist| == |st.visited| == |g| && u < |g| && e < |g[u]| && g[u][e].target < |g|
  {
    !st.visited[g[u][e].target] && st.dist[u] + g[u][e].weight < st.dist[g[u][e].target]
  }

  /** One relaxation of edge `e` of node `u`; `room` tells whether the heap takes the push. */
  function Relax(g: Graph, st: Search, u: nat, e: nat, room: bool): Search
    requires |st.dist| == |st.prev| == |st.visited| == |st.relaxed| == |st.walk| == |g|
    requires u < |g| && e < |g[u]| && g[u][e].target < |g|
  {
    var v, w := g[u][e].target, g[u][e].weight;
    var counted := st.(relaxed := st.relaxed[u := e + 1]);
    if Improves(g, st, u, e) then
      counted.(dist := st.dist[v := st.dist[u] + w], prev := st.prev[v := u],
               walk := st.walk[v := st.walk[u] + [Hop(u, e)]],
               queue := if room then st.queue + multiset{QItem(v, st.dist[u] + w)} else st.queue)
    else counted
  }

  lemma TargetInGraph(g: Graph, u: nat, e: nat)
    requires WellFormed(g) && u < |g| && e < |g[u]|
    ensures g[u][e].target < |g|
  {
  }

  lemma RelaxIs(g: Graph, st: Search, u: nat, e: nat, room: bool)
    requires |st.dist| == |st.prev| == |st.visited| == |st.relaxed| == |st.walk| == |g|
    requires u < |g| && e < |g[u]| && g[u][e].target < |g|
    ensures var v, d := g[u][e].target, st.dist[u] + g[u][e].weight;
            Relax(g, st, u, e, room)
            == if !st.visited[v] && d < st.dist[v]
               then Search(st.dist[v := d], st.prev[v := u], st.visited,
                           if room then st.queue + multiset{QItem(v, d)} else st.queue, st.relaxed[u := e + 1],
                           st.walk[v := st.walk[u] + [Hop(u, e)]])
               else st.(relaxed := st.relaxed[u := e + 1])
  {
  }

  lemma SettleKeepsSound(g: Graph, start: nat, st: Search, u: nat)
    requires Sound(g, start, st) && u < |g| && st.dist[u] < INFINITY
    ensures Sound(g, start, Settle(st, u))
  {
    var st' := Settle(st, u);
    forall v | 0 <= v < |g| && st'.dist[v] < INFINITY
      ensures Labelled(g, start, st', v)
    {
      assert Labelled(g, start, st, v);
    }
  }

  /** The least entry of the heap carries the true label of its node, and no unvisited label is below it. */
  lemma LeastIsLabel(g: Graph, st: Search, u: nat, d: real)
    requires Shape(g, st) && AllQueued(g, st) && u < |g| && !st.visited[u]
    requires st.dist[u] <= d && st.dist[u] < INFINITY
    requires forall v :: 0 <= v < |g| ==> st.dist[v] <= INFINITY
    requires forall it :: it in st.queue ==> d <= it.dist
    ensures d == st.dist[u]
    ensures forall v :: 0 <= v < |g| && !st.visited[v] ==> d <= st.dist[v]
  {
    assert QItem(u, st.dist[u]) in st.queue;
    forall v | 0 <= v < |g| && !st.visited[v] && st.dist[v] < INFINITY
      ensures d <= st.dist[v]
    {
      assert QItem(v, st.dist[v]) in st.queue;
    }
  }

  /** Visiting the popped node keeps visited labels below unvisited ones. */
  lemma SettleKeepsComplete(g: Graph, st: Search, u: nat, d: real)
    requires Shape(g, st) && Complete(g, st) && Counted(g, st, NO_NODE) && |g| <= NO_NODE
    requires u < |g| && !st.visited[u] && st.dist[u] <= d && st.dist[u] < INFINITY
    requires forall v :: 0 <= v < |g| ==> st.dist[v] <= INFINITY
    requires forall it :: it in st.queue ==> d <= it.dist
    ensures var after := Settle(st, u).(queue := st.queue - multiset{QItem(u, d)});
            Complete(g, after) && Counted(g, after, u) && Latest(after, u)
  {
    LeastIsLabel(g, st, u, d);
    var after := Settle(st, u).(queue := st.queue - multiset{QItem(u, d)});
    assert AllQueued(g, after) by {
      forall v | 0 <= v < |g| && !after.visited[v] && after.dist[v] < INFINITY
        ensures QItem(v, st.dist[v]) in after.queue
      {
        assert QItem(v, st.dist[v]) in st.queue;
      }
    }
  }

  lemma StaleKeepsComplete(g: Graph, st: Search, before: multiset<QItem>, u: nat, d: real)
    requires Shape(g, st) && Complete(g, st.(queue := before)) && u < |g| && st.visited[u]
    requires st.queue == before - multiset{QItem(u, d)}
    ensures Complete(g, st)
  {
    forall v | 0 <= v < |g| && !st.visited[v] && st.dist[v] < INFINITY
      ensures QItem(v, st.dist[v]) in st.queue
    {
      assert QItem(v, st.dist[v]) in before;
    }
  }

  /** A trail of visited nodes stays one, and stays simple, when an unvisited node is added. */
  lemma TrailGrows(visited: seq<bool>, p: seq<nat>, u: nat, v: nat)
    requires Distinct(p) && Trodden(visited, p) && |p| > 0 && p[|p| - 1] == u
    requires u < |visited| && visited[u] && v < |visited| && !visited[v]
    ensures Distinct(p + [v]) && Trodden(visited, p + [v])
  {
    forall i | 0 <= i < |p| ensures p[i] < |visited| && visited[p[i]] && p[i] != v {
      assert i == |p| - 1 || visited[p[i]];
    }
  }

  lemma NewLabel(g: Graph, start: nat, st: Search, u: nat, e: nat, room: bool)
    requires Sound(g, start, st) && WellFormed(g)
    requires u < |g| && e < |g[u]| && st.visited[u] && !st.visited[g[u][e].target]
    requires st.dist[u] + g[u][e].weight < st.dist[g[u][e].target]
    requires st.visited[start]
    ensures Labelled(g, start, Relax(g, st, u, e, room), g[u][e].target)
  {
    var v, w := g[u][e].target, g[u][e].weight;
    assert Labelled(g, start, st, u);
    ExtendWalk(g, start, st.walk[u], u, st.dist[u], e);
    TrailGrows(st.visited, Nodes(st.walk[u], u), u, v);
    hide Distinct, Trodden, Weighs, Nodes;
    var longer := st.walk[u] + [Hop(u, e)];
    assert longer[..|longer| - 1] == st.walk[u];
  }

  /** Labels of other nodes do not notice a relaxation: their walks avoid the unvisited target. */
  lemma OtherLabel(g: Graph, start: nat, st: Search, u: nat, e: nat, room: bool, x: nat)
    requires Shape(g, st) && x < |g| && Labelled(g, start, st, x)
    requires u < |g| && e < |g[u]| && g[u][e].target < |g| && x != g[u][e].target
    ensures Labelled(g, start, Relax(g, st, u, e, room), x)
  {
    if x != start {
      var p := Nodes(st.walk[x], x);
      assert p[|st.walk[x]| - 1] == st.prev[x];
      assert st.visited[p[|st.walk[x]| - 1]];
    }
  }

  lemma RelaxKeepsLabels(g: Graph, start: nat, st: Search, u: nat, e: nat, room: bool, x: nat)
    requires Sound(g, start, st) && WellFormed(g)
    requires u < |g| && e < |g[u]| && st.visited[u] && st.visited[start]
    requires x < |g| && Relax(g, st, u, e, room).dist[x] < INFINITY
    ensures Labelled(g, start, Relax(g, st, u, e, room), x)
  {
    var v := g[u][e].target;
    if !st.visited[v] && st.dist[u] + g[u][e].weight < st.dist[v] {
      if x == v {
        NewLabel(g, start, st, u, e, room);
      } else {
        OtherLabel(g, start, st, u, e, room, x);
      }
    } else {
      assert Labelled(g, start, st, x);
    }
  }

  lemma RelaxKeepsSound(g: Graph, start: nat, st: Search, u: nat, e: nat, room: bool)
    requires Sound(g, start, st) && WellFormed(g)
    requires u < |g| && e < |g[u]| && st.visited[u] && st.visited[start]
    ensures Sound(g, start, Relax(g, st, u, e, room))
  {
    RelaxKeepsQueue(g, st, u, e, room);
    var st' := Relax(g, st, u, e, room);
    assert Ranges(g, start, st');
    assert Labels(g, start, st') by {
      forall x | 0 <= x < |g| && st'.dist[x] < INFINITY
        ensures Labelled(g, start, st', x)
      {
        RelaxKeepsLabels(g, start, st, u, e, room, x);
      }
    }
  }

  lemma RelaxKeepsQueue(g: Graph, st: Search, u: nat, e: nat, room: bool)
    requires Shape(g, st) && QueueSound(g, st) && WellFormed(g)
    requires u < |g| && e < |g[u]| && forall v :: 0 <= v < |g| ==> st.dist[v] <= INFINITY
    ensures QueueSound(g, Relax(g, st, u, e, room))
  {
  }

  lemma RelaxSatisfies(g: Graph, st: Search, u: nat, e: nat)
    requires Shape(g, st) && WellFormed(g) && NonNegative(g) && EdgesSatisfied(g, st) && VisitedNearest(g, st)
    requires u < |g| && e < |g[u]| && st.visited[u] && st.relaxed[u] == e && Latest(st, u)
    requires forall v :: 0 <= v < |g| && !st.visited[v] ==> st.relaxed[v] == 0
    ensures EdgesSatisfied(g, Relax(g, st, u, e, true))
  {
    var st' := Relax(g, st, u, e, true);
    forall x, i | 0 <= x < |g| && 0 <= i < st'.relaxed[x] && i < |g[x]|
      ensures g[x][i].target < |g| && st'.dist[g[x][i].target] <= st'.dist[x] + g[x][i].weight
    {
      if x == u && i == e {
        assert g[u][e].weight >= 0.0;
      } else {
        assert st.dist[g[x][i].target] <= st.dist[x] + g[x][i].weight;
      }
    }
  }

  lemma VisitedStays(g: Graph, st: Search, u: nat, e: nat)
    requires Shape(g, st) && WellFormed(g) && NonNegative(g)
    requires u < |g| && e < |g[u]| && st.visited[u] && VisitedNearest(g, st) && Latest(st, u)
    ensures VisitedNearest(g, Relax(g, st, u, e, true)) && Latest(Relax(g, st, u, e, true), u)
  {
    assert g[u][e].weight >= 0.0;
    var st' := Relax(g, st, u, e, true);
    forall x, y | 0 <= x < |g| && 0 <= y < |g| && st'.visited[x] && !st'.visited[y]
      ensures st'.dist[x] <= st'.dist[y]
    {
      assert st.dist[x] <= st.dist[y];
    }
  }

  /** Pops the entry of `u` and marks `u` visited. */
  function Visit(st: Search, u: nat, d: real): Search
    requires u < |st.visited|
  {
    Settle(st, u).(queue := st.queue - multiset{QItem(u, d)})
  }

  lemma VisitKeepsSound(g: Graph, start: nat, st: Search, u: nat, d: real)
    requires Sound(g, start, st) && QItem(u, d) in st.queue
    ensures u < |g| && st.dist[u] <= d && st.dist[u] < INFINITY && Sound(g, start, Visit(st, u, d))
  {
    hide Labels;
    SettleKeepsSound(g, start, st, u);
    LabelsIgnoreQueue(g, start, Settle(st, u), Visit(st, u, d));
  }

  lemma LabelsIgnoreQueue(g: Graph, start: nat, st: Search, st': Search)
    requires Shape(g, st) && Labels(g, start, st) && st' == st.(queue := st'.queue)
    ensures Labels(g, start, st')
  {
    forall v | 0 <= v < |g| && st'.dist[v] < INFINITY ensures Labelled(g, start, st', v) {
      assert Labelled(g, start, st, v);
      QueueIrrelevant(g, start, st, st', v);
    }
  }

  lemma QueueIrrelevant(g: Graph, start: nat, st: Search, st': Search, v: nat)
    requires Shape(g, st) && v < |g| && Labelled(g, start, st, v) && st' == st.(queue := st'.queue)
    ensures Labelled(g, start, st', v)
  {
    hide Nodes, Distinct, Trodden, Weighs;
  }

  lemma VisitKeepsCounted(g: Graph, st: Search, u: nat, d: real)
    requires Shape(g, st) && Counted(g, st, NO_NODE) && u < |g| <= NO_NODE
    ensures Counted(g, Visit(st, u, d), if st.visited[u] then NO_NODE else u)
    ensures !st.visited[u] ==> st.relaxed[u] == 0
  {
  }

  lemma VisitKeepsComplete(g: Graph, start: nat, st: Search, u: nat, d: real)
    requires Sound(g, start, st) && Counted(g, st, NO_NODE) && Complete(g, st) && |g| <= NO_NODE
    requires QItem(u, d) in st.queue && forall it :: it in st.queue ==> d <= it.dist
    ensures u < |g| && Complete(g, Visit(st, u, d))
    ensures !st.visited[u] ==> Latest(Visit(st, u, d), u)
  {
    hide Labels;
    if st.visited[u] {
      assert Settle(st, u) == st;
      StaleKeepsComplete(g, Visit(st, u, d), st.queue, u, d);
    } else {
      hide EdgesSatisfied, AllQueued, VisitedNearest;
      SettleKeepsComplete(g, st, u, d);
    }
  }

  lemma RelaxKeepsCounted(g: Graph, st: Search, u: nat, e: nat, room: bool)
    requires Shape(g, st) && WellFormed(g) && Counted(g, st, u)
    requires u < |g| && e < |g[u]| && st.visited[u] && st.relaxed[u] == e
    ensures Counted(g, Relax(g, st, u, e, room), u)
    ensures Sum(Relax(g, st, u, e, room).relaxed) == Sum(st.relaxed) + 1
    ensures WithinBudget(g) ==> Sum(st.relaxed) < QueueBudget(|g|)
  {
    hide Improves, QueueBudget, WithinBudget, Sum;
    assert Relax(g, st, u, e, room).relaxed == st.relaxed[u := e + 1];
    SumBump(st.relaxed, u);
    FewerRelaxed(g, st, u);
  }

  /** While an edge is left, fewer are relaxed than there are. */
  lemma FewerRelaxed(g: Graph, st: Search, u: nat)
    requires Shape(g, st) && Counted(g, st, u) && u < |g| && st.relaxed[u] < |g[u]|
    ensures WithinBudget(g) ==> Sum(st.relaxed) < QueueBudget(|g|)
  {
    hide QueueBudget, Sum;
    SumMonotone(st.relaxed, Degrees(g));
    assert st.relaxed[u] < Degrees(g)[u];
  }

  /** A relaxation whose push is not refused keeps the search complete. */
  lemma RelaxKeepsComplete(g: Graph, st: Search, u: nat, e: nat, room: bool)
    requires Shape(g, st) && WellFormed(g) && NonNegative(g) && Complete(g, st) && Counted(g, st, u)
    requires u < |g| && e < |g[u]| && st.visited[u] && st.relaxed[u] == e && Latest(st, u)
    requires room || !Improves(g, st, u, e)
    ensures Complete(g, Relax(g, st, u, e, room)) && Latest(Relax(g, st, u, e, room), u)
  {
    assert Relax(g, st, u, e, room) == Relax(g, st, u, e, true);
    RelaxSatisfies(g, st, u, e);
    VisitedStays(g, st, u, e);
    assert AllQueued(g, Relax(g, st, u, e, true));
  }

  // --- A search, state by state ---

  /** A node whose turn it is: its entry is a least one, and no visited node has edges left to look at. */
  ghost predicate Pops(g: Graph, st: Search, u: nat, d: real, st': Search) {
    && Shape(g, st) && u < |g| && Counted(g, st, NO_NODE)
    && QItem(u, d) in st.queue && (forall it :: it in st.queue ==> d <= it.dist) && st' == Visit(st, u, d)
  }

  /** The next edge of a visited node, with the push refused if the heap is full. */
  ghost predicate Looks(g: Graph, st: Search, u: nat, e: nat, st': Search) {
    && Shape(g, st) && u < |g| && e < |g[u]| && g[u][e].target < |g| && st.visited[u] && st.relaxed[u] == e
    && st' == Relax(g, st, u, e, |st.queue| < QueueBudget(|g|))
  }

  ghost predicate Advances(g: Graph, st: Search, st': Search) {
    (exists u, d :: Pops(g, st, u, d, st')) || (exists u, e :: Looks(g, st, u, e, st'))
  }

  /** A shorter way is found and the heap is too full to take it. */
  ghost predicate Overflows(g: Graph, st: Search, st': Search) {
    exists u, e :: Looks(g, st, u, e, st') && Improves(g, st, u, e) && |st.queue| >= QueueBudget(|g|)
  }

  /** The states of a best-first search from `start`. */
  ghost predicate IsSearch(g: Graph, start: nat, run: seq<Search>) {
    && start < |g| && run != []
    && (if |run| == 1 then run[0] == Initial(|g|, start, QueueBudget(|g|) > 0)
        else IsSearch(g, start, run[..|run| - 1]) && Advances(g, run[|run| - 2], run[|run| - 1]))
  }

  /** Some push of the search was refused, be it that of the start node. */
  ghost predicate Refuses(g: Graph, run: seq<Search>) {
    if |run| <= 1 then QueueBudget(|g|) == 0
    else Refuses(g, run[..|run| - 1]) || Overflows(g, run[|run| - 2], run[|run| - 1])
  }

  /** The goal has its turn, or there is nothing left to visit. */
  ghost predicate Ended(g: Graph, st: Search, goal: nat) {
    Shape(g, st) && goal < |g| && (st.visited[goal] || (st.queue == multiset{} && Counted(g, st, NO_NODE)))
  }

  lemma LongerRun(g: Graph, start: nat, run: seq<Search>, st: Search, st': Search)
    requires IsSearch(g, start, run) && run[|run| - 1] == st && Advances(g, st, st')
    ensures IsSearch(g, start, run + [st']) && (Refuses(g, run + [st']) <==> Refuses(g, run) || Overflows(g, st, st'))
  {
    hide Advances, Overflows, Initial, QueueBudget;
    assert (run + [st'])[..|run|] == run;
  }

  lemma OverflowsIff(g: Graph, st: Search, u: nat, e: nat, st': Search)
    requires Looks(g, st, u, e, st')
    ensures Overflows(g, st, st') <==> Improves(g, st, u, e) && |st.queue| >= QueueBudget(|g|)
  {
    hide QueueBudget, Improves;
    assert st'.relaxed == st.relaxed[u := e + 1];
    forall v: nat, i: nat | Looks(g, st, v, i, st') ensures v == u && i == e {
      assert st'.relaxed[v] == i + 1;
    }
  }

  lemma PopNeverOverflows(g: Graph, st: Search, u: nat, d: real, st': Search)
    requires Pops(g, st, u, d, st')
    ensures !Overflows(g, st, st')
  {
    hide QueueBudget, Improves, Counted;
    assert st'.relaxed == st.relaxed;
  }

  /** The search reached this state; while no push is refused it is complete, and on graphs within the budget
      none is. */
  ghost predicate Tracked(g: Graph, start: nat, st: Search, run: seq<Search>)
    requires Shape(g, st)
  {
    && IsSearch(g, start, run) && run[|run| - 1] == st
    && (NonNegative(g) && !Refuses(g, run) ==> Complete(g, st)) && (WithinBudget(g) ==> !Refuses(g, run))
  }

  ghost predicate Following(g: Graph, st: Search, run: seq<Search>, u: nat)
    requires Shape(g, st) && u < |g|
  {
    NonNegative(g) && !Refuses(g, run) ==> Latest(st, u)
  }

  lemma RelaxKeepsTracked(g: Graph, start: nat, st: Search, u: nat, e: nat, run: seq<Search>)
    requires Shape(g, st) && WellFormed(g) && Counted(g, st, u) && u < |g| && e < |g[u]|
    requires st.visited[u] && st.relaxed[u] == e && (WithinBudget(g) ==> |st.queue| < QueueBudget(|g|))
    requires Tracked(g, start, st, run) && Following(g, st, run, u)
    ensures var st' := Relax(g, st, u, e, |st.queue| < QueueBudget(|g|));
            Tracked(g, start, st', run + [st']) && Following(g, st', run + [st'], u)
  {
    hide Complete, Counted, Latest, Relax, Improves, NonNegative, WithinBudget, Initial, QueueBudget, IsSearch,
         Refuses, Overflows;
    var room := |st.queue| < QueueBudget(|g|);
    var st' := Relax(g, st, u, e, room);
    assert Looks(g, st, u, e, st');
    assert Advances(g, st, st');
    LongerRun(g, start, run, st, st');
    OverflowsIff(g, st, u, e, st');
    if NonNegative(g) && !Refuses(g, run) && (room || !Improves(g, st, u, e)) { RelaxKeepsComplete(g, st, u, e, room); }
  }

  lemma VisitKeepsTracked(g: Graph, start: nat, st: Search, u: nat, d: real, run: seq<Search>)
    requires Sound(g, start, st) && Counted(g, st, NO_NODE) && Tracked(g, start, st, run) && |g| <= NO_NODE
    requires QItem(u, d) in st.queue && forall it :: it in st.queue ==> d <= it.dist
    ensures u < |g| && Shape(g, Visit(st, u, d)) && Tracked(g, start, Visit(st, u, d), run + [Visit(st, u, d)])
    ensures !st.visited[u] ==> Following(g, Visit(st, u, d), run + [Visit(st, u, d)], u)
  {
    hide Complete, Counted, Latest, Labels, NonNegative, WithinBudget, Initial, QueueBudget, IsSearch, Refuses,
         Overflows;
    var st' := Visit(st, u, d);
    assert Pops(g, st, u, d, st');
    assert Advances(g, st, st');
    LongerRun(g, start, run, st, st');
    PopNeverOverflows(g, st, u, d, st');
    if NonNegative(g) && !Refuses(g, run) { VisitKeepsComplete(g, start, st, u, d); }
  }

  lemma NodeDone(g: Graph, st: Search, u: nat)
    requires Shape(g, st) && u < |g| && Counted(g, st, u) && st.relaxed[u] == |g[u]|
    ensures Counted(g, st, NO_NODE)
  {
  }

  /** At the end the labels of the nodes visited before the goal are stable and those of the others no less. */
  lemma LabelsAreStable(g: Graph, start: nat, st: Search, goal: nat, settled: seq<bool>, bound: real)
    requires WellFormed(g) && Sound(g, start, st) && Complete(g, st) && goal < |g| <= NO_NODE
    requires Counted(g, st, if st.visited[goal] then goal else NO_NODE)
    requires if st.visited[goal] then Latest(st, goal) else st.queue == multiset{}
    requires settled == st.visited[goal := false] && bound == if st.visited[goal] then st.dist[goal] else INFINITY
    ensures forall u, e :: 0 <= u < |g| && settled[u] && 0 <= e < |g[u]| ==>
              st.dist[g[u][e].target] <= st.dist[u] + g[u][e].weight
    ensures forall y :: 0 <= y < |g| && !settled[y] ==> st.dist[y] >= bound
    ensures st.dist[goal] <= bound
  {
    hide Labels, QueueSound;
    forall u, e | 0 <= u < |g| && settled[u] && 0 <= e < |g[u]|
      ensures st.dist[g[u][e].target] <= st.dist[u] + g[u][e].weight
    {
      assert e < st.relaxed[u];
    }
    hide EdgesSatisfied, Counted;
    forall y | 0 <= y < |g| && !settled[y] ensures st.dist[y] >= bound {
      if st.visited[goal] && y != goal { assert st.dist[goal] <= st.dist[y]; }
    }
  }

  /** The goal's label is final once the goal is visited, or once the heap has run dry. */
  lemma GoalLabelIsLeast(g: Graph, start: nat, st: Search, goal: nat)
    requires WellFormed(g) && NonNegative(g) && Sound(g, start, st) && Complete(g, st) && goal < |g| <= NO_NODE
    requires Counted(g, st, if st.visited[goal] then goal else NO_NODE)
    requires if st.visited[goal] then Latest(st, goal) else st.queue == multiset{}
    ensures NoWalkBelow(g, start, goal, st.dist[goal])
  {
    var settled := st.visited[goal := false];
    var bound := if st.visited[goal] then st.dist[goal] else INFINITY;
    LabelsAreStable(g, start, st, goal, settled, bound);
    hide Labels, QueueSound, Complete, Counted, Latest, WellFormed, NonNegative;
    forall hops | IsWalk(g, start, hops, goal) && (forall h :: h in hops ==> IsHop(g, h))
      ensures Weight(g, hops) >= st.dist[goal]
    {
      LabelsAreLowerBounds(g, start, st.dist, settled, bound, hops, goal);
    }
  }

  ghost function Unvisited(visited: seq<bool>): set<nat> {
    set v | 0 <= v < |visited| && !visited[v]
  }

  lemma OneFewer(visited: seq<bool>, u: nat)
    requires u < |visited|
    ensures visited[u] ==> visited[u := true] == visited
    ensures !visited[u] ==> Unvisited(visited[u := true]) < Unvisited(visited)
  {
    if !visited[u] { assert u in Unvisited(visited) && u !in Unvisited(visited[u := true]); }
  }

  lemma TrackedGoal(g: Graph, start: nat, st: Search, goal: nat, run: seq<Search>)
    requires WellFormed(g) && Sound(g, start, st) && Tracked(g, start, st, run) && goal < |g| <= NO_NODE
    requires Counted(g, st, if st.visited[goal] then goal else NO_NODE)
    requires if st.visited[goal] then Following(g, st, run, goal) else st.queue == multiset{}
    ensures Finished(g, start, goal, run, st)
  {
    hide Labels, QueueSound, Complete, Counted, Latest, NoWalkBelow, WellFormed, NonNegative, WithinBudget, IsSearch,
         Refuses;
    if NonNegative(g) && !Refuses(g, run) { GoalLabelIsLeast(g, start, st, goal); }
  }

  /** A search is through: if no push was refused, the goal's label is least, and on graphs within the budget
      none was. */
  ghost predicate Finished(g: Graph, start: nat, goal: nat, run: seq<Search>, st: Search) {
    && IsSearch(g, start, run) && run[|run| - 1] == st && Ended(g, st, goal)
    && (NonNegative(g) && !Refuses(g, run) ==> NoWalkBelow(g, start, goal, st.dist[goal]))
    && (WithinBudget(g) ==> !Refuses(g, run))
  }

  /** The part of the node list that the 1024-entry scratch and the caller's buffer let through:
      the last 1024 nodes, and of those the first `room`. */
  function Clip(p: seq<nat>, room: nat): seq<nat> {
    var tail := if |p| > PATH_SCRATCH then p[|p| - PATH_SCRATCH..] else p;
    if |tail| > room then tail[..room] else tail
  }

  /** Node by node: the last 1024 nodes of a longer list, all of a shorter one, from the first of them on as far as
      there is room. */
  lemma ClipShows(p: seq<nat>, room: nat)
    ensures |Clip(p, room)| == if room < |p| && room < 1024 then room else if |p| < 1024 then |p| else 1024
    ensures forall i :: 0 <= i < |Clip(p, room)| ==> Clip(p, room)[i] == p[if |p| > 1024 then |p| - 1024 + i else i]
  {
  }

  /** `path` is what the caller sees of a real walk from `start` to `goal` of weight `total`. */
  ghost predicate ShowsWalk(g: Graph, start: nat, goal: nat, total: real, room: nat, path: seq<nat>) {
    exists hops ::
      && Weighs(g, start, hops, goal, total)
      && Distinct(Nodes(hops, goal))
      && path == Clip(Nodes(hops, goal), room)
  }

  lemma {:induction false} WalkStaysInGraph(g: Graph, start: nat, hops: seq<Hop>, end: nat)
    requires WellFormed(g) && start < |g| && IsWalk(g, start, hops, end)
    ensures forall i :: 0 <= i <= |hops| ==> Nodes(hops, end)[i] < |g|
  {
    if hops != [] {
      WalkStaysInGraph(g, start, hops[..|hops| - 1], hops[|hops| - 1].from);
    }
  }

  /** On graphs of up to 1024 nodes a buffer of one entry per node always receives the whole path. */
  lemma WholePathShown(g: Graph, start: nat, goal: nat, total: real, room: nat, path: seq<nat>)
    requires WellFormed(g) && start < |g| <= PATH_SCRATCH && room >= |g|
    requires ShowsWalk(g, start, goal, total, room, path)
    ensures exists hops :: Weighs(g, start, hops, goal, total) && path == Nodes(hops, goal)
  {
    var hops :| Weighs(g, start, hops, goal, total) && Distinct(Nodes(hops, goal))
                && path == Clip(Nodes(hops, goal), room);
    WalkStaysInGraph(g, start, hops, goal);
    DistinctBounded(Nodes(hops, goal), |g|);
  }

  ghost predicate NoWalkBelow(g: Graph, start: nat, goal: nat, bound: real) {
    forall hops :: IsWalk(g, start, hops, goal) && (forall h :: h in hops ==> IsHop(g, h)) ==> Weight(g, hops) >= bound
  }

  /** The graphs on which the budgeted heap never refuses a push. */
  ghost predicate WithinBudget(g: Graph) {
    EdgeTotal(g) <= QueueBudget(|g|) && QueueBudget(|g|) > 0
  }

  /** All labels infinite but that of the start node, which is queued if the heap takes it. */
  function Initial(n: nat, start: nat, room: bool): Search
    requires start < n
  {
    Search(seq(n, _ => INFINITY)[start := 0.0], seq(n, _ => NO_NODE), seq(n, _ => false),
           if room then multiset{QItem(start, 0.0)} else multiset{}, seq(n, _ => 0), seq(n, _ => []))
  }

  lemma InitialIsSound(g: Graph, start: nat, room: bool)
    requires start < |g|
    ensures var st := Initial(|g|, start, room); Sound(g, start, st) && Counted(g, st, NO_NODE) && Sum(st.relaxed) == 0
    ensures room ==> Complete(g, Initial(|g|, start, room))
  {
    SumZero(Initial(|g|, start, room).relaxed);
    assert Weighs(g, start, [], start, 0.0);
  }

  /** Below 2^30 - 4 nodes the budget is four pushes a node and sixteen more, and covers every graph with no more
      edges than that; from there on it wraps. */
  lemma BudgetIs(g: Graph)
    ensures |g| < 0x3FFF_FFFC ==>
              QueueBudget(|g|) == 4 * |g| + 16 && (WithinBudget(g) <==> EdgeTotal(g) <= 4 * |g| + 16)
    ensures |g| == 0x3FFF_FFFC ==> QueueBudget(|g|) == 0 && !WithinBudget(g)
  {
  }

  lemma NeedsBudget(g: Graph)
    ensures WithinBudget(g) ==> QueueBudget(|g|) > 0
  {
  }

  /** Copies the first `count` gathered nodes, which are backwards, into the caller's buffer. */
  method ReverseInto(scratch: array<nat>, length: nat, out: array<nat>, count: nat)
    requires count <= length <= scratch.Length && count <= out.Length && scratch != out
    modifies out
    ensures forall j :: 0 <= j < count ==> out[j] == scratch[length - 1 - j]
    ensures out[count..] == old(out[count..])
  {
    for i := 0 to count
      invariant forall j :: 0 <= j < i ==> out[j] == scratch[length - 1 - j]
      invariant out[count..] == old(out[count..])
    {
      out[i] := scratch[length - 1 - i];
    }
  }

  /** The solver's scratch memory. `relaxed`, `walk` and `run`, the states the search went through, only exist for
      the proof. */
  class Solver {
    const g: Graph
    const start: nat
    const dist: array<real>
    const prev: array<nat>
    const visited: array<bool>
    const q: MinQ
    ghost var relaxed: seq<nat>
    ghost var walk: seq<seq<Hop>>
    ghost var run: seq<Search>

    ghost function Footprint(): set<object> {
      {this, dist, prev, visited, q, q.items}
    }

    ghost function View(): Search
      reads this, dist, prev, visited, q, q.items
      requires q.size <= q.items.Length
    {
      Search(dist[..], prev[..], visited[..], q.Contents(), relaxed, walk)
    }

    ghost predicate Valid()
      reads this, dist, prev, visited, q, q.items
    {
      && WellFormed(g) && start < |g| <= NO_NODE && q.items.Length == QueueBudget(|g|)
      && q.Valid() && Shape(g, View()) && Sound(g, start, View())
    }

    constructor (g: Graph, start: nat)
      requires WellFormed(g) && start < |g| <= NO_NODE
      ensures fresh(Footprint()) && this.g == g && this.start == start && Allocated() && q.size == 0
    {
      this.g, this.start := g, start;
      dist := new real[|g|](_ => INFINITY);
      prev := new nat[|g|](_ => NO_NODE);
      visited := new bool[|g|](_ => false);
      q := new MinQ(QueueBudget(|g|), QItem(0, 0.0));
      relaxed, walk, run := [], [], [];
    }

    ghost predicate Allocated()
      reads this, dist, prev, visited, q, q.items
    {
      && WellFormed(g) && start < |g| <= NO_NODE && q.items.Length == QueueBudget(|g|) && q.Valid()
      && dist.Length == prev.Length == visited.Length == |g|
    }

    method Clear()
      requires dist.Length == prev.Length == visited.Length == |g|
      modifies dist, prev, visited
      ensures dist[..] == seq(|g|, _ => INFINITY) && prev[..] == seq(|g|, _ => NO_NODE)
      ensures visited[..] == seq(|g|, _ => false)
    {
      for i := 0 to |g|
        invariant forall j :: 0 <= j < i ==> dist[j] == INFINITY && prev[j] == NO_NODE && !visited[j]
      {
        dist[i], prev[i], visited[i] := INFINITY, NO_NODE, false;
      }
    }

    /** All labels infinite but that of the start node, which is queued. */
    method Reset()
      requires Allocated() && q.size == 0
      modifies this`relaxed, this`walk, this`run, dist, prev, visited, q`size, q.items
      ensures Valid() && Primed()
    {
      hide WellFormed, QueueBudget, Heap;
      relaxed, walk := seq(|g|, _ => 0), seq(|g|, _ => []);
      Clear();
      dist[start] := 0.0;
      assert q.items[..0] == [];
      q.Push(start, 0.0);
      assert dist[..] == seq(|g|, _ => INFINITY)[start := 0.0];
      assert View().queue == Initial(|g|, start, QueueBudget(|g|) > 0).queue;
      run := [View()];
      InitialPrimes(View());
    }

    lemma InitialPrimes(st: Search)
      requires Allocated() && st == View() == Initial(|g|, start, QueueBudget(|g|) > 0) && run == [st]
      ensures Valid() && Primed()
    {
      InitialIsSound(g, start, QueueBudget(|g|) > 0);
      NeedsBudget(g);
      assert forall v :: 0 <= v < |g| ==> !st.visited[v] && visited[v] == st.visited[v];
      hide Sound, Counted, Complete, WithinBudget, Sum;
    }

    /** Nothing visited, nothing relaxed, and only the start node in the heap. */
    ghost predicate Primed()
      reads this, dist, prev, visited, q, q.items
      requires Valid()
    {
      && Counted(g, View(), NO_NODE) && Sum(relaxed) == 0
      && Tracked(g, start, View(), run)
      && (forall v :: 0 <= v < |g| ==> !visited[v])
      && q.size <= 1 && (q.size == 0 || q.Contents() == multiset{QItem(start, 0.0)})
    }

    /** Considers one out-edge of a visited node. */
    method RelaxEdge(u: nat, e: nat)
      requires Valid() && u < |g| && e < |g[u]| && visited[u] && visited[start]
      modifies this`relaxed, this`walk, this`run, dist, prev, q`size, q.items
      ensures Valid() && View() == Relax(g, old(View()), u, e, |old(View()).queue| < QueueBudget(|g|))
      ensures relaxed == old(relaxed)[u := e + 1] && q.size <= old(q.size) + 1
      ensures run == old(run) + [View()]
    {
      hide Sound, Heap, QueueBudget, Relax, Improves;
      ghost var st := View();
      ghost var room := q.size < q.items.Length;
      ghost var st' := Relax(g, st, u, e, room);
      RelaxKeepsSound(g, start, st, u, e, room);
      var v, w := g[u][e].target, g[u][e].weight;
      TargetInGraph(g, u, e);
      RelaxIs(g, st, u, e, room);
      hide WellFormed;
      relaxed := relaxed[u := e + 1];
      if !visited[v] && dist[u] + w < dist[v] {
        walk := walk[v := walk[u] + [Hop(u, e)]];
        dist[v] := dist[u] + w;
        prev[v] := u;
        assert dist[..] == st'.dist && prev[..] == st'.prev;
        q.Push(v, dist[v]);
      }
      assert q.Contents() == st'.queue;
      assert dist[..] == st'.dist && prev[..] == st'.prev && visited[..] == st'.visited;
      run := run + [View()];
    }

    /** Considers every out-edge of the node just visited. */
    method RelaxNode(u: nat)
      requires Valid() && u < |g| && visited[u] && visited[start] && relaxed[u] == 0 && Counted(g, View(), u)
      requires q.size <= Sum(relaxed)
      requires Tracked(g, start, View(), run) && Following(g, View(), run, u)
      modifies this`relaxed, this`walk, this`run, dist, prev, q`size, q.items
      ensures Valid() && Counted(g, View(), NO_NODE) && q.size <= Sum(relaxed) && Tracked(g, start, View(), run)
    {
      hide Sound, Counted, Tracked, Following, WithinBudget, Relax, Improves, QueueBudget, WellFormed;
      for e := 0 to |g[u]|
        invariant Valid() && relaxed[u] == e && Counted(g, View(), u)
        invariant visited[..] == old(visited[..])
        invariant q.size <= Sum(relaxed)
        invariant Tracked(g, start, View(), run) && Following(g, View(), run, u)
      {
        ghost var st := View();
        RelaxKeepsCounted(g, st, u, e, |st.queue| < QueueBudget(|g|));
        assert |st.queue| == q.size;
        RelaxKeepsTracked(g, start, st, u, e, run);
        RelaxEdge(u, e);
      }
      NodeDone(g, View(), u);
    }

    /** Pops the least entry and visits its node unless that was visited before. */
    method VisitNext() returns (u: nat, isNew: bool)
      requires Valid() && Counted(g, View(), NO_NODE) && q.size > 0 && Tracked(g, start, View(), run)
      modifies this`run, visited, q`size, q.items
      ensures Valid() && u < |g| && visited[u] && q.size == old(q.size) - 1
      ensures isNew ==> relaxed[u] == 0
      ensures isNew == !old(visited[u]) && visited[..] == old(visited[..])[u := true]
      ensures exists d :: QItem(u, d) in old(q.Contents())
      ensures Counted(g, View(), if isNew then u else NO_NODE)
      ensures Tracked(g, start, View(), run) && (isNew ==> Following(g, View(), run, u))
    {
      hide Sound, Counted, Tracked, Following, Heap, QueueBudget, WellFormed;
      ghost var before := View();
      var ok, node, d := q.Pop();
      VisitKeepsSound(g, start, before, node, d);
      VisitKeepsCounted(g, before, node, d);
      VisitKeepsTracked(g, start, before, node, d, run);
      u, isNew := node, !visited[node];
      visited[u] := true;
      assert View() == Visit(before, u, d);
      run := run + [View()];
    }

    /** What holds before every pop. */
    ghost predicate Searching()
      reads this, dist, prev, visited, q, q.items
    {
      && Valid() && Counted(g, View(), NO_NODE)
      && q.size <= Sum(relaxed) + (if visited[start] then 0 else 1)
      && (visited[start] || q.Contents() == multiset{QItem(start, 0.0)} || q.size == 0)
      && Tracked(g, start, View(), run)
    }

    lemma Sizes()
      requires Valid()
      ensures dist.Length == prev.Length == visited.Length == |g| && start < |g|
    {
      hide Sound, WellFormed, QueueBudget, Heap;
    }

    lemma GoalFound(goal: nat)
      requires Valid() && goal < |g| && visited[goal]
      requires Counted(g, View(), goal) && Tracked(g, start, View(), run) && Following(g, View(), run, goal)
      ensures Finished(g, start, goal, run, View())
    {
      hide Sound, Counted, Tracked, Following, Finished, QueueBudget, WellFormed, Heap;
      TrackedGoal(g, start, View(), goal, run);
    }

    /** One round: pop, and unless stale visit and relax. */
    method Advance(goal: nat) returns (found: bool)
      requires Searching() && goal < |g| && !visited[goal] && q.size > 0
      modifies this`relaxed, this`walk, this`run, dist, prev, visited, q`size, q.items
      ensures Valid()
      ensures found ==> Finished(g, start, goal, run, View())
      ensures !found ==> Searching() && !visited[goal]
      ensures !found ==> Unvisited(visited[..]) < old(Unvisited(visited[..]))
                         || (Unvisited(visited[..]) == old(Unvisited(visited[..])) && q.size < old(q.size))
    {
      hide Valid, Unvisited, Counted, Tracked, Following, Finished, Sum, WellFormed;
      Sizes();
      ghost var before := visited[..];
      var u, isNew := VisitNext();
      assert visited[start];
      OneFewer(before, u);
      if isNew {
        if u == goal {
          GoalFound(goal);
          return true;
        }
        RelaxNode(u);
      }
      return false;
    }

    /** Runs the search until the goal is visited or the heap is dry. */
    method Run(goal: nat)
      requires Valid() && Primed() && goal < |g|
      modifies this`relaxed, this`walk, this`run, dist, prev, visited, q`size, q.items
      ensures Valid()
      ensures Finished(g, start, goal, run, View())
    {
      hide Sound, Counted, Tracked, Following, Finished, Sum, QueueBudget, WellFormed, Heap;
      while q.size > 0
        invariant Searching() && !visited[goal]
        decreases Unvisited(visited[..]), q.size
      {
        var found := Advance(goal);
        if found { return; }
      }
      TrackedGoal(g, start, View(), goal, run);
    }

    /** Follows the predecessors back from the goal into a 1024-entry scratch. */
    method Gather(goal: nat) returns (scratch: array<nat>, length: nat)
      requires Valid() && goal < |g| && dist[goal] < INFINITY
      ensures fresh(scratch) && scratch.Length == PATH_SCRATCH
      ensures var p := Nodes(walk[goal], goal);
              && length == (if |p| < PATH_SCRATCH then |p| else PATH_SCRATCH)
              && forall i :: 0 <= i < length ==> scratch[i] == p[|p| - 1 - i]
    {
      hide Sound, Heap, WellFormed, QueueBudget, Nodes;
      ghost var p := Nodes(walk[goal], goal);
      scratch := new nat[PATH_SCRATCH](_ => 0);
      length := 0;
      var curr: nat := goal;
      while curr != NO_NODE && length < PATH_SCRATCH
        invariant length <= PATH_SCRATCH && length < |p|
        invariant curr < |g| && dist[curr] < INFINITY && p[..|p| - length] == Nodes(walk[curr], curr)
        invariant forall i :: 0 <= i < length ==> scratch[i] == p[|p| - 1 - i]
        decreases PATH_SCRATCH - length
      {
        LastOfTrail(p, |p| - length, walk[curr], curr);
        scratch[length] := curr;
        length := length + 1;
        if curr == start {
          StartEndsTrail(g, start, View());
          return;
        }
        PrevIsLabelled(g, start, View(), curr);
        TrailBefore(p, |p| - length + 1, Nodes(walk[prev[curr]], prev[curr]), curr);
        curr := prev[curr];
      }
    }

    /** Reverses what was gathered into the caller's buffer. */
    method TracePath(goal: nat, out: array<nat>, maxNodes: nat) returns (count: nat)
      requires Valid() && goal < |g| && dist[goal] < INFINITY && 0 < maxNodes <= out.Length && out != prev
      modifies out
      ensures 0 < count <= maxNodes && out[..count] == Clip(Nodes(walk[goal], goal), maxNodes)
      ensures out[count..] == old(out[count..])
    {
      hide Sound, Clip, Heap, WellFormed, QueueBudget;
      var scratch, length := Gather(goal);
      count := if length < maxNodes then length else maxNodes;
      ReverseInto(scratch, length, out, count);
      ClipFromBack(Nodes(walk[goal], goal), scratch[..], length, maxNodes, out[..count]);
    }

    /** The label of the goal and the path behind it, or nothing if it has no label. */
    method Report(goal: nat, out: array<nat>, maxNodes: nat) returns (count: nat, total: Option<real>)
      requires Valid() && goal < |g| && 0 < maxNodes <= out.Length && out != prev
      modifies out
      ensures View().dist[goal] == if count > 0 && total.Some? then total.value else INFINITY
      ensures count == 0 <==> total == None
      ensures count > 0 ==>
                count <= maxNodes && total.value < INFINITY
                && ShowsWalk(g, start, goal, total.value, maxNodes, out[..count])
      ensures count <= out.Length && out[count..] == old(out[count..])
    {
      hide Sound, Clip, ShowsWalk, Heap, WellFormed, QueueBudget;
      LabelWithinInfinity(g, start, View(), goal);
      if dist[goal] >= INFINITY { return 0, None; }
      LabelShowsWalk(g, start, View(), goal, maxNodes);
      total := Some(dist[goal]);
      count := TracePath(goal, out, maxNodes);
    }
  }

  lemma LastOfTrail(p: seq<nat>, n: nat, hops: seq<Hop>, end: nat)
    requires n <= |p| && p[..n] == Nodes(hops, end)
    ensures n > 0 && p[n - 1] == end
  {
    assert p[..n][|hops|] == end;
  }

  lemma TrailBefore(p: seq<nat>, n: nat, front: seq<nat>, end: nat)
    requires 0 < n <= |p| && p[..n] == front + [end]
    ensures p[..n - 1] == front
  {
    assert p[..n - 1] == p[..n][..n - 1];
  }

  lemma StartEndsTrail(g: Graph, start: nat, st: Search)
    requires Sound(g, start, st)
    ensures Nodes(st.walk[start], start) == [start]
  {
    assert Labelled(g, start, st, start);
  }

  lemma PrevIsLabelled(g: Graph, start: nat, st: Search, v: nat)
    requires Sound(g, start, st) && v < |g| && v != start && st.dist[v] < INFINITY
    ensures st.prev[v] < |g| && st.dist[st.prev[v]] < INFINITY
    ensures Nodes(st.walk[v], v) == Nodes(st.walk[st.prev[v]], st.prev[v]) + [v]
  {
    assert Labelled(g, start, st, v);
    var p := Nodes(st.walk[v], v);
    assert p[|p| - 2] == st.prev[v];
    assert st.visited[p[|p| - 2]];
  }

  lemma LabelWithinInfinity(g: Graph, start: nat, st: Search, v: nat)
    requires Sound(g, start, st) && v < |g|
    ensures st.dist[v] <= INFINITY
  {
  }

  lemma LabelShowsWalk(g: Graph, start: nat, st: Search, goal: nat, room: nat)
    requires Sound(g, start, st) && goal < |g| && st.dist[goal] < INFINITY
    ensures ShowsWalk(g, start, goal, st.dist[goal], room, Clip(Nodes(st.walk[goal], goal), room))
  {
    assert Labelled(g, start, st, goal);
  }

  lemma ClipFromBack(p: seq<nat>, scratch: seq<nat>, length: nat, room: nat, out: seq<nat>)
    requires length == (if |p| < PATH_SCRATCH then |p| else PATH_SCRATCH) <= |scratch|
    requires forall i :: 0 <= i < length ==> scratch[i] == p[|p| - 1 - i]
    requires |out| == (if length < room then length else room)
    requires forall j :: 0 <= j < |out| ==> out[j] == scratch[length - 1 - j]
    ensures out == Clip(p, room)
  {
  }

  predicate Askable(g: Graph, start: nat, goal: nat, out: array?<nat>, maxNodes: nat) {
    out != null && maxNodes != 0 && start < |g| && goal < |g|
  }

  /** The whole query. `None` for the distance stands for the out-parameter left unwritten. `run` are the states
      of the search: the answer is the label of the goal in the last one, and if no push was refused, which
      graphs within the budget guarantee, no walk is shorter. */
  method ShortestPath(g: Graph, start: nat, goal: nat, out: array?<nat>, maxNodes: nat)
    returns (count: nat, total: Option<real>, ghost run: seq<Search>)
    requires WellFormed(g) && |g| <= NO_NODE
    requires out != null ==> maxNodes <= out.Length
    modifies out
    ensures !Askable(g, start, goal, out, maxNodes) ==> count == 0
    ensures count == 0 <==> total == None
    ensures count > 0 ==> out != null && count <= maxNodes && total.value < INFINITY
    ensures count > 0 ==> ShowsWalk(g, start, goal, total.value, maxNodes, out[..count])
    ensures Askable(g, start, goal, out, maxNodes) ==>
              && IsSearch(g, start, run) && Ended(g, run[|run| - 1], goal)
              && run[|run| - 1].dist[goal] == (if count > 0 then total.value else INFINITY)
              && (NonNegative(g) && !Refuses(g, run) ==>
                    NoWalkBelow(g, start, goal, if count > 0 then total.value else INFINITY))
              && (WithinBudget(g) ==> !Refuses(g, run))
    ensures out != null ==> count <= out.Length && out[count..] == old(out[count..])
  {
    run := [];
    if out == null || maxNodes == 0 || start >= |g| || goal >= |g| { return 0, None, run; }
    hide Sound, NoWalkBelow, WithinBudget, NonNegative, IsSearch, Refuses, Ended, Clip, ShowsWalk, Heap, WellFormed,
         QueueBudget;
    var s := new Solver(g, start);
    s.Reset();
    s.Run(goal);
    run := s.run;
    count, total := s.Report(goal, out, maxNodes);
  }
}
