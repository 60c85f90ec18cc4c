/** Lock-free thread registration by linear probing: threads move one atomic load or compare-and-swap at
    a time, in any interleaving. */
module Registry {

  const SIZE: nat := 256

  type Tid = t: nat | t > 0 witness 1

  /** Where a thread is in its call: before a load, or before the compare-and-swap on a slot it saw
      empty. `probes` counts the slots it has passed. */
  datatype PC = Idle | Loading(index: nat, probes: nat) | Claiming(index: nat, probes: nat)

  /** `returned` records what a thread was given last. */
  datatype State = State(table: seq<nat>, pcs: map<Tid, PC>, returned: map<Tid, nat>)

  datatype Step = Begin(t: Tid) | Load(t: Tid) | Claim(t: Tid)

  function Home(t: Tid): nat { t % SIZE }

  /** The slot `d` places behind the home of a thread, around the end of the table. */
  function Slot(t: Tid, d: nat): (r: nat)
    ensures r < SIZE
  {
    (t + d) % SIZE
  }

  predicate Enabled(s: State, step: Step) {
    step.t in s.pcs && match step
                       case Begin(t) => s.pcs[t].Idle?
                       case Load(t) => s.pcs[t].Loading? && s.pcs[t].index < |s.table|
                       case Claim(t) => s.pcs[t].Claiming? && s.pcs[t].index < |s.table|
  }

  function Return(s: State, t: Tid, index: nat): State {
    s.(pcs := s.pcs[t := Idle], returned := s.returned[t := index])
  }

  function Advance(s: State, t: Tid, index: nat, probes: nat): State {
    s.(pcs := s.pcs[t := Loading((index + 1) % SIZE, probes + 1)])
  }

  function Do(s: State, step: Step): State
    requires Enabled(s, step)
  {
    match step
    case Begin(t) => s.(pcs := s.pcs[t := Loading(Home(t), 0)])
    case Load(t) =>
      var pc := s.pcs[t];
      if s.table[pc.index] == t then Return(s, t, pc.index)
      else if s.table[pc.index] == 0 then s.(pcs := s.pcs[t := Claiming(pc.index, pc.probes)])
      else Advance(s, t, pc.index, pc.probes)
    case Claim(t) =>
      var pc := s.pcs[t];
      if s.table[pc.index] == 0 then Return(s.(table := s.table[pc.index := t]), t, pc.index)
      else Advance(s, t, pc.index, pc.probes)
  }

  // --- The invariant ---

  /** All slots a thread passes before its `d`th are held by others. */
  predicate Passed(table: seq<nat>, t: Tid, d: nat)
    requires |table| == SIZE
  {
    forall e: nat :: e < d ==> table[Slot(t, e)] != 0 && table[Slot(t, e)] != t
  }

  /** A held slot belongs to a known thread and is the first its holder could get. */
  predicate Held(table: seq<nat>, ids: set<Tid>, i: nat)
    requires |table| == SIZE && i < SIZE
  {
    table[i] != 0 ==>
      table[i] in ids && exists d: nat :: d < SIZE && Slot(table[i], d) == i && Passed(table, table[i], d)
  }

  predicate At(table: seq<nat>, t: Tid, index: nat, probes: nat)
    requires |table| == SIZE
  {
    probes < SIZE && index == Slot(t, probes) && Passed(table, t, probes)
  }

  predicate PcHolds(table: seq<nat>, t: Tid, pc: PC)
    requires |table| == SIZE
  {
    match pc
    case Idle => true
    case Loading(index, probes) => At(table, t, index, probes)
    case Claiming(index, probes) => At(table, t, index, probes) && table[index] != t
  }

  ghost predicate Inv(s: State) {
    && |s.table| == SIZE && |s.pcs| <= SIZE
    && (forall i: nat :: i < SIZE ==> Held(s.table, s.pcs.Keys, i))
    && (forall t :: t in s.pcs ==> PcHolds(s.table, t, s.pcs[t]))
    && (forall t :: t in s.returned ==> s.returned[t] < SIZE && s.table[s.returned[t]] == t)
  }

  /** No thread holds two slots. */
  lemma OneSlotEach(s: State, i: nat, j: nat)
    requires Inv(s) && i < SIZE && j < SIZE && s.table[i] != 0 && s.table[i] == s.table[j]
    ensures i == j
  {
    var t := s.table[i];
    assert Held(s.table, s.pcs.Keys, i) && Held(s.table, s.pcs.Keys, j);
    var d: nat :| d < SIZE && Slot(t, d) == i && Passed(s.table, t, d);
    var e: nat :| e < SIZE && Slot(t, e) == j && Passed(s.table, t, e);
  }

  // --- Some slot is left for every thread ---

  function Holders(table: seq<nat>, n: nat): set<nat>
    requires n <= |table|
  {
    set i | 0 <= i < n :: table[i]
  }

  lemma {:induction false} HoldersCount(table: seq<nat>, n: nat)
    requires n <= |table| && forall i, j :: 0 <= i < j < n ==> table[i] != table[j]
    ensures |Holders(table, n)| == n
  {
    if n == 0 {
      assert Holders(table, n) == {};
    } else {
      HoldersCount(table, n - 1);
      assert Holders(table, n) == Holders(table, n - 1) + {table[n - 1]};
    }
  }

  lemma {:induction false} SubsetSize(a: set<nat>, b: set<Tid>)
    requires forall x :: x in a ==> x > 0 && x in b
    ensures |a| <= |b|
    decreases |a|
  {
    if a != {} {
      var x :| x in a;
      SubsetSize(a - {x}, b - {x});
    }
  }

  lemma AllPassed(table: seq<nat>, t: Tid, i: nat)
    requires |table| == SIZE && Passed(table, t, SIZE) && i < SIZE
    ensures table[i] != 0 && table[i] != t
  {
    var d: nat := if i >= Home(t) then i - Home(t) else i + SIZE - Home(t);
    assert Slot(t, d) == i by { SlotFromHome(t, d); }
    hide Slot, Home;
    assert d < SIZE && table[Slot(t, d)] != 0 && table[Slot(t, d)] != t;
  }

  lemma SlotFromHome(t: Tid, d: nat)
    requires d < SIZE
    ensures Slot(t, d) == if Home(t) + d < SIZE then Home(t) + d else Home(t) + d - SIZE
  {
  }

  lemma HolderKnown(s: State, i: nat)
    requires Inv(s) && i < SIZE && s.table[i] != 0
    ensures s.table[i] in s.pcs.Keys
  {
    assert Held(s.table, s.pcs.Keys, i);
    hide Passed;
  }

  /** A thread cannot be passed by a whole table of others: there are not that many. */
  lemma NotAllPassed(s: State, t: Tid)
    requires Inv(s) && t in s.pcs
    ensures !Passed(s.table, t, SIZE)
  {
    if Passed(s.table, t, SIZE) {
      assert |s.table| == SIZE && |s.pcs.Keys| <= SIZE;
      hide Inv, Passed;
      var others := s.pcs.Keys - {t};
      forall i: nat | i < SIZE ensures s.table[i] > 0 && s.table[i] in others {
        AllPassed(s.table, t, i);
        HolderKnown(s, i);
      }
      forall i: nat, j: nat | i < j < SIZE ensures s.table[i] != s.table[j] {
        if s.table[i] == s.table[j] { OneSlotEach(s, i, j); }
      }
      HoldersCount(s.table, SIZE);
      SubsetSize(Holders(s.table, SIZE), others);
    }
  }

  // --- Every step keeps the invariant ---

  lemma PassesOne(table: seq<nat>, t: Tid, index: nat, probes: nat)
    requires |table| == SIZE && At(table, t, index, probes) && table[index] != 0 && table[index] != t
             && !Passed(table, t, SIZE)
    ensures At(table, t, (index + 1) % SIZE, probes + 1)
  {
    SlotNext(t, probes);
    hide Slot;
    var next := probes + 1;
    forall e: nat | e < next ensures table[Slot(t, e)] != 0 && table[Slot(t, e)] != t {
      if e != probes { assert e < probes; }
    }
    assert Passed(table, t, next);
  }

  lemma SlotNext(t: Tid, d: nat)
    ensures Slot(t, d + 1) == (Slot(t, d) + 1) % SIZE
  {
  }

  lemma AdvanceKeeps(s: State, t: Tid, index: nat, probes: nat)
    requires Inv(s) && t in s.pcs && At(s.table, t, index, probes) && s.table[index] != 0 && s.table[index] != t
    ensures Inv(Advance(s, t, index, probes))
  {
    NotAllPassed(s, t);
    PassesOne(s.table, t, index, probes);
    var s' := Advance(s, t, index, probes);
    assert s'.pcs.Keys == s.pcs.Keys;
    assert |s'.pcs| == |s'.pcs.Keys|;
    hide Held, Passed, At;
  }

  /** Filling an empty slot takes nothing from what threads have passed. */
  lemma FillKeepsPassed(table: seq<nat>, index: nat, t: Tid, u: Tid, d: nat)
    requires |table| == SIZE && index < SIZE && table[index] == 0 && Passed(table, u, d)
    ensures Passed(table[index := t], u, d)
  {
  }

  lemma ClaimKeeps(s: State, t: Tid)
    requires Inv(s) && t in s.pcs && s.pcs[t].Claiming? && s.table[s.pcs[t].index] == 0
    ensures var index := s.pcs[t].index; Inv(Return(s.(table := s.table[index := t]), t, index))
  {
    var index := s.pcs[t].index;
    var table, pcs := s.table[index := t], s.pcs[t := Idle];
    assert pcs.Keys == s.pcs.Keys;
    assert |pcs| == |pcs.Keys|;
    forall i: nat | i < SIZE ensures Held(table, pcs.Keys, i) {
      FillKeepsHeld(s.table, s.pcs.Keys, index, t, s.pcs[t].probes, i);
    }
    forall u | u in pcs ensures PcHolds(table, u, pcs[u]) {
      if u != t && !s.pcs[u].Idle? { FillKeepsPassed(s.table, index, t, u, s.pcs[u].probes); }
    }
    hide Held, Passed, PcHolds;
  }

  lemma FillKeepsHeld(table: seq<nat>, ids: set<Tid>, index: nat, t: Tid, probes: nat, i: nat)
    requires |table| == SIZE && index < SIZE && i < SIZE && t in ids && table[index] == 0
    requires At(table, t, index, probes) && Held(table, ids, i)
    ensures Held(table[index := t], ids, i)
  {
    if i == index {
      FillKeepsPassed(table, index, t, t, probes);
    } else if table[i] != 0 {
      var u := table[i];
      var d: nat :| d < SIZE && Slot(u, d) == i && Passed(table, u, d);
      FillKeepsPassed(table, index, t, u, d);
    }
  }

  lemma BeginKeeps(s: State, t: Tid)
    requires Inv(s) && t in s.pcs
    ensures Inv(s.(pcs := s.pcs[t := Loading(Home(t), 0)]))
  {
    var pcs := s.pcs[t := Loading(Home(t), 0)];
    assert pcs.Keys == s.pcs.Keys;
    assert |pcs| == |pcs.Keys|;
    assert At(s.table, t, Home(t), 0);
    hide Held, Passed, At;
  }

  lemma LoadKeeps(s: State, t: Tid)
    requires Inv(s) && Enabled(s, Load(t))
    ensures Inv(Do(s, Load(t)))
  {
    var pc := s.pcs[t];
    assert PcHolds(s.table, t, pc);
    if s.table[pc.index] != t && s.table[pc.index] != 0 {
      AdvanceKeeps(s, t, pc.index, pc.probes);
    } else {
      var pcs := Do(s, Load(t)).pcs;
      assert pcs.Keys == s.pcs.Keys;
      assert |pcs| == |pcs.Keys|;
      hide Held, Passed, At;
    }
  }

  lemma StepKeeps(s: State, step: Step)
    requires Inv(s) && Enabled(s, step)
    ensures Inv(Do(s, step))
  {
    assert PcHolds(s.table, step.t, s.pcs[step.t]);
    hide Inv, Held, Passed;
    match step
    case Begin(t) => BeginKeeps(s, t);
    case Load(t) => LoadKeeps(s, t);
    case Claim(t) =>
      if s.table[s.pcs[t].index] == 0 {
        ClaimKeeps(s, t);
      } else {
        AdvanceKeeps(s, t, s.pcs[t].index, s.pcs[t].probes);
      }
  }

  // --- Whole runs ---

  /** Before the first call: an empty table and idle threads, at most as many as there are slots. */
  ghost predicate Initial(s: State) {
    && |s.table| == SIZE && (forall i :: 0 <= i < SIZE ==> s.table[i] == 0)
    && |s.pcs| <= SIZE && (forall t :: t in s.pcs ==> s.pcs[t] == Idle)
    && s.returned == map[]
  }

  ghost predicate IsRun(states: seq<State>, steps: seq<Step>) {
    && |states| == |steps| + 1
    && forall i :: 0 <= i < |steps| ==> Enabled(states[i], steps[i]) && states[i + 1] == Do(states[i], steps[i])
  }

  lemma {:induction false} RunKeeps(states: seq<State>, steps: seq<Step>, n: nat)
    requires IsRun(states, steps) && Initial(states[0]) && n < |states|
    ensures Inv(states[n])
  {
    if n > 0 {
      RunKeeps(states, steps, n - 1);
      hide Inv;
      StepKeeps(states[n - 1], steps[n - 1]);
    } else {
      assert |states[0].pcs| <= SIZE;
    }
  }

  /** A held slot is never given to another, and a thread that has an index keeps it. */
  lemma {:induction false} SlotsStay(states: seq<State>, steps: seq<Step>, m: nat, n: nat, i: nat)
    requires IsRun(states, steps) && Initial(states[0]) && m <= n < |states| && i < SIZE
    ensures |states[m].table| == |states[n].table| == SIZE
    ensures states[m].table[i] != 0 ==> states[n].table[i] == states[m].table[i]
    decreases n
  {
    RunKeeps(states, steps, m);
    RunKeeps(states, steps, n);
    if m < n { SlotsStay(states, steps, m, n - 1, i); }
  }

  /** In every interleaving: no thread holds two slots, every call is still within its 256 probes, and
      whatever a thread was given once it is given again. */
  lemma EveryRunIsSafe(states: seq<State>, steps: seq<Step>, m: nat, n: nat)
    requires IsRun(states, steps) && Initial(states[0]) && m <= n < |states|
    ensures |states[n].table| == SIZE
    ensures forall i: nat, j: nat ::
              i < SIZE && j < SIZE && states[n].table[i] != 0 && states[n].table[i] == states[n].table[j] ==> i == j
    ensures forall t :: t in states[n].pcs && !states[n].pcs[t].Idle? ==> states[n].pcs[t].probes < SIZE
    ensures forall t :: t in states[m].returned ==>
              t in states[n].returned && states[n].returned[t] == states[m].returned[t]
    ensures forall t :: t in states[n].returned ==>
              states[n].returned[t] < SIZE && states[n].table[states[n].returned[t]] == t
  {
    RunKeeps(states, steps, m);
    RunKeeps(states, steps, n);
    forall i: nat, j: nat | i < SIZE && j < SIZE && states[n].table[i] != 0 && states[n].table[i] == states[n].table[j]
      ensures i == j
    {
      OneSlotEach(states[n], i, j);
    }
    hide Held, Passed;
    forall t | t in states[m].returned
      ensures t in states[n].returned && states[n].returned[t] == states[m].returned[t]
    {
      ReturnedStays(states, steps, m, n, t);
      SlotsStay(states, steps, m, n, states[m].returned[t]);
      OneSlotEach(states[n], states[m].returned[t], states[n].returned[t]);
    }
  }

  lemma {:induction false} ReturnedStays(states: seq<State>, steps: seq<Step>, m: nat, n: nat, t: Tid)
    requires IsRun(states, steps) && m <= n < |states| && t in states[m].returned
    ensures t in states[n].returned
    decreases n
  {
    if m < n { ReturnedStays(states, steps, m, n - 1, t); }
  }

  // --- Calls end ---

  /** How far a call has come. */
  function Work(pc: PC): nat {
    match pc
    case Idle => 0
    case Loading(_, probes) => 2 * probes
    case Claiming(_, probes) => 2 * probes + 1
  }

  lemma OwnStepWorks(s: State, step: Step)
    requires Inv(s) && Enabled(s, step) && !s.pcs[step.t].Idle?
    ensures var s' := Do(s, step);
            if s'.pcs[step.t].Idle? then step.t in s'.returned && s'.table[s'.returned[step.t]] == step.t
            else Work(s'.pcs[step.t]) > Work(s.pcs[step.t])
  {
    StepKeeps(s, step);
    hide Held, Passed, PcHolds;
  }

  /** The steps a thread makes itself between two moments. */
  function OwnSteps(steps: seq<Step>, m: nat, n: nat, t: Tid): nat
    requires m <= n <= |steps|
  {
    if m == n then 0 else OwnSteps(steps, m, n - 1, t) + if steps[n - 1].t == t then 1 else 0
  }

  lemma {:induction false} WorkAddsUp(states: seq<State>, steps: seq<Step>, m: nat, n: nat, t: Tid)
    requires IsRun(states, steps) && Initial(states[0]) && m <= n < |states|
    requires forall j :: m <= j <= n ==> t in states[j].pcs && !states[j].pcs[t].Idle?
    ensures Work(states[n].pcs[t]) >= Work(states[m].pcs[t]) + OwnSteps(steps, m, n, t)
    decreases n
  {
    hide Inv, Initial, Work;
    if m < n {
      WorkAddsUp(states, steps, m, n - 1, t);
      RunKeeps(states, steps, n - 1);
      assert states[n - 1 + 1] == Do(states[n - 1], steps[n - 1]);
      if steps[n - 1].t == t { OwnStepWorks(states[n - 1], steps[n - 1]); }
    }
  }

  /** Whatever the other threads do, a call is over after at most 512 steps of its own, and has then been given a slot
      that holds its thread. */
  lemma CallsAreWaitFree(states: seq<State>, steps: seq<Step>, m: nat, n: nat, t: Tid)
    requires IsRun(states, steps) && Initial(states[0]) && m <= n < |steps| && steps[n].t == t
    requires forall j :: m <= j <= n ==> t in states[j].pcs && !states[j].pcs[t].Idle?
    ensures OwnSteps(steps, m, n, t) < 2 * SIZE
    ensures states[n + 1].pcs[t].Idle? ==>
              && t in states[n + 1].returned && states[n + 1].returned[t] < SIZE == |states[n + 1].table|
              && states[n + 1].table[states[n + 1].returned[t]] == t
  {
    WorkAddsUp(states, steps, m, n, t);
    RunKeeps(states, steps, n);
    RunKeeps(states, steps, n + 1);
    assert PcHolds(states[n].table, t, states[n].pcs[t]);
    OwnStepWorks(states[n], steps[n]);
    hide Held, Passed;
  }
}
