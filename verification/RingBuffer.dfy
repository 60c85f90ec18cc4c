/** The ring buffer under its spin lock, one atomic access or slot copy at a time: any number of pushers
    and poppers, and counters that wrap at 2^64. */
module RingBuffer {
  import NextPow2
  import opened Powers

  type Item = nat
  type Tid = nat

  // --- The lock word ---

  /** The lock word of a holder: never 0, though threads with the same low 30 bits share it. */
  function Ticket(t: Tid): (r: nat)
    ensures 0 < r < 0x8000_0000
  {
    t % 0x4000_0000 * 2 + 1
  }

  /** The word after an unlock by a thread, alone on the lock. */
  function Unlocked(word: nat, t: Tid): nat {
    if word == 0 || word != Ticket(t) then word else 0
  }

  /** An unlock by a thread that does not hold the lock is refused iff the low 30 bits of the two ids
      differ; so the refusal that is promised for every foreign thread does not always come. */
  lemma ForeignUnlock(holder: Tid, other: Tid)
    ensures Unlocked(Ticket(holder), other) == Ticket(holder) <==> holder % 0x4000_0000 != other % 0x4000_0000
    ensures Unlocked(Ticket(1), 0x4000_0001) == 0
  {
    assert Ticket(0x4000_0001) == Ticket(1);
  }

  // --- The machine ---

  datatype Op = Push(item: Item) | Pop

  datatype Outcome = Accepted | Full | Popped(item: Item) | Empty

  datatype Event = Event(thread: Tid, op: Op, outcome: Outcome)

  /** A call between two of its steps. `own` is the counter the call will move: tail for a push, head
      for a pop. `ended` is where the log has what the call returns. */
  datatype PC =
    | Idle
    | Locking(op: Op)
    | LoadOwn(op: Op)
    | LoadOther(op: Op, own: nat)
    | Copy(op: Op, own: nat)
    | StoreOwn(op: Op, own: nat, got: Item)
    | Checking(op: Op, outcome: Outcome, ended: nat)
    | Releasing(op: Op, outcome: Outcome, ended: nat)

  /** `pushed` and `popped` count without wrapping what `tail` and `head` count modulo 2^64. */
  datatype State = State(word: nat, head: nat, tail: nat, slots: seq<Item>, pcs: map<Tid, PC>,
                         pushed: nat, popped: nat, log: seq<Event>)

  datatype Step = Begin(t: Tid, op: Op) | Next(t: Tid)

  /** A position reduced to a slot: the low bits under the mask. */
  function Slot(n: nat, capacity: nat): (r: nat)
    requires capacity > 0
    ensures r < capacity
  {
    if n < capacity then n else Slot(n - capacity, capacity)
  }

  predicate Enabled(s: State, step: Step) {
    step.t in s.pcs && (step.Begin? <==> s.pcs[step.t].Idle?) && |s.slots| > 0
  }

  function Own(s: State, op: Op): nat { if op.Push? then s.tail else s.head }

  function Other(s: State, op: Op): nat { if op.Push? then s.head else s.tail }

  /** The test under the lock: no room for a push, nothing for a pop. */
  predicate Refused(op: Op, own: nat, other: nat, capacity: nat) {
    if op.Push? then (own + WORD - other) % WORD >= capacity else own == other
  }

  function At(s: State, t: Tid, pc: PC): State {
    s.(pcs := s.pcs[t := pc])
  }

  function Logged(s: State, t: Tid, op: Op, outcome: Outcome): State {
    At(s.(log := s.log + [Event(t, op, outcome)]), t, Checking(op, outcome, |s.log|))
  }

  function Do(s: State, step: Step): State
    requires Enabled(s, step)
  {
    var t := step.t;
    if step.Begin? then At(s, t, Locking(step.op))
    else
      match s.pcs[t]
      case Locking(op) => if s.word == 0 then At(s.(word := Ticket(t)), t, LoadOwn(op)) else s
      case LoadOwn(op) => At(s, t, LoadOther(op, Own(s, op)))
      case LoadOther(op, own) =>
        if Refused(op, own, Other(s, op), |s.slots|) then Logged(s, t, op, if op.Push? then Full else Empty)
        else At(s, t, Copy(op, own))
      case Copy(op, own) =>
        var slot := Slot(own, |s.slots|);
        if op.Push? then At(s.(slots := s.slots[slot := op.item]), t, StoreOwn(op, own, op.item))
        else At(s, t, StoreOwn(op, own, s.slots[slot]))
      case StoreOwn(op, own, got) =>
        if op.Push? then Logged(s.(tail := (own + 1) % WORD, pushed := s.pushed + 1), t, op, Accepted)
        else Logged(s.(head := (own + 1) % WORD, popped := s.popped + 1), t, op, Popped(got))
      case Checking(op, outcome, ended) =>
        if s.word == Ticket(t) then At(s, t, Releasing(op, outcome, ended)) else At(s, t, Idle)
      case Releasing(op, outcome, ended) => At(s.(word := 0), t, Idle)
      case Idle => s
  }

  // --- The queue it is ---

  /** An atomic queue: what a log of completed calls leaves, if the calls can have returned that. */
  datatype Queue = Impossible | Holds(items: seq<Item>)

  function Apply(q: seq<Item>, e: Event, capacity: nat): Queue {
    match (e.op, e.outcome)
    case (Push(item), Accepted) => if |q| < capacity then Holds(q + [item]) else Impossible
    case (Push(item), Full) => if |q| == capacity then Holds(q) else Impossible
    case (Pop, Popped(item)) => if q != [] && q[0] == item then Holds(q[1..]) else Impossible
    case (Pop, Empty) => if q == [] then Holds(q) else Impossible
    case _ => Impossible
  }

  function Replay(log: seq<Event>, capacity: nat): Queue {
    if log == [] then Holds([])
    else
      match Replay(log[..|log| - 1], capacity)
      case Impossible => Impossible
      case Holds(q) => Apply(q, log[|log| - 1], capacity)
  }

  /** The slots of the positions from `from` to `to`. */
  function Window(slots: seq<Item>, from: nat, to: nat): (r: seq<Item>)
    requires |slots| > 0 && from <= to
    ensures |r| == to - from && forall i :: 0 <= i < to - from ==> r[i] == slots[Slot(from + i, |slots|)]
  {
    seq(to - from, i requires 0 <= i < to - from => slots[Slot(from + i, |slots|)])
  }

  /** What the ring holds: the slots from head to tail. */
  function Contents(s: State): seq<Item>
    requires |s.slots| > 0 && s.popped <= s.pushed
  {
    Window(s.slots, s.popped, s.pushed)
  }

  // --- The invariant ---

  /** Between taking the lock and giving it back. */
  predicate Inside(pc: PC) {
    !pc.Idle? && !pc.Locking?
  }

  /** The counters are the true counts modulo 2^64, and no more is held than there are slots. */
  predicate Counters(s: State) {
    && |s.slots| > 0 && s.popped <= s.pushed <= s.popped + |s.slots|
    && s.head == s.popped % WORD && s.tail == s.pushed % WORD
  }

  predicate LocalHolds(s: State, t: Tid, pc: PC)
    requires Counters(s)
  {
    match pc
    case LoadOther(op, own) => own == Own(s, op)
    case Copy(op, own) => own == Own(s, op)
                          && (if op.Push? then s.pushed - s.popped < |s.slots| else s.popped < s.pushed)
    case StoreOwn(op, own, got) =>
      && own == Own(s, op)
      && (if op.Push? then s.pushed - s.popped < |s.slots| && got == op.item && s.slots[Slot(own, |s.slots|)] == got
          else s.popped < s.pushed && s.slots[Slot(own, |s.slots|)] == got)
    case Checking(op, outcome, ended) => ended < |s.log| && s.log[ended] == Event(t, op, outcome)
    case Releasing(op, outcome, ended) => ended < |s.log| && s.log[ended] == Event(t, op, outcome)
    case _ => true
  }

  /** The lock is held by exactly one thread, or free and nobody is inside. */
  ghost predicate LockHolds(s: State) {
    && (forall t :: t in s.pcs && Inside(s.pcs[t]) ==> s.word == Ticket(t))
    && (forall t, u :: t in s.pcs && u in s.pcs && Inside(s.pcs[t]) && Inside(s.pcs[u]) ==> t == u)
    && (s.word != 0 ==> exists t :: t in s.pcs && Inside(s.pcs[t]))
  }

  ghost predicate Inv(s: State, k: nat) {
    && k <= 63 && |s.slots| == Pow2(k) && Counters(s) && LockHolds(s)
    && (forall t :: t in s.pcs ==> LocalHolds(s, t, s.pcs[t]))
    && Replay(s.log, |s.slots|) == Holds(Contents(s))
  }

  // --- Slots and counters ---

  lemma {:induction false} SlotPlus(n: nat, k: nat, j: nat)
    requires k <= j
    ensures Slot(n + Pow2(j), Pow2(k)) == Slot(n, Pow2(k))
    decreases j
  {
    if k < j {
      SlotPlus(n + Pow2(j - 1), k, j - 1);
      SlotPlus(n, k, j - 1);
    }
  }

  /** The slot of a counter is that of the true count, however often the counter has wrapped. */
  lemma {:induction false} SlotOfCounter(n: nat, k: nat)
    requires k <= 63 && Pow2(64) == WORD
    ensures Slot(n % WORD, Pow2(k)) == Slot(n, Pow2(k))
    decreases n
  {
    hide Slot, Pow2;
    if n >= WORD {
      var m := n - WORD;
      SlotOfCounter(m, k);
      SlotPlus(m, k, 64);
      assert n % WORD == m % WORD && n == m + Pow2(64);
    }
  }

  lemma {:induction false} SlotsApart(a: nat, b: nat, capacity: nat)
    requires a < b < a + capacity
    ensures Slot(a, capacity) != Slot(b, capacity)
    decreases a
  {
    if a >= capacity { SlotsApart(a - capacity, b - capacity, capacity); }
  }

  lemma RemainderIs(n: nat, q: nat, r: nat)
    requires n == q * WORD + r && r < WORD
    ensures n % WORD == r
  {
  }

  lemma WrappedDifference(a: nat, b: nat)
    requires b <= a < b + WORD
    ensures (a % WORD + WORD - b % WORD) % WORD == a - b && (a % WORD == b % WORD <==> a == b)
  {
    var q, r, d := b / WORD, b % WORD, a - b;
    assert b == q * WORD + r && r < WORD;
    hide *;
    if r + d < WORD {
      RemainderIs(a, q, r + d);
      RemainderIs(d + WORD, 1, d);
    } else {
      RemainderIs(a, q + 1, r + d - WORD);
      RemainderIs(d, 0, d);
    }
  }

  /** The wrapped difference of the counters is what the ring holds. */
  lemma CountersTell(s: State, op: Op)
    requires Counters(s) && |s.slots| < WORD
    ensures Refused(op, Own(s, op), Other(s, op), |s.slots|)
            <==> if op.Push? then s.pushed - s.popped == |s.slots| else s.pushed == s.popped
  {
    WrappedDifference(s.pushed, s.popped);
  }

  lemma CapacityBelowWord(k: nat)
    requires k <= 63
    ensures Pow2(k) < WORD && Pow2(64) == WORD
  {
    NextPow2.Pow2Of64();
    if k < 63 { NextPow2.Pow2Grows(k, 63); }
  }

  /** Writing the slot behind the window changes nothing in it. */
  lemma WindowUnseen(slots: seq<Item>, from: nat, to: nat, item: Item)
    requires from <= to < from + |slots|
    ensures Window(slots[Slot(to, |slots|) := item], from, to) == Window(slots, from, to)
  {
    var slots' := slots[Slot(to, |slots|) := item];
    var v, w := Window(slots', from, to), Window(slots, from, to);
    forall i | 0 <= i < to - from ensures v[i] == w[i] {
      SlotsApart(from + i, to, |slots|);
    }
  }

  lemma WindowGrows(slots: seq<Item>, from: nat, to: nat)
    requires |slots| > 0 && from <= to
    ensures Window(slots, from, to + 1) == Window(slots, from, to) + [slots[Slot(to, |slots|)]]
  {
    hide Slot;
    var end := to + 1;
    assert from + (to - from) == to;
  }

  lemma WindowShrinks(slots: seq<Item>, from: nat, to: nat)
    requires |slots| > 0 && from < to
    ensures Window(slots, from, to)[0] == slots[Slot(from, |slots|)]
            && Window(slots, from + 1, to) == Window(slots, from, to)[1..]
  {
    hide Slot;
    var next := from + 1;
    var w, v := Window(slots, from, to), Window(slots, next, to);
    assert from + 0 == from;
    forall i | 0 <= i < |v| ensures v[i] == w[1..][i] {
      var j := i + 1;
      assert next + i == from + j && w[1..][i] == w[j];
    }
  }

  lemma CounterSteps(n: nat)
    ensures (n % WORD + 1) % WORD == (n + 1) % WORD
  {
  }

  /** Writing the slot behind the tail changes nothing the ring holds. */
  lemma WriteIsUnseen(s: State, k: nat, item: Item)
    requires k <= 63 && |s.slots| == Pow2(k) && Counters(s) && s.pushed - s.popped < |s.slots|
    ensures var s' := s.(slots := s.slots[Slot(s.tail, |s.slots|) := item]); Contents(s') == Contents(s)
  {
    hide Pow2, Slot, Window;
    CapacityBelowWord(k);
    SlotOfCounter(s.pushed, k);
    WindowUnseen(s.slots, s.popped, s.pushed, item);
  }

  /** Moving the tail shows the slot that was written. */
  lemma PushShows(s: State, k: nat, item: Item)
    requires k <= 63 && |s.slots| == Pow2(k) && Counters(s) && s.pushed - s.popped < |s.slots|
    requires s.slots[Slot(s.tail, |s.slots|)] == item
    ensures var s' := s.(tail := (s.tail + 1) % WORD, pushed := s.pushed + 1);
            Counters(s') && Contents(s') == Contents(s) + [item]
  {
    hide Pow2, Slot, Window;
    CapacityBelowWord(k);
    SlotOfCounter(s.pushed, k);
    CounterSteps(s.pushed);
    WindowGrows(s.slots, s.popped, s.pushed);
  }

  /** Moving the head drops the oldest item, which is the one copied out. */
  lemma PopDrops(s: State, k: nat, item: Item)
    requires k <= 63 && |s.slots| == Pow2(k) && Counters(s) && s.popped < s.pushed
    requires s.slots[Slot(s.head, |s.slots|)] == item
    ensures var s' := s.(head := (s.head + 1) % WORD, popped := s.popped + 1);
            Counters(s') && Contents(s) != [] && Contents(s)[0] == item && Contents(s') == Contents(s)[1..]
  {
    hide Pow2, Slot, Window;
    CapacityBelowWord(k);
    SlotOfCounter(s.popped, k);
    CounterSteps(s.popped);
    WindowShrinks(s.slots, s.popped, s.pushed);
  }

  lemma ReplayMore(log: seq<Event>, e: Event, capacity: nat, q: seq<Item>)
    requires Replay(log, capacity) == Holds(q)
    ensures Replay(log + [e], capacity) == Apply(q, e, capacity)
  {
    assert (log + [e])[..|log|] == log;
  }

  // --- Every step keeps the invariant ---

  /** Only the thread that moves changes what it knows, unless it is inside: then no other is. */
  lemma OthersKeep(s: State, s': State, t: Tid)
    requires Counters(s) && Counters(s') && LockHolds(s) && t in s.pcs && s.pcs.Keys == s'.pcs.Keys
    requires forall u :: u in s.pcs && u != t ==> s'.pcs[u] == s.pcs[u] && LocalHolds(s, u, s.pcs[u])
    requires s.log <= s'.log
    requires Inside(s.pcs[t]) || (s'.slots == s.slots && s'.head == s.head && s'.tail == s.tail
                                  && s'.pushed == s.pushed && s'.popped == s.popped)
    ensures forall u :: u in s.pcs && u != t ==> LocalHolds(s', u, s'.pcs[u])
  {
    forall u | u in s.pcs && u != t ensures LocalHolds(s', u, s'.pcs[u]) {
      if Inside(s.pcs[u]) { assert !Inside(s.pcs[t]); }
    }
  }

  /** A step that stays inside, or stays outside, leaves the lock as it is. */
  lemma LockStays(s: State, s': State, t: Tid)
    requires LockHolds(s) && t in s.pcs && s'.word == s.word && t in s'.pcs && s'.pcs == s.pcs[t := s'.pcs[t]]
    requires Inside(s'.pcs[t]) == Inside(s.pcs[t])
    ensures LockHolds(s')
  {
    hide Inside, Ticket;
    if s'.word != 0 {
      var u :| u in s.pcs && Inside(s.pcs[u]);
      assert u in s'.pcs && Inside(s'.pcs[u]);
    }
  }

  lemma LockTaken(s: State, s': State, t: Tid)
    requires LockHolds(s) && t in s.pcs && s.word == 0 && s'.word == Ticket(t) && t in s'.pcs
             && s'.pcs == s.pcs[t := s'.pcs[t]]
    requires Inside(s'.pcs[t])
    ensures LockHolds(s')
  {
    hide Inside;
  }

  lemma LockGiven(s: State, s': State, t: Tid)
    requires LockHolds(s) && t in s.pcs && Inside(s.pcs[t]) && s'.word == 0 && t in s'.pcs
             && s'.pcs == s.pcs[t := s'.pcs[t]]
    requires !Inside(s'.pcs[t])
    ensures LockHolds(s')
  {
    hide Inside, Ticket;
  }

  /** What is left to show of a step once the lock is settled. */
  lemma Settled(s: State, s': State, t: Tid, k: nat)
    requires Inv(s, k) && t in s.pcs && t in s'.pcs && s'.pcs == s.pcs[t := s'.pcs[t]] && LockHolds(s')
    requires |s'.slots| == |s.slots| && Counters(s') && s.log <= s'.log
    requires Inside(s.pcs[t]) || (s'.slots == s.slots && s'.head == s.head && s'.tail == s.tail
                                  && s'.pushed == s.pushed && s'.popped == s.popped)
    requires LocalHolds(s', t, s'.pcs[t]) && Replay(s'.log, |s.slots|) == Holds(Contents(s'))
    ensures Inv(s', k)
  {
    OthersKeep(s, s', t);
    hide LocalHolds, LockHolds, Counters, Replay;
  }

  lemma EnterKeeps(s: State, t: Tid, k: nat)
    requires Inv(s, k) && Enabled(s, Next(t)) && s.pcs[t].Locking?
    ensures Inv(Do(s, Next(t)), k)
  {
    var s' := Do(s, Next(t));
    if s.word == 0 {
      LockTaken(s, s', t);
      hide LockHolds, Replay;
      Settled(s, s', t, k);
    }
  }

  lemma LoadOwnKeeps(s: State, t: Tid, k: nat)
    requires Inv(s, k) && Enabled(s, Next(t)) && s.pcs[t].LoadOwn?
    ensures Inv(Do(s, Next(t)), k)
  {
    var s' := Do(s, Next(t));
    LockStays(s, s', t);
    hide LockHolds, Replay, Pow2, Slot, Window;
    assert Contents(s') == Contents(s);
    Settled(s, s', t, k);
  }

  lemma LoadOtherKeeps(s: State, t: Tid, k: nat)
    requires Inv(s, k) && Enabled(s, Next(t)) && s.pcs[t].LoadOther?
    ensures Inv(Do(s, Next(t)), k)
  {
    var s', op := Do(s, Next(t)), s.pcs[t].op;
    assert LocalHolds(s, t, s.pcs[t]);
    LockStays(s, s', t);
    CapacityBelowWord(k);
    CountersTell(s, op);
    hide LockHolds, Replay, Pow2, Slot, Window, Refused;
    assert |Contents(s)| == s.pushed - s.popped;
    if Refused(op, s.pcs[t].own, Other(s, op), |s.slots|) {
      ReplayMore(s.log, Event(t, op, if op.Push? then Full else Empty), |s.slots|, Contents(s));
    }
    assert Contents(s') == Contents(s);
    Settled(s, s', t, k);
  }

  lemma CopyKeeps(s: State, t: Tid, k: nat)
    requires Inv(s, k) && Enabled(s, Next(t)) && s.pcs[t].Copy?
    ensures Inv(Do(s, Next(t)), k)
  {
    var s', op := Do(s, Next(t)), s.pcs[t].op;
    assert LocalHolds(s, t, s.pcs[t]);
    LockStays(s, s', t);
    hide LockHolds, Replay, Pow2, Slot, Window;
    if op.Push? { WriteIsUnseen(s, k, op.item); }
    assert Contents(s') == Contents(s);
    Settled(s, s', t, k);
  }

  lemma PushStoreKeeps(s: State, t: Tid, k: nat)
    requires Inv(s, k) && Enabled(s, Next(t)) && s.pcs[t].StoreOwn? && s.pcs[t].op.Push?
    ensures Inv(Do(s, Next(t)), k)
  {
    var s' := Do(s, Next(t));
    assert LocalHolds(s, t, s.pcs[t]);
    LockStays(s, s', t);
    hide LockHolds, Replay, Pow2, Slot, Window;
    var item := s.pcs[t].op.item;
    var m := s.(tail := (s.tail + 1) % WORD, pushed := s.pushed + 1);
    PushShows(s, k, item);
    ReplayMore(s.log, Event(t, Push(item), Accepted), |s.slots|, Contents(s));
    assert |Contents(s)| == s.pushed - s.popped;
    assert Contents(s') == Contents(m);
    Settled(s, s', t, k);
  }

  lemma PopStoreKeeps(s: State, t: Tid, k: nat)
    requires Inv(s, k) && Enabled(s, Next(t)) && s.pcs[t].StoreOwn? && s.pcs[t].op.Pop?
    ensures Inv(Do(s, Next(t)), k)
  {
    var s' := Do(s, Next(t));
    assert LocalHolds(s, t, s.pcs[t]);
    LockStays(s, s', t);
    hide LockHolds, Replay, Pow2, Slot, Window;
    var got := s.pcs[t].got;
    var m := s.(head := (s.head + 1) % WORD, popped := s.popped + 1);
    PopDrops(s, k, got);
    ReplayMore(s.log, Event(t, Pop, Popped(got)), |s.slots|, Contents(s));
    assert Contents(s') == Contents(m);
    Settled(s, s', t, k);
  }

  lemma LeaveKeeps(s: State, t: Tid, k: nat)
    requires Inv(s, k) && Enabled(s, Next(t)) && (s.pcs[t].Checking? || s.pcs[t].Releasing?)
    ensures Inv(Do(s, Next(t)), k)
    ensures s.pcs[t].Checking? ==> s.word == Ticket(t)
  {
    var s' := Do(s, Next(t));
    assert LocalHolds(s, t, s.pcs[t]);
    assert s.word == Ticket(t);
    if s.pcs[t].Checking? { LockStays(s, s', t); } else { LockGiven(s, s', t); }
    hide LockHolds, Replay, Pow2, Slot, Window;
    assert Contents(s') == Contents(s);
    Settled(s, s', t, k);
  }

  lemma StepKeeps(s: State, step: Step, k: nat)
    requires Inv(s, k) && Enabled(s, step)
    ensures Inv(Do(s, step), k)
  {
    var t := step.t;
    match step
    case Begin(_, op) =>
      var s' := Do(s, step);
      LockStays(s, s', t);
      hide LockHolds, Replay, Pow2, Slot, Window;
      assert Contents(s') == Contents(s);
      Settled(s, s', t, k);
    case Next(_) =>
      hide Inv;
      match s.pcs[t]
      case Locking(_) => EnterKeeps(s, t, k);
      case LoadOwn(_) => LoadOwnKeeps(s, t, k);
      case LoadOther(_, _) => LoadOtherKeeps(s, t, k);
      case Copy(_, _) => CopyKeeps(s, t, k);
      case StoreOwn(op, _, _) => if op.Push? { PushStoreKeeps(s, t, k); } else { PopStoreKeeps(s, t, k); }
      case Checking(_, _, _) => LeaveKeeps(s, t, k);
      case Releasing(_, _, _) => LeaveKeeps(s, t, k);
      case Idle =>
  }

  // --- Whole runs ---

  /** A ring as constructed for a request: all counters zero, the lock free. */
  ghost predicate Initial(s: State, k: nat) {
    && k <= 63 && |s.slots| == Pow2(k) && s.head == 0 && s.tail == 0 && s.pushed == 0 && s.popped == 0
    && s.word == 0 && s.log == [] && forall t :: t in s.pcs ==> s.pcs[t] == Idle
  }

  ghost predicate IsRun(states: seq<State>, steps: seq<Step>) {
    && |states| == |steps| + 1
    && forall i :: 0 <= i < |steps| ==> Enabled(states[i], steps[i]) && states[i + 1] == Do(states[i], steps[i])
  }

  lemma InitialHolds(s: State, k: nat)
    requires Initial(s, k)
    ensures Inv(s, k)
  {
    hide Pow2, Slot;
    assert Contents(s) == [];
  }

  lemma {:induction false} RunKeeps(states: seq<State>, steps: seq<Step>, k: nat, n: nat)
    requires IsRun(states, steps) && Initial(states[0], k) && n < |states|
    ensures Inv(states[n], k)
  {
    hide Inv, Initial;
    if n == 0 {
      InitialHolds(states[0], k);
    } else {
      RunKeeps(states, steps, k, n - 1);
      StepKeeps(states[n - 1], steps[n - 1], k);
    }
  }

  /** The log only grows: what has been returned stays returned. */
  lemma {:induction false} LogGrows(states: seq<State>, steps: seq<Step>, m: nat, n: nat)
    requires IsRun(states, steps) && m <= n < |states|
    ensures states[m].log <= states[n].log
    decreases n
  {
    if m < n {
      LogGrows(states, steps, m, n - 1);
      assert states[n] == Do(states[n - 1], steps[n - 1]);
    }
  }

  /** In every interleaving the ring is an atomic FIFO queue: replaying what the calls returned, in the
      order of their log, is possible and gives the items the ring holds; a call returns what the log has
      for it; what was logged at an earlier moment still is; and no two threads are ever inside. */
  lemma EveryRunIsAQueue(states: seq<State>, steps: seq<Step>, k: nat, m: nat, n: nat)
    requires IsRun(states, steps) && Initial(states[0], k) && m <= n < |states|
    ensures var s := states[n];
            && |s.slots| == Pow2(k) && Counters(s)
            && Replay(s.log, Pow2(k)) == Holds(Contents(s)) && |Contents(s)| <= Pow2(k)
    ensures forall t, u ::
              t in states[n].pcs && u in states[n].pcs && Inside(states[n].pcs[t]) && Inside(states[n].pcs[u]) ==>
                t == u
    ensures forall t :: t in states[n].pcs && states[n].pcs[t].Releasing? ==>
              states[n].pcs[t].ended < |states[n].log|
              && states[n].log[states[n].pcs[t].ended] == Event(t, states[n].pcs[t].op, states[n].pcs[t].outcome)
    ensures states[m].log <= states[n].log
  {
    RunKeeps(states, steps, k, n);
    LogGrows(states, steps, m, n);
    hide Pow2, Slot, Replay;
  }

  // --- Calls end ---

  /** Steps a call that meets nobody has before it, at most. */
  function Ahead(pc: PC): nat {
    match pc
    case Idle => 0
    case Locking(_) => 7
    case LoadOwn(_) => 6
    case LoadOther(_, _) => 5
    case Copy(_, _) => 4
    case StoreOwn(_, _, _) => 3
    case Checking(_, _, _) => 2
    case Releasing(_, _, _) => 1
  }

  /** Where `n` steps of one thread lead. */
  function Alone(s: State, t: Tid, n: nat): State
    requires |s.slots| > 0 && t in s.pcs
    decreases n
  {
    if n == 0 || s.pcs[t].Idle? then s else Alone(Do(s, Next(t)), t, n - 1)
  }

  /** A step of a call that need not wait for the lock brings it nearer to its end; the lock is free again at the end;
      and the call is logged once, before it gives the lock back. */
  lemma StepGoesOn(s: State, t: Tid, k: nat) returns (outcome: Outcome)
    requires Inv(s, k) && |s.slots| > 0 && t in s.pcs && !s.pcs[t].Idle? && (s.pcs[t].Locking? ==> s.word == 0)
    ensures Enabled(s, Next(t))
    ensures var s' := Do(s, Next(t));
            && |s'.slots| == |s.slots| && t in s'.pcs && !s'.pcs[t].Locking? && Ahead(s'.pcs[t]) < Ahead(s.pcs[t])
            && (s'.pcs[t].Idle? ==> s'.word == 0 && s.pcs[t].Releasing?)
            && (if !Logging(s.pcs[t]) && Logging(s'.pcs[t]) then s'.log == s.log + [Event(t, s.pcs[t].op, outcome)]
                else s'.log == s.log && Logging(s'.pcs[t]) == Logging(s.pcs[t]))
            && (!s'.pcs[t].Idle? ==> s'.pcs[t].op == s.pcs[t].op)
  {
    hide Slot, Replay, Pow2;
    if s.pcs[t].Checking? { LeaveKeeps(s, t, k); }
    var s' := Do(s, Next(t));
    outcome := if s'.pcs[t].Checking? then s'.pcs[t].outcome else Full;
  }

  predicate Logging(pc: PC) {
    pc.Checking? || pc.Releasing? || pc.Idle?
  }

  lemma {:induction false} LoneCallEnds(s: State, t: Tid, k: nat, n: nat) returns (outcome: Outcome)
    requires Inv(s, k) && |s.slots| > 0 && t in s.pcs && !s.pcs[t].Idle? && (s.pcs[t].Locking? ==> s.word == 0)
    requires n >= Ahead(s.pcs[t])
    ensures var s' := Alone(s, t, n);
            && Inv(s', k) && |s'.slots| == |s.slots| && t in s'.pcs && s'.pcs[t].Idle? && s'.word == 0
            && s'.log == s.log + (if Logging(s.pcs[t]) then [] else [Event(t, s.pcs[t].op, outcome)])
    decreases n
  {
    hide Inv, Do, Enabled, Ahead, Logging;
    AheadIs(s.pcs[t]);
    outcome := StepGoesOn(s, t, k);
    StepKeeps(s, Next(t), k);
    var s' := Do(s, Next(t));
    AheadIs(s'.pcs[t]);
    if !s'.pcs[t].Idle? {
      var later := LoneCallEnds(s', t, k, n - 1);
      if !Logging(s'.pcs[t]) { outcome := later; }
    }
  }

  lemma AheadIs(pc: PC)
    ensures Ahead(pc) > 0 <==> !pc.Idle?
    ensures pc.Idle? || pc.Releasing? ==> Logging(pc)
    ensures pc.Locking? ==> Ahead(pc) == 7 && !Logging(pc)
  {
  }

  /** A call that finds the lock free and meets nobody returns after at most seven steps, with the lock free again:
      a push is refused iff as many items are held as there are slots, a pop iff none is, and otherwise the item goes
      in behind, or the first one comes out. */
  lemma LoneCallReturns(s: State, t: Tid, k: nat)
    requires Inv(s, k) && Counters(s) && t in s.pcs && s.pcs[t].Locking? && s.word == 0
    ensures var s', op, q := Alone(s, t, 7), s.pcs[t].op, Contents(s);
            && t in s'.pcs && s'.pcs[t].Idle? && s'.word == 0 && Counters(s')
            && Contents(s') == (if op.Push? then (if |q| == |s.slots| then q else q + [op.item])
                                else if q == [] then q else q[1..])
            && s'.log == s.log + [Event(t, op, if op.Push? then (if |q| == |s.slots| then Full else Accepted)
                                               else if q == [] then Empty else Popped(q[0]))]
  {
    hide Inv, Alone, Window, Replay, Contents;
    AheadIs(s.pcs[t]);
    var outcome := LoneCallEnds(s, t, k, 7);
    var s' := Alone(s, t, 7);
    Known(s, k);
    Known(s', k);
    ReplayMore(s.log, Event(t, s.pcs[t].op, outcome), |s.slots|, Contents(s));
  }

  lemma Known(s: State, k: nat)
    requires Inv(s, k)
    ensures Counters(s) && Replay(s.log, |s.slots|) == Holds(Contents(s)) && |Contents(s)| <= |s.slots|
  {
  }
}
