/** The double-buffered mailbox, in any interleaving; a call made from a callback is a call like any other. */
module Dispatch {
  import opened Options

  type Call = int
  type Item = int
  type Address = int

  const NULL: Address := 0

  /** A call between two of its steps. `place` is where an accepted item stands among the accepted. */
  datatype PC =
    | Idle
    | PostTry(item: Item)
    | PostRoom(item: Item)
    | PostWrite(item: Item)
    | PostUnlock(item: Item, place: Option<nat>)
    | DrainFlag
    | DrainTry
    | DrainSwap
    | DrainUnlock(n: nat)
    | Deliver(i: nat, n: nat)

  /** The mailbox, the buffers its two pointers may point to, and who has the lock and the drain flag.
      `posted` and `invoked` record what was accepted and what has run. */
  datatype State = State(lock: Option<Call>, draining: Option<Call>, items: Address, batch: Address, count: nat,
                         memory: map<Address, seq<Item>>, pcs: map<Call, PC>, posted: seq<Item>, invoked: seq<Item>)

  /** `given` is what the allocator returns, should the step ask it for a larger buffer: a new address, the
      address of the buffer itself if it grows in place, or null. */
  datatype Step = Post(c: Call, item: Item) | Drain(c: Call) | Next(c: Call, given: Address)

  predicate Sound(s: State) {
    s.items in s.memory && s.batch in s.memory && s.count <= |s.memory[s.items]|
  }

  predicate Enabled(s: State, step: Step) {
    && step.c in s.pcs && Sound(s) && (step.Next? <==> !s.pcs[step.c].Idle?)
    && (step.Next? ==> step.given == NULL || step.given !in s.memory || step.given == s.items)
    && (step.Next? && s.pcs[step.c].PostWrite? ==> s.count < |s.memory[s.items]|)
    && (step.Next? && s.pcs[step.c].Deliver? && s.pcs[step.c].i < s.pcs[step.c].n ==>
          s.pcs[step.c].i < |s.memory[s.batch]|)
  }

  function At(s: State, c: Call, pc: PC): State {
    s.(pcs := s.pcs[c := pc])
  }

  /** Room for 8, or twice as much; the old buffer is gone. */
  function Grown(s: State, given: Address): State
    requires Sound(s)
  {
    var kept := s.memory[s.items];
    var wide := kept + seq(if |kept| == 0 then 8 else |kept|, i => 0);
    s.(items := given, memory := (if s.items == NULL then s.memory else s.memory - {s.items})[given := wide])
  }

  /** The buffers change places. */
  function Swapped(s: State): State {
    s.(items := s.batch, batch := s.items, count := 0)
  }

  function Do(s: State, step: Step): State
    requires Enabled(s, step)
  {
    var c := step.c;
    match step
    case Post(_, item) => At(s, c, PostTry(item))
    case Drain(_) => At(s, c, DrainFlag)
    case Next(_, given) =>
      match s.pcs[c]
      case PostTry(item) => if s.lock.None? then At(s.(lock := Some(c)), c, PostRoom(item)) else At(s, c, Idle)
      case PostRoom(item) =>
        if s.count < |s.memory[s.items]| then At(s, c, PostWrite(item))
        else if given == NULL then At(s, c, PostUnlock(item, None))
        else At(Grown(s, given), c, PostWrite(item))
      case PostWrite(item) =>
        At(s.(memory := s.memory[s.items := s.memory[s.items][s.count := item]], count := s.count + 1,
              posted := s.posted + [item]),
           c, PostUnlock(item, Some(|s.posted|)))
      case PostUnlock(_, _) => At(s.(lock := None), c, Idle)
      case DrainFlag => if s.draining.None? then At(s.(draining := Some(c)), c, DrainTry) else At(s, c, Idle)
      case DrainTry => if s.lock.None? then At(s.(lock := Some(c)), c, DrainSwap) else At(s.(draining := None), c, Idle)
      case DrainSwap => At(if s.count != 0 then Swapped(s) else s, c, DrainUnlock(s.count))
      case DrainUnlock(n) => At(s.(lock := None), c, Deliver(0, n))
      case Deliver(i, n) =>
        if i < n then At(s.(invoked := s.invoked + [s.memory[s.batch][i]]), c, Deliver(i + 1, n))
        else At(s.(draining := None), c, Idle)
      case Idle => s
  }

  // --- The invariant ---

  predicate Locking(pc: PC) {
    pc.PostRoom? || pc.PostWrite? || pc.PostUnlock? || pc.DrainSwap? || pc.DrainUnlock?
  }

  predicate Draining(pc: PC) {
    pc.DrainTry? || pc.DrainSwap? || pc.DrainUnlock? || pc.Deliver?
  }

  /** The lock and the flag belong to the one call that is where they are needed. */
  ghost predicate Owners(s: State) {
    && (forall c :: c in s.pcs && Locking(s.pcs[c]) ==> s.lock == Some(c))
    && (forall c :: c in s.pcs && Draining(s.pcs[c]) ==> s.draining == Some(c))
    && (s.lock.Some? ==> s.lock.value in s.pcs && Locking(s.pcs[s.lock.value]))
    && (s.draining.Some? ==> s.draining.value in s.pcs && Draining(s.pcs[s.draining.value]))
  }

  /** The buffers are different ones, unless neither has been allocated. */
  predicate Buffers(s: State) {
    && Sound(s) && NULL in s.memory && s.memory[NULL] == []
    && (s.items == s.batch ==> s.items == NULL)
  }

  /** What the active drain still has to run. */
  function Rest(s: State): seq<Item>
    requires Buffers(s)
  {
    if s.draining.None? || s.draining.value !in s.pcs then []
    else
      match s.pcs[s.draining.value]
      case DrainUnlock(n) => if n <= |s.memory[s.batch]| then s.memory[s.batch][..n] else []
      case Deliver(i, n) => if i <= n <= |s.memory[s.batch]| then s.memory[s.batch][i..n] else []
      case _ => []
  }

  function Pending(s: State): seq<Item>
    requires Buffers(s)
  {
    s.memory[s.items][..s.count]
  }

  predicate Local(s: State, pc: PC)
    requires Buffers(s)
  {
    match pc
    case PostWrite(_) => s.count < |s.memory[s.items]|
    case PostUnlock(item, place) => place.Some? ==> place.value < |s.posted| && s.posted[place.value] == item
    case DrainUnlock(n) => n <= |s.memory[s.batch]|
    case Deliver(i, n) => i <= n <= |s.memory[s.batch]|
    case _ => true
  }

  ghost predicate Inv(s: State) {
    && Owners(s) && Buffers(s)
    && (forall c :: c in s.pcs ==> Local(s, s.pcs[c]))
    && s.posted == s.invoked + Rest(s) + Pending(s)
  }

  /** Under the invariant every call that is not idle can take its step, whatever the allocator says. */
  lemma NobodyIsStuck(s: State, c: Call, given: Address)
    requires Inv(s) && c in s.pcs && !s.pcs[c].Idle? && (given == NULL || given !in s.memory || given == s.items)
    ensures Enabled(s, Next(c, given))
  {
    assert Local(s, s.pcs[c]);
  }

  // --- Every step keeps it ---

  /** A step that leaves the mailbox alone, except for who owns lock and flag. */
  lemma OwnerStep(s: State, s': State, c: Call)
    requires Inv(s) && c in s.pcs && c in s'.pcs && s'.pcs == s.pcs[c := s'.pcs[c]]
    requires s' == s.(pcs := s'.pcs, lock := s'.lock, draining := s'.draining)
    requires Owners(s') && Local(s', s'.pcs[c]) && Rest(s') == Rest(s)
    ensures Inv(s')
  {
    hide Owners;
  }

  lemma TryKeeps(s: State, c: Call, given: Address)
    requires Inv(s) && Enabled(s, Next(c, given)) && (s.pcs[c].PostTry? || s.pcs[c].DrainFlag? || s.pcs[c].DrainTry?)
    ensures Inv(Do(s, Next(c, given)))
  {
    var s' := Do(s, Next(c, given));
    OwnerStep(s, s', c);
  }

  lemma UnlockKeeps(s: State, c: Call, given: Address)
    requires Inv(s) && Enabled(s, Next(c, given)) && (s.pcs[c].PostUnlock? || s.pcs[c].DrainUnlock?)
    ensures Inv(Do(s, Next(c, given)))
  {
    var s' := Do(s, Next(c, given));
    assert Local(s, s.pcs[c]);
    OwnerStep(s, s', c);
  }

  /** A step under the lock keeps what the other calls know, if the batch and the accepted items stay. */
  lemma LockedStep(s: State, s': State, c: Call)
    requires Inv(s) && c in s.pcs && Locking(s.pcs[c]) && c in s'.pcs && s'.pcs == s.pcs[c := s'.pcs[c]]
    requires Locking(s'.pcs[c]) && Draining(s'.pcs[c]) == Draining(s.pcs[c]) && s'.lock == s.lock
             && s'.draining == s.draining
    requires Buffers(s') && s.posted <= s'.posted && Local(s', s'.pcs[c])
    requires s.draining == Some(c) || s'.memory[s'.batch] == s.memory[s.batch]
    requires s'.posted == s'.invoked + Rest(s') + Pending(s')
    ensures Inv(s')
  {
    forall u | u in s'.pcs ensures Local(s', s'.pcs[u]) {
      if u != c { assert Local(s, s.pcs[u]) && !Locking(s.pcs[u]); }
    }
  }

  /** What the drain still has to run depends on the batch and on the drain's own step only. */
  lemma RestStays(s: State, s': State, c: Call)
    requires Buffers(s) && Buffers(s') && Owners(s) && c in s.pcs && c in s'.pcs && s'.pcs == s.pcs[c := s'.pcs[c]]
    requires s'.draining == s.draining && s'.memory[s'.batch] == s.memory[s.batch] && !Draining(s.pcs[c])
    ensures Rest(s') == Rest(s)
  {
  }

  lemma GrownIs(s: State, given: Address)
    requires Buffers(s) && given != NULL && (given !in s.memory || given == s.items)
    ensures var g := Grown(s, given);
            && Buffers(g) && Pending(g) == Pending(s) && g.memory[g.batch] == s.memory[s.batch]
            && g.count == s.count && (s.count == |s.memory[s.items]| ==> g.count < |g.memory[g.items]|)
  {
    var g, kept := Grown(s, given), s.memory[s.items];
    assert g.memory[g.items][..s.count] == kept[..s.count];
  }

  lemma RoomKeeps(s: State, c: Call, given: Address)
    requires Inv(s) && Enabled(s, Next(c, given)) && s.pcs[c].PostRoom?
    ensures Inv(Do(s, Next(c, given)))
  {
    var s' := Do(s, Next(c, given));
    if s.count == |s.memory[s.items]| && given != NULL {
      GrownIs(s, given);
      hide Grown;
      var g := Grown(s, given);
      assert s' == At(g, c, PostWrite(s.pcs[c].item));
      assert g == s.(items := g.items, memory := g.memory) by { GrownOnly(s, given); }
      RestStays(s, s', c);
    } else {
      RestStays(s, s', c);
    }
    hide Owners, Rest;
    LockedStep(s, s', c);
  }

  lemma GrownOnly(s: State, given: Address)
    requires Sound(s)
    ensures Grown(s, given) == s.(items := Grown(s, given).items, memory := Grown(s, given).memory)
  {
  }

  lemma WriteKeeps(s: State, c: Call, given: Address)
    requires Inv(s) && Enabled(s, Next(c, given)) && s.pcs[c].PostWrite?
    ensures Inv(Do(s, Next(c, given)))
  {
    var s', item := Do(s, Next(c, given)), s.pcs[c].item;
    assert s.items != s.batch || s.items == NULL;
    RestStays(s, s', c);
    assert Pending(s') == Pending(s) + [item];
    assert (s.invoked + Rest(s) + Pending(s)) + [item] == s.invoked + Rest(s) + (Pending(s) + [item]);
    hide Owners, Rest, Pending;
    LockedStep(s, s', c);
  }

  lemma SwapKeeps(s: State, c: Call, given: Address)
    requires Inv(s) && Enabled(s, Next(c, given)) && s.pcs[c].DrainSwap?
    ensures Inv(Do(s, Next(c, given)))
  {
    var s' := Do(s, Next(c, given));
    assert Rest(s) == [] && Rest(s') == Pending(s) && Pending(s') == [];
    assert s.invoked + [] + Pending(s) == s.invoked + Pending(s) + [];
    hide Rest, Pending;
    LockedStep(s, s', c);
  }

  lemma DeliverKeeps(s: State, c: Call, given: Address)
    requires Inv(s) && Enabled(s, Next(c, given)) && s.pcs[c].Deliver?
    ensures Inv(Do(s, Next(c, given)))
  {
    var s', i, n := Do(s, Next(c, given)), s.pcs[c].i, s.pcs[c].n;
    assert Local(s, s.pcs[c]) && s.draining == Some(c);
    if i < n {
      var batch, next := s.memory[s.batch], i + 1;
      assert Rest(s) == batch[i..n] && Rest(s') == batch[next..n];
      DeliverOwners(s, s', c);
      hide Owners, Rest, Pending;
      NextMoves(s.invoked, batch, i, n, Pending(s));
    } else {
      assert Rest(s) == [] && Rest(s') == [];
      OwnerStep(s, s', c);
    }
  }

  lemma NextMoves(invoked: seq<Item>, batch: seq<Item>, i: nat, n: nat, pending: seq<Item>)
    requires i < n <= |batch|
    ensures (invoked + [batch[i]]) + batch[i + 1..n] + pending == invoked + batch[i..n] + pending
  {
    assert batch[i..n] == [batch[i]] + batch[i + 1..n];
  }

  lemma DeliverOwners(s: State, s': State, c: Call)
    requires Owners(s) && c in s.pcs && s.pcs[c].Deliver? && c in s'.pcs && s'.pcs[c].Deliver?
             && s'.pcs == s.pcs[c := s'.pcs[c]]
    requires s'.lock == s.lock && s'.draining == s.draining
    ensures Owners(s')
  {
  }

  /** Every step keeps the invariant, and a drain that finds one active, from a callback or elsewhere, ends with
      nothing else touched. */
  lemma StepKeeps(s: State, step: Step)
    requires Inv(s) && Enabled(s, step)
    ensures Inv(Do(s, step))
    ensures step.Next? && s.pcs[step.c].DrainFlag? && s.draining.Some? ==>
              Do(s, step) == s.(pcs := s.pcs[step.c := Idle])
  {
    match step
    case Post(c, _) => OwnerStep(s, Do(s, step), c);
    case Drain(c) => OwnerStep(s, Do(s, step), c);
    case Next(c, given) =>
      hide Inv, Owners;
      match s.pcs[c]
      case PostTry(_) => TryKeeps(s, c, given);
      case PostRoom(_) => RoomKeeps(s, c, given);
      case PostWrite(_) => WriteKeeps(s, c, given);
      case PostUnlock(_, _) => UnlockKeeps(s, c, given);
      case DrainFlag => TryKeeps(s, c, given);
      case DrainTry => TryKeeps(s, c, given);
      case DrainSwap => SwapKeeps(s, c, given);
      case DrainUnlock(_) => UnlockKeeps(s, c, given);
      case Deliver(_, _) => DeliverKeeps(s, c, given);
      case Idle =>
  }

  // --- Whole runs ---

  /** A mailbox as constructed: no buffers, nothing accepted. */
  ghost predicate Initial(s: State) {
    && s.lock.None? && s.draining.None? && s.items == NULL && s.batch == NULL && s.count == 0
       && s.memory == map[NULL := []]
    && s.posted == [] && s.invoked == [] && forall c :: c in s.pcs ==> s.pcs[c] == Idle
  }

  ghost predicate IsRun(states: seq<State>, steps: seq<Step>) {
    && |states| == |steps| + 1
    && forall i :: 0 <= i < |steps| ==> Enabled(states[i], steps[i]) && states[i + 1] == Do(states[i], steps[i])
  }

  lemma {:induction false} RunKeeps(states: seq<State>, steps: seq<Step>, n: nat)
    requires IsRun(states, steps) && Initial(states[0]) && n < |states|
    ensures Inv(states[n])
  {
    if n > 0 {
      hide Inv;
      RunKeeps(states, steps, n - 1);
      StepKeeps(states[n - 1], steps[n - 1]);
    }
  }

  /** What has been accepted stays accepted in its place, and what has run stays run. */
  lemma {:induction false} RecordsGrow(states: seq<State>, steps: seq<Step>, m: nat, n: nat)
    requires IsRun(states, steps) && m <= n < |states|
    ensures states[m].posted <= states[n].posted && states[m].invoked <= states[n].invoked
    decreases n
  {
    if m < n {
      RecordsGrow(states, steps, m, n - 1);
      assert states[n] == Do(states[n - 1], steps[n - 1]);
      hide Swapped;
    }
  }

  /** In every interleaving: the items run so far, the rest of the active batch and the pending items are
      exactly the accepted items in the order of their posts; the buffers never alias; and what was accepted
      or has run at an earlier moment still is, in its place. */
  lemma EveryRunDeliversInOrder(states: seq<State>, steps: seq<Step>, m: nat, n: nat)
    requires IsRun(states, steps) && Initial(states[0]) && m <= n < |states|
    ensures Buffers(states[n]) && states[n].posted == states[n].invoked + Rest(states[n]) + Pending(states[n])
    ensures forall c, d ::
              c in states[n].pcs && d in states[n].pcs && Draining(states[n].pcs[c]) && Draining(states[n].pcs[d]) ==>
                c == d
    ensures states[n].draining.None? && states[n].count == 0 ==> states[n].invoked == states[n].posted
    ensures states[m].posted <= states[n].posted && states[m].invoked <= states[n].invoked
  {
    RunKeeps(states, steps, n);
    RecordsGrow(states, steps, m, n);
  }
}
