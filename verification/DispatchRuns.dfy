/** What posts and drains of the mailbox achieve, over whole runs. */
module DispatchRuns {
  import opened Dispatch
  import opened Options

  // --- Posts ---

  /** A post that holds the lock is refused iff the buffer is full and the allocator gives no larger one. */
  lemma RefusedIffFull(s: State, c: Call, given: Address)
    requires Enabled(s, Next(c, given)) && s.pcs[c].PostRoom?
    ensures var item, pc := s.pcs[c].item, Do(s, Next(c, given)).pcs[c];
            && (pc == PostUnlock(item, None) <==> s.count == |s.memory[s.items]| && given == NULL)
            && (pc != PostUnlock(item, None) ==> pc == PostWrite(item))
  {
  }

  /** A full buffer grows to 8 places, or to twice as many as it had, and keeps what was in it. */
  lemma FullBufferGrows(s: State, c: Call, given: Address)
    requires Enabled(s, Next(c, given)) && s.pcs[c].PostRoom? && s.count == |s.memory[s.items]| && given != NULL
    ensures var s' := Do(s, Next(c, given));
            && s'.items == given && given in s'.memory && s'.count == s.count
            && |s'.memory[given]| == (if s.count == 0 then 8 else 2 * s.count)
            && s'.memory[given][..s.count] == s.memory[s.items]
            && (s.items != given && s.items != NULL ==> s.items !in s'.memory)
  {
  }

  /** A step of another call leaves this one where it is. */
  lemma OthersStay(s: State, step: Step, c: Call)
    requires Enabled(s, step) && c in s.pcs && step.c != c
    ensures c in Do(s, step).pcs && Do(s, step).pcs[c] == s.pcs[c] && s.posted <= Do(s, step).posted
  {
  }

  /** Where a post is that no null answer has stopped: on its way, or with its item accepted behind the first
      `before` ones. */
  predicate OnItsWay(s: State, c: Call, item: Item, before: nat) {
    && c in s.pcs && before <= |s.posted|
    && match s.pcs[c]
       case PostRoom(i) => i == item
       case PostWrite(i) => i == item
       case PostUnlock(i, place) =>
         i == item && place.Some? && before <= place.value < |s.posted| && s.posted[place.value] == item
       case _ => false
  }

  lemma StaysOnItsWay(s: State, step: Step, c: Call, item: Item, before: nat)
    requires Enabled(s, step) && OnItsWay(s, c, item, before)
    requires step.c == c ==> !s.pcs[c].PostUnlock? && (s.pcs[c].PostRoom? ==> step.given != NULL)
    ensures OnItsWay(Do(s, step), c, item, before)
  {
    if step.c != c {
      hide Swapped, Grown;
      OthersStay(s, step, c);
    }
  }

  lemma {:induction false} PostGoesItsWay(states: seq<State>, steps: seq<Step>, i: nat, k: nat, c: Call, item: Item)
    requires IsRun(states, steps) && i <= k < |states| && c in states[i].pcs && states[i].pcs[c] == PostRoom(item)
    requires forall j :: i <= j < k && steps[j].c == c ==>
               c in states[j].pcs && !states[j].pcs[c].PostUnlock?
               && (states[j].pcs[c].PostRoom? ==> steps[j].given != NULL)
    ensures OnItsWay(states[k], c, item, |states[i].posted|)
    decreases k
  {
    if i < k {
      PostGoesItsWay(states, steps, i, k - 1, c, item);
      assert states[k - 1 + 1] == Do(states[k - 1], steps[k - 1]);
      StaysOnItsWay(states[k - 1], steps[k - 1], c, item, |states[i].posted|);
    }
  }

  /** If a post that has taken the lock is not told that there is no memory, then its item is accepted by the time it
      gives the lock back, and stands at the place it was told, behind everything accepted before it had the lock. */
  lemma GivenPostIsAccepted(states: seq<State>, steps: seq<Step>, i: nat, k: nat, c: Call, item: Item)
    requires IsRun(states, steps) && i <= k < |steps| && c in states[i].pcs && states[i].pcs[c] == PostRoom(item)
    requires forall j :: i <= j < k && steps[j].c == c ==>
               c in states[j].pcs && !states[j].pcs[c].PostUnlock?
               && (states[j].pcs[c].PostRoom? ==> steps[j].given != NULL)
    requires c in states[k].pcs && states[k].pcs[c].PostUnlock? && steps[k].c == c
    ensures states[k].pcs[c].place.Some? && states[k + 1].pcs == states[k].pcs[c := Idle] && states[k + 1].lock.None?
    ensures var place := states[k].pcs[c].place.value;
            |states[i].posted| <= place < |states[k + 1].posted| && states[k + 1].posted[place] == item
  {
    PostGoesItsWay(states, steps, i, k, c, item);
    assert states[k + 1] == Do(states[k], steps[k]);
  }

  // --- Drains ---

  /** A drain that has swapped and not ended. */
  predicate Running(s: State, c: Call) {
    c in s.pcs && s.draining == Some(c) && (s.pcs[c].DrainUnlock? || s.pcs[c].Deliver?)
  }

  /** What has run and what the drain has still to run. */
  function Taken(s: State): seq<Item>
    requires Buffers(s)
  {
    s.invoked + Rest(s)
  }

  lemma SwapTakes(s: State, c: Call, given: Address)
    requires Inv(s) && Enabled(s, Next(c, given)) && s.pcs[c].DrainSwap?
    ensures var s' := Do(s, Next(c, given)); Inv(s') && Running(s', c) && Taken(s') == s.posted
  {
    var s' := Do(s, Next(c, given));
    SwapKeeps(s, c, given);
    assert s.draining == Some(c);
    assert Rest(s) == [] && Rest(s') == Pending(s);
    assert s.invoked + [] + Pending(s) == s.invoked + Pending(s);
  }

  /** Until it ends, nobody changes what a running drain has taken. */
  lemma TakenStays(s: State, step: Step, c: Call)
    requires Inv(s) && Enabled(s, step) && Running(s, c)
    ensures var s' := Do(s, step);
            && Inv(s') && (if Running(s', c) then Taken(s') == Taken(s)
                           else step.c == c && s'.pcs[c].Idle? && s'.invoked == Taken(s))
  {
    StepKeeps(s, step);
    if step.c == c { OwnStep(s, step, c); } else { OtherStep(s, step, c); }
  }

  lemma OwnStep(s: State, step: Step, c: Call)
    requires Inv(s) && Enabled(s, step) && Running(s, c) && step.c == c && Inv(Do(s, step))
    ensures var s' := Do(s, step);
            if Running(s', c) then Taken(s') == Taken(s) else s'.pcs[c].Idle? && s'.invoked == Taken(s)
  {
    var s' := Do(s, step);
    assert Local(s, s.pcs[c]);
    if s.pcs[c].Deliver? {
      var i, n, batch := s.pcs[c].i, s.pcs[c].n, s.memory[s.batch];
      if i < n {
        NextMoves(s.invoked, batch, i, n, []);
        assert Rest(s) == batch[i..n] && Rest(s') == batch[i + 1..n];
        assert s.invoked + batch[i..n] + [] == s.invoked + batch[i..n];
        assert (s.invoked + [batch[i]]) + batch[i + 1..n] + [] == (s.invoked + [batch[i]]) + batch[i + 1..n];
      } else {
        assert Rest(s) == [];
      }
    } else {
      assert Rest(s') == Rest(s);
    }
  }

  lemma OtherStep(s: State, step: Step, c: Call)
    requires Inv(s) && Enabled(s, step) && Running(s, c) && step.c != c && Inv(Do(s, step))
    ensures Running(Do(s, step), c) && Taken(Do(s, step)) == Taken(s)
  {
    var s', u := Do(s, step), step.c;
    OthersStay(s, step, c);
    assert !Draining(s.pcs[u]);
    BatchStays(s, step, c);
    hide Swapped, Grown, Owners, Inv;
    assert s'.invoked == s.invoked && s'.draining == s.draining;
    assert Rest(s') == Rest(s);
  }

  lemma BatchStays(s: State, step: Step, c: Call)
    requires Inv(s) && Enabled(s, step) && Running(s, c) && step.c != c
    ensures var s' := Do(s, step);
            && s'.batch == s.batch && s'.batch in s'.memory && s'.memory[s'.batch] == s.memory[s.batch]
            && s'.invoked == s.invoked && s'.draining == s.draining
  {
    assert !Draining(s.pcs[step.c]);
    if step.Next? && s.pcs[step.c].PostWrite? { assert Local(s, s.pcs[step.c]); }
  }

  lemma {:induction false} TakenUntilEnd(states: seq<State>, steps: seq<Step>, i: nat, k: nat, c: Call)
    requires IsRun(states, steps) && i <= k < |states| && Inv(states[i]) && Running(states[i], c)
    requires forall j :: i <= j < k ==> c in states[j].pcs && !states[j].pcs[c].Idle?
    ensures Inv(states[k])
    ensures if Running(states[k], c) then Taken(states[k]) == Taken(states[i])
            else c in states[k].pcs && states[k].pcs[c].Idle? && Taken(states[i]) == states[k].invoked
    decreases k
  {
    if i < k {
      hide Inv, Taken, Running;
      TakenUntilEnd(states, steps, i, k - 1, c);
      assert states[k - 1 + 1] == Do(states[k - 1], steps[k - 1]);
      assert !states[k - 1].pcs[c].Idle?;
      TakenStays(states[k - 1], steps[k - 1], c);
    }
  }

  /** A drain that has taken flag and lock runs, before it ends, every item accepted before its swap: at its end
      what has run is exactly those, in the order of their posts. */
  lemma DrainRunsAll(states: seq<State>, steps: seq<Step>, i: nat, k: nat, c: Call)
    requires IsRun(states, steps) && Initial(states[0]) && i < k < |states|
    requires c in states[i].pcs && states[i].pcs[c].DrainSwap? && steps[i].c == c
    requires forall j :: i < j < k ==> c in states[j].pcs && !states[j].pcs[c].Idle?
    requires c in states[k].pcs && states[k].pcs[c].Idle?
    ensures states[k].invoked == states[i].posted
  {
    RunKeeps(states, steps, i);
    hide Inv, Taken, Initial;
    SwapTakes(states[i], c, steps[i].given);
    TakenUntilEnd(states, steps, i + 1, k, c);
    assert !Running(states[k], c);
  }

  // --- Calls that meet nobody ---

  /** A call that finds the lock or the flag free takes it, and only such a call. */
  lemma FreeIsTaken(s: State, c: Call, given: Address)
    requires Enabled(s, Next(c, given))
    ensures var s' := Do(s, Next(c, given));
            && (s.pcs[c].PostTry? ==> (s.lock.None? <==> s'.pcs[c] == PostRoom(s.pcs[c].item))
                                      && (s.lock.Some? ==> s'.pcs[c].Idle? && s'.posted == s.posted))
            && (s.pcs[c].DrainFlag? ==> (s.draining.None? <==> s'.pcs[c].DrainTry?)
                                        && (s.draining.Some? ==> s'.pcs[c].Idle? && s'.draining == s.draining))
            && (s.pcs[c].DrainTry? ==> (s.lock.None? <==> s'.pcs[c].DrainSwap?)
                                       && (s.lock.Some? ==> s'.pcs[c].Idle? && s'.draining.None?))
  {
  }

  /** Where `n` steps of one call lead, each given the same answer. */
  function Alone(s: State, c: Call, given: Address, n: nat): (r: Option<State>)
    decreases n
  {
    if n == 0 then Some(s)
    else if Enabled(s, Next(c, given)) then Alone(Do(s, Next(c, given)), c, given, n - 1)
    else None
  }

  lemma LoneStep(s: State, c: Call, given: Address, n: nat) returns (t: State)
    requires Inv(s) && c in s.pcs && !s.pcs[c].Idle? && n > 0
    requires given == NULL || given !in s.memory || given == s.items
    ensures Enabled(s, Next(c, given)) && t == Do(s, Next(c, given)) && Inv(t)
    ensures Alone(s, c, given, n) == Alone(t, c, given, n - 1)
  {
    NobodyIsStuck(s, c, given);
    StepKeeps(s, Next(c, given));
    t := Do(s, Next(c, given));
  }

  /** A post that finds the lock free, is given memory should it need some, and meets nobody is accepted. */
  lemma LonePostIsAccepted(s: State, c: Call, given: Address)
    requires Inv(s) && c in s.pcs && s.pcs[c].PostTry? && s.lock.None? && given != NULL && given !in s.memory
    ensures var r := Alone(s, c, given, 4);
            && r.Some? && c in r.value.pcs && r.value.pcs[c].Idle? && r.value.lock.None?
            && r.value.posted == s.posted + [s.pcs[c].item]
  {
    hide Inv, Owners, Buffers, Local;
    var s1 := LoneStep(s, c, given, 4);
    var s2 := LoneStep(s1, c, given, 3);
    var s3 := LoneStep(s2, c, given, 2);
    var s4 := LoneStep(s3, c, given, 1);
  }

  /** A drain that finds flag and lock free and meets nobody runs everything that has been accepted, whatever the
      allocator says. */
  lemma LoneDrainRunsAll(s: State, c: Call)
    requires Inv(s) && c in s.pcs && s.pcs[c].DrainFlag? && s.draining.None? && s.lock.None?
    ensures var r := Alone(s, c, NULL, s.count + 5);
            && r.Some? && c in r.value.pcs && r.value.pcs[c].Idle? && r.value.draining.None? && r.value.lock.None?
            && r.value.invoked == r.value.posted == s.posted
  {
    hide Owners, Rest, Alone;
    var s1 := LoneStep(s, c, NULL, s.count + 5);
    var s2 := LoneStep(s1, c, NULL, s.count + 4);
    assert Inv(s2);
    SwapTakes(s2, c, NULL);
    var s3 := LoneStep(s2, c, NULL, s.count + 3);
    var s4 := LoneStep(s3, c, NULL, s.count + 2);
    OwnStep(s3, Next(c, NULL), c);
    LoneDelivery(s4, c);
  }

  lemma {:induction false} LoneDelivery(s: State, c: Call)
    requires Inv(s) && Running(s, c) && s.pcs[c].Deliver? && s.pcs[c].i <= s.pcs[c].n
    ensures var r := Alone(s, c, NULL, s.pcs[c].n - s.pcs[c].i + 1);
            && r.Some? && c in r.value.pcs && r.value.pcs[c].Idle? && r.value.draining.None? && r.value.lock == s.lock
            && r.value.invoked == Taken(s) && r.value.posted == s.posted
    decreases s.pcs[c].n - s.pcs[c].i
  {
    hide Inv, Rest, Taken;
    var i, n := s.pcs[c].i, s.pcs[c].n;
    var t := LoneStep(s, c, NULL, n - i + 1);
    OwnStep(s, Next(c, NULL), c);
    if i < n { LoneDelivery(t, c); }
  }
}
