/** What single calls of the pool achieve: the stamp of a slot tells whether it is in use, an exchange only fails if
    another was first, and a call that meets nobody does what it is for. */
module BitPoolCalls {
  import opened BitPool
  import opened BitPoolRuns
  import opened Options

  // --- Stamps ---

  /** A client holds the slot, or a call is about to give it out or to take it back. */
  predicate UsedBy(s: State, t: Tid, a: Addr) {
    && t in s.pc && t in s.held
    && (a in s.held[t]
        || ((s.pc[t].AllocTyped? || s.pc[t].FreeEntered? || s.pc[t].FreeChecked?) && s.pc[t].slot == a))
  }

  ghost predicate InUse(s: State, a: Addr) {
    exists t :: UsedBy(s, t, a)
  }

  ghost predicate StampsTell(s: State) {
    forall a :: a in s.typeId ==> (s.typeId[a] != 0 <==> InUse(s, a))
  }

  /** Only thread `t` moved. */
  predicate OnlyMoved(s: State, s': State, t: Tid) {
    && t in s.pc && t in s.held && t in s'.pc && t in s'.held
    && s'.pc == s.pc[t := s'.pc[t]] && s'.held == s.held[t := s'.held[t]]
  }

  lemma InUseStays(s: State, s': State, t: Tid, a: Addr)
    requires OnlyMoved(s, s', t) && (UsedBy(s, t, a) <==> UsedBy(s', t, a))
    ensures InUse(s, a) <==> InUse(s', a)
  {
    if InUse(s, a) {
      var u :| UsedBy(s, u, a);
      assert UsedBy(s', u, a);
    }
    if InUse(s', a) {
      var u :| UsedBy(s', u, a);
      assert UsedBy(s, u, a);
    }
  }

  lemma UseStays(pool: Pool, s: State, t: Tid, step: Step, a: Addr)
    requires Enabled(s, t, step) && !step.StampType? && !step.ClearType? && Fresh(pool, s, s.pc[t])
    ensures var s' := Do(pool, s, t, step);
            s'.typeId == s.typeId && OnlyMoved(s, s', t) && (UsedBy(s, t, a) <==> UsedBy(s', t, a))
  {
    hide TagOf, PtrOf, Pack, HeadSeen;
    match step
    case CallAlloc(_) =>
    case SwapForAlloc(_) =>
    case StampLength =>
    case CallFree(_) =>
    case ReadType =>
    case Link =>
    case SwapForFree(_) =>
    case _ =>
  }

  /** A step that stamps nothing changes neither stamps nor use. */
  lemma OtherStep(pool: Pool, s: State, chain: seq<Addr>, t: Tid, step: Step)
    requires Inv(pool, s, chain) && Enabled(s, t, step) && StampsTell(s) && !step.StampType? && !step.ClearType?
    ensures StampsTell(Do(pool, s, t, step))
  {
    assert t in s.pc;
    hide Inv, Do, Fresh, Enabled, InUse, OnlyMoved, UsedBy;
    ThreadIsFresh(pool, s, chain, t);
    var s' := Do(pool, s, t, step);
    UseStays(pool, s, t, step, 0);
    forall a | a in s.typeId ensures InUse(s, a) <==> InUse(s', a) {
      UseStays(pool, s, t, step, a);
      InUseStays(s, s', t, a);
    }
  }

  lemma StampStep(pool: Pool, s: State, chain: seq<Addr>, t: Tid)
    requires Inv(pool, s, chain) && Enabled(s, t, StampType) && StampsTell(s)
    ensures StampsTell(Do(pool, s, t, StampType))
  {
    ThreadIsFresh(pool, s, chain, t);
    hide Inv;
    var s', slot := Do(pool, s, t, StampType), s.pc[t].slot;
    assert UsedBy(s', t, slot);
    forall a | a in s.typeId && a != slot ensures InUse(s, a) <==> InUse(s', a) {
      InUseStays(s, s', t, a);
    }
    assert InUse(s', slot);
    hide InUse;
  }

  lemma ClearStep(pool: Pool, s: State, chain: seq<Addr>, t: Tid)
    requires Inv(pool, s, chain) && Enabled(s, t, ClearType) && StampsTell(s)
    ensures StampsTell(Do(pool, s, t, ClearType))
  {
    var s', slot := Do(pool, s, t, ClearType), s.pc[t].slot;
    HeldIsTyped(pool, s, chain, t);
    forall u ensures !UsedBy(s', u, slot) {
      if u in s.pc && u in s.held && u != t { NotAnothers(pool, s, chain, t, u); }
    }
    hide Inv;
    forall a | a in s.typeId && a != slot ensures InUse(s, a) <==> InUse(s', a) {
      InUseStays(s, s', t, a);
    }
    hide InUse;
    assert !InUse(s', slot) by { NobodyUses(s', slot); }
  }

  lemma NobodyUses(s: State, a: Addr)
    requires forall u :: !UsedBy(s, u, a)
    ensures !InUse(s, a)
  {
  }

  lemma NotAnothers(pool: Pool, s: State, chain: seq<Addr>, t: Tid, u: Tid)
    requires Inv(pool, s, chain) && t in s.pc && InFlight(s.pc[t]) != {} && u in s.pc && u != t
    ensures !UsedBy(s, u, s.pc[t].slot)
  {
    OwnersDiffer(pool, s, chain, t, u);
    hide Inv;
  }

  lemma StepTells(pool: Pool, s: State, chain: seq<Addr>, t: Tid, step: Step)
    requires Inv(pool, s, chain) && Enabled(s, t, step) && StampsTell(s)
    ensures StampsTell(Do(pool, s, t, step))
  {
    hide Inv, StampsTell, Do;
    match step
    case StampType => StampStep(pool, s, chain, t);
    case ClearType => ClearStep(pool, s, chain, t);
    case _ => OtherStep(pool, s, chain, t, step);
  }

  /** In every safe run of a pool whose slots start out unstamped, a slot carries a type id exactly while it is in use.
      This is what the guard against freeing a slot twice goes by. */
  lemma {:induction false} StampedIffInUse(pool: Pool, states: seq<State>, acts: seq<Act>, i: nat)
    requires ValidPool(pool) && IsRun(pool, states, acts) && Initial(pool, states[0]) && AllHold(states, acts)
    requires (forall a :: a in states[0].typeId ==> states[0].typeId[a] == 0) && i < |states|
    ensures StampsTell(states[i])
  {
    if i == 0 {
      forall a ensures !InUse(states[0], a) {
        assert forall t :: !UsedBy(states[0], t, a);
      }
    } else {
      hide Initial, Inv, StampsTell;
      StampedIffInUse(pool, states, acts, i - 1);
      var chain := RunKeepsInv(pool, states, acts, i - 1);
      assert IsStep(pool, states[i - 1], acts[i - 1], states[i - 1 + 1]);
      StepTells(pool, states[i - 1], chain, acts[i - 1].thread, acts[i - 1].step);
    }
  }

  // --- Exchanges ---

  /** An exchange that does not fail by itself fails only if another has succeeded since the head was loaded: some call
      always gets on. */
  lemma FailsOnlyIfBeaten(pool: Pool, s: State, chain: seq<Addr>, t: Tid, step: Step)
    requires Inv(pool, s, chain) && Enabled(s, t, step)
    requires step == SwapForAlloc(false) || step == SwapForFree(false)
    ensures var s' := Do(pool, s, t, step);
            if s.pc[t].since == s.swaps then s'.swaps == s.swaps + 1 && (s'.pc[t].AllocWon? || s'.pc[t].Idle?)
            else s.pc[t].since < s.swaps
  {
    ThreadIsFresh(pool, s, chain, t);
    hide Inv, TagOf, PtrOf, TagAfter;
  }

  // --- Calls that meet nobody ---

  /** Where some steps of one thread lead. */
  function Perform(pool: Pool, s: State, t: Tid, steps: seq<Step>): (r: Option<State>)
    decreases |steps|
  {
    if steps == [] then Some(s)
    else if Enabled(s, t, steps[0]) then Perform(pool, Do(pool, s, t, steps[0]), t, steps[1..])
    else None
  }

  lemma FirstStep(pool: Pool, s: State, chain: seq<Addr>, t: Tid, steps: seq<Step>)
      returns (s': State, chain': seq<Addr>)
    requires steps != [] && Inv(pool, s, chain) && Enabled(s, t, steps[0]) && InWindow(s, t, steps[0])
    ensures s' == Do(pool, s, t, steps[0]) && Inv(pool, s', chain')
    ensures Perform(pool, s, t, steps) == Perform(pool, s', t, steps[1..])
    ensures Wins(s, t, steps[0]) && steps[0].SwapForAlloc? ==> chain != [] && chain' == chain[1..]
    ensures Wins(s, t, steps[0]) && steps[0].SwapForFree? ==> chain' == [s.pc[t].slot] + chain
    ensures !Wins(s, t, steps[0]) ==> chain' == chain
  {
    hide Inv, LinkHolds, Wins;
    WindowHoldsLink(pool, s, chain, t, steps[0]);
    chain' := StepKeeps(pool, s, chain, t, steps[0]);
    s' := Do(pool, s, t, steps[0]);
  }

  lemma HeadOfList(pool: Pool, s: State, chain: seq<Addr>, t: Tid)
    requires Inv(pool, s, chain) && t in s.pc
    ensures t in s.held
    ensures chain == [] ==> PtrOf(s.head) == 0
    ensures chain != [] ==> PtrOf(s.head) == chain[0] && chain[0] != 0 && chain[0] in s.next
  {
    hide TagOf, PtrOf, Partition;
    if chain != [] {
      HeadNotNull(pool, s, chain);
    }
  }

  lemma HeadNotNull(pool: Pool, s: State, chain: seq<Addr>)
    requires Inv(pool, s, chain) && chain != []
    ensures chain[0] != 0
  {
    hide TagOf, PtrOf, FreeList;
    assert chain[0] in Arena(pool);
  }

  /** An allocation that meets nobody returns null, and nothing has changed, if no slot is free. */
  lemma LoneAllocFindsNone(pool: Pool, s: State, t: Tid, id: nat)
    requires Inv(pool, s, []) && t in s.pc && s.pc[t].Idle? && id != 0
    ensures Perform(pool, s, t, [CallAlloc(id), LoadNext]) == Some(s)
  {
    hide Inv, TagOf, PtrOf;
    HeadOfList(pool, s, [], t);
    var steps := [CallAlloc(id), LoadNext];
    var s1, c1 := FirstStep(pool, s, [], t, steps);
    var s2, c2 := FirstStep(pool, s1, c1, t, steps[1..]);
    assert s2.pc == s.pc;
    assert steps[1..][1..] == [];
  }

  /** An allocation that meets nobody takes the first free slot, stamped with its type id and the payload size, if one
      is free. */
  lemma LoneAllocTakesFirst(pool: Pool, s: State, chain: seq<Addr>, t: Tid, id: nat)
    requires Inv(pool, s, chain) && t in s.pc && s.pc[t].Idle? && id != 0 && chain != []
    ensures t in s.held
    ensures var r := Perform(pool, s, t, [CallAlloc(id), LoadNext, SwapForAlloc(false), StampType, StampLength]);
            && r.Some? && Inv(pool, r.value, chain[1..])
            && r.value.pc == s.pc && r.value.held == s.held[t := s.held[t] + {chain[0]}]
            && r.value.typeId == s.typeId[chain[0] := id]
            && r.value.length == s.length[chain[0] := pool.elementSize] && r.value.next == s.next
  {
    hide Inv, TagOf, PtrOf, Pack;
    HeadOfList(pool, s, chain, t);
    var steps := [CallAlloc(id), LoadNext, SwapForAlloc(false), StampType, StampLength];
    var s1, c1 := FirstStep(pool, s, chain, t, steps);
    var s2, c2 := FirstStep(pool, s1, c1, t, steps[1..]);
    assert s2.pc[t].AllocReady? && s2.pc[t].expected == s2.head && s2.pc[t].since == s2.swaps;
    var s3, c3 := FirstStep(pool, s2, c2, t, steps[2..]);
    assert s3.pc[t] == AllocWon(id, chain[0]);
    TakenIsStamped(pool, s3, c3, t, s, id, chain[0], steps[3..]);
    assert steps[1..][1..] == steps[2..] && steps[2..][1..] == steps[3..];
  }

  lemma TakenIsStamped(pool: Pool, s3: State, chain: seq<Addr>, t: Tid, s: State, id: nat, slot: Addr, steps: seq<Step>)
    requires Inv(pool, s3, chain) && t in s3.pc && s3.pc[t] == AllocWon(id, slot) && steps == [StampType, StampLength]
    requires t in s.held && t in s3.held && t in s.pc && s.pc[t] == Idle
    requires s3.pc == s.pc[t := s3.pc[t]] && s3.held == s.held && s3.typeId == s.typeId && s3.length == s.length
             && s3.next == s.next
    ensures var r := Perform(pool, s3, t, steps);
            && r.Some? && Inv(pool, r.value, chain)
            && r.value.pc == s.pc && r.value.held == s.held[t := s.held[t] + {slot}]
            && r.value.typeId == s.typeId[slot := id]
            && r.value.length == s.length[slot := pool.elementSize] && r.value.next == s.next
  {
    hide Inv, TagOf, PtrOf, Pack;
    var s4, c4 := FirstStep(pool, s3, chain, t, steps);
    var s5, c5 := FirstStep(pool, s4, c4, t, steps[1..]);
    assert s5.pc == s.pc;
    assert steps[1..][1..] == [];
  }

  /** A free that meets nobody puts its slot in front of the free slots, without a stamp. */
  lemma LoneFreePutsBack(pool: Pool, s: State, chain: seq<Addr>, t: Tid, slot: Addr)
    requires Inv(pool, s, chain) && t in s.pc && t in s.held && s.pc[t].Idle? && slot in s.held[t]
    ensures var r := Perform(pool, s, t, [CallFree(slot), ReadType, ClearType, LoadHead, Link, SwapForFree(false)]);
            && r.Some? && Inv(pool, r.value, [slot] + chain)
            && r.value.pc == s.pc && r.value.held == s.held[t := s.held[t] - {slot}]
            && r.value.typeId == s.typeId[slot := 0] && r.value.length == s.length
  {
    hide Inv, TagOf, PtrOf, Pack;
    HeldIsTyped(pool, s, chain, t);
    var steps := [CallFree(slot), ReadType, ClearType, LoadHead, Link, SwapForFree(false)];
    var s1, c1 := FirstStep(pool, s, chain, t, steps);
    var s2, c2 := FirstStep(pool, s1, c1, t, steps[1..]);
    assert s2.pc[t] == FreeChecked(slot);
    var s3, c3 := FirstStep(pool, s2, c2, t, steps[2..]);
    ClearedIsPushed(pool, s3, c3, t, s, slot, steps[3..]);
    assert steps[1..][1..] == steps[2..] && steps[2..][1..] == steps[3..];
  }

  lemma ClearedIsPushed(pool: Pool, s3: State, chain: seq<Addr>, t: Tid, s: State, slot: Addr, steps: seq<Step>)
    requires Inv(pool, s3, chain) && t in s3.pc && s3.pc[t] == FreeCleared(slot) && t in s.pc && s.pc[t] == Idle
    requires steps == [LoadHead, Link, SwapForFree(false)] && t in s.held && t in s3.held
    requires s3.pc == s.pc[t := s3.pc[t]] && s3.held == s.held[t := s.held[t] - {slot}]
             && s3.typeId == s.typeId[slot := 0] && s3.length == s.length
    ensures var r := Perform(pool, s3, t, steps);
            && r.Some? && Inv(pool, r.value, [slot] + chain)
            && r.value.pc == s.pc && r.value.held == s.held[t := s.held[t] - {slot}]
            && r.value.typeId == s.typeId[slot := 0] && r.value.length == s.length
  {
    hide Inv, TagOf, PtrOf, Pack;
    var s4, c4 := FirstStep(pool, s3, chain, t, steps);
    var s5, c5 := FirstStep(pool, s4, c4, t, steps[1..]);
    assert s5.pc[t].FreeReady? && s5.pc[t].expected == s5.head && s5.pc[t].slot == slot;
    var s6, c6 := FirstStep(pool, s5, c5, t, steps[2..]);
    assert s6.pc == s.pc;
    assert steps[1..][1..] == steps[2..] && steps[2..][1..] == [];
  }
}
