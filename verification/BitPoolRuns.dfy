/** Whole runs of the lock-free pool: exactly which runs are safe, what a call delivers, and when it
    gives up. */
module BitPoolRuns {
  import opened BitPool

  datatype Act = Act(thread: Tid, step: Step)

  /** `states` is what the atomic steps `acts` lead through. */
  ghost predicate IsRun(pool: Pool, states: seq<State>, acts: seq<Act>) {
    && |states| == |acts| + 1
    && forall i :: 0 <= i < |acts| ==> IsStep(pool, states[i], acts[i], states[i + 1])
  }

  ghost predicate IsStep(pool: Pool, s: State, act: Act, s': State) {
    Enabled(s, act.thread, act.step) && s' == Do(pool, s, act.thread, act.step)
  }

  /** A winning exchange of an alloc, if this is one, is fewer than 2^16 successful exchanges behind. */
  ghost predicate Prompt(s: State, act: Act) {
    Enabled(s, act.thread, act.step) && InWindow(s, act.thread, act.step)
  }

  ghost predicate AllPrompt(states: seq<State>, acts: seq<Act>)
    requires |states| >= |acts|
  {
    forall i :: 0 <= i < |acts| ==> Prompt(states[i], acts[i])
  }

  /** The winning exchange of an alloc, if this is one, installs the link that is there. */
  ghost predicate Holds(s: State, act: Act) {
    Enabled(s, act.thread, act.step) && LinkHolds(s, act.thread, act.step)
  }

  ghost predicate AllHold(states: seq<State>, acts: seq<Act>)
    requires |states| >= |acts|
  {
    forall i :: 0 <= i < |acts| ==> Holds(states[i], acts[i])
  }

  /** All slots any thread owns, as client or in flight. */
  function AllOwned(s: State): set<Addr>
    requires s.pc.Keys == s.held.Keys
  {
    set t, a | t in s.pc && a in Owned(s, t) :: a
  }

  /** What the pool promises at every instant: the free list is finite, without repeats, inside
      the arena; nothing on it is owned and nothing is owned twice; free and owned slots add up to
      the capacity; and what clients hold carries a non-zero type id. */
  ghost predicate Safe(pool: Pool, s: State) {
    && s.pc.Keys == s.held.Keys
    && (exists chain ::
          && FreeList(s.next, PtrOf(s.head), chain)
          && NoRepeats(chain)
          && (forall i :: 0 <= i < |chain| ==> chain[i] in Arena(pool) && chain[i] !in AllOwned(s))
          && |chain| + |AllOwned(s)| == |pool.slots|)
    && (forall t, u :: t in s.pc && u in s.pc && t != u ==> Owned(s, t) !! Owned(s, u))
    && AllOwned(s) <= Arena(pool)
    && Typed(s)
  }

  lemma {:induction false} CardinalityOfDistinct(xs: seq<Addr>)
    requires NoRepeats(xs)
    ensures |Elements(xs)| == |xs|
  {
    if xs != [] {
      var init, last := xs[..|xs| - 1], xs[|xs| - 1];
      CardinalityOfDistinct(init);
      assert last !in Elements(init);
      assert Elements(xs) == Elements(init) + {last};
    }
  }

  lemma OwnedApartFromFree(pool: Pool, s: State, chain: seq<Addr>)
    requires s.pc.Keys == s.held.Keys && Partition(Arena(pool), Owners(s), chain)
    ensures AllOwned(s) <= Arena(pool) && AllOwned(s) !! Elements(chain) && Elements(chain) <= Arena(pool)
    ensures |Elements(chain)| == |chain|
  {
    CardinalityOfDistinct(chain);
    hide Arena;
    forall a | a in AllOwned(s) ensures a in Arena(pool) && a !in chain {
      var t :| t in s.pc && a in Owned(s, t);
      assert a in Owners(s)[t];
    }
  }

  lemma HomesCoverArena(pool: Pool, s: State, chain: seq<Addr>)
    requires s.pc.Keys == s.held.Keys && Partition(Arena(pool), Owners(s), chain)
    ensures Arena(pool) <= Elements(chain) + AllOwned(s)
  {
    hide Arena;
    forall a | a in Arena(pool) ensures a in Elements(chain) + AllOwned(s) {
      if a !in chain {
        var t :| t in Owners(s) && a in Owners(s)[t];
        assert a in Owned(s, t);
      }
    }
  }

  lemma PartitionAddsUp(pool: Pool, s: State, chain: seq<Addr>)
    requires ValidPool(pool) && s.pc.Keys == s.held.Keys && Partition(Arena(pool), Owners(s), chain)
    ensures |chain| + |AllOwned(s)| == |pool.slots|
    ensures AllOwned(s) <= Arena(pool) && AllOwned(s) !! Elements(chain)
  {
    hide AllOwned, Elements, Partition, Owners;
    CardinalityOfDistinct(pool.slots);
    OwnedApartFromFree(pool, s, chain);
    HomesCoverArena(pool, s, chain);
    DisjointUnionAddsUp(Elements(chain), AllOwned(s), Arena(pool));
  }

  lemma DisjointUnionAddsUp(a: set<Addr>, b: set<Addr>, whole: set<Addr>)
    requires a !! b && a <= whole && b <= whole && whole <= a + b
    ensures |a| + |b| == |whole|
  {
    assert a + b == whole;
  }

  lemma InvIsSafe(pool: Pool, s: State, chain: seq<Addr>)
    requires Inv(pool, s, chain)
    ensures Safe(pool, s)
  {
    PartitionAddsUp(pool, s, chain);
    hide FreeList, PtrOf, TagOf, Threads, Typed;
    forall t, u | t in s.pc && u in s.pc && t != u ensures Owned(s, t) !! Owned(s, u) {
      assert Owners(s)[t] == Owned(s, t) && Owners(s)[u] == Owned(s, u);
    }
  }

  lemma {:induction false} RunKeepsInv(pool: Pool, states: seq<State>, acts: seq<Act>, i: nat)
    returns (chain: seq<Addr>)
    requires ValidPool(pool) && IsRun(pool, states, acts) && Initial(pool, states[0])
    requires i < |states| && forall k :: 0 <= k < i ==> Holds(states[k], acts[k]) || Prompt(states[k], acts[k])
    ensures Inv(pool, states[i], chain)
  {
    hide Initial, Inv, Do, LinkHolds, InWindow;
    if i == 0 {
      InitialHolds(pool, states[0]);
      chain := pool.slots;
    } else {
      var s, act := states[i - 1], acts[i - 1];
      chain := RunKeepsInv(pool, states, acts, i - 1);
      assert IsStep(pool, s, act, states[i - 1 + 1]);
      assert Holds(s, act) || Prompt(s, act);
      if !Holds(s, act) { WindowHoldsLink(pool, s, chain, act.thread, act.step); }
      chain := StepKeeps(pool, s, chain, act.thread, act.step);
    }
  }

  /** If no alloc wins 2^16 or more exchanges late, every winning exchange installs the link that is there. */
  lemma PromptHolds(pool: Pool, states: seq<State>, acts: seq<Act>)
    requires ValidPool(pool) && IsRun(pool, states, acts) && AllPrompt(states, acts) && Initial(pool, states[0])
    ensures AllHold(states, acts)
  {
    hide Initial, Inv, LinkHolds, InWindow, Enabled;
    forall i | 0 <= i < |acts| ensures Holds(states[i], acts[i]) {
      assert Prompt(states[i], acts[i]);
      var chain := RunKeepsInv(pool, states, acts, i);
      WindowHoldsLink(pool, states[i], chain, acts[i].thread, acts[i].step);
    }
  }

  // --- Exactly which runs are safe ---

  /** Following the links from a place of a list gives the rest of the list. */
  lemma {:induction false} RestOfList(slots: set<Addr>, next: map<Addr, nat>, chain: seq<Addr>, p: nat,
                                      other: seq<Addr>)
    requires 0 !in slots && forall i :: 0 <= i < |chain| ==> chain[i] in slots
    requires forall i :: 0 <= i < |other| ==> other[i] in slots
    requires p < |chain| && FreeList(next, chain[0], chain) && FreeList(next, chain[p], other)
    ensures |other| == |chain| - p
    decreases |other|
  {
    hide PtrOf;
    assert chain[p] in slots;
    if p + 1 < |chain| { assert chain[p + 1] in slots; }
    assert other[0] == chain[p] && PtrOf(next[other[0]]) == After(other, 0) == After(chain, p);
    if |other| > 1 {
      assert other[1] in slots;
      var rest := other[1..];
      forall i | 0 <= i < |rest| ensures rest[i] in next && PtrOf(next[rest[i]]) == After(rest, i) {
        assert rest[i] == other[i + 1];
      }
      RestOfList(slots, next, chain, p + 1, rest);
    }
  }

  /** A win adds the slot at the head to what its thread owns, and changes nothing else that is owned or linked. */
  lemma OwnedAfterWin(s: State, t: Tid, ptr: Addr)
    requires s.pc.Keys == s.held.Keys && t in s.pc && s.pc[t].AllocReady? && s.head == s.pc[t].expected
    ensures var s' := Swapped(s, t, ptr, AllocWon(s.pc[t].id, PtrOf(s.head)));
            && s'.pc.Keys == s'.held.Keys && s'.next == s.next && PtrOf(s'.head) == ptr % ADDRESSES
            && AllOwned(s') == AllOwned(s) + {PtrOf(s.head)}
  {
    hide TagOf, PtrOf;
    var s' := Swapped(s, t, ptr, AllocWon(s.pc[t].id, PtrOf(s.head)));
    assert Owned(s', t) == Owned(s, t) + {PtrOf(s.head)};
    forall u | u in s.pc && u != t ensures Owned(s', u) == Owned(s, u) {
    }
    assert forall a :: a in AllOwned(s') <==> a in AllOwned(s) || a == PtrOf(s.head);
  }

  lemma HeadIsFree(pool: Pool, s: State, chain: seq<Addr>)
    requires s.pc.Keys == s.held.Keys && Partition(Arena(pool), Owners(s), chain) && chain != []
    ensures chain[0] !in AllOwned(s)
  {
    hide Arena;
    forall u | u in s.pc ensures chain[0] !in Owned(s, u) {
      assert Owners(s)[u] == Owned(s, u);
    }
  }

  /** What is neither owned nor the slot just taken is on the rest of the old list. */
  lemma UnownedIsListed(pool: Pool, s: State, chain: seq<Addr>, a: Addr)
    requires s.pc.Keys == s.held.Keys && Partition(Arena(pool), Owners(s), chain) && chain != []
    requires a in Arena(pool) && a !in AllOwned(s) && a != chain[0]
    ensures a in chain[1..]
  {
    assert a in chain;
    var i :| 0 <= i < |chain| && chain[i] == a;
    assert chain[1..][i - 1] == a;
  }

  /** A win that installs another link than the one that is there breaks the pool at once. */
  lemma StaleWinIsUnsafe(pool: Pool, s: State, chain: seq<Addr>, t: Tid, step: Step)
    requires Inv(pool, s, chain) && Enabled(s, t, step) && !LinkHolds(s, t, step)
    ensures !Safe(pool, Do(pool, s, t, step))
  {
    hide Inv, TagOf, PtrOf, Partition, FreeList, Owners, Arena, AllOwned, Safe, Typed, ValidPool;
    var s', ptr := Do(pool, s, t, step), PtrOf(s.pc[t].nextWord);
    WhatIsThere(pool, s, chain, t);
    OwnedAfterWin(s, t, ptr);
    FreeListPop(s.next, PtrOf(s.head), chain);
    HeadIsFree(pool, s, chain);
    PartitionAddsUp(pool, s, chain);
    if Safe(pool, s') {
      var other := SafeList(pool, s');
      assert |AllOwned(s')| == |AllOwned(s)| + 1;
      SameLengthSameStart(pool, s, chain, PtrOf(s'.head), other);
    }
  }

  lemma SafeList(pool: Pool, s: State) returns (chain: seq<Addr>)
    requires Safe(pool, s)
    ensures s.pc.Keys == s.held.Keys && FreeList(s.next, PtrOf(s.head), chain)
    ensures forall i :: 0 <= i < |chain| ==> chain[i] in Arena(pool) && chain[i] !in AllOwned(s)
    ensures |chain| + |AllOwned(s)| == |pool.slots|
  {
    hide FreeList, PtrOf, NoRepeats, AllOwned, Arena, Typed;
    chain :| FreeList(s.next, PtrOf(s.head), chain) && NoRepeats(chain)
             && (forall i :: 0 <= i < |chain| ==> chain[i] in Arena(pool) && chain[i] !in AllOwned(s))
             && |chain| + |AllOwned(s)| == |pool.slots|;
  }

  lemma WhatIsThere(pool: Pool, s: State, chain: seq<Addr>, t: Tid)
    requires Inv(pool, s, chain)
    ensures 0 !in Arena(pool) && forall i :: 0 <= i < |chain| ==> chain[i] in Arena(pool)
    ensures ValidPool(pool) && s.pc.Keys == s.held.Keys && Partition(Arena(pool), Owners(s), chain)
    ensures FreeList(s.next, PtrOf(s.head), chain)
    ensures t in s.pc && s.pc[t].AllocReady? ==>
              PtrOf(s.pc[t].expected) != 0 && PtrOf(s.pc[t].nextWord) % ADDRESSES == PtrOf(s.pc[t].nextWord)
  {
    hide TagOf, FreeList, Typed;
    if t in s.pc { assert Fresh(pool, s, s.pc[t]); }
  }

  /** A list as long as the rest of the old one, of slots of the rest, starts where the rest starts. */
  lemma SameLengthSameStart(pool: Pool, s: State, chain: seq<Addr>, first: Addr, other: seq<Addr>)
    requires s.pc.Keys == s.held.Keys && Partition(Arena(pool), Owners(s), chain) && chain != []
    requires 0 !in Arena(pool) && forall i :: 0 <= i < |chain| ==> chain[i] in Arena(pool)
    requires chain[0] in s.next && FreeList(s.next, PtrOf(s.next[chain[0]]), chain[1..])
             && FreeList(s.next, first, other)
    requires forall i :: 0 <= i < |other| ==>
               other[i] in Arena(pool) && other[i] !in AllOwned(s) && other[i] != chain[0]
    requires |other| == |chain| - 1
    ensures first == PtrOf(s.next[chain[0]])
  {
    hide PtrOf, Partition, AllOwned;
    var rest := chain[1..];
    if other != [] {
      UnownedIsListed(pool, s, chain, other[0]);
      var p :| 0 <= p < |rest| && rest[p] == other[0];
      RestOfList(Arena(pool), s.next, rest, p, other);
    }
  }

  /** In every interleaving of any number of alloc and free calls, split at every atomic access, the pool is
      safe at every instant if and only if every winning exchange of an alloc installs the link that is
      there behind the slot it takes. */
  lemma SafeIffLinksHold(pool: Pool, states: seq<State>, acts: seq<Act>)
    requires ValidPool(pool) && IsRun(pool, states, acts) && Initial(pool, states[0])
    ensures (forall i :: 0 <= i < |states| ==> Safe(pool, states[i])) <==> AllHold(states, acts)
  {
    hide Initial, Inv, Safe, LinkHolds;
    if AllHold(states, acts) {
      forall i | 0 <= i < |states| ensures Safe(pool, states[i]) {
        var chain := RunKeepsInv(pool, states, acts, i);
        InvIsSafe(pool, states[i], chain);
      }
    } else {
      var i := FirstBroken(pool, states, acts);
      var chain := RunKeepsInv(pool, states, acts, i);
      assert IsStep(pool, states[i], acts[i], states[i + 1]);
      StaleWinIsUnsafe(pool, states[i], chain, acts[i].thread, acts[i].step);
      assert !Safe(pool, states[i + 1]);
    }
  }

  lemma FirstBroken(pool: Pool, states: seq<State>, acts: seq<Act>) returns (i: nat)
    requires IsRun(pool, states, acts) && !AllHold(states, acts)
    ensures i < |acts| && !Holds(states[i], acts[i]) && forall k :: 0 <= k < i ==> Holds(states[k], acts[k])
  {
    hide Holds, IsStep;
    i := 0;
    while i < |acts| && Holds(states[i], acts[i])
      invariant 0 <= i <= |acts| && forall k :: 0 <= k < i ==> Holds(states[k], acts[k])
    {
      i := i + 1;
    }
  }

  /** In particular the pool is safe in every run in which no alloc wins an exchange 2^16 or more exchanges
      late: within that window the tag tells heads apart. */
  lemma EveryPromptRunIsSafe(pool: Pool, states: seq<State>, acts: seq<Act>)
    requires ValidPool(pool) && IsRun(pool, states, acts) && AllPrompt(states, acts) && Initial(pool, states[0])
    ensures forall i :: 0 <= i < |states| ==> Safe(pool, states[i])
  {
    PromptHolds(pool, states, acts);
    SafeIffLinksHold(pool, states, acts);
  }

  /** A returning alloc delivers a slot nobody owned but its thread, stamped with the requested
      type id and the pool's payload size. */
  lemma AllocDelivers(pool: Pool, s: State, chain: seq<Addr>, t: Tid)
    requires Inv(pool, s, chain) && Enabled(s, t, StampLength)
    ensures var s', slot := Do(pool, s, t, StampLength), s.pc[t].slot;
            && slot in Arena(pool) && slot !in s.held[t] && s'.held[t] == s.held[t] + {slot}
            && (forall u :: u in s.pc && u != t ==> slot !in Owned(s, u))
            && s'.typeId[slot] == s.pc[t].id != 0 && s'.length[slot] == pool.elementSize
  {
    hide PtrOf, TagOf, FreeList;
    SlotInArena(pool, s, chain, t);
    assert Fresh(pool, s, s.pc[t]);
    forall u | u in s.pc && u != t ensures s.pc[t].slot !in Owned(s, u) {
      OwnersDiffer(pool, s, chain, t, u);
    }
  }

  /** The head is null iff every slot of the pool is owned. */
  lemma NoHeadIffAllOwned(pool: Pool, s: State, chain: seq<Addr>)
    requires Inv(pool, s, chain)
    ensures PtrOf(s.head) == 0 <==> AllOwned(s) == Arena(pool)
  {
    PartitionAddsUp(pool, s, chain);
    CardinalityOfDistinct(pool.slots);
    hide PtrOf, TagOf, Threads, Typed;
    if PtrOf(s.head) == 0 {
      assert forall a :: a in Arena(pool) ==> a != 0;
      assert chain == [];
      forall a | a in Arena(pool) ensures a in AllOwned(s) {
        var t :| t in Owners(s) && a in Owners(s)[t];
      }
    }
  }

  /** At `j` the thread began the retry round it is still in at `i`: it loaded the head there. */
  ghost predicate LoadedAt(states: seq<State>, acts: seq<Act>, i: nat, t: Tid, j: nat)
    requires i < |states| == |acts| + 1 && t in states[i].pc && states[i].pc[t].AllocLoop?
  {
    && j < i && acts[j].thread == t && (acts[j].step.CallAlloc? || acts[j].step.SwapForAlloc?)
    && states[j].head == states[i].pc[t].expected
    && forall k :: j < k <= i ==> t in states[k].pc && states[k].pc[t] == states[i].pc[t]
  }

  lemma StepOfOther(pool: Pool, s: State, act: Act, s': State, t: Tid)
    requires IsStep(pool, s, act, s') && t in s'.pc
    ensures act.thread != t ==> t in s.pc && s'.pc[t] == s.pc[t]
    ensures act.thread == t && s'.pc[t].AllocLoop? ==>
              (act.step.CallAlloc? || act.step.SwapForAlloc?) && s'.pc[t].expected == s.head
  {
    hide TagOf, PtrOf, Pack, Read, Linked;
    match act.step
    case Link => OtherLinks(s, act.thread);
    case _ =>
  }

  lemma OtherLinks(s: State, t: Tid)
    requires t in s.pc && s.pc[t].FreeLoop?
    ensures Linked(s, t).pc == s.pc[t := FreeReady(s.pc[t].slot, s.pc[t].expected, s.pc[t].since)]
  {
  }

  lemma {:induction false} LoadWasMade(pool: Pool, states: seq<State>, acts: seq<Act>, i: nat, t: Tid) returns (j: nat)
    requires IsRun(pool, states, acts) && i < |states| && t in states[i].pc && states[i].pc[t].AllocLoop?
    requires forall u :: u in states[0].pc ==> states[0].pc[u].Idle?
    ensures LoadedAt(states, acts, i, t, j)
    decreases i
  {
    hide IsStep;
    j := i - 1;
    assert IsStep(pool, states[i - 1], acts[i - 1], states[i - 1 + 1]);
    StepOfOther(pool, states[i - 1], acts[i - 1], states[i], t);
    if acts[i - 1].thread != t { j := LoadWasMade(pool, states, acts, i - 1, t); }
  }

  lemma LoadNextReturns(pool: Pool, s: State, t: Tid)
    requires Enabled(s, t, LoadNext)
    ensures t in s.pc && s.pc[t].AllocLoop? && (Do(pool, s, t, LoadNext).pc[t].Idle? <==> PtrOf(s.pc[t].expected) == 0)
  {
  }

  /** In a safe run an alloc returns null iff every slot of the pool was owned at the moment the call last
      loaded the head. */
  lemma NullMeansExhausted(pool: Pool, states: seq<State>, acts: seq<Act>, i: nat, t: Tid) returns (j: nat)
    requires ValidPool(pool) && IsRun(pool, states, acts) && AllHold(states, acts) && Initial(pool, states[0])
    requires i < |acts| && acts[i] == Act(t, LoadNext)
    ensures t in states[i].pc && states[i].pc[t].AllocLoop? && t in states[i + 1].pc
    ensures LoadedAt(states, acts, i, t, j) && states[j].pc.Keys == states[j].held.Keys
    ensures states[i + 1].pc[t].Idle? <==> AllOwned(states[j]) == Arena(pool)
  {
    assert forall u :: u in states[0].pc ==> states[0].pc[u].Idle?;
    hide Initial, Inv, AllOwned, Arena, PtrOf, Enabled, Do, LoadedAt;
    assert IsStep(pool, states[i], acts[i], states[i + 1]);
    LoadNextReturns(pool, states[i], t);
    j := LoadWasMade(pool, states, acts, i, t);
    assert j < i && states[j].head == states[i].pc[t].expected by { LoadTells(states, acts, i, t, j); }
    var chain := RunKeepsInv(pool, states, acts, j);
    KeysAgree(pool, states[j], chain);
    NoHeadIffAllOwned(pool, states[j], chain);
  }

  lemma LoadTells(states: seq<State>, acts: seq<Act>, i: nat, t: Tid, j: nat)
    requires i < |states| == |acts| + 1 && t in states[i].pc && states[i].pc[t].AllocLoop?
             && LoadedAt(states, acts, i, t, j)
    ensures j < i && states[j].head == states[i].pc[t].expected
  {
  }

  lemma KeysAgree(pool: Pool, s: State, chain: seq<Addr>)
    requires Inv(pool, s, chain)
    ensures s.pc.Keys == s.held.Keys
  {
  }
}
