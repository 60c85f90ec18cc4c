/** What the 16-bit tag cannot tell apart: an alloc whose exchange comes 2^16 successful exchanges
    after its load can win against a recycled head and break the pool. The run that shows it is
    put together from solo runs of one thread while another is stalled before its exchange. */
module BitPoolTagLimit {
  import opened BitPool
  import opened BitPoolRuns

  /** Some prompt run leads from `s` to `s'`. */
  ghost predicate Leads(pool: Pool, s: State, s': State) {
    exists states, acts :: IsPath(pool, states, acts, s, s')
  }

  ghost predicate IsPath(pool: Pool, states: seq<State>, acts: seq<Act>, s: State, s': State) {
    IsRun(pool, states, acts) && AllPrompt(states, acts) && states[0] == s && states[|acts|] == s'
  }

  lemma LeadsNowhere(pool: Pool, s: State)
    ensures Leads(pool, s, s)
  {
    assert IsPath(pool, [s], [], s, s);
  }

  lemma LeadsStep(pool: Pool, s: State, m: State, act: Act, s': State)
    requires Leads(pool, s, m) && Prompt(m, act) && s' == Do(pool, m, act.thread, act.step)
    ensures Leads(pool, s, s')
  {
    hide Do, Enabled, InWindow;
    var states, acts :| IsPath(pool, states, acts, s, m);
    var states', acts' := states + [s'], acts + [act];
    forall i | 0 <= i < |acts'|
      ensures IsStep(pool, states'[i], acts'[i], states'[i + 1]) && Prompt(states'[i], acts'[i])
    {
      if i < |acts| {
        assert IsStep(pool, states[i], acts[i], states[i + 1]) && Prompt(states[i], acts[i]);
      }
    }
    assert IsPath(pool, states', acts', s, s');
  }

  /** A whole alloc call with nobody in between. */
  function Allocated(pool: Pool, s: State, t: Tid, id: nat): State
    requires t in s.held && PtrOf(s.head) in s.next
  {
    var p := PtrOf(s.head);
    s.(head := Pack(TagOf(s.head) + 1, PtrOf(s.next[p])), typeId := s.typeId[p := id],
       length := s.length[p := pool.elementSize], held := s.held[t := s.held[t] + {p}], swaps := s.swaps + 1)
  }

  lemma SoloAlloc(pool: Pool, s0: State, s: State, t: Tid, id: nat)
    requires Leads(pool, s0, s) && t in s.pc && t in s.held && s.pc[t].Idle? && id != 0
    requires PtrOf(s.head) != 0 && PtrOf(s.head) in s.next
    ensures Leads(pool, s0, Allocated(pool, s, t, id))
  {
    hide Leads, TagOf, PtrOf, Pack;
    var s1 := Do(pool, s, t, CallAlloc(id));
    LeadsStep(pool, s0, s, Act(t, CallAlloc(id)), s1);
    var s2 := Do(pool, s1, t, LoadNext);
    LeadsStep(pool, s0, s1, Act(t, LoadNext), s2);
    var s3 := Do(pool, s2, t, SwapForAlloc(false));
    LeadsStep(pool, s0, s2, Act(t, SwapForAlloc(false)), s3);
    var s4 := Do(pool, s3, t, StampType);
    LeadsStep(pool, s0, s3, Act(t, StampType), s4);
    var s5 := Do(pool, s4, t, StampLength);
    LeadsStep(pool, s0, s4, Act(t, StampLength), s5);
    assert s5.pc == s.pc;
  }

  /** A whole free call with nobody in between. */
  function Freed(s: State, t: Tid, slot: Addr): State
    requires t in s.held
  {
    var word := Pack(TagOf(s.head) + 1, PtrOf(s.head));
    s.(head := Pack(TagOf(s.head) + 1, slot), next := s.next[slot := word],
       typeId := s.typeId[slot := 0], held := s.held[t := s.held[t] - {slot}], swaps := s.swaps + 1)
  }

  /** The first half of a free call: the slot is taken back and its type id cleared. */
  function TakenBack(s: State, t: Tid, slot: Addr): State
    requires t in s.held
  {
    s.(typeId := s.typeId[slot := 0], held := s.held[t := s.held[t] - {slot}], pc := s.pc[t := FreeCleared(slot)])
  }

  lemma SoloTakeBack(pool: Pool, s0: State, s: State, t: Tid, slot: Addr)
    requires Leads(pool, s0, s) && t in s.pc && t in s.held && s.pc[t].Idle?
    requires slot in s.held[t] && slot in s.typeId && s.typeId[slot] != 0
    ensures Leads(pool, s0, TakenBack(s, t, slot))
  {
    hide Leads;
    var s1 := Do(pool, s, t, CallFree(slot));
    LeadsStep(pool, s0, s, Act(t, CallFree(slot)), s1);
    var s2 := Do(pool, s1, t, ReadType);
    LeadsStep(pool, s0, s1, Act(t, ReadType), s2);
    var s3 := Do(pool, s2, t, ClearType);
    LeadsStep(pool, s0, s2, Act(t, ClearType), s3);
    assert s3.pc == s.pc[t := FreeCleared(slot)];
    assert s3 == TakenBack(s, t, slot);
  }

  lemma SoloPush(pool: Pool, s0: State, s: State, t: Tid)
    requires Leads(pool, s0, s) && t in s.pc && t in s.held && s.pc[t].FreeCleared?
    ensures var word := Pack(TagOf(s.head) + 1, PtrOf(s.head));
            Leads(pool, s0, s.(head := Pack(TagOf(s.head) + 1, s.pc[t].slot), next := s.next[s.pc[t].slot := word],
                               pc := s.pc[t := Idle], swaps := s.swaps + 1))
  {
    hide Leads, TagOf, PtrOf, Pack;
    var s1 := Do(pool, s, t, LoadHead);
    LeadsStep(pool, s0, s, Act(t, LoadHead), s1);
    var s2 := Do(pool, s1, t, Link);
    LeadsStep(pool, s0, s1, Act(t, Link), s2);
    var s3 := Do(pool, s2, t, SwapForFree(false));
    LeadsStep(pool, s0, s2, Act(t, SwapForFree(false)), s3);
    assert s3.pc == s.pc[t := Idle];
  }

  lemma SoloFree(pool: Pool, s0: State, s: State, t: Tid, slot: Addr)
    requires Leads(pool, s0, s) && t in s.pc && t in s.held && s.pc[t].Idle?
    requires slot in s.held[t] && slot in s.typeId && s.typeId[slot] != 0
    ensures Leads(pool, s0, Freed(s, t, slot))
  {
    hide Leads, TagOf, PtrOf, Pack;
    SoloTakeBack(pool, s0, s, t, slot);
    SoloPush(pool, s0, TakenBack(s, t, slot), t);
    assert s.pc[t := FreeCleared(slot)][t := Idle] == s.pc;
  }

  /** One alloc and free of the head slot: only the tag and the slot's own header move. */
  lemma ChurnOnce(pool: Pool, s0: State, m: State, t: Tid) returns (s': State)
    requires Leads(pool, s0, m) && t in m.pc && t in m.held && m.pc[t].Idle?
    requires PtrOf(m.head) != 0 && PtrOf(m.head) in m.next && PtrOf(m.head) !in m.held[t]
    ensures Leads(pool, s0, s') && s'.pc == m.pc && s'.held == m.held && s'.swaps == m.swaps + 2
    ensures PtrOf(s'.head) == PtrOf(m.head) && PtrOf(m.head) in s'.next
    ensures s'.head == Pack(TagOf(m.head) + 2, PtrOf(m.head))
  {
    hide Leads, TagOf, PtrOf, Pack;
    var p := PtrOf(m.head);
    SoloAlloc(pool, s0, m, t, 1);
    var a := Allocated(pool, m, t, 1);
    SoloFree(pool, s0, a, t, p);
    s' := Freed(a, t, p);
    assert s'.held == m.held;
    TwoOn(TagOf(m.head));
    PackModulo(TagOf(a.head) + 1, TagOf(m.head) + 2, p);
  }

  /** Taking the head slot and putting it back restores everything but the tag, which moves on by two. */
  lemma {:induction false} Churn(pool: Pool, s0: State, s: State, t: Tid, times: nat) returns (s': State)
    requires Leads(pool, s0, s) && t in s.pc && t in s.held && s.pc[t].Idle?
    requires PtrOf(s.head) != 0 && PtrOf(s.head) in s.next && PtrOf(s.head) !in s.held[t]
    ensures Leads(pool, s0, s') && s'.pc == s.pc && s'.held == s.held && s'.swaps == s.swaps + 2 * times
    ensures PtrOf(s'.head) == PtrOf(s.head) && PtrOf(s.head) in s'.next
    ensures TagOf(s'.head) == (TagOf(s.head) + 2 * times) % TAGS
    ensures times > 0 ==> s'.head == Pack(TagOf(s.head) + 2 * times, PtrOf(s.head))
  {
    hide Leads, TagOf, PtrOf, Pack;
    if times == 0 {
      return s;
    }
    var m := Churn(pool, s0, s, t, times - 1);
    s' := ChurnOnce(pool, s0, m, t);
    AddTwo(TagOf(s.head) + 2 * (times - 1));
    PackModulo(TagOf(m.head) + 2, TagOf(s.head) + 2 * times, PtrOf(s.head));
  }

  lemma AddTwo(x: nat)
    ensures (x % TAGS + 2) % TAGS == (x + 2) % TAGS
  {
  }

  lemma TwoOn(x: nat)
    ensures ((x + 1) % TAGS + 1) % TAGS == (x + 2) % TAGS
  {
  }

  /** Packing sees the tag modulo 2^16 only. */
  lemma PackModulo(x: nat, y: nat, ptr: nat)
    requires x % TAGS == y % TAGS
    ensures Pack(x, ptr) == Pack(y, ptr)
  {
  }

  /** The head word names slot `a` first; `b` and `c` follow it. */
  ghost predicate Lists(s: State, a: Addr, b: Addr, c: Addr) {
    && a != 0 && b != 0 && c != 0 && a != b && b != c && a != c
    && PtrOf(s.head) == a && a in s.next && b in s.next && c in s.next
    && PtrOf(s.next[a]) == b && PtrOf(s.next[b]) == c
  }

  /** Thread 1 loads the head word and the first slot's next word, and stalls before its exchange. */
  lemma StalledAlloc(pool: Pool, s0: State, a: Addr, b: Addr, c: Addr) returns (s: State)
    requires Lists(s0, a, b, c) && 1 in s0.pc && 1 in s0.held && s0.pc[1].Idle? && s0.swaps == 0
    ensures Leads(pool, s0, s)
    ensures s == s0.(pc := s0.pc[1 := AllocReady(1, s0.head, s0.next[a], 0)])
  {
    hide Leads, TagOf, PtrOf, Pack;
    LeadsNowhere(pool, s0);
    var s1 := Do(pool, s0, 1, CallAlloc(1));
    LeadsStep(pool, s0, s0, Act(1, CallAlloc(1)), s1);
    s := Do(pool, s1, 1, LoadNext);
    LeadsStep(pool, s0, s1, Act(1, LoadNext), s);
    assert s1.pc[1 := s.pc[1]] == s0.pc[1 := s.pc[1]];
  }

  /** Thread 2 takes three slots. */
  lemma TakeThree(pool: Pool, s0: State, s: State, a: Addr, b: Addr, c: Addr) returns (s': State)
    requires Leads(pool, s0, s) && Lists(s, a, b, c) && 2 in s.pc && 2 in s.held && s.pc[2].Idle? && s.held[2] == {}
    ensures Leads(pool, s0, s') && s'.pc == s.pc && s'.held == s.held[2 := {a, b, c}] && s'.next == s.next
    ensures s'.swaps == s.swaps + 3 && TagOf(s'.head) == (((TagOf(s.head) + 1) % TAGS + 1) % TAGS + 1) % TAGS
    ensures a in s'.typeId && s'.typeId[a] == 1
  {
    hide Leads, TagOf, PtrOf, Pack;
    SoloAlloc(pool, s0, s, 2, 1);
    var s1 := Allocated(pool, s, 2, 1);
    SoloAlloc(pool, s0, s1, 2, 1);
    var s2 := Allocated(pool, s1, 2, 1);
    SoloAlloc(pool, s0, s2, 2, 1);
    s' := Allocated(pool, s2, 2, 1);
    assert s'.held[2] == {a, b, c};
    assert s'.held == s.held[2 := {a, b, c}];
  }

  /** Thread 2 takes three slots and returns the first, which thus heads the list again, four tags on. */
  lemma TakeThreeReturnFirst(pool: Pool, s0: State, s: State, a: Addr, b: Addr, c: Addr) returns (s': State)
    requires Leads(pool, s0, s) && Lists(s, a, b, c) && 2 in s.pc && 2 in s.held && s.pc[2].Idle? && s.held[2] == {}
    requires a < ADDRESSES
    ensures Leads(pool, s0, s') && s'.pc == s.pc && s'.held == s.held[2 := {b, c}]
    ensures s'.swaps == s.swaps + 4 && s'.head == Pack(TagOf(s.head) + 4, a) && a in s'.next
  {
    hide Leads, TagOf, PtrOf, Pack;
    var s3 := TakeThree(pool, s0, s, a, b, c);
    SoloFree(pool, s0, s3, 2, a);
    s' := Freed(s3, 2, a);
    assert {a, b, c} - {a} == {b, c};
    assert s'.held == s.held[2 := {b, c}];
    FourOn(TagOf(s.head));
    PackModulo(TagOf(s3.head) + 1, TagOf(s.head) + 4, a);
  }

  lemma FourOn(x: nat)
    ensures ((((x + 1) % TAGS + 1) % TAGS + 1) % TAGS + 1) % TAGS == (x + 4) % TAGS
  {
  }

  lemma FirstThree(pool: Pool)
    requires |pool.slots| >= 3
    ensures pool.slots[0] in Arena(pool) && pool.slots[1] in Arena(pool) && pool.slots[2] in Arena(pool)
  {
  }

  lemma InitialLists(pool: Pool, s: State)
    requires ValidPool(pool) && |pool.slots| >= 3 && Initial(pool, s)
    ensures Lists(s, pool.slots[0], pool.slots[1], pool.slots[2])
  {
    hide TagOf, PtrOf, Pack, Arena, Elements, After;
    FirstThree(pool);
    var x := pool.slots;
    AfterIs(x, 0);
    AfterIs(x, 1);
    assert s.next[x[0]] == Pack(|x| - 0, After(x, 0)) && s.next[x[1]] == Pack(|x| - 1, After(x, 1));
  }

  lemma InitialFacts(pool: Pool, s: State)
    requires ValidPool(pool) && |pool.slots| >= 3 && Initial(pool, s)
    ensures s.head == Pack(|pool.slots| + 1, pool.slots[0]) && pool.slots[0] < ADDRESSES
    ensures s.pc.Keys == s.held.Keys && s.swaps == 0
    ensures forall t :: t in s.pc ==> s.pc[t].Idle? && s.held[t] == {}
  {
  }

  lemma WrapAround(n: nat)
    ensures (((n + 1) % TAGS + 4) % TAGS + 65532) % TAGS == (n + 1) % TAGS
  {
  }

  lemma RunOf(pool: Pool, s0: State, s: State) returns (states: seq<State>, acts: seq<Act>)
    requires Leads(pool, s0, s)
    ensures IsPath(pool, states, acts, s0, s)
  {
    states, acts :| IsPath(pool, states, acts, s0, s);
  }

  /** Whoever holds the slot at the head of the free list refutes every claim of safety. */
  lemma HeldHeadIsUnsafe(pool: Pool, s: State, t: Tid, b: Addr)
    requires t in s.pc && t in s.held && b in s.held[t] && PtrOf(s.head) == b != 0
    ensures !Safe(pool, s)
  {
    hide PtrOf, TagOf;
    if s.pc.Keys == s.held.Keys {
      assert b in Owned(s, t);
      assert b in AllOwned(s);
    }
  }

  /** Thread 1 wakes up when the tag has gone round exactly once. */
  lemma TagComesRound(pool: Pool, s0: State) returns (s: State)
    requires ValidPool(pool) && |pool.slots| >= 3 && Initial(pool, s0) && {1, 2} <= s0.pc.Keys
    ensures Leads(pool, s0, s) && 1 in s.pc && 1 in s.held && 2 in s.pc && 2 in s.held
    ensures s.head == s0.head && s.swaps == TAGS
    ensures s.pc[1].AllocReady? && s.pc[1].expected == s0.head && s.pc[1].since == 0
    ensures PtrOf(s.pc[1].nextWord) == pool.slots[1] != 0 && pool.slots[1] in s.held[2]
  {
    hide TagOf, PtrOf, Pack, Arena, Elements, Leads, Initial;
    var a, b, c := pool.slots[0], pool.slots[1], pool.slots[2];
    InitialLists(pool, s0);
    InitialFacts(pool, s0);
    var s1 := StalledAlloc(pool, s0, a, b, c);
    assert Lists(s1, a, b, c);
    var s2 := TakeThreeReturnFirst(pool, s0, s1, a, b, c);
    s := Churn(pool, s0, s2, 2, 32766);
    WrapAround(|pool.slots|);
    PackModulo(TagOf(s2.head) + 65532, |pool.slots| + 1, a);
  }

  /** If a step behind a prompt run breaks the pool, it installs a link that is not there. */
  lemma LinkWasBroken(pool: Pool, states: seq<State>, acts: seq<Act>, t: Tid, step: Step)
    requires ValidPool(pool) && IsRun(pool, states, acts) && AllPrompt(states, acts) && Initial(pool, states[0])
    requires Enabled(states[|acts|], t, step) && !Safe(pool, Do(pool, states[|acts|], t, step))
    ensures !LinkHolds(states[|acts|], t, step)
  {
    hide Initial, Inv, Safe, LinkHolds, Do, Prompt, Enabled;
    var chain := RunKeepsInv(pool, states, acts, |acts|);
    if LinkHolds(states[|acts|], t, step) {
      chain := StepKeeps(pool, states[|acts|], chain, t, step);
      InvIsSafe(pool, Do(pool, states[|acts|], t, step), chain);
    }
  }

  /** For every pool of three or more slots and two threads there is a run, prompt in every step
      but the last, whose last step is an exchange exactly 2^16 exchanges late, and after which a
      slot held by one thread heads the free list. So `EveryPromptRunIsSafe` fails for any larger window. */
  lemma TagWrapBreaksPool(pool: Pool, s0: State) returns (states: seq<State>, acts: seq<Act>)
    requires ValidPool(pool) && |pool.slots| >= 3 && Initial(pool, s0) && {1, 2} <= s0.pc.Keys
    ensures IsRun(pool, states, acts) && states[0] == s0 && |acts| > 0
    ensures forall i :: 0 <= i < |acts| - 1 ==> Prompt(states[i], acts[i])
    ensures var late := states[|acts| - 1];
            && acts[|acts| - 1] == Act(1, SwapForAlloc(false)) && 1 in late.pc && late.pc[1].AllocReady?
            && late.swaps - late.pc[1].since == TAGS
    ensures !Safe(pool, states[|acts|]) && !LinkHolds(states[|acts| - 1], 1, SwapForAlloc(false))
  {
    hide TagOf, PtrOf, Pack, Arena, Elements, Leads, Initial, ValidPool, Safe;
    var s := TagComesRound(pool, s0);
    var prefix, steps := RunOf(pool, s0, s);
    var s' := Do(pool, s, 1, SwapForAlloc(false));
    assert PtrOf(s'.head) == pool.slots[1];
    HeldHeadIsUnsafe(pool, s', 2, pool.slots[1]);
    LinkWasBroken(pool, prefix, steps, 1, SwapForAlloc(false));
    states, acts := prefix + [s'], steps + [Act(1, SwapForAlloc(false))];
    assert IsStep(pool, s, Act(1, SwapForAlloc(false)), s');
    hide IsStep, Prompt;
    forall i | 0 <= i < |acts| ensures IsStep(pool, states[i], acts[i], states[i + 1]) {
      if i < |steps| { assert IsStep(pool, prefix[i], steps[i], prefix[i + 1]); }
    }
    forall i | 0 <= i < |acts| - 1 ensures Prompt(states[i], acts[i]) {
      assert Prompt(prefix[i], steps[i]);
    }
  }
}
