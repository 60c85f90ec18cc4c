/** Gestures told from the events alone: which presses belong to a sequence, when it has settled, and what a resolve
    fires, without the state a driver keeps per key. */
module KeyGestures {
  import opened KeyMap
  import opened KeySlots
  import opened Options

  // --- The story of a key, over the first `n` steps ---

  ghost predicate IsDown(steps: seq<Step>, n: nat, k: nat)
    requires n <= |steps|
  {
    && n > 0
    && match steps[n - 1]
       case Press(key, _, _) => key == k || IsDown(steps, n - 1, k)
       case Release(key, _) => key != k && IsDown(steps, n - 1, k)
       case Resolve(_, _, _) => IsDown(steps, n - 1, k)
  }

  /** A press of a key that is not down already. */
  ghost predicate IsPress(steps: seq<Step>, i: nat, k: nat)
    requires i < |steps|
  {
    steps[i].Press? && steps[i].key == k && !IsDown(steps, i, k)
  }

  ghost function LastPress(steps: seq<Step>, n: nat, k: nat): (r: Option<nat>)
    requires n <= |steps|
    ensures r.Some? ==> r.value < n && IsPress(steps, r.value, k)
  {
    if n == 0 then None else if IsPress(steps, n - 1, k) then Some(n - 1) else LastPress(steps, n - 1, k)
  }

  ghost function LastRelease(steps: seq<Step>, n: nat, k: nat): (r: Option<nat>)
    requires n <= |steps|
    ensures r.Some? ==> r.value < n && steps[r.value].Release? && steps[r.value].key == k
  {
    if n == 0 then None
    else if steps[n - 1].Release? && steps[n - 1].key == k then Some(n - 1)
    else LastRelease(steps, n - 1, k)
  }

  /** How long the key was down when it was last let go. */
  ghost function LastHold(steps: seq<Step>, n: nat, k: nat): nat
    requires n <= |steps|
  {
    if n == 0 then 0
    else
      var p := LastPress(steps, n - 1, k);
      if steps[n - 1].Release? && steps[n - 1].key == k && IsDown(steps, n - 1, k) && p.Some?
         && steps[p.value].now <= steps[n - 1].now
      then steps[n - 1].now - steps[p.value].now
      else LastHold(steps, n - 1, k)
  }

  ghost predicate EitherDown(steps: seq<Step>, n: nat, left: nat, right: nat)
    requires n <= |steps|
  {
    IsDown(steps, n, left) || IsDown(steps, n, right)
  }

  /** Which of shift, control, alt and super are held. */
  datatype Held = Held(shift: bool, control: bool, alt: bool, super: bool)

  ghost function HeldAt(steps: seq<Step>, n: nat): Held
    requires n <= |steps|
  {
    Held(EitherDown(steps, n, 340, 344), EitherDown(steps, n, 341, 345), EitherDown(steps, n, 342, 346),
         EitherDown(steps, n, 343, 347))
  }

  /** The modifiers a combo asks for: one nibble each, and one for key 349. */
  ghost function Modifiers(steps: seq<Step>, n: nat): nat
    requires n <= |steps|
  {
    var held := HeldAt(steps, n);
    (if held.shift then 0x1 else 0) + (if held.super then 0x10 else 0) + (if held.alt then 0x100 else 0)
    + (if held.control then 0x1000 else 0) + (if IsDown(steps, n, 349) then 0x1_0000 else 0)
  }

  /** A press goes on with the sequence if the key was let go before it and within its window, and the same
      modifiers were held at the press before. */
  ghost predicate GoesOn(steps: seq<Step>, i: nat, k: nat)
    requires i < |steps| && IsPress(steps, i, k)
  {
    var r, p := LastRelease(steps, i, k), LastPress(steps, i, k);
    && r.Some? && p.Some?
    && 0 < steps[r.value].now <= steps[i].now < steps[r.value].now + steps[i].window
    && HeldAt(steps, p.value) == HeldAt(steps, i)
  }

  /** The presses of the running sequence that nothing has used up. */
  ghost function InFlight(steps: seq<Step>, n: nat, k: nat): (presses: seq<nat>)
    requires n <= |steps|
    ensures forall p :: p in presses ==> p < n && IsPress(steps, p, k)
    decreases n, 0
  {
    if n == 0 then []
    else if IsPress(steps, n - 1, k) then
      (if GoesOn(steps, n - 1, k) then InFlight(steps, n - 1, k) else []) + [n - 1]
    else if UsesTaps(steps, n - 1, k) then []
    else InFlight(steps, n - 1, k)
  }

  /** The hold of the press that is down has been used. */
  ghost predicate HoldUsed(steps: seq<Step>, n: nat, k: nat)
    requires n <= |steps|
    decreases n, 0
  {
    && n > 0 && !(steps[n - 1].Release? && steps[n - 1].key == k)
    && (HoldUsed(steps, n - 1, k) || UsesHold(steps, n - 1, k))
  }

  ghost predicate WindowPassed(steps: seq<Step>, p: nat, now: nat) {
    p < |steps| && steps[p].Press? && steps[p].now + steps[p].window <= now
  }

  /** The gesture of a combo is there to be taken at a time: a key held long enough, a sequence whose last press is
      a window ago, or in rhythm mode a key let go. */
  ghost predicate Ready(steps: seq<Step>, n: nat, combo: Combo, now: nat, how: Settings)
    requires n <= |steps|
    decreases n, 1
  {
    var k := combo.code;
    var flight, down := InFlight(steps, n, k), IsDown(steps, n, k);
    && k < KEY_COUNT
    && if combo.mode == LONG_PRESS then
         && down && !HoldUsed(steps, n, k) && LastPress(steps, n, k).Some?
         && 0 < how.longNanos <= now - steps[LastPress(steps, n, k).value].now
       else if !how.multiTap then combo.mode == TAP && flight != [] && !down
       else
         && flight != [] && WindowPassed(steps, flight[|flight| - 1], now)
         && (if |flight| == 1 then combo.mode == TAP && !down
             else if |flight| == 2 then combo.mode == DOUBLE_TAP else combo.mode == TRIPLE_TAP)
  }

  /** Binding `j` of the resolve at `i` may fire. */
  ghost predicate Able(steps: seq<Step>, i: nat, j: nat)
    requires i < |steps| && steps[i].Resolve? && j < |steps[i].bindings|
    decreases i, 2
  {
    var b := steps[i].bindings[j];
    b.fn != NO_FUNCTION && b.combo.mods == Modifiers(steps, i) && Ready(steps, i, b.combo, steps[i].now, steps[i].how)
  }

  /** No binding that may fire is more specific, and none before it is as specific. */
  ghost predicate Wins(steps: seq<Step>, i: nat, j: nat)
    requires i < |steps| && steps[i].Resolve? && j < |steps[i].bindings|
    decreases i, 3
  {
    var bs := steps[i].bindings;
    && Able(steps, i, j)
    && forall m :: 0 <= m < |bs| && Able(steps, i, m) ==>
         bs[m].combo.mode < bs[j].combo.mode || (bs[m].combo.mode == bs[j].combo.mode && j <= m)
  }

  /** Binding `j` takes its gesture away: it fires, or its gesture is ready under other modifiers. */
  ghost predicate Takes(steps: seq<Step>, i: nat, j: nat)
    requires i < |steps| && steps[i].Resolve? && j < |steps[i].bindings|
    decreases i, 4
  {
    var b := steps[i].bindings[j];
    && b.fn != NO_FUNCTION && Ready(steps, i, b.combo, steps[i].now, steps[i].how)
    && (b.combo.mods != Modifiers(steps, i) || Wins(steps, i, j))
  }

  ghost predicate UsesTaps(steps: seq<Step>, i: nat, k: nat)
    requires i < |steps|
    decreases i, 5
  {
    && steps[i].Resolve?
    && exists j :: 0 <= j < |steps[i].bindings| && steps[i].bindings[j].combo.code == k && Takes(steps, i, j)
  }

  ghost predicate UsesHold(steps: seq<Step>, i: nat, k: nat)
    requires i < |steps|
    decreases i, 5
  {
    && steps[i].Resolve?
    && exists j :: 0 <= j < |steps[i].bindings| && steps[i].bindings[j].combo.code == k
                   && steps[i].bindings[j].combo.mode == LONG_PRESS && Takes(steps, i, j)
  }

  // --- The slot of a key tells its story ---

  function Wire(held: Held): nat {
    (if held.shift then 1 else 0) + (if held.control then 2 else 0) + (if held.alt then 4 else 0)
    + (if held.super then 8 else 0)
  }

  ghost predicate Tells(s: Slot, steps: seq<Step>, n: nat, k: nat)
    requires n <= |steps|
  {
    var press, release, flight := LastPress(steps, n, k), LastRelease(steps, n, k), InFlight(steps, n, k);
    && (s.pressTime != 0 <==> IsDown(steps, n, k))
    && (IsDown(steps, n, k) ==> press.Some? && s.pressTime == steps[press.value].now)
    && s.lastReleaseTime == (if release.Some? then steps[release.value].now else 0)
    && s.lastHold == LastHold(steps, n, k) && s.taps == |flight| && s.longFired == HoldUsed(steps, n, k)
    && (flight != [] ==> press.Some? && flight[|flight| - 1] == press.value)
    && (press.Some? ==> s.lastTapMods == Wire(HeldAt(steps, press.value))
                        && s.pendingUntil == steps[press.value].now + steps[press.value].window)
  }

  ghost predicate AllTell(slots: seq<Slot>, steps: seq<Step>, n: nat)
    requires n <= |steps|
  {
    |slots| == KEY_COUNT && forall k :: 0 <= k < KEY_COUNT ==> Tells(slots[k], steps, n, k)
  }

  lemma ModifiersAgree(slots: seq<Slot>, steps: seq<Step>, n: nat)
    requires n <= |steps| && AllTell(slots, steps, n)
    ensures LiveMods(slots) == Modifiers(steps, n) && WireMods(slots) == Wire(HeldAt(steps, n))
  {
    assert forall k :: 0 <= k < KEY_COUNT ==> (Down(slots, k) <==> IsDown(steps, n, k)) by {
      forall k | 0 <= k < KEY_COUNT ensures Down(slots, k) <==> IsDown(steps, n, k) {
        assert Tells(slots[k], steps, n, k);
      }
    }
    hide Tells, AllTell, Down, IsDown;
  }

  lemma WireIsHeld(a: Held, b: Held)
    ensures Wire(a) == Wire(b) <==> a == b
  {
  }

  /** A slot shows a gesture iff the events make it ready. */
  lemma ShowsIffReady(slots: seq<Slot>, steps: seq<Step>, n: nat, combo: Combo, now: nat, how: Settings)
    requires n <= |steps| && AllTell(slots, steps, n)
    ensures Matches(slots, combo, now, how) <==> Ready(steps, n, combo, now, how)
  {
    var k := combo.code;
    if k < KEY_COUNT {
      assert Tells(slots[k], steps, n, k);
      hide AllTell, InFlight, HoldUsed, LastPress, LastRelease, IsDown, HeldAt;
    }
  }

  // --- Presses and releases ---

  /** What a press or release of another key leaves as it is. */
  lemma OtherKey(s: Slot, steps: seq<Step>, n: nat, k: nat)
    requires n < |steps| && Tells(s, steps, n, k) && !steps[n].Resolve? && steps[n].key != k
    ensures Tells(s, steps, n + 1, k)
  {
  }

  lemma PressTells(s: Slot, steps: seq<Step>, n: nat, k: nat)
    requires n < |steps| && Tells(s, steps, n, k) && steps[n].Press? && steps[n].key == k && steps[n].now > 0
    ensures Tells(Pressed(s, steps[n].now, steps[n].window, Wire(HeldAt(steps, n))), steps, n + 1, k)
  {
    hide HeldAt, Wire;
    var p := LastPress(steps, n, k);
    if p.Some? { WireIsHeld(HeldAt(steps, p.value), HeldAt(steps, n)); }
    var m, s' := n + 1, Pressed(s, steps[n].now, steps[n].window, Wire(HeldAt(steps, n)));
    assert IsDown(steps, m, k);
    assert LastRelease(steps, m, k) == LastRelease(steps, n, k);
    assert HoldUsed(steps, m, k) == HoldUsed(steps, n, k);
    if IsDown(steps, n, k) {
      assert LastPress(steps, m, k) == LastPress(steps, n, k);
      assert InFlight(steps, m, k) == InFlight(steps, n, k);
    } else {
      assert LastPress(steps, m, k) == Some(n);
      assert |InFlight(steps, m, k)| == s'.taps;
    }
  }

  lemma ReleaseTells(s: Slot, steps: seq<Step>, n: nat, k: nat)
    requires n < |steps| && Tells(s, steps, n, k) && steps[n].Release? && steps[n].key == k
    ensures Tells(Released(s, steps[n].now), steps, n + 1, k)
  {
    hide HeldAt, Wire;
    var m, s' := n + 1, Released(s, steps[n].now);
    assert !IsDown(steps, m, k);
    assert LastRelease(steps, m, k) == Some(n);
    assert LastPress(steps, m, k) == LastPress(steps, n, k);
    assert InFlight(steps, m, k) == InFlight(steps, n, k);
    assert !HoldUsed(steps, m, k);
  }

  // --- Resolves ---

  /** Binding `i` declines a gesture that shows: its modifiers are not the live ones. */
  predicate Declines(slots: seq<Slot>, b: Binding, live: nat, now: nat, how: Settings) {
    b.fn != NO_FUNCTION && Matches(slots, b.combo, now, how) && b.combo.mods != live
  }

  ghost predicate Declined(slots: seq<Slot>, bs: seq<Binding>, live: nat, now: nat, how: Settings, n: nat, k: nat)
    requires n <= |bs|
  {
    exists i :: 0 <= i < n && bs[i].combo.code == k && Declines(slots, bs[i], live, now, how)
  }

  ghost predicate HoldDeclined(slots: seq<Slot>, bs: seq<Binding>, live: nat, now: nat, how: Settings, n: nat, k: nat)
    requires n <= |bs|
  {
    exists i :: 0 <= i < n && bs[i].combo.code == k && bs[i].combo.mode == LONG_PRESS
                && Declines(slots, bs[i], live, now, how)
  }

  /** A slot whose taps, and perhaps whose hold, are gone. */
  function Used(s: Slot, taps: bool, hold: bool): Slot {
    s.(taps := if taps then 0 else s.taps, longFired := s.longFired || hold)
  }

  /** The second pass takes from every key what was declined, each gesture by the state before the pass. */
  lemma {:induction false} ExpiredIs(slots: seq<Slot>, bs: seq<Binding>, live: nat, now: nat, how: Settings, n: nat,
                                     k: nat)
    requires n <= |bs| && k < |slots|
    ensures Expired(slots, bs, live, now, how, n)[k]
            == Used(slots[k], Declined(slots, bs, live, now, how, n, k),
                    HoldDeclined(slots, bs, live, now, how, n, k))
    decreases n
  {
    if n > 0 {
      ExpiredIs(slots, bs, live, now, how, n - 1, k);
      var e, b := Expired(slots, bs, live, now, how, n - 1), bs[n - 1];
      var before, hold := Declined(slots, bs, live, now, how, n - 1, k),
                          HoldDeclined(slots, bs, live, now, how, n - 1, k);
      hide Expired;
      assert Declined(slots, bs, live, now, how, n, k)
             <==> before || (b.combo.code == k && Declines(slots, b, live, now, how));
      assert HoldDeclined(slots, bs, live, now, how, n, k)
             <==> hold || (b.combo.code == k && b.combo.mode == LONG_PRESS && Declines(slots, b, live, now, how));
    }
  }

  lemma AbleIffEligible(slots: seq<Slot>, steps: seq<Step>, n: nat, j: nat)
    requires n < |steps| && AllTell(slots, steps, n) && steps[n].Resolve? && j < |steps[n].bindings|
    ensures Able(steps, n, j) <==> Eligible(slots, steps[n].bindings[j], steps[n].now, steps[n].how)
  {
    ModifiersAgree(slots, steps, n);
    ShowsIffReady(slots, steps, n, steps[n].bindings[j].combo, steps[n].now, steps[n].how);
  }

  /** The first pass finds the binding that wins, if one does. */
  lemma BestWins(slots: seq<Slot>, steps: seq<Step>, n: nat, j: nat)
    requires n < |steps| && AllTell(slots, steps, n) && steps[n].Resolve? && j < |steps[n].bindings|
    ensures var bs := steps[n].bindings;
            Wins(steps, n, j) <==> Best(slots, bs, steps[n].now, steps[n].how, |bs|) == Some(j)
  {
    hide Able, Eligible, Best, AllTell;
    var bs := steps[n].bindings;
    BestIsMostSpecific(slots, bs, steps[n].now, steps[n].how, |bs|);
    forall m | 0 <= m < |bs| ensures Able(steps, n, m) <==> Eligible(slots, bs[m], steps[n].now, steps[n].how) {
      AbleIffEligible(slots, steps, n, m);
    }
  }

  lemma TakesIff(slots: seq<Slot>, steps: seq<Step>, n: nat, j: nat)
    requires n < |steps| && AllTell(slots, steps, n) && steps[n].Resolve? && j < |steps[n].bindings|
    ensures var bs, now, how := steps[n].bindings, steps[n].now, steps[n].how;
            Takes(steps, n, j)
            <==> Declines(slots, bs[j], LiveMods(slots), now, how) || Best(slots, bs, now, how, |bs|) == Some(j)
  {
    BestWins(slots, steps, n, j);
    AbleIffEligible(slots, steps, n, j);
    ModifiersAgree(slots, steps, n);
    ShowsIffReady(slots, steps, n, steps[n].bindings[j].combo, steps[n].now, steps[n].how);
    hide AllTell, Best, Matches, LiveMods, Modifiers, Ready;
  }

  lemma UsesIff(slots: seq<Slot>, steps: seq<Step>, n: nat, k: nat)
    requires n < |steps| && AllTell(slots, steps, n) && steps[n].Resolve?
    ensures var bs, live, now, how := steps[n].bindings, LiveMods(slots), steps[n].now, steps[n].how;
            var best := Best(slots, bs, now, how, |bs|);
            && (UsesTaps(steps, n, k) <==> Declined(slots, bs, live, now, how, |bs|, k)
                                           || (best.Some? && bs[best.value].combo.code == k))
            && (UsesHold(steps, n, k) <==> HoldDeclined(slots, bs, live, now, how, |bs|, k)
                                           || (best.Some? && bs[best.value].combo.code == k
                                               && bs[best.value].combo.mode == LONG_PRESS))
  {
    var bs, live, now, how := steps[n].bindings, LiveMods(slots), steps[n].now, steps[n].how;
    var best := Best(slots, bs, now, how, |bs|);
    forall j | 0 <= j < |bs|
      ensures Takes(steps, n, j) <==> Declines(slots, bs[j], live, now, how) || best == Some(j)
    {
      TakesIff(slots, steps, n, j);
    }
    hide Takes, Declines, AllTell, Best, LiveMods;
    if best.Some? { assert Takes(steps, n, best.value); }
  }

  lemma ResolvedIs(slots: seq<Slot>, steps: seq<Step>, n: nat, k: nat)
    requires n < |steps| && AllTell(slots, steps, n) && steps[n].Resolve? && k < KEY_COUNT
    ensures Resolved(slots, steps[n].bindings, steps[n].now, steps[n].how).0[k]
            == Used(slots[k], UsesTaps(steps, n, k), UsesHold(steps, n, k))
  {
    var bs, live, now, how := steps[n].bindings, LiveMods(slots), steps[n].now, steps[n].how;
    UsesIff(slots, steps, n, k);
    ExpiredIs(slots, bs, live, now, how, |bs|, k);
    hide UsesTaps, UsesHold, Declined, HoldDeclined, Expired, Best, LiveMods;
  }

  lemma ResolveTells(slots: seq<Slot>, steps: seq<Step>, n: nat, k: nat)
    requires n < |steps| && AllTell(slots, steps, n) && steps[n].Resolve? && k < KEY_COUNT
    ensures Tells(Resolved(slots, steps[n].bindings, steps[n].now, steps[n].how).0[k], steps, n + 1, k)
  {
    ResolvedIs(slots, steps, n, k);
    assert Tells(slots[k], steps, n, k);
    hide Resolved, UsesTaps, UsesHold, AllTell, HeldAt, Wire;
    var m := n + 1;
    assert InFlight(steps, m, k) == if UsesTaps(steps, n, k) then [] else InFlight(steps, n, k);
    assert HoldUsed(steps, m, k) <==> HoldUsed(steps, n, k) || UsesHold(steps, n, k);
  }

  // --- Whole runs ---

  lemma StepTells(s: State, steps: seq<Step>, n: nat)
    requires n < |steps| && AllTell(s.slots, steps, n) && Possible(s, steps[n])
    ensures AllTell(Do(s, steps[n]).slots, steps, n + 1)
  {
    var s' := Do(s, steps[n]);
    ModifiersAgree(s.slots, steps, n);
    forall k | 0 <= k < KEY_COUNT ensures Tells(s'.slots[k], steps, n + 1, k) {
      assert Tells(s.slots[k], steps, n, k);
      hide Tells, AllTell, WireMods, Pressed, Released, Resolved;
      match steps[n]
      case Press(key, _, _) =>
        if key == k { PressTells(s.slots[k], steps, n, k); } else { OtherKey(s.slots[k], steps, n, k); }
      case Release(key, _) =>
        if key == k { ReleaseTells(s.slots[k], steps, n, k); } else { OtherKey(s.slots[k], steps, n, k); }
      case Resolve(_, _, _) => ResolveTells(s.slots, steps, n, k);
    }
  }

  /** In every run the slots tell what happened to their keys. */
  lemma {:induction false} EveryRunTells(states: seq<State>, steps: seq<Step>, n: nat)
    requires IsRun(states, steps) && Initial(states[0]) && n < |states|
    ensures AllTell(states[n].slots, steps, n)
    decreases n
  {
    hide AllTell, Tells;
    if n == 0 {
      NothingHappened(states[0], steps);
    } else {
      EveryRunTells(states, steps, n - 1);
      StepTells(states[n - 1], steps, n - 1);
    }
  }

  lemma NothingHappened(s: State, steps: seq<Step>)
    requires Initial(s)
    ensures AllTell(s.slots, steps, 0)
  {
  }

  ghost function FiredAt(states: seq<State>, steps: seq<Step>, n: nat): Option<Combo>
    requires n < |states| && n < |steps| && steps[n].Resolve?
  {
    Resolved(states[n].slots, steps[n].bindings, steps[n].now, steps[n].how).1
  }

  lemma FiredIsBest(states: seq<State>, steps: seq<Step>, n: nat)
    requires n < |states| && n < |steps| && steps[n].Resolve?
    ensures var bs := steps[n].bindings;
            var best := Best(states[n].slots, bs, steps[n].now, steps[n].how, |bs|);
            FiredAt(states, steps, n) == if best.Some? then Some(bs[best.value].combo) else None
  {
    hide Best, Expired;
  }

  /** What a resolve fires in a run: the combo of the binding that wins by the events, and nothing if none may fire. */
  lemma FiresIffWins(states: seq<State>, steps: seq<Step>, n: nat)
    requires IsRun(states, steps) && Initial(states[0]) && n < |steps| && steps[n].Resolve?
    ensures var bs, fired := steps[n].bindings, FiredAt(states, steps, n);
            && (forall j :: 0 <= j < |bs| && Wins(steps, n, j) ==> fired == Some(bs[j].combo))
            && (fired.Some? ==> exists j :: 0 <= j < |bs| && Wins(steps, n, j))
            && (fired.None? <==> forall j :: 0 <= j < |bs| ==> !Able(steps, n, j))
  {
    hide *;
    RunLength(states, steps);
    var bs, slots := steps[n].bindings, states[n].slots;
    EveryRunTells(states, steps, n);
    FiredIsBest(states, steps, n);
    forall j | 0 <= j < |bs|
      ensures Wins(steps, n, j) <==> Best(slots, bs, steps[n].now, steps[n].how, |bs|) == Some(j)
      ensures Able(steps, n, j) <==> Eligible(slots, bs[j], steps[n].now, steps[n].how)
    {
      BestWins(slots, steps, n, j);
      AbleIffEligible(slots, steps, n, j);
    }
    BestIsMostSpecific(slots, bs, steps[n].now, steps[n].how, |bs|);
    var best := Best(slots, bs, steps[n].now, steps[n].how, |bs|);
    if best.Some? {
      assert Wins(steps, n, best.value);
      WinnerIsReady(steps, n, best.value);
      assert Able(steps, n, best.value);
    } else {
      assert forall j :: 0 <= j < |bs| ==> !Able(steps, n, j);
    }
  }

  lemma RunLength(states: seq<State>, steps: seq<Step>)
    requires IsRun(states, steps)
    ensures |states| == |steps| + 1
  {
  }

  /** A tap, double or triple that is there has settled: the window of the last press of its sequence has passed, and
      it is what the presses of the sequence count to. */
  ghost predicate Settled(steps: seq<Step>, n: nat, k: nat, mode: nat, now: nat)
    requires n <= |steps|
  {
    var flight := InFlight(steps, n, k);
    && flight != [] && (forall p :: p in flight ==> p < n && IsPress(steps, p, k))
    && WindowPassed(steps, flight[|flight| - 1], now)
    && mode == (if |flight| == 1 then TAP else if |flight| == 2 then DOUBLE_TAP else TRIPLE_TAP)
  }

  lemma ReadyIffSettled(steps: seq<Step>, n: nat, combo: Combo, now: nat, how: Settings)
    requires n <= |steps| && how.multiTap && combo.mode != LONG_PRESS
    ensures Ready(steps, n, combo, now, how)
            <==> combo.code < KEY_COUNT && Settled(steps, n, combo.code, combo.mode, now)
                 && (combo.mode == TAP ==> !IsDown(steps, n, combo.code))
  {
    var flight := InFlight(steps, n, combo.code);
    hide InFlight, IsPress, IsDown, WindowPassed;
  }

  lemma WinnerIsReady(steps: seq<Step>, n: nat, j: nat)
    requires n < |steps| && steps[n].Resolve? && j < |steps[n].bindings| && Wins(steps, n, j)
    ensures Able(steps, n, j) && Ready(steps, n, steps[n].bindings[j].combo, steps[n].now, steps[n].how)
  {
  }

  /** With several taps told apart, what fires for taps has settled: no tap, double or triple fires before the window
      of the last press of its sequence has passed, and it is a tap after one press, a double after two and a triple
      after three or more. */
  lemma TapsWait(states: seq<State>, steps: seq<Step>, n: nat)
    requires IsRun(states, steps) && Initial(states[0]) && n < |steps| && steps[n].Resolve? && steps[n].how.multiTap
    ensures var fired := FiredAt(states, steps, n);
            fired.Some? && fired.value.mode != LONG_PRESS ==>
              Settled(steps, n, fired.value.code, fired.value.mode, steps[n].now)
  {
    hide *;
    RunLength(states, steps);
    FiresIffWins(states, steps, n);
    if FiredAt(states, steps, n).Some? && FiredAt(states, steps, n).value.mode != LONG_PRESS {
      var j :| 0 <= j < |steps[n].bindings| && Wins(steps, n, j);
      WinnerIsReady(steps, n, j);
      ReadyIffSettled(steps, n, steps[n].bindings[j].combo, steps[n].now, steps[n].how);
    }
  }

  /** A sequence that has settled fires if a binding asks for it under the modifiers held, for a tap with the key let
      go, unless a more specific one or an earlier one of its kind fires instead. */
  lemma SettledFires(states: seq<State>, steps: seq<Step>, n: nat, j: nat)
    requires IsRun(states, steps) && Initial(states[0]) && n < |steps| && steps[n].Resolve? && steps[n].how.multiTap
    requires j < |steps[n].bindings| && steps[n].bindings[j].fn != NO_FUNCTION
    requires var combo := steps[n].bindings[j].combo;
             && combo.code < KEY_COUNT && combo.mods == Modifiers(steps, n) && combo.mode != LONG_PRESS
             && Settled(steps, n, combo.code, combo.mode, steps[n].now)
             && (combo.mode == TAP ==> !IsDown(steps, n, combo.code))
    ensures FiredAt(states, steps, n).Some?
    ensures Wins(steps, n, j) ==> FiredAt(states, steps, n) == Some(steps[n].bindings[j].combo)
    ensures !Wins(steps, n, j) ==>
              exists m :: 0 <= m < |steps[n].bindings| && Beats(steps, n, m, j)
                          && FiredAt(states, steps, n) == Some(steps[n].bindings[m].combo)
  {
    hide *;
    RunLength(states, steps);
    ReadyIffSettled(steps, n, steps[n].bindings[j].combo, steps[n].now, steps[n].how);
    IsAble(steps, n, j);
    FiresIffWins(states, steps, n);
    assert exists m :: 0 <= m < |steps[n].bindings| && Able(steps, n, m);
    var w :| 0 <= w < |steps[n].bindings| && Wins(steps, n, w);
    WinnerBeats(steps, n, w, j);
  }

  ghost predicate Beats(steps: seq<Step>, n: nat, m: nat, j: nat)
    requires n < |steps| && steps[n].Resolve? && m < |steps[n].bindings| && j < |steps[n].bindings|
  {
    var bs := steps[n].bindings;
    && Able(steps, n, m)
    && (bs[m].combo.mode > bs[j].combo.mode || (bs[m].combo.mode == bs[j].combo.mode && m < j))
  }

  lemma IsAble(steps: seq<Step>, n: nat, j: nat)
    requires n < |steps| && steps[n].Resolve? && j < |steps[n].bindings|
    requires steps[n].bindings[j].fn != NO_FUNCTION && steps[n].bindings[j].combo.mods == Modifiers(steps, n)
    requires Ready(steps, n, steps[n].bindings[j].combo, steps[n].now, steps[n].how)
    ensures Able(steps, n, j)
  {
  }

  lemma WinnerBeats(steps: seq<Step>, n: nat, w: nat, j: nat)
    requires n < |steps| && steps[n].Resolve? && w < |steps[n].bindings| && j < |steps[n].bindings|
    requires Wins(steps, n, w) && Able(steps, n, j)
    ensures w == j || Beats(steps, n, w, j)
  {
    hide Able;
  }
}
