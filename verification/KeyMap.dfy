/** The key and mouse button drivers and the per-frame gesture resolver over both. A combo's code below 32
    names a mouse button, any other a key. */
module KeyMap {
  import opened KeySlots
  import opened Options

  const FIRST_KEY: nat := 32
  const BUTTON_COUNT: nat := 16
  const NO_FUNCTION: int := 0

  /** A gesture of a key under exactly these modifiers; modes are ordered by how specific they are. */
  datatype Combo = Combo(code: nat, mode: nat, mods: nat)

  datatype Binding = Binding(combo: Combo, fn: int, userdata: int)

  datatype Settings = Settings(multiTap: bool, longNanos: nat)

  function Down(slots: seq<Slot>, code: nat): bool {
    code < |slots| && slots[code].pressTime != 0
  }

  /** The modifier nibbles of combos. */
  function LiveMods(slots: seq<Slot>): nat {
    (if Down(slots, 340) || Down(slots, 344) then 0x1 else 0)
    + (if Down(slots, 343) || Down(slots, 347) then 0x10 else 0)
    + (if Down(slots, 342) || Down(slots, 346) then 0x100 else 0)
    + (if Down(slots, 341) || Down(slots, 345) then 0x1000 else 0)
    + (if Down(slots, 349) then 0x1_0000 else 0)
  }

  /** The modifier bits of key events. */
  function WireMods(slots: seq<Slot>): nat {
    (if Down(slots, 340) || Down(slots, 344) then 1 else 0)
    + (if Down(slots, 341) || Down(slots, 345) then 2 else 0)
    + (if Down(slots, 342) || Down(slots, 346) then 4 else 0)
    + (if Down(slots, 343) || Down(slots, 347) then 8 else 0)
  }

  /** The slots by combo code: mouse buttons, codes without a button, and the keys from 32 on. What the
      keys below 32 do no combo sees. */
  function Table(buttons: seq<Slot>, keys: seq<Slot>): (slots: seq<Slot>)
    requires |buttons| <= FIRST_KEY <= |keys|
    ensures |slots| == |keys|
  {
    buttons + seq(FIRST_KEY - |buttons|, i => BLANK) + keys[FIRST_KEY..]
  }

  lemma ButtonInTable(buttons: seq<Slot>, keys: seq<Slot>, i: nat, slot: Slot)
    requires i < |buttons| <= FIRST_KEY <= |keys|
    ensures Table(buttons, keys)[i] == buttons[i] && Table(buttons[i := slot], keys) == Table(buttons, keys)[i := slot]
  {
  }

  lemma KeyInTable(buttons: seq<Slot>, keys: seq<Slot>, i: nat, slot: Slot)
    requires |buttons| <= FIRST_KEY <= i < |keys|
    ensures Table(buttons, keys)[i] == keys[i] && Table(buttons, keys[i := slot]) == Table(buttons, keys)[i := slot]
  {
  }

  /** A code without a button shows nothing. */
  lemma NoButton(buttons: seq<Slot>, keys: seq<Slot>, combo: Combo, now: nat, how: Settings)
    requires |buttons| <= FIRST_KEY <= |keys| && Matches(Table(buttons, keys), combo, now, how)
    ensures combo.code < |buttons| || FIRST_KEY <= combo.code < |keys|
  {
  }

  predicate Matches(slots: seq<Slot>, combo: Combo, now: nat, how: Settings) {
    combo.code < |slots| && Shows(slots[combo.code], combo.mode, now, how.multiTap, how.longNanos)
  }

  /** A binding that may fire: bound, under exactly the live modifiers, its gesture showing. */
  predicate Eligible(slots: seq<Slot>, b: Binding, now: nat, how: Settings) {
    b.fn != NO_FUNCTION && b.combo.mods == LiveMods(slots) && Matches(slots, b.combo, now, how)
  }

  // --- What a resolve picks ---

  /** The binding the first pass has chosen among the first `n`. */
  function Best(slots: seq<Slot>, bs: seq<Binding>, now: nat, how: Settings, n: nat): (r: Option<nat>)
    requires n <= |bs|
    ensures r.Some? ==> r.value < n
  {
    if n == 0 then None
    else
      var prior, b := Best(slots, bs, now, how, n - 1), bs[n - 1];
      if Eligible(slots, b, now, how) && (prior.None? || bs[prior.value].combo.mode < b.combo.mode)
      then Some(n - 1)
      else prior
  }

  /** It is eligible, none is more specific, and it is the first of its kind; nothing is chosen only if
      nothing is eligible. */
  lemma {:induction false} BestIsMostSpecific(slots: seq<Slot>, bs: seq<Binding>, now: nat, how: Settings, n: nat)
    requires n <= |bs|
    ensures var r := Best(slots, bs, now, how, n);
            && (r.None? <==> forall i :: 0 <= i < n ==> !Eligible(slots, bs[i], now, how))
            && (r.Some? ==> Eligible(slots, bs[r.value], now, how))
            && (r.Some? ==> forall i :: 0 <= i < n && Eligible(slots, bs[i], now, how) ==>
                  bs[i].combo.mode < bs[r.value].combo.mode
                  || (bs[i].combo.mode == bs[r.value].combo.mode && r.value <= i))
  {
    hide Eligible;
    if n > 0 { BestIsMostSpecific(slots, bs, now, how, n - 1); }
  }

  // --- What a resolve uses up ---

  function ConsumedAt(slots: seq<Slot>, combo: Combo): (r: seq<Slot>)
    ensures |r| == |slots|
  {
    if combo.code < |slots| then slots[combo.code := Consumed(slots[combo.code], combo.mode)] else slots
  }

  /** The slots after the second pass over the first `n` bindings: gestures declined on modifiers are gone. */
  function Expired(slots: seq<Slot>, bs: seq<Binding>, live: nat, now: nat, how: Settings, n: nat): (r: seq<Slot>)
    requires n <= |bs|
    ensures |r| == |slots|
  {
    if n == 0 then slots
    else
      var s, b := Expired(slots, bs, live, now, how, n - 1), bs[n - 1];
      if b.fn != NO_FUNCTION && Matches(s, b.combo, now, how) && b.combo.mods != live then ConsumedAt(s, b.combo) else s
  }

  function Resolved(slots: seq<Slot>, bs: seq<Binding>, now: nat, how: Settings): (seq<Slot>, Option<Combo>) {
    var s := Expired(slots, bs, LiveMods(slots), now, how, |bs|);
    match Best(slots, bs, now, how, |bs|)
    case None => (s, None)
    case Some(i) => (ConsumedAt(s, bs[i].combo), Some(bs[i].combo))
  }

  // --- Whole runs ---

  /** The driver and the account of every key. */
  datatype State = State(slots: seq<Slot>, tallies: seq<Tally>)

  datatype Step =
    | Press(key: nat, now: nat, window: nat)
    | Release(key: nat, now: nat)
    | Resolve(bindings: seq<Binding>, now: nat, how: Settings)

  predicate Possible(s: State, step: Step) {
    && |s.slots| == |s.tallies| == KEY_COUNT
    && (!step.Resolve? ==> step.key < KEY_COUNT) && (step.Press? ==> step.now > 0)
  }

  function Do(s: State, step: Step): State
    requires Possible(s, step)
  {
    match step
    case Press(key, now, window) =>
      s.(slots := s.slots[key := Pressed(s.slots[key], now, window, WireMods(s.slots))],
         tallies := if s.slots[key].pressTime != 0 then s.tallies else s.tallies[key := Counted(s.tallies[key])])
    case Release(key, now) => s.(slots := s.slots[key := Released(s.slots[key], now)])
    case Resolve(bindings, now, how) =>
      var (slots, fired) := Resolved(s.slots, bindings, now, how);
      match fired
      case None => s.(slots := slots)
      case Some(combo) =>
        s.(slots := slots,
           tallies := if combo.code < KEY_COUNT then s.tallies[combo.code := Fired(s.tallies[combo.code], combo.mode)]
                      else s.tallies)
  }

  predicate Lawful(s: State) {
    |s.slots| == |s.tallies| == KEY_COUNT && forall k :: 0 <= k < KEY_COUNT ==> Law(s.slots[k], s.tallies[k])
  }

  lemma {:induction false} ExpiryKeeps(slots: seq<Slot>, tallies: seq<Tally>, bs: seq<Binding>, live: nat, now: nat,
                                       how: Settings, n: nat)
    requires n <= |bs| && Lawful(State(slots, tallies))
    ensures Lawful(State(Expired(slots, bs, live, now, how, n), tallies))
    ensures forall k :: 0 <= k < KEY_COUNT ==> Expired(slots, bs, live, now, how, n)[k].pressTime == slots[k].pressTime
  {
    hide Matches, Law;
    if n > 0 {
      ExpiryKeeps(slots, tallies, bs, live, now, how, n - 1);
      var s, combo := Expired(slots, bs, live, now, how, n - 1), bs[n - 1].combo;
      if combo.code < KEY_COUNT { ConsumeKeeps(s[combo.code], tallies[combo.code], combo.mode); }
    }
  }

  /** What fires is paid for: its taps by presses not spent before, none of them before a press whose hold
      has fired; a hold by a press whose hold has not fired. */
  predicate Paid(t: Tally, mode: nat) {
    && t.spent + Weight(mode) <= t.presses
    && (mode == LONG_PRESS ==> t.held < t.presses)
    && (mode != LONG_PRESS ==> t.held <= t.settled < t.presses)
  }

  lemma ResolveKeeps(s: State, bs: seq<Binding>, now: nat, how: Settings)
    requires Lawful(s)
    ensures Lawful(Do(s, Resolve(bs, now, how)))
    ensures var fired := Resolved(s.slots, bs, now, how).1;
            fired.Some? ==>
              fired.value.code < KEY_COUNT && fired.value.mods == LiveMods(s.slots)
              && Paid(s.tallies[fired.value.code], fired.value.mode)
  {
    hide Law, Shows, LiveMods, Consumed, Fired, Weight;
    var live, n := LiveMods(s.slots), |bs|;
    var expired := Expired(s.slots, bs, live, now, how, n);
    ExpiryKeeps(s.slots, s.tallies, bs, live, now, how, n);
    BestIsMostSpecific(s.slots, bs, now, how, n);
    hide Best, Expired;
    match Best(s.slots, bs, now, how, n)
    case None =>
    case Some(i) =>
      var c := bs[i].combo;
      FirePays(s.slots[c.code], expired[c.code], s.tallies[c.code], c.mode, now, how.multiTap, how.longNanos);
  }

  lemma StepKeeps(s: State, step: Step)
    requires Lawful(s) && Possible(s, step)
    ensures Lawful(Do(s, step))
  {
    match step
    case Press(key, now, window) =>
      hide WireMods;
      if s.slots[key].pressTime == 0 { PressKeeps(s.slots[key], s.tallies[key], now, window, WireMods(s.slots)); }
    case Release(_, _) =>
    case Resolve(bs, now, how) => ResolveKeeps(s, bs, now, how);
  }

  ghost predicate IsRun(states: seq<State>, steps: seq<Step>) {
    && |states| == |steps| + 1
    && forall i :: 0 <= i < |steps| ==> Possible(states[i], steps[i]) && states[i + 1] == Do(states[i], steps[i])
  }

  ghost predicate Initial(s: State) {
    && |s.slots| == |s.tallies| == KEY_COUNT
    && forall k :: 0 <= k < KEY_COUNT ==> s.slots[k] == BLANK && s.tallies[k] == Tally(0, 0, 0, 0)
  }

  lemma {:induction false} RunKeeps(states: seq<State>, steps: seq<Step>, n: nat)
    requires IsRun(states, steps) && Initial(states[0]) && n < |states|
    ensures Lawful(states[n])
  {
    if n > 0 {
      hide Lawful;
      RunKeeps(states, steps, n - 1);
      StepKeeps(states[n - 1], steps[n - 1]);
    }
  }

  /** In every run, for every key: fired taps, doubles and triples never outweigh its presses; and whatever
      a resolve fires is paid for. */
  lemma EveryRunIsPaid(states: seq<State>, steps: seq<Step>, n: nat)
    requires IsRun(states, steps) && Initial(states[0]) && n < |states|
    ensures |states[n].tallies| == KEY_COUNT && forall k :: 0 <= k < KEY_COUNT ==>
              states[n].tallies[k].spent <= states[n].tallies[k].presses
    ensures n < |steps| && steps[n].Resolve? ==>
              var fired := Resolved(states[n].slots, steps[n].bindings, steps[n].now, steps[n].how).1;
              fired.Some? ==>
                fired.value.code < KEY_COUNT && Paid(states[n].tallies[fired.value.code], fired.value.mode)
  {
    hide Resolved;
    RunKeeps(states, steps, n);
    if n < |steps| && steps[n].Resolve? { ResolveKeeps(states[n], steps[n].bindings, steps[n].now, steps[n].how); }
  }

  /** A step fires this gesture of this key. */
  predicate Fires(s: State, step: Step, key: nat, mode: nat) {
    && step.Resolve?
    && var fired := Resolved(s.slots, step.bindings, step.now, step.how).1;
       fired.Some? && fired.value.code == key && fired.value.mode == mode
  }

  predicate NoLess(t: Tally, u: Tally) {
    t.presses <= u.presses && t.spent <= u.spent && t.settled <= u.settled && t.held <= u.held
  }

  lemma StepGrows(s: State, step: Step, key: nat)
    requires Lawful(s) && Possible(s, step) && key < KEY_COUNT
    ensures |Do(s, step).tallies| == KEY_COUNT && NoLess(s.tallies[key], Do(s, step).tallies[key])
  {
    hide Resolved, Pressed, Released, WireMods;
    assert Law(s.slots[key], s.tallies[key]);
    match step
    case Press(_, _, _) =>
    case Release(_, _) =>
    case Resolve(bs, now, how) =>
      var fired := Resolved(s.slots, bs, now, how).1;
      assert fired.Some? && fired.value.code == key ==>
               Do(s, step).tallies[key] == Fired(s.tallies[key], fired.value.mode);
      assert fired.None? || fired.value.code != key ==> Do(s, step).tallies[key] == s.tallies[key];
  }

  /** The account never goes back. */
  lemma {:induction false} TallyGrows(states: seq<State>, steps: seq<Step>, m: nat, n: nat, key: nat)
    requires IsRun(states, steps) && Initial(states[0]) && m <= n < |states| && key < KEY_COUNT
    ensures |states[m].tallies| == |states[n].tallies| == KEY_COUNT
            && NoLess(states[m].tallies[key], states[n].tallies[key])
    decreases n
  {
    hide Law, Do;
    RunKeeps(states, steps, m);
    if m < n {
      TallyGrows(states, steps, m, n - 1, key);
      RunKeeps(states, steps, n - 1);
      StepGrows(states[n - 1], steps[n - 1], key);
    }
  }

  /** Two holds of a key fire for different presses, and a tap, double or triple that fires after a hold
      needs a press after the one that was held. */
  lemma HoldFiresOnce(states: seq<State>, steps: seq<Step>, m: nat, n: nat, key: nat, mode: nat)
    requires IsRun(states, steps) && Initial(states[0]) && m < n < |steps| && key < KEY_COUNT
    requires Fires(states[m], steps[m], key, LONG_PRESS) && Fires(states[n], steps[n], key, mode)
    ensures |states[m].tallies| == |states[n].tallies| == KEY_COUNT
    ensures states[m].tallies[key].presses < states[n].tallies[key].presses
  {
    hide Resolved;
    var next := m + 1;
    TallyGrows(states, steps, m, n, key);
    TallyGrows(states, steps, next, n, key);
    assert states[next] == Do(states[m], steps[m]);
    EveryRunIsPaid(states, steps, n);
  }

  lemma SameMods(buttons: seq<Slot>, keys: seq<Slot>)
    requires |buttons| <= FIRST_KEY && |keys| == KEY_COUNT
    ensures LiveMods(Table(buttons, keys)) == LiveMods(keys) && WireMods(Table(buttons, keys)) == WireMods(keys)
  {
    forall i | FIRST_KEY <= i < KEY_COUNT ensures Table(buttons, keys)[i] == keys[i] {
      KeyInTable(buttons, keys, i, keys[i]);
    }
    hide Table;
  }

  // --- The drivers and the map ---

  datatype Action = Up | DownAction | Repeat

  /** Updates a slot on an event and says what is queued for listeners. */
  method UpdateSlot(slots: array<Slot>, i: nat, action: Action, now: nat, window: nat, mods: nat)
    returns (queued: Action)
    requires i < slots.Length
    modifies slots
    ensures action == DownAction ==>
              && slots[..] == old(slots[..])[i := Pressed(old(slots[i]), now, window, mods)]
              && queued == (if old(slots[i]).pressTime != 0 then Repeat else DownAction)
    ensures action == Up ==> slots[..] == old(slots[..])[i := Released(old(slots[i]), now)] && queued == Up
    ensures action == Repeat ==> slots[..] == old(slots[..]) && queued == Repeat
  {
    ghost var before := slots[..];
    var s := slots[i];
    if action == DownAction {
      if s.pressTime != 0 {
        assert slots[..] == before[i := s];
        return Repeat;
      }
      var taps := 1;
      if s.lastReleaseTime != 0 && s.lastReleaseTime <= now && now - s.lastReleaseTime < window
         && s.lastTapMods == mods {
        taps := s.taps + 1;
      }
      slots[i] := s.(taps := taps, lastTapMods := mods, pendingUntil := now + window, pressTime := now);
    } else if action == Up {
      var hold := s.lastHold;
      if s.pressTime != 0 && s.pressTime <= now { hold := now - s.pressTime; }
      slots[i] := s.(lastHold := hold, lastReleaseTime := now, pressTime := 0, longFired := false);
    }
    queued := action;
  }

  class Keyboard {
    const slots: array<Slot>

    constructor ()
      ensures fresh(slots) && slots.Length == KEY_COUNT && forall k :: 0 <= k < KEY_COUNT ==> slots[k] == BLANK
    {
      slots := new Slot[KEY_COUNT](_ => BLANK);
    }

    /** Updates the key's slot and says what is queued for listeners; nothing for a key out of range. */
    method PushEvent(key: int, action: Action, now: nat, window: nat) returns (queued: Option<Action>)
      requires slots.Length == KEY_COUNT
      modifies slots
      ensures !(0 <= key < KEY_COUNT) ==> queued == None && slots[..] == old(slots[..])
      ensures 0 <= key < KEY_COUNT && action == DownAction ==>
                && slots[..] == old(slots[..])[key := Pressed(old(slots[key]), now, window, WireMods(old(slots[..])))]
                && queued == Some(if old(slots[key]).pressTime != 0 then Repeat else DownAction)
      ensures 0 <= key < KEY_COUNT && action == Up ==>
                slots[..] == old(slots[..])[key := Released(old(slots[key]), now)] && queued == Some(Up)
      ensures 0 <= key < KEY_COUNT && action == Repeat ==> slots[..] == old(slots[..]) && queued == Some(Repeat)
    {
      hide WireMods;
      if key < 0 || key >= KEY_COUNT { return None; }
      var mods := WireMods(slots[..]);
      var q := UpdateSlot(slots, key, action, now, window, mods);
      queued := Some(q);
    }
  }

  class Mouse {
    const slots: array<Slot>

    constructor ()
      ensures fresh(slots) && slots.Length == BUTTON_COUNT && forall k :: 0 <= k < BUTTON_COUNT ==> slots[k] == BLANK
    {
      slots := new Slot[BUTTON_COUNT](_ => BLANK);
    }

    /** As for a key; the modifiers are those held on the keyboard. */
    method PushEvent(keys: Keyboard, button: int, action: Action, now: nat, window: nat)
      returns (queued: Option<Action>)
      requires slots.Length == BUTTON_COUNT && keys.slots != slots
      modifies slots
      ensures !(0 <= button < BUTTON_COUNT) ==> queued == None && slots[..] == old(slots[..])
      ensures 0 <= button < BUTTON_COUNT && action == DownAction ==>
                && slots[..] == old(slots[..])[button := Pressed(old(slots[button]), now, window,
                                                                 WireMods(keys.slots[..]))]
                && queued == Some(if old(slots[button]).pressTime != 0 then Repeat else DownAction)
      ensures 0 <= button < BUTTON_COUNT && action == Up ==>
                slots[..] == old(slots[..])[button := Released(old(slots[button]), now)] && queued == Some(Up)
      ensures 0 <= button < BUTTON_COUNT && action == Repeat ==> slots[..] == old(slots[..]) && queued == Some(Repeat)
    {
      hide WireMods;
      if button < 0 || button >= BUTTON_COUNT { return None; }
      var mods := WireMods(keys.slots[..]);
      var q := UpdateSlot(slots, button, action, now, window, mods);
      queued := Some(q);
    }
  }

  /** Uses up a gesture in the driver its code names. */
  method ConsumeGesture(mouse: Mouse, keys: Keyboard, combo: Combo)
    requires mouse.slots.Length == BUTTON_COUNT && keys.slots.Length == KEY_COUNT && mouse.slots != keys.slots
    modifies mouse.slots, keys.slots
    ensures combo.code < BUTTON_COUNT || FIRST_KEY <= combo.code < KEY_COUNT ==>
              Table(mouse.slots[..], keys.slots[..]) == ConsumedAt(old(Table(mouse.slots[..], keys.slots[..])), combo)
    ensures BUTTON_COUNT <= combo.code < FIRST_KEY || combo.code >= KEY_COUNT ==>
              Table(mouse.slots[..], keys.slots[..]) == old(Table(mouse.slots[..], keys.slots[..]))
  {
    hide Table;
    ghost var buttons, held := mouse.slots[..], keys.slots[..];
    if combo.code < FIRST_KEY {
      if combo.code < BUTTON_COUNT {
        UseUp(mouse.slots, combo.code, combo.mode);
        ButtonInTable(buttons, held, combo.code, mouse.slots[combo.code]);
      }
    } else if combo.code < KEY_COUNT {
      UseUp(keys.slots, combo.code, combo.mode);
      KeyInTable(buttons, held, combo.code, keys.slots[combo.code]);
    }
  }

  method UseUp(slots: array<Slot>, i: nat, mode: nat)
    requires i < slots.Length
    modifies slots
    ensures slots[..] == old(slots[..])[i := Consumed(old(slots[i]), mode)]
  {
    if mode == LONG_PRESS { slots[i] := slots[i].(longFired := true); }
    slots[i] := slots[i].(taps := 0);
  }

  class Map {
    var bindings: seq<Binding>
    var how: Settings

    /** Picks the most specific binding, lets gestures declined on modifiers expire, and uses up what fires. */
    method Resolve(mouse: Mouse, keys: Keyboard, now: nat) returns (fired: Option<Combo>)
      requires mouse.slots.Length == BUTTON_COUNT && keys.slots.Length == KEY_COUNT && mouse.slots != keys.slots
      modifies mouse.slots, keys.slots
      ensures (Table(mouse.slots[..], keys.slots[..]), fired)
              == Resolved(old(Table(mouse.slots[..], keys.slots[..])), bindings, now, how)
    {
      hide Matches, LiveMods, ConsumedAt, Table;
      ghost var start := Table(mouse.slots[..], keys.slots[..]);
      ghost var buttons, held := mouse.slots[..], keys.slots[..];
      var live := LiveMods(keys.slots[..]);
      SameMods(mouse.slots[..], keys.slots[..]);
      var best: Option<nat> := None;
      var i := 0;
      while i < |bindings|
        invariant i <= |bindings| && mouse.slots[..] == buttons && keys.slots[..] == held
                  && best == Best(start, bindings, now, how, i)
        invariant best.Some? ==> Matches(start, bindings[best.value].combo, now, how)
      {
        var b := bindings[i];
        if b.fn != NO_FUNCTION && (best.None? || b.combo.mode > bindings[best.value].combo.mode)
           && b.combo.mods == live && Matches(Table(mouse.slots[..], keys.slots[..]), b.combo, now, how) {
          best := Some(i);
        }
        i := i + 1;
      }
      i := 0;
      while i < |bindings|
        invariant i <= |bindings| && Table(mouse.slots[..], keys.slots[..])
                  == Expired(start, bindings, live, now, how, i)
      {
        var b := bindings[i];
        if b.fn != NO_FUNCTION && Matches(Table(mouse.slots[..], keys.slots[..]), b.combo, now, how)
           && b.combo.mods != live {
          NoButton(mouse.slots[..], keys.slots[..], b.combo, now, how);
          ConsumeGesture(mouse, keys, b.combo);
        }
        i := i + 1;
      }
      if best.None? { return None; }
      NoButton(buttons, held, bindings[best.value].combo, now, how);
      ConsumeGesture(mouse, keys, bindings[best.value].combo);
      fired := Some(bindings[best.value].combo);
    }

    /** A binding of the same combo and function gets the new data; else it is appended. */
    method Bind(combo: Combo, fn: int, userdata: int) returns (ok: bool)
      modifies this`bindings
      ensures ok == (fn != NO_FUNCTION)
      ensures !ok ==> bindings == old(bindings)
      ensures ok && (forall i :: 0 <= i < |old(bindings)| ==>
                       old(bindings)[i].combo != combo || old(bindings)[i].fn != fn) ==>
                bindings == old(bindings) + [Binding(combo, fn, userdata)]
      ensures ok && (exists i ::
                       0 <= i < |old(bindings)| && old(bindings)[i].combo == combo && old(bindings)[i].fn == fn) ==>
                && |bindings| == |old(bindings)|
                && exists i ::
                     && 0 <= i < |bindings| && bindings == old(bindings)[i := Binding(combo, fn, userdata)]
                     && old(bindings)[i].combo == combo && old(bindings)[i].fn == fn
                     && forall j :: 0 <= j < i ==> old(bindings)[j].combo != combo || old(bindings)[j].fn != fn
    {
      if fn == NO_FUNCTION { return false; }
      var i := 0;
      while i < |bindings|
        invariant i <= |bindings| && bindings == old(bindings)
        invariant forall j :: 0 <= j < i ==> bindings[j].combo != combo || bindings[j].fn != fn
      {
        if bindings[i].combo == combo && bindings[i].fn == fn {
          bindings := bindings[i := bindings[i].(userdata := userdata)];
          return true;
        }
        i := i + 1;
      }
      bindings := bindings + [Binding(combo, fn, userdata)];
      ok := true;
    }
  }
}
