/** Per-key state behind tap and hold gestures, and the account that ties gestures to presses. */
module KeySlots {

  const KEY_COUNT: nat := 512

  const TAP: nat := 0
  const DOUBLE_TAP: nat := 1
  const TRIPLE_TAP: nat := 2
  const LONG_PRESS: nat := 3

  /** Times are 0 for never and not down; the clock is positive. */
  datatype Slot = Slot(pressTime: nat, lastReleaseTime: nat, pendingUntil: nat, lastHold: nat, taps: nat,
                       lastTapMods: nat, longFired: bool)

  const BLANK := Slot(0, 0, 0, 0, 0, 0, false)

  datatype Phase = NoTap | Pending | Single | Double | Triple

  // --- What events do to a slot ---

  /** A press: a repeat if the key is down, else one more tap of the sequence or the first of a new one. */
  function Pressed(s: Slot, now: nat, window: nat, mods: nat): Slot {
    if s.pressTime != 0 then s
    else
      var goesOn := s.lastReleaseTime != 0 && s.lastReleaseTime <= now < s.lastReleaseTime + window
                    && s.lastTapMods == mods;
      s.(taps := if goesOn then s.taps + 1 else 1, lastTapMods := mods, pendingUntil := now + window, pressTime := now)
  }

  function Released(s: Slot, now: nat): Slot {
    s.(lastHold := if s.pressTime != 0 && s.pressTime <= now then now - s.pressTime else s.lastHold,
       lastReleaseTime := now, pressTime := 0, longFired := false)
  }

  function PhaseOf(s: Slot, now: nat): Phase {
    if s.taps == 0 then NoTap
    else if now < s.pendingUntil then Pending
    else if s.taps >= 3 then Triple
    else if s.taps == 2 then Double
    else Single
  }

  /** Whether a slot shows a gesture: taps once they have settled, or at once in rhythm mode; a hold once
      per press. */
  function Shows(s: Slot, mode: nat, now: nat, multiTap: bool, longNanos: nat): bool {
    if mode == LONG_PRESS
    then longNanos != 0 && s.pressTime != 0 && s.pressTime <= now && now - s.pressTime >= longNanos && !s.longFired
    else if !multiTap then mode == TAP && s.taps > 0 && s.pressTime == 0
    else
      match PhaseOf(s, now)
      case Single => mode == TAP && s.pressTime == 0
      case Double => mode == DOUBLE_TAP
      case Triple => mode == TRIPLE_TAP
      case _ => false
  }

  /** A gesture used up: no taps left, and a hold latched. */
  function Consumed(s: Slot, mode: nat): Slot {
    s.(taps := 0, longFired := s.longFired || mode == LONG_PRESS)
  }

  // --- The account ---

  /** `presses` numbers the non-repeat presses; `spent` of them went into fired taps; `settled` and
      `held` are the presses up to which taps and holds have fired. */
  datatype Tally = Tally(presses: nat, spent: nat, settled: nat, held: nat)

  function Weight(mode: nat): nat {
    if mode == TAP then 1 else if mode == DOUBLE_TAP then 2 else if mode == TRIPLE_TAP then 3 else 0
  }

  function Counted(t: Tally): Tally {
    t.(presses := t.presses + 1)
  }

  function Fired(t: Tally, mode: nat): Tally {
    t.(spent := t.spent + Weight(mode), settled := t.presses, held := if mode == LONG_PRESS then t.presses else t.held)
  }

  /** Taps in flight are paid by presses nothing has fired for yet, and an unlatched key that is down has
      not fired its hold. */
  predicate Law(s: Slot, t: Tally) {
    && t.spent + s.taps <= t.presses && t.settled + s.taps <= t.presses && t.held <= t.settled
    && (s.pressTime != 0 && !s.longFired ==> t.held < t.presses)
  }

  lemma PressKeeps(s: Slot, t: Tally, now: nat, window: nat, mods: nat)
    requires Law(s, t) && now > 0 && s.pressTime == 0
    ensures Law(Pressed(s, now, window, mods), Counted(t))
  {
  }

  lemma ConsumeKeeps(s: Slot, t: Tally, mode: nat)
    requires Law(s, t)
    ensures Law(Consumed(s, mode), t)
  {
  }

  /** A gesture that shows is paid for: its taps by presses not spent before, its hold by the press that
      is down; firing it keeps the account, even after other gestures of the key have expired. */
  lemma FirePays(s: Slot, later: Slot, t: Tally, mode: nat, now: nat, multiTap: bool, longNanos: nat)
    requires Law(s, t) && Shows(s, mode, now, multiTap, longNanos)
    requires Law(later, t) && later.pressTime == s.pressTime
    ensures t.spent + Weight(mode) <= t.presses
    ensures mode == LONG_PRESS ==> t.held < t.presses
    ensures mode != LONG_PRESS ==> t.held <= t.settled < t.presses
    ensures Law(Consumed(later, mode), Fired(t, mode))
  {
  }
}
