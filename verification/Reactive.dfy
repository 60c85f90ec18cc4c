/** The coalescing cell: any thread stores a word and then raises the dirty flag, as two steps; one owner
    drains, and its callbacks may store but do not drain. */
module Reactive {

  type Word = int
  type Call = int

  /** A store between its two writes, or none. */
  datatype Store = Idle | Written

  /** The owner's drain: before the load, or with the word it loaded. */
  datatype Drain = Resting | Consumed | Loaded(word: Word)

  datatype Change = Change(from: Word, now: Word)

  /** `raised` counts flag writes, `batches` drains that found the flag, `changes` what observers of
      changes were told, `sets` what observers of every batch were told. */
  datatype State = State(value: Word, dirty: bool, shadow: Word, stores: map<Call, Store>, drain: Drain,
                         raised: nat, batches: nat, changes: seq<Change>, sets: seq<Word>)

  datatype Step = Write(c: Call, word: Word) | Raise(c: Call) | Exchange | Load | Latch

  predicate Enabled(s: State, step: Step) {
    match step
    case Write(c, _) => c in s.stores && s.stores[c] == Idle
    case Raise(c) => c in s.stores && s.stores[c] == Written
    case Exchange => s.drain == Resting
    case Load => s.drain == Consumed
    case Latch => s.drain.Loaded?
  }

  function Do(s: State, step: Step): State
    requires Enabled(s, step)
  {
    match step
    case Write(c, word) => s.(value := word, stores := s.stores[c := Written])
    case Raise(c) => s.(dirty := true, stores := s.stores[c := Idle], raised := s.raised + 1)
    case Exchange => if s.dirty then s.(dirty := false, drain := Consumed, batches := s.batches + 1) else s
    case Load => s.(drain := Loaded(s.value), sets := s.sets + [s.value])
    case Latch =>
      var word := s.drain.word;
      if word == s.shadow then s.(drain := Resting)
      else s.(drain := Resting, shadow := word, changes := s.changes + [Change(s.shadow, word)])
  }

  // --- The invariant ---

  /** Somebody will still see to it that the owner looks again. */
  ghost predicate Due(s: State) {
    s.dirty || exists c :: c in s.stores && s.stores[c] == Written
  }

  /** Each change starts where the last one ended, and is one. */
  predicate Chain(changes: seq<Change>, initial: Word, last: Word) {
    if changes == [] then last == initial
    else
      var c := changes[|changes| - 1];
      c.now == last && c.from != c.now && Chain(changes[..|changes| - 1], initial, c.from)
  }

  ghost predicate Inv(s: State, initial: Word) {
    && Chain(s.changes, initial, s.shadow)
    && s.batches + (if s.dirty then 1 else 0) <= s.raised
    && (match s.drain
        case Resting => s.value == s.shadow || Due(s)
        case Consumed => true
        case Loaded(word) => s.value == word || Due(s))
    && |s.sets| == s.batches - (if s.drain == Consumed then 1 else 0)
  }

  lemma ChainGrows(changes: seq<Change>, initial: Word, last: Word, word: Word)
    requires Chain(changes, initial, last) && word != last
    ensures Chain(changes + [Change(last, word)], initial, word)
  {
    assert (changes + [Change(last, word)])[..|changes|] == changes;
  }

  lemma StepKeeps(s: State, step: Step, initial: Word)
    requires Inv(s, initial) && Enabled(s, step)
    ensures Inv(Do(s, step), initial)
  {
    var s' := Do(s, step);
    match step
    case Write(c, _) => assert c in s'.stores && s'.stores[c] == Written;
    case Raise(c) =>
    case Exchange =>
    case Load =>
    case Latch =>
      if s.drain.word != s.shadow { ChainGrows(s.changes, initial, s.shadow, s.drain.word); }
  }

  // --- Whole runs ---

  ghost predicate Initial(s: State, initial: Word) {
    && s.value == initial && s.shadow == initial && !s.dirty && s.drain == Resting
    && (forall c :: c in s.stores ==> s.stores[c] == Idle)
    && s.raised == 0 && s.batches == 0 && s.changes == [] && s.sets == []
  }

  ghost predicate IsRun(states: seq<State>, steps: seq<Step>) {
    && |states| == |steps| + 1
    && forall i :: 0 <= i < |steps| ==> Enabled(states[i], steps[i]) && states[i + 1] == Do(states[i], steps[i])
  }

  lemma {:induction false} RunKeeps(states: seq<State>, steps: seq<Step>, initial: Word, n: nat)
    requires IsRun(states, steps) && Initial(states[0], initial) && n < |states|
    ensures Inv(states[n], initial)
  {
    if n > 0 {
      hide Inv;
      RunKeeps(states, steps, initial, n - 1);
      StepKeeps(states[n - 1], steps[n - 1], initial);
    }
  }

  lemma {:induction false} ChainLinks(changes: seq<Change>, initial: Word, last: Word, i: nat)
    requires Chain(changes, initial, last) && i < |changes|
    ensures changes[i].from != changes[i].now
    ensures changes[i].from == if i == 0 then initial else changes[i - 1].now
    ensures i == |changes| - 1 ==> changes[i].now == last
    decreases |changes|
  {
    var init := changes[..|changes| - 1];
    if i < |init| {
      ChainLinks(init, initial, changes[|changes| - 1].from, i);
    } else if i > 0 {
      ChainLinks(init, initial, changes[|changes| - 1].from, i - 1);
    }
  }

  /** In every interleaving: reported changes lead from the initial word step by step to the shadow, none
      of them idle; there are no more batches than stores; and once the flag is down with no store and no
      drain under way, the owner has seen the last word written. */
  lemma EveryRunSettles(states: seq<State>, steps: seq<Step>, initial: Word, n: nat)
    requires IsRun(states, steps) && Initial(states[0], initial) && n < |states|
    ensures var s := states[n];
            && Chain(s.changes, initial, s.shadow) && s.batches <= s.raised && |s.sets| <= s.batches
    ensures var s := states[n];
            !s.dirty && s.drain == Resting && (forall c :: c in s.stores ==> s.stores[c] == Idle) ==>
              s.shadow == s.value
  {
    RunKeeps(states, steps, initial, n);
  }

  /** A drain that has found the flag waits for its load, whatever is stored meanwhile. */
  lemma {:induction false} LoadWaits(states: seq<State>, steps: seq<Step>, i: nat, j: nat)
    requires IsRun(states, steps) && i <= j < |states| && states[i].drain == Consumed
    requires forall m :: i <= m < j ==> steps[m] != Load
    ensures states[j].drain == Consumed && states[j].shadow == states[i].shadow
            && states[j].sets == states[i].sets && states[j].changes == states[i].changes
    decreases j
  {
    if i < j { LoadWaits(states, steps, i, j - 1); }
  }

  /** A drain that has loaded a word keeps it until it latches it. */
  lemma {:induction false} LatchWaits(states: seq<State>, steps: seq<Step>, i: nat, j: nat)
    requires IsRun(states, steps) && i <= j < |states| && states[i].drain.Loaded?
    requires forall m :: i <= m < j ==> steps[m] != Latch
    ensures states[j].drain == states[i].drain && states[j].shadow == states[i].shadow
            && states[j].sets == states[i].sets && states[j].changes == states[i].changes
    decreases j
  {
    if i < j { LatchWaits(states, steps, i, j - 1); }
  }

  /** A drain that finds the flag lowers it and delivers, whatever is stored between its steps: observers of every batch
      are told the word it loads, and observers of changes exactly if it is another word than the last they saw. */
  lemma DrainDelivers(states: seq<State>, steps: seq<Step>, i: nat, j: nat, k: nat)
    requires IsRun(states, steps) && i < j < k < |steps|
    requires steps[i] == Exchange && states[i].dirty && steps[j] == Load && steps[k] == Latch
    requires (forall m :: i < m < j ==> steps[m] != Load) && (forall m :: j < m < k ==> steps[m] != Latch)
    ensures var before, word, after := states[i], states[j].value, states[k + 1];
            && !states[i + 1].dirty && states[i + 1].batches == before.batches + 1
            && after.sets == before.sets + [word] && after.shadow == word && after.drain == Resting
            && after.changes == before.changes + (if word == before.shadow then [] else [Change(before.shadow, word)])
  {
    var m, n := i + 1, j + 1;
    assert states[m] == Do(states[i], steps[i]);
    LoadWaits(states, steps, m, j);
    assert states[n] == Do(states[j], steps[j]);
    LatchWaits(states, steps, n, k);
    assert states[k + 1] == Do(states[k], steps[k]);
  }

  /** A drain that finds the flag down does nothing. */
  lemma NothingToDrain(states: seq<State>, steps: seq<Step>, i: nat)
    requires IsRun(states, steps) && i < |steps| && steps[i] == Exchange && !states[i].dirty
    ensures states[i + 1] == states[i]
  {
    assert states[i + 1] == Do(states[i], steps[i]);
  }
}
