/** What the strings of a document take from the parser's scratch arena, and what becomes of an arena of any size. */
module JsonScratch {
  import opened JsonText
  import opened Options

  /** What a run of copies leaves: the scratch used then, or a string that does not fit, or a string begun
      when the place for the last terminator already lay behind the arena. The room left is then computed
      as a difference below zero of unsigned numbers, so nothing keeps the copy inside. */
  datatype Space = Taken(used: nat) | Full | Beyond

  /** Copying strings of these decoded lengths, one after the other. */
  function Take(cap: nat, used: nat, lens: seq<nat>): Space
    decreases |lens|
  {
    if lens == [] then Taken(used)
    else if used > cap then Beyond
    else if used + lens[0] > cap then Full
    else Take(cap, used + lens[0] + 1, lens[1..])
  }

  function Needed(lens: seq<nat>): nat {
    if lens == [] then 0 else lens[0] + 1 + Needed(lens[1..])
  }

  lemma {:induction false} TakeJoined(cap: nat, used: nat, lens: seq<nat>, more: seq<nat>)
    ensures Take(cap, used, lens + more)
            == if Take(cap, used, lens).Taken?
               then Take(cap, Take(cap, used, lens).used, more)
               else Take(cap, used, lens)
    decreases |lens|
  {
    if lens == [] {
      assert lens + more == more;
    } else {
      assert (lens + more)[1..] == lens[1..] + more;
      if used + lens[0] <= cap { TakeJoined(cap, used + lens[0] + 1, lens[1..], more); }
    }
  }

  /** All strings are copied iff they and their terminators fit, the last terminator not counted. */
  lemma {:induction false} TakenIff(cap: nat, used: nat, lens: seq<nat>)
    requires used <= cap + 1
    ensures Take(cap, used, lens).Taken? <==> used + Needed(lens) <= cap + 1
    ensures Take(cap, used, lens).Taken? ==> Take(cap, used, lens).used == used + Needed(lens)
    decreases |lens|
  {
    if lens != [] && used + lens[0] <= cap { TakenIff(cap, used + lens[0] + 1, lens[1..]); }
  }

  /** Copies leave the arena iff some of them, not all, fill it exactly. */
  lemma {:induction false} BeyondIff(cap: nat, used: nat, lens: seq<nat>)
    requires used <= cap + 1
    ensures Take(cap, used, lens) == Beyond <==> exists k :: 0 <= k < |lens| && used + Needed(lens[..k]) == cap + 1
    decreases |lens|
  {
    forall k | 0 < k <= |lens| ensures Needed(lens[..k]) == lens[0] + 1 + Needed(lens[1..][..k - 1]) {
      assert lens[..k][1..] == lens[1..][..k - 1];
    }
    if lens != [] {
      assert Needed(lens[..0]) == 0;
      var next := used + lens[0] + 1;
      if used <= cap && used + lens[0] <= cap {
        BeyondIff(cap, next, lens[1..]);
        if Take(cap, used, lens) == Beyond {
          var k :| 0 <= k < |lens[1..]| && next + Needed(lens[1..][..k]) == cap + 1;
          assert used + Needed(lens[..k + 1]) == cap + 1;
        }
        if k :| 0 <= k < |lens| && used + Needed(lens[..k]) == cap + 1 {
          assert next + Needed(lens[1..][..k - 1]) == cap + 1;
        }
      }
    }
  }

  // --- What a text copies ---

  /** Where a string body first has something else than a plain character. */
  function PlainEnd(text: string, p: nat): (q: nat)
    requires p <= |text|
    ensures p <= q <= |text| && (q < |text| ==> text[q] == '"' || text[q] == '\\')
    ensures forall i :: p <= i < q ==> text[i] != '"' && text[i] != '\\'
    decreases |text| - p
  {
    if p == |text| || text[p] == '"' || text[p] == '\\' then p else PlainEnd(text, p + 1)
  }

  /** The copy of a string body is begun at its first escape. A copy whose body does not decode counts with
      length 0: it ends the reading, so no other follows it. */
  function BodyCopies(text: string, p: nat): seq<nat>
    requires p <= |text|
  {
    var q := PlainEnd(text, p);
    if q == |text| || text[q] == '"' then []
    else if DecodeBody(text, p).Some? then [|DecodeBody(text, p).value.0|]
    else [0]
  }

  function KeyCopies(text: string, p: nat, keyed: bool): seq<nat>
    requires p <= |text|
  {
    var q := SkipWs(text, p);
    if keyed && At(text, q) == '"' then BodyCopies(text, q + 1) else []
  }

  /** The copies begun while a value is read with `room` nodes left in the pool, well formed or not. */
  function ValueCopies(scan: Scan, text: string, p: nat, depth: nat, room: nat): seq<nat>
    requires p <= |text|
    decreases |text| - p, 0
  {
    var q := SkipWs(text, p);
    var c := At(text, q);
    if depth > MAX_DEPTH then []
    else if c == '{' || c == '[' then
      var first := SkipWs(text, q + 1);
      if room == 0 || At(text, first) == Closer(c == '{') then []
      else ItemsCopies(scan, text, first, depth, c == '{', room - 1)
    else if c == '"' then BodyCopies(text, q + 1)
    else []
  }

  /** The reading of items ends when the pool has no node for a wrapper or for what a value takes. */
  function ItemsCopies(scan: Scan, text: string, p: nat, depth: nat, keyed: bool, room: nat): seq<nat>
    requires p <= |text|
    decreases |text| - p, 1
  {
    match ReadKey(text, p, keyed)
    case None => KeyCopies(text, p, keyed)
    case Some(k) =>
      if room == 0 then KeyCopies(text, p, keyed)
      else
        var own := KeyCopies(text, p, keyed) + ValueCopies(scan, text, k.1, depth + 1, room - 1);
        match ReadValue(scan, text, k.1, depth + 1)
        case None => own
        case Some(v) =>
          var sep := SkipWs(text, v.1);
          if 1 + Count(v.0) <= room && At(text, sep) == ','
          then own + ItemsCopies(scan, text, sep + 1, depth, keyed, room - 1 - Count(v.0))
          else own
  }

  lemma BodyNeeds(text: string, p: nat)
    requires p <= |text|
    ensures p + Needed(BodyCopies(text, p)) <= if DecodeBody(text, p).Some? then DecodeBody(text, p).value.1 else |text|
  {
    if BodyCopies(text, p) != [] { assert BodyCopies(text, p)[1..] == []; }
  }

  lemma {:induction false} NeededJoined(lens: seq<nat>, more: seq<nat>)
    ensures Needed(lens + more) == Needed(lens) + Needed(more)
    decreases |lens|
  {
    if lens == [] {
      assert lens + more == more;
    } else {
      assert (lens + more)[1..] == lens[1..] + more;
      NeededJoined(lens[1..], more);
    }
  }

  lemma KeyNeeds(text: string, p: nat, keyed: bool)
    requires p <= |text|
    ensures p + Needed(KeyCopies(text, p, keyed)) <= if ReadKey(text, p, keyed).Some?
                                                     then ReadKey(text, p, keyed).value.1
                                                     else |text|
  {
    hide DecodeBody, BodyCopies;
    var q := SkipWs(text, p);
    if keyed && At(text, q) == '"' { BodyNeeds(text, q + 1); }
  }

  /** A value copies no more than its own text is long, and a value that is refused no more than the rest of
      the text. */
  lemma {:induction false} ValueNeeds(scan: Scan, text: string, p: nat, depth: nat, room: nat)
    requires p <= |text|
    ensures p + Needed(ValueCopies(scan, text, p, depth, room))
            <= if ReadValue(scan, text, p, depth).Some? then ReadValue(scan, text, p, depth).value.1 else |text|
    decreases |text| - p, 0
  {
    hide ReadItems, ItemsCopies, DecodeBody, BodyCopies;
    var q := SkipWs(text, p);
    var c := At(text, q);
    if depth <= MAX_DEPTH && (c == '{' || c == '[') {
      var first := SkipWs(text, q + 1);
      if room > 0 && At(text, first) != Closer(c == '{') { ItemsNeed(scan, text, first, depth, c == '{', room - 1); }
    } else if depth <= MAX_DEPTH && c == '"' {
      BodyNeeds(text, q + 1);
    }
  }

  lemma {:induction false} ItemsNeed(scan: Scan, text: string, p: nat, depth: nat, keyed: bool, room: nat)
    requires p <= |text|
    ensures p + Needed(ItemsCopies(scan, text, p, depth, keyed, room))
            <= if ReadItems(scan, text, p, depth, keyed).Some?
               then ReadItems(scan, text, p, depth, keyed).value.1
               else |text|
    decreases |text| - p, 1
  {
    hide ReadKey, ReadValue, KeyCopies, ValueCopies, Needed, Count;
    KeyNeeds(text, p, keyed);
    var key := ReadKey(text, p, keyed);
    if key.Some? && room > 0 {
      var k := key.value.1;
      var own := KeyCopies(text, p, keyed) + ValueCopies(scan, text, k, depth + 1, room - 1);
      ValueNeeds(scan, text, k, depth + 1, room - 1);
      NeededJoined(KeyCopies(text, p, keyed), ValueCopies(scan, text, k, depth + 1, room - 1));
      var value := ReadValue(scan, text, k, depth + 1);
      if value.Some? && 1 + Count(value.value.0) <= room {
        var sep, left := SkipWs(text, value.value.1), room - 1 - Count(value.value.0);
        if At(text, sep) == ',' {
          ItemsNeed(scan, text, sep + 1, depth, keyed, left);
          NeededJoined(own, ItemsCopies(scan, text, sep + 1, depth, keyed, left));
        }
      }
    }
  }

  /** An arena as long as the text is never full and never left, whatever the text. */
  lemma LongArenaSuffices(scan: Scan, text: string, room: nat, cap: nat)
    requires |text| <= cap
    ensures Take(cap, 0, ValueCopies(scan, text, 0, 0, room)).Taken?
  {
    hide ReadValue, ValueCopies, Needed;
    ValueNeeds(scan, text, 0, 0, room);
    TakenIff(cap, 0, ValueCopies(scan, text, 0, 0, room));
  }

  /** An escaped newline as a string. */
  predicate NewlineAt(text: string, p: nat) {
    p + 4 <= |text| && text[p] == '"' && text[p + 1] == '\\' && text[p + 2] == 'n' && text[p + 3] == '"'
  }

  lemma NewlineBody(text: string, p: nat)
    requires NewlineAt(text, p)
    ensures DecodeBody(text, p + 1) == Some(("\n", p + 4)) && BodyCopies(text, p + 1) == [1]
  {
    assert DecodeBody(text, p + 3) == Some(("", p + 4));
    assert "\n" + "" == "\n";
  }

  lemma NewlineValue(scan: Scan, text: string, p: nat, room: nat)
    requires NewlineAt(text, p)
    ensures ReadValue(scan, text, p, 1) == Some((Str("\n"), p + 4)) && ValueCopies(scan, text, p, 1, room) == [1]
  {
    hide DecodeBody, BodyCopies, ReadItems, ItemsCopies;
    NewlineBody(text, p);
    assert SkipWs(text, p) == p;
  }

  lemma NewlineItems(scan: Scan, text: string, p: nat, room: nat)
    requires NewlineAt(text, p) && !IsSpace(At(text, p + 4)) && room >= 2
    ensures At(text, p + 4) == ']' ==> ReadItems(scan, text, p, 0, false) == Some(([Item("", Str("\n"))], p + 5))
    ensures At(text, p + 4) == ',' && ReadItems(scan, text, p + 5, 0, false).Some? ==>
              && ReadItems(scan, text, p, 0, false).Some?
              && ReadItems(scan, text, p, 0, false).value.1 == ReadItems(scan, text, p + 5, 0, false).value.1
    ensures At(text, p + 4) != ',' ==> ItemsCopies(scan, text, p, 0, false, room) == [1]
    ensures At(text, p + 4) == ',' ==>
              ItemsCopies(scan, text, p, 0, false, room) == [1] + ItemsCopies(scan, text, p + 5, 0, false, room - 2)
  {
    hide ReadValue, ValueCopies;
    assert SkipWs(text, p + 4) == p + 4;
    NewlineValue(scan, text, p, room - 1);
    assert Count(Str("\n")) == 1;
    assert [] + [1] == [1];
  }

  lemma ArrayReads(scan: Scan, text: string, room: nat)
    requires |text| > 1 && text[0] == '[' && text[1] == '"' && room > 0
    ensures ReadItems(scan, text, 1, 0, false).Some? && ReadItems(scan, text, 1, 0, false).value.1 == |text| ==>
              ReadDocument(scan, text).Some?
    ensures ValueCopies(scan, text, 0, 0, room) == ItemsCopies(scan, text, 1, 0, false, room - 1)
  {
    hide ReadItems, ItemsCopies;
    assert SkipWs(text, 0) == 0 && SkipWs(text, 1) == 1 && SkipWs(text, |text|) == |text|;
  }

  lemma TwoNewlines(closed: bool)
    ensures var text := "[\"\\n\",\"\\n\"" + if closed then "]" else "";
            && |text| == (if closed then 11 else 10) && text[0] == '[' && text[1] == '"'
            && NewlineAt(text, 1) && At(text, 5) == ',' && NewlineAt(text, 6)
            && At(text, 10) == (if closed then ']' else '\0')
  {
  }

  /** Two escaped newlines in an arena of one character: the first fills it, and the second is copied
      behind it instead of failing, whether or not the text goes on well. */
  lemma ArenaLeft(scan: Scan, room: nat, closed: bool)
    requires room >= 5
    ensures var text := "[\"\\n\",\"\\n\"" + if closed then "]" else "";
            && (closed ==> ReadDocument(scan, text).Some?)
            && Take(1, 0, ValueCopies(scan, text, 0, 0, room)) == Beyond
  {
    hide *;
    TwoNewlines(closed);
    var text := "[\"\\n\",\"\\n\"" + if closed then "]" else "";
    assert !IsSpace(',') && !IsSpace(']') && !IsSpace('\0') by { NoSpaces(); }
    NewlineItems(scan, text, 6, room - 3);
    NewlineItems(scan, text, 1, room - 1);
    ArrayReads(scan, text, room);
    assert ValueCopies(scan, text, 0, 0, room) == [1] + [1];
    TwoOnes();
  }

  lemma NoSpaces()
    ensures !IsSpace(',') && !IsSpace(']') && !IsSpace('\0')
  {
  }

  lemma TwoOnes()
    ensures Take(1, 0, [1] + [1]) == Beyond
  {
    assert [1] + [1] == [1, 1] && [1, 1][1..] == [1];
    assert Take(1, 2, [1]) == Beyond;
  }
}
