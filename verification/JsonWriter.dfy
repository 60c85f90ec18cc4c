/** The streaming JSON builder: what its calls do to the buffer, and what a tree of calls leaves. */
module JsonWriter {
  import opened JsonRoundTrip
  import opened JsonText
  import opened Options

  const TOKEN_SPACE: nat := 32

  /** The builder seen as a value: one comma flag per open container. */
  datatype Draft = Draft(text: string, cap: nat, ok: bool, commas: seq<bool>)

  /** A live draft leaves room for the terminator, and is at most 32 containers deep. */
  predicate Sound(w: Draft) {
    (w.ok ==> |w.text| < w.cap) && |w.commas| <= MAX_DEPTH
  }

  // --- What the calls do ---

  function Put(w: Draft, s: string): Draft {
    if !w.ok || s == "" then w
    else if |w.text| + |s| >= w.cap then w.(ok := false)
    else w.(text := w.text + s)
  }

  /** Chunks are appended one by one; the first that does not fit stops the draft for good. */
  function Feed(w: Draft, chunks: seq<string>): Draft
    decreases |chunks|
  {
    if chunks == [] then w else Feed(Put(w, chunks[0]), chunks[1..])
  }

  function CommaDue(commas: seq<bool>): bool {
    commas != [] && commas[|commas| - 1]
  }

  function Marked(commas: seq<bool>, due: bool): seq<bool> {
    if commas == [] then [] else commas[|commas| - 1 := due]
  }

  function ValueOpen(w: Draft): Draft {
    if !w.ok || !CommaDue(w.commas) then w
    else
      var put := Put(w, ",");
      if put.ok then put.(commas := Marked(put.commas, false)) else put
  }

  function ValueClose(w: Draft): Draft {
    if w.ok then w.(commas := Marked(w.commas, true)) else w
  }

  /** A scalar: string, number, boolean, null or raw text. */
  function Scalar(w: Draft, chunks: seq<string>): Draft {
    ValueClose(Feed(ValueOpen(w), chunks))
  }

  /** Number text is formatted into a buffer of 32 characters, terminator included. */
  function NumberScalar(w: Draft, token: string): Draft {
    if 0 < |token| < TOKEN_SPACE then Scalar(w, [token]) else ValueOpen(w).(ok := false)
  }

  function Begin(w: Draft, bracket: char): Draft {
    var put := Put(ValueOpen(w), [bracket]);
    if !put.ok then put
    else if |put.commas| >= MAX_DEPTH then put.(ok := false)
    else put.(commas := put.commas + [false])
  }

  function End(w: Draft, bracket: char): Draft {
    if !w.ok then w
    else if w.commas == [] then w.(ok := false)
    else
      var put := Put(w, [bracket]);
      if !put.ok then put else ValueClose(put.(commas := put.commas[..|put.commas| - 1]))
  }

  function EscapedChars(s: string): (chunks: seq<string>)
    ensures |chunks| == |s| && forall i :: 0 <= i < |s| ==> chunks[i] == Escaped(s[i])
  {
    if s == "" then [] else [Escaped(s[0])] + EscapedChars(s[1..])
  }

  function Quoted(s: string): seq<string> {
    ["\""] + EscapedChars(s) + ["\""]
  }

  function Key(w: Draft, k: string): Draft {
    if !w.ok then w
    else if w.commas == [] then w.(ok := false)
    else
      var sep := if CommaDue(w.commas) then Put(w, ",") else w;
      var put := Put(Feed(Put(sep, "\""), EscapedChars(k)), "\":");
      if put.ok then put.(commas := Marked(put.commas, false)) else put
  }

  // --- A tree written by its calls ---

  /** The calls that write a value, in order. */
  function Emit(w: Draft, v: Json): Draft
    decreases v, 0
  {
    match v
    case Null => Scalar(w, ["null"])
    case Bool(b) => Scalar(w, [if b then "true" else "false"])
    case Number(token) => NumberScalar(w, token)
    case Str(s) => Scalar(w, Quoted(s))
    case Array(items) => End(EmitItems(Begin(w, '['), items, false), ']')
    case Object(items) => End(EmitItems(Begin(w, '{'), items, true), '}')
  }

  function EmitItems(w: Draft, items: seq<Item>, keyed: bool): Draft
    decreases items, 1
  {
    if items == [] then w else EmitItems(EmitItem(w, items[0], keyed), items[1..], keyed)
  }

  function EmitItem(w: Draft, item: Item, keyed: bool): Draft
    decreases item, 0
  {
    Emit(if keyed then Key(w, item.key) else w, item.value)
  }

  /** The builder can express a value inside `open` containers: nesting within the limit, number
      text of 1 to 31 characters. */
  predicate Fits(open: nat, v: Json)
    decreases v, 0
  {
    match v
    case Number(token) => 0 < |token| < TOKEN_SPACE
    case Array(items) => open < MAX_DEPTH && FitsItems(open + 1, items)
    case Object(items) => open < MAX_DEPTH && FitsItems(open + 1, items)
    case _ => true
  }

  predicate FitsItems(open: nat, items: seq<Item>)
    decreases items, 1
  {
    items != [] ==> Fits(open, items[0].value) && FitsItems(open, items[1..])
  }

  // --- What they leave ---

  /** The draft took exactly `s`, if `fit` and there was room, and else is stopped. */
  predicate Takes(w: Draft, after: Draft, s: string, commas: seq<bool>, fit: bool) {
    if w.ok && fit && |w.text| + |s| < w.cap then after == Draft(w.text + s, w.cap, true, commas) else !after.ok
  }

  function Sep(w: Draft): string {
    if w.ok && CommaDue(w.commas) then "," else ""
  }

  lemma Compose(w: Draft, mid: Draft, after: Draft, s: string, t: string, c: seq<bool>, d: seq<bool>, fit: bool,
                more: bool)
    requires Takes(w, mid, s, c, fit)
    requires mid.ok ==> Takes(mid, after, t, d, more)
    requires !mid.ok ==> !after.ok
    ensures Takes(w, after, s + t, d, fit && more)
  {
    assert (w.text + s) + t == w.text + (s + t);
  }

  function Concat(chunks: seq<string>): string {
    if chunks == [] then "" else chunks[0] + Concat(chunks[1..])
  }

  lemma PutTakes(w: Draft, s: string)
    requires Sound(w)
    ensures Takes(w, Put(w, s), s, w.commas, true) && Sound(Put(w, s))
  {
    assert w.text + "" == w.text;
  }

  lemma {:induction false} FeedTakes(w: Draft, chunks: seq<string>)
    requires Sound(w)
    ensures Takes(w, Feed(w, chunks), Concat(chunks), w.commas, true) && Sound(Feed(w, chunks))
    decreases |chunks|
  {
    if chunks == [] {
      assert w.text + "" == w.text;
    } else {
      PutTakes(w, chunks[0]);
      FeedTakes(Put(w, chunks[0]), chunks[1..]);
      hide Put, Feed, Concat;
      assert Put(w, chunks[0]).ok ==> Put(w, chunks[0]).commas == w.commas;
      Compose(w, Put(w, chunks[0]), Feed(Put(w, chunks[0]), chunks[1..]), chunks[0], Concat(chunks[1..]), w.commas,
              Put(w, chunks[0]).commas, true, true);
    }
  }

  lemma ValueOpenTakes(w: Draft)
    requires Sound(w)
    ensures Takes(w, ValueOpen(w), Sep(w), Marked(w.commas, false), true) && Sound(ValueOpen(w))
  {
    assert w.text + "" == w.text;
    assert !CommaDue(w.commas) ==> Marked(w.commas, false) == w.commas;
  }

  lemma ValueCloseTakes(w: Draft)
    requires Sound(w)
    ensures Takes(w, ValueClose(w), "", Marked(w.commas, true), true) && Sound(ValueClose(w))
  {
    assert w.text + "" == w.text;
  }

  lemma MarkedTwice(commas: seq<bool>, first: bool, second: bool)
    ensures Marked(Marked(commas, first), second) == Marked(commas, second)
    ensures |Marked(commas, first)| == |commas| && (commas != [] ==> !CommaDue(Marked(commas, false)))
  {
  }

  lemma ScalarTakes(w: Draft, chunks: seq<string>)
    requires Sound(w)
    ensures Takes(w, Scalar(w, chunks), Sep(w) + Concat(chunks), Marked(w.commas, true), true)
            && Sound(Scalar(w, chunks))
  {
    hide ValueOpen, ValueClose, Feed, Concat, Marked, Sep;
    var open := ValueOpen(w);
    var fed := Feed(open, chunks);
    ValueOpenTakes(w);
    FeedTakes(open, chunks);
    ValueCloseTakes(fed);
    MarkedTwice(w.commas, false, true);
    Compose(w, open, fed, Sep(w), Concat(chunks), Marked(w.commas, false), open.commas, true, true);
    var text := Sep(w) + Concat(chunks);
    Compose(w, fed, ValueClose(fed), text, "", Marked(w.commas, false), Marked(fed.commas, true), true, true);
    assert text + "" == text;
  }

  lemma BeginTakes(w: Draft, bracket: char)
    requires Sound(w)
    ensures Takes(w, Begin(w, bracket), Sep(w) + [bracket], Marked(w.commas, false) + [false], |w.commas| < MAX_DEPTH)
    ensures Sound(Begin(w, bracket))
  {
    hide ValueOpen, Put, Marked, Sep;
    var open := ValueOpen(w);
    ValueOpenTakes(w);
    PutTakes(open, [bracket]);
    MarkedTwice(w.commas, false, false);
    Compose(w, open, Put(open, [bracket]), Sep(w), [bracket], Marked(w.commas, false), open.commas, true, true);
  }

  lemma EndTakes(w: Draft, bracket: char)
    requires Sound(w) && (w.ok ==> w.commas != [])
    ensures w.ok ==> Takes(w, End(w, bracket), [bracket], Marked(w.commas[..|w.commas| - 1], true), true)
    ensures !w.ok ==> End(w, bracket) == w
    ensures Sound(End(w, bracket))
  {
  }

  lemma QuotedText(s: string)
    ensures Concat(EscapedChars(s)) == RenderChars(s)
    ensures Concat(Quoted(s)) == RenderString(s)
  {
    hide Escaped;
    if s != "" { QuotedText(s[1..]); }
    ConcatEnd(EscapedChars(s), "\"");
    var body := EscapedChars(s) + ["\""];
    assert ["\""] + EscapedChars(s) + ["\""] == ["\""] + body;
    assert (["\""] + body)[1..] == body;
    assert "\"" + (RenderChars(s) + "\"") == ("\"" + RenderChars(s)) + "\"";
  }

  lemma {:induction false} ConcatEnd(chunks: seq<string>, last: string)
    ensures Concat(chunks + [last]) == Concat(chunks) + last
  {
    if chunks == [] {
      assert chunks + [last] == [last];
      assert last + "" == last;
    } else {
      assert (chunks + [last])[1..] == chunks[1..] + [last];
      ConcatEnd(chunks[1..], last);
      assert chunks[0] + (Concat(chunks[1..]) + last) == (chunks[0] + Concat(chunks[1..])) + last;
    }
  }

  lemma KeyGroups(sep: string, k: string)
    ensures ((sep + "\"") + RenderChars(k)) + "\":" == sep + (RenderString(k) + ":")
  {
    hide RenderChars;
  }

  lemma KeyTakes(w: Draft, k: string)
    requires Sound(w) && (w.ok ==> w.commas != [])
    ensures Takes(w, Key(w, k), Sep(w) + (RenderString(k) + ":"), Marked(w.commas, false), true)
    ensures Sound(Key(w, k))
  {
    hide Put, Feed, Marked, RenderString, Concat;
    if w.ok {
      var sep := if CommaDue(w.commas) then Put(w, ",") else w;
      var quote := Put(sep, "\"");
      var fed := Feed(quote, EscapedChars(k));
      PutTakes(w, ",");
      assert w.text + "" == w.text;
      PutTakes(sep, "\"");
      FeedTakes(quote, EscapedChars(k));
      PutTakes(fed, "\":");
      QuotedText(k);
      MarkedTwice(w.commas, false, false);
      Compose(w, sep, quote, Sep(w), "\"", w.commas, sep.commas, true, true);
      Compose(w, quote, fed, Sep(w) + "\"", RenderChars(k), w.commas, quote.commas, true, true);
      Compose(w, fed, Put(fed, "\":"), (Sep(w) + "\"") + RenderChars(k), "\":", w.commas, fed.commas, true, true);
      KeyGroups(Sep(w), k);
    }
  }

  /** The text and the flags a value leaves behind in its container. */
  predicate Wrote(w: Draft, after: Draft, s: string, fit: bool) {
    Takes(w, after, Sep(w) + s, Marked(w.commas, true), fit)
  }

  /** The calls for a tree leave exactly its compact rendering, with a comma before it when a sibling
      precedes, if there was room and the nesting stays within the limit; else the builder is stopped. */
  lemma {:induction false} EmitRenders(w: Draft, v: Json)
    requires Sound(w)
    ensures Wrote(w, Emit(w, v), Render(v), Fits(|w.commas|, v)) && Sound(Emit(w, v))
    decreases v, 0
  {
    hide Emit, Takes, Wrote, Marked, RenderItems, FitsItems, RenderString;
    match v
    case Null => WordEmits(w, v, "null");
    case Bool(b) => WordEmits(w, v, if b then "true" else "false");
    case Number(token) => WordEmits(w, v, token);
    case Str(s) => StringEmits(w, s);
    case Array(items) => ContainerEmits(w, items, false);
    case Object(items) => ContainerEmits(w, items, true);
  }

  lemma WordEmits(w: Draft, v: Json, word: string)
    requires Sound(w) && (v.Null? || v.Bool? || v.Number?) && word == Render(v)
    ensures Wrote(w, Emit(w, v), Render(v), Fits(|w.commas|, v)) && Sound(Emit(w, v))
  {
    hide Scalar, ValueOpen, Sep, Marked;
    ValueOpenTakes(w);
    assert Concat([word]) == word by { ConcatOne(word); }
    ScalarTakes(w, [word]);
  }

  lemma ConcatOne(word: string)
    ensures Concat([word]) == word
  {
    assert Concat([]) == "";
    assert word + "" == word;
  }

  lemma StringEmits(w: Draft, s: string)
    requires Sound(w)
    ensures Wrote(w, Emit(w, Str(s)), Render(Str(s)), Fits(|w.commas|, Str(s))) && Sound(Emit(w, Str(s)))
  {
    hide Scalar, Takes, Sep, Marked, Quoted, RenderString, Concat;
    QuotedText(s);
    ScalarTakes(w, Quoted(s));
  }

  lemma {:induction false} ContainerEmits(w: Draft, items: seq<Item>, keyed: bool)
    requires Sound(w)
    ensures var v := Container(keyed, items);
            Wrote(w, Emit(w, v), Render(v), Fits(|w.commas|, v)) && Sound(Emit(w, v))
    decreases items, 2
  {
    hide *;
    var opener, closer := if keyed then '{' else '[', Closer(keyed);
    var begun := Begin(w, opener);
    var filled := EmitItems(begun, items, keyed);
    BeginTakes(w, opener);
    BegunInside(w, begun, Sep(w) + [opener]);
    ItemsEmit(begun, items, keyed);
    ContainerCloses(w, begun, filled, items, keyed);
    ContainerUnfolds(w, items, keyed);
  }

  lemma ContainerUnfolds(w: Draft, items: seq<Item>, keyed: bool)
    ensures var v := Container(keyed, items);
            && Emit(w, v) == End(EmitItems(Begin(w, if keyed then '{' else '['), items, keyed), Closer(keyed))
            && Render(v) == [if keyed then '{' else '['] + RenderItems(items, keyed) + [Closer(keyed)]
            && (forall open: nat :: Fits(open, v) <==> open < MAX_DEPTH && FitsItems(open + 1, items))
  {
    hide EmitItems, Begin, End, RenderItems, FitsItems;
  }

  /** Inside a container just begun no comma is due. */
  lemma BegunInside(w: Draft, begun: Draft, s: string)
    requires Takes(w, begun, s, Marked(w.commas, false) + [false], |w.commas| < MAX_DEPTH)
    ensures begun.ok ==> begun.commas != [] && |begun.commas| == |w.commas| + 1 && Sep(begun) == ""
  {
  }

  /** What the items leave in the container they are written to. */
  predicate Filled(w: Draft, after: Draft, items: seq<Item>, keyed: bool) {
    if items == [] then after == w
    else Wrote(w, after, RenderItems(items, keyed), FitsItems(|w.commas|, items))
  }

  lemma ContainerCloses(w: Draft, begun: Draft, filled: Draft, items: seq<Item>, keyed: bool)
    requires Sound(w) && Sound(filled)
    requires Takes(w, begun, Sep(w) + [if keyed then '{' else '['], Marked(w.commas, false) + [false],
                   |w.commas| < MAX_DEPTH)
    requires begun.ok ==> begun.commas != [] && |begun.commas| == |w.commas| + 1 && Sep(begun) == ""
    requires Filled(begun, filled, items, keyed)
    ensures Wrote(w, End(filled, Closer(keyed)),
                  [if keyed then '{' else '['] + RenderItems(items, keyed) + [Closer(keyed)],
                  |w.commas| < MAX_DEPTH && FitsItems(|w.commas| + 1, items))
    ensures Sound(End(filled, Closer(keyed)))
  {
    var opener, body, closer := [if keyed then '{' else '['], RenderItems(items, keyed), [Closer(keyed)];
    var flags := Marked(w.commas, false);
    ItemsFill(w, begun, filled, items, keyed);
    hide RenderItems, FitsItems, Filled, Sep, End;
    EndTakes(filled, Closer(keyed));
    assert filled.ok ==> filled.commas[..|filled.commas| - 1] == flags;
    MarkedTwice(w.commas, false, true);
    hide *;
    Compose(w, filled, End(filled, Closer(keyed)), Sep(w) + opener + body, closer,
            flags + [items != []], Marked(flags, true),
            |w.commas| < MAX_DEPTH && FitsItems(|w.commas| + 1, items), true);
    assert Sep(w) + opener + body + closer == Sep(w) + (opener + body + closer);
  }

  lemma ItemsFill(w: Draft, begun: Draft, filled: Draft, items: seq<Item>, keyed: bool)
    requires Takes(w, begun, Sep(w) + [if keyed then '{' else '['], Marked(w.commas, false) + [false],
                   |w.commas| < MAX_DEPTH)
    requires begun.ok ==> begun.commas != [] && |begun.commas| == |w.commas| + 1 && Sep(begun) == ""
    requires Filled(begun, filled, items, keyed)
    ensures Takes(w, filled, Sep(w) + [if keyed then '{' else '['] + RenderItems(items, keyed),
                  Marked(w.commas, false) + [items != []], |w.commas| < MAX_DEPTH && FitsItems(|w.commas| + 1, items))
  {
    hide Sep, Marked;
    var s, body := Sep(w) + [if keyed then '{' else '['], RenderItems(items, keyed);
    if items == [] {
      assert s + body == s;
    } else {
      hide FitsItems, RenderItems;
      assert "" + body == body;
      assert begun.ok ==> Marked(begun.commas, true) == Marked(w.commas, false) + [true] by {
        LastMarked(Marked(w.commas, false), false);
      }
      Compose(w, begun, filled, s, body, Marked(w.commas, false) + [false], Marked(begun.commas, true),
              |w.commas| < MAX_DEPTH, FitsItems(|begun.commas|, items));
    }
  }

  lemma LastMarked(flags: seq<bool>, due: bool)
    ensures Marked(flags + [due], true) == flags + [true]
  {
  }

  lemma {:induction false} ItemsEmit(w: Draft, items: seq<Item>, keyed: bool)
    requires Sound(w) && (w.ok ==> w.commas != [])
    ensures Filled(w, EmitItems(w, items, keyed), items, keyed) && Sound(EmitItems(w, items, keyed))
    decreases items, 1
  {
    hide *;
    if items == [] {
      NoItemsEmit(w, keyed);
    } else {
      var first := EmitItem(w, items[0], keyed);
      EmitItemsStep(w, items, keyed);
      ItemEmits(w, items[0], keyed);
      FirstOpen(w, first, RenderItem(items[0], keyed), Fits(|w.commas|, items[0].value));
      ItemsEmit(first, items[1..], keyed);
      ItemsJoin(w, first, EmitItems(first, items[1..], keyed), items, keyed);
    }
  }

  lemma EmitItemsStep(w: Draft, items: seq<Item>, keyed: bool)
    requires items != []
    ensures EmitItems(w, items, keyed) == EmitItems(EmitItem(w, items[0], keyed), items[1..], keyed)
  {
    hide EmitItem;
  }

  lemma NoItemsEmit(w: Draft, keyed: bool)
    ensures Filled(w, w, [], keyed) && EmitItems(w, [], keyed) == w
  {
  }

  lemma {:induction false} ItemEmits(w: Draft, item: Item, keyed: bool)
    requires Sound(w) && (w.ok ==> w.commas != [])
    ensures Wrote(w, EmitItem(w, item, keyed), RenderItem(item, keyed), Fits(|w.commas|, item.value))
    ensures Sound(EmitItem(w, item, keyed))
    decreases item, 0
  {
    hide Emit, Key, Takes, Wrote, Sound, Render, RenderItem, Fits;
    var head := if keyed then Key(w, item.key) else w;
    if keyed { KeyTakes(w, item.key); }
    EmitRenders(head, item.value);
    ItemJoins(w, item, keyed);
  }

  lemma ItemJoins(w: Draft, item: Item, keyed: bool)
    requires Sound(w) && (w.ok ==> w.commas != [])
    requires keyed ==>
               Takes(w, Key(w, item.key), Sep(w) + (RenderString(item.key) + ":"), Marked(w.commas, false), true)
    requires var head := if keyed then Key(w, item.key) else w;
             Wrote(head, Emit(head, item.value), Render(item.value), Fits(|head.commas|, item.value))
    ensures Wrote(w, EmitItem(w, item, keyed), RenderItem(item, keyed), Fits(|w.commas|, item.value))
  {
    hide Emit, Render, Fits, Key, RenderString, Marked;
    if keyed {
      var head, s, t := Key(w, item.key), Sep(w) + (RenderString(item.key) + ":"), Render(item.value);
      MarkedTwice(w.commas, false, true);
      assert head.ok ==> Sep(head) == "" && "" + t == t;
      Compose(w, head, Emit(head, item.value), s, t, Marked(w.commas, false), Marked(w.commas, true),
              true, Fits(|w.commas|, item.value));
      assert s + t == Sep(w) + ((RenderString(item.key) + ":") + t);
    } else {
      assert "" + Render(item.value) == Render(item.value);
    }
  }

  /** Behind a written item the container stays open and owes a comma. */
  lemma FirstOpen(w: Draft, first: Draft, s: string, fit: bool)
    requires Wrote(w, first, s, fit) && (w.ok ==> w.commas != [])
    ensures first.ok ==>
              first.commas != [] && |first.commas| == |w.commas| && Sep(first) == ","
              && first.commas == Marked(w.commas, true)
  {
  }

  lemma ItemsJoin(w: Draft, first: Draft, after: Draft, items: seq<Item>, keyed: bool)
    requires items != []
    requires Wrote(w, first, RenderItem(items[0], keyed), Fits(|w.commas|, items[0].value))
    requires first.ok ==> |first.commas| == |w.commas| && Sep(first) == "," && first.commas == Marked(w.commas, true)
    requires Filled(first, after, items[1..], keyed)
    ensures Filled(w, after, items, keyed)
  {
    hide RenderItem, Fits, Sep, Marked;
    var s, rest := RenderItem(items[0], keyed), items[1..];
    if rest == [] {
      assert s + "" == s;
      FitsStep(|w.commas|, items);
    } else {
      var t := RenderItems(rest, keyed);
      assert RenderItems(items, keyed) == s + ("," + t);
      FitsStep(|w.commas|, items);
      hide *;
      JoinText(w, first, after, s, t, Fits(|w.commas|, items[0].value), FitsItems(|w.commas|, rest));
    }
  }

  lemma FitsStep(open: nat, items: seq<Item>)
    requires items != []
    ensures FitsItems(open, items) <==> Fits(open, items[0].value) && FitsItems(open, items[1..])
  {
    hide Fits;
  }

  lemma JoinText(w: Draft, first: Draft, after: Draft, s: string, t: string, fit: bool, more: bool)
    requires Wrote(w, first, s, fit) && Wrote(first, after, t, more)
    requires first.ok ==> Sep(first) == "," && first.commas == Marked(w.commas, true)
    ensures Wrote(w, after, s + ("," + t), fit && more)
  {
    hide Sep, Marked;
    MarkedTwice(w.commas, true, true);
    Compose(w, first, after, Sep(w) + s, "," + t, Marked(w.commas, true), Marked(w.commas, true), fit, more);
    assert (Sep(w) + s) + ("," + t) == Sep(w) + (s + ("," + t));
  }

  lemma {:induction false} FitsBoundsDepth(open: nat, v: Json)
    requires Fits(open, v) && open <= MAX_DEPTH
    ensures open + Depth(v) <= MAX_DEPTH
    decreases v, 0
  {
    if v.Array? || v.Object? { ItemsFitDepth(open, v.items); }
  }

  lemma {:induction false} ItemsFitDepth(open: nat, items: seq<Item>)
    requires FitsItems(open + 1, items) && open < MAX_DEPTH
    ensures open + DepthItems(items) <= MAX_DEPTH
    decreases items, 1
  {
    if items != [] {
      FitsBoundsDepth(open + 1, items[0].value);
      ItemsFitDepth(open, items[1..]);
    }
  }

  /** A fresh builder over a buffer of `cap` characters. */
  function Blank(cap: nat): Draft {
    Draft("", cap, cap > 0, [])
  }

  /** A tree is written iff it fits; the buffer then holds its rendering, which reads back as that tree. */
  lemma WrittenReadsBack(scan: Scan, cap: nat, v: Json)
    ensures Emit(Blank(cap), v).ok <==> Fits(0, v) && |Render(v)| < cap
    ensures Emit(Blank(cap), v).ok ==> Emit(Blank(cap), v) == Draft(Render(v), cap, true, [])
    ensures Emit(Blank(cap), v).ok && Writable(scan, v) ==> ReadDocument(scan, Emit(Blank(cap), v).text) == Some(v)
  {
    hide Emit, Fits, Render, Writable, ReadDocument, Depth;
    var w := Blank(cap);
    EmitRenders(w, v);
    assert "" + ("" + Render(v)) == Render(v);
    if Emit(w, v).ok {
      FitsBoundsDepth(0, v);
      if Writable(scan, v) { DocumentReadsBack(scan, v); }
    }
  }

  // --- The builder itself ---

  class JsonWriter {
    const out: array<char>
    const cap: nat
    var used: nat
    var ok: bool
    var depth: nat
    const needComma: array<bool>

    ghost predicate Valid()
      reads this, out, needComma
    {
      && used <= cap <= out.Length
      && needComma.Length == MAX_DEPTH
      && depth <= MAX_DEPTH
      && (cap > 0 ==> used < cap && out[used] == '\0')
      && (ok ==> cap > 0)
    }

    ghost function State(): Draft
      reads this, out, needComma
      requires Valid()
    {
      Draft(out[..used], cap, ok, needComma[..depth])
    }

    constructor (buffer: array<char>, size: nat)
      requires size <= buffer.Length
      modifies buffer
      ensures Valid() && State() == Blank(size) && out == buffer && fresh(needComma)
    {
      out, cap, used, ok, depth := buffer, size, 0, size > 0, 0;
      needComma := new bool[MAX_DEPTH](_ => false);
      new;
      if ok { out[0] := '\0'; }
    }

    method Fail() returns (r: bool)
      requires Valid()
      modifies this`ok
      ensures Valid() && !r && State() == old(State()).(ok := false)
    {
      ok := false;
      r := false;
    }

    /** Appends `s` and moves the terminator, or stops the builder for good. */
    method Append(s: string) returns (r: bool)
      requires Valid()
      modifies this`used, this`ok, out
      ensures Valid() && State() == Put(old(State()), s) && r == (ok || s == "")
    {
      if s == "" { return true; }
      if !ok { return false; }
      if used + |s| >= cap {
        r := Fail();
        return;
      }
      ghost var before := out[..used];
      forall i | 0 <= i < |s| { out[used + i] := s[i]; }
      used := used + |s|;
      out[used] := '\0';
      assert out[..used] == before + s;
      r := true;
    }

    method StringBody(s: string) returns (r: bool)
      requires Valid() && ok
      modifies this`used, this`ok, out
      ensures Valid() && State() == Feed(old(State()), EscapedChars(s)) && r == ok
    {
      ghost var start, chunks := State(), EscapedChars(s);
      var i := 0;
      while i < |s|
        invariant 0 <= i <= |s| && Valid() && ok
        invariant Feed(State(), chunks[i..]) == Feed(start, chunks)
      {
        assert chunks[i..][0] == Escaped(s[i]) && chunks[i..][1..] == chunks[i + 1..];
        r := Append(Escaped(s[i]));
        if !r {
          FeedStopped(State(), chunks[i + 1..]);
          return;
        }
        i := i + 1;
      }
      r := true;
    }

    /** The comma a sibling left due is written before a value. */
    method OpenValue() returns (r: bool)
      requires Valid()
      modifies this`used, this`ok, out, needComma
      ensures Valid() && State() == ValueOpen(old(State())) && r == ok
    {
      if !ok { return false; }
      if depth == 0 { return true; }
      var parent := depth - 1;
      if needComma[parent] {
        r := Append(",");
        if !r { return; }
        needComma[parent] := false;
      }
      r := true;
    }

    method CloseValue() returns (r: bool)
      requires Valid() && ok
      modifies needComma
      ensures Valid() && State() == ValueClose(old(State())) && r == ok
    {
      if depth == 0 { return ok; }
      needComma[depth - 1] := true;
      r := ok;
    }

    method BeginObject() returns (r: bool)
      requires Valid()
      modifies this`used, this`ok, this`depth, out, needComma
      ensures Valid() && State() == Begin(old(State()), '{') && r == ok
    {
      r := OpenValue();
      if !r { return; }
      r := Append("{");
      if !r { return; }
      if depth >= MAX_DEPTH {
        r := Fail();
        return;
      }
      needComma[depth] := false;
      depth := depth + 1;
    }

    method EndObject() returns (r: bool)
      requires Valid()
      modifies this`used, this`ok, this`depth, out, needComma
      ensures Valid() && State() == End(old(State()), '}') && r == ok
    {
      if !ok { return false; }
      if depth == 0 {
        r := Fail();
        return;
      }
      r := Append("}");
      if !r { return; }
      depth := depth - 1;
      r := CloseValue();
    }

    method BeginArray() returns (r: bool)
      requires Valid()
      modifies this`used, this`ok, this`depth, out, needComma
      ensures Valid() && State() == Begin(old(State()), '[') && r == ok
    {
      r := OpenValue();
      if !r { return; }
      r := Append("[");
      if !r { return; }
      if depth >= MAX_DEPTH {
        r := Fail();
        return;
      }
      needComma[depth] := false;
      depth := depth + 1;
    }

    method EndArray() returns (r: bool)
      requires Valid()
      modifies this`used, this`ok, this`depth, out, needComma
      ensures Valid() && State() == End(old(State()), ']') && r == ok
    {
      if !ok { return false; }
      if depth == 0 {
        r := Fail();
        return;
      }
      r := Append("]");
      if !r { return; }
      depth := depth - 1;
      r := CloseValue();
    }

    method AddKey(k: string) returns (r: bool)
      requires Valid()
      modifies this`used, this`ok, out, needComma
      ensures Valid() && State() == Key(old(State()), k) && r == ok
    {
      if !ok { return false; }
      if depth == 0 {
        r := Fail();
        return;
      }
      var idx := depth - 1;
      if needComma[idx] {
        r := Append(",");
        if !r {
          FeedStopped(State(), EscapedChars(k));
          return;
        }
      }
      r := Append("\"");
      FeedStopped(State(), EscapedChars(k));
      if !r { return; }
      r := StringBody(k);
      if !r { return; }
      r := Append("\":");
      if !r { return; }
      needComma[idx] := false;
    }

    method StringVal(s: string) returns (r: bool)
      requires Valid()
      modifies this`used, this`ok, out, needComma
      ensures Valid() && State() == Scalar(old(State()), Quoted(s)) && r == ok
    {
      r := OpenValue();
      ghost var at := State();
      QuotedFeed(at, s);
      FeedStopped(Put(at, "\""), EscapedChars(s));
      if !r { return; }
      r := Append("\"");
      if !r { return; }
      r := StringBody(s);
      if !r { return; }
      r := Append("\"");
      if !r { return; }
      r := CloseValue();
    }

    /** `token` is the text the number formats to. */
    method NumberVal(token: string) returns (r: bool)
      requires Valid()
      modifies this`used, this`ok, out, needComma
      ensures Valid() && State() == NumberScalar(old(State()), token) && r == ok
    {
      r := OpenValue();
      FeedOne(State(), token);
      if !r { return; }
      if |token| == 0 || |token| >= TOKEN_SPACE {
        r := Fail();
        return;
      }
      r := Append(token);
      if !r { return; }
      r := CloseValue();
    }

    method BoolVal(b: bool) returns (r: bool)
      requires Valid()
      modifies this`used, this`ok, out, needComma
      ensures Valid() && State() == Scalar(old(State()), [if b then "true" else "false"]) && r == ok
    {
      r := RawVal(if b then "true" else "false");
    }

    method NullVal() returns (r: bool)
      requires Valid()
      modifies this`used, this`ok, out, needComma
      ensures Valid() && State() == Scalar(old(State()), ["null"]) && r == ok
    {
      r := RawVal("null");
    }

    method RawVal(raw: string) returns (r: bool)
      requires Valid()
      modifies this`used, this`ok, out, needComma
      ensures Valid() && State() == Scalar(old(State()), [raw]) && r == ok
    {
      r := OpenValue();
      FeedOne(State(), raw);
      if !r { return; }
      r := Append(raw);
      if !r { return; }
      r := CloseValue();
    }
  }

  lemma {:induction false} FeedStopped(w: Draft, chunks: seq<string>)
    ensures !w.ok ==> Feed(w, chunks) == w
    decreases |chunks|
  {
    if !w.ok && chunks != [] { FeedStopped(w, chunks[1..]); }
  }

  lemma {:induction false} FeedSplit(w: Draft, chunks: seq<string>, last: string)
    ensures Feed(w, chunks + [last]) == Put(Feed(w, chunks), last)
    decreases |chunks|
  {
    if chunks == [] {
      assert chunks + [last] == [last];
    } else {
      assert (chunks + [last])[1..] == chunks[1..] + [last];
      FeedSplit(Put(w, chunks[0]), chunks[1..], last);
    }
  }

  lemma QuotedFeed(w: Draft, s: string)
    ensures Feed(w, Quoted(s)) == Put(Feed(Put(w, "\""), EscapedChars(s)), "\"")
  {
    hide Put;
    FeedSplit(w, ["\""] + EscapedChars(s), "\"");
    assert (["\""] + EscapedChars(s))[1..] == EscapedChars(s);
  }

  lemma FeedOne(w: Draft, s: string)
    ensures Feed(w, [s]) == Put(w, s)
  {
    assert Feed(Put(w, s), [s][1..]) == Put(w, s);
  }
}
