/** Reading back a rendered value gives that value. The proof follows the value: what stands at a
    position is cut into its pieces, each piece is read back, and one unfolding of the reader puts
    the results together. */
module JsonRoundTrip {
  import opened JsonText
  import opened Options
  import opened Slices

  /** What may follow a value inside a document. */
  predicate Stops(text: string, q: nat) {
    var c := At(text, q);
    q == |text| || c == ',' || c == '}' || c == ']'
  }

  /** The number scanner takes exactly the token, wherever it stands and whatever legally follows. */
  ghost predicate ScansBack(scan: Scan, token: string) {
    && token != "" && (token[0] == '-' || '0' <= token[0] <= '9')
    && forall text, p: nat :: StartsAt(text, p, token) && Stops(text, p + |token|) ==> scan(text, p) == p + |token|
  }

  /** Values the writer can be asked for: scannable numbers, and array elements without keys. */
  ghost predicate Writable(scan: Scan, v: Json)
    decreases v, 0
  {
    match v
    case Number(token) => ScansBack(scan, token)
    case Array(items) => WritableItems(scan, items, false)
    case Object(items) => WritableItems(scan, items, true)
    case _ => true
  }

  ghost predicate WritableItems(scan: Scan, items: seq<Item>, keyed: bool)
    decreases items, 1
  {
    items != [] ==>
      Writable(scan, items[0].value) && (keyed || items[0].key == "") && WritableItems(scan, items[1..], keyed)
  }

  lemma StartsSplit(text: string, p: nat, a: string, b: string)
    requires StartsAt(text, p, a + b)
    ensures StartsAt(text, p, a) && StartsAt(text, p + |a|, b)
  {
    assert text[p..p + |a + b|][..|a|] == text[p..p + |a|];
    assert text[p..p + |a + b|][|a|..] == text[p + |a|..p + |a| + |b|];
  }

  lemma StartsGrouped(text: string, p: nat, a: string, b: string, c: string)
    requires StartsAt(text, p, (a + b) + c)
    ensures StartsAt(text, p, a) && StartsAt(text, p + |a|, b + c)
  {
    hide StartsAt;
    Regroup(a, b, c);
    StartsSplit(text, p, a, b + c);
  }

  lemma StartsChar(text: string, p: nat, s: string)
    requires StartsAt(text, p, s) && s != ""
    ensures p < |text| && At(text, p) == text[p] == s[0]
  {
    assert text[p..p + |s|][0] == text[p];
  }

  lemma EscapeReadsBack(text: string, p: nat, c: char)
    requires StartsAt(text, p, Escaped(c))
    ensures p < |text| && text[p] != '"' && DecodeOne(text, p) == Some(([c], p + |Escaped(c)|))
  {
    StartsChar(text, p, Escaped(c));
    if |Escaped(c)| == 2 {
      assert Escaped(c) == [Escaped(c)[0]] + [Escaped(c)[1]];
      StartsSplit(text, p, [Escaped(c)[0]], [Escaped(c)[1]]);
      StartsChar(text, p + 1, [Escaped(c)[1]]);
    }
  }

  lemma DecodeBodyStep(text: string, p: nat, c: char, next: nat, rest: string, end: nat)
    requires p < |text| && text[p] != '"' && DecodeOne(text, p) == Some(([c], next))
    requires next <= |text| && DecodeBody(text, next) == Some((rest, end))
    ensures DecodeBody(text, p) == Some(([c] + rest, end))
  {
    hide DecodeOne;
  }

  lemma RenderCharsStep(s: string)
    requires s != ""
    ensures RenderChars(s) + "\"" == (Escaped(s[0]) + RenderChars(s[1..])) + "\""
    ensures |RenderChars(s)| == |Escaped(s[0])| + |RenderChars(s[1..])|
  {
    hide Escaped;
  }

  lemma NoCharsReadBack(text: string, p: nat)
    requires StartsAt(text, p, RenderChars("") + "\"")
    ensures DecodeBody(text, p) == Some(("", p + |RenderChars("")| + 1))
  {
    StartsChar(text, p, "\"");
  }

  lemma {:induction false} CharsReadBack(text: string, p: nat, s: string)
    requires StartsAt(text, p, RenderChars(s) + "\"")
    ensures DecodeBody(text, p) == Some((s, p + |RenderChars(s)| + 1))
    decreases |s|
  {
    hide *;
    if s == "" {
      NoCharsReadBack(text, p);
    } else {
      var one, rest := Escaped(s[0]), RenderChars(s[1..]);
      RenderCharsStep(s);
      StartsGrouped(text, p, one, rest, "\"");
      EscapeReadsBack(text, p, s[0]);
      CharsReadBack(text, p + |one|, s[1..]);
      DecodeBodyStep(text, p, s[0], p + |one|, s[1..], p + |one| + |rest| + 1);
      assert [s[0]] + s[1..] == s;
    }
  }

  lemma NoSpace(text: string, p: nat)
    requires p < |text| && !IsSpace(text[p])
    ensures SkipWs(text, p) == p
  {
  }

  lemma KeyReadsBack(text: string, p: nat, key: string)
    requires StartsAt(text, p, RenderString(key) + ":")
    ensures ReadKey(text, p, true) == Some((key, p + |RenderString(key)| + 1))
  {
    hide RenderChars, DecodeBody, SkipWs;
    var body := RenderChars(key) + "\"";
    Regroup("\"", RenderChars(key), "\"");
    Regroup("\"", body, ":");
    StartsSplit(text, p, "\"", body + ":");
    StartsSplit(text, p + 1, body, ":");
    StartsChar(text, p, "\"");
    StartsChar(text, p + 1 + |body|, ":");
    NoSpace(text, p);
    CharsReadBack(text, p + 1, key);
    NoSpace(text, p + 1 + |body|);
  }

  lemma RenderStart(scan: Scan, v: Json)
    requires Writable(scan, v)
    ensures Render(v) != "" && !IsSpace(Render(v)[0]) && Render(v)[0] != '}' && Render(v)[0] != ']'
  {
    hide ScansBack;
    if v.Number? { TokenStart(scan, v.token); }
  }

  lemma TokenStart(scan: Scan, token: string)
    requires ScansBack(scan, token)
    ensures token != "" && (token[0] == '-' || '0' <= token[0] <= '9')
  {
  }

  /** A string is read back as the value it renders. */
  lemma StringReadsBack(scan: Scan, text: string, p: nat, s: string, depth: nat)
    requires StartsAt(text, p, RenderString(s)) && depth <= MAX_DEPTH
    ensures ReadValue(scan, text, p, depth) == Some((Str(s), p + |RenderString(s)|))
  {
    hide RenderChars, DecodeBody, SkipWs;
    var body := RenderChars(s) + "\"";
    Regroup("\"", RenderChars(s), "\"");
    StartsSplit(text, p, "\"", body);
    StartsChar(text, p, "\"");
    NoSpace(text, p);
    CharsReadBack(text, p + 1, s);
  }

  lemma NumberReadsBack(scan: Scan, text: string, p: nat, token: string, depth: nat)
    requires StartsAt(text, p, token) && Stops(text, p + |token|) && ScansBack(scan, token) && depth <= MAX_DEPTH
    ensures ReadValue(scan, text, p, depth) == Some((Number(token), p + |token|))
  {
    StartsChar(text, p, token);
    NoSpace(text, p);
    assert scan(text, p) == p + |token|;
    hide SkipWs, StartsAt, DecodeBody;
    assert text[p..p + |token|] == token by { TextAt(text, p, token); }
  }

  lemma TextAt(text: string, p: nat, s: string)
    requires StartsAt(text, p, s)
    ensures p + |s| <= |text| && text[p..p + |s|] == s
  {
  }

  lemma KeywordReadsBack(scan: Scan, text: string, p: nat, v: Json, depth: nat)
    requires (v.Null? || v.Bool?) && StartsAt(text, p, Render(v)) && depth <= MAX_DEPTH
    ensures ReadValue(scan, text, p, depth) == Some((v, p + |Render(v)|))
  {
    StartsChar(text, p, Render(v));
    NoSpace(text, p);
    hide SkipWs, DecodeBody;
  }

  /** Reading what was rendered gives the value back, at any position of any text, up to depth 32. */
  lemma {:induction false} ValueReadsBack(scan: Scan, text: string, p: nat, v: Json, depth: nat)
    requires StartsAt(text, p, Render(v)) && Stops(text, p + |Render(v)|)
    requires Writable(scan, v) && depth + Depth(v) <= MAX_DEPTH
    ensures ReadValue(scan, text, p, depth) == Some((v, p + |Render(v)|))
    decreases v, 0
  {
    hide ReadValue, SkipWs, StartsAt, ScansBack, Stops, WritableItems, DepthItems, RenderItems;
    match v
    case Null => KeywordReadsBack(scan, text, p, v, depth);
    case Bool(_) => KeywordReadsBack(scan, text, p, v, depth);
    case Number(token) => NumberReadsBack(scan, text, p, token, depth);
    case Str(s) => StringReadsBack(scan, text, p, s, depth);
    case Array(items) => ContainerReadsBack(scan, text, p, items, false, depth);
    case Object(items) => ContainerReadsBack(scan, text, p, items, true, depth);
  }

  /** One unfolding of `ReadItems` when nothing but the item and its separator stand there. */
  lemma ReadItemsStep(scan: Scan, text: string, p: nat, depth: nat, keyed: bool, item: Item, k: nat, sep: nat)
    requires p <= |text| && k <= |text| && sep <= |text|
    requires ReadKey(text, p, keyed) == Some((item.key, k))
             && ReadValue(scan, text, k, depth + 1) == Some((item.value, sep))
    requires SkipWs(text, sep) == sep
    ensures At(text, sep) == Closer(keyed) ==> ReadItems(scan, text, p, depth, keyed) == Some(([item], sep + 1))
    ensures At(text, sep) == ',' && ReadItems(scan, text, sep + 1, depth, keyed).Some? ==>
              ReadItems(scan, text, p, depth, keyed)
              == Some(([item] + ReadItems(scan, text, sep + 1, depth, keyed).value.0,
                       ReadItems(scan, text, sep + 1, depth, keyed).value.1))
  {
    hide ReadKey, ReadValue, SkipWs;
  }

  /** One unfolding of `ReadValue` at an opening bracket with no white space around. */
  lemma ReadContainerStep(scan: Scan, text: string, p: nat, depth: nat, keyed: bool)
    requires p + 1 <= |text| && depth <= MAX_DEPTH && At(text, p) == (if keyed then '{' else '[')
    requires SkipWs(text, p) == p && SkipWs(text, p + 1) == p + 1
    ensures At(text, p + 1) == Closer(keyed) ==> ReadValue(scan, text, p, depth) == Some((Container(keyed, []), p + 2))
    ensures At(text, p + 1) != Closer(keyed) && ReadItems(scan, text, p + 1, depth, keyed).Some? ==>
              ReadValue(scan, text, p, depth)
              == Some((Container(keyed, ReadItems(scan, text, p + 1, depth, keyed).value.0),
                       ReadItems(scan, text, p + 1, depth, keyed).value.1))
  {
    hide ReadItems, SkipWs, DecodeBody;
  }

  lemma {:induction false} ContainerReadsBack(scan: Scan, text: string, p: nat, items: seq<Item>, keyed: bool,
                                              depth: nat)
    requires StartsAt(text, p, Render(Container(keyed, items)))
    requires WritableItems(scan, items, keyed) && depth + DepthItems(items) <= MAX_DEPTH
    ensures ReadValue(scan, text, p, depth) == Some((Container(keyed, items), p + |Render(Container(keyed, items))|))
    decreases items, 2
  {
    hide *;
    OpenerStart(text, p, items, keyed);
    if items != [] {
      ItemsStart(scan, text, p + 1, items, keyed);
      ItemsReadBack(scan, text, p + 1, items, keyed, depth);
    }
    ReadContainerStep(scan, text, p, depth, keyed);
  }

  lemma OpenerStart(text: string, p: nat, items: seq<Item>, keyed: bool)
    requires StartsAt(text, p, Render(Container(keyed, items)))
    ensures p + 1 <= |text| && At(text, p) == (if keyed then '{' else '[') && SkipWs(text, p) == p
    ensures StartsAt(text, p + 1, RenderItems(items, keyed) + [Closer(keyed)])
    ensures |Render(Container(keyed, items))| == 2 + |RenderItems(items, keyed)|
    ensures items == [] ==>
              SkipWs(text, p + 1) == p + 1 && At(text, p + 1) == Closer(keyed) && RenderItems(items, keyed) == ""
  {
    hide RenderItems, StartsAt, SkipWs;
    var opener, body := if keyed then "{" else "[", RenderItems(items, keyed) + [Closer(keyed)];
    assert Render(Container(keyed, items)) == opener + body;
    StartsSplit(text, p, opener, body);
    StartsChar(text, p, opener);
    NoSpace(text, p);
    if items == [] {
      NoItems(keyed);
      StartsChar(text, p + 1, body);
      NoSpace(text, p + 1);
    }
  }

  lemma NoItems(keyed: bool)
    ensures RenderItems([], keyed) == ""
  {
  }

  lemma ItemsStart(scan: Scan, text: string, p: nat, items: seq<Item>, keyed: bool)
    requires items != [] && WritableItems(scan, items, keyed)
             && StartsAt(text, p, RenderItems(items, keyed) + [Closer(keyed)])
    ensures SkipWs(text, p) == p && At(text, p) != Closer(keyed)
  {
    RenderStart(scan, items[0].value);
    assert (RenderItems(items, keyed) + [Closer(keyed)])[0] == RenderItem(items[0], keyed)[0];
    StartsChar(text, p, RenderItems(items, keyed) + [Closer(keyed)]);
    NoSpace(text, p);
  }

  function KeyText(item: Item, keyed: bool): string {
    if keyed then RenderString(item.key) + ":" else ""
  }

  /** What stands behind the first of several items: a comma and the others, or the closer. */
  function TailText(items: seq<Item>, keyed: bool): string {
    if |items| > 1 then "," + (RenderItems(items[1..], keyed) + [Closer(keyed)]) else [Closer(keyed)]
  }

  /** The commas and items behind the first item. */
  function OtherText(items: seq<Item>, keyed: bool): string {
    if |items| > 1 then "," + RenderItems(items[1..], keyed) else ""
  }

  lemma TailIsOthers(items: seq<Item>, keyed: bool)
    ensures TailText(items, keyed) == OtherText(items, keyed) + [Closer(keyed)]
  {
    hide RenderItems, Closer;
    if |items| > 1 { Regroup(",", RenderItems(items[1..], keyed), [Closer(keyed)]); }
  }

  lemma ItemsSplit(text: string, p: nat, items: seq<Item>, keyed: bool)
    requires items != [] && StartsAt(text, p, RenderItems(items, keyed) + [Closer(keyed)])
    ensures var key, value, tail := KeyText(items[0], keyed), Render(items[0].value), TailText(items, keyed);
            && StartsAt(text, p, key) && StartsAt(text, p + |key|, value) && StartsAt(text, p + |key| + |value|, tail)
            && |RenderItems(items, keyed)| + 1 == |key| + |value| + |tail|
  {
    hide Render, RenderString, StartsAt;
    var key, value, tail := KeyText(items[0], keyed), Render(items[0].value), TailText(items, keyed);
    var rest := OtherText(items, keyed);
    TailIsOthers(items, keyed);
    assert RenderItems(items, keyed) == (key + value) + rest;
    hide *;
    StartsGrouped(text, p, key + value, rest, [Closer(keyed)]);
    StartsSplit(text, p, key, value);
    assert p + |key + value| == p + |key| + |value|;
  }

  lemma KeyTextReadsBack(text: string, p: nat, item: Item, keyed: bool)
    requires StartsAt(text, p, KeyText(item, keyed)) && (keyed || item.key == "")
    ensures ReadKey(text, p, keyed) == Some((item.key, p + |KeyText(item, keyed)|))
  {
    if keyed { KeyReadsBack(text, p, item.key); }
  }

  lemma FirstItem(scan: Scan, items: seq<Item>, keyed: bool, depth: nat)
    requires items != [] && WritableItems(scan, items, keyed) && depth + DepthItems(items) <= MAX_DEPTH
    ensures Writable(scan, items[0].value) && (keyed || items[0].key == "")
            && depth + 1 + Depth(items[0].value) <= MAX_DEPTH
    ensures WritableItems(scan, items[1..], keyed) && depth + DepthItems(items[1..]) <= MAX_DEPTH
  {
    hide Writable, Depth;
  }

  lemma TailStart(text: string, sep: nat, items: seq<Item>, keyed: bool)
    requires items != [] && StartsAt(text, sep, TailText(items, keyed))
    ensures sep < |text| && SkipWs(text, sep) == sep && Stops(text, sep)
    ensures |items| == 1 ==> At(text, sep) == Closer(keyed) && |TailText(items, keyed)| == 1
    ensures |items| > 1 ==>
              At(text, sep) == ',' && StartsAt(text, sep + 1, RenderItems(items[1..], keyed) + [Closer(keyed)])
    ensures |items| > 1 ==> |TailText(items, keyed)| == 2 + |RenderItems(items[1..], keyed)|
  {
    hide RenderItems, StartsAt;
    StartsChar(text, sep, TailText(items, keyed));
    NoSpace(text, sep);
    if |items| > 1 { StartsSplit(text, sep, ",", RenderItems(items[1..], keyed) + [Closer(keyed)]); }
  }

  lemma {:induction false} ItemsReadBack(scan: Scan, text: string, p: nat, items: seq<Item>, keyed: bool, depth: nat)
    requires items != [] && StartsAt(text, p, RenderItems(items, keyed) + [Closer(keyed)])
    requires WritableItems(scan, items, keyed) && depth + DepthItems(items) <= MAX_DEPTH
    ensures ReadItems(scan, text, p, depth, keyed) == Some((items, p + |RenderItems(items, keyed)| + 1))
    decreases items, 1
  {
    hide *;
    ItemsSplit(text, p, items, keyed);
    var item := items[0];
    var k := p + |KeyText(item, keyed)|;
    var sep := k + |Render(item.value)|;
    FirstItem(scan, items, keyed, depth);
    TailStart(text, sep, items, keyed);
    KeyTextReadsBack(text, p, item, keyed);
    ValueReadsBack(scan, text, k, item.value, depth + 1);
    if |items| > 1 {
      ItemsReadBack(scan, text, sep + 1, items[1..], keyed, depth);
      assert [item] + items[1..] == items;
    } else {
      assert items == [item];
    }
    ReadItemsStep(scan, text, p, depth, keyed, item, k, sep);
  }

  /** A rendered document is read back whole. */
  lemma DocumentReadsBack(scan: Scan, v: Json)
    requires Writable(scan, v) && Depth(v) <= MAX_DEPTH
    ensures ReadDocument(scan, Render(v)) == Some(v)
  {
    var text := Render(v);
    assert StartsAt(text, 0, text);
    ValueReadsBack(scan, text, 0, v, 0);
  }
}
