/** How deep the builder writes and how deep the parser reads. */
module JsonLimits {
  import opened JsonRoundTrip
  import opened JsonText
  import opened JsonWriter
  import opened Options

  // --- The parser reads values nested at most 32 deep, and no others ---

  /** A value nested too deep for the place it stands at is refused. */
  lemma {:induction false} ValueTooDeep(scan: Scan, text: string, p: nat, v: Json, depth: nat)
    requires StartsAt(text, p, Render(v)) && Stops(text, p + |Render(v)|)
    requires Writable(scan, v) && depth + Depth(v) > MAX_DEPTH
    ensures p <= |text| && ReadValue(scan, text, p, depth).None?
    decreases v, 0
  {
    hide ReadValue, SkipWs, Stops, ScansBack, WritableItems, DepthItems, RenderItems;
    if depth > MAX_DEPTH {
      DepthRefused(scan, text, p, depth);
    } else if v.Array? {
      ContainerTooDeep(scan, text, p, v.items, false, depth);
    } else {
      ContainerTooDeep(scan, text, p, v.items, true, depth);
    }
  }

  lemma DepthRefused(scan: Scan, text: string, p: nat, depth: nat)
    requires p <= |text| && depth > MAX_DEPTH
    ensures ReadValue(scan, text, p, depth).None?
  {
  }

  /** One unfolding of `ReadValue` at an opening bracket whose items are refused. */
  lemma RefusedInside(scan: Scan, text: string, p: nat, depth: nat, keyed: bool)
    requires p + 1 <= |text| && At(text, p) == (if keyed then '{' else '[') && SkipWs(text, p) == p
    requires SkipWs(text, p + 1) == p + 1 && At(text, p + 1) != Closer(keyed)
    requires ReadItems(scan, text, p + 1, depth, keyed).None?
    ensures ReadValue(scan, text, p, depth).None?
  {
    hide ReadItems, SkipWs, DecodeBody;
  }

  lemma {:induction false} ContainerTooDeep(scan: Scan, text: string, p: nat, items: seq<Item>, keyed: bool, depth: nat)
    requires StartsAt(text, p, Render(Container(keyed, items)))
    requires WritableItems(scan, items, keyed) && depth <= MAX_DEPTH < depth + DepthItems(items)
    ensures p <= |text| && ReadValue(scan, text, p, depth).None?
    decreases items, 2
  {
    hide *;
    OpenerStart(text, p, items, keyed);
    NoDepth(items);
    ItemsStart(scan, text, p + 1, items, keyed);
    ItemsTooDeep(scan, text, p + 1, items, keyed, depth);
    RefusedInside(scan, text, p, depth, keyed);
  }

  lemma NoDepth(items: seq<Item>)
    requires DepthItems(items) > 0
    ensures items != []
  {
  }

  lemma {:induction false} ItemsTooDeep(scan: Scan, text: string, p: nat, items: seq<Item>, keyed: bool, depth: nat)
    requires items != [] && StartsAt(text, p, RenderItems(items, keyed) + [Closer(keyed)])
    requires WritableItems(scan, items, keyed) && depth <= MAX_DEPTH < depth + DepthItems(items)
    ensures p <= |text| && ReadItems(scan, text, p, depth, keyed).None?
    decreases items, 1
  {
    hide *;
    ItemsSplit(text, p, items, keyed);
    var item := items[0];
    var k := p + |KeyText(item, keyed)|;
    var sep := k + |Render(item.value)|;
    FirstWritable(scan, items, keyed);
    FirstOrRest(items);
    TailStart(text, sep, items, keyed);
    KeyTextReadsBack(text, p, item, keyed);
    if depth + 1 + Depth(item.value) > MAX_DEPTH {
      ValueTooDeep(scan, text, k, item.value, depth + 1);
    } else {
      ValueReadsBack(scan, text, k, item.value, depth + 1);
      NoDepth(items[1..]);
      ItemsTooDeep(scan, text, sep + 1, items[1..], keyed, depth);
    }
    ItemsRefused(scan, text, p, depth, keyed, item, k, sep);
  }

  lemma FirstWritable(scan: Scan, items: seq<Item>, keyed: bool)
    requires items != [] && WritableItems(scan, items, keyed)
    ensures Writable(scan, items[0].value) && (keyed || items[0].key == "") && WritableItems(scan, items[1..], keyed)
  {
    hide Writable;
  }

  lemma FirstOrRest(items: seq<Item>)
    requires items != []
    ensures DepthItems(items) == if 1 + Depth(items[0].value) > DepthItems(items[1..])
                                 then 1 + Depth(items[0].value)
                                 else DepthItems(items[1..])
  {
    hide Depth;
  }

  /** One unfolding of `ReadItems` when the value, or what follows its comma, is refused. */
  lemma ItemsRefused(scan: Scan, text: string, p: nat, depth: nat, keyed: bool, item: Item, k: nat, sep: nat)
    requires p <= |text| && k <= |text| && sep <= |text| && ReadKey(text, p, keyed) == Some((item.key, k))
    requires ReadValue(scan, text, k, depth + 1).None?
             || (ReadValue(scan, text, k, depth + 1) == Some((item.value, sep)) && SkipWs(text, sep) == sep
                 && At(text, sep) == ','
                 && ReadItems(scan, text, sep + 1, depth, keyed).None?)
    ensures ReadItems(scan, text, p, depth, keyed).None?
  {
    hide ReadKey, ReadValue, SkipWs;
  }

  /** A rendered document is read back as its value if it is nested at most 32 deep, and else refused. */
  lemma ReadsIffShallow(scan: Scan, v: Json)
    requires Writable(scan, v)
    ensures ReadDocument(scan, Render(v)) == if Depth(v) <= MAX_DEPTH then Some(v) else None
  {
    hide ReadValue, Writable, Render, Depth;
    if Depth(v) <= MAX_DEPTH {
      DocumentReadsBack(scan, v);
    } else {
      assert StartsAt(Render(v), 0, Render(v));
      ValueTooDeep(scan, Render(v), 0, v, 0);
    }
  }

  // --- The builder counts empty containers too ---

  /** Nesting of containers, empty ones included. */
  function Levels(v: Json): nat
    decreases v, 0
  {
    if v.Array? || v.Object? then 1 + LevelsItems(v.items) else 0
  }

  function LevelsItems(items: seq<Item>): nat
    decreases items, 1
  {
    if items == [] then 0
    else
      var first, rest := Levels(items[0].value), LevelsItems(items[1..]);
      if first > rest then first else rest
  }

  /** Every number is written with 1 to 31 characters. */
  predicate ShortTokens(v: Json)
    decreases v, 0
  {
    (v.Number? ==> 0 < |v.token| < TOKEN_SPACE) && (v.Array? || v.Object? ==> ShortItems(v.items))
  }

  predicate ShortItems(items: seq<Item>)
    decreases items, 1
  {
    items != [] ==> ShortTokens(items[0].value) && ShortItems(items[1..])
  }

  lemma {:induction false} FitsIffShallow(open: nat, v: Json)
    requires open <= MAX_DEPTH
    ensures Fits(open, v) <==> ShortTokens(v) && open + Levels(v) <= MAX_DEPTH
    decreases v, 0
  {
    hide FitsItems, ShortItems, LevelsItems;
    if (v.Array? || v.Object?) && open < MAX_DEPTH { ItemsFitIffShallow(open + 1, v.items); }
  }

  lemma {:induction false} ItemsFitIffShallow(open: nat, items: seq<Item>)
    requires open <= MAX_DEPTH
    ensures FitsItems(open, items) <==> ShortItems(items) && open + LevelsItems(items) <= MAX_DEPTH
    decreases items, 1
  {
    hide Fits, ShortTokens, Levels;
    if items != [] {
      FitsIffShallow(open, items[0].value);
      ItemsFitIffShallow(open, items[1..]);
    }
  }

  /** An empty container stands inside exactly `n` others. */
  predicate EmptyInside(v: Json, n: nat)
    decreases v, 0
  {
    (v.Array? || v.Object?) && if v.items == [] then n == 0 else n > 0 && SomeEmptyInside(v.items, n - 1)
  }

  predicate SomeEmptyInside(items: seq<Item>, n: nat)
    decreases items, 1
  {
    items != [] && (EmptyInside(items[0].value, n) || SomeEmptyInside(items[1..], n))
  }

  lemma {:induction false} OnlyEmptyIsDeeper(v: Json, n: nat)
    requires Depth(v) <= n
    ensures Levels(v) <= n <==> !EmptyInside(v, n)
    decreases v, 0
  {
    hide DepthItems, LevelsItems, SomeEmptyInside;
    if v.Array? || v.Object? {
      if v.items == [] {
        NoLevels();
      } else {
        FirstOrRest(v.items);
        OnlyEmptyAreDeeper(v.items, n - 1);
      }
    }
  }

  lemma NoLevels()
    ensures LevelsItems([]) == 0
  {
  }

  lemma {:induction false} OnlyEmptyAreDeeper(items: seq<Item>, n: nat)
    requires DepthItems(items) <= n + 1
    ensures LevelsItems(items) <= n <==> !SomeEmptyInside(items, n)
    decreases items, 1
  {
    hide Depth, Levels, EmptyInside;
    if items != [] {
      OnlyEmptyIsDeeper(items[0].value, n);
      OnlyEmptyAreDeeper(items[1..], n);
    }
  }

  /** Some buffer is large enough for the builder to finish the value. */
  ghost predicate CanWrite(v: Json) {
    exists cap: nat :: Emit(Blank(cap), v).ok
  }

  lemma WritesIffShallow(scan: Scan, v: Json)
    ensures CanWrite(v) <==> ShortTokens(v) && Levels(v) <= MAX_DEPTH
  {
    hide Emit, Fits, Render, Levels, ShortTokens;
    FitsIffShallow(0, v);
    forall cap: nat ensures Emit(Blank(cap), v).ok <==> Fits(0, v) && |Render(v)| < cap {
      WrittenReadsBack(scan, cap, v);
    }
    assert Fits(0, v) ==> Emit(Blank(|Render(v)| + 1), v).ok;
  }

  /** What the builder can write the parser reads. They differ on exactly those values the parser reads
      and that have an empty container inside 32 others, which the builder refuses to open. */
  lemma NestingLimits(scan: Scan, v: Json)
    requires Writable(scan, v) && ShortTokens(v)
    ensures ReadDocument(scan, Render(v)) == Some(v) <==> Depth(v) <= MAX_DEPTH
    ensures CanWrite(v) <==> Levels(v) <= MAX_DEPTH
    ensures CanWrite(v) <==> ReadDocument(scan, Render(v)) == Some(v) && !EmptyInside(v, MAX_DEPTH)
  {
    hide CanWrite, ReadDocument, Render, Writable, Depth, Levels, EmptyInside, ShortTokens;
    ReadsIffShallow(scan, v);
    WritesIffShallow(scan, v);
    DepthBelowLevels(v);
    if Depth(v) <= MAX_DEPTH { OnlyEmptyIsDeeper(v, MAX_DEPTH); }
  }

  lemma {:induction false} DepthBelowLevels(v: Json)
    ensures Depth(v) <= Levels(v)
    decreases v, 0
  {
    hide DepthItems, LevelsItems;
    if v.Array? || v.Object? { ItemsBelowLevels(v.items); }
  }

  lemma {:induction false} ItemsBelowLevels(items: seq<Item>)
    ensures DepthItems(items) <= 1 + LevelsItems(items)
    decreases items, 1
  {
    hide Depth, Levels;
    if items != [] {
      DepthBelowLevels(items[0].value);
      ItemsBelowLevels(items[1..]);
    }
  }

  // --- A value on which they differ ---

  /** An empty array inside `n` arrays. */
  function Nested(n: nat): Json {
    if n == 0 then Array([]) else Array([Item("", Nested(n - 1))])
  }

  lemma {:induction false} NestedMeasures(scan: Scan, n: nat)
    ensures Depth(Nested(n)) == n && EmptyInside(Nested(n), n)
    ensures Writable(scan, Nested(n)) && ShortTokens(Nested(n))
    decreases n
  {
    if n > 0 {
      NestedMeasures(scan, n - 1);
      OneElement(scan, Nested(n - 1), n - 1);
    }
  }

  lemma OneElement(scan: Scan, v: Json, n: nat)
    ensures var a := Array([Item("", v)]);
            && Depth(a) == 1 + Depth(v) && (Writable(scan, a) <==> Writable(scan, v))
            && (ShortTokens(a) <==> ShortTokens(v)) && (EmptyInside(a, n + 1) <==> EmptyInside(v, n))
  {
    var items := [Item("", v)];
    assert items[1..] == [];
    assert DepthItems(items[1..]) == 0 && WritableItems(scan, items[1..], false);
    assert ShortItems(items[1..]) && !SomeEmptyInside(items[1..], n);
    hide Depth, Writable, ShortTokens, EmptyInside;
    assert DepthItems(items) == 1 + Depth(v);
    assert WritableItems(scan, items, false) <==> Writable(scan, v);
    assert ShortItems(items) <==> ShortTokens(v);
    assert SomeEmptyInside(items, n) <==> EmptyInside(v, n);
    ArrayMeasures(scan, items, n);
  }

  lemma ArrayMeasures(scan: Scan, items: seq<Item>, n: nat)
    requires items != []
    ensures Depth(Array(items)) == DepthItems(items)
            && (Writable(scan, Array(items)) <==> WritableItems(scan, items, false))
    ensures (ShortTokens(Array(items)) <==> ShortItems(items))
            && (EmptyInside(Array(items), n + 1) <==> SomeEmptyInside(items, n))
  {
    hide DepthItems, WritableItems, ShortItems, SomeEmptyInside;
  }

  /** An empty array inside 32 arrays is read, and no buffer lets the builder write it. */
  lemma ReadButNotWritten(scan: Scan)
    ensures var v := Nested(MAX_DEPTH);
            ReadDocument(scan, Render(v)) == Some(v) && !CanWrite(v)
  {
    hide CanWrite, ReadDocument, Render, Writable, Depth, Levels, EmptyInside, ShortTokens, Nested;
    NestedMeasures(scan, MAX_DEPTH);
    NestingLimits(scan, Nested(MAX_DEPTH));
  }
}
