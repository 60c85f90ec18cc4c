/** From a tree through the builder's buffer and the parser's pool to the same tree. */
module JsonDocument {
  import opened JsonParser
  import opened JsonPool
  import opened JsonRoundTrip
  import opened JsonScratch
  import opened JsonText
  import opened JsonWriter

  /** The calls for a tree, on the builder itself. */
  method WriteTree(w: JsonWriter, v: Json)
    requires w.Valid()
    modifies w, w.out, w.needComma
    ensures w.Valid() && w.State() == Emit(old(w.State()), v)
    decreases v, 0
  {
    hide Put, Begin, End, Key, Scalar, NumberScalar, EmitItems, Quoted;
    match v
    case Null => var _ := w.NullVal();
    case Bool(b) => var _ := w.BoolVal(b);
    case Number(token) => var _ := w.NumberVal(token);
    case Str(s) => var _ := w.StringVal(s);
    case Array(items) =>
      var _ := w.BeginArray();
      WriteItems(w, items, false);
      var _ := w.EndArray();
    case Object(items) =>
      var _ := w.BeginObject();
      WriteItems(w, items, true);
      var _ := w.EndObject();
  }

  method WriteItems(w: JsonWriter, items: seq<Item>, keyed: bool)
    requires w.Valid()
    modifies w, w.out, w.needComma
    ensures w.Valid() && w.State() == EmitItems(old(w.State()), items, keyed)
    decreases items, 1
  {
    hide Put, Key, Emit;
    if items != [] {
      if keyed { var _ := w.AddKey(items[0].key); }
      WriteTree(w, items[0].value);
      WriteItems(w, items[1..], keyed);
    }
  }

  // --- No terminator inside ---

  predicate NulFree(v: Json)
    decreases v, 0
  {
    match v
    case Number(token) => '\0' !in token
    case Str(s) => '\0' !in s
    case Array(items) => NulFreeItems(items)
    case Object(items) => NulFreeItems(items)
    case _ => true
  }

  predicate NulFreeItems(items: seq<Item>)
    decreases items, 1
  {
    items != [] ==> '\0' !in items[0].key && NulFree(items[0].value) && NulFreeItems(items[1..])
  }

  lemma {:induction false} CharsNulFree(s: string)
    requires '\0' !in s
    ensures '\0' !in RenderChars(s)
    decreases |s|
  {
    if s != "" {
      assert s[0] in s;
      assert '\0' !in Escaped(s[0]);
      CharsNulFree(s[1..]);
    }
  }

  /** The rendering of a tree without terminators has none. */
  lemma {:induction false} RenderNulFree(v: Json)
    requires NulFree(v)
    ensures '\0' !in Render(v)
    decreases v, 0
  {
    hide NulFreeItems, RenderItems, RenderChars;
    match v
    case Str(s) => CharsNulFree(s);
    case Array(items) => ItemsNulFree(items, false);
    case Object(items) => ItemsNulFree(items, true);
    case _ =>
  }

  lemma {:induction false} ItemsNulFree(items: seq<Item>, keyed: bool)
    requires NulFreeItems(items)
    ensures '\0' !in RenderItems(items, keyed)
    decreases items, 1
  {
    hide NulFree, Render, RenderChars;
    if items != [] {
      CharsNulFree(items[0].key);
      RenderNulFree(items[0].value);
      ItemsNulFree(items[1..], keyed);
    }
  }

  /** A tree is written into a buffer and parsed from there. It arrives as the same tree in the pool iff it
      fits: the nesting and the numbers the builder, the text the buffer, the nodes the pool, and the
      strings with escapes the arena. */
  method WriteAndParse(v: Json, scan: Scan, buffer: array<char>, cap: nat, pool: array<Node>, arena: array<char>)
    returns (ok: bool, doc: Parser?)
    requires Writable(scan, v) && NulFree(v) && cap <= buffer.Length && arena != buffer
    modifies buffer, pool, arena
    ensures ok <==> && Fits(0, v) && |Render(v)| < cap && Count(v) <= pool.Length
                    && Take(arena.Length, 0, ValueCopies(scan, Render(v), 0, 0, pool.Length)).Taken?
    ensures ok ==> doc != null && doc.Valid() && Denotes(doc.Doc(), 0, v)
  {
    hide Emit, Writable, NulFree, Fits, Render, Count, Take, ValueCopies, ReadDocument, Denotes;
    var w := new JsonWriter(buffer, cap);
    WriteTree(w, v);
    WrittenReadsBack(scan, cap, v);
    ok, doc := false, null;
    if w.ok {
      RenderNulFree(v);
      var root;
      ghost var read;
      doc := new Parser(buffer[..w.used], pool, arena, scan);
      ok, root, read := doc.Parse();
    }
  }
}
