/** The recursive-descent JSON parser over a caller-owned node pool and scratch arena. It accepts exactly
    what the grammar reads, if pool and arena have room, and leaves nodes that denote the value read. Every
    routine only appends to pool and arena, so what is denoted once stays denoted. */
module JsonParser {
  import JsonGrammar
  import opened JsonPool
  import opened JsonScratch
  import opened JsonText
  import opened Options

  // --- String bodies on values ---

  /** The decoding from `start` has produced `decoded` and stands at `p`. */
  predicate Decoding(text: string, start: nat, decoded: string, p: nat) {
    && start <= p <= |text| && |decoded| <= p - start
    && (DecodeBody(text, p).None? ==> DecodeBody(text, start).None?)
    && (DecodeBody(text, p).Some? ==>
          DecodeBody(text, start) == Some((decoded + DecodeBody(text, p).value.0, DecodeBody(text, p).value.1)))
  }

  lemma DecodingStarts(text: string, start: nat)
    requires start <= |text|
    ensures Decoding(text, start, "", start)
  {
    if DecodeBody(text, start).Some? {
      assert "" + DecodeBody(text, start).value.0 == DecodeBody(text, start).value.0;
    }
  }

  lemma DecodingGoesOn(text: string, start: nat, decoded: string, p: nat)
    requires Decoding(text, start, decoded, p) && p < |text| && text[p] != '"'
    ensures DecodeOne(text, p).None? ==> DecodeBody(text, start).None?
    ensures DecodeOne(text, p).Some? ==>
              Decoding(text, start, decoded + DecodeOne(text, p).value.0, DecodeOne(text, p).value.1)
  {
    hide DecodeOne;
    var one := DecodeOne(text, p);
    if one.Some? {
      var rest := DecodeBody(text, one.value.1);
      if rest.Some? {
        assert (decoded + one.value.0) + rest.value.0 == decoded + (one.value.0 + rest.value.0);
      }
    }
  }

  /** What is decoded so far is part of what is decoded in the end. */
  lemma DecodingGrows(text: string, start: nat, decoded: string, p: nat)
    requires Decoding(text, start, decoded, p)
    ensures DecodeBody(text, start).Some? ==> |decoded| <= |DecodeBody(text, start).value.0|
  {
    hide DecodeBody;
  }

  lemma DecodingEnds(text: string, start: nat, decoded: string, p: nat)
    requires Decoding(text, start, decoded, p)
    ensures p == |text| ==> DecodeBody(text, start).None?
    ensures p < |text| && text[p] == '"' ==> DecodeBody(text, start) == Some((decoded, p + 1))
  {
    assert decoded + "" == decoded;
  }

  /** A copied string is seen behind the arena's used part, whether or not a terminator follows. */
  lemma CopyIsSeen(arena: string, kept: string, s: string, used: nat)
    requires |kept| + |s| <= used <= |arena| && arena[..|kept| + |s|] == kept + s
    ensures kept <= arena[..used] && StartsAt(arena[..used], |kept|, s)
  {
    var end := |kept| + |s|;
    assert arena[..used][..end] == arena[..end];
    assert arena[..used][|kept|..end] == (kept + s)[|kept|..];
  }

  /** Characters without quotes and backslashes decode to themselves. */
  lemma {:induction false} PlainRun(text: string, start: nat, q: nat)
    requires start <= q <= |text| && forall i :: start <= i < q ==> text[i] != '"' && text[i] != '\\'
    ensures Decoding(text, start, text[start..q], q)
    decreases q - start
  {
    if start == q {
      DecodingStarts(text, start);
      assert text[start..q] == "";
    } else {
      PlainRun(text, start, q - 1);
      DecodingGoesOn(text, start, text[start..q - 1], q - 1);
      assert text[start..q] == text[start..q - 1] + [text[q - 1]];
    }
  }

  lemma {:induction false} HexStops(text: string, p: nat, n: nat)
    requires n <= 4 && HexRun(text, p, n).None?
    ensures HexRun(text, p, 4).None?
    decreases 4 - n
  {
    if n < 4 { HexStops(text, p, n + 1); }
  }

  // --- Items on values ---

  /** One item: its key, if it has one, and its value. */
  function ReadItem(scan: Scan, text: string, p: nat, depth: nat, keyed: bool): (r: Option<(Item, nat)>)
    requires p <= |text|
    ensures r.Some? ==> p < r.value.1 <= |text|
  {
    match ReadKey(text, p, keyed)
    case None => None
    case Some(k) =>
      match ReadValue(scan, text, k.1, depth + 1)
      case None => None
      case Some(v) => Some((Item(k.0, v.0), v.1))
  }

  /** The copies begun while an item is read with `room` nodes left. */
  function ItemCopies(scan: Scan, text: string, p: nat, depth: nat, keyed: bool, room: nat): seq<nat>
    requires p <= |text|
  {
    match ReadKey(text, p, keyed)
    case None => KeyCopies(text, p, keyed)
    case Some(k) =>
      if room == 0 then KeyCopies(text, p, keyed)
      else KeyCopies(text, p, keyed) + ValueCopies(scan, text, k.1, depth + 1, room - 1)
  }

  /** An item is read, its nodes fit, and more items follow it. */
  predicate GoesOn(scan: Scan, text: string, p: nat, depth: nat, keyed: bool, room: nat)
    requires p <= |text|
  {
    var item := ReadItem(scan, text, p, depth, keyed);
    item.Some? && 1 + Count(item.value.0.value) <= room && At(text, SkipWs(text, item.value.1)) == ','
  }

  lemma ItemsCopiesByItem(scan: Scan, text: string, p: nat, depth: nat, keyed: bool, room: nat)
    requires p <= |text|
    ensures !GoesOn(scan, text, p, depth, keyed, room) ==>
              ItemsCopies(scan, text, p, depth, keyed, room) == ItemCopies(scan, text, p, depth, keyed, room)
    ensures GoesOn(scan, text, p, depth, keyed, room) ==>
              var item := ReadItem(scan, text, p, depth, keyed).value;
              ItemsCopies(scan, text, p, depth, keyed, room)
              == ItemCopies(scan, text, p, depth, keyed, room)
                 + ItemsCopies(scan, text, SkipWs(text, item.1) + 1, depth, keyed, room - 1 - Count(item.0.value))
  {
    hide ReadKey, ReadValue, KeyCopies, ValueCopies, SkipWs, Count;
  }

  /** What items take from the arena, by their first. */
  lemma TakeItems(scan: Scan, text: string, p: nat, depth: nat, keyed: bool, room: nat, cap: nat, used: nat)
    requires p <= |text|
    ensures var own := Take(cap, used, ItemCopies(scan, text, p, depth, keyed, room));
            var all := Take(cap, used, ItemsCopies(scan, text, p, depth, keyed, room));
            && (!(own.Taken? && GoesOn(scan, text, p, depth, keyed, room)) ==> all == own)
            && (own.Taken? && GoesOn(scan, text, p, depth, keyed, room) ==>
                  var item := ReadItem(scan, text, p, depth, keyed).value;
                  all == Take(cap, own.used,
                              ItemsCopies(scan, text, SkipWs(text, item.1) + 1, depth, keyed,
                                          room - 1 - Count(item.0.value))))
  {
    hide Take, ItemCopies, ItemsCopies, ReadItem, SkipWs, Count;
    ItemsCopiesByItem(scan, text, p, depth, keyed, room);
    if GoesOn(scan, text, p, depth, keyed, room) {
      var item := ReadItem(scan, text, p, depth, keyed).value;
      TakeJoined(cap, used, ItemCopies(scan, text, p, depth, keyed, room),
                 ItemsCopies(scan, text, SkipWs(text, item.1) + 1, depth, keyed, room - 1 - Count(item.0.value)));
    }
  }

  /** The items from `first` are `done` and then those from `p`. */
  predicate Reading(scan: Scan, text: string, first: nat, depth: nat, keyed: bool, done: seq<Item>, p: nat)
    requires first <= |text| && p <= |text|
  {
    && (ReadItems(scan, text, p, depth, keyed).None? ==> ReadItems(scan, text, first, depth, keyed).None?)
    && (ReadItems(scan, text, p, depth, keyed).Some? ==>
          var rest := ReadItems(scan, text, p, depth, keyed).value;
          ReadItems(scan, text, first, depth, keyed) == Some((done + rest.0, rest.1)))
  }

  lemma ReadingStarts(scan: Scan, text: string, first: nat, depth: nat, keyed: bool)
    requires first <= |text|
    ensures Reading(scan, text, first, depth, keyed, [], first)
  {
    hide ReadItems;
    if ReadItems(scan, text, first, depth, keyed).Some? {
      var rest := ReadItems(scan, text, first, depth, keyed).value;
      assert [] + rest.0 == rest.0;
    }
  }

  lemma ReadItemsByItem(scan: Scan, text: string, p: nat, depth: nat, keyed: bool)
    requires p <= |text|
    ensures ReadItem(scan, text, p, depth, keyed).None? ==> ReadItems(scan, text, p, depth, keyed).None?
    ensures ReadItem(scan, text, p, depth, keyed).Some? ==>
              var item := ReadItem(scan, text, p, depth, keyed).value;
              var sep := SkipWs(text, item.1);
              && (At(text, sep) == Closer(keyed) ==>
                    ReadItems(scan, text, p, depth, keyed) == Some(([item.0], sep + 1)))
              && (At(text, sep) != Closer(keyed) && At(text, sep) != ',' ==>
                    ReadItems(scan, text, p, depth, keyed).None?)
              && (At(text, sep) == ',' && ReadItems(scan, text, sep + 1, depth, keyed).None? ==>
                    ReadItems(scan, text, p, depth, keyed).None?)
              && (At(text, sep) == ',' && ReadItems(scan, text, sep + 1, depth, keyed).Some? ==>
                    var rest := ReadItems(scan, text, sep + 1, depth, keyed).value;
                    ReadItems(scan, text, p, depth, keyed) == Some(([item.0] + rest.0, rest.1)))
  {
    hide ReadValue, ReadKey, SkipWs;
  }

  /** After an item and a comma the rest is still to read; after the closer the items are known. */
  lemma ReadingGoesOn(scan: Scan, text: string, first: nat, depth: nat, keyed: bool, done: seq<Item>, p: nat)
    requires first <= |text| && p <= |text| && Reading(scan, text, first, depth, keyed, done, p)
    ensures ReadItem(scan, text, p, depth, keyed).None? ==> ReadItems(scan, text, first, depth, keyed).None?
    ensures ReadItem(scan, text, p, depth, keyed).Some? ==>
              var item := ReadItem(scan, text, p, depth, keyed).value;
              var sep := SkipWs(text, item.1);
              && (At(text, sep) == Closer(keyed) ==>
                    ReadItems(scan, text, first, depth, keyed) == Some((done + [item.0], sep + 1)))
              && (At(text, sep) != Closer(keyed) && At(text, sep) != ',' ==>
                    ReadItems(scan, text, first, depth, keyed).None?)
              && (At(text, sep) == ',' ==> Reading(scan, text, first, depth, keyed, done + [item.0], sep + 1))
  {
    hide ReadItem, ReadItems, SkipWs;
    ReadItemsByItem(scan, text, p, depth, keyed);
    if ReadItem(scan, text, p, depth, keyed).Some? {
      var item := ReadItem(scan, text, p, depth, keyed).value;
      var sep := SkipWs(text, item.1);
      if At(text, sep) == ',' && ReadItems(scan, text, sep + 1, depth, keyed).Some? {
        var rest := ReadItems(scan, text, sep + 1, depth, keyed).value;
        assert (done + [item.0]) + rest.0 == done + ([item.0] + rest.0);
      }
    }
  }

  /** A container from its opening bracket on. */
  function ReadContainer(scan: Scan, text: string, p: nat, depth: nat, keyed: bool): (r: Option<(Json, nat)>)
    requires p < |text|
    ensures r.Some? ==> p < r.value.1 <= |text|
  {
    var first := SkipWs(text, p + 1);
    if At(text, first) == Closer(keyed) then Some((Container(keyed, []), first + 1))
    else
      match ReadItems(scan, text, first, depth, keyed)
      case None => None
      case Some(r) => Some((Container(keyed, r.0), r.1))
  }

  function ContainerCopies(scan: Scan, text: string, p: nat, depth: nat, keyed: bool, room: nat): seq<nat>
    requires p < |text|
  {
    var first := SkipWs(text, p + 1);
    if room == 0 || At(text, first) == Closer(keyed) then [] else ItemsCopies(scan, text, first, depth, keyed, room - 1)
  }

  lemma ReadValueByContainer(scan: Scan, text: string, p: nat, depth: nat, room: nat)
    requires p <= |text| && depth <= MAX_DEPTH
    ensures var q := SkipWs(text, p);
            At(text, q) == '{' || At(text, q) == '[' ==>
              && ReadValue(scan, text, p, depth) == ReadContainer(scan, text, q, depth, At(text, q) == '{')
              && ValueCopies(scan, text, p, depth, room)
                 == ContainerCopies(scan, text, q, depth, At(text, q) == '{', room)
  {
    hide ReadItems, SkipWs, ItemsCopies;
  }

  function ReadWord(text: string, q: nat, word: string, v: Json): Option<(Json, nat)> {
    if StartsAt(text, q, word) then Some((v, q + |word|)) else None
  }

  /** A keyword or a number. */
  function ReadScalar(scan: Scan, text: string, q: nat): Option<(Json, nat)> {
    var c := At(text, q);
    if c == 't' then ReadWord(text, q, "true", Bool(true))
    else if c == 'f' then ReadWord(text, q, "false", Bool(false))
    else if c == 'n' then ReadWord(text, q, "null", Null)
    else if q < scan(text, q) <= |text| then Some((Number(text[q..scan(text, q)]), scan(text, q)))
    else None
  }

  /** A value that is no container, by its first character. */
  lemma ReadValueByFirst(scan: Scan, text: string, p: nat, depth: nat, room: nat)
    requires p <= |text| && depth <= MAX_DEPTH
    ensures var q := SkipWs(text, p);
            var c := At(text, q);
            && (c == '"' ==>
                  && ValueCopies(scan, text, p, depth, room) == BodyCopies(text, q + 1)
                  && ReadValue(scan, text, p, depth)
                     == match DecodeBody(text, q + 1) case None => None case Some(r) => Some((Str(r.0), r.1)))
            && (c != '{' && c != '[' && c != '"' ==>
                  && ReadValue(scan, text, p, depth) == ReadScalar(scan, text, q)
                  && ValueCopies(scan, text, p, depth, room) == [])
  {
    hide SkipWs, DecodeBody, BodyCopies, ReadItems, ItemsCopies;
  }

  lemma {:induction false} CountJoined(items: seq<Item>, more: seq<Item>)
    ensures CountItems(items + more) == CountItems(items) + CountItems(more)
    decreases |items|
  {
    hide Count;
    if items == [] {
      assert items + more == more;
    } else {
      assert (items + more)[1..] == items[1..] + more;
      CountJoined(items[1..], more);
    }
  }

  /** A document whose next item does not fit in the pool does not fit at all. */
  lemma NextItemCounts(scan: Scan, text: string, first: nat, depth: nat, keyed: bool, done: seq<Item>, p: nat)
    requires first <= |text| && p <= |text| && Reading(scan, text, first, depth, keyed, done, p)
    requires ReadItem(scan, text, p, depth, keyed).Some? && ReadItems(scan, text, first, depth, keyed).Some?
    ensures CountItems(ReadItems(scan, text, first, depth, keyed).value.0)
            >= CountItems(done) + 1 + Count(ReadItem(scan, text, p, depth, keyed).value.0.value)
  {
    hide ReadItem, ReadItems, SkipWs, CountItems, Count;
    var item := ReadItem(scan, text, p, depth, keyed).value;
    var sep := SkipWs(text, item.1);
    ReadingGoesOn(scan, text, first, depth, keyed, done, p);
    CountAppend(done, item.0);
    if At(text, sep) == ',' {
      CountJoined(done + [item.0], ReadItems(scan, text, sep + 1, depth, keyed).value.0);
    }
  }

  lemma {:induction false} TailAppend(at: nat, items: seq<Item>, item: Item)
    ensures Tail(at, items + [item]) == at + CountItems(items)
    decreases |items|
  {
    hide Count;
    if items == [] {
      assert items + [item] == [item];
    } else {
      assert (items + [item])[1..] == items[1..] + [item];
      TailAppend(at + 1 + Count(items[0].value), items[1..], item);
    }
  }

  lemma OneCopy(cap: nat, used: nat)
    ensures Take(cap, used, []) == Taken(used)
    ensures forall len: nat ::
              Take(cap, used, [len])
              == if used > cap then Beyond else if used + len > cap then Full else Taken(used + len + 1)
  {
    forall len: nat ensures [len][1..] == [] {
    }
  }

  lemma NoKey(text: string, p: nat)
    requires p <= |text|
    ensures ReadKey(text, p, false) == Some(("", p))
    ensures forall cap, used :: Take(cap, used, KeyCopies(text, p, false)) == Taken(used)
  {
  }

  lemma ViewsMoved(d: Pool, e: Pool, node: Node, copy: Node, s: string)
    requires Views(d, node, s) && d.src == e.src && d.scratch == e.scratch
    requires node.offset == copy.offset && node.length == copy.length && node.inScratch == copy.inScratch
    ensures Views(e, copy, s)
  {
  }

  lemma Grows(d: Pool, e: Pool)
    requires d.nodes <= e.nodes && d.scratch <= e.scratch && d.src == e.src
    ensures Grown(d, e)
  {
  }

  /** A wrapper at the end of the pool, and a value behind it, make an item. */
  lemma WrapperMakesItem(d: Pool, e: Pool, f: Pool, wrapper: Node, item: Item, keyed: bool)
    requires Grown(d, e) && e.nodes == d.nodes + [wrapper] && wrapper.next == -1
    requires keyed ==> Views(e, wrapper, item.key)
    requires Added(e, f, item.value)
    ensures |d.nodes| < |f.nodes| && f.nodes[|d.nodes|] == wrapper
    ensures AddedItem(d, f.(nodes := f.nodes[|d.nodes| := wrapper.(child := |e.nodes|)]), item, keyed)
  {
    var at := |d.nodes|;
    var g := f.(nodes := f.nodes[at := wrapper.(child := at + 1)]);
    assert f.nodes[at] == e.nodes[at] == wrapper;
    assert g.nodes[..at] == f.nodes[..at] == d.nodes;
    if keyed {
      ViewsKept(e, f, wrapper, item.key);
      ViewsMoved(f, g, wrapper, g.nodes[at], item.key);
    }
    hide Denotes, Views, Count;
    DenotesKept(f, g, at + 1, item.value);
    assert [item][1..] == [] && CountItems([item]) == 1 + Count(item.value) + CountItems([item][1..]);
    assert Link(g, at, [item], keyed);
    assert Chain(g, at + 1 + Count(item.value), [item][1..], keyed);
  }

  lemma ItemPlaces(d: Pool, e: Pool, f: Pool, items: seq<Item>, keyed: bool, item: Item)
    requires Filling(d, e, items, keyed) && AddedItem(e, f, item, keyed)
    ensures |d.nodes| < |e.nodes| == |f.nodes| - 1 - Count(item.value)
            && |e.nodes| == Tail(|d.nodes| + 1, items + [item])
  {
    hide Chain;
    TailAppend(|d.nodes| + 1, items, item);
  }

  lemma KindTells(d: Pool, at: nat, v: Json)
    requires Denotes(d, at, v)
    ensures at < |d.nodes| && (d.nodes[at].kind == ArrayKind <==> v.Array?)
            && (d.nodes[at].kind == ObjectKind <==> v.Object?)
    ensures v.Array? || v.Object? ==>
              d.nodes[at].child == (if v.items == [] then -1 else at + 1) && Chain(d, at + 1, v.items, v.Object?)
  {
    hide Chain, Views;
  }

  /** A view equals a string iff it has its length and its characters. */
  lemma ViewTells(d: Pool, node: Node, s: string, key: string)
    requires Views(d, node, s)
    ensures node.length == |key| && StartsAt(if node.inScratch then d.scratch else d.src, node.offset, key) <==>
              s == key
  {
  }

  lemma NoItemsCount()
    ensures CountItems([]) == 0
  {
  }

  lemma FillingStarts(d: Pool, e: Pool, keyed: bool)
    requires Grown(d, e) && e.nodes == d.nodes + [ContainerNode(keyed, -1)]
    ensures Filling(d, e, [], keyed) && CountItems([]) == 0 && Count(Container(keyed, [])) == 1
  {
  }

  /** Everything that reads nodes and scratch does so through this. */
  class Parser {
    const src: string
    const scan: Scan
    const nodes: array<Node>
    const scratch: array<char>
    var p: nat
    var nodeCount: nat
    var scratchUsed: nat
    var ok: bool
    /** A copy was begun behind the arena: from here on the parser is not followed. */
    ghost var beyond: bool

    ghost predicate Valid()
      reads this
    {
      && '\0' !in src && p <= |src|
      && nodeCount <= nodes.Length && scratchUsed <= scratch.Length + 1
    }

    /** The place for the last terminator may lie behind the arena. */
    function Filled(): (end: nat)
      reads this
      ensures end <= scratch.Length && (scratchUsed <= scratch.Length ==> end == scratchUsed)
    {
      if scratchUsed <= scratch.Length then scratchUsed else scratch.Length
    }

    ghost function Doc(): Pool
      reads this, nodes, scratch
      requires Valid()
    {
      Pool(nodes[..nodeCount], scratch[..Filled()], src)
    }

    /** How a routine ended: it succeeds iff what it reads is well formed, its nodes fit and its copies fit;
        and it has left the arena iff the account of the copies begun says so. */
    ghost predicate Ended(r: bool, read: bool, fits: bool, space: Space)
      reads this
    {
      && (r <==> read && fits && space.Taken?) && (r ==> scratchUsed == space.used)
      && (beyond <==> space.Beyond?) && (beyond ==> !r && !ok)
    }

    constructor (text: string, pool: array<Node>, arena: array<char>, scanner: Scan)
      requires '\0' !in text
      ensures Valid() && src == text && nodes == pool && scratch == arena && scan == scanner
      ensures p == 0 && nodeCount == 0 && scratchUsed == 0 && ok && !beyond
    {
      src, scan, nodes, scratch := text, scanner, pool, arena;
      p, nodeCount, scratchUsed, ok, beyond := 0, 0, 0, true, false;
    }

    method AllocNode() returns (ref: int)
      requires Valid()
      modifies this`nodeCount, nodes
      ensures Valid() && (ref == -1 <==> old(nodeCount) == nodes.Length)
      ensures ref == -1 ==> Doc() == old(Doc())
      ensures ref != -1 ==>
                ref == old(nodeCount) == nodeCount - 1 && Doc() == old(Doc()).(nodes := old(Doc()).nodes + [BLANK])
    {
      if nodeCount >= nodes.Length { return -1; }
      nodes[nodeCount] := BLANK;
      ref := nodeCount;
      nodeCount := nodeCount + 1;
    }

    method SetNode(at: nat, node: Node)
      requires Valid() && at < nodeCount
      modifies nodes
      ensures Valid() && Doc() == old(Doc()).(nodes := old(Doc()).nodes[at := node])
    {
      nodes[at] := node;
    }

    method SkipSpace()
      requires Valid()
      modifies this`p
      ensures Valid() && p == SkipWs(src, old(p))
    {
      while p < |src| && IsSpace(src[p])
        invariant Valid() && SkipWs(src, p) == SkipWs(src, old(p)) && old(p) <= p
        decreases |src| - p
      {
        p := p + 1;
      }
    }

    method Fail() returns (r: bool)
      modifies this`ok
      ensures !r && !ok
    {
      ok := false;
      r := false;
    }

    // --- Strings ---

    /** Four hexadecimal digits, most significant first. */
    method ReadHex4() returns (r: bool, cp: nat)
      requires Valid()
      modifies this`p
      ensures Valid() && r == HexRun(src, old(p), 4).Some?
      ensures r ==> cp == HexRun(src, old(p), 4).value && p == old(p) + 4
    {
      ghost var start := p;
      cp := 0;
      var i := 0;
      while i < 4
        invariant 0 <= i <= 4 && Valid() && p == start + i
        invariant HexRun(src, start, i) == Some(cp)
      {
        var h := HexDigit(At(src, p));
        i := i + 1;
        if h.None? {
          HexStops(src, start, i);
          return false, cp;
        }
        p := p + 1;
        cp := cp * 16 + h.value;
      }
      r := true;
    }

    /** One plain character or escape. */
    method DecodeNext() returns (r: bool, bytes: string)
      requires Valid() && p < |src|
      modifies this`p
      ensures Valid() && r == DecodeOne(src, old(p)).Some?
      ensures r ==> (bytes, p) == DecodeOne(src, old(p)).value
    {
      var c := src[p];
      p := p + 1;
      if c != '\\' { return true, [c]; }
      if At(src, p) == 'u' {
        p := p + 1;
        var cp;
        r, cp := ReadHex4();
        if !r { return false, ""; }
        bytes := Utf8(cp);
      } else {
        var plain := Unescaped(At(src, p));
        if plain.None? { return false, ""; }
        p := p + 1;
        r, bytes := true, [plain.value];
      }
    }

    /** Writes bytes at an offset of the scratch arena. */
    method Store(at: nat, bytes: string)
      requires at + |bytes| <= scratch.Length
      modifies scratch
      ensures scratch[..at] == old(scratch[..at]) && scratch[..at + |bytes|] == old(scratch[..at]) + bytes
    {
      forall i | 0 <= i < |bytes| { scratch[at + i] := bytes[i]; }
    }

    /** Copies a decoded string behind the used scratch, if it fits there; what is used stays. */
    method CopyDecoded() returns (r: bool, len: nat)
      requires Valid() && scratchUsed <= scratch.Length
      modifies this`p, scratch
      ensures Valid()
      ensures r == (DecodeBody(src, old(p)).Some? && scratchUsed + |DecodeBody(src, old(p)).value.0| <= scratch.Length)
      ensures r ==> len == |DecodeBody(src, old(p)).value.0| && p == DecodeBody(src, old(p)).value.1
      ensures r ==> scratch[..scratchUsed + len] == old(scratch[..scratchUsed]) + DecodeBody(src, old(p)).value.0
      ensures scratch[..scratchUsed] == old(scratch[..scratchUsed])
    {
      hide DecodeBody, DecodeOne, Decoding;
      ghost var start, kept, decoded := p, scratch[..scratchUsed], "";
      DecodingStarts(src, start);
      len := 0;
      while p < |src| && src[p] != '"'
        invariant Valid() && start <= p && len == |decoded| && scratchUsed + len <= scratch.Length
        invariant scratch[..scratchUsed + len] == kept + decoded && scratch[..scratchUsed] == kept
        invariant Decoding(src, start, decoded, p)
        decreases |src| - p
      {
        DecodingGoesOn(src, start, decoded, p);
        var bytes;
        r, bytes := DecodeNext();
        if !r { return; }
        DecodingGrows(src, start, decoded + bytes, p);
        if len + |bytes| > scratch.Length - scratchUsed { return false, len; }
        Store(scratchUsed + len, bytes);
        assert (kept + decoded) + bytes == kept + (decoded + bytes);
        decoded := decoded + bytes;
        len := len + |bytes|;
      }
      DecodingEnds(src, start, decoded, p);
      if p == |src| { return false, len; }
      p := p + 1;
      r := true;
    }

    /** A string body behind its opening quote: a view of the text when it has no escape, else of a
        decoded copy in the scratch arena. */
    method ParseStringBody() returns (r: bool, view: Node)
      requires Valid() && !beyond
      modifies this`p, this`scratchUsed, this`ok, this`beyond, scratch
      ensures Valid() && (r ==> ok == old(ok))
      ensures Ended(r, DecodeBody(src, old(p)).Some?, true,
                    Take(scratch.Length, old(scratchUsed), BodyCopies(src, old(p))))
      ensures r ==> p == DecodeBody(src, old(p)).value.1 && Views(Doc(), view, DecodeBody(src, old(p)).value.0)
      ensures Doc().nodes == old(Doc()).nodes && old(Doc()).scratch <= Doc().scratch
    {
      hide DecodeBody, DecodeOne, Decoding, Take;
      var start := p;
      var q := start;
      while q < |src| && src[q] != '"' && src[q] != '\\'
        invariant start <= q <= |src|
        invariant PlainEnd(src, q) == PlainEnd(src, start)
      {
        q := q + 1;
      }
      PlainRun(src, start, q);
      DecodingEnds(src, start, src[start..q], q);
      OneCopy(scratch.Length, scratchUsed);
      view := BLANK;
      if q == |src| {
        r := Fail();
        return;
      }
      if src[q] == '"' {
        p := q + 1;
        return true, BLANK.(offset := start, length := q - start);
      }
      r, view := ParseEscaped();
    }

    /** A string body with an escape, from its start: decoded behind the used scratch, if it fits there. When
        the scratch is overfull already, the copy is begun behind the arena. */
    method ParseEscaped() returns (r: bool, view: Node)
      requires Valid() && !beyond
      modifies this`p, this`scratchUsed, this`ok, this`beyond, scratch
      ensures Valid() && (r ==> ok == old(ok))
      ensures beyond == (old(scratchUsed) > scratch.Length) && (beyond ==> !r && !ok)
      ensures var body := DecodeBody(src, old(p));
              && (r <==> body.Some? && old(scratchUsed) + |body.value.0| <= scratch.Length)
              && (r ==>
                    scratchUsed == old(scratchUsed) + |body.value.0| + 1 && p == body.value.1
                    && Views(Doc(), view, body.value.0))
      ensures Doc().nodes == old(Doc()).nodes && old(Doc()).scratch <= Doc().scratch
    {
      hide DecodeBody;
      view := BLANK;
      if scratchUsed > scratch.Length {
        beyond := true;
        r := Fail();
        return;
      }
      ghost var body := DecodeBody(src, p);
      var len;
      r, len := CopyDecoded();
      if !r {
        r := Fail();
        return;
      }
      view := BLANK.(offset := scratchUsed, length := len, inScratch := true);
      scratchUsed := scratchUsed + len + 1;
      if scratchUsed < scratch.Length { scratch[scratchUsed - 1] := '\0'; }
      CopyIsSeen(scratch[..], old(scratch[..scratchUsed]), body.value.0, Filled());
    }

    // --- Values ---

    method ParseKey() returns (r: bool, view: Node)
      requires Valid() && !beyond
      modifies this`p, this`scratchUsed, this`ok, this`beyond, scratch
      ensures Valid() && (r ==> ok == old(ok))
      ensures Ended(r, ReadKey(src, old(p), true).Some?, true,
                    Take(scratch.Length, old(scratchUsed), KeyCopies(src, old(p), true)))
      ensures r ==> p == ReadKey(src, old(p), true).value.1 && Views(Doc(), view, ReadKey(src, old(p), true).value.0)
      ensures Doc().nodes == old(Doc()).nodes && old(Doc()).scratch <= Doc().scratch
    {
      hide DecodeBody, SkipWs, Views, Take, BodyCopies;
      OneCopy(scratch.Length, scratchUsed);
      view := BLANK;
      SkipSpace();
      if At(src, p) != '"' {
        r := Fail();
        return;
      }
      p := p + 1;
      r, view := ParseStringBody();
      if !r { return; }
      SkipSpace();
      if At(src, p) != ':' {
        r := Fail();
        return;
      }
      p := p + 1;
    }

    /** A wrapper node for an item, and the value behind it. */
    method ParseItem(keyed: bool, depth: nat) returns (r: bool, member: int, ghost item: Item)
      requires Valid() && !beyond && depth <= MAX_DEPTH
      modifies this`p, this`nodeCount, this`scratchUsed, this`ok, this`beyond, nodes, scratch
      ensures Valid() && (r ==> ok == old(ok))
      ensures var spec := ReadItem(scan, src, old(p), depth, keyed);
              Ended(r, spec.Some?, spec.Some? && old(nodeCount) + 1 + Count(spec.value.0.value) <= nodes.Length,
                    Take(scratch.Length, old(scratchUsed),
                         ItemCopies(scan, src, old(p), depth, keyed, nodes.Length - old(nodeCount))))
      ensures r ==> member == old(nodeCount) && (item, p) == ReadItem(scan, src, old(p), depth, keyed).value
      ensures r ==> AddedItem(old(Doc()), Doc(), item, keyed)
      decreases |src| - p, 3
    {
      hide ReadKey, ReadValue, Views, AddedItem, Added, Grown, Count, Take, KeyCopies, ValueCopies;
      ghost var d := Doc();
      item := Item("", Null);
      var view := BLANK;
      ghost var key := ReadKey(src, p, keyed);
      ghost var room := nodes.Length - nodeCount;
      if key.Some? && room > 0 {
        TakeJoined(scratch.Length, scratchUsed, KeyCopies(src, p, keyed),
                   ValueCopies(scan, src, key.value.1, depth + 1, room - 1));
      }
      if keyed {
        r, view := ParseKey();
        if !r {
          r := Fail();
          return false, -1, item;
        }
      } else {
        NoKey(src, p);
      }
      ghost var named := Doc();
      member := AllocNode();
      if member < 0 {
        r := Fail();
        return;
      }
      var wrapper := BLANK.(offset := view.offset, length := view.length, inScratch := view.inScratch);
      SetNode(member, wrapper);
      ghost var e := Doc();
      assert e.nodes == d.nodes + [wrapper];
      assert Grown(d, e) by { Grows(d, e); }
      if keyed { ViewsMoved(named, e, view, wrapper, key.value.0); }
      var child;
      ghost var v;
      r, child, v := ParseValue(depth + 1);
      if !r {
        r := Fail();
        return;
      }
      ghost var f := Doc();
      item := Item(key.value.0, v);
      WrapperMakesItem(d, e, f, wrapper, item, keyed);
      SetNode(member, nodes[member].(child := child));
    }

    /** Parses one item and hooks it into the container at `obj`, behind the wrapper `tail`. */
    method AddItem(keyed: bool, depth: nat, obj: nat, tail: int, ghost base: Pool, ghost done: seq<Item>)
      returns (r: bool, member: int, ghost item: Item)
      requires Valid() && !beyond && depth <= MAX_DEPTH
      requires Filling(base, Doc(), done, keyed) && obj == |base.nodes|
      requires tail == if done == [] then -1 else Tail(obj + 1, done)
      modifies this`p, this`nodeCount, this`scratchUsed, this`ok, this`beyond, nodes, scratch
      ensures Valid() && (r ==> ok == old(ok))
      ensures var spec := ReadItem(scan, src, old(p), depth, keyed);
              Ended(r, spec.Some?, spec.Some? && old(nodeCount) + 1 + Count(spec.value.0.value) <= nodes.Length,
                    Take(scratch.Length, old(scratchUsed),
                         ItemCopies(scan, src, old(p), depth, keyed, nodes.Length - old(nodeCount))))
      ensures r ==> (item, p) == ReadItem(scan, src, old(p), depth, keyed).value
      ensures r ==> nodeCount == old(nodeCount) + 1 + Count(item.value)
      ensures r ==> member == Tail(obj + 1, done + [item]) && Filling(base, Doc(), done + [item], keyed)
      decreases |src| - p, 4
    {
      hide ReadItem, Filling, AddedItem, Tail, Count, Take, ItemCopies;
      ghost var e := Doc();
      r, member, item := ParseItem(keyed, depth);
      if !r { return; }
      ghost var f := Doc();
      ItemHooks(base, e, f, done, keyed, item);
      ItemPlaces(base, e, f, done, keyed, item);
      if tail < 0 {
        SetNode(obj, nodes[obj].(child := member));
      } else {
        SetNode(tail, nodes[tail].(next := member));
      }
      assert Doc() == WithItem(f, obj, done, member);
    }

    /** A comma or the closing bracket, behind white space. */
    method Separator(keyed: bool) returns (r: bool)
      requires Valid()
      modifies this`p, this`ok
      ensures Valid() && (r ==> ok == old(ok))
      ensures var sep := SkipWs(src, old(p));
              r == (At(src, sep) == ',' || At(src, sep) == Closer(keyed)) && (r ==> p == sep + 1)
    {
      SkipSpace();
      if At(src, p) == ',' || At(src, p) == Closer(keyed) {
        p := p + 1;
        return true;
      }
      r := Fail();
    }

    /** The items of the container at `obj`, up to its closing bracket. */
    method ParseItems(keyed: bool, depth: nat, obj: nat, ghost base: Pool) returns (r: bool, ghost items: seq<Item>)
      requires Valid() && !beyond && depth <= MAX_DEPTH
      requires Filling(base, Doc(), [], keyed) && obj == |base.nodes| == nodeCount - 1
      modifies this`p, this`nodeCount, this`scratchUsed, this`ok, this`beyond, nodes, scratch
      ensures Valid() && (r ==> ok == old(ok))
      ensures var spec := ReadItems(scan, src, old(p), depth, keyed);
              Ended(r, spec.Some?, spec.Some? && obj + 1 + CountItems(spec.value.0) <= nodes.Length,
                    Take(scratch.Length, old(scratchUsed),
                         ItemsCopies(scan, src, old(p), depth, keyed, nodes.Length - old(nodeCount))))
      ensures r ==> (items, p) == ReadItems(scan, src, old(p), depth, keyed).value && Filling(base, Doc(), items, keyed)
      decreases |src| - p, 5
    {
      hide ReadItem, ReadItems, Reading, SkipWs, Filling, CountItems, Count, Tail, Take, ItemCopies, ItemsCopies;
      items := [];
      var tail := -1;
      ReadingStarts(scan, src, p, depth, keyed);
      NoItemsCount();
      while true
        invariant Valid() && old(p) <= p <= |src|
        invariant Filling(base, Doc(), items, keyed) && nodeCount == obj + 1 + CountItems(items)
        invariant tail == (if items == [] then -1 else Tail(obj + 1, items)) && ok == old(ok)
        invariant Reading(scan, src, old(p), depth, keyed, items, p) && !beyond
        invariant Take(scratch.Length, old(scratchUsed),
                       ItemsCopies(scan, src, old(p), depth, keyed, nodes.Length - old(nodeCount)))
               == Take(scratch.Length, scratchUsed, ItemsCopies(scan, src, p, depth, keyed, nodes.Length - nodeCount))
        decreases |src| - p
      {
        ReadingGoesOn(scan, src, old(p), depth, keyed, items, p);
        if ReadItem(scan, src, p, depth, keyed).Some? && ReadItems(scan, src, old(p), depth, keyed).Some? {
          NextItemCounts(scan, src, old(p), depth, keyed, items, p);
        }
        TakeItems(scan, src, p, depth, keyed, nodes.Length - nodeCount, scratch.Length, scratchUsed);
        ghost var item;
        r, tail, item := AddItem(keyed, depth, obj, tail, base, items);
        if !r {
          r := Fail();
          return;
        }
        CountAppend(items, item);
        items := items + [item];
        r := Separator(keyed);
        if !r { return; }
        if At(src, p - 1) == Closer(keyed) { return; }
      }
    }

    /** An object or an array from its opening bracket on. The source has one routine for each; they
        differ in the bracket and in the keys. */
    method ParseContainer(keyed: bool, depth: nat) returns (r: bool, ref: int, ghost v: Json)
      requires Valid() && !beyond && p < |src| && depth <= MAX_DEPTH
      modifies this`p, this`nodeCount, this`scratchUsed, this`ok, this`beyond, nodes, scratch
      ensures Valid() && (r ==> ok == old(ok))
      ensures var spec := ReadContainer(scan, src, old(p), depth, keyed);
              Ended(r, spec.Some?, spec.Some? && old(nodeCount) + Count(spec.value.0) <= nodes.Length,
                    Take(scratch.Length, old(scratchUsed),
                         ContainerCopies(scan, src, old(p), depth, keyed, nodes.Length - old(nodeCount))))
      ensures r ==> ref == old(nodeCount) && (v, p) == ReadContainer(scan, src, old(p), depth, keyed).value
      ensures r ==> Added(old(Doc()), Doc(), v)
      decreases |src| - p, 1
    {
      hide ReadItems, SkipWs, Filling, Added, CountItems, ItemsCopies;
      v := Null;
      ghost var base, items := Doc(), [];
      var obj := AllocNode();
      ref := obj;
      if obj < 0 {
        r := Fail();
        return;
      }
      SetNode(obj, BLANK.(kind := if keyed then ObjectKind else ArrayKind));
      FillingStarts(base, Doc(), keyed);
      p := p + 1;
      SkipSpace();
      if At(src, p) == Closer(keyed) {
        p := p + 1;
        r := true;
      } else {
        r, items := ParseItems(keyed, depth, obj, base);
        if !r { return; }
      }
      FilledIsAdded(base, Doc(), items, keyed);
      v := Container(keyed, items);
    }

    /** `true`, `false` or `null`. */
    method ParseWord(word: string, kind: Kind, ghost v: Json) returns (r: bool, ref: int)
      requires Valid() && word != "" && v == (if kind == NullKind then Null else Bool(kind == TrueKind))
               && kind in {NullKind, TrueKind, FalseKind}
      modifies this`p, this`nodeCount, this`ok, nodes
      ensures Valid() && (r ==> ok == old(ok))
      ensures r == (StartsAt(src, old(p), word) && old(nodeCount) + 1 <= nodes.Length) && (!r ==> !ok)
      ensures r ==> ref == old(nodeCount) && p == old(p) + |word| && Added(old(Doc()), Doc(), v)
    {
      ref := -1;
      if !StartsAt(src, p, word) {
        r := Fail();
        return;
      }
      p := p + |word|;
      ref := AllocNode();
      if ref < 0 {
        r := Fail();
        return;
      }
      SetNode(ref, BLANK.(kind := kind));
      r := true;
    }

    /** Any value, dispatched on its first character. */
    method ParseValue(depth: nat) returns (r: bool, ref: int, ghost v: Json)
      requires Valid() && !beyond
      modifies this`p, this`nodeCount, this`scratchUsed, this`ok, this`beyond, nodes, scratch
      ensures Valid() && (r ==> ok == old(ok))
      ensures var spec := ReadValue(scan, src, old(p), depth);
              Ended(r, spec.Some?, spec.Some? && old(nodeCount) + Count(spec.value.0) <= nodes.Length,
                    Take(scratch.Length, old(scratchUsed),
                         ValueCopies(scan, src, old(p), depth, nodes.Length - old(nodeCount))))
      ensures r ==> ref == old(nodeCount) && (v, p) == ReadValue(scan, src, old(p), depth).value
      ensures r ==> Added(old(Doc()), Doc(), v)
      decreases |src| - p, 2
    {
      hide Added, SkipWs, StartsAt, DecodeBody, ReadItems, Views, BodyCopies, ItemsCopies;
      ref, v := -1, Null;
      if depth > MAX_DEPTH {
        r := Fail();
        return;
      }
      ReadValueByContainer(scan, src, p, depth, nodes.Length - nodeCount);
      ReadValueByFirst(scan, src, p, depth, nodes.Length - nodeCount);
      OneCopy(scratch.Length, scratchUsed);
      hide ReadValue, ValueCopies, ReadContainer, ContainerCopies, Take, ReadScalar, Count;
      SkipSpace();
      var c := At(src, p);
      if c == '{' || c == '[' {
        r, ref, v := ParseContainer(c == '{', depth);
        return;
      }
      if c == '"' {
        r, ref, v := ParseString();
        return;
      }
      r, ref, v := ParseScalar();
    }

    /** `true`, `false`, `null` or a number. */
    method ParseScalar() returns (r: bool, ref: int, ghost v: Json)
      requires Valid()
      modifies this`p, this`nodeCount, this`ok, nodes
      ensures Valid() && (r ==> ok == old(ok)) && (!r ==> !ok)
      ensures var spec := ReadScalar(scan, src, old(p));
              && (r <==> spec.Some? && old(nodeCount) + 1 <= nodes.Length)
              && (spec.Some? ==> Count(spec.value.0) == 1)
      ensures r ==>
                ref == old(nodeCount) && (v, p) == ReadScalar(scan, src, old(p)).value && Added(old(Doc()), Doc(), v)
    {
      hide Added, StartsAt;
      v := Null;
      var c := At(src, p);
      if c == 't' {
        v := Bool(true);
        r, ref := ParseWord("true", TrueKind, v);
        return;
      }
      if c == 'f' {
        v := Bool(false);
        r, ref := ParseWord("false", FalseKind, v);
        return;
      }
      if c == 'n' {
        r, ref := ParseWord("null", NullKind, v);
        return;
      }
      r, ref, v := ParseNumber();
    }

    method ParseString() returns (r: bool, ref: int, ghost v: Json)
      requires Valid() && !beyond && At(src, p) == '"'
      modifies this`p, this`nodeCount, this`scratchUsed, this`ok, this`beyond, nodes, scratch
      ensures Valid() && (r ==> ok == old(ok))
      ensures Ended(r, DecodeBody(src, old(p) + 1).Some?, old(nodeCount) + 1 <= nodes.Length,
                    Take(scratch.Length, old(scratchUsed), BodyCopies(src, old(p) + 1)))
      ensures r ==>
                ref == old(nodeCount)
                && (v, p) == (Str(DecodeBody(src, old(p) + 1).value.0), DecodeBody(src, old(p) + 1).value.1)
      ensures r ==> Added(old(Doc()), Doc(), v)
    {
      hide DecodeBody, Views, BodyCopies, Take;
      ref, v := -1, Null;
      ghost var start := p + 1;
      p := p + 1;
      var view;
      r, view := ParseStringBody();
      if !r {
        r := Fail();
        return;
      }
      ghost var read := Doc();
      ref := AllocNode();
      if ref < 0 {
        r := Fail();
        return;
      }
      v := Str(DecodeBody(src, start).value.0);
      SetNode(ref, view.(kind := StringKind, child := -1, next := -1, number := ""));
      ViewsMoved(read, Doc(), view, nodes[ref], v.s);
    }

    method ParseNumber() returns (r: bool, ref: int, ghost v: Json)
      requires Valid()
      modifies this`p, this`nodeCount, this`ok, nodes
      ensures Valid() && (r ==> ok == old(ok))
      ensures r == (old(p) < scan(src, old(p)) <= |src| && old(nodeCount) + 1 <= nodes.Length) && (!r ==> !ok)
      ensures r ==>
                ref == old(nodeCount) && p == scan(src, old(p)) && v == Number(src[old(p)..p])
                && Added(old(Doc()), Doc(), v)
    {
      ref, v := -1, Null;
      var end := scan(src, p);
      if end <= p || end > |src| {
        r := Fail();
        return;
      }
      ref := AllocNode();
      if ref < 0 {
        r := Fail();
        return;
      }
      SetNode(ref, BLANK.(kind := NumberKind, number := src[p..end]));
      v := Number(src[p..end]);
      p := end;
      r := true;
    }

    /** A whole document. */
    method Parse() returns (r: bool, root: int, ghost v: Json)
      requires Valid() && p == 0 && nodeCount == 0 && scratchUsed == 0 && ok && !beyond
      modifies this`p, this`nodeCount, this`scratchUsed, this`ok, this`beyond, nodes, scratch
      ensures Valid() && r == ok
      ensures var spec := ReadDocument(scan, src);
              Ended(r, spec.Some?, spec.Some? && Count(spec.value) <= nodes.Length,
                    Take(scratch.Length, 0, ValueCopies(scan, src, 0, 0, nodes.Length)))
      ensures |src| <= scratch.Length ==> !beyond
      ensures r ==> root == 0 && Some(v) == ReadDocument(scan, src) && Denotes(Doc(), 0, v) && nodeCount == Count(v)
      ensures r ==> JsonGrammar.Says(scan, src, v)
    {
      hide ReadValue, SkipWs, Denotes, Count, Take, ValueCopies;
      if |src| <= scratch.Length { LongArenaSuffices(scan, src, nodes.Length, scratch.Length); }
      r, root, v := ParseValue(0);
      if !r {
        r := Fail();
        return;
      }
      SkipSpace();
      if p != |src| { ok := false; }
      r := ok;
      if r { JsonGrammar.ReadsIffSays(scan, src, v); }
    }

    // --- Navigation ---

    /** The value of the element or member with a given position. */
    method ElementAt(node: nat, index: nat, ghost v: Json) returns (ref: int)
      requires Valid() && Denotes(Doc(), node, v)
      ensures !(v.Array? || v.Object?) ==> ref == -1
      ensures v.Array? || v.Object? ==> (ref >= 0 <==> index < |v.items|)
      ensures (v.Array? || v.Object?) && index < |v.items| ==> Denotes(Doc(), ref, v.items[index].value)
    {
      hide Denotes, Chain, Views;
      KindTells(Doc(), node, v);
      if nodes[node].kind != ArrayKind && nodes[node].kind != ObjectKind { return -1; }
      var e, i := nodes[node].child, 0;
      while e >= 0
        invariant 0 <= i <= |v.items| && i <= index && (e >= 0 <==> i < |v.items|)
        invariant e >= 0 ==> Chain(Doc(), e, v.items[i..], v.Object?)
        decreases |v.items| - i
      {
        ChainHead(Doc(), e, v.items[i..], v.Object?);
        if i == index { return nodes[e].child; }
        assert v.items[i..][1..] == v.items[i + 1..];
        e := nodes[e].next;
        i := i + 1;
      }
      return -1;
    }

    /** The value of the first member with a given key. */
    method Member(obj: nat, key: string, ghost v: Json) returns (ref: int)
      requires Valid() && Denotes(Doc(), obj, v)
      ensures !v.Object? ==> ref == -1
      ensures v.Object? ==> (ref == -1 <==> forall i :: 0 <= i < |v.items| ==> v.items[i].key != key)
      ensures ref != -1 ==>
                exists i ::
                  && 0 <= i < |v.items| && v.items[i].key == key && (forall j :: 0 <= j < i ==> v.items[j].key != key)
                  && ref >= 0 && Denotes(Doc(), ref, v.items[i].value)
    {
      hide Denotes, Chain, StartsAt;
      KindTells(Doc(), obj, v);
      if nodes[obj].kind != ObjectKind { return -1; }
      var m := nodes[obj].child;
      ghost var i := 0;
      while m >= 0
        invariant 0 <= i <= |v.items| && (m >= 0 <==> i < |v.items|)
        invariant m >= 0 ==> Chain(Doc(), m, v.items[i..], true)
        invariant forall j :: 0 <= j < i ==> v.items[j].key != key
        decreases |v.items| - i
      {
        ChainHead(Doc(), m, v.items[i..], true);
        ViewTells(Doc(), nodes[m], v.items[i].key, key);
        var base := if nodes[m].inScratch then scratch[..Filled()] else src;
        if nodes[m].length == |key| && StartsAt(base, nodes[m].offset, key) { return nodes[m].child; }
        assert v.items[i..][1..] == v.items[i + 1..];
        m := nodes[m].next;
        i := i + 1;
      }
      return -1;
    }
  }
}
