/** The node pool a parsed document lives in, and which value a node denotes. */
module JsonPool {
  import opened JsonText

  datatype Kind = NullKind | FalseKind | TrueKind | NumberKind | StringKind | ArrayKind | ObjectKind

  /** `number` stands for the value of that number text. References below 0 are none. */
  datatype Node = Node(kind: Kind, child: int, next: int, offset: nat, length: nat, inScratch: bool, number: string)

  const BLANK := Node(NullKind, -1, -1, 0, 0, false, "")

  /** What the parser has filled in so far: allocated nodes, used scratch, and the text itself. */
  datatype Pool = Pool(nodes: seq<Node>, scratch: string, src: string)

  /** The view of a node is the string. */
  predicate Views(d: Pool, node: Node, s: string) {
    node.length == |s| && StartsAt(if node.inScratch then d.scratch else d.src, node.offset, s)
  }

  /** Following the references from a node gives the value: an item is a wrapper that carries the key,
      its value, and the next wrapper. Nodes stand in preorder. */
  predicate Denotes(d: Pool, at: nat, v: Json)
    decreases v, 0
  {
    && at + Count(v) <= |d.nodes|
    && var node := d.nodes[at];
       match v
       case Null => node.kind == NullKind
       case Bool(b) => node.kind == (if b then TrueKind else FalseKind)
       case Number(token) => node.kind == NumberKind && node.number == token
       case Str(s) => node.kind == StringKind && Views(d, node, s)
       case Array(items) => node.kind == ArrayKind && node.child == (if items == [] then -1 else at + 1)
                            && Chain(d, at + 1, items, false)
       case Object(items) => node.kind == ObjectKind && node.child == (if items == [] then -1 else at + 1)
                             && Chain(d, at + 1, items, true)
  }

  predicate Chain(d: Pool, at: nat, items: seq<Item>, keyed: bool)
    decreases items, 1
  {
    && at + CountItems(items) <= |d.nodes|
    && (items != [] ==>
          && Link(d, at, items, keyed)
          && Denotes(d, at + 1, items[0].value)
          && Chain(d, at + 1 + Count(items[0].value), items[1..], keyed))
  }

  /** The wrapper of the first item. */
  predicate Link(d: Pool, at: nat, items: seq<Item>, keyed: bool)
    requires items != [] && at < |d.nodes|
  {
    && d.nodes[at].child == at + 1
    && d.nodes[at].next == (if |items| > 1 then at + 1 + Count(items[0].value) else -1)
    && (keyed ==> Views(d, d.nodes[at], items[0].key))
  }

  // --- What later parsing leaves alone ---

  /** `e` is `d` further on: the same nodes from `lo` to `hi`, and no less scratch. */
  predicate Keeps(d: Pool, e: Pool, lo: nat, hi: nat) {
    && d.src == e.src && d.scratch <= e.scratch
    && hi <= |d.nodes| && hi <= |e.nodes|
    && forall i :: lo <= i < hi ==> d.nodes[i] == e.nodes[i]
  }

  lemma ViewsKept(d: Pool, e: Pool, node: Node, s: string)
    requires Views(d, node, s) && d.src == e.src && d.scratch <= e.scratch
    ensures Views(e, node, s)
  {
    if node.inScratch {
      assert e.scratch[node.offset..node.offset + |s|] == d.scratch[node.offset..node.offset + |s|];
    }
  }

  lemma {:induction false} DenotesKept(d: Pool, e: Pool, at: nat, v: Json)
    requires Denotes(d, at, v) && Keeps(d, e, at, at + Count(v))
    ensures Denotes(e, at, v)
    decreases v, 0
  {
    hide Views, Chain, CountItems;
    match v
    case Str(s) => ViewsKept(d, e, d.nodes[at], s);
    case Array(items) => ChainKept(d, e, at + 1, items, false);
    case Object(items) => ChainKept(d, e, at + 1, items, true);
    case _ =>
  }

  lemma {:induction false} ChainKept(d: Pool, e: Pool, at: nat, items: seq<Item>, keyed: bool)
    requires Chain(d, at, items, keyed) && Keeps(d, e, at, at + CountItems(items))
    ensures Chain(e, at, items, keyed)
    decreases items, 1
  {
    hide Views, Count, Denotes;
    if items != [] {
      DenotesKept(d, e, at + 1, items[0].value);
      ChainKept(d, e, at + 1 + Count(items[0].value), items[1..], keyed);
      if keyed { ViewsKept(d, e, d.nodes[at], items[0].key); }
    }
  }

  // --- Growing a chain ---

  /** The wrapper of the last item. */
  function Tail(at: nat, items: seq<Item>): (t: nat)
    requires items != []
    ensures at <= t < at + CountItems(items)
    decreases |items|
  {
    if |items| == 1 then at else Tail(at + 1 + Count(items[0].value), items[1..])
  }

  /** `e` is `d` with a new wrapper at `end` hooked behind the wrapper `tail`. */
  predicate Hooked(d: Pool, e: Pool, at: nat, tail: nat, end: nat, keyed: bool, item: Item) {
    && d.src == e.src && d.scratch <= e.scratch
    && at <= tail < end <= |d.nodes| && end < |e.nodes|
    && (forall i :: at <= i < end && i != tail ==> e.nodes[i] == d.nodes[i])
    && e.nodes[tail] == d.nodes[tail].(next := end)
    && Chain(e, end, [item], keyed)
  }

  lemma {:induction false} ChainGrows(d: Pool, e: Pool, at: nat, items: seq<Item>, keyed: bool, item: Item)
    requires items != [] && Chain(d, at, items, keyed)
    requires Hooked(d, e, at, Tail(at, items), at + CountItems(items), keyed, item)
    ensures Chain(e, at, items + [item], keyed)
    decreases |items|
  {
    hide *;
    var all, behind := items + [item], at + 1 + Count(items[0].value);
    assert all[1..] == items[1..] + [item] && all[0] == items[0];
    HeadKept(d, e, at, items, keyed, item);
    if |items| > 1 {
      ChainGrows(d, e, behind, items[1..], keyed, item);
    } else {
      assert items[1..] + [item] == [item];
    }
    ChainStep(e, at, all, keyed);
  }

  lemma ChainStep(e: Pool, at: nat, items: seq<Item>, keyed: bool)
    requires items != [] && Chain(e, at + 1 + Count(items[0].value), items[1..], keyed)
    requires Denotes(e, at + 1, items[0].value) && at < |e.nodes| && Link(e, at, items, keyed)
    ensures Chain(e, at, items, keyed)
  {
    hide Link, Denotes, Count;
  }

  /** The first item of a grown chain: only its `next` may differ, and only if it was the last. */
  lemma HeadKept(d: Pool, e: Pool, at: nat, items: seq<Item>, keyed: bool, item: Item)
    requires items != [] && Chain(d, at, items, keyed)
    requires Hooked(d, e, at, Tail(at, items), at + CountItems(items), keyed, item)
    ensures Denotes(e, at + 1, items[0].value)
    ensures at < |e.nodes| && Link(e, at, items + [item], keyed)
    ensures |items| == 1 ==> Chain(e, at + 1 + Count(items[0].value), [item], keyed)
    ensures |items| > 1 ==> Chain(d, at + 1 + Count(items[0].value), items[1..], keyed)
    ensures var behind := at + 1 + Count(items[0].value);
            |items| > 1 ==> Hooked(d, e, behind, Tail(behind, items[1..]), behind + CountItems(items[1..]), keyed, item)
  {
    hide Denotes, Chain, CountItems, Tail, StartsAt, Count;
    ChainHead(d, at, items, keyed);
    TailCases(at, items);
    DenotesKept(d, e, at + 1, items[0].value);
    if keyed { ViewsKept(d, e, d.nodes[at], items[0].key); }
  }

  lemma ChainHead(d: Pool, at: nat, items: seq<Item>, keyed: bool)
    requires items != [] && Chain(d, at, items, keyed)
    ensures at < |d.nodes| && Link(d, at, items, keyed) && Denotes(d, at + 1, items[0].value)
    ensures Chain(d, at + 1 + Count(items[0].value), items[1..], keyed)
    ensures at + CountItems(items) <= |d.nodes|
  {
    hide Denotes, Link, Count;
  }

  lemma TailCases(at: nat, items: seq<Item>)
    requires items != []
    ensures CountItems(items) == 1 + Count(items[0].value) + CountItems(items[1..])
    ensures |items| == 1 ==> Tail(at, items) == at && CountItems(items[1..]) == 0
    ensures |items| > 1 ==> Tail(at, items) == Tail(at + 1 + Count(items[0].value), items[1..])
  {
    hide Count;
    assert |items| == 1 ==> items[1..] == [];
  }

  lemma {:induction false} CountAppend(items: seq<Item>, item: Item)
    ensures CountItems(items + [item]) == CountItems(items) + 1 + Count(item.value)
    decreases |items|
  {
    hide Count;
    if items == [] {
      assert items + [item] == [item];
    } else {
      assert (items + [item])[1..] == items[1..] + [item];
      CountAppend(items[1..], item);
    }
  }

  // --- Filling a container ---

  /** `e` has all of `d`, and more behind. */
  predicate Grown(d: Pool, e: Pool) {
    d.nodes <= e.nodes && d.scratch <= e.scratch && d.src == e.src
  }

  /** Behind `d`, exactly one value was added. */
  predicate Added(d: Pool, e: Pool, v: Json) {
    Grown(d, e) && |e.nodes| == |d.nodes| + Count(v) && Denotes(e, |d.nodes|, v)
  }

  predicate AddedItem(d: Pool, e: Pool, item: Item, keyed: bool) {
    Grown(d, e) && |e.nodes| == |d.nodes| + 1 + Count(item.value) && Chain(e, |d.nodes|, [item], keyed)
  }

  function ContainerNode(keyed: bool, child: int): Node {
    BLANK.(kind := if keyed then ObjectKind else ArrayKind, child := child)
  }

  /** Behind `d` stands a container node with the items read so far. */
  predicate Filling(d: Pool, e: Pool, items: seq<Item>, keyed: bool) {
    var at := |d.nodes|;
    && Grown(d, e) && |e.nodes| == at + 1 + CountItems(items)
    && e.nodes[at] == ContainerNode(keyed, if items == [] then -1 else at + 1)
    && Chain(e, at + 1, items, keyed)
  }

  /** Hooking a new item into the container: behind the tail, or as the first child. */
  function WithItem(d: Pool, at: nat, items: seq<Item>, member: nat): (r: Pool)
    requires at < |d.nodes| && (items != [] ==> Tail(at + 1, items) < |d.nodes|)
  {
    d.(nodes := if items == [] then d.nodes[at := d.nodes[at].(child := member)]
                else d.nodes[Tail(at + 1, items) := d.nodes[Tail(at + 1, items)].(next := member)])
  }

  lemma ItemHooks(d: Pool, e: Pool, f: Pool, items: seq<Item>, keyed: bool, item: Item)
    requires Filling(d, e, items, keyed) && AddedItem(e, f, item, keyed)
    ensures items != [] ==> |d.nodes| < Tail(|d.nodes| + 1, items) < |e.nodes|
    ensures Filling(d, WithItem(f, |d.nodes|, items, |e.nodes|), items + [item], keyed)
  {
    assert items == [] ==> CountItems(items) == 0;
    hide Chain, Tail, Count, CountItems, Keeps;
    var at, end := |d.nodes|, |e.nodes|;
    var g := WithItem(f, at, items, end);
    CountAppend(items, item);
    WithItemKeeps(d, e, f, items, keyed, item);
    ChainKept(f, g, end, [item], keyed);
    if items == [] {
      assert items + [item] == [item];
    } else {
      ChainGrows(e, g, at + 1, items, keyed, item);
    }
  }

  lemma WithItemKeeps(d: Pool, e: Pool, f: Pool, items: seq<Item>, keyed: bool, item: Item)
    requires Filling(d, e, items, keyed) && AddedItem(e, f, item, keyed)
    ensures var g := WithItem(f, |d.nodes|, items, |e.nodes|);
            Grown(d, g) && |g.nodes| == |f.nodes| && Keeps(f, g, |e.nodes|, |e.nodes| + CountItems([item]))
    ensures var g := WithItem(f, |d.nodes|, items, |e.nodes|);
            Chain(g, |e.nodes|, [item], keyed) && items != [] ==>
              Hooked(e, g, |d.nodes| + 1, Tail(|d.nodes| + 1, items), |e.nodes|, keyed, item)
  {
    assert CountItems([item]) == 1 + Count(item.value);
    hide Chain, Tail, Count, CountItems;
  }

  lemma FilledIsAdded(d: Pool, e: Pool, items: seq<Item>, keyed: bool)
    requires Filling(d, e, items, keyed)
    ensures Added(d, e, Container(keyed, items))
  {
    hide Chain, CountItems;
  }
}
