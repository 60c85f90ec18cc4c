/** The private binary min-heap of the shortest-path solver: an array of (node, distance)
    entries ordered by distance, sifted in place, that silently refuses a push when full. */
module MinQueue {
  import opened Shuffling

  datatype QItem = QItem(node: nat, dist: real)

  predicate IsParent(p: int, i: int) {
    i == 2 * p + 1 || i == 2 * p + 2
  }

  /** Every entry is at least as far as its parent. */
  ghost predicate Heap(s: seq<QItem>) {
    forall p, i :: 0 <= p < |s| && 0 <= i < |s| && IsParent(p, i) ==> s[p].dist <= s[i].dist
  }

  /** A heap whose only possible defect is that entry `hole` may be smaller than its parent. */
  ghost predicate RisingHeap(s: seq<QItem>, hole: nat) {
    && (forall p, i :: 0 <= p < |s| && 0 <= i < |s| && IsParent(p, i) && i != hole ==> s[p].dist <= s[i].dist)
    && SkipsHole(s, hole)
  }

  /** A heap whose only possible defect is that entry `hole` may be larger than its children. */
  ghost predicate SinkingHeap(s: seq<QItem>, hole: nat) {
    && (forall p, i :: 0 <= p < |s| && 0 <= i < |s| && IsParent(p, i) && p != hole ==> s[p].dist <= s[i].dist)
    && SkipsHole(s, hole)
  }

  /** The children of `hole` are in order with its parent. */
  ghost predicate SkipsHole(s: seq<QItem>, hole: nat) {
    forall p, i :: 0 <= p < |s| && 0 <= i < |s| && IsParent(p, hole) && IsParent(hole, i) ==> s[p].dist <= s[i].dist
  }

  lemma RiseStep(s: seq<QItem>, hole: nat)
    requires 0 < hole < |s| && RisingHeap(s, hole)
    requires s[hole].dist < s[(hole - 1) / 2].dist
    ensures RisingHeap(Exchanged(s, hole, (hole - 1) / 2), (hole - 1) / 2)
  {
    var p := (hole - 1) / 2;
    assert IsParent(p, hole);
  }

  lemma SinkStep(s: seq<QItem>, hole: nat, child: nat)
    requires hole < |s| && SinkingHeap(s, hole)
    requires 1 <= child < |s| && IsParent(hole, child)
    requires s[child].dist < s[hole].dist
    requires forall i :: 0 <= i < |s| && IsParent(hole, i) ==> s[child].dist <= s[i].dist
    ensures SinkingHeap(Exchanged(s, hole, child), child)
  {
  }

  /** In a heap the root is a minimum of the whole queue. */
  lemma {:induction false} RootIsMinimum(s: seq<QItem>, k: nat)
    requires Heap(s) && k < |s|
    ensures s[0].dist <= s[k].dist
  {
    if k > 0 {
      assert IsParent((k - 1) / 2, k);
      RootIsMinimum(s, (k - 1) / 2);
    }
  }

  class MinQ {
    const items: array<QItem>
    var size: nat

    ghost predicate Valid()
      reads this, items
    {
      size <= items.Length && Heap(items[..size])
    }

    ghost function Contents(): (m: multiset<QItem>)
      requires size <= items.Length
      reads this, items
    {
      multiset(items[..size])
    }

    constructor (capacity: nat, filler: QItem)
      ensures Valid() && fresh(items)
      ensures items.Length == capacity && size == 0 && Contents() == multiset{}
    {
      items := new QItem[capacity](_ => filler);
      size := 0;
    }

    /** Adds one entry, or does nothing at all when the heap is full. */
    method Push(node: nat, dist: real)
      requires Valid()
      modifies this`size, items
      ensures Valid()
      ensures size == if old(size) < items.Length then old(size) + 1 else old(size)
      ensures Contents() == if old(size) < items.Length
                            then old(Contents()) + multiset{QItem(node, dist)}
                            else old(Contents())
    {
      if size >= items.Length { return; }
      ghost var before := items[..size];
      items[size] := QItem(node, dist);
      size := size + 1;
      assert items[..size] == before + [QItem(node, dist)];
      SiftUp(size - 1);
    }

    method SiftUp(start: nat)
      requires size <= items.Length && start < size
      requires RisingHeap(items[..size], start)
      modifies items
      ensures Valid() && Contents() == old(Contents())
    {
      var i: nat := start;
      ghost var s := items[..size];
      while i > 0
        invariant i < size <= items.Length
        invariant items[..size] == s
        invariant RisingHeap(s, i)
        invariant multiset(s) == old(Contents())
      {
        var parent := (i - 1) / 2;
        if items[i].dist < items[parent].dist {
          ExchangeIn(items, i, parent, 0, size);
          RiseStep(s, i);
          s := Exchanged(s, i, parent);
          i := parent;
        } else {
          RisenIsHeap(s, i);
          return;
        }
      }
    }

    /** Removes and returns an entry of least distance; the rest is untouched as a multiset. */
    method Pop() returns (ok: bool, node: nat, dist: real)
      requires Valid()
      modifies this`size, items
      ensures Valid()
      ensures ok == (old(size) > 0)
      ensures !ok ==> size == 0 && Contents() == old(Contents())
      ensures ok ==> size == old(size) - 1
      ensures ok ==> QItem(node, dist) in old(Contents())
      ensures ok ==> Contents() == old(Contents()) - multiset{QItem(node, dist)}
      ensures ok ==> forall it :: it in old(Contents()) ==> dist <= it.dist
    {
      if size == 0 { return false, 0, 0.0; }
      PoppedIsLeast(items[..size]);
      ok, node, dist := true, items[0].node, items[0].dist;
      RemoveRoot();
    }

    /** Moves the last entry to the root and sinks it. */
    method RemoveRoot()
      requires Valid() && size > 0
      modifies this`size, items
      ensures Valid() && size == old(size) - 1
      ensures Contents() == old(Contents()) - multiset{old(items[0])}
    {
      ghost var before := items[..size];
      size := size - 1;
      if size > 0 {
        hide Heap, SinkingHeap;
        items[0] := items[size];
        assert items[..size] == before[..size][0 := before[size]];
        LastToRoot(before);
        SiftDown();
      } else {
        assert before == [before[0]];
      }
    }

    /** Index of a least entry among `i` and its children, `i` itself on a tie. */
    method Least(i: nat) returns (smallest: nat)
      requires i < size <= items.Length
      ensures smallest < size && (smallest == i || IsParent(i, smallest))
      ensures smallest != i ==> items[smallest].dist < items[i].dist
      ensures forall c :: 0 <= c < size && IsParent(i, c) ==> items[smallest].dist <= items[c].dist
    {
      var left := 2 * i + 1;
      var right := 2 * i + 2;
      smallest := i;
      if left < size && items[left].dist < items[smallest].dist { smallest := left; }
      if right < size && items[right].dist < items[smallest].dist { smallest := right; }
    }

    method SiftDown()
      requires 0 < size <= items.Length
      requires SinkingHeap(items[..size], 0)
      modifies items
      ensures Valid() && Contents() == old(Contents())
    {
      var i: nat := 0;
      ghost var s := items[..size];
      while true
        invariant i < size <= items.Length
        invariant items[..size] == s
        invariant SinkingHeap(s, i)
        invariant multiset(s) == old(Contents())
        decreases size - i
      {
        var smallest := Least(i);
        if smallest != i {
          ExchangeIn(items, i, smallest, 0, size);
          SinkStep(s, i, smallest);
          s := Exchanged(s, i, smallest);
          i := smallest;
        } else {
          SunkIsHeap(s, i);
          return;
        }
      }
    }
  }

  lemma PoppedIsLeast(s: seq<QItem>)
    requires Heap(s) && |s| > 0
    ensures s[0] in multiset(s)
    ensures forall it :: it in multiset(s) ==> s[0].dist <= it.dist
  {
    forall it | it in multiset(s)
      ensures s[0].dist <= it.dist
    {
      var k :| 0 <= k < |s| && s[k] == it;
      RootIsMinimum(s, k);
    }
  }

  lemma LastToRoot(s: seq<QItem>)
    requires Heap(s) && |s| > 1
    ensures var t := s[..|s| - 1][0 := s[|s| - 1]];
            SinkingHeap(t, 0) && multiset(t) == multiset(s) - multiset{s[0]}
  {
    var n := |s| - 1;
    assert s == [s[0]] + s[1..n] + [s[n]];
    assert s[..n][0 := s[n]] == [s[n]] + s[1..n];
  }

  lemma RisenIsHeap(s: seq<QItem>, hole: nat)
    requires 0 < hole < |s| && RisingHeap(s, hole)
    requires s[(hole - 1) / 2].dist <= s[hole].dist
    ensures Heap(s)
  {
  }

  lemma SunkIsHeap(s: seq<QItem>, hole: nat)
    requires hole < |s| && SinkingHeap(s, hole)
    requires 2 * hole + 1 < |s| ==> s[hole].dist <= s[2 * hole + 1].dist
    requires 2 * hole + 2 < |s| ==> s[hole].dist <= s[2 * hole + 2].dist
    ensures Heap(s)
  {
  }
}
