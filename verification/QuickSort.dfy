/** Introspective quicksort: median-of-three partition, recursion into the smaller side only, heap sort
    when the depth runs out, insertion sort for short ranges. Each routine works in place; a range is
    sorted whatever the depth limit, and the nesting never exceeds the logarithm of its length. */
module QuickSort {
  import MinQueue
  import opened Ordering
  import opened Powers
  import opened Shuffling

  const SHORT: nat := 16

  /** All pairs of [lo, hi) are in order, except those that lie both in [b, e). */
  predicate Tidy<T>(cmp: (T, T) -> int, s: seq<T>, lo: nat, b: nat, e: nat, hi: nat)
    requires hi <= |s|
  {
    forall i, j :: lo <= i < j < hi && !(b <= i && j < e) ==> cmp(s[i], s[j]) <= 0
  }

  predicate Sorted<T>(cmp: (T, T) -> int, s: seq<T>, lo: nat, hi: nat)
    requires hi <= |s|
  {
    forall i, j :: lo <= i < j < hi ==> cmp(s[i], s[j]) <= 0
  }

  /** Nothing before the pivot is above it, and nothing behind it is below it. */
  predicate Cut<T>(cmp: (T, T) -> int, s: seq<T>, lo: nat, p: nat, hi: nat)
    requires p < hi <= |s|
  {
    && (forall i :: lo <= i < p ==> cmp(s[i], s[p]) <= 0)
    && (forall j :: p < j < hi ==> cmp(s[p], s[j]) <= 0)
  }

  // --- Shuffling keeps what is said about a whole range ---

  lemma TidyShuffled<T>(cmp: (T, T) -> int, s: seq<T>, t: seq<T>, lo: nat, b: nat, e: nat, hi: nat)
    requires hi <= |s| && lo <= b && e <= hi && Tidy(cmp, s, lo, b, e, hi) && Shuffled(s, t, b, e)
    ensures Tidy(cmp, t, lo, b, e, hi)
  {
    forall i, j | lo <= i < j < hi && !(b <= i && j < e) ensures cmp(t[i], t[j]) <= 0 {
      var k := ComesFrom(s, t, b, e, i);
      var m := ComesFrom(s, t, b, e, j);
      hide Shuffled;
    }
  }

  /** The pivot stands between what is before it and what is behind it. */
  lemma CutPair<T(!new)>(cmp: (T, T) -> int, s: seq<T>, b: nat, p: nat, e: nat, k: nat, m: nat)
    requires Consistent(cmp) && p < e <= |s| && Cut(cmp, s, b, p, e) && b <= k <= p <= m < e && k < m
    ensures cmp(s[k], s[m]) <= 0
  {
    assert k < p ==> cmp(s[k], s[p]) <= 0;
    assert p < m ==> cmp(s[p], s[m]) <= 0;
  }

  /** Sorting the part before the pivot leaves only the part behind it untidy. */
  lemma LeftDone<T(!new)>(cmp: (T, T) -> int, s: seq<T>, t: seq<T>, lo: nat, b: nat, p: nat, e: nat, hi: nat)
    requires Consistent(cmp) && lo <= b <= p < e <= hi <= |s| && Tidy(cmp, s, lo, b, e, hi) && Cut(cmp, s, b, p, e)
    requires Shuffled(s, t, b, p) && Sorted(cmp, t, b, p)
    ensures Tidy(cmp, t, lo, p + 1, e, hi)
  {
    assert |t| == |s|;
    hide Consistent, Shuffled, Cut;
    forall i, j | lo <= i < j < hi && !(p + 1 <= i && j < e) ensures cmp(t[i], t[j]) <= 0 {
      var k := ComesFrom(s, t, b, p, i);
      var m := ComesFrom(s, t, b, p, j);
      if b <= i && p <= j < e { CutPair(cmp, s, b, p, e, k, m); }
    }
  }

  /** Sorting the part behind the pivot leaves only the part before it untidy. */
  lemma RightDone<T(!new)>(cmp: (T, T) -> int, s: seq<T>, t: seq<T>, lo: nat, b: nat, p: nat, e: nat, hi: nat)
    requires Consistent(cmp) && lo <= b <= p < e <= hi <= |s| && Tidy(cmp, s, lo, b, e, hi) && Cut(cmp, s, b, p, e)
    requires Shuffled(s, t, p + 1, e) && Sorted(cmp, t, p + 1, e)
    ensures Tidy(cmp, t, lo, b, p, hi)
  {
    assert |t| == |s|;
    hide Consistent, Shuffled, Cut;
    var next := p + 1;
    forall i, j | lo <= i < j < hi && !(b <= i && j < p) ensures cmp(t[i], t[j]) <= 0 {
      var k := ComesFrom(s, t, next, e, i);
      var m := ComesFrom(s, t, next, e, j);
      if b <= i <= p && j < e { CutPair(cmp, s, b, p, e, k, m); }
    }
  }

  lemma NothingTidy<T>(cmp: (T, T) -> int, s: seq<T>, lo: nat, hi: nat)
    requires hi <= |s|
    ensures Tidy(cmp, s, lo, lo, hi, hi)
  {
  }

  /** Once the untidy part is sorted, all is. */
  lemma TidySorted<T>(cmp: (T, T) -> int, s: seq<T>, lo: nat, b: nat, e: nat, hi: nat)
    requires hi <= |s| && lo <= b && e <= hi && Tidy(cmp, s, lo, b, e, hi) && Sorted(cmp, s, b, e)
    ensures Sorted(cmp, s, lo, hi)
  {
  }

  // --- Insertion sort ---

  /** Sorted but for the element at `c`, which may be too far back. */
  predicate SortedBut<T>(cmp: (T, T) -> int, s: seq<T>, lo: nat, hi: nat, c: nat)
    requires hi <= |s|
  {
    forall i, j :: lo <= i < j < hi && j != c ==> cmp(s[i], s[j]) <= 0
  }

  lemma StepsDown<T(!new)>(cmp: (T, T) -> int, s: seq<T>, lo: nat, hi: nat, c: nat)
    requires Consistent(cmp) && lo < c < hi <= |s| && SortedBut(cmp, s, lo, hi, c)
    ensures cmp(s[c], s[c - 1]) < 0 ==> SortedBut(cmp, s[c := s[c - 1]][c - 1 := s[c]], lo, hi, c - 1)
    ensures cmp(s[c], s[c - 1]) >= 0 ==> Sorted(cmp, s, lo, hi)
  {
    var b := c - 1;
    if cmp(s[c], s[b]) >= 0 {
      forall i, j | lo <= i < j < hi ensures cmp(s[i], s[j]) <= 0 {
        if j == c { assert i < b ==> cmp(s[i], s[b]) <= 0; }
      }
    }
  }

  method InsertionSortRange<T(!new)>(cmp: (T, T) -> int, a: array<T>, begin: nat, end: nat)
    requires Consistent(cmp) && begin <= end <= a.Length
    modifies a
    ensures Shuffled(old(a[..]), a[..], begin, end) && Sorted(cmp, a[..], begin, end)
  {
    hide Consistent, Shuffled, SortedBut;
    ghost var start := a[..];
    ShuffledNot(start, begin, end);
    var i := begin + if begin < end then 1 else 0;
    while i < end
      invariant begin <= i <= end && (begin < end ==> begin < i)
      invariant Shuffled(start, a[..], begin, end) && Sorted(cmp, a[..], begin, i)
    {
      Insert(cmp, a, begin, i, end, start);
      i := i + 1;
    }
  }

  /** Moves one element down to its place among the sorted ones. */
  method Insert<T(!new)>(cmp: (T, T) -> int, a: array<T>, begin: nat, i: nat, end: nat, ghost start: seq<T>)
    requires Consistent(cmp) && begin < i < end <= a.Length
    requires Shuffled(start, a[..], begin, end) && Sorted(cmp, a[..], begin, i)
    modifies a
    ensures Shuffled(start, a[..], begin, end) && Sorted(cmp, a[..], begin, i + 1)
  {
    ghost var next := i + 1;
    assert SortedBut(cmp, a[..], begin, next, i);
    hide Consistent, Shuffled, SortedBut, Sorted;
    var current := i;
    while current > begin
      invariant begin <= current < next && Shuffled(start, a[..], begin, end)
                && SortedBut(cmp, a[..], begin, next, current)
    {
      ghost var s := a[..];
      StepsDown(cmp, s, begin, next, current);
      if cmp(a[current], a[current - 1]) >= 0 { return; }
      Exchange(a, current, current - 1, begin, end);
      ShuffledTwice(start, s, a[..], begin, end);
      current := current - 1;
    }
    AtTheFront(cmp, a[..], begin, next);
  }

  lemma AtTheFront<T>(cmp: (T, T) -> int, s: seq<T>, lo: nat, hi: nat)
    requires hi <= |s| && SortedBut(cmp, s, lo, hi, lo)
    ensures Sorted(cmp, s, lo, hi)
  {
  }

  // --- Partition ---

  /** The candidates looked at so far: those below the pivot first. */
  predicate Parted<T>(cmp: (T, T) -> int, s: seq<T>, begin: nat, boundary: nat, candidate: nat, last: nat)
    requires boundary <= candidate <= last < |s|
  {
    && (forall i :: begin <= i < boundary ==> cmp(s[i], s[last]) < 0)
    && (forall i :: boundary <= i < candidate ==> cmp(s[i], s[last]) >= 0)
  }

  lemma PartStep<T>(cmp: (T, T) -> int, s: seq<T>, begin: nat, boundary: nat, candidate: nat, last: nat)
    requires begin <= boundary <= candidate < last < |s| && Parted(cmp, s, begin, boundary, candidate, last)
    ensures cmp(s[candidate], s[last]) < 0 ==>
              Parted(cmp, s[boundary := s[candidate]][candidate := s[boundary]], begin, boundary + 1, candidate + 1,
                     last)
    ensures cmp(s[candidate], s[last]) >= 0 ==> Parted(cmp, s, begin, boundary, candidate + 1, last)
  {
  }

  lemma PartCuts<T(!new)>(cmp: (T, T) -> int, s: seq<T>, begin: nat, boundary: nat, last: nat)
    requires Consistent(cmp) && begin <= boundary <= last < |s| && Parted(cmp, s, begin, boundary, last, last)
    ensures Cut(cmp, s[boundary := s[last]][last := s[boundary]], begin, boundary, last + 1)
  {
  }

  /** Two elements exchanged if they are out of order. */
  function OrderedAt<T>(cmp: (T, T) -> int, s: seq<T>, i: nat, j: nat): (r: seq<T>)
    requires i < |s| && j < |s|
    ensures |r| == |s|
  {
    if cmp(s[i], s[j]) > 0 then s[i := s[j]][j := s[i]] else s
  }

  lemma ThreeOrdered<T(!new)>(cmp: (T, T) -> int, s: seq<T>, i: nat, j: nat, k: nat)
    requires Consistent(cmp) && i < j < k < |s|
    ensures var t := OrderedAt(cmp, OrderedAt(cmp, OrderedAt(cmp, s, i, j), j, k), i, j);
            cmp(t[i], t[j]) <= 0 && cmp(t[j], t[k]) <= 0
  {
  }

  /** Puts the median of the first, middle and last element last. */
  method MedianLast<T(!new)>(cmp: (T, T) -> int, a: array<T>, begin: nat, end: nat)
    requires Consistent(cmp) && begin < end <= a.Length
    modifies a
    ensures Shuffled(old(a[..]), a[..], begin, end)
    ensures end - begin >= 3 ==>
              cmp(a[begin], a[end - 1]) <= 0 && cmp(a[end - 1], a[begin + (end - 1 - begin) / 2]) <= 0
  {
    hide Shuffled, Consistent, OrderedAt;
    ghost var start := a[..];
    ShuffledNot(start, begin, end);
    var last := end - 1;
    var middle := begin + (last - begin) / 2;
    OrderPair(cmp, a, begin, middle, begin, end);
    ghost var s1 := a[..];
    ShuffledTwice(start, start, s1, begin, end);
    OrderPair(cmp, a, middle, last, begin, end);
    ghost var s2 := a[..];
    ShuffledTwice(start, s1, s2, begin, end);
    OrderPair(cmp, a, begin, middle, begin, end);
    ghost var s3 := a[..];
    ShuffledTwice(start, s2, s3, begin, end);
    if end - begin >= 3 { ThreeOrdered(cmp, start, begin, middle, last); }
    Exchange(a, middle, last, begin, end);
    ShuffledTwice(start, s3, a[..], begin, end);
  }

  method OrderPair<T(!new)>(cmp: (T, T) -> int, a: array<T>, i: nat, j: nat, ghost lo: nat, ghost hi: nat)
    requires lo <= i < hi <= a.Length && lo <= j < hi
    modifies a
    ensures Shuffled(old(a[..]), a[..], lo, hi) && a[..] == OrderedAt(cmp, old(a[..]), i, j)
  {
    ShuffledNot(a[..], lo, hi);
    if cmp(a[i], a[j]) > 0 { Exchange(a, i, j, lo, hi); }
  }

  method PartitionRange<T(!new)>(cmp: (T, T) -> int, a: array<T>, begin: nat, end: nat) returns (boundary: nat)
    requires Consistent(cmp) && begin < end <= a.Length
    modifies a
    ensures begin <= boundary < end && Shuffled(old(a[..]), a[..], begin, end) && Cut(cmp, a[..], begin, boundary, end)
  {
    hide Consistent, Shuffled, Parted, Cut;
    ghost var start := a[..];
    MedianLast(cmp, a, begin, end);
    ghost var median := a[..];
    boundary := GatherBelow(cmp, a, begin, end);
    ghost var s, last := a[..], end - 1;
    ShuffledTwice(start, median, s, begin, end);
    PartCuts(cmp, s, begin, boundary, last);
    Exchange(a, boundary, end - 1, begin, end);
    ShuffledTwice(start, s, a[..], begin, end);
  }

  /** Elements below the last one come to the front. */
  method GatherBelow<T(!new)>(cmp: (T, T) -> int, a: array<T>, begin: nat, end: nat) returns (boundary: nat)
    requires begin < end <= a.Length
    modifies a
    ensures Shuffled(old(a[..]), a[..], begin, end)
    ensures begin <= boundary < end && Parted(cmp, a[..], begin, boundary, end - 1, end - 1)
  {
    hide Shuffled, Parted;
    ghost var start := a[..];
    ShuffledNot(start, begin, end);
    var last: nat := end - 1;
    boundary := begin;
    var candidate := begin;
    NothingParted(cmp, a[..], begin, last);
    while candidate < last
      invariant begin <= boundary <= candidate <= last
      invariant Shuffled(start, a[..], begin, end) && Parted(cmp, a[..], begin, boundary, candidate, last)
    {
      ghost var s := a[..];
      PartStep(cmp, s, begin, boundary, candidate, last);
      if cmp(a[candidate], a[last]) < 0 {
        Exchange(a, boundary, candidate, begin, end);
        ShuffledTwice(start, s, a[..], begin, end);
        boundary := boundary + 1;
      }
      candidate := candidate + 1;
    }
  }

  lemma NothingParted<T>(cmp: (T, T) -> int, s: seq<T>, begin: nat, last: nat)
    requires begin <= last < |s|
    ensures Parted(cmp, s, begin, begin, begin, last)
  {
  }

  // --- Heap sort ---

  /** A heap, largest first, as far as the elements at and behind `from` go. */
  ghost predicate HeapFrom<T>(cmp: (T, T) -> int, h: seq<T>, from: nat) {
    forall p: nat, c: nat :: from <= p < |h| && c < |h| && MinQueue.IsParent(p, c) ==> cmp(h[c], h[p]) <= 0
  }

  /** A heap but for the element at `hole`, which may be too small for its place. */
  ghost predicate HeapBut<T>(cmp: (T, T) -> int, h: seq<T>, from: nat, hole: nat) {
    && (forall p: nat, c: nat :: from <= p < |h| && p != hole && c < |h| && MinQueue.IsParent(p, c) ==>
          cmp(h[c], h[p]) <= 0)
    && (forall g: nat, c: nat ::
          from <= g < |h| && MinQueue.IsParent(g, hole) && MinQueue.IsParent(hole, c) && c < |h| ==>
            cmp(h[c], h[g]) <= 0)
  }
  /** One step of the sift: the larger child comes up, or the element stays. */
  lemma SiftStep<T(!new)>(cmp: (T, T) -> int, h: seq<T>, from: nat, hole: nat, child: nat)
    requires Consistent(cmp) && HeapBut(cmp, h, from, hole)
    requires from <= hole < child < |h| && MinQueue.IsParent(hole, child)
    requires forall c: nat :: c < |h| && MinQueue.IsParent(hole, c) ==> cmp(h[c], h[child]) <= 0
    ensures cmp(h[hole], h[child]) >= 0 ==> HeapFrom(cmp, h, from)
    ensures cmp(h[hole], h[child]) < 0 ==> HeapBut(cmp, Exchanged(h, hole, child), from, child)
  {
  }

  lemma SiftEnds<T>(cmp: (T, T) -> int, h: seq<T>, from: nat, hole: nat)
    requires HeapBut(cmp, h, from, hole) && hole >= |h| / 2
    ensures HeapFrom(cmp, h, from)
  {
  }

  method SiftDown<T(!new)>(cmp: (T, T) -> int, a: array<T>, base: nat, end: nat, ghost from: nat, hole: nat)
    requires Consistent(cmp) && base <= end <= a.Length && from <= hole && HeapBut(cmp, a[base..end], from, hole)
    modifies a
    ensures Shuffled(old(a[..]), a[..], base, end) && HeapFrom(cmp, a[base..end], from)
  {
    hide Consistent, Shuffled, HeapBut, HeapFrom, Exchanged;
    ghost var start := a[..];
    ShuffledNot(start, base, end);
    var root, count: nat := hole, end - base;
    while root < count / 2
      invariant from <= root && Shuffled(start, a[..], base, end) && HeapBut(cmp, a[base..end], from, root)
      decreases count - root
    {
      ghost var s := a[..];
      var child := LargerChild(cmp, a, base, end, root);
      SiftStep(cmp, a[base..end], from, root, child);
      if cmp(a[base + root], a[base + child]) >= 0 { return; }
      ExchangeIn(a, root, child, base, end);
      ShuffledTwice(start, s, a[..], base, end);
      root := child;
    }
    SiftEnds(cmp, a[base..end], from, root);
  }

  method LargerChild<T(!new)>(cmp: (T, T) -> int, a: array<T>, base: nat, end: nat, root: nat) returns (child: nat)
    requires Consistent(cmp) && base <= end <= a.Length && root < (end - base) / 2
    ensures root < child < end - base && MinQueue.IsParent(root, child)
    ensures forall c: nat :: c < end - base && MinQueue.IsParent(root, c) ==>
              cmp(a[base..end][c], a[base..end][child]) <= 0
  {
    var count := end - base;
    child := root * 2 + 1;
    assert cmp(a[base + child], a[base + child]) == 0;
    if child + 1 < count && cmp(a[base + child], a[base + (child + 1)]) < 0 { child := child + 1; }
  }

  /** The first element of a heap is not below any other. */
  lemma {:induction false} HeapTop<T(!new)>(cmp: (T, T) -> int, h: seq<T>, c: nat)
    requires Consistent(cmp) && HeapFrom(cmp, h, 0) && c < |h|
    ensures cmp(h[c], h[0]) <= 0
  {
    if c > 0 {
      var p := (c - 1) / 2;
      assert MinQueue.IsParent(p, c);
      HeapTop(cmp, h, p);
    }
  }

  /** Without its last element, and with that element on top, a heap is a heap but for the top. */
  lemma TopTaken<T(!new)>(cmp: (T, T) -> int, h: seq<T>)
    requires |h| > 1 && HeapFrom(cmp, h, 0)
    ensures HeapBut(cmp, Exchanged(h, 0, |h| - 1)[..|h| - 1], 0, 0)
  {
  }

  /** The heap part [base, mid) holds nothing above the sorted part [mid, end). */
  predicate Drained<T>(cmp: (T, T) -> int, s: seq<T>, base: nat, mid: nat, end: nat)
    requires end <= |s|
  {
    Tidy(cmp, s, base, base, mid, end)
  }

  /** Moving the top of the heap behind it keeps the rest drained. */
  lemma TopDrains<T(!new)>(cmp: (T, T) -> int, s: seq<T>, t: seq<T>, base: nat, mid: nat, end: nat)
    requires Consistent(cmp) && base < mid <= end <= |s| == |t| && Drained(cmp, s, base, mid, end)
    requires HeapFrom(cmp, s[base..mid], 0) && t[base..mid] == Exchanged(s[base..mid], 0, mid - base - 1)
    requires Shuffled(s, t, base, mid)
    ensures Drained(cmp, t, base, mid - 1, end)
  {
    hide Consistent, Shuffled, HeapFrom;
    TidyShuffled(cmp, s, t, base, base, mid, end);
    var last := mid - 1;
    forall i | base <= i < last ensures cmp(t[i], t[last]) <= 0 {
      TopAbove(cmp, s, t, base, mid, i);
    }
  }

  lemma TopAbove<T(!new)>(cmp: (T, T) -> int, s: seq<T>, t: seq<T>, base: nat, mid: nat, i: nat)
    requires Consistent(cmp) && base <= i < mid - 1 && mid <= |s| == |t| && HeapFrom(cmp, s[base..mid], 0)
    requires t[base..mid] == Exchanged(s[base..mid], 0, mid - base - 1) && Shuffled(s, t, base, mid)
    ensures cmp(t[i], t[mid - 1]) <= 0
  {
    hide Consistent, Shuffled, HeapFrom;
    var h := s[base..mid];
    var k := ComesFrom(s, t, base, mid, i);
    HeapTop(cmp, h, k - base);
    assert t[mid - 1] == t[base..mid][mid - 1 - base] == h[0];
    assert t[i] == s[k] == h[k - base];
  }

  method HeapSortRange<T(!new)>(cmp: (T, T) -> int, a: array<T>, begin: nat, end: nat)
    requires Consistent(cmp) && begin <= end <= a.Length
    modifies a
    ensures Shuffled(old(a[..]), a[..], begin, end) && Sorted(cmp, a[..], begin, end)
  {
    ghost var start := a[..];
    ShuffledNot(start, begin, end);
    if end - begin < 2 { return; }
    hide *;
    Heapify(cmp, a, begin, end);
    ghost var heap := a[..];
    Drain(cmp, a, begin, end);
    ShuffledTwice(start, heap, a[..], begin, end);
  }

  method Heapify<T(!new)>(cmp: (T, T) -> int, a: array<T>, begin: nat, end: nat)
    requires Consistent(cmp) && begin <= end <= a.Length
    modifies a
    ensures Shuffled(old(a[..]), a[..], begin, end) && HeapFrom(cmp, a[begin..end], 0)
  {
    hide Consistent, Shuffled, HeapBut, HeapFrom;
    ghost var start := a[..];
    ShuffledNot(start, begin, end);
    LeavesAreHeaps(cmp, a[begin..end]);
    var parent: nat := (end - begin) / 2;
    while parent > 0
      invariant Shuffled(start, a[..], begin, end) && HeapFrom(cmp, a[begin..end], parent)
    {
      ghost var s := a[..];
      HeapGrows(cmp, a[begin..end], parent);
      parent := parent - 1;
      SiftDown(cmp, a, begin, end, parent, parent);
      ShuffledTwice(start, s, a[..], begin, end);
    }
  }

  lemma LeavesAreHeaps<T>(cmp: (T, T) -> int, h: seq<T>)
    ensures HeapFrom(cmp, h, |h| / 2)
  {
  }

  lemma HeapGrows<T>(cmp: (T, T) -> int, h: seq<T>, from: nat)
    requires from > 0 && HeapFrom(cmp, h, from)
    ensures HeapBut(cmp, h, from - 1, from - 1)
  {
  }

  method Drain<T(!new)>(cmp: (T, T) -> int, a: array<T>, begin: nat, end: nat)
    requires Consistent(cmp) && begin <= end <= a.Length && HeapFrom(cmp, a[begin..end], 0)
    modifies a
    ensures Shuffled(old(a[..]), a[..], begin, end) && Sorted(cmp, a[..], begin, end)
  {
    hide Consistent, Shuffled, HeapBut, HeapFrom, Drained;
    ghost var start := a[..];
    ShuffledNot(start, begin, end);
    NothingDrained(cmp, start, begin, end);
    var mid := end;
    while mid - begin > 1
      invariant begin <= mid <= end && Shuffled(start, a[..], begin, end)
      invariant HeapFrom(cmp, a[begin..mid], 0) && Drained(cmp, a[..], begin, mid, end)
    {
      ghost var s := a[..];
      TakeTop(cmp, a, begin, mid, end);
      ShuffledTwice(start, s, a[..], begin, end);
      mid := mid - 1;
    }
    DrainEnds(cmp, a[..], begin, mid, end);
  }

  /** Moves the top of the heap behind it, and sifts what took its place. */
  method TakeTop<T(!new)>(cmp: (T, T) -> int, a: array<T>, begin: nat, mid: nat, end: nat)
    requires Consistent(cmp) && begin + 1 < mid <= end <= a.Length
    requires HeapFrom(cmp, a[begin..mid], 0) && Drained(cmp, a[..], begin, mid, end)
    modifies a
    ensures Shuffled(old(a[..]), a[..], begin, end)
    ensures HeapFrom(cmp, a[begin..mid - 1], 0) && Drained(cmp, a[..], begin, mid - 1, end)
  {
    hide Consistent, Shuffled, HeapBut, HeapFrom, Drained, Exchanged;
    ghost var s, h := a[..], a[begin..mid];
    var last: nat := mid - 1;
    TopTaken(cmp, h);
    assert h == s[begin..mid];
    ExchangeIn(a, 0, last - begin, begin, mid);
    ghost var t := a[..];
    assert t[begin..mid] == a[begin..mid];
    TopDrains(cmp, s, t, begin, mid, end);
    assert a[begin..last] == a[begin..mid][..last - begin];
    SiftDown(cmp, a, begin, last, 0, 0);
    ghost var u := a[..];
    DrainedShuffled(cmp, t, u, begin, last, end);
    ShuffledWider(s, t, begin, mid, begin, end);
    ShuffledWider(t, u, begin, last, begin, end);
    ShuffledTwice(s, t, u, begin, end);
  }

  lemma NothingDrained<T>(cmp: (T, T) -> int, s: seq<T>, begin: nat, end: nat)
    requires begin <= end <= |s|
    ensures Drained(cmp, s, begin, end, end)
  {
  }

  lemma DrainedShuffled<T>(cmp: (T, T) -> int, s: seq<T>, t: seq<T>, base: nat, mid: nat, end: nat)
    requires base <= mid <= end <= |s| && Drained(cmp, s, base, mid, end) && Shuffled(s, t, base, mid)
    ensures |t| == |s| && Drained(cmp, t, base, mid, end)
  {
    TidyShuffled(cmp, s, t, base, base, mid, end);
  }

  lemma DrainEnds<T>(cmp: (T, T) -> int, s: seq<T>, base: nat, mid: nat, end: nat)
    requires mid - base <= 1 && base <= mid <= end <= |s| && Drained(cmp, s, base, mid, end)
    ensures Sorted(cmp, s, base, end)
  {
  }

  // --- Introsort ---

  /** Room for nested calls that is at least the binary logarithm of the count, rounded down. */
  predicate Roomy(room: nat, count: nat) {
    count < 2 * Pow2(room)
  }

  lemma SmallerSide(room: nat, side: nat, count: nat)
    requires Roomy(room, count) && 2 * side < count && count > 1
    ensures room > 0 && Roomy(room - 1, side)
  {
  }

  /** Partitions [b, e) and sorts the smaller side; the other side is left to do. */
  method SplitOff<T(!new)>(cmp: (T, T) -> int, a: array<T>, b: nat, e: nat, depthLimit: nat, ghost room: nat,
                           ghost lo: nat, ghost hi: nat)
    returns (b': nat, e': nat)
    requires Consistent(cmp) && lo <= b <= e <= hi <= a.Length && e - b > SHORT && Tidy(cmp, a[..], lo, b, e, hi)
             && Roomy(room, e - b)
    modifies a
    ensures b <= b' <= e' <= e && e' - b' < e - b
    ensures Shuffled(old(a[..]), a[..], lo, hi) && Tidy(cmp, a[..], lo, b', e', hi)
    decreases room, 0
  {
    hide Consistent, Shuffled, Sorted, Tidy, Cut, Roomy;
    ghost var s0 := a[..];
    var pivot := PartitionRange(cmp, a, b, e);
    ghost var s1 := a[..];
    TidyShuffled(cmp, s0, s1, lo, b, e, hi);
    ShuffledWider(s0, s1, b, e, lo, hi);
    var next: nat := pivot + 1;
    if pivot - b < e - next {
      SmallerSide(room, pivot - b, e - b);
      QuickSortRange(cmp, a, b, pivot, depthLimit, room - 1);
      LeftDone(cmp, s1, a[..], lo, b, pivot, e, hi);
      ShuffledWider(s1, a[..], b, pivot, lo, hi);
      b', e' := next, e;
    } else {
      SmallerSide(room, e - next, e - b);
      QuickSortRange(cmp, a, next, e, depthLimit, room - 1);
      RightDone(cmp, s1, a[..], lo, b, pivot, e, hi);
      ShuffledWider(s1, a[..], next, e, lo, hi);
      b', e' := b, pivot;
    }
    ShuffledTwice(s0, s1, a[..], lo, hi);
  }

  /** Sorts [begin, end), whatever the depth limit. A call inside a call has less room, so no more than
      `room` calls are ever nested in this one, and the logarithm of the length is room enough. */
  method QuickSortRange<T(!new)>(cmp: (T, T) -> int, a: array<T>, begin: nat, end: nat, depthLimit: nat,
                                 ghost room: nat)
    requires Consistent(cmp) && begin <= end <= a.Length && Roomy(room, end - begin)
    modifies a
    ensures Shuffled(old(a[..]), a[..], begin, end) && Sorted(cmp, a[..], begin, end)
    decreases room, 1
  {
    hide Consistent, Shuffled, Sorted, Tidy, Cut, Roomy;
    ghost var start := a[..];
    var b, e, limit := begin, end, depthLimit;
    ShuffledNot(start, begin, end);
    NothingTidy(cmp, start, begin, end);
    while e - b > SHORT
      invariant begin <= b <= e <= end && Shuffled(start, a[..], begin, end)
      invariant Tidy(cmp, a[..], begin, b, e, end)
      decreases e - b
    {
      ghost var s := a[..];
      if limit == 0 {
        HeapSortRange(cmp, a, b, e);
        RangeDone(cmp, start, s, a[..], begin, b, e, end);
        return;
      }
      limit := limit - 1;
      LessNeedsLess(room, e - b, end - begin);
      b, e := SplitOff(cmp, a, b, e, limit, room, begin, end);
      ShuffledTwice(start, s, a[..], begin, end);
    }
    ghost var s := a[..];
    InsertionSortRange(cmp, a, b, e);
    RangeDone(cmp, start, s, a[..], begin, b, e, end);
  }

  lemma LessNeedsLess(room: nat, part: nat, count: nat)
    requires Roomy(room, count) && part <= count
    ensures Roomy(room, part)
  {
  }

  /** Once what is left is sorted, the whole range is. */
  lemma RangeDone<T>(cmp: (T, T) -> int, start: seq<T>, s: seq<T>, t: seq<T>, lo: nat, b: nat, e: nat, hi: nat)
    requires lo <= b <= e <= hi <= |s| && Shuffled(start, s, lo, hi) && Tidy(cmp, s, lo, b, e, hi)
    requires Shuffled(s, t, b, e) && Sorted(cmp, t, b, e)
    ensures Shuffled(start, t, lo, hi) && Sorted(cmp, t, lo, hi)
  {
    TidyShuffled(cmp, s, t, lo, b, e, hi);
    TidySorted(cmp, t, lo, b, e, hi);
    ShuffledWider(s, t, b, e, lo, hi);
    ShuffledTwice(start, s, t, lo, hi);
  }

  /** Sorts an array: in order, and a permutation. With room for the binary logarithm of the length the
      recursion gets by: no more calls than that are nested. */
  method Sort<T(!new)>(cmp: (T, T) -> int, a: array<T>, ghost room: nat)
    requires Consistent(cmp) && Pow2(room) <= (if a.Length == 0 then 1 else a.Length) < 2 * Pow2(room)
    modifies a
    ensures InOrder(cmp, a[..]) && multiset(a[..]) == multiset(old(a[..]))
    decreases room, 2
  {
    hide Consistent;
    ghost var start := a[..];
    var depthLimit, remaining := 0, a.Length;
    while remaining > 1 {
      depthLimit := depthLimit + 2;
      remaining := remaining / 2;
    }
    QuickSortRange(cmp, a, 0, a.Length, depthLimit, room);
    assert start[0..a.Length] == start && a[..][0..a.Length] == a[..];
  }

  /** There is exactly one such room for every length. */
  lemma RoomFor(count: nat) returns (room: nat)
    requires count > 0
    ensures Pow2(room) <= count < 2 * Pow2(room)
    ensures forall other: nat :: Pow2(other) <= count < 2 * Pow2(other) ==> other == room
  {
    room := Log(count);
    forall other: nat | Pow2(other) <= count < 2 * Pow2(other) ensures other == room {
      LogIs(count, other);
    }
  }

  function Log(count: nat): (room: nat)
    requires count > 0
    ensures Pow2(room) <= count < 2 * Pow2(room)
  {
    if count == 1 then 0 else Log(count / 2) + 1
  }

  lemma {:induction false} LogIs(count: nat, room: nat)
    requires count > 0 && Pow2(room) <= count < 2 * Pow2(room)
    ensures room == Log(count)
    decreases room
  {
    if room > 0 { LogIs(count / 2, room - 1); }
  }
}
