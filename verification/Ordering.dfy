/** What it means to sort, stably or not. */
module Ordering {

  /** The elements that satisfy `p`, in their order. */
  function Filter<T>(s: seq<T>, p: T -> bool): (r: seq<T>)
    ensures |r| <= |s|
  {
    if s == [] then []
    else Filter(s[..|s| - 1], p) + (if p(s[|s| - 1]) then [s[|s| - 1]] else [])
  }

  lemma {:induction false} FilterJoin<T>(s: seq<T>, t: seq<T>, p: T -> bool)
    ensures Filter(s + t, p) == Filter(s, p) + Filter(t, p)
    decreases |t|
  {
    if t == [] {
      assert s + t == s;
    } else {
      var u, last := t[..|t| - 1], t[|t| - 1];
      assert (s + t)[..|s + t| - 1] == s + u;
      FilterJoin(s, u, p);
    }
  }

  lemma FilterOne<T>(x: T, p: T -> bool)
    ensures Filter([x], p) == if p(x) then [x] else []
  {
    assert Filter([x][..0], p) == [];
  }

  lemma FilterPush<T>(s: seq<T>, x: T, p: T -> bool)
    ensures Filter(s + [x], p) == Filter(s, p) + (if p(x) then [x] else [])
  {
    assert (s + [x])[..|s|] == s;
  }

  lemma {:induction false} FilterNone<T>(s: seq<T>, p: T -> bool)
    requires forall i :: 0 <= i < |s| ==> !p(s[i])
    ensures Filter(s, p) == []
    decreases |s|
  {
    if s != [] { FilterNone(s[..|s| - 1], p); }
  }

  lemma {:induction false} FilterHolds<T>(s: seq<T>, p: T -> bool)
    ensures forall i :: 0 <= i < |Filter(s, p)| ==> p(Filter(s, p)[i]) && Filter(s, p)[i] in s
    decreases |s|
  {
    if s != [] { FilterHolds(s[..|s| - 1], p); }
  }

  /** Filtering twice is filtering by both. */
  lemma {:induction false} FilterTwice<T>(s: seq<T>, p: T -> bool, q: T -> bool, both: T -> bool)
    requires forall x :: x in s ==> both(x) == (p(x) && q(x))
    ensures Filter(Filter(s, p), q) == Filter(s, both)
    decreases |s|
  {
    if s != [] {
      var u, last := s[..|s| - 1], s[|s| - 1];
      FilterTwice(u, p, q, both);
      assert last in s;
      if p(last) { FilterPush(Filter(u, p), last, q); } else { assert Filter(u, p) + [] == Filter(u, p); }
    }
  }

  lemma {:induction false} FilterCounts<T>(s: seq<T>, p: T -> bool, x: T)
    ensures multiset(Filter(s, p))[x] == if p(x) then multiset(s)[x] else 0
    decreases |s|
  {
    if s != [] {
      var u, last := s[..|s| - 1], s[|s| - 1];
      FilterCounts(u, p, x);
      assert s == u + [last];
    }
  }

  // --- Orders given by a comparator ---

  /** A comparator in the manner of C: negative, zero or positive. */
  ghost predicate Consistent<T(!new)>(cmp: (T, T) -> int) {
    && (forall a, b :: cmp(a, b) < 0 <==> cmp(b, a) > 0)
    && (forall a, b, c :: cmp(a, b) <= 0 && cmp(b, c) <= 0 ==> cmp(a, c) <= 0)
  }

  predicate InOrder<T>(cmp: (T, T) -> int, s: seq<T>) {
    forall i, j :: 0 <= i < j < |s| ==> cmp(s[i], s[j]) <= 0
  }

  function Like<T>(cmp: (T, T) -> int, x: T): T -> bool {
    y => cmp(y, x) == 0
  }

  /** Elements the comparator does not tell apart stay in their order. */
  ghost predicate KeepsTies<T(!new)>(cmp: (T, T) -> int, s: seq<T>, t: seq<T>) {
    forall x :: Filter(s, Like(cmp, x)) == Filter(t, Like(cmp, x))
  }

  lemma TiesArePermutation<T(!new)>(cmp: (T, T) -> int, s: seq<T>, t: seq<T>)
    requires Consistent(cmp) && KeepsTies(cmp, s, t)
    ensures multiset(s) == multiset(t)
  {
    forall x: T ensures multiset(s)[x] == multiset(t)[x] {
      FilterCounts(s, Like(cmp, x), x);
      FilterCounts(t, Like(cmp, x), x);
    }
  }

  lemma InOrderTail<T>(cmp: (T, T) -> int, s: seq<T>)
    requires s != [] && InOrder(cmp, s)
    ensures InOrder(cmp, s[1..]) && forall x :: x in s[1..] ==> cmp(s[0], x) <= 0
  {
  }

  lemma InOrderCons<T>(cmp: (T, T) -> int, x: T, s: seq<T>)
    requires InOrder(cmp, s) && forall y :: y in s ==> cmp(x, y) <= 0
    ensures InOrder(cmp, [x] + s)
  {
    forall i, j | 0 <= i < j < |s| + 1 ensures cmp(([x] + s)[i], ([x] + s)[j]) <= 0 {
      assert s[j - 1] in s;
    }
  }

  lemma FilterCons<T>(x: T, s: seq<T>, p: T -> bool)
    ensures Filter([x] + s, p) == (if p(x) then [x] else []) + Filter(s, p)
  {
    FilterJoin([x], s, p);
    FilterOne(x, p);
  }

  /** If the first of a run is above something like `x`, nothing in the run is like `x`. */
  lemma NoneLike<T(!new)>(cmp: (T, T) -> int, a: seq<T>, y: T, x: T)
    requires Consistent(cmp) && a != [] && InOrder(cmp, a) && cmp(a[0], y) > 0 && cmp(y, x) == 0
    ensures Filter(a, Like(cmp, x)) == []
  {
    forall i | 0 <= i < |a| ensures !Like(cmp, x)(a[i]) {
      assert cmp(a[0], a[i]) <= 0 || i == 0;
    }
    FilterNone(a, Like(cmp, x));
  }
}
