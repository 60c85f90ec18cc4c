/** Bottom-up merge sort over two buffers that take turns. */
module MergeSort {
  import opened Ordering
  import opened Slices

  /** Merging prefers the left run on ties. */
  function Merge<T>(cmp: (T, T) -> int, a: seq<T>, b: seq<T>): (r: seq<T>)
    ensures |r| == |a| + |b|
    decreases |a| + |b|
  {
    if a == [] then b else if b == [] then a
    else if cmp(a[0], b[0]) <= 0 then [a[0]] + Merge(cmp, a[1..], b)
    else [b[0]] + Merge(cmp, a, b[1..])
  }

  /** Neighbouring runs merged in pairs; the last may be short or alone. */
  function MergeAll<T>(cmp: (T, T) -> int, s: seq<T>, run: nat): (r: seq<T>)
    requires run > 0
    ensures |r| == |s|
    decreases |s|
  {
    if s == [] then []
    else
      var middle, right := Min(run, |s|), Min(2 * run, |s|);
      Merge(cmp, s[..middle], s[middle..right]) + MergeAll(cmp, s[right..], run)
  }

  /** Every aligned run is in order. */
  predicate RunsInOrder<T>(cmp: (T, T) -> int, s: seq<T>, run: nat)
    requires run > 0
    decreases |s|
  {
    if |s| <= run then InOrder(cmp, s) else InOrder(cmp, s[..run]) && RunsInOrder(cmp, s[run..], run)
  }

  // --- Merging two runs ---

  lemma {:induction false} MergeMembers<T>(cmp: (T, T) -> int, a: seq<T>, b: seq<T>)
    ensures forall x :: x in Merge(cmp, a, b) ==> x in a || x in b
    decreases |a| + |b|
  {
    if a != [] && b != [] {
      MergeMembers(cmp, a[1..], b);
      MergeMembers(cmp, a, b[1..]);
    }
  }

  lemma {:induction false} MergeInOrder<T(!new)>(cmp: (T, T) -> int, a: seq<T>, b: seq<T>)
    requires Consistent(cmp) && InOrder(cmp, a) && InOrder(cmp, b)
    ensures InOrder(cmp, Merge(cmp, a, b))
    decreases |a| + |b|
  {
    if a != [] && b != [] {
      InOrderTail(cmp, a);
      InOrderTail(cmp, b);
      hide InOrder;
      if cmp(a[0], b[0]) <= 0 {
        MergeInOrder(cmp, a[1..], b);
        MergeMembers(cmp, a[1..], b);
        assert forall y :: y in b ==> y == b[0] || y in b[1..];
        InOrderCons(cmp, a[0], Merge(cmp, a[1..], b));
      } else {
        MergeInOrder(cmp, a, b[1..]);
        MergeMembers(cmp, a, b[1..]);
        assert forall y :: y in a ==> y == a[0] || y in a[1..];
        InOrderCons(cmp, b[0], Merge(cmp, a, b[1..]));
      }
    }
  }

  lemma {:induction false} MergeKeepsTies<T(!new)>(cmp: (T, T) -> int, a: seq<T>, b: seq<T>, x: T)
    requires Consistent(cmp) && InOrder(cmp, a) && InOrder(cmp, b)
    ensures Filter(Merge(cmp, a, b), Like(cmp, x)) == Filter(a, Like(cmp, x)) + Filter(b, Like(cmp, x))
    decreases |a| + |b|
  {
    var p := Like(cmp, x);
    if a == [] || b == [] {
      assert Filter([], p) == [];
      assert [] + Filter(b, p) == Filter(b, p) && Filter(a, p) + [] == Filter(a, p);
    } else if cmp(a[0], b[0]) <= 0 {
      InOrderTail(cmp, a);
      MergeKeepsTies(cmp, a[1..], b, x);
      TakeLeft(cmp, a, b, p);
    } else {
      InOrderTail(cmp, b);
      MergeKeepsTies(cmp, a, b[1..], x);
      if p(b[0]) { NoneLike(cmp, a, b[0], x); }
      TakeRight(cmp, a, b, p);
    }
  }

  lemma TakeLeft<T>(cmp: (T, T) -> int, a: seq<T>, b: seq<T>, p: T -> bool)
    requires a != [] && b != [] && cmp(a[0], b[0]) <= 0
    requires Filter(Merge(cmp, a[1..], b), p) == Filter(a[1..], p) + Filter(b, p)
    ensures Filter(Merge(cmp, a, b), p) == Filter(a, p) + Filter(b, p)
  {
    hide Filter;
    FilterCons(a[0], Merge(cmp, a[1..], b), p);
    FilterCons(a[0], a[1..], p);
    assert a == [a[0]] + a[1..];
    Regroup(if p(a[0]) then [a[0]] else [], Filter(a[1..], p), Filter(b, p));
  }

  lemma TakeRight<T>(cmp: (T, T) -> int, a: seq<T>, b: seq<T>, p: T -> bool)
    requires a != [] && b != [] && cmp(a[0], b[0]) > 0 && (p(b[0]) ==> Filter(a, p) == [])
    requires Filter(Merge(cmp, a, b[1..]), p) == Filter(a, p) + Filter(b[1..], p)
    ensures Filter(Merge(cmp, a, b), p) == Filter(a, p) + Filter(b, p)
  {
    hide *;
    var y, f, g, m := b[0], Filter(a, p), Filter(b[1..], p), Merge(cmp, a, b[1..]);
    MergeRight(cmp, a, b);
    FilterCons(y, m, p);
    FilterCons(y, b[1..], p);
    assert b == [y] + b[1..];
    if p(y) {
      assert [] + g == g && f + ([y] + g) == [y] + g;
    } else {
      assert [] + (f + g) == f + g && [] + g == g;
    }
  }

  lemma MergeRight<T>(cmp: (T, T) -> int, a: seq<T>, b: seq<T>)
    requires a != [] && b != [] && cmp(a[0], b[0]) > 0
    ensures Merge(cmp, a, b) == [b[0]] + Merge(cmp, a, b[1..])
  {
  }

  // --- One pass over all runs ---

  lemma {:induction false} PassDoublesRuns<T(!new)>(cmp: (T, T) -> int, s: seq<T>, run: nat)
    requires Consistent(cmp) && run > 0 && RunsInOrder(cmp, s, run)
    ensures RunsInOrder(cmp, MergeAll(cmp, s, run), 2 * run)
    decreases |s|
  {
    if s != [] {
      var middle, right := Min(run, |s|), Min(2 * run, |s|);
      var a, b, rest := s[..middle], s[middle..right], s[right..];
      RunsSplit(cmp, s, run);
      MergeInOrder(cmp, a, b);
      PassDoublesRuns(cmp, rest, run);
      var m, more := Merge(cmp, a, b), MergeAll(cmp, rest, run);
      hide InOrder, Merge;
      if |s| <= 2 * run {
        assert m + more == m;
      } else {
        assert (m + more)[..2 * run] == m && (m + more)[2 * run..] == more;
      }
    }
  }

  lemma RunsSplit<T>(cmp: (T, T) -> int, s: seq<T>, run: nat)
    requires run > 0 && s != [] && RunsInOrder(cmp, s, run)
    ensures InOrder(cmp, s[..Min(run, |s|)]) && InOrder(cmp, s[Min(run, |s|)..Min(2 * run, |s|)])
    ensures RunsInOrder(cmp, s[Min(2 * run, |s|)..], run)
  {
    if |s| <= run {
      assert s[..|s|] == s;
    } else {
      var t := s[run..];
      if |t| <= run {
        assert s[run..Min(2 * run, |s|)] == t;
      } else {
        assert s[run..2 * run] == t[..run] && s[2 * run..] == t[run..];
      }
    }
  }

  lemma {:induction false} PassKeepsTies<T(!new)>(cmp: (T, T) -> int, s: seq<T>, run: nat, x: T)
    requires Consistent(cmp) && run > 0 && RunsInOrder(cmp, s, run)
    ensures Filter(MergeAll(cmp, s, run), Like(cmp, x)) == Filter(s, Like(cmp, x))
    decreases |s|
  {
    if s != [] {
      var middle, right, p := Min(run, |s|), Min(2 * run, |s|), Like(cmp, x);
      var a, b, rest := s[..middle], s[middle..right], s[right..];
      RunsSplit(cmp, s, run);
      PassKeepsTies(cmp, rest, run, x);
      MergeKeepsTies(cmp, a, b, x);
      hide *;
      PassJoins(a, b, rest, Merge(cmp, a, b), MergeAll(cmp, rest, run), p);
      ThreeParts(s, middle, right);
      AllUnfolds(cmp, s, run);
    }
  }

  lemma PassJoins<T>(a: seq<T>, b: seq<T>, rest: seq<T>, merged: seq<T>, more: seq<T>, p: T -> bool)
    requires Filter(merged, p) == Filter(a, p) + Filter(b, p) && Filter(more, p) == Filter(rest, p)
    ensures Filter(merged + more, p) == Filter((a + b) + rest, p)
  {
    hide Filter;
    FilterJoin(merged, more, p);
    FilterJoin(a, b, p);
    FilterJoin(a + b, rest, p);
  }

  lemma ThreeParts<T>(s: seq<T>, middle: nat, right: nat)
    requires middle <= right <= |s|
    ensures s == (s[..middle] + s[middle..right]) + s[right..]
  {
  }

  lemma AllUnfolds<T>(cmp: (T, T) -> int, s: seq<T>, run: nat)
    requires run > 0 && s != []
    ensures MergeAll(cmp, s, run)
            == Merge(cmp, s[..Min(run, |s|)], s[Min(run, |s|)..Min(2 * run, |s|)])
               + MergeAll(cmp, s[Min(2 * run, |s|)..], run)
  {
    hide Merge;
  }

  // --- The sort over arrays ---

  lemma MergeEnds<T>(cmp: (T, T) -> int, a: seq<T>, b: seq<T>)
    ensures a == [] ==> Merge(cmp, a, b) == b
    ensures b == [] ==> Merge(cmp, a, b) == a
    ensures a != [] && b != [] && cmp(a[0], b[0]) <= 0 ==> Merge(cmp, a, b) == [a[0]] + Merge(cmp, a[1..], b)
    ensures a != [] && b != [] && cmp(a[0], b[0]) > 0 ==> Merge(cmp, a, b) == [b[0]] + Merge(cmp, a, b[1..])
  {
  }

  /** What a merge has written and what it still has to write make up the whole. */
  ghost predicate Merging<T(!new)>(cmp: (T, T) -> int, s: seq<T>, d: seq<T>, left: nat, middle: nat, right: nat,
                                   a: nat, b: nat) {
    && left <= a <= middle <= b <= right <= |s| == |d|
    && d[left..left + (a - left) + (b - middle)] + Merge(cmp, s[a..middle], s[b..right])
       == Merge(cmp, s[left..middle], s[middle..right])
  }

  /** Writing the left run's next element, if it is not above the right one's. */
  lemma MergeStepLeft<T(!new)>(cmp: (T, T) -> int, s: seq<T>, d: seq<T>, left: nat, middle: nat, right: nat, a: nat,
                               b: nat)
    requires Merging(cmp, s, d, left, middle, right, a, b)
    requires a < middle && (b == right || cmp(s[a], s[b]) <= 0)
    ensures var out := left + (a - left) + (b - middle);
            out < right && Merging(cmp, s, d[out := s[a]], left, middle, right, a + 1, b)
  {
    hide Merge;
    var out, u, v := left + (a - left) + (b - middle), s[a..middle], s[b..right];
    var whole := Merge(cmp, s[left..middle], s[middle..right]);
    LeftIsNext(cmp, u, v);
    var u' := s[a + 1..middle];
    assert u[1..] == u';
    WroteNext(d, left, out, s[a], Merge(cmp, u, v), Merge(cmp, u', v), whole);
  }

  lemma MergeStepRight<T(!new)>(cmp: (T, T) -> int, s: seq<T>, d: seq<T>, left: nat, middle: nat, right: nat, a: nat,
                                b: nat)
    requires Merging(cmp, s, d, left, middle, right, a, b)
    requires b < right && (a == middle || cmp(s[a], s[b]) > 0)
    ensures var out := left + (a - left) + (b - middle);
            out < right && Merging(cmp, s, d[out := s[b]], left, middle, right, a, b + 1)
  {
    hide Merge;
    var out, u, v := left + (a - left) + (b - middle), s[a..middle], s[b..right];
    var whole := Merge(cmp, s[left..middle], s[middle..right]);
    RightIsNext(cmp, u, v);
    var v' := s[b + 1..right];
    assert v[1..] == v';
    WroteNext(d, left, out, s[b], Merge(cmp, u, v), Merge(cmp, u, v'), whole);
  }

  lemma WroteNext<T>(d: seq<T>, left: nat, out: nat, x: T, due: seq<T>, rest: seq<T>, whole: seq<T>)
    requires left <= out < |d| && d[left..out] + due == whole && due == [x] + rest
    ensures d[out := x][left..out + 1] + rest == whole
  {
    UpdateAtEnd(d, out, x, left);
    Regroup(d[left..out], [x], rest);
  }

  lemma LeftIsNext<T>(cmp: (T, T) -> int, u: seq<T>, v: seq<T>)
    requires u != [] && (v == [] || cmp(u[0], v[0]) <= 0)
    ensures Merge(cmp, u, v) == [u[0]] + Merge(cmp, u[1..], v)
  {
    MergeEnds(cmp, u[1..], v);
    assert u == [u[0]] + u[1..];
  }

  lemma RightIsNext<T>(cmp: (T, T) -> int, u: seq<T>, v: seq<T>)
    requires v != [] && (u == [] || cmp(u[0], v[0]) > 0)
    ensures Merge(cmp, u, v) == [v[0]] + Merge(cmp, u, v[1..])
  {
    MergeEnds(cmp, u, v[1..]);
    assert v == [v[0]] + v[1..];
  }

  method MergeRuns<T(!new)>(cmp: (T, T) -> int, source: array<T>, destination: array<T>, left: nat, middle: nat,
                            right: nat)
    requires source != destination && left <= middle <= right <= source.Length == destination.Length
    modifies destination
    ensures destination[left..right] == Merge(cmp, source[left..middle], source[middle..right])
    ensures destination[..left] == old(destination[..left])
  {
    hide *;
    var a, b, out := left, middle, left;
    ghost var s := source[..];
    NothingMerged(cmp, s, destination[..], left, middle, right);
    while a < middle && b < right
      invariant left <= a <= middle <= b <= right && out == left + (a - left) + (b - middle) && s == source[..]
      invariant Merging(cmp, s, destination[..], left, middle, right, a, b)
      invariant destination[..left] == old(destination[..left])
    {
      ghost var d := destination[..];
      if cmp(source[a], source[b]) <= 0 {
        MergeStepLeft(cmp, s, d, left, middle, right, a, b);
        destination[out] := source[a];
        a := a + 1;
      } else {
        MergeStepRight(cmp, s, d, left, middle, right, a, b);
        destination[out] := source[b];
        b := b + 1;
      }
      assert destination[..] == d[out := destination[out]];
      out := out + 1;
    }
    CopyRest(cmp, source, destination, left, middle, right, a, b);
  }

  /** When one run is used up, the other is copied. */
  method CopyRest<T(!new)>(cmp: (T, T) -> int, source: array<T>, destination: array<T>, left: nat, middle: nat,
                           right: nat, a0: nat, b0: nat)
    requires source != destination && source.Length == destination.Length
    requires Merging(cmp, source[..], destination[..], left, middle, right, a0, b0) && (a0 == middle || b0 == right)
    modifies destination
    ensures left <= middle <= right <= source.Length
    ensures destination[left..right] == Merge(cmp, source[left..middle], source[middle..right])
    ensures destination[..left] == old(destination[..left])
  {
    assert left <= a0 <= middle <= b0 <= right <= source.Length;
    hide *;
    CopyLeft(cmp, source, destination, left, middle, right, a0, b0);
    CopyRight(cmp, source, destination, left, middle, right, b0);
    AllMerged(cmp, source[..], destination[..], left, middle, right);
  }

  method CopyLeft<T(!new)>(cmp: (T, T) -> int, source: array<T>, destination: array<T>, left: nat, middle: nat,
                           right: nat, a0: nat, b: nat)
    requires source != destination && left <= a0 <= middle <= b <= right <= source.Length == destination.Length
    requires Merging(cmp, source[..], destination[..], left, middle, right, a0, b) && (a0 == middle || b == right)
    modifies destination
    ensures Merging(cmp, source[..], destination[..], left, middle, right, middle, b)
    ensures destination[..left] == old(destination[..left])
  {
    hide *;
    var a, out := a0, left + (a0 - left) + (b - middle);
    ghost var s := source[..];
    while a < middle
      invariant left <= a <= middle && out == left + (a - left) + (b - middle) && s == source[..]
      invariant Merging(cmp, s, destination[..], left, middle, right, a, b)
      invariant destination[..left] == old(destination[..left])
    {
      ghost var d := destination[..];
      MergeStepLeft(cmp, s, d, left, middle, right, a, b);
      destination[out] := source[a];
      assert destination[..] == d[out := s[a]];
      out, a := out + 1, a + 1;
    }
  }

  method CopyRight<T(!new)>(cmp: (T, T) -> int, source: array<T>, destination: array<T>, left: nat, middle: nat,
                            right: nat, b0: nat)
    requires source != destination && left <= middle <= b0 <= right <= source.Length == destination.Length
    requires Merging(cmp, source[..], destination[..], left, middle, right, middle, b0)
    modifies destination
    ensures Merging(cmp, source[..], destination[..], left, middle, right, middle, right)
    ensures destination[..left] == old(destination[..left])
  {
    hide *;
    var b, out := b0, left + (middle - left) + (b0 - middle);
    ghost var s := source[..];
    while b < right
      invariant middle <= b <= right && out == left + (middle - left) + (b - middle) && s == source[..]
      invariant Merging(cmp, s, destination[..], left, middle, right, middle, b)
      invariant destination[..left] == old(destination[..left])
    {
      ghost var d := destination[..];
      MergeStepRight(cmp, s, d, left, middle, right, middle, b);
      destination[out] := source[b];
      assert destination[..] == d[out := s[b]];
      out, b := out + 1, b + 1;
    }
  }

  lemma NothingMerged<T(!new)>(cmp: (T, T) -> int, s: seq<T>, d: seq<T>, left: nat, middle: nat, right: nat)
    requires left <= middle <= right <= |s| == |d|
    ensures Merging(cmp, s, d, left, middle, right, left, middle)
  {
    hide Merge;
    assert d[left..left] + Merge(cmp, s[left..middle], s[middle..right])
           == Merge(cmp, s[left..middle], s[middle..right]);
  }

  lemma AllMerged<T(!new)>(cmp: (T, T) -> int, s: seq<T>, d: seq<T>, left: nat, middle: nat, right: nat)
    requires Merging(cmp, s, d, left, middle, right, middle, right)
    ensures d[left..right] == Merge(cmp, s[left..middle], s[middle..right])
  {
    MergeEnds(cmp, s[middle..middle], s[right..right]);
    assert d[left..right] + [] == d[left..right];
  }

  /** The part before `left` is merged, and the rest merges as it does in the whole. */
  ghost predicate Passing<T(!new)>(cmp: (T, T) -> int, s: seq<T>, d: seq<T>, left: nat, run: nat) {
    && run > 0 && left <= |s| == |d|
    && d[..left] + MergeAll(cmp, s[left..], run) == MergeAll(cmp, s, run)
  }

  lemma PassStarts<T(!new)>(cmp: (T, T) -> int, s: seq<T>, d: seq<T>, run: nat)
    requires run > 0 && |s| == |d|
    ensures Passing(cmp, s, d, 0, run)
  {
    hide MergeAll;
    assert s[0..] == s && d[..0] + MergeAll(cmp, s, run) == MergeAll(cmp, s, run);
  }

  lemma PassGoesOn<T(!new)>(cmp: (T, T) -> int, s: seq<T>, d: seq<T>, e: seq<T>, left: nat, middle: nat, right: nat,
                            run: nat)
    requires Passing(cmp, s, d, left, run) && left < |s| == |e|
    requires middle == left + Min(run, |s| - left) && right == middle + Min(run, |s| - middle)
    requires e[..left] == d[..left] && e[left..right] == Merge(cmp, s[left..middle], s[middle..right])
    ensures Passing(cmp, s, e, right, run)
  {
    RunSlices(s, left, middle, right, run);
    AllUnfolds(cmp, s[left..], run);
    hide MergeAll, Merge, Min;
    SplitSlice(e, 0, left, right);
    Regroup(e[..left], e[left..right], MergeAll(cmp, s[right..], run));
  }

  lemma RunSlices<T>(s: seq<T>, left: nat, middle: nat, right: nat, run: nat)
    requires left < |s| && middle == left + Min(run, |s| - left) && right == middle + Min(run, |s| - middle)
    ensures s[left..][..Min(run, |s| - left)] == s[left..middle]
    ensures s[left..][Min(run, |s| - left)..Min(2 * run, |s| - left)] == s[middle..right]
    ensures s[left..][Min(2 * run, |s| - left)..] == s[right..]
  {
  }

  lemma PassEnds<T(!new)>(cmp: (T, T) -> int, s: seq<T>, d: seq<T>, run: nat)
    requires Passing(cmp, s, d, |s|, run)
    ensures d == MergeAll(cmp, s, run)
  {
    assert d[..|s|] + [] == d;
  }

  /** One pass merges neighbouring runs from one buffer into the other. */
  method MergePass<T(!new)>(cmp: (T, T) -> int, source: array<T>, destination: array<T>, run: nat)
    requires source != destination && source.Length == destination.Length && run > 0
    modifies destination
    ensures destination[..] == MergeAll(cmp, source[..], run)
  {
    hide *;
    var count, left := source.Length, 0;
    ghost var s := source[..];
    PassStarts(cmp, s, destination[..], run);
    while left < count
      invariant left <= count && s == source[..] && Passing(cmp, s, destination[..], left, run)
    {
      ghost var d := destination[..];
      left := MergeNext(cmp, source, destination, left, run);
    }
    PassEnds(cmp, s, destination[..], run);
  }

  /** Merges the next two runs; the second may be short or missing. */
  method MergeNext<T(!new)>(cmp: (T, T) -> int, source: array<T>, destination: array<T>, left: nat, run: nat)
    returns (right: nat)
    requires source != destination && source.Length == destination.Length && left < source.Length
    requires Passing(cmp, source[..], destination[..], left, run)
    modifies destination
    ensures left < right <= source.Length && Passing(cmp, source[..], destination[..], right, run)
  {
    assert run > 0;
    hide Passing, Merge;
    var count := source.Length;
    ghost var s, d := source[..], destination[..];
    var middle := left + if run < count - left then run else count - left;
    right := middle + if run < count - middle then run else count - middle;
    MergeRuns(cmp, source, destination, left, middle, right);
    ghost var e := destination[..];
    assert e[..left] == d[..left] && e[left..right] == Merge(cmp, s[left..middle], s[middle..right]);
    PassGoesOn(cmp, s, d, e, left, middle, right, run);
  }

  /** Runs twice as long, up to the whole: the growth saturates at the count. */
  lemma RunsGrow<T>(cmp: (T, T) -> int, s: seq<T>, run: nat)
    requires run > 0 && RunsInOrder(cmp, s, 2 * run)
    ensures var longer := if run > |s| / 2 then |s| else run * 2; longer > 0 ==> RunsInOrder(cmp, s, longer)
  {
  }

  lemma {:induction false} SingleRuns<T>(cmp: (T, T) -> int, s: seq<T>)
    ensures RunsInOrder(cmp, s, 1)
    decreases |s|
  {
    if |s| > 1 { SingleRuns(cmp, s[1..]); }
  }

  lemma WholeRun<T>(cmp: (T, T) -> int, s: seq<T>, run: nat)
    requires run >= |s| && run > 0 && RunsInOrder(cmp, s, run)
    ensures InOrder(cmp, s)
  {
  }

  lemma PassSorts<T(!new)>(cmp: (T, T) -> int, s: seq<T>, t: seq<T>, run: nat)
    requires Consistent(cmp) && run > 0 && RunsInOrder(cmp, t, run) && KeepsTies(cmp, s, t)
    ensures RunsInOrder(cmp, MergeAll(cmp, t, run), 2 * run) && KeepsTies(cmp, s, MergeAll(cmp, t, run))
  {
    PassDoublesRuns(cmp, t, run);
    hide Consistent, RunsInOrder, MergeAll, Filter;
    forall x: T ensures Filter(s, Like(cmp, x)) == Filter(MergeAll(cmp, t, run), Like(cmp, x)) {
      PassKeepsTies(cmp, t, run, x);
    }
  }

  lemma TiesKept<T(!new)>(cmp: (T, T) -> int, s: seq<T>)
    ensures KeepsTies(cmp, s, s)
  {
  }

  /** Sorts in order of the comparator, elements it does not tell apart staying in their order. Refused
      when the caller's scratch space is the array itself. */
  method Sort<T(!new)>(cmp: (T, T) -> int, values: array<T>, scratch: array<T>) returns (ok: bool)
    requires Consistent(cmp) && scratch.Length == values.Length
    modifies values, scratch
    ensures ok == (values.Length <= 1 || values != scratch)
    ensures ok ==> InOrder(cmp, values[..]) && KeepsTies(cmp, old(values[..]), values[..])
    ensures ok ==> multiset(values[..]) == multiset(old(values[..]))
    ensures !ok ==> values[..] == old(values[..])
  {
    hide Consistent, RunsInOrder, KeepsTies, MergeAll;
    ghost var s := values[..];
    TiesKept(cmp, s);
    if values.Length <= 1 { return true; }
    if values == scratch { return false; }
    var source, destination, run := values, scratch, 1;
    SingleRuns(cmp, s);
    while run < values.Length
      invariant 0 < run && {source, destination} == {values, scratch} && source != destination
      invariant RunsInOrder(cmp, source[..], run) && KeepsTies(cmp, s, source[..])
      decreases values.Length - run
    {
      PassSorts(cmp, s, source[..], run);
      MergePass(cmp, source, destination, run);
      RunsGrow(cmp, destination[..], run);
      source, destination := destination, source;
      run := if run > values.Length / 2 then values.Length else run * 2;
    }
    ghost var t := source[..];
    WholeRun(cmp, t, run);
    TiesArePermutation(cmp, s, t);
    if source != values {
      forall i | 0 <= i < values.Length { values[i] := source[i]; }
    }
    assert values[..] == t;
    ok := true;
  }
}
