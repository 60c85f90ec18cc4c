/** Permuting a stretch of a sequence.
    A stretch is shuffled if its elements are the same as a multiset and nothing outside it
    has changed. */
module Shuffling {
  import opened Slices

  /** Only the elements of [lo, hi) moved, and only among themselves. */
  ghost predicate Shuffled<T>(before: seq<T>, after: seq<T>, lo: nat, hi: nat) {
    && |after| == |before| && lo <= hi <= |before|
    && after[..lo] == before[..lo] && after[hi..] == before[hi..]
    && multiset(after[lo..hi]) == multiset(before[lo..hi])
  }

  lemma ShuffledNot<T>(a: seq<T>, lo: nat, hi: nat)
    requires lo <= hi <= |a|
    ensures Shuffled(a, a, lo, hi)
  {
  }

  lemma ShuffledTwice<T>(a: seq<T>, b: seq<T>, c: seq<T>, lo: nat, hi: nat)
    requires Shuffled(a, b, lo, hi) && Shuffled(b, c, lo, hi)
    ensures Shuffled(a, c, lo, hi)
  {
  }

  /** Shuffling part of a stretch shuffles the stretch. */
  lemma ShuffledWider<T>(a: seq<T>, b: seq<T>, lo: nat, hi: nat, lo': nat, hi': nat)
    requires Shuffled(a, b, lo, hi) && lo' <= lo && hi <= hi' <= |a|
    ensures Shuffled(a, b, lo', hi')
  {
    EqualPrefix(a, b, lo, 0, lo');
    EqualPrefix(a, b, lo, lo', lo);
    EqualSuffix(a, b, hi, hi, hi');
    assert a[..lo'] == a[0..lo'] && b[..lo'] == b[0..lo'];
    SplitSlice(a, lo', lo, hi);
    SplitSlice(a, lo', hi, hi');
    SplitSlice(b, lo', lo, hi);
    SplitSlice(b, lo', hi, hi');
  }

  /** Where a shuffled element came from. */
  lemma ComesFrom<T>(before: seq<T>, after: seq<T>, lo: nat, hi: nat, i: nat) returns (k: nat)
    requires Shuffled(before, after, lo, hi) && i < |after|
    ensures k < |before| && after[i] == before[k]
    ensures if lo <= i < hi then lo <= k < hi else k == i
  {
    if i < lo {
      k := i;
      assert after[i] == after[..lo][i] == before[..lo][i];
    } else if i >= hi {
      k := i;
      assert after[i] == after[hi..][i - hi] == before[hi..][i - hi];
    } else {
      assert after[lo..hi][i - lo] in multiset(before[lo..hi]);
      var m :| 0 <= m < hi - lo && before[lo..hi][m] == after[i];
      k := lo + m;
    }
  }

  // --- Exchanging two elements ---

  function Exchanged<T>(s: seq<T>, i: nat, j: nat): (r: seq<T>)
    requires i < |s| && j < |s|
    ensures |r| == |s|
  {
    s[i := s[j]][j := s[i]]
  }

  lemma ExchangedShuffles<T>(s: seq<T>, i: nat, j: nat, lo: nat, hi: nat)
    requires lo <= i < hi <= |s| && lo <= j < hi
    ensures Shuffled(s, Exchanged(s, i, j), lo, hi) && multiset(Exchanged(s, i, j)) == multiset(s)
  {
    assert Exchanged(s, i, j)[lo..hi] == Exchanged(s[lo..hi], i - lo, j - lo);
  }

  method Exchange<T>(a: array<T>, i: nat, j: nat, ghost lo: nat, ghost hi: nat)
    requires lo <= i < hi <= a.Length && lo <= j < hi
    modifies a
    ensures a[..] == Exchanged(old(a[..]), i, j) && Shuffled(old(a[..]), a[..], lo, hi)
  {
    hide Shuffled;
    ghost var before := a[..];
    ExchangedShuffles(before, i, j, lo, hi);
    a[i], a[j] := a[j], a[i];
    assert a[..] == Exchanged(before, i, j);
  }

  /** Exchanging two elements of the range from `lo` exchanges them in its slice. */
  method ExchangeIn<T>(a: array<T>, i: nat, j: nat, lo: nat, hi: nat)
    requires lo <= hi <= a.Length && i < hi - lo && j < hi - lo
    modifies a
    ensures a[lo..hi] == Exchanged(old(a[lo..hi]), i, j) && Shuffled(old(a[..]), a[..], lo, hi)
  {
    hide Shuffled;
    ghost var s, h := a[..], a[lo..hi];
    Exchange(a, lo + i, lo + j, lo, hi);
    UpdateInside(s, lo + i, s[lo + j], lo, hi);
    UpdateInside(s[lo + i := s[lo + j]], lo + j, s[lo + i], lo, hi);
    assert a[lo..hi] == a[..][lo..hi];
  }
}
