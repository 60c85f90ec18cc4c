/** LSD radix sort of 64-bit keys with a value beside each key, one byte per pass. */
module RadixSort {
  import opened Ordering

  const BUCKETS: nat := 256
  const PASSES: nat := 8

  type Key = k: int | 0 <= k < 0x1_0000_0000_0000_0000

  datatype Entry<V> = Entry(key: Key, value: V)

  /** A key with its low bytes shifted out. */
  function Shifted(key: nat, bytes: nat): nat {
    if bytes == 0 then key else Shifted(key, bytes - 1) / 256
  }

  /** The byte of a key a pass looks at. */
  function Digit(key: nat, pass: nat): (d: nat)
    ensures d < BUCKETS
  {
    Shifted(key, pass) % 256
  }

  /** The low bytes of `a`, most significant first, are not above those of `b`. */
  predicate LowAtMost(a: nat, b: nat, bytes: nat) {
    || bytes == 0
    || Digit(a, bytes - 1) < Digit(b, bytes - 1)
    || (Digit(a, bytes - 1) == Digit(b, bytes - 1) && LowAtMost(a, b, bytes - 1))
  }

  function InBucket<V>(pass: nat, b: nat): Entry<V> -> bool {
    (e: Entry<V>) => Digit(e.key, pass) == b
  }

  /** What one pass makes of a sequence: the first `n` buckets, each in source order. */
  function Collect<V>(s: seq<Entry<V>>, pass: nat, n: nat): seq<Entry<V>> {
    if n == 0 then [] else Collect(s, pass, n - 1) + Filter(s, InBucket(pass, n - 1))
  }

  function HasKey<V>(key: Key): Entry<V> -> bool {
    (e: Entry<V>) => e.key == key
  }

  /** In order by the low bytes of the keys. */
  predicate SortedLow<V>(s: seq<Entry<V>>, passes: nat) {
    forall i, j :: 0 <= i < j < |s| ==> LowAtMost(s[i].key, s[j].key, passes)
  }

  /** The same entries, and those with one key in the same order. */
  ghost predicate SameByKey<V>(s: seq<Entry<V>>, t: seq<Entry<V>>) {
    forall key :: Filter(s, HasKey(key)) == Filter(t, HasKey(key))
  }

  ghost predicate StablySorted<V>(s: seq<Entry<V>>, t: seq<Entry<V>>) {
    && |t| == |s| && SameByKey(s, t)
    && forall i, j :: 0 <= i < j < |t| ==> t[i].key <= t[j].key
  }

  // --- One pass sorts by one more byte ---

  lemma {:induction false} ShiftedOrder(a: nat, b: nat, bytes: nat)
    requires Shifted(a, bytes) < Shifted(b, bytes)
    ensures a < b
  {
    if bytes > 0 { ShiftedOrder(a, b, bytes - 1); }
  }

  lemma {:induction false} LowBytesDecide(a: nat, b: nat, bytes: nat)
    requires Shifted(a, bytes) == Shifted(b, bytes) && LowAtMost(a, b, bytes)
    ensures a <= b
  {
    if bytes > 0 {
      if Digit(a, bytes - 1) < Digit(b, bytes - 1) {
        ShiftedOrder(a, b, bytes - 1);
      } else {
        LowBytesDecide(a, b, bytes - 1);
      }
    }
  }

  /** Eight bytes are a whole key. */
  lemma WholeKey(a: Key, b: Key)
    requires LowAtMost(a, b, PASSES)
    ensures a <= b
  {
    NothingLeft(a);
    NothingLeft(b);
    LowBytesDecide(a, b, PASSES);
  }

  lemma NothingLeft(a: Key)
    ensures Shifted(a, PASSES) == 0
  {
    assert Shifted(a, 1) < 0x100_0000_0000_0000;
    assert Shifted(a, 2) < 0x1_0000_0000_0000;
    assert Shifted(a, 3) < 0x100_0000_0000;
    assert Shifted(a, 4) < 0x1_0000_0000;
    assert Shifted(a, 5) < 0x100_0000;
    assert Shifted(a, 6) < 0x1_0000;
    assert Shifted(a, 7) < 0x100;
  }

  /** A bucket of a sequence sorted by the lower bytes is sorted by one more. */
  lemma {:induction false} BucketSorted<V>(s: seq<Entry<V>>, pass: nat, b: nat)
    requires SortedLow(s, pass)
    ensures SortedLow(Filter(s, InBucket(pass, b)), pass + 1)
    ensures forall e :: e in Filter(s, InBucket(pass, b)) ==> Digit(e.key, pass) == b && e in s
    decreases |s|
  {
    hide Digit;
    FilterHolds(s, InBucket(pass, b));
    if s != [] {
      var u, last := s[..|s| - 1], s[|s| - 1];
      BucketSorted(u, pass, b);
      forall e | e in Filter(u, InBucket(pass, b)) ensures LowAtMost(e.key, last.key, pass) {
        assert e in u;
      }
    }
  }

  lemma {:induction false} CollectSorted<V>(s: seq<Entry<V>>, pass: nat, n: nat)
    requires SortedLow(s, pass)
    ensures SortedLow(Collect(s, pass, n), pass + 1)
    ensures forall e :: e in Collect(s, pass, n) ==> Digit(e.key, pass) < n
  {
    hide *;
    CollectUnfolds(s, pass, n);
    if n > 0 {
      CollectSorted(s, pass, n - 1);
      BucketSorted(s, pass, n - 1);
      JoinSorted(Collect(s, pass, n - 1), Filter(s, InBucket(pass, n - 1)), pass, n - 1);
    }
  }

  lemma CollectUnfolds<V>(s: seq<Entry<V>>, pass: nat, n: nat)
    ensures n == 0 ==> Collect(s, pass, n) == [] && SortedLow<V>([], pass + 1)
    ensures n > 0 ==> Collect(s, pass, n) == Collect(s, pass, n - 1) + Filter(s, InBucket(pass, n - 1))
  {
  }

  lemma JoinSorted<V>(c: seq<Entry<V>>, f: seq<Entry<V>>, pass: nat, b: nat)
    requires SortedLow(c, pass + 1) && SortedLow(f, pass + 1)
    requires forall e :: e in c ==> Digit(e.key, pass) < b
    requires forall e :: e in f ==> Digit(e.key, pass) == b
    ensures SortedLow(c + f, pass + 1)
    ensures forall e :: e in c + f ==> Digit(e.key, pass) < b + 1
  {
    hide Digit;
    forall i, j | 0 <= i < |c| && 0 <= j < |f| ensures LowAtMost(c[i].key, f[j].key, pass + 1) {
      assert c[i] in c && f[j] in f;
    }
  }

  // --- One pass keeps the order of equal keys ---

  lemma {:induction false} CollectKeeps<V>(s: seq<Entry<V>>, pass: nat, n: nat, key: Key)
    ensures Filter(Collect(s, pass, n), HasKey(key)) == if Digit(key, pass) < n then Filter(s, HasKey(key)) else []
  {
    hide Digit, Filter;
    if n > 0 {
      var c, f := Collect(s, pass, n - 1), Filter(s, InBucket(pass, n - 1));
      CollectKeeps(s, pass, n - 1, key);
      FilterJoin(c, f, HasKey(key));
      if Digit(key, pass) == n - 1 {
        FilterTwice(s, InBucket(pass, n - 1), HasKey(key), HasKey(key));
      } else {
        FilterHolds(s, InBucket(pass, n - 1));
        FilterNone(f, HasKey(key));
      }
    }
  }

  // --- One pass places every entry ---

  lemma {:induction false} CollectPush<V>(s: seq<Entry<V>>, e: Entry<V>, pass: nat, n: nat)
    ensures |Collect(s + [e], pass, n)| == |Collect(s, pass, n)| + if Digit(e.key, pass) < n then 1 else 0
  {
    hide Digit;
    if n > 0 {
      CollectPush(s, e, pass, n - 1);
      FilterPush(s, e, InBucket(pass, n - 1));
    }
  }

  lemma {:induction false} CollectLength<V>(s: seq<Entry<V>>, pass: nat)
    ensures |Collect(s, pass, BUCKETS)| == |s|
    decreases |s|
  {
    if s == [] {
      NothingCollected<V>(pass, BUCKETS);
    } else {
      var u, last := s[..|s| - 1], s[|s| - 1];
      CollectLength(u, pass);
      CollectPush(u, last, pass, BUCKETS);
      assert u + [last] == s;
    }
  }

  lemma {:induction false} NothingCollected<V>(pass: nat, n: nat)
    ensures Collect<V>([], pass, n) == []
  {
    if n > 0 { NothingCollected<V>(pass, n - 1); }
  }

  /** What eight passes make of a sequence. */
  function AfterPasses<V>(s: seq<Entry<V>>, passes: nat): seq<Entry<V>> {
    if passes == 0 then s else Collect(AfterPasses(s, passes - 1), passes - 1, BUCKETS)
  }

  lemma PassKeeps<V>(s: seq<Entry<V>>, t: seq<Entry<V>>, pass: nat)
    requires SameByKey(s, t)
    ensures SameByKey(s, Collect(t, pass, BUCKETS))
  {
    hide Collect, Filter;
    forall key: Key ensures Filter(s, HasKey(key)) == Filter(Collect(t, pass, BUCKETS), HasKey(key)) {
      CollectKeeps(t, pass, BUCKETS, key);
    }
  }

  lemma PassUnfolds<V>(s: seq<Entry<V>>, passes: nat)
    requires passes > 0
    ensures AfterPasses(s, passes) == Collect(AfterPasses(s, passes - 1), passes - 1, BUCKETS)
  {
  }

  lemma NoPass<V>(s: seq<Entry<V>>)
    ensures AfterPasses(s, 0) == s && SortedLow(s, 0) && SameByKey(s, s)
  {
  }

  /** After each pass the entries are a stable ordering by the bytes seen so far. */
  lemma {:induction false} PassesSort<V>(s: seq<Entry<V>>, passes: nat)
    ensures |AfterPasses(s, passes)| == |s| && SortedLow(AfterPasses(s, passes), passes)
            && SameByKey(s, AfterPasses(s, passes))
  {
    hide *;
    if passes == 0 {
      NoPass(s);
    } else {
      var t := AfterPasses(s, passes - 1);
      PassesSort(s, passes - 1);
      PassUnfolds(s, passes);
      CollectSorted(t, passes - 1, BUCKETS);
      CollectLength(t, passes - 1);
      PassKeeps(s, t, passes - 1);
    }
  }

  lemma EightPassesSort<V>(s: seq<Entry<V>>)
    ensures StablySorted(s, AfterPasses(s, PASSES))
  {
    hide AfterPasses, SameByKey;
    PassesSort(s, PASSES);
    var t := AfterPasses(s, PASSES);
    forall i, j | 0 <= i < j < |t| ensures t[i].key <= t[j].key {
      WholeKey(t[i].key, t[j].key);
    }
  }

  /** A stable ordering is a permutation. */
  lemma StableIsPermutation<V>(s: seq<Entry<V>>, t: seq<Entry<V>>)
    requires SameByKey(s, t)
    ensures multiset(s) == multiset(t)
  {
    forall e: Entry<V> ensures multiset(s)[e] == multiset(t)[e] {
      FilterCounts(s, HasKey(e.key), e);
      FilterCounts(t, HasKey(e.key), e);
    }
  }
}
