/** The radix sort over two parallel arrays, with bucket counters and ping-pong buffers. Every pass
    counts, turns the counts into offsets and scatters; its target holds the entries the way the
    reference pass on sequences collects them. */
module RadixSortPairs {
  import opened Ordering
  import opened RadixSort
  import opened Slices

  function Zip<V>(keys: seq<Key>, values: seq<V>): (z: seq<Entry<V>>)
    requires |keys| == |values|
    ensures |z| == |keys| && forall i :: 0 <= i < |z| ==> z[i] == Entry(keys[i], values[i])
  {
    seq(|keys|, i requires 0 <= i < |keys| => Entry(keys[i], values[i]))
  }

  function Bucket<V>(z: seq<Entry<V>>, i: nat, pass: nat, b: nat): seq<Entry<V>>
    requires i <= |z|
  {
    Filter(z[..i], InBucket(pass, b))
  }

  /** Where the next entry of a bucket goes, once the first `i` entries are placed. */
  function Next<V>(z: seq<Entry<V>>, i: nat, pass: nat, b: nat): nat
    requires i <= |z|
  {
    |Collect(z, pass, b)| + |Bucket(z, i, pass, b)|
  }

  /** The entries of a bucket among the first `i` stand in its place. */
  ghost predicate Stands<V>(z: seq<Entry<V>>, i: nat, d: seq<Entry<V>>, pass: nat, b: nat)
    requires i <= |z|
  {
    Next(z, i, pass, b) <= |d| && d[|Collect(z, pass, b)|..Next(z, i, pass, b)] == Bucket(z, i, pass, b)
  }

  ghost predicate Placed<V>(z: seq<Entry<V>>, i: nat, d: seq<Entry<V>>, pass: nat) {
    i <= |z| == |d| && forall b: nat :: b < BUCKETS ==> Stands(z, i, d, pass, b)
  }

  ghost predicate Counted<V>(z: seq<Entry<V>>, i: nat, pass: nat, counts: seq<nat>) {
    i <= |z| && |counts| == BUCKETS && forall b: nat :: b < BUCKETS ==> counts[b] == |Bucket(z, i, pass, b)|
  }

  ghost predicate Offset<V>(z: seq<Entry<V>>, i: nat, pass: nat, offsets: seq<nat>) {
    i <= |z| && |offsets| == BUCKETS && forall b: nat :: b < BUCKETS ==> offsets[b] == Next(z, i, pass, b)
  }

  // --- Buckets do not overlap ---

  lemma BucketStep<V>(z: seq<Entry<V>>, i: nat, pass: nat, b: nat)
    requires i < |z|
    ensures Bucket(z, i + 1, pass, b) == Bucket(z, i, pass, b) + (if Digit(z[i].key, pass) == b then [z[i]] else [])
  {
    hide Digit;
    assert z[..i + 1] == z[..i] + [z[i]];
    FilterPush(z[..i], z[i], InBucket(pass, b));
  }

  lemma BucketWithin<V>(z: seq<Entry<V>>, i: nat, pass: nat, b: nat)
    requires i <= |z|
    ensures |Bucket(z, i, pass, b)| <= |Filter(z, InBucket(pass, b))|
    ensures i == |z| ==> Bucket(z, i, pass, b) == Filter(z, InBucket(pass, b))
  {
    assert z == z[..i] + z[i..];
    FilterJoin(z[..i], z[i..], InBucket(pass, b));
    assert i == |z| ==> z[..i] == z;
  }

  lemma {:induction false} StartsRise<V>(z: seq<Entry<V>>, pass: nat, b: nat, c: nat)
    requires b <= c
    ensures |Collect(z, pass, b)| <= |Collect(z, pass, c)|
    decreases c
  {
    if b < c { StartsRise(z, pass, b, c - 1); }
  }

  /** A bucket ends before the next one starts. */
  lemma BucketEnds<V>(z: seq<Entry<V>>, i: nat, pass: nat, b: nat)
    requires i <= |z| && b < BUCKETS
    ensures Next(z, i, pass, b) <= |Collect(z, pass, b + 1)| <= |z|
  {
    BucketWithin(z, i, pass, b);
    StartsRise(z, pass, b + 1, BUCKETS);
    CollectLength(z, pass);
  }

  lemma NothingPlaced<V>(z: seq<Entry<V>>, d: seq<Entry<V>>, pass: nat)
    requires |d| == |z|
    ensures Placed(z, 0, d, pass)
  {
    forall b: nat | b < BUCKETS ensures Stands(z, 0, d, pass, b) {
      BucketEnds(z, 0, pass, b);
    }
  }

  /** Placing an entry in its bucket leaves the other buckets alone. */
  lemma PlaceOne<V>(z: seq<Entry<V>>, i: nat, d: seq<Entry<V>>, pass: nat)
    requires Placed(z, i, d, pass) && i < |z|
    ensures var t := Next(z, i, pass, Digit(z[i].key, pass)); t < |d| && Placed(z, i + 1, d[t := z[i]], pass)
  {
    var g := Digit(z[i].key, pass);
    var t := Next(z, i, pass, g);
    hide Digit;
    NextStep(z, i, pass, g);
    BucketEnds(z, i + 1, pass, g);
    var next, e := i + 1, d[t := z[i]];
    forall b: nat | b < BUCKETS ensures Stands(z, next, e, pass, b) {
      PlaceIn(z, i, d, pass, g, b);
    }
  }

  lemma NextStep<V>(z: seq<Entry<V>>, i: nat, pass: nat, b: nat)
    requires i < |z|
    ensures Next(z, i + 1, pass, b) == Next(z, i, pass, b) + if Digit(z[i].key, pass) == b then 1 else 0
  {
    BucketStep(z, i, pass, b);
  }

  /** A lower bucket ends before a higher one starts. */
  lemma Apart<V>(z: seq<Entry<V>>, i: nat, pass: nat, b: nat, c: nat)
    requires i <= |z| && b < c <= BUCKETS
    ensures Next(z, i, pass, b) <= |Collect(z, pass, c)|
  {
    hide *;
    BucketEnds(z, i, pass, b);
    StartsRise(z, pass, b + 1, c);
  }

  lemma PlaceIn<V>(z: seq<Entry<V>>, i: nat, d: seq<Entry<V>>, pass: nat, g: nat, b: nat)
    requires i < |z| == |d| && g == Digit(z[i].key, pass) && g < BUCKETS && b < BUCKETS && Stands(z, i, d, pass, b)
    requires Next(z, i, pass, g) < |d|
    ensures Stands(z, i + 1, d[Next(z, i, pass, g) := z[i]], pass, b)
  {
    hide Digit, Collect, Bucket;
    var t, start, end := Next(z, i, pass, g), |Collect(z, pass, b)|, Next(z, i, pass, b);
    BucketStep(z, i, pass, b);
    if b == g {
      UpdateAtEnd(d, t, z[i], start);
    } else {
      PlacedElsewhere(z, i, pass, g, b);
      UpdateOutside(d, t, z[i], start, end);
    }
  }

  lemma PlacedElsewhere<V>(z: seq<Entry<V>>, i: nat, pass: nat, g: nat, b: nat)
    requires i < |z| && g == Digit(z[i].key, pass) && g < BUCKETS && b < BUCKETS && b != g
    ensures Next(z, i, pass, g) < |Collect(z, pass, b)| || Next(z, i, pass, b) <= Next(z, i, pass, g)
  {
    hide Digit, Collect, Bucket;
    if b < g {
      Apart(z, i, pass, b, g);
    } else {
      NextStep(z, i, pass, g);
      Apart(z, i + 1, pass, g, b);
    }
  }

  lemma OneMorePlaced<V>(z: seq<Entry<V>>, d: seq<Entry<V>>, pass: nat, n: nat)
    requires Placed(z, |z|, d, pass) && n < BUCKETS
    ensures |Collect(z, pass, n)| <= |Collect(z, pass, n + 1)| <= |d|
    ensures d[|Collect(z, pass, n)|..|Collect(z, pass, n + 1)|] == Filter(z, InBucket(pass, n))
  {
    BucketWithin(z, |z|, pass, n);
    assert Stands(z, |z|, d, pass, n);
    BucketEnds(z, |z|, pass, n);
  }

  /** When all entries are placed, the buckets are the pass. */
  lemma {:induction false} AllPlaced<V>(z: seq<Entry<V>>, d: seq<Entry<V>>, pass: nat, n: nat)
    requires Placed(z, |z|, d, pass) && n <= BUCKETS
    ensures |Collect(z, pass, n)| <= |d| && d[..|Collect(z, pass, n)|] == Collect(z, pass, n)
  {
    hide Placed, Filter;
    if n > 0 {
      AllPlaced(z, d, pass, n - 1);
      OneMorePlaced(z, d, pass, n - 1);
      SplitSlice(d, 0, |Collect(z, pass, n - 1)|, |Collect(z, pass, n)|);
    }
  }

  lemma PassPlaced<V>(z: seq<Entry<V>>, d: seq<Entry<V>>, pass: nat)
    requires Placed(z, |z|, d, pass)
    ensures d == Collect(z, pass, BUCKETS)
  {
    assert |d| == |z|;
    hide Placed, Collect;
    AllPlaced(z, d, pass, BUCKETS);
    CollectLength(z, pass);
    assert d[..|d|] == d;
  }

  // --- The passes over the arrays ---

  lemma CountOne<V>(z: seq<Entry<V>>, i: nat, pass: nat, counts: seq<nat>)
    requires Counted(z, i, pass, counts) && i < |z|
    ensures var g := Digit(z[i].key, pass); Counted(z, i + 1, pass, counts[g := counts[g] + 1])
  {
    hide Digit, Bucket;
    var next := i + 1;
    forall b: nat | b < BUCKETS
      ensures |Bucket(z, next, pass, b)| == |Bucket(z, i, pass, b)| + if Digit(z[i].key, pass) == b then 1 else 0
    {
      BucketStep(z, i, pass, b);
    }
  }

  lemma OffsetOne<V>(z: seq<Entry<V>>, i: nat, pass: nat, offsets: seq<nat>)
    requires Offset(z, i, pass, offsets) && i < |z|
    ensures var g := Digit(z[i].key, pass); Offset(z, i + 1, pass, offsets[g := offsets[g] + 1])
  {
    hide Digit, Next;
    var next := i + 1;
    forall b: nat | b < BUCKETS
      ensures Next(z, next, pass, b) == Next(z, i, pass, b) + if Digit(z[i].key, pass) == b then 1 else 0
    {
      NextStep(z, i, pass, b);
    }
  }

  lemma NothingCounted<V>(z: seq<Entry<V>>, pass: nat, counts: seq<nat>)
    requires |counts| == BUCKETS && forall b :: 0 <= b < BUCKETS ==> counts[b] == 0
    ensures Counted(z, 0, pass, counts)
  {
  }

  lemma OffsetsStart<V>(z: seq<Entry<V>>, pass: nat, b: nat)
    ensures Next(z, 0, pass, b) == |Collect(z, pass, b)|
    ensures |Collect(z, pass, b + 1)| == |Collect(z, pass, b)| + |Bucket(z, |z|, pass, b)|
  {
    assert z[..|z|] == z;
    hide Filter;
    assert z[..0] == [];
    assert |Bucket(z, 0, pass, b)| == 0;
  }

  /** How many entries go to each bucket, turned into where each bucket starts. */
  method Histogram<V>(keys: array<Key>, pass: nat, ghost z: seq<Entry<V>>) returns (offsets: array<nat>)
    requires |z| == keys.Length && forall i :: 0 <= i < |z| ==> z[i].key == keys[i]
    ensures fresh(offsets) && Offset(z, 0, pass, offsets[..])
  {
    hide Digit, Counted, Offset, Bucket, Collect, Next;
    var counts := new nat[BUCKETS](_ => 0);
    NothingCounted(z, pass, counts[..]);
    var i := 0;
    while i < keys.Length
      invariant i <= keys.Length && Counted(z, i, pass, counts[..])
    {
      ghost var before := counts[..];
      var bucket := Digit(keys[i], pass);
      CountOne(z, i, pass, before);
      counts[bucket] := counts[bucket] + 1;
      assert counts[..] == before[bucket := before[bucket] + 1];
      i := i + 1;
    }
    offsets := AddUp(counts, pass, z);
  }

  lemma NothingBefore<V>(z: seq<Entry<V>>, pass: nat)
    ensures |Collect(z, pass, 0)| == 0
  {
  }

  lemma CountedIs<V>(z: seq<Entry<V>>, pass: nat, counts: seq<nat>)
    requires Counted(z, |z|, pass, counts)
    ensures |counts| == BUCKETS && forall b: nat :: b < BUCKETS ==> counts[b] == |Bucket(z, |z|, pass, b)|
  {
  }

  method AddUp<V>(counts: array<nat>, pass: nat, ghost z: seq<Entry<V>>) returns (offsets: array<nat>)
    requires Counted(z, |z|, pass, counts[..])
    ensures fresh(offsets) && Offset(z, 0, pass, offsets[..])
  {
    hide Digit, Bucket, Next, Collect, Counted;
    NothingBefore(z, pass);
    CountedIs(z, pass, counts[..]);
    offsets := new nat[BUCKETS](_ => 0);
    var offset, b := 0, 0;
    while b < BUCKETS
      invariant b <= BUCKETS && offset == |Collect(z, pass, b)|
      invariant forall c: nat :: c < b ==> offsets[c] == Next(z, 0, pass, c)
    {
      OffsetsStart(z, pass, b);
      offsets[b] := offset;
      offset := offset + counts[b];
      b := b + 1;
    }
  }

  lemma OffsetIs<V>(z: seq<Entry<V>>, i: nat, pass: nat, offsets: seq<nat>, b: nat)
    requires Offset(z, i, pass, offsets) && b < BUCKETS
    ensures |offsets| == BUCKETS && offsets[b] == Next(z, i, pass, b)
  {
  }

  lemma ZipUpdate<V>(keys: seq<Key>, values: seq<V>, t: nat, key: Key, value: V)
    requires t < |keys| == |values|
    ensures Zip(keys[t := key], values[t := value]) == Zip(keys, values)[t := Entry(key, value)]
  {
  }

  /** Copies every entry to the next free place of its bucket. */
  method Scatter<V>(fromKeys: array<Key>, fromValues: array<V>, toKeys: array<Key>, toValues: array<V>, pass: nat,
                    offsets: array<nat>, ghost z: seq<Entry<V>>)
    requires fromKeys.Length == fromValues.Length == toKeys.Length == toValues.Length
    requires {toKeys as object, toValues, offsets} !! {fromKeys as object, fromValues}
    requires toKeys as object != toValues && offsets as object != toKeys && offsets as object != toValues
    requires z == Zip(fromKeys[..], fromValues[..]) && Offset(z, 0, pass, offsets[..])
    modifies toKeys, toValues, offsets
    ensures Zip(toKeys[..], toValues[..]) == Collect(z, pass, BUCKETS)
  {
    hide Digit, Offset, Placed, Collect, Next, Zip;
    NothingPlaced(z, Zip(toKeys[..], toValues[..]), pass);
    var i := 0;
    while i < fromKeys.Length
      invariant i <= fromKeys.Length && z == Zip(fromKeys[..], fromValues[..])
      invariant Offset(z, i, pass, offsets[..]) && Placed(z, i, Zip(toKeys[..], toValues[..]), pass)
    {
      Copy(fromKeys, fromValues, toKeys, toValues, pass, offsets, i, z);
      i := i + 1;
    }
    PassPlaced(z, Zip(toKeys[..], toValues[..]), pass);
  }

  method Copy<V>(fromKeys: array<Key>, fromValues: array<V>, toKeys: array<Key>, toValues: array<V>, pass: nat,
                 offsets: array<nat>, i: nat, ghost z: seq<Entry<V>>)
    requires i < fromKeys.Length == fromValues.Length == toKeys.Length == toValues.Length
    requires {toKeys as object, toValues, offsets} !! {fromKeys as object, fromValues}
    requires toKeys as object != toValues && offsets as object != toKeys && offsets as object != toValues
    requires z == Zip(fromKeys[..], fromValues[..])
    requires Offset(z, i, pass, offsets[..]) && Placed(z, i, Zip(toKeys[..], toValues[..]), pass)
    modifies toKeys, toValues, offsets
    ensures Offset(z, i + 1, pass, offsets[..]) && Placed(z, i + 1, Zip(toKeys[..], toValues[..]), pass)
  {
    hide Digit, Offset, Placed, Collect, Next, Zip;
    ghost var d, o, ks, vs := Zip(toKeys[..], toValues[..]), offsets[..], toKeys[..], toValues[..];
    var bucket := Digit(fromKeys[i], pass);
    OffsetIs(z, i, pass, o, bucket);
    PlaceOne(z, i, d, pass);
    OffsetOne(z, i, pass, o);
    var target := offsets[bucket];
    offsets[bucket] := target + 1;
    toKeys[target], toValues[target] := fromKeys[i], fromValues[i];
    assert offsets[..] == o[bucket := o[bucket] + 1];
    assert toKeys[..] == ks[target := z[i].key] && toValues[..] == vs[target := z[i].value];
    ZipUpdate(ks, vs, target, z[i].key, z[i].value);
  }

  /** One pass from one pair of arrays to the other. */
  method Pass<V>(fromKeys: array<Key>, fromValues: array<V>, toKeys: array<Key>, toValues: array<V>, pass: nat)
    requires fromKeys.Length == fromValues.Length == toKeys.Length == toValues.Length
    requires {toKeys as object, toValues} !! {fromKeys as object, fromValues} && toKeys as object != toValues
    modifies toKeys, toValues
    ensures Zip(toKeys[..], toValues[..]) == Collect(old(Zip(fromKeys[..], fromValues[..])), pass, BUCKETS)
  {
    hide Digit, Offset, Placed, Collect, Next;
    ghost var z := Zip(fromKeys[..], fromValues[..]);
    var offsets := Histogram(fromKeys, pass, z);
    Scatter(fromKeys, fromValues, toKeys, toValues, pass, offsets, z);
  }

  /** Sorts by key, and every value stays with its key; entries with equal keys keep their order. After
      the even number of passes the result stands in the caller's arrays. */
  method SortPairs<V>(keys: array<Key>, values: array<V>)
    requires keys.Length == values.Length && keys as object != values
    modifies keys, values
    ensures StablySorted(old(Zip(keys[..], values[..])), Zip(keys[..], values[..]))
  {
    hide Collect, Zip, StablySorted;
    ghost var z := Zip(keys[..], values[..]);
    if keys.Length <= 1 {
      ShortIsSorted(z);
      return;
    }
    var tempKeys := new Key[keys.Length](_ => 0);
    var tempValues := new V[values.Length](i requires 0 <= i < values.Length reads values => values[i]);
    var fromKeys, fromValues, toKeys, toValues := keys, values, tempKeys, tempValues;
    var pass := 0;
    while pass < PASSES
      invariant pass <= PASSES
      invariant pass % 2 == 0 ==>
                  fromKeys == keys && fromValues == values && toKeys == tempKeys && toValues == tempValues
      invariant pass % 2 == 1 ==>
                  fromKeys == tempKeys && fromValues == tempValues && toKeys == keys && toValues == values
      invariant Zip(fromKeys[..], fromValues[..]) == AfterPasses(z, pass)
    {
      Pass(fromKeys, fromValues, toKeys, toValues, pass);
      PassUnfolds(z, pass + 1);
      fromKeys, toKeys := toKeys, fromKeys;
      fromValues, toValues := toValues, fromValues;
      pass := pass + 1;
    }
    assert fromKeys == keys && fromValues == values;
    EightPassesSort(z);
  }

  lemma ShortIsSorted<V>(z: seq<Entry<V>>)
    requires |z| <= 1
    ensures StablySorted(z, z)
  {
  }
}
