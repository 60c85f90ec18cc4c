/** Sequences that agree on one side of a position agree on every slice of that side.
    These facts let proofs about arrays talk about a stretch of the array and leave the rest
    alone. */
module Slices {

  function Min(a: nat, b: nat): nat { if a < b then a else b }

  lemma EqualPrefix<T>(s: seq<T>, t: seq<T>, n: nat, a: nat, b: nat)
    requires n <= |s| && n <= |t| && s[..n] == t[..n] && a <= b <= n
    ensures s[a..b] == t[a..b]
  {
    assert s[a..b] == s[..n][a..b] && t[a..b] == t[..n][a..b];
  }

  lemma EqualSuffix<T>(s: seq<T>, t: seq<T>, n: nat, a: nat, b: nat)
    requires |s| == |t| && n <= a <= b <= |s| && s[n..] == t[n..]
    ensures s[a..b] == t[a..b] && s[b..] == t[b..]
  {
    forall i | n <= i < |s| ensures s[i] == t[i] {
      assert s[i] == s[n..][i - n] && t[i] == t[n..][i - n];
    }
  }

  lemma SplitSlice<T>(s: seq<T>, a: nat, b: nat, c: nat)
    requires a <= b <= c <= |s|
    ensures s[a..c] == s[a..b] + s[b..c]
  {
  }

  lemma UpdateOutside<T>(s: seq<T>, t: nat, x: T, a: nat, b: nat)
    requires t < |s| && a <= b <= |s| && (t < a || b <= t)
    ensures s[t := x][a..b] == s[a..b]
  {
  }

  lemma UpdateAtEnd<T>(s: seq<T>, t: nat, x: T, a: nat)
    requires a <= t < |s|
    ensures s[t := x][a..t + 1] == s[a..t] + [x]
  {
  }

  lemma UpdateInside<T>(s: seq<T>, t: nat, x: T, a: nat, b: nat)
    requires a <= t < b <= |s|
    ensures s[t := x][a..b] == s[a..b][t - a := x]
  {
  }

  lemma Regroup<T>(a: seq<T>, b: seq<T>, c: seq<T>)
    ensures (a + b) + c == a + (b + c)
  {
  }
}
