/** Rounding up to a power of two by smearing the highest bit downwards. */
module NextPow2 {
  import opened Powers

  function Shr(v: nat, k: nat): nat {
    if k == 0 then v else Shr(v, k - 1) / 2
  }

  predicate Bit(v: nat, i: nat) {
    Shr(v, i) % 2 == 1
  }

  function Or(a: nat, b: nat): nat {
    if a == 0 && b == 0 then 0 else 2 * Or(a / 2, b / 2) + if a % 2 == 1 || b % 2 == 1 then 1 else 0
  }

  // --- Bits ---

  lemma {:induction false} ShrHalf(v: nat, k: nat)
    ensures Shr(v / 2, k) == Shr(v, k) / 2
  {
    if k > 0 { ShrHalf(v, k - 1); }
  }

  lemma {:induction false} ShrBit(v: nat, k: nat, i: nat)
    ensures Bit(Shr(v, k), i) == Bit(v, i + k)
    decreases k
  {
    if k > 0 {
      ShrBit(v, k - 1, i + 1);
      ShrHalf(Shr(v, k - 1), i);
    }
  }

  lemma OrHalf(a: nat, b: nat)
    ensures Or(a, b) / 2 == Or(a / 2, b / 2)
    ensures Or(a, b) % 2 == 1 <==> a % 2 == 1 || b % 2 == 1
  {
  }

  lemma {:induction false} OrBit(a: nat, b: nat, i: nat)
    ensures Bit(Or(a, b), i) == (Bit(a, i) || Bit(b, i))
    decreases i
  {
    OrHalf(a, b);
    hide Or;
    if i > 0 {
      ShrHalf(a, i - 1);
      ShrHalf(b, i - 1);
      ShrHalf(Or(a, b), i - 1);
      OrBit(a / 2, b / 2, i - 1);
    }
  }

  lemma {:induction false} OrBelow(a: nat, b: nat, n: nat)
    requires a < Pow2(n) && b < Pow2(n)
    ensures a <= Or(a, b) < Pow2(n)
  {
    if n > 0 { OrBelow(a / 2, b / 2, n - 1); }
  }

  lemma {:induction false} ShrAtMost(v: nat, k: nat)
    ensures Shr(v, k) <= v
  {
    if k > 0 { ShrAtMost(v, k - 1); }
  }

  lemma {:induction false} TopBit(v: nat, t: nat)
    requires Pow2(t) <= v < Pow2(t + 1)
    ensures Bit(v, t)
  {
    if t > 0 {
      TopBit(v / 2, t - 1);
      ShrHalf(v, t - 1);
    }
  }

  lemma {:induction false} AllOnes(v: nat, n: nat)
    requires v < Pow2(n) && forall i: nat :: i < n ==> Bit(v, i)
    ensures v == Pow2(n) - 1
  {
    if n > 0 {
      assert Bit(v, 0);
      forall i: nat | i < n - 1 ensures Bit(v / 2, i) {
        var next := i + 1;
        assert Bit(v, next);
        ShrHalf(v, i);
      }
      AllOnes(v / 2, n - 1);
    }
  }

  // --- Smearing ---

  /** The `w` highest bits of a number of `n` bits are set. */
  ghost predicate Smeared(v: nat, n: nat, w: nat) {
    v < Pow2(n) && forall i: nat :: i < n && n <= i + w ==> Bit(v, i)
  }

  lemma SmearStep(v: nat, n: nat, w: nat)
    requires Smeared(v, n, w) && w > 0
    ensures Smeared(Or(v, Shr(v, w)), n, 2 * w)
  {
    ShrAtMost(v, w);
    OrBelow(v, Shr(v, w), n);
    var r := Or(v, Shr(v, w));
    forall i: nat | i < n && n <= i + 2 * w ensures Bit(r, i) {
      OrBit(v, Shr(v, w), i);
      ShrBit(v, w, i);
      if i + w < n {
        var j := i + w;
        assert Bit(v, j);
      }
    }
  }

  lemma {:induction false} BitLength(v: nat) returns (n: nat)
    requires v > 0
    ensures n > 0 && Pow2(n - 1) <= v < Pow2(n)
  {
    if v == 1 {
      n := 1;
    } else {
      var m := BitLength(v / 2);
      n := m + 1;
    }
  }

  lemma {:induction false} Pow2Grows(m: nat, n: nat)
    requires m < n
    ensures Pow2(m) < Pow2(n)
  {
    if m + 1 < n { Pow2Grows(m, n - 1); }
  }

  lemma Pow2Eight(n: nat)
    ensures Pow2(n + 8) == 256 * Pow2(n)
  {
    assert Pow2(n + 2) == 2 * Pow2(n + 1);
    assert Pow2(n + 4) == 2 * Pow2(n + 3);
    assert Pow2(n + 6) == 2 * Pow2(n + 5);
    assert Pow2(n + 8) == 2 * Pow2(n + 7);
  }

  lemma Pow2Of64()
    ensures Pow2(63) == 0x8000_0000_0000_0000 && Pow2(64) == WORD
  {
    hide Pow2;
    Pow2Eight(0);
    Pow2Eight(8);
    Pow2Eight(16);
    Pow2Eight(24);
    Pow2Eight(32);
    Pow2Eight(40);
    Pow2Eight(48);
    Pow2Eight(56);
    OneDoubling(63);
  }

  lemma OneDoubling(n: nat)
    ensures Pow2(n + 1) == 2 * Pow2(n) && Pow2(0) == 1
  {
  }

  function Spread(v: nat, w: nat): nat {
    Or(v, Shr(v, w))
  }

  /** Six doublings set every bit of a 64-bit word below its highest. */
  lemma SpreadFills(v: nat, n: nat)
    requires 0 < n <= 64 && Pow2(n - 1) <= v < Pow2(n)
    ensures Spread(Spread(Spread(Spread(Spread(Spread(v, 1), 2), 4), 8), 16), 32) == Pow2(n) - 1
  {
    TopBit(v, n - 1);
    assert Smeared(v, n, 1);
    hide Or, Shr, Bit, Pow2;
    SmearStep(v, n, 1);
    SmearStep(Spread(v, 1), n, 2);
    SmearStep(Spread(Spread(v, 1), 2), n, 4);
    SmearStep(Spread(Spread(Spread(v, 1), 2), 4), n, 8);
    SmearStep(Spread(Spread(Spread(Spread(v, 1), 2), 4), 8), n, 16);
    SmearStep(Spread(Spread(Spread(Spread(Spread(v, 1), 2), 4), 8), 16), n, 32);
    AllOnes(Spread(Spread(Spread(Spread(Spread(Spread(v, 1), 2), 4), 8), 16), 32), n);
  }

  /** Where the bit length puts a request, against 2^63. */
  lemma LengthOf(v: nat, n: nat)
    requires 0 < n && Pow2(n - 1) <= v < Pow2(n) && v < WORD
    ensures n <= 64 && (n == 64 <==> v >= Pow2(63)) && (n < 64 ==> Pow2(n) < WORD) && Pow2(64) == WORD
  {
    Pow2Of64();
    if n > 64 { Pow2Grows(64, n); if n > 65 { Pow2Grows(64, n - 1); } }
    if n < 64 { Pow2Grows(n, 64); if n < 63 { Pow2Grows(n, 63); } }
  }

  lemma NoSpread()
    ensures Spread(Spread(Spread(Spread(Spread(Spread(0, 1), 2), 4), 8), 16), 32) == 0
  {
    forall w: nat ensures Spread(0, w) == 0 {
      ShrAtMost(0, w);
    }
  }

  /** The least power of two at or above a request, up to 2^63; beyond that the sum wraps to 0. */
  method Round(request: nat) returns (r: nat, ghost k: nat)
    requires request < WORD
    ensures request <= Pow2(63) ==> k <= 63 && r == Pow2(k) && request <= r && (k > 0 ==> Pow2(k - 1) < request)
    ensures request > Pow2(63) ==> r == 0
  {
    hide Or, Shr, Spread;
    k := 0;
    if request == 0 { return 1, 0; }
    var v: nat := request - 1;
    if v == 0 {
      NoSpread();
    } else {
      k := BitLength(v);
      LengthOf(v, k);
      SpreadFills(v, k);
    }
    v := Spread(v, 1);
    v := Spread(v, 2);
    v := Spread(v, 4);
    v := Spread(v, 8);
    v := Spread(v, 16);
    v := Spread(v, 32);
    r := (v + 1) % WORD;
  }
}
