/** UTF-8 validation as the receiver does it, against the encoding of section 3 of RFC 3629. */
module Utf8 {
  import opened Bytes
  import opened Options

  // --- The encoding ---

  /** A Unicode scalar value: no surrogates, nothing beyond U+10FFFF. */
  predicate IsScalar(c: int) {
    0 <= c <= 0x10FFFF && !(0xD800 <= c <= 0xDFFF)
  }

  /** The shortest form of a scalar value. */
  function Encode(c: int): (s: seq<Byte>)
    requires IsScalar(c)
    ensures 1 <= |s| <= 4
  {
    if c < 0x80 then [c]
    else if c < 0x800 then [0xC0 + c / 64, 0x80 + c % 64]
    else if c < 0x10000 then [0xE0 + c / 4096, 0x80 + c / 64 % 64, 0x80 + c % 64]
    else [0xF0 + c / 262144, 0x80 + c / 4096 % 64, 0x80 + c / 64 % 64, 0x80 + c % 64]
  }

  predicate AllScalar(text: seq<int>) {
    forall i :: 0 <= i < |text| ==> IsScalar(text[i])
  }

  function EncodeAll(text: seq<int>): seq<Byte>
    requires AllScalar(text)
  {
    if text == [] then [] else Encode(text[0]) + EncodeAll(text[1..])
  }

  ghost predicate IsEncoding(s: seq<Byte>) {
    exists text: seq<int> :: AllScalar(text) && EncodeAll(text) == s
  }

  // --- The check ---

  /** Continuation bytes a lead byte asks for. */
  function Extra(lead: Byte): Option<nat> {
    if lead < 0x80 then Some(0)
    else if 0xC0 <= lead < 0xE0 then Some(1)
    else if 0xE0 <= lead < 0xF0 then Some(2)
    else if 0xF0 <= lead < 0xF8 then Some(3)
    else None
  }

  /** The payload bits of a lead byte. */
  function LeadBits(lead: Byte): nat {
    if lead < 0x80 then lead else if lead < 0xE0 then lead % 32 else if lead < 0xF0 then lead % 16 else lead % 8
  }

  /** The code point after `k` continuation bytes, if they are continuation bytes. */
  function Folded(s: seq<Byte>, i: nat, k: nat): Option<nat>
    requires i + k < |s|
  {
    if k == 0 then Some(LeadBits(s[i]))
    else
      match Folded(s, i, k - 1)
      case None => None
      case Some(bits) => if 0x80 <= s[i + k] < 0xC0 then Some(bits * 64 + s[i + k] % 64) else None
  }

  function Minimum(extra: nat): nat {
    if extra == 0 then 0 else if extra == 1 then 0x80 else if extra == 2 then 0x800 else 0x10000
  }

  /** The code point that starts at `i` and its length, if it is well formed there. */
  function Point(s: seq<Byte>, i: nat): (r: Option<(int, nat)>)
    requires i < |s|
    ensures r.Some? ==> IsScalar(r.value.0) && 1 <= r.value.1 <= 4 && i + r.value.1 <= |s|
  {
    match Extra(s[i])
    case None => None
    case Some(extra) =>
      if i + extra >= |s| then None
      else
        match Folded(s, i, extra)
        case None => None
        case Some(c) => if c >= Minimum(extra) && IsScalar(c) then Some((c, extra + 1)) else None
  }

  predicate ValidFrom(s: seq<Byte>, i: nat)
    requires i <= |s|
    decreases |s| - i
  {
    i == |s| || (Point(s, i).Some? && ValidFrom(s, i + Point(s, i).value.1))
  }

  /** The check goes through exactly the code points of the text. */
  method Utf8Valid(s: seq<Byte>) returns (valid: bool)
    ensures valid == ValidFrom(s, 0)
  {
    hide Folded;
    var i := 0;
    while i < |s|
      invariant i <= |s| && ValidFrom(s, i) == ValidFrom(s, 0)
      decreases |s| - i
    {
      var lead := s[i];
      FoldStart(s, i);
      if lead < 0x80 {
        i := i + 1;
        continue;
      }
      var extra := Extra(lead);
      if extra.None? { return false; }
      if i + extra.value >= |s| { return false; }
      var c, k := LeadBits(lead), 1;
      while k <= extra.value
        invariant 1 <= k <= extra.value + 1
        invariant Folded(s, i, k - 1) == Some(c)
      {
        FoldNext(s, i, k, c);
        if !(0x80 <= s[i + k] < 0xC0) {
          FoldStops(s, i, k, extra.value);
          return false;
        }
        c := c * 64 + s[i + k] % 64;
        k := k + 1;
      }
      if c < Minimum(extra.value) || c > 0x10FFFF || 0xD800 <= c <= 0xDFFF { return false; }
      i := i + extra.value + 1;
    }
    return true;
  }

  lemma FoldNext(s: seq<Byte>, i: nat, k: nat, c: nat)
    requires 0 < k && i + k < |s| && Folded(s, i, k - 1) == Some(c)
    ensures Folded(s, i, k) == if 0x80 <= s[i + k] < 0xC0 then Some(c * 64 + s[i + k] % 64) else None
  {
  }

  lemma {:induction false} FoldStops(s: seq<Byte>, i: nat, k: nat, n: nat)
    requires k <= n && i + n < |s| && Folded(s, i, k).None?
    ensures Folded(s, i, n).None?
    decreases n
  {
    if k < n { FoldStops(s, i, k, n - 1); }
  }

  // --- The check accepts exactly the encodings ---

  lemma Digits(c: nat)
    ensures c / 4096 == c / 64 / 64 && c / 262144 == c / 4096 / 64
  {
  }

  lemma FoldStep(s: seq<Byte>, i: nat, k: nat, bits: nat, digit: nat)
    requires 0 < k && i + k < |s| && Folded(s, i, k - 1) == Some(bits) && digit < 64 && s[i + k] == 0x80 + digit
    ensures Folded(s, i, k) == Some(bits * 64 + digit)
  {
  }

  /** The lead byte tells the length and carries the top bits. */
  lemma EncodedLead(c: int)
    requires IsScalar(c)
    ensures Extra(Encode(c)[0]) == Some(|Encode(c)| - 1)
    ensures LeadBits(Encode(c)[0])
            == (if |Encode(c)| == 1 then c else if |Encode(c)| == 2 then c / 64 else if |Encode(c)| == 3 then c / 4096
                else c / 262144)
  {
  }

  lemma FoldsBack(s: seq<Byte>, i: nat, c: int)
    requires IsScalar(c) && i + |Encode(c)| <= |s|
    requires forall k :: 0 <= k < |Encode(c)| ==> s[i + k] == Encode(c)[k]
    ensures Extra(s[i]) == Some(|Encode(c)| - 1) && Folded(s, i, |Encode(c)| - 1) == Some(c)
  {
    hide Folded, LeadBits, Extra;
    var e := Encode(c);
    assert s[i + 0] == e[0];
    EncodedLead(c);
    FoldStart(s, i);
    if |e| == 2 {
      assert s[i + 1] == e[1];
      FoldStep(s, i, 1, c / 64, c % 64);
    } else if |e| == 3 {
      assert s[i + 1] == e[1] && s[i + 2] == e[2];
      FoldThree(s, i, c);
    } else if |e| == 4 {
      assert s[i + 1] == e[1] && s[i + 2] == e[2] && s[i + 3] == e[3];
      FoldFour(s, i, c);
    }
  }

  lemma FoldThree(s: seq<Byte>, i: nat, c: nat)
    requires i + 2 < |s| && Folded(s, i, 0) == Some(c / 4096)
    requires s[i + 1] == 0x80 + c / 64 % 64 && s[i + 2] == 0x80 + c % 64
    ensures Folded(s, i, 2) == Some(c)
  {
    hide Folded;
    Digits(c);
    FoldStep(s, i, 1, c / 4096, c / 64 % 64);
    FoldStep(s, i, 2, c / 64, c % 64);
  }

  lemma FoldFour(s: seq<Byte>, i: nat, c: nat)
    requires i + 3 < |s| && Folded(s, i, 0) == Some(c / 262144)
    requires s[i + 1] == 0x80 + c / 4096 % 64 && s[i + 2] == 0x80 + c / 64 % 64 && s[i + 3] == 0x80 + c % 64
    ensures Folded(s, i, 3) == Some(c)
  {
    hide Folded;
    Digits(c);
    FoldStep(s, i, 1, c / 262144, c / 4096 % 64);
    FoldStep(s, i, 2, c / 4096, c / 64 % 64);
    FoldStep(s, i, 3, c / 64, c % 64);
  }

  lemma FoldStart(s: seq<Byte>, i: nat)
    requires i < |s|
    ensures Folded(s, i, 0) == Some(LeadBits(s[i]))
  {
  }

  lemma PointReadsBack(s: seq<Byte>, i: nat, c: int)
    requires IsScalar(c) && i + |Encode(c)| <= |s| && s[i..i + |Encode(c)|] == Encode(c)
    ensures Point(s, i) == Some((c, |Encode(c)|))
  {
    var e := Encode(c);
    forall k | 0 <= k < |e| ensures s[i + k] == e[k] {
      assert s[i..i + |e|][k] == s[i + k];
    }
    FoldsBack(s, i, c);
    hide Folded;
  }

  /** The digits of a folded code point are the bytes it was folded from. */
  lemma FoldDigit(s: seq<Byte>, i: nat, k: nat)
    requires 0 < k && i + k < |s| && Folded(s, i, k).Some?
    ensures Folded(s, i, k - 1).Some? && Folded(s, i, k).value / 64 == Folded(s, i, k - 1).value
    ensures s[i + k] == 0x80 + Folded(s, i, k).value % 64
  {
  }

  lemma PointIsEncoded(s: seq<Byte>, i: nat)
    requires i < |s| && Point(s, i).Some?
    ensures var p := Point(s, i).value; s[i..i + p.1] == Encode(p.0)
  {
    var c, extra := Point(s, i).value.0, Extra(s[i]).value;
    assert Folded(s, i, extra) == Some(c) && c >= Minimum(extra);
    hide Folded, Point, Encode;
    Digits(c);
    FoldStart(s, i);
    TailBytes(c);
    if extra >= 1 { FoldDigit(s, i, extra); }
    if extra >= 2 { FoldDigit(s, i, extra - 1); }
    if extra >= 3 { FoldDigit(s, i, extra - 2); }
    LeadIs(s[i], c);
    hide Extra, LeadBits, Minimum, IsScalar;
    SliceIs(s, i, Encode(c));
  }

  lemma SliceIs(s: seq<Byte>, i: nat, e: seq<Byte>)
    requires i + |e| <= |s| && 1 <= |e| <= 4 && s[i] == e[0]
    requires (|e| > 1 ==> s[i + 1] == e[1]) && (|e| > 2 ==> s[i + 2] == e[2]) && (|e| > 3 ==> s[i + 3] == e[3])
    ensures s[i..i + |e|] == e
  {
  }

  /** The bytes of an encoding behind its lead byte. */
  lemma TailBytes(c: int)
    requires IsScalar(c)
    ensures var e := Encode(c);
            && (|e| == 2 ==> e[1] == 0x80 + c % 64)
            && (|e| == 3 ==> e[1] == 0x80 + c / 64 % 64 && e[2] == 0x80 + c % 64)
            && (|e| == 4 ==> e[1] == 0x80 + c / 4096 % 64 && e[2] == 0x80 + c / 64 % 64 && e[3] == 0x80 + c % 64)
  {
  }

  lemma LeadIs(lead: Byte, c: int)
    requires IsScalar(c) && Extra(lead).Some? && c >= Minimum(Extra(lead).value)
    requires LeadBits(lead) == (if Extra(lead) == Some(0) then c else if Extra(lead) == Some(1) then c / 64
                                else if Extra(lead) == Some(2) then c / 4096 else c / 262144)
    ensures |Encode(c)| == Extra(lead).value + 1 && Encode(c)[0] == lead
  {
  }

  lemma {:induction false} EncodingIsValid(s: seq<Byte>, i: nat, text: seq<int>)
    requires AllScalar(text) && i <= |s| && s[i..] == EncodeAll(text)
    ensures ValidFrom(s, i)
    decreases |text|
  {
    hide Encode, Point;
    if text != [] {
      var e := Encode(text[0]);
      assert s[i..i + |e|] == s[i..][..|e|] == e;
      assert s[i + |e|..] == s[i..][|e|..] == EncodeAll(text[1..]);
      PointReadsBack(s, i, text[0]);
      EncodingIsValid(s, i + |e|, text[1..]);
    }
  }

  lemma {:induction false} ValidIsEncoding(s: seq<Byte>, i: nat) returns (text: seq<int>)
    requires i <= |s| && ValidFrom(s, i)
    ensures AllScalar(text) && EncodeAll(text) == s[i..]
    decreases |s| - i
  {
    hide Encode, Point;
    if i == |s| {
      text := [];
    } else {
      var p := Point(s, i).value;
      PointIsEncoded(s, i);
      var rest := ValidIsEncoding(s, i + p.1);
      text := [p.0] + rest;
      assert text[1..] == rest;
      assert s[i..] == s[i..i + p.1] + s[i + p.1..];
    }
  }

  /** The check accepts a byte string iff it is the shortest-form encoding of scalar values. */
  lemma ValidIffEncoding(s: seq<Byte>)
    ensures ValidFrom(s, 0) <==> IsEncoding(s)
  {
    assert s[0..] == s;
    if ValidFrom(s, 0) {
      var text := ValidIsEncoding(s, 0);
    }
    if IsEncoding(s) {
      var text: seq<int> :| AllScalar(text) && EncodeAll(text) == s;
      EncodingIsValid(s, 0, text);
    }
  }
}
