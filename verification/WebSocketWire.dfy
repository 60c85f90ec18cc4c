/** Frames on the wire (sections 5.2 and 5.5 of RFC 6455), as a server sends them: unmasked. */
module WebSocketWire {
  import opened Bytes
  import opened Options

  const CONTINUATION: nat := 0
  const TEXT: nat := 1
  const BINARY: nat := 2
  const CLOSE: nat := 8
  const PING: nat := 9
  const PONG: nat := 10
  const CONTROL_MAX: nat := 125

  /** `form` is the length form on the wire: 7, 16 or 64 bits. */
  datatype Frame = Frame(fin: bool, opcode: nat, form: nat, payload: seq<Byte>)

  datatype Head = Head(fin: bool, opcode: nat, masked: bool, length: nat, end: nat)

  predicate IsControl(opcode: nat) {
    opcode / 8 % 2 == 1
  }

  // --- Big-endian numbers ---

  function Pow256(k: nat): nat {
    if k == 0 then 1 else 256 * Pow256(k - 1)
  }

  function ToBytes(n: nat, k: nat): (s: seq<Byte>)
    ensures |s| == k
  {
    if k == 0 then [] else ToBytes(n / 256, k - 1) + [n % 256]
  }

  function FromBytes(s: seq<Byte>): nat {
    if s == [] then 0 else FromBytes(s[..|s| - 1]) * 256 + s[|s| - 1]
  }

  lemma {:induction false} NumberReadsBack(n: nat, k: nat)
    requires n < Pow256(k)
    ensures FromBytes(ToBytes(n, k)) == n
  {
    if k > 0 {
      NumberReadsBack(n / 256, k - 1);
      assert ToBytes(n, k)[..k - 1] == ToBytes(n / 256, k - 1);
    }
  }

  // --- Encoding ---

  predicate Encodable(f: Frame) {
    && f.opcode < 16
    && match f.form
       case 0 => |f.payload| < 126
       case 1 => |f.payload| < 0x1_0000
       case 2 => |f.payload| < 0x8000_0000_0000_0000
       case _ => false
  }

  function LengthBytes(f: Frame): seq<Byte>
    requires Encodable(f)
  {
    if f.form == 0 then [|f.payload|]
    else if f.form == 1 then [126] + ToBytes(|f.payload|, 2)
    else [127] + ToBytes(|f.payload|, 8)
  }

  function EncodeFrame(f: Frame): (s: seq<Byte>)
    requires Encodable(f)
    ensures |s| >= 2 + |f.payload|
  {
    [(if f.fin then 128 else 0) + f.opcode] + LengthBytes(f) + f.payload
  }

  // --- Reading ---

  /** A frame header, unless it is cut off, has a reserved bit, or a 64-bit length with its high bit. */
  function ReadHead(input: seq<Byte>, at: nat): (r: Option<Head>)
    ensures r.Some? ==> at + 2 <= r.value.end <= |input| && r.value.opcode < 16
  {
    if at + 2 > |input| || input[at] / 16 % 8 != 0 then None
    else
      var fin, opcode, masked, short := input[at] >= 128, input[at] % 16, input[at + 1] >= 128, input[at + 1] % 128;
      if short < 126 then Some(Head(fin, opcode, masked, short, at + 2))
      else if short == 126 then
        if at + 4 > |input| then None else Some(Head(fin, opcode, masked, FromBytes(input[at + 2..at + 4]), at + 4))
      else if at + 10 > |input| || input[at + 2] >= 128 then None
      else Some(Head(fin, opcode, masked, FromBytes(input[at + 2..at + 10]), at + 10))
  }

  /** The wire rules of one frame: unmasked, within the cap, and control frames final and short. */
  predicate Lawful(h: Head, limit: nat) {
    && !h.masked && h.length <= limit
    && (IsControl(h.opcode) ==> h.fin && h.length <= CONTROL_MAX)
  }

  /** A whole lawful frame and where the next one starts. */
  function ReadFrame(input: seq<Byte>, at: nat, limit: nat): (r: Option<(Frame, nat)>)
    ensures r.Some? ==> at + 2 + |r.value.0.payload| <= r.value.1 <= |input|
  {
    match ReadHead(input, at)
    case None => None
    case Some(h) =>
      if !Lawful(h, limit) || h.end + h.length > |input| then None
      else Some((Frame(h.fin, h.opcode, 0, input[h.end..h.end + h.length]), h.end + h.length))
  }

  // --- The wire rules on the bytes themselves ---

  /** Bytes of the header, by its 7-bit length. */
  function HeadSize(input: seq<Byte>, at: nat): nat
    requires at + 2 <= |input|
  {
    if input[at + 1] % 128 == 127 then 10 else if input[at + 1] % 128 == 126 then 4 else 2
  }

  function PayloadLength(input: seq<Byte>, at: nat): nat
    requires at + 2 <= |input| && at + HeadSize(input, at) <= |input|
  {
    if HeadSize(input, at) == 2 then input[at + 1] % 128 else FromBytes(input[at + 2..at + HeadSize(input, at)])
  }

  /** The ways the next frame can break the rules for single frames: cut off in its first two bytes, a
      reserved bit, cut off in its length, a 64-bit length with its high bit, masked, longer than the cap, a
      control frame that is not final or too long, cut off in its payload. */
  predicate BreaksWire(input: seq<Byte>, at: nat, limit: nat) {
    || |input| < at + 2
    || input[at] / 16 % 8 != 0
    || |input| < at + HeadSize(input, at)
    || (HeadSize(input, at) == 10 && input[at + 2] >= 128)
    || input[at + 1] >= 128
    || PayloadLength(input, at) > limit
    || (IsControl(input[at] % 16) && (input[at] < 128 || PayloadLength(input, at) > CONTROL_MAX))
    || |input| < at + HeadSize(input, at) + PayloadLength(input, at)
  }

  /** The next frame, if it keeps to the rules for single frames. */
  function FrameAt(input: seq<Byte>, at: nat, limit: nat): Frame
    requires !BreaksWire(input, at, limit)
  {
    var start := at + HeadSize(input, at);
    Frame(input[at] >= 128, input[at] % 16, 0, input[start..start + PayloadLength(input, at)])
  }

  /** A frame is read iff it keeps to the rules. */
  lemma ReadsIffLawful(input: seq<Byte>, at: nat, limit: nat)
    ensures ReadFrame(input, at, limit).None? <==> BreaksWire(input, at, limit)
    ensures !BreaksWire(input, at, limit) ==>
              ReadFrame(input, at, limit)
              == Some((FrameAt(input, at, limit), at + HeadSize(input, at) + PayloadLength(input, at)))
  {
    hide FromBytes;
  }

  predicate LawfulFrame(f: Frame, limit: nat) {
    |f.payload| <= limit && (IsControl(f.opcode) ==> f.fin && |f.payload| <= CONTROL_MAX)
  }

  lemma HeadReadsBack(input: seq<Byte>, at: nat, f: Frame)
    requires Encodable(f) && at + |EncodeFrame(f)| <= |input| && input[at..at + |EncodeFrame(f)|] == EncodeFrame(f)
    ensures ReadHead(input, at) == Some(Head(f.fin, f.opcode, false, |f.payload|, at + |EncodeFrame(f)| - |f.payload|))
  {
    hide *;
    var e, n := EncodeFrame(f), |f.payload|;
    EncodedParts(f);
    assert input[at] == input[at..at + |e|][0] == e[0];
    assert input[at + 1] == input[at..at + |e|][1] == e[1];
    if f.form == 1 {
      SliceOfSlice(input, at, |e|, 2, 4);
      Pow256Twice();
      NumberReadsBack(n, 2);
    } else if f.form == 2 {
      SliceOfSlice(input, at, |e|, 2, 10);
      EightBytes(n);
      assert input[at + 2] == input[at + 2..at + 10][0];
    }
    HeadFrom(input, at, f, |e| - n);
  }

  lemma Pow256Twice()
    ensures Pow256(2) == 0x1_0000
  {
  }

  /** A header whose bytes are as encoded. */
  lemma HeadFrom(input: seq<Byte>, at: nat, f: Frame, size: nat)
    requires at + size <= |input| && f.opcode < 16 && size == (if f.form == 0 then 2 else if f.form == 1 then 4 else 10)
    requires input[at] == (if f.fin then 128 else 0) + f.opcode
    requires input[at + 1] == (if f.form == 0 then |f.payload| else if f.form == 1 then 126 else 127)
    requires f.form == 0 ==> |f.payload| < 126
    requires f.form == 1 ==> FromBytes(input[at + 2..at + 4]) == |f.payload|
    requires f.form != 0 && f.form != 1 ==> input[at + 2] < 128 && FromBytes(input[at + 2..at + 10]) == |f.payload|
    ensures ReadHead(input, at) == Some(Head(f.fin, f.opcode, false, |f.payload|, at + size))
  {
    hide FromBytes;
  }

  lemma SliceOfSlice(s: seq<Byte>, at: nat, n: nat, a: nat, b: nat)
    requires at + n <= |s| && a <= b <= n
    ensures s[at + a..at + b] == s[at..at + n][a..b]
  {
    var t := s[at..at + n];
    forall k | 0 <= k < b - a ensures s[at + a..at + b][k] == t[a..b][k] {
      assert t[a + k] == s[at + (a + k)];
    }
  }

  lemma EncodedParts(f: Frame)
    requires Encodable(f)
    ensures f.opcode < 16 && f.form <= 2 && (f.form == 0 ==> |f.payload| < 126)
            && (f.form == 1 ==> |f.payload| < 0x1_0000)
    ensures f.form == 2 ==> |f.payload| < 0x8000_0000_0000_0000
    ensures |EncodeFrame(f)| == |f.payload| + (if f.form == 0 then 2 else if f.form == 1 then 4 else 10)
    ensures EncodeFrame(f)[0] == (if f.fin then 128 else 0) + f.opcode
    ensures EncodeFrame(f)[1] == (if f.form == 0 then |f.payload| else if f.form == 1 then 126 else 127)
    ensures f.form == 1 ==> EncodeFrame(f)[2..4] == ToBytes(|f.payload|, 2)
    ensures f.form == 2 ==> EncodeFrame(f)[2..10] == ToBytes(|f.payload|, 8)
  {
    hide ToBytes;
  }

  /** The high bit of the first of eight bytes tells numbers from 2^63 on. */
  lemma EightBytes(n: nat)
    requires n < 0x8000_0000_0000_0000
    ensures ToBytes(n, 8)[0] < 128 && FromBytes(ToBytes(n, 8)) == n
  {
    assert Pow256(8) == 0x1_0000_0000_0000_0000;
    NumberReadsBack(n, 8);
    FirstByte(n, 8);
  }

  lemma {:induction false} FirstByte(n: nat, k: nat)
    requires k > 0 && n < 128 * Pow256(k - 1)
    ensures ToBytes(n, k)[0] < 128
  {
    if k > 1 { FirstByte(n / 256, k - 1); }
  }

  /** An encoded lawful frame is read back, whichever length form it uses. */
  lemma FrameReadsBack(input: seq<Byte>, at: nat, f: Frame, limit: nat)
    requires Encodable(f) && LawfulFrame(f, limit)
    requires at + |EncodeFrame(f)| <= |input| && input[at..at + |EncodeFrame(f)|] == EncodeFrame(f)
    ensures ReadFrame(input, at, limit) == Some((f.(form := 0), at + |EncodeFrame(f)|))
  {
    hide ReadHead, LengthBytes;
    HeadReadsBack(input, at, f);
    var e := EncodeFrame(f);
    assert input[at + |e| - |f.payload|..at + |e|] == input[at..at + |e|][|e| - |f.payload|..] == f.payload;
  }
}
