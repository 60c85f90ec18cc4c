/** PNG files as they are written, chunk by chunk (section 3 of RFC 2083), and which of them the decoder accepts. */
module PngFiles {
  import opened Bytes
  import opened PngChunks

  datatype Chunk = Chunk(kind: seq<Byte>, data: seq<Byte>)

  type Word = n: nat | n < 0x1_0000_0000

  /** Most significant byte first. */
  function Word4(n: Word): seq<Byte> {
    [n / 0x100_0000, n / 0x1_0000 % 256, n / 256 % 256, n % 256]
  }

  /** A chunk whose checksum, which is `sum`, is right. */
  predicate Written(crc: Crc, c: Chunk, sum: Word, bytes: seq<Byte>) {
    && |c.kind| == 4 && |c.data| <= MAX_PIXELS && crc(c.kind + c.data) == sum
    && bytes == Word4(|c.data|) + c.kind + c.data + Word4(sum)
  }

  lemma WordReadsBack(n: Word, bytes: seq<Byte>, at: nat)
    requires at + 4 <= |bytes| && bytes[at..at + 4] == Word4(n)
    ensures BE32(bytes, at) == n
  {
    assert bytes[at..at + 4][0] == bytes[at] && bytes[at..at + 4][1] == bytes[at + 1];
    assert bytes[at..at + 4][2] == bytes[at + 2] && bytes[at..at + 4][3] == bytes[at + 3];
  }

  lemma ChunkPlaces(crc: Crc, c: Chunk, sum: Word, w: seq<Byte>)
    requires Written(crc, c, sum, w)
    ensures var n := |c.data|;
            && |w| == 12 + n && w[..4] == Word4(n) && w[4..8] == c.kind && w[8..8 + n] == c.data
            && w[8 + n..] == Word4(sum) && w[4..8 + n] == c.kind + c.data
  {
    hide Word4;
    var n := |c.data|;
    var a, b := Word4(n), Word4(sum);
    assert |a| == 4 && |b| == 4 by { WordLength(n); WordLength(sum); }
    assert w == a + (c.kind + (c.data + b));
  }

  lemma WordLength(n: Word)
    ensures |Word4(n)| == 4
  {
  }

  lemma PartOfPart(s: seq<Byte>, at: nat, w: seq<Byte>, from: nat, to: nat)
    requires at + |w| <= |s| && s[at..at + |w|] == w && from <= to <= |w|
    ensures s[at + from..at + to] == w[from..to]
  {
    forall k | 0 <= k < to - from ensures s[at + from..at + to][k] == w[from..to][k] {
      assert s[at..at + |w|][from + k] == s[at + (from + k)];
    }
  }

  /** A chunk is read as it was written. */
  lemma ChunkReadsBack(bytes: seq<Byte>, at: nat, crc: Crc, c: Chunk, sum: Word, w: seq<Byte>)
    requires Written(crc, c, sum, w) && at + |w| <= |bytes| && bytes[at..at + |w|] == w
    ensures Fits(bytes, at) && Checked(bytes, crc, at) && Next(bytes, at) == at + |w|
    ensures Kind(bytes, at) == c.kind && Data(bytes, at) == c.data
  {
    hide Word4, BE32;
    var n := |c.data|;
    ChunkPlaces(crc, c, sum, w);
    PartOfPart(bytes, at, w, 0, 4);
    PartOfPart(bytes, at, w, 4, 8);
    PartOfPart(bytes, at, w, 8, 8 + n);
    PartOfPart(bytes, at, w, 4, 8 + n);
    PartOfPart(bytes, at, w, 8 + n, 12 + n);
    assert at + 0 == at && w[0..4] == w[..4] && w[8 + n..12 + n] == w[8 + n..];
    WordReadsBack(n, bytes, at);
    WordReadsBack(sum, bytes, at + 8 + n);
  }

  // --- Headers ---

  /** Samples of a pixel by colour type: grey, colour, grey with alpha, colour with alpha. */
  const COLORS: map<int, nat> := map[0 := 1, 2 := 3, 4 := 2, 6 := 4]

  /** The header of an image of this size: 8 bits a sample, no interlace. */
  predicate Heads(data: seq<Byte>, width: Word, height: Word, color: Byte) {
    && |data| == 13 && data[..4] == Word4(width) && data[4..8] == Word4(height)
    && data[8] == 8 && data[9] == color && data[12] == 0
  }

  /** A header is supported iff it is that of an image with some pixels, no more than 2^26 of them, in one of four
      colour types; and it is read as it was written. */
  lemma HeaderReadsBack(data: seq<Byte>)
    ensures Supported(data) <==>
            exists width: Word, height: Word, color: Byte ::
              Heads(data, width, height, color) && color in COLORS && 0 < width * height <= 67_108_864
    ensures forall width: Word, height: Word, color: Byte :: Heads(data, width, height, color) && color in COLORS ==>
              Describes(data, width, height, COLORS[color])
  {
    forall width: Word, height: Word, color: Byte | Heads(data, width, height, color) && color in COLORS
      ensures Describes(data, width, height, COLORS[color])
      ensures 0 < width * height <= 67_108_864 ==> Supported(data)
    {
      HeadRead(data, width, height, color);
    }
    if Supported(data) { HeadExists(data); }
  }

  lemma HeadRead(data: seq<Byte>, width: Word, height: Word, color: Byte)
    requires Heads(data, width, height, color) && color in COLORS
    ensures Describes(data, width, height, COLORS[color])
    ensures 0 < width * height <= 67_108_864 ==> Supported(data)
  {
    assert data[0..4] == data[..4];
    WordReadsBack(width, data, 0);
    WordReadsBack(height, data, 4);
    hide BE32, Word4;
    assert Channels(color) == COLORS[color];
    if 0 < width * height <= 67_108_864 { FactorsBounded(width, height); }
  }

  lemma FactorsBounded(a: nat, b: nat)
    requires a * b > 0
    ensures 0 < a <= a * b && 0 < b <= a * b
  {
    assert a > 0 && b > 0;
    assert a * b >= a * 1 && a * b >= 1 * b;
  }

  lemma WordExists(bytes: seq<Byte>, at: nat)
    requires at + 4 <= |bytes|
    ensures bytes[at..at + 4] == Word4(BE32(bytes, at))
  {
    var n := BE32(bytes, at);
    BytesOfWord(bytes[at], bytes[at + 1], bytes[at + 2], bytes[at + 3]);
  }

  lemma BytesOfWord(b0: int, b1: int, b2: int, b3: int)
    requires 0 <= b0 < 256 && 0 <= b1 < 256 && 0 <= b2 < 256 && 0 <= b3 < 256
    ensures var n := ((b0 * 256 + b1) * 256 + b2) * 256 + b3;
            n / 0x100_0000 == b0 && n / 0x1_0000 % 256 == b1 && n / 256 % 256 == b2 && n % 256 == b3
  {
    var n2 := b0 * 256 + b1;
    var n3 := n2 * 256 + b2;
    assert (n3 * 256 + b3) / 256 == n3 && n3 / 256 == n2 && n2 / 256 == b0;
    Steps(n3 * 256 + b3);
  }

  lemma Steps(n: nat)
    ensures n / 0x1_0000 == n / 256 / 256 && n / 0x100_0000 == n / 256 / 256 / 256
  {
  }

  lemma HeadExists(data: seq<Byte>)
    requires Supported(data)
    ensures Heads(data, BE32(data, 0), BE32(data, 4), data[9]) && data[9] in COLORS
    ensures 0 < BE32(data, 0) * BE32(data, 4) <= 67_108_864
  {
    WordExists(data, 0);
    WordExists(data, 4);
    hide BE32, Word4;
    assert data[0..4] == data[..4];
  }

  // --- Whole files ---

  /** The chunks stand one behind the other from `at` on. */
  ghost predicate Stand(bytes: seq<Byte>, at: nat, crc: Crc, cs: seq<Chunk>)
    requires at <= |bytes|
    decreases |cs|
  {
    cs != [] ==> exists sum: Word, w ::
      && Written(crc, cs[0], sum, w) && at + |w| <= |bytes| && bytes[at..at + |w|] == w
      && Stand(bytes, at + |w|, crc, cs[1..])
  }

  predicate Ancillary(kind: seq<Byte>) {
    |kind| == 4 && kind[0] / 32 % 2 == 1
  }

  /** The chunks that `IEND` ends, seen from behind a beginning that had a header, or image data, or not. */
  ghost predicate InOrder(cs: seq<Chunk>, header: bool, image: bool)
    requires cs != []
  {
    var last := |cs| - 1;
    && (header || exists i :: 0 <= i < last && cs[i].kind == IHDR)
    && (image || exists i :: 0 <= i < last && cs[i].kind == IDAT)
    && (forall i :: 0 <= i < last && cs[i].kind == IHDR ==>
          !header && Supported(cs[i].data) && forall j :: 0 <= j < i ==> cs[j].kind != IHDR)
    && (forall i :: 0 <= i < last && cs[i].kind == IDAT ==> header || exists j :: 0 <= j < i && cs[j].kind == IHDR)
    && (forall i :: 0 <= i < last ==> cs[i].kind == IHDR || cs[i].kind == IDAT || Ancillary(cs[i].kind))
  }

  ghost predicate EndsOnce(cs: seq<Chunk>) {
    cs != [] && cs[|cs| - 1].kind == IEND && forall i :: 0 <= i < |cs| - 1 ==> cs[i].kind != IEND
  }

  lemma OneInOrder(cs: seq<Chunk>, header: bool, image: bool)
    requires |cs| == 1
    ensures InOrder(cs, header, image) <==> header && image
  {
  }

  /** How the first chunk bears on the order of all. */
  lemma FirstInOrder(cs: seq<Chunk>, header: bool, image: bool)
    requires |cs| > 1
    ensures cs[0].kind == IHDR ==>
              (InOrder(cs, header, image) <==> !header && Supported(cs[0].data) && InOrder(cs[1..], true, image))
    ensures cs[0].kind == IDAT ==>
              (InOrder(cs, header, image) <==> header && InOrder(cs[1..], header, true))
    ensures cs[0].kind != IHDR && cs[0].kind != IDAT ==>
              (InOrder(cs, header, image) <==> Ancillary(cs[0].kind) && InOrder(cs[1..], header, image))
  {
    hide Supported, Ancillary;
    var rest := cs[1..];
    assert forall i :: 0 <= i < |rest| ==> rest[i] == cs[i + 1];
    assert forall i :: 0 < i < |cs| ==> cs[i] == rest[i - 1];
  }

  /** The image data of the chunks, joined. */
  function ImageOf(cs: seq<Chunk>): seq<Byte> {
    if cs == [] then [] else (if cs[0].kind == IDAT then cs[0].data else []) + ImageOf(cs[1..])
  }

  /** One chunk on. */
  lemma FirstStands(bytes: seq<Byte>, at: nat, crc: Crc, cs: seq<Chunk>) returns (next: nat)
    requires at <= |bytes| && Stand(bytes, at, crc, cs) && cs != []
    ensures Fits(bytes, at) && Checked(bytes, crc, at) && next == Next(bytes, at) <= |bytes| && next > at
    ensures Kind(bytes, at) == cs[0].kind && Data(bytes, at) == cs[0].data && |cs[0].kind| == 4
    ensures Stand(bytes, next, crc, cs[1..])
  {
    hide BE32, Checked, Fits, Kind, Data, Next, Word4;
    var sum: Word, w :| Written(crc, cs[0], sum, w) && at + |w| <= |bytes| && bytes[at..at + |w|] == w
                        && Stand(bytes, at + |w|, crc, cs[1..]);
    ChunkReadsBack(bytes, at, crc, cs[0], sum, w);
    next := at + |w|;
  }

  /** One unfolding of `Legal` at a chunk. */
  lemma FirstLegal(bytes: seq<Byte>, crc: Crc, at: nat, header: bool, image: bool, c: Chunk)
    requires Fits(bytes, at) && Checked(bytes, crc, at) && |c.kind| == 4
    requires Kind(bytes, at) == c.kind && Data(bytes, at) == c.data
    ensures var next := Next(bytes, at);
            && (c.kind == IEND ==> (Legal(bytes, crc, at, header, image) <==> header && image))
            && (c.kind == IHDR ==> (Legal(bytes, crc, at, header, image)
                                    <==> !header && Supported(c.data) && Legal(bytes, crc, next, true, image)))
            && (c.kind == IDAT ==> (Legal(bytes, crc, at, header, image)
                                    <==> header && Legal(bytes, crc, next, header, true)))
            && (c.kind != IEND && c.kind != IHDR && c.kind != IDAT ==>
                  (Legal(bytes, crc, at, header, image)
                   <==> Ancillary(c.kind) && Legal(bytes, crc, next, header, image)))
  {
    NamesDiffer();
    hide BE32, Checked, Fits, Kind, Data, Next, Supported;
  }

  lemma {:induction false} ChunksLegal(bytes: seq<Byte>, at: nat, crc: Crc, cs: seq<Chunk>, header: bool, image: bool)
    requires at <= |bytes| && Stand(bytes, at, crc, cs) && EndsOnce(cs)
    ensures Legal(bytes, crc, at, header, image) <==> InOrder(cs, header, image)
    ensures ImageData(bytes, at) == ImageOf(cs)
    decreases |cs|
  {
    hide *;
    EndsLast(cs);
    var next := FirstStands(bytes, at, crc, cs);
    FirstLegal(bytes, crc, at, header, image, cs[0]);
    ImageStep(bytes, at);
    FirstImage(cs);
    NamesDiffer();
    if |cs| == 1 {
      OneInOrder(cs, header, image);
      FirstImage(cs[1..]);
      assert cs[1..] == [];
    } else {
      RestEnds(cs);
      FirstInOrder(cs, header, image);
      ChunksLegal(bytes, next, crc, cs[1..], true, image);
      ChunksLegal(bytes, next, crc, cs[1..], header, true);
      ChunksLegal(bytes, next, crc, cs[1..], header, image);
    }
  }

  lemma EndsLast(cs: seq<Chunk>)
    requires EndsOnce(cs)
    ensures cs != [] && (|cs| == 1 ==> cs[0].kind == IEND)
  {
  }

  lemma NamesDiffer()
    ensures IHDR != IDAT && IHDR != IEND && IDAT != IEND && IHDR[0] / 32 % 2 == 0 && IDAT[0] / 32 % 2 == 0
  {
    assert IHDR[1] == 0x48 && IDAT[1] == 0x44 && IEND[1] == 0x45;
  }

  lemma RestEnds(cs: seq<Chunk>)
    requires EndsOnce(cs) && |cs| > 1
    ensures EndsOnce(cs[1..]) && cs[0].kind != IEND
  {
  }

  lemma FirstImage(cs: seq<Chunk>)
    ensures cs == [] ==> ImageOf(cs) == []
    ensures cs != [] && cs[0].kind == IDAT ==> ImageOf(cs) == cs[0].data + ImageOf(cs[1..])
    ensures cs != [] && cs[0].kind != IDAT ==> ImageOf(cs) == ImageOf(cs[1..])
  {
    if cs != [] { assert [] + ImageOf(cs[1..]) == ImageOf(cs[1..]); }
  }

  /** Of the files written chunk by chunk up to the end chunk, whatever follows it, exactly those are accepted that have
      one header, a supported one and before all image data, some image data, and no other critical chunk; and their
      image data is that of their chunks. */
  lemma FilesAccepted(bytes: seq<Byte>, crc: Crc, cs: seq<Chunk>)
    requires SIGNATURE <= bytes && Stand(bytes, 8, crc, cs) && EndsOnce(cs)
    ensures Verdict(bytes, crc, 8, false, false) == Accepted <==> InOrder(cs, false, false)
    ensures ImageData(bytes, 8) == ImageOf(cs)
  {
    hide *;
    AcceptedIffLegal(bytes, crc, 8, false, false);
    assert 8 <= |bytes| by { SignatureLength(bytes); }
    ChunksLegal(bytes, 8, crc, cs, false, false);
  }

  lemma SignatureLength(bytes: seq<Byte>)
    requires SIGNATURE <= bytes
    ensures 8 <= |bytes|
  {
  }
}
