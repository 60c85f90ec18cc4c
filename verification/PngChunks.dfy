/** The two passes over the chunks of a PNG file: the first checks every chunk, the second relies on that. */
module PngChunks {
  import opened Bytes

  const MAX_PIXELS: nat := 67_108_864
  const SIGNATURE: seq<Byte> := [0x89, 0x50, 0x4E, 0x47, 0x0D, 0x0A, 0x1A, 0x0A]
  const IHDR: seq<Byte> := [0x49, 0x48, 0x44, 0x52]
  const IDAT: seq<Byte> := [0x49, 0x44, 0x41, 0x54]
  const IEND: seq<Byte> := [0x49, 0x45, 0x4E, 0x44]

  datatype Code = Accepted | Invalid | Unsupported | Truncated

  /** The checksum of a chunk's type and data, whatever it is. */
  type Crc = seq<Byte> -> nat

  function BE32(bytes: seq<Byte>, at: nat): (n: nat)
    requires at + 4 <= |bytes|
    ensures n < 0x1_0000_0000
  {
    (((bytes[at] as int) * 256 + bytes[at + 1]) * 256 + bytes[at + 2]) * 256 + bytes[at + 3]
  }

  function Channels(colorType: Byte): nat {
    if colorType == 0 then 1 else if colorType == 2 then 3 else if colorType == 4 then 2 else if colorType == 6 then 4
       else 0
  }

  /** A chunk that lies within the file: 12 bytes around its data. */
  predicate Fits(bytes: seq<Byte>, at: nat) {
    at + 12 <= |bytes| && BE32(bytes, at) <= MAX_PIXELS && at + 12 + BE32(bytes, at) <= |bytes|
  }

  function Kind(bytes: seq<Byte>, at: nat): seq<Byte>
    requires Fits(bytes, at)
  {
    bytes[at + 4..at + 8]
  }

  function Data(bytes: seq<Byte>, at: nat): seq<Byte>
    requires Fits(bytes, at)
  {
    bytes[at + 8..at + 8 + BE32(bytes, at)]
  }

  function Next(bytes: seq<Byte>, at: nat): (next: nat)
    requires Fits(bytes, at)
    ensures at < next <= |bytes|
  {
    at + 12 + BE32(bytes, at)
  }

  predicate Checked(bytes: seq<Byte>, crc: Crc, at: nat)
    requires Fits(bytes, at)
  {
    crc(bytes[at + 4..at + 8 + BE32(bytes, at)]) == BE32(bytes, at + 8 + BE32(bytes, at))
  }

  /** A header the decoder supports: sizes within bounds, 8 bits, a known colour type, no interlace. */
  predicate Supported(data: seq<Byte>) {
    && |data| == 13 && 0 < BE32(data, 0) <= MAX_PIXELS && 0 < BE32(data, 4) <= MAX_PIXELS
    && BE32(data, 0) * BE32(data, 4) <= MAX_PIXELS
    && data[8] == 8 && Channels(data[9]) != 0 && data[12] == 0
  }

  /** The chunks from `at` to the end chunk: in bounds, with their checksums, one header before any image
      data, some image data, and nothing critical that is unknown. */
  predicate Legal(bytes: seq<Byte>, crc: Crc, at: nat, header: bool, image: bool)
    decreases |bytes| - at
  {
    && Fits(bytes, at) && Checked(bytes, crc, at)
    && var kind := Kind(bytes, at);
       if kind == IEND then header && image
       else if kind == IHDR then !header && Supported(Data(bytes, at))
               && Legal(bytes, crc, Next(bytes, at), true, image)
       else if kind == IDAT then header && Legal(bytes, crc, Next(bytes, at), header, true)
       else kind[0] / 32 % 2 == 1 && Legal(bytes, crc, Next(bytes, at), header, image)
  }

  /** What becomes of a header: its size and geometry are checked before what the decoder supports. */
  function HeaderCode(data: seq<Byte>): Code {
    if |data| != 13 || BE32(data, 0) == 0 || BE32(data, 4) == 0 || BE32(data, 0) > MAX_PIXELS
       || BE32(data, 4) > MAX_PIXELS
       || BE32(data, 0) * BE32(data, 4) > MAX_PIXELS then Invalid
    else if data[8] != 8 || Channels(data[9]) == 0 || data[12] != 0 then Unsupported
    else Accepted
  }

  /** What becomes of the chunks from `at` on; the first that breaks a rule decides. */
  function Verdict(bytes: seq<Byte>, crc: Crc, at: nat, header: bool, image: bool): Code
    decreases |bytes| - at
  {
    if !Fits(bytes, at) then Truncated
    else if !Checked(bytes, crc, at) then Invalid
    else
      var kind := Kind(bytes, at);
      if kind == IEND then (if header && image then Accepted else Truncated)
      else if kind == IHDR then
        if header then Invalid
        else if HeaderCode(Data(bytes, at)) != Accepted then HeaderCode(Data(bytes, at))
        else Verdict(bytes, crc, Next(bytes, at), true, image)
      else if kind == IDAT then (if header then Verdict(bytes, crc, Next(bytes, at), header, true) else Invalid)
      else if kind[0] / 32 % 2 == 0 then Unsupported
      else Verdict(bytes, crc, Next(bytes, at), header, image)
  }

  lemma HeaderAccepted(data: seq<Byte>)
    ensures HeaderCode(data) == Accepted <==> Supported(data)
  {
    hide BE32;
  }

  /** Exactly the legal sequences are accepted. */
  lemma {:induction false} AcceptedIffLegal(bytes: seq<Byte>, crc: Crc, at: nat, header: bool, image: bool)
    ensures Verdict(bytes, crc, at, header, image) == Accepted <==> Legal(bytes, crc, at, header, image)
    decreases |bytes| - at
  {
    hide HeaderCode, Supported, Checked, BE32;
    if Fits(bytes, at) {
      HeaderAccepted(Data(bytes, at));
      AcceptedIffLegal(bytes, crc, Next(bytes, at), true, image);
      AcceptedIffLegal(bytes, crc, Next(bytes, at), header, true);
      AcceptedIffLegal(bytes, crc, Next(bytes, at), header, image);
    }
  }

  /** The data of the first header from `at` on, if there is one. */
  function HeaderData(bytes: seq<Byte>, at: nat): seq<Byte>
    decreases |bytes| - at
  {
    if !Fits(bytes, at) then []
    else if Kind(bytes, at) == IHDR then Data(bytes, at)
    else HeaderData(bytes, Next(bytes, at))
  }

  /** The image data from `at` to the end chunk. */
  function ImageData(bytes: seq<Byte>, at: nat): seq<Byte>
    decreases |bytes| - at
  {
    if !Fits(bytes, at) || Kind(bytes, at) == IEND then []
    else (if Kind(bytes, at) == IDAT then Data(bytes, at) else []) + ImageData(bytes, Next(bytes, at))
  }

  lemma LegalStep(bytes: seq<Byte>, crc: Crc, at: nat, header: bool, image: bool)
    requires Legal(bytes, crc, at, header, image) && Kind(bytes, at) != IEND
    ensures var kind := Kind(bytes, at);
            Legal(bytes, crc, Next(bytes, at), header || kind == IHDR, image || kind == IDAT)
  {
  }

  lemma ImageStep(bytes: seq<Byte>, at: nat)
    requires Fits(bytes, at)
    ensures Kind(bytes, at) == IEND ==> ImageData(bytes, at) == []
    ensures Kind(bytes, at) != IEND && Kind(bytes, at) == IDAT ==>
              ImageData(bytes, at) == Data(bytes, at) + ImageData(bytes, Next(bytes, at))
    ensures Kind(bytes, at) != IEND && Kind(bytes, at) != IDAT ==>
              ImageData(bytes, at) == ImageData(bytes, Next(bytes, at))
  {
    if Kind(bytes, at) != IEND && Kind(bytes, at) != IDAT {
      assert [] + ImageData(bytes, Next(bytes, at)) == ImageData(bytes, Next(bytes, at));
    }
  }

  /** The sizes and the channels a header gives. */
  predicate Describes(data: seq<Byte>, width: nat, height: nat, channels: nat) {
    |data| == 13 && width == BE32(data, 0) && height == BE32(data, 4) && channels == Channels(data[9])
  }

  /** The header, as far as the decoder supports it. */
  method ReadHeader(bytes: seq<Byte>, at: nat) returns (code: Code, width: nat, height: nat, channels: nat)
    requires Fits(bytes, at)
    ensures code == HeaderCode(Data(bytes, at))
    ensures code == Accepted ==> Describes(Data(bytes, at), width, height, channels)
  {
    width, height, channels := 0, 0, 0;
    ghost var data := Data(bytes, at);
    if BE32(bytes, at) != 13 { return Invalid, 0, 0, 0; }
    width, height := BE32(bytes, at + 8), BE32(bytes, at + 12);
    assert width == BE32(data, 0) && height == BE32(data, 4);
    assert bytes[at + 16] == data[8] && bytes[at + 17] == data[9] && bytes[at + 20] == data[12];
    hide BE32, Data;
    if width == 0 || height == 0 || width > MAX_PIXELS || height > MAX_PIXELS || width * height > MAX_PIXELS {
      return Invalid, 0, 0, 0;
    }
    if bytes[at + 16] != 8 || Channels(bytes[at + 17]) == 0 || bytes[at + 20] != 0 { return Unsupported, 0, 0, 0; }
    channels := Channels(bytes[at + 17]);
    code := Accepted;
  }

  /** Checks every chunk up to the end chunk and sizes the image data. */
  method Survey(bytes: seq<Byte>, crc: Crc) returns (code: Code, width: nat, height: nat, channels: nat, total: nat)
    requires SIGNATURE <= bytes
    ensures code == Verdict(bytes, crc, 8, false, false) && (code == Accepted <==> Legal(bytes, crc, 8, false, false))
    ensures code == Accepted ==> total == |ImageData(bytes, 8)| && 0 < width * height <= MAX_PIXELS && 0 < channels <= 4
    ensures code == Accepted ==> Describes(HeaderData(bytes, 8), width, height, channels)
  {
    hide HeaderCode, Supported, BE32, ImageData, Checked, Legal, Describes, HeaderData;
    AcceptedIffLegal(bytes, crc, 8, false, false);
    width, height, channels, total := 0, 0, 0, 0;
    var header, image, at := false, false, 8;
    while at + 12 <= |bytes|
      invariant 8 <= at <= |bytes| && Verdict(bytes, crc, at, header, image) == Verdict(bytes, crc, 8, false, false)
      invariant if header
                then Describes(HeaderData(bytes, 8), width, height, channels)
                else HeaderData(bytes, at) == HeaderData(bytes, 8)
      invariant total + |ImageData(bytes, at)| == |ImageData(bytes, 8)|
      invariant header ==> 0 < width * height <= MAX_PIXELS && 0 < channels <= 4
      decreases |bytes| - at
    {
      if BE32(bytes, at) > MAX_PIXELS || at + 12 + BE32(bytes, at) > |bytes| { return Truncated, 0, 0, 0, 0; }
      if !Checked(bytes, crc, at) { return Invalid, 0, 0, 0, 0; }
      ImageStep(bytes, at);
      HeaderStep(bytes, at);
      var kind := Kind(bytes, at);
      if kind == IHDR {
        if header { return Invalid, 0, 0, 0, 0; }
        code, width, height, channels := ReadHeader(bytes, at);
        if code != Accepted { return; }
        HeaderAccepted(Data(bytes, at));
        HeaderBounds(Data(bytes, at));
        header := true;
      } else if kind == IDAT {
        if !header { return Invalid, 0, 0, 0, 0; }
        total := total + BE32(bytes, at);
        image := true;
      } else if kind == IEND {
        code := if header && image then Accepted else Truncated;
        return;
      } else if kind[0] / 32 % 2 == 0 {
        return Unsupported, 0, 0, 0, 0;
      }
      at := at + 12 + BE32(bytes, at);
    }
    code := Truncated;
  }

  lemma HeaderStep(bytes: seq<Byte>, at: nat)
    requires Fits(bytes, at)
    ensures HeaderData(bytes, at) == if Kind(bytes, at) == IHDR
                                     then Data(bytes, at)
                                     else HeaderData(bytes, Next(bytes, at))
  {
  }

  lemma HeaderBounds(data: seq<Byte>)
    requires Supported(data)
    ensures 0 < BE32(data, 0) * BE32(data, 4) <= MAX_PIXELS && 0 < Channels(data[9]) <= 4
    ensures forall w, h, c :: Describes(data, w, h, c) ==>
              w == BE32(data, 0) && h == BE32(data, 4) && c == Channels(data[9])
  {
    hide BE32;
  }

  /** Gathers the image data of a surveyed file: no read leaves the file, no write leaves the buffer, and
      the buffer ends up holding all of it. */
  method Gather(bytes: seq<Byte>, total: nat, compressed: array<Byte>, ghost crc: Crc)
    requires SIGNATURE <= bytes && Legal(bytes, crc, 8, false, false)
    requires total == |ImageData(bytes, 8)| && compressed.Length >= total
    modifies compressed
    ensures compressed[..total] == ImageData(bytes, 8)
  {
    hide Legal, BE32, ImageData, Checked, Kind;
    var gathered: nat, at: nat := 0, 8;
    ghost var header, image, all := false, false, ImageData(bytes, 8);
    assert [] + all == all;
    while at + 12 <= |bytes| && gathered < total
      invariant 8 <= at <= |bytes| && gathered <= total && Legal(bytes, crc, at, header, image)
      invariant compressed[..gathered] + ImageData(bytes, at) == all
      decreases |bytes| - at
    {
      LegalFits(bytes, crc, at, header, image);
      ImageStep(bytes, at);
      var kind, n := Kind(bytes, at), BE32(bytes, at);
      if kind == IDAT {
        ghost var kept, rest := compressed[..gathered], ImageData(bytes, Next(bytes, at));
        Room(kept, Data(bytes, at), rest, all);
        forall i | 0 <= i < n { compressed[gathered + i] := bytes[at + 8 + i]; }
        assert compressed[..gathered + n] == kept + Data(bytes, at);
        gathered := gathered + n;
      } else if kind == IEND {
        break;
      }
      LegalStep(bytes, crc, at, header, image);
      header, image := header || kind == IHDR, image || kind == IDAT;
      at := at + 12 + n;
    }
    LegalFits(bytes, crc, at, header, image);
    ImageStep(bytes, at);
    assert |compressed[..gathered] + ImageData(bytes, at)| == total;
    assert compressed[..gathered] + [] == compressed[..gathered];
  }

  lemma LegalFits(bytes: seq<Byte>, crc: Crc, at: nat, header: bool, image: bool)
    requires Legal(bytes, crc, at, header, image)
    ensures Fits(bytes, at)
  {
  }

  lemma Room(kept: seq<Byte>, data: seq<Byte>, rest: seq<Byte>, all: seq<Byte>)
    requires kept + (data + rest) == all
    ensures |kept| + |data| <= |all| && (kept + data) + rest == all
  {
  }
}
