/** Every byte stream is a stream of frames as a sender would cut them, up to its end. What arrives is therefore
    known for all bytes: the whole messages, and then nothing, one error, or the close. */
module WebSocketStreams {
  import opened Bytes
  import opened Utf8
  import opened WebSocket
  import opened WebSocketWire

  // --- A frame as it stood on the wire ---

  lemma {:induction false} BytesReadBack(s: seq<Byte>)
    ensures FromBytes(s) < Pow256(|s|) && ToBytes(FromBytes(s), |s|) == s
  {
    if s != [] { BytesReadBack(s[..|s| - 1]); }
  }

  lemma {:induction false} FirstByteBounds(s: seq<Byte>)
    requires s != []
    ensures FromBytes(s) < (s[0] + 1) * Pow256(|s| - 1)
  {
    var init := s[..|s| - 1];
    if init != [] {
      FirstByteBounds(init);
      assert 256 * ((s[0] + 1) * Pow256(|init| - 1)) == (s[0] + 1) * Pow256(|init|);
    } else {
      assert FromBytes(init) == 0;
    }
  }

  function FormAt(input: seq<Byte>, at: nat): nat
    requires at + 2 <= |input|
  {
    if HeadSize(input, at) == 2 then 0 else if HeadSize(input, at) == 4 then 1 else 2
  }

  function EndAt(input: seq<Byte>, at: nat, limit: nat): (end: nat)
    requires !BreaksWire(input, at, limit)
    ensures at + 2 <= end <= |input|
  {
    at + HeadSize(input, at) + PayloadLength(input, at)
  }

  /** The next frame with the length form it has on the wire. */
  function WireFrame(input: seq<Byte>, at: nat, limit: nat): Frame
    requires !BreaksWire(input, at, limit)
  {
    FrameAt(input, at, limit).(form := FormAt(input, at))
  }

  lemma LongLength(input: seq<Byte>, at: nat)
    requires at + 10 <= |input| && input[at + 2] < 128
    ensures FromBytes(input[at + 2..at + 10]) < 0x8000_0000_0000_0000
    ensures ToBytes(FromBytes(input[at + 2..at + 10]), 8) == input[at + 2..at + 10]
  {
    var s := input[at + 2..at + 10];
    BytesReadBack(s);
    FirstByteBounds(s);
    assert Pow256(7) == 0x100_0000_0000_0000;
    assert (s[0] + 1) * Pow256(7) <= 128 * Pow256(7);
  }

  lemma MediumLength(input: seq<Byte>, at: nat)
    requires at + 4 <= |input|
    ensures FromBytes(input[at + 2..at + 4]) < 0x1_0000
    ensures ToBytes(FromBytes(input[at + 2..at + 4]), 2) == input[at + 2..at + 4]
  {
    BytesReadBack(input[at + 2..at + 4]);
    Pow256Twice();
  }

  /** The rules on the bytes, as far as encoding needs them. */
  lemma WireFrameIs(input: seq<Byte>, at: nat, limit: nat)
    requires !BreaksWire(input, at, limit)
    ensures var f, size := WireFrame(input, at, limit), HeadSize(input, at);
            && f.opcode < 16 && LawfulFrame(f, limit) && |f.payload| == PayloadLength(input, at)
            && input[at] == (if f.fin then 128 else 0) + f.opcode
            && f.payload == input[at + size..EndAt(input, at, limit)]
            && (size == 2 || size == 4 || size == 10) && f.form == (if size == 2 then 0 else if size == 4 then 1 else 2)
            && input[at + 1] == (if size == 2 then |f.payload| else if size == 4 then 126 else 127)
            && (size == 2 ==> |f.payload| < 126)
            && (size == 10 ==> input[at + 2] < 128)
            && (size != 2 ==> |f.payload| == FromBytes(input[at + 2..at + size]))
  {
    hide FromBytes;
    FirstByteSplits(input[at]);
  }

  /** A frame that keeps to the rules was encoded by what is read from it. */
  lemma WireFrameEncodes(input: seq<Byte>, at: nat, limit: nat)
    requires !BreaksWire(input, at, limit)
    ensures var f := WireFrame(input, at, limit);
            && Encodable(f) && LawfulFrame(f, limit) && EncodeFrame(f) == input[at..EndAt(input, at, limit)]
  {
    var f, size, end := WireFrame(input, at, limit), HeadSize(input, at), EndAt(input, at, limit);
    WireFrameIs(input, at, limit);
    if size == 4 { MediumLength(input, at); }
    if size == 10 { LongLength(input, at); }
    hide FromBytes, ToBytes, WireFrame, HeadSize, PayloadLength, BreaksWire, EndAt, LawfulFrame;
    ThreeParts(input, at, size, end);
    assert LengthBytes(f) == [input[at + 1]] + input[at + 2..at + size];
  }

  lemma ThreeParts(input: seq<Byte>, at: nat, size: nat, end: nat)
    requires 2 <= size && at + size <= end <= |input|
    ensures input[at..end] == [input[at]] + ([input[at + 1]] + input[at + 2..at + size]) + input[at + size..end]
    ensures size == 2 ==> input[at + 2..at + size] == []
  {
  }

  lemma FirstByteSplits(b: Byte)
    requires b / 16 % 8 == 0
    ensures b == (if b >= 128 then 128 else 0) + b % 16
  {
  }

  // --- Runs of frames, end to end ---

  predicate AllEncodable(frames: seq<Frame>) {
    forall i :: 0 <= i < |frames| ==> Encodable(frames[i])
  }

  lemma {:induction false} StreamsJoin(a: seq<Frame>, b: seq<Frame>)
    requires AllEncodable(a) && AllEncodable(b)
    ensures AllEncodable(a + b) && Stream(a + b) == Stream(a) + Stream(b)
    decreases |a|
  {
    hide EncodeFrame, Encodable;
    if a == [] {
      assert a + b == b;
    } else {
      assert (a + b)[0] == a[0] && (a + b)[1..] == a[1..] + b;
      StreamsJoin(a[1..], b);
      var e, rest, more := EncodeFrame(a[0]), Stream(a[1..]), Stream(b);
      assert (e + rest) + more == e + (rest + more);
    }
  }

  lemma {:induction false} DataJoins(a: seq<Frame>, b: seq<Frame>)
    ensures DataOf(a + b) == DataOf(a) + DataOf(b) && Pings(a + b) == Pings(a) + Pings(b)
    decreases |a|
  {
    hide IsControl;
    if a == [] {
      assert a + b == b;
    } else {
      assert (a + b)[0] == a[0] && (a + b)[1..] == a[1..] + b;
      DataJoins(a[1..], b);
      var first, rest, more := (if IsControl(a[0].opcode) then [] else [a[0].(form := 0)]), DataOf(a[1..]), DataOf(b);
      assert (first + rest) + more == first + (rest + more);
    }
  }

  lemma OneFrame(f: Frame)
    requires Encodable(f)
    ensures Stream([f]) == EncodeFrame(f) && Pings([f]) == (if f.opcode == PING then 1 else 0)
    ensures DataOf([f]) == (if IsControl(f.opcode) then [] else [f.(form := 0)])
  {
    hide EncodeFrame, IsControl;
    assert [f][1..] == [];
    assert EncodeFrame(f) + [] == EncodeFrame(f);
  }

  /** One more part of a message: it stays open, or it is whole. */
  lemma {:induction false} OnePart(kind: nat, parts: seq<seq<Byte>>, p: seq<Byte>)
    ensures var opcode := if parts == [] then kind else CONTINUATION;
            && OpenFragments(kind, parts + [p]) == OpenFragments(kind, parts) + [Frame(false, opcode, 0, p)]
            && Fragments(kind, parts + [p]) == OpenFragments(kind, parts) + [Frame(true, opcode, 0, p)]
    ensures Joined(parts + [p]) == Joined(parts) + p
    decreases |parts|
  {
    if parts == [] {
      assert [p][1..] == [];
      assert p + [] == p && [] + p == p;
    } else {
      assert (parts + [p])[0] == parts[0] && (parts + [p])[1..] == parts[1..] + [p];
      OnePart(CONTINUATION, parts[1..], p);
      assert parts[0] + (Joined(parts[1..]) + p) == (parts[0] + Joined(parts[1..])) + p;
    }
  }

  lemma {:induction false} OneMessage(messages: seq<Message>, m: Message)
    ensures AllFragments(messages + [m]) == AllFragments(messages) + Fragments(if m.text then TEXT else BINARY, m.parts)
    decreases |messages|
  {
    hide Fragments;
    var last := Fragments(if m.text then TEXT else BINARY, m.parts);
    if messages == [] {
      assert [m][1..] == [];
      assert last + [] == last && [] + last == last;
    } else {
      assert (messages + [m])[0] == messages[0] && (messages + [m])[1..] == messages[1..] + [m];
      OneMessage(messages[1..], m);
    }
  }

  // --- The decomposition ---

  /** Frames that carry whole messages, and frames that begin one more. */
  datatype Split = Split(frames: seq<Frame>, messages: seq<Message>, begun: seq<Frame>, kind: nat,
                         parts: seq<seq<Byte>>)

  ghost predicate Splits(l: Link, input: seq<Byte>, limit: nat, c: Split) {
    && Streamable(c.frames, limit) && Deliverable(c.messages, limit) && DataOf(c.frames) == AllFragments(c.messages)
    && Streamable(c.begun, limit) && DataOf(c.begun) == OpenFragments(c.kind, c.parts)
    && (c.kind == TEXT || c.kind == BINARY) && |Joined(c.parts)| <= limit
    && Pings(c.frames) + Pings(c.begun) <= l.writes
    && Reach(l, c) <= |input| && input[l.at..Reach(l, c)] == Stream(c.frames) + Stream(c.begun)
  }

  /** How far the frames reach. */
  function Reach(l: Link, c: Split): (end: nat)
    requires AllEncodable(c.frames) && AllEncodable(c.begun)
    ensures end >= l.at
  {
    l.at + |Stream(c.frames)| + |Stream(c.begun)|
  }

  /** The connection behind the frames. */
  ghost function Mark(l: Link, input: seq<Byte>, limit: nat, c: Split): Link
    requires Splits(l, input, limit, c)
  {
    Piled(Behind(l, c.frames), c.kind, c.parts, c.begun)
  }

  /** A connection between messages. */
  predicate Idle(l: Link, input: seq<Byte>) {
    Live(l.state) && l.opcode == 0 && l.message == [] && l.at <= |input|
  }

  lemma MarkIs(l: Link, input: seq<Byte>, limit: nat, c: Split)
    requires Idle(l, input) && Splits(l, input, limit, c)
    ensures var z := Mark(l, input, limit, c);
            && z.at == Reach(l, c) && z.state == l.state && z.opcode == (if c.parts == [] then 0 else c.kind)
            && z.message == Joined(c.parts) && z.writes == l.writes - Pings(c.frames) - Pings(c.begun)
  {
    hide Stream, Pings, Joined, DataOf, AllFragments, OpenFragments, Deliverable, Streamable;
    assert [] + Joined(c.parts) == Joined(c.parts);
  }

  function Taken(c: Split, f: Frame): Split {
    if IsControl(f.opcode) then c.(begun := c.begun + [f])
    else
      var kind, parts := if c.parts == [] then f.opcode else c.kind, c.parts + [f.payload];
      if !f.fin then Split(c.frames, c.messages, c.begun + [f], kind, parts)
      else Split(c.frames + (c.begun + [f]), c.messages + [Message(kind == TEXT, parts)], [], kind, [])
  }

  /** What is known of a frame that breaks no rule and does not close. */
  lemma InOrder(z: Link, input: seq<Byte>, limit: nat)
    requires !Violates(z, input, limit) && FrameAt(input, z.at, limit).opcode != CLOSE && z.opcode in {0, TEXT, BINARY}
    ensures var f := WireFrame(input, z.at, limit);
            && (IsControl(f.opcode) ==> f.opcode == PING || f.opcode == PONG) && (f.opcode == PING ==> z.writes > 0)
            && (!IsControl(f.opcode) ==>
                  && (if z.opcode == 0 then f.opcode == TEXT || f.opcode == BINARY else f.opcode == CONTINUATION)
                  && |MessageWith(z, f)| <= limit
                  && (f.fin && (f.opcode == TEXT || z.opcode == TEXT) ==> IsEncoding(MessageWith(z, f))))
  {
    hide IsEncoding, BreaksWire, HeadSize, PayloadLength;
    assert FrameAt(input, z.at, limit).opcode < 16 by { OpcodeFits(input, z.at, limit); }
    hide FrameAt;
  }

  /** The bytes of one more frame. */
  lemma BytesTaken(l: Link, input: seq<Byte>, limit: nat, c: Split)
    requires Splits(l, input, limit, c) && !BreaksWire(input, Reach(l, c), limit)
    ensures var f, end := WireFrame(input, Reach(l, c), limit), EndAt(input, Reach(l, c), limit);
            && Encodable(f) && LawfulFrame(f, limit) && AllEncodable(c.begun + [f])
            && end == l.at + |Stream(c.frames)| + |Stream(c.begun + [f])|
            && input[l.at..end] == Stream(c.frames) + Stream(c.begun + [f])
  {
    var f, at, end := WireFrame(input, Reach(l, c), limit), Reach(l, c), EndAt(input, Reach(l, c), limit);
    WireFrameEncodes(input, at, limit);
    hide *;
    assert AllEncodable(c.begun) && AllEncodable([f]) by { SplitsEncodable(l, input, limit, c, f); }
    StreamsJoin(c.begun, [f]);
    OneFrame(f);
    ReachIs(l, input, limit, c);
    Glued(input, l.at, at, end, Stream(c.frames), Stream(c.begun), EncodeFrame(f));
  }

  lemma Glued(input: seq<Byte>, start: nat, mid: nat, end: nat, a: seq<Byte>, b: seq<Byte>, e: seq<Byte>)
    requires start <= mid <= end <= |input| && input[start..mid] == a + b && input[mid..end] == e
    ensures input[start..end] == a + (b + e) && end == start + |a| + |b + e|
  {
    assert input[start..end] == input[start..mid] + input[mid..end];
    assert |input[start..mid]| == |a| + |b| && |input[mid..end]| == |e|;
    assert (a + b) + e == a + (b + e);
  }

  lemma SplitsEncodable(l: Link, input: seq<Byte>, limit: nat, c: Split, f: Frame)
    requires Splits(l, input, limit, c) && Encodable(f)
    ensures AllEncodable(c.frames) && AllEncodable(c.begun) && AllEncodable([f])
  {
    hide Encodable;
  }

  lemma ReachIs(l: Link, input: seq<Byte>, limit: nat, c: Split)
    requires Splits(l, input, limit, c)
    ensures Reach(l, c) == l.at + |Stream(c.frames)| + |Stream(c.begun)| <= |input|
    ensures input[l.at..Reach(l, c)] == Stream(c.frames) + Stream(c.begun)
  {
    hide Stream;
  }

  /** The frames behind which another frame was taken, and the bytes they make. */
  ghost predicate Extends(l: Link, input: seq<Byte>, limit: nat, c: Split, f: Frame, end: nat) {
    && Splits(l, input, limit, c) && Encodable(f) && LawfulFrame(f, limit) && AllEncodable(c.begun + [f])
    && l.at <= end <= |input| && end == l.at + |Stream(c.frames)| + |Stream(c.begun + [f])|
    && input[l.at..end] == Stream(c.frames) + Stream(c.begun + [f])
  }

  lemma MoreStreamable(frames: seq<Frame>, f: Frame, limit: nat)
    requires Streamable(frames, limit) && Encodable(f) && LawfulFrame(f, limit)
    requires IsControl(f.opcode) ==> f.opcode == PING || f.opcode == PONG
    ensures Streamable(frames + [f], limit)
  {
    hide Encodable, LawfulFrame, IsControl;
  }

  lemma PauseTaken(l: Link, input: seq<Byte>, limit: nat, c: Split, f: Frame, end: nat)
    requires Extends(l, input, limit, c, f, end) && (f.opcode == PING || f.opcode == PONG)
    requires f.opcode == PING ==> Pings(c.frames) + Pings(c.begun) < l.writes
    ensures Splits(l, input, limit, Taken(c, f)) && Reach(l, Taken(c, f)) == end
  {
    hide Stream, DataOf, Pings, AllFragments, OpenFragments, Joined, Deliverable, Streamable, Encodable, LawfulFrame;
    MoreStreamable(c.begun, f, limit);
    DataJoins(c.begun, [f]);
    OneFrame(f);
    assert DataOf(c.begun) + [] == DataOf(c.begun);
  }

  /** A data frame in its turn, and the kind of message it goes on with. */
  predicate Follows(c: Split, f: Frame, kind: nat, limit: nat) {
    && !IsControl(f.opcode) && (kind == TEXT || kind == BINARY) && kind == (if c.parts == [] then f.opcode else c.kind)
    && (c.parts != [] ==> f.opcode == CONTINUATION) && |Joined(c.parts) + f.payload| <= limit
  }

  lemma PartTaken(l: Link, input: seq<Byte>, limit: nat, c: Split, f: Frame, end: nat, kind: nat)
    requires Extends(l, input, limit, c, f, end) && Follows(c, f, kind, limit) && !f.fin
    ensures Splits(l, input, limit, Taken(c, f)) && Reach(l, Taken(c, f)) == end
  {
    MoreFragments(c, f, kind, limit);
    MoreStreamable(c.begun, f, limit);
    hide Stream, DataOf, Pings, AllFragments, OpenFragments, Joined, Deliverable, Streamable, Encodable, LawfulFrame;
  }

  /** The fragments a data frame makes of what was begun. */
  lemma MoreFragments(c: Split, f: Frame, kind: nat, limit: nat)
    requires AllEncodable(c.begun) && Encodable(f) && DataOf(c.begun) == OpenFragments(c.kind, c.parts)
             && Follows(c, f, kind, limit)
    ensures DataOf(c.begun + [f]) == if f.fin
                                     then Fragments(kind, c.parts + [f.payload])
                                     else OpenFragments(kind, c.parts + [f.payload])
    ensures Joined(c.parts + [f.payload]) == Joined(c.parts) + f.payload && Pings(c.begun + [f]) == Pings(c.begun)
  {
    DataJoins(c.begun, [f]);
    OneFrame(f);
    OnePart(kind, c.parts, f.payload);
    assert c.parts == [] ==> OpenFragments(c.kind, c.parts) == OpenFragments(kind, c.parts) == [];
    hide Stream, DataOf, Pings, OpenFragments, Fragments, Joined, Encodable, EncodeFrame;
    assert f.(form := 0) == Frame(f.fin, if c.parts == [] then kind else CONTINUATION, 0, f.payload);
  }

  lemma WholeTaken(l: Link, input: seq<Byte>, limit: nat, c: Split, f: Frame, end: nat, kind: nat)
    requires Extends(l, input, limit, c, f, end) && Follows(c, f, kind, limit) && f.fin
    requires kind == TEXT ==> IsEncoding(Joined(c.parts) + f.payload)
    ensures Splits(l, input, limit, Taken(c, f)) && Reach(l, Taken(c, f)) == end
  {
    var m, more := Message(kind == TEXT, c.parts + [f.payload]), c.begun + [f];
    var c' := Split(c.frames + more, c.messages + [m], [], kind, []);
    assert Taken(c, f) == c';
    WholeBytes(l, input, limit, c, f, end, c');
    WholeData(c, f, kind, limit, m, c');
    MoreFragments(c, f, kind, limit);
    MoreStreamable(c.begun, f, limit);
    MoreDeliverable(c.messages, m, limit);
    BothStreamable(c.frames, more, limit);
    NothingOpen(kind);
    hide Stream, DataOf, Pings, AllFragments, OpenFragments, Fragments, Joined, Deliverable, Streamable, Encodable,
         LawfulFrame, IsEncoding, Taken, IsControl, Follows, Reach;
  }

  lemma WholeBytes(l: Link, input: seq<Byte>, limit: nat, c: Split, f: Frame, end: nat, c': Split)
    requires Extends(l, input, limit, c, f, end) && c'.frames == c.frames + (c.begun + [f]) && c'.begun == []
    ensures AllEncodable(c'.frames) && AllEncodable(c'.begun) && Reach(l, c') == end
    ensures input[l.at..end] == Stream(c'.frames) + Stream(c'.begun)
  {
    hide Extends, Stream, Encodable, Reach;
    ExtendsBytes(l, input, limit, c, f, end);
    StreamsJoin(c.frames, c.begun + [f]);
    NothingSent(c'.begun);
    WithNothing(Stream(c'.frames));
    ReachFrom(l, c');
  }

  lemma ReachFrom(l: Link, c: Split)
    requires AllEncodable(c.frames) && AllEncodable(c.begun)
    ensures Reach(l, c) == l.at + |Stream(c.frames)| + |Stream(c.begun)|
  {
    hide Stream;
  }

  lemma NothingSent(frames: seq<Frame>)
    requires frames == []
    ensures AllEncodable(frames) && Stream(frames) == []
  {
  }

  lemma ExtendsBytes(l: Link, input: seq<Byte>, limit: nat, c: Split, f: Frame, end: nat)
    requires Extends(l, input, limit, c, f, end)
    ensures AllEncodable(c.frames) && AllEncodable(c.begun + [f]) && l.at <= end <= |input|
    ensures end == l.at + |Stream(c.frames)| + |Stream(c.begun + [f])|
            && input[l.at..end] == Stream(c.frames) + Stream(c.begun + [f])
  {
    hide Stream, Encodable;
  }

  lemma WholeData(c: Split, f: Frame, kind: nat, limit: nat, m: Message, c': Split)
    requires AllEncodable(c.begun) && Encodable(f) && DataOf(c.begun) == OpenFragments(c.kind, c.parts)
             && Follows(c, f, kind, limit) && f.fin
    requires DataOf(c.frames) == AllFragments(c.messages) && m == Message(kind == TEXT, c.parts + [f.payload])
    requires c'.frames == c.frames + (c.begun + [f]) && c'.messages == c.messages + [m]
    ensures DataOf(c'.frames) == AllFragments(c'.messages) && Pings(c'.frames) == Pings(c.frames) + Pings(c.begun)
  {
    MoreFragments(c, f, kind, limit);
    OneMessage(c.messages, m);
    DataJoins(c.frames, c.begun + [f]);
    assert kind == if m.text then TEXT else BINARY;
    hide *;
  }

  lemma WithNothing(s: seq<Byte>)
    ensures s + [] == s
  {
  }

  lemma NothingOpen(kind: nat)
    ensures Stream([]) == [] && DataOf([]) == OpenFragments(kind, []) == [] && Pings([]) == 0 && Joined([]) == []
  {
  }

  lemma BothStreamable(a: seq<Frame>, b: seq<Frame>, limit: nat)
    requires Streamable(a, limit) && Streamable(b, limit)
    ensures Streamable(a + b, limit)
  {
    hide Encodable, LawfulFrame, IsControl;
  }

  lemma MoreDeliverable(messages: seq<Message>, m: Message, limit: nat)
    requires Deliverable(messages, limit) && m.parts != [] && |Joined(m.parts)| <= limit
             && (m.text ==> IsEncoding(Joined(m.parts)))
    ensures Deliverable(messages + [m], limit)
  {
    hide Joined, IsEncoding;
  }

  /** A frame that breaks no rule and does not close the connection is one more frame. */
  lemma FrameTaken(l: Link, input: seq<Byte>, limit: nat, c: Split)
    requires Idle(l, input) && Splits(l, input, limit, c) && !Violates(Mark(l, input, limit, c), input, limit)
    requires Mark(l, input, limit, c).at == Reach(l, c)
    requires FrameAt(input, Reach(l, c), limit).opcode != CLOSE
    ensures var c' := Taken(c, WireFrame(input, Reach(l, c), limit));
            Splits(l, input, limit, c') && Reach(l, c) < Reach(l, c') <= |input|
  {
    var z, f, end := Mark(l, input, limit, c), WireFrame(input, Reach(l, c), limit), EndAt(input, Reach(l, c), limit);
    MarkIs(l, input, limit, c);
    BytesTaken(l, input, limit, c);
    KindIs(l, input, limit, c);
    InOrder(z, input, limit);
    hide Splits, Mark, WireFrame, EndAt, BreaksWire, Violates, IsEncoding, Encodable, LawfulFrame, Joined, Stream,
         Reach, FrameAt;
    assert Extends(l, input, limit, c, f, end);
    if IsControl(f.opcode) {
      PauseTaken(l, input, limit, c, f, end);
    } else {
      var kind := if c.parts == [] then f.opcode else c.kind;
      NothingOpen(kind);
      assert MessageWith(z, f) == Joined(c.parts) + f.payload;
      assert Follows(c, f, kind, limit);
      if f.fin { WholeTaken(l, input, limit, c, f, end, kind); } else { PartTaken(l, input, limit, c, f, end, kind); }
    }
  }

  lemma KindIs(l: Link, input: seq<Byte>, limit: nat, c: Split)
    requires Splits(l, input, limit, c)
    ensures c.kind == TEXT || c.kind == BINARY
  {
    hide Stream, DataOf;
  }

  /** The frames go on as long as none breaks a rule, closes the connection, or is missing. */
  lemma {:induction false} SplitGoesOn(l: Link, input: seq<Byte>, limit: nat, c: Split) returns (d: Split)
    requires Idle(l, input) && Splits(l, input, limit, c)
    ensures Splits(l, input, limit, d)
    ensures var z := Mark(l, input, limit, d);
            && z.at <= |input|
            && (input[z.at..] == [] || Violates(z, input, limit) || FrameAt(input, z.at, limit).opcode == CLOSE)
    decreases |input| - Reach(l, c)
  {
    MarkIs(l, input, limit, c);
    ReachIs(l, input, limit, c);
    d := c;
    var z := Mark(l, input, limit, c);
    hide Splits, Mark, Violates, FrameAt, WireFrame, Taken, BreaksWire, Reach;
    if z.at < |input| && !Violates(z, input, limit) {
      ViolatesWire(z, input, limit);
      if FrameAt(input, z.at, limit).opcode != CLOSE {
        FrameTaken(l, input, limit, c);
        d := SplitGoesOn(l, input, limit, Taken(c, WireFrame(input, Reach(l, c), limit)));
      }
    }
  }

  lemma ViolatesWire(z: Link, input: seq<Byte>, limit: nat)
    ensures BreaksWire(input, z.at, limit) ==> Violates(z, input, limit)
  {
    hide BreaksWire;
  }

  /** Whatever bytes arrive at a connection between messages, as a new one is: they are the frames of whole
      messages and the beginning of one more, up to their end, the first frame that breaks a rule, or a close;
      and the reader is handed exactly the whole messages, and then nothing, one error, or the close. */
  lemma EveryStreamEnds(l: Link, input: seq<Byte>, limit: nat) returns (c: Split)
    requires Idle(l, input)
    ensures Splits(l, input, limit, c)
    ensures var z, messages := Mark(l, input, limit, c), DeliveredAll(c.messages);
            && z.at == Reach(l, c)
            && (if z.at == |input| then Events(l, input, limit) == messages
                else if Violates(z, input, limit) then Events(l, input, limit) == messages + [Error]
                else
                  && FrameAt(input, z.at, limit).opcode == CLOSE
                  && Events(l, input, limit) == messages + [PeerClosed(CodeOf(FrameAt(input, z.at, limit).payload))])
  {
    var nothing := Split([], [], [], TEXT, []);
    NothingSplit(l, input, limit, nothing);
    c := SplitGoesOn(l, input, limit, nothing);
    MarkIs(l, input, limit, c);
    var z := Mark(l, input, limit, c);
    ViolatesWire(z, input, limit);
    TailOf(l, input, limit, c);
    hide Deliverable, DataOf, AllFragments, OpenFragments, Stream, Events, Joined, Violates, BreaksWire, FrameAt,
         DeliveredAll, Pings, Piled, Behind;
    StreamEnds(c.frames, c.messages, c.begun, c.kind, c.parts, l, input, input[z.at..], limit);
  }

  lemma NothingSplit(l: Link, input: seq<Byte>, limit: nat, c: Split)
    requires Idle(l, input) && c == Split([], [], [], TEXT, [])
    ensures Splits(l, input, limit, c)
  {
  }

  lemma TailOf(l: Link, input: seq<Byte>, limit: nat, c: Split)
    requires Splits(l, input, limit, c)
    ensures input[l.at..] == Stream(c.frames) + (Stream(c.begun) + input[Reach(l, c)..])
  {
    ReachIs(l, input, limit, c);
    hide *;
    GluedTail(input, l.at, Reach(l, c), Stream(c.frames), Stream(c.begun));
  }

  lemma GluedTail(input: seq<Byte>, start: nat, mid: nat, a: seq<Byte>, b: seq<Byte>)
    requires start <= mid <= |input| && input[start..mid] == a + b
    ensures input[start..] == a + (b + input[mid..])
  {
    assert input[start..] == input[start..mid] + input[mid..];
    assert (a + b) + input[mid..] == a + (b + input[mid..]);
  }
}
