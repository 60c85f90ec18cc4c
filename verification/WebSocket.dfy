/** The receiving side of a client connection (sections 5.4 and 5.5 of RFC 6455), frame by frame. */
module WebSocket {
  import opened Bytes
  import opened Options
  import opened Utf8
  import opened WebSocketWire
  import Slices

  const CHUNK: nat := 4096
  const FIRST_CAPACITY: nat := 1024
  const NO_CODE: nat := 1005

  datatype State = Closed | Open | Closing | Failed

  datatype Event =
    | Nothing
    | Text(payload: seq<Byte>)
    | Binary(payload: seq<Byte>)
    | PeerClosed(code: nat)
    | Error

  datatype Reply = Reply(opcode: nat, payload: seq<Byte>)

  /** A connection seen as a value. `writes` is how many more sends the transport takes. */
  datatype Link = Link(state: State, opcode: nat, message: seq<Byte>, at: nat, writes: nat, sent: seq<Reply>,
                       closeCode: nat, closeReason: seq<Byte>)

  predicate Live(state: State) {
    state == Open || state == Closing
  }

  // --- The reference: what one frame does ---

  function Broken(l: Link): (Link, Event) {
    (l.(state := Failed), Error)
  }

  function Send(l: Link, reply: Reply): Link {
    if l.writes == 0 then l else l.(writes := l.writes - 1, sent := l.sent + [reply])
  }

  function CodeOf(payload: seq<Byte>): nat {
    if |payload| < 2 then NO_CODE else (payload[0] as int) * 256 + payload[1] as int
  }

  function ReasonOf(payload: seq<Byte>): seq<Byte> {
    if |payload| < 2 then [] else payload[2..]
  }

  function AcceptControl(l: Link, f: Frame): (Link, Event) {
    if f.opcode == PING then
      if l.writes == 0 then Broken(l) else (Send(l, Reply(PONG, f.payload)), Nothing)
    else if f.opcode == PONG then (l, Nothing)
    else if f.opcode == CLOSE then
      var echoed := if l.state == Open then Send(l, Reply(CLOSE, f.payload)) else l;
      (echoed.(state := Closed, closeCode := CodeOf(f.payload), closeReason := ReasonOf(f.payload)),
       PeerClosed(CodeOf(f.payload)))
    else Broken(l)
  }

  /** A data frame starts a message exactly when none is open. */
  predicate InTurn(open: nat, opcode: nat) {
    if open == 0 then opcode == TEXT || opcode == BINARY else opcode == CONTINUATION
  }

  function Delivered(opcode: nat, message: seq<Byte>): Event {
    if opcode == TEXT then Text(message) else Binary(message)
  }

  function AcceptData(l: Link, f: Frame, limit: nat): (Link, Event) {
    if !InTurn(l.opcode, f.opcode) then Broken(l)
    else
      var kind := if l.opcode == 0 then f.opcode else l.opcode;
      var message := (if l.opcode == 0 then [] else l.message) + f.payload;
      if |message| > limit then Broken(l)
      else if !f.fin then (l.(opcode := kind, message := message), Nothing)
      else if kind == TEXT && !ValidFrom(message, 0) then Broken(l)
      else (l.(opcode := 0, message := []), Delivered(kind, message))
  }

  function Accept(l: Link, f: Frame, limit: nat): (Link, Event) {
    if IsControl(f.opcode) then AcceptControl(l, f) else AcceptData(l, f, limit)
  }

  function Consume(l: Link, input: seq<Byte>, limit: nat): (r: (Link, Event))
    ensures r.0.at >= l.at && (r.1 != Error ==> l.at < r.0.at <= |input|)
    ensures Live(l.state) ==> (r.1 == Error <==> r.0.state == Failed)
  {
    match ReadFrame(input, l.at, limit)
    case None => Broken(l)
    case Some(read) => Accept(l.(at := read.1), read.0, limit)
  }

  /** Everything a reader is handed while input is left and the connection lives. */
  function Events(l: Link, input: seq<Byte>, limit: nat): seq<Event>
    decreases |input| - l.at
  {
    if !Live(l.state) || l.at >= |input| then []
    else
      var (next, event) := Consume(l, input, limit);
      if event == Error then [Error]
      else (if event == Nothing then [] else [event]) + Events(next, input, limit)
  }

  // --- Safety of every byte stream ---

  /** An event a reader may be handed: text is valid UTF-8, and nothing is longer than the limit. */
  ghost predicate Sane(e: Event, limit: nat) {
    match e
    case Text(payload) => |payload| <= limit && IsEncoding(payload)
    case Binary(payload) => |payload| <= limit
    case _ => true
  }

  lemma EventIsSane(l: Link, input: seq<Byte>, limit: nat)
    ensures Sane(Consume(l, input, limit).1, limit)
  {
    hide ValidFrom, ReadFrame, IsEncoding;
    var (next, event) := Consume(l, input, limit);
    if event.Text? { ValidIffEncoding(event.payload); }
  }

  /** Whatever bytes arrive, only sane events come out, and an error or a close is the last of them. */
  lemma {:induction false} EventsAreSane(l: Link, input: seq<Byte>, limit: nat)
    ensures forall i :: 0 <= i < |Events(l, input, limit)| ==> Sane(Events(l, input, limit)[i], limit)
    ensures forall i :: 0 <= i < |Events(l, input, limit)| - 1 ==>
              Events(l, input, limit)[i].Text? || Events(l, input, limit)[i].Binary?
    decreases |input| - l.at
  {
    if Live(l.state) && l.at < |input| {
      hide ReadFrame, Accept, Sane;
      EventIsSane(l, input, limit);
      ClosedIsLast(l, input, limit);
      var (next, event) := Consume(l, input, limit);
      hide Consume;
      if event == Error {
      } else {
        EventsAreSane(next, input, limit);
      }
    }
  }

  lemma ClosedIsLast(l: Link, input: seq<Byte>, limit: nat)
    ensures Consume(l, input, limit).1.PeerClosed? ==> Consume(l, input, limit).0.state == Closed
  {
    hide ReadFrame, ValidFrom;
  }

  /** A close closes the connection and is answered by the same payload if none was sent before and the transport takes
      it. Its code is the first two bytes of the payload, the higher first, its reason the rest; without two bytes the
      code is 1005. */
  lemma CloseArrives(l: Link, input: seq<Byte>, f: Frame, code: nat, reason: seq<Byte>, limit: nat)
    requires Encodable(f) && LawfulFrame(f, limit) && f.opcode == CLOSE
    requires l.at + |EncodeFrame(f)| <= |input| && input[l.at..l.at + |EncodeFrame(f)|] == EncodeFrame(f)
    requires if |f.payload| < 2 then code == 1005 && reason == []
             else code < 0x1_0000 && f.payload == [code / 256, code % 256] + reason
    ensures var next := Consume(l, input, limit).0;
            && Consume(l, input, limit).1 == PeerClosed(code)
            && next.closeCode == code && next.closeReason == reason && next.state == Closed
            && next.at == l.at + |EncodeFrame(f)|
            && next.sent == l.sent + (if l.state == Open && l.writes > 0 then [Reply(CLOSE, f.payload)] else [])
  {
    hide ReadFrame, EncodeFrame, ValidFrom, AcceptData;
    FrameReadsBack(input, l.at, f, limit);
    assert IsControl(CLOSE);
    if |f.payload| >= 2 { assert f.payload[2..] == reason; }
    assert l.sent + [] == l.sent;
  }

  // --- Exactly which frames end the connection ---

  /** The ways a whole frame can break the rules of the connection: an unknown opcode, a continuation
      without a start, a start inside an open message, a message longer than the cap, a finished text that
      is not UTF-8, and a ping when the transport takes no answer. */
  ghost predicate BreaksTurn(l: Link, f: Frame, limit: nat) {
    || (2 < f.opcode < 8 || f.opcode > 10)
    || (f.opcode == CONTINUATION && l.opcode == 0)
    || ((f.opcode == TEXT || f.opcode == BINARY) && l.opcode != 0)
    || (f.opcode < 8 && |MessageWith(l, f)| > limit)
    || (f.opcode < 8 && f.fin && (f.opcode == TEXT || l.opcode == TEXT) && !IsEncoding(MessageWith(l, f)))
    || (f.opcode == PING && l.writes == 0)
  }

  function MessageWith(l: Link, f: Frame): seq<Byte> {
    (if l.opcode == 0 then [] else l.message) + f.payload
  }

  ghost predicate Violates(l: Link, input: seq<Byte>, limit: nat) {
    BreaksWire(input, l.at, limit) || BreaksTurn(l, FrameAt(input, l.at, limit), limit)
  }

  lemma AcceptFailsIff(l: Link, f: Frame, limit: nat)
    requires l.opcode in {0, TEXT, BINARY} && f.opcode < 16
    ensures Accept(l, f, limit).1 == Error <==> BreaksTurn(l, f, limit)
    ensures f.opcode == CLOSE ==>
              Accept(l, f, limit).1 == PeerClosed(CodeOf(f.payload)) && Accept(l, f, limit).0.state == Closed
  {
    hide ValidFrom, IsEncoding;
    ValidIffEncoding(MessageWith(l, f));
  }

  /** A frame ends the connection in failure iff it is cut off or breaks one of the rules. */
  lemma FailsIffViolates(l: Link, input: seq<Byte>, limit: nat)
    requires Live(l.state) && l.opcode in {0, TEXT, BINARY}
    ensures Consume(l, input, limit).1 == Error <==> Violates(l, input, limit)
    ensures Consume(l, input, limit).1 == Error <==> Consume(l, input, limit).0.state == Failed
  {
    hide ReadFrame, Accept, BreaksWire, BreaksTurn, FrameAt;
    ReadsIffLawful(input, l.at, limit);
    if !BreaksWire(input, l.at, limit) {
      var f := FrameAt(input, l.at, limit);
      assert f.opcode < 16 by { OpcodeFits(input, l.at, limit); }
      AcceptFailsIff(l.(at := l.at + HeadSize(input, l.at) + PayloadLength(input, l.at)), f, limit);
      TurnIgnoresPlace(l, f, limit, l.at + HeadSize(input, l.at) + PayloadLength(input, l.at));
    }
  }

  lemma OpcodeFits(input: seq<Byte>, at: nat, limit: nat)
    requires !BreaksWire(input, at, limit)
    ensures FrameAt(input, at, limit).opcode < 16
  {
  }

  lemma TurnIgnoresPlace(l: Link, f: Frame, limit: nat, end: nat)
    ensures BreaksTurn(l.(at := end), f, limit) <==> BreaksTurn(l, f, limit)
  {
    hide IsEncoding;
  }

  // --- Fragments and control frames in between ---

  /** A message as its sender cuts it. */
  datatype Message = Message(text: bool, parts: seq<seq<Byte>>)

  function Joined(parts: seq<seq<Byte>>): seq<Byte> {
    if parts == [] then [] else parts[0] + Joined(parts[1..])
  }

  /** What the data frames of a message carry, first frame first. */
  function Fragments(opcode: nat, parts: seq<seq<Byte>>): seq<Frame> {
    if parts == [] then [] else [Frame(|parts| == 1, opcode, 0, parts[0])] + Fragments(CONTINUATION, parts[1..])
  }

  function AllFragments(messages: seq<Message>): seq<Frame> {
    if messages == [] then []
    else Fragments(if messages[0].text then TEXT else BINARY, messages[0].parts) + AllFragments(messages[1..])
  }

  /** The data frames of a stream, whatever length forms they use. */
  function DataOf(frames: seq<Frame>): seq<Frame> {
    if frames == [] then []
    else (if IsControl(frames[0].opcode) then [] else [frames[0].(form := 0)]) + DataOf(frames[1..])
  }

  function Pings(frames: seq<Frame>): nat {
    if frames == [] then 0 else (if frames[0].opcode == PING then 1 else 0) + Pings(frames[1..])
  }

  /** The answers to the pings, in order. */
  function Pongs(frames: seq<Frame>): seq<Reply> {
    if frames == [] then []
    else (if frames[0].opcode == PING then [Reply(PONG, frames[0].payload)] else []) + Pongs(frames[1..])
  }

  /** Frames a server may send: lawful, and no control frame but pings and pongs. */
  predicate Streamable(frames: seq<Frame>, limit: nat) {
    forall i :: 0 <= i < |frames| ==> (
      && Encodable(frames[i]) && LawfulFrame(frames[i], limit)
      && (IsControl(frames[i].opcode) ==> frames[i].opcode == PING || frames[i].opcode == PONG))
  }

  function Stream(frames: seq<Frame>): seq<Byte>
    requires forall i :: 0 <= i < |frames| ==> Encodable(frames[i])
  {
    if frames == [] then [] else EncodeFrame(frames[0]) + Stream(frames[1..])
  }

  function DeliveredAll(messages: seq<Message>): seq<Event> {
    if messages == [] then []
    else [if messages[0].text then Text(Joined(messages[0].parts)) else Binary(Joined(messages[0].parts))]
         + DeliveredAll(messages[1..])
  }

  ghost predicate Deliverable(messages: seq<Message>, limit: nat) {
    forall i :: 0 <= i < |messages| ==> (
      && messages[i].parts != [] && |Joined(messages[i].parts)| <= limit
      && (messages[i].text ==> IsEncoding(Joined(messages[i].parts))))
  }

  /** What is still to come: the rest of the open message, if one is open, and then whole messages. */
  ghost predicate Awaits(l: Link, parts: seq<seq<Byte>>, messages: seq<Message>, limit: nat) {
    && Live(l.state) && Deliverable(messages, limit)
    && (l.opcode == 0 ==> parts == [] && l.message == [])
    && (l.opcode != 0 ==>
          && parts != [] && (l.opcode == TEXT || l.opcode == BINARY) && |l.message + Joined(parts)| <= limit
          && (l.opcode == TEXT ==> IsEncoding(l.message + Joined(parts))))
  }

  function Outcome(l: Link, parts: seq<seq<Byte>>, messages: seq<Message>): seq<Event> {
    (if l.opcode == 0 then [] else [Delivered(l.opcode, l.message + Joined(parts))]) + DeliveredAll(messages)
  }

  /** The connection behind a run of frames, between messages: every ping is answered, nothing else is left. */
  function Behind(l: Link, frames: seq<Frame>): Link
    requires (forall i :: 0 <= i < |frames| ==> Encodable(frames[i])) && Pings(frames) <= l.writes
  {
    l.(opcode := 0, message := [], at := l.at + |Stream(frames)|, writes := l.writes - Pings(frames),
       sent := l.sent + Pongs(frames))
  }

  /** However messages are cut into frames, whatever length forms the frames use, wherever pings and pongs
      stand between them, and whatever bytes come behind: the reader is handed exactly the messages, in order,
      and then what the bytes behind make of a connection between messages. */
  lemma MessagesArrive(frames: seq<Frame>, messages: seq<Message>, l: Link, input: seq<Byte>, tail: seq<Byte>,
                       limit: nat)
    requires Streamable(frames, limit) && Deliverable(messages, limit) && DataOf(frames) == AllFragments(messages)
    requires Live(l.state) && l.opcode == 0 && l.message == [] && Pings(frames) <= l.writes
    requires l.at <= |input| && input[l.at..] == Stream(frames) + tail
    ensures Events(l, input, limit) == DeliveredAll(messages) + Events(Behind(l, frames), input, limit)
    ensures Behind(l, frames).at <= |input| && input[Behind(l, frames).at..] == tail
  {
    hide DataOf, AllFragments, DeliveredAll, Events, Deliverable, Stream;
    assert Fragments(CONTINUATION, []) + AllFragments(messages) == AllFragments(messages);
    FramesArrive(frames, [], messages, l, input, tail, limit);
    assert [] + DeliveredAll(messages) == DeliveredAll(messages);
  }

  lemma {:induction false} FramesArrive(frames: seq<Frame>, parts: seq<seq<Byte>>, messages: seq<Message>, l: Link,
                                        input: seq<Byte>, tail: seq<Byte>, limit: nat)
    requires Streamable(frames, limit) && Awaits(l, parts, messages, limit) && Pings(frames) <= l.writes
    requires DataOf(frames) == Fragments(CONTINUATION, parts) + AllFragments(messages)
    requires l.at <= |input| && input[l.at..] == Stream(frames) + tail
    ensures Events(l, input, limit) == Outcome(l, parts, messages) + Events(Behind(l, frames), input, limit)
    ensures Behind(l, frames).at <= |input| && input[Behind(l, frames).at..] == tail
    decreases |frames|
  {
    hide *;
    if frames == [] {
      NothingAwaited(l, parts, messages, input, tail, limit);
    } else {
      StreamStep(frames, input, tail, l.at, limit);
      AwaitsLive(l, parts, messages, limit);
      var f, rest, end := frames[0].(form := 0), frames[1..], l.at + |EncodeFrame(frames[0])|;
      var (next, event) := Accept(l.(at := end), f, limit);
      DataSplits(frames);
      EventsStep(l, input, limit, f, end);
      if IsControl(f.opcode) {
        ControlStep(frames, l, end, parts, messages, limit);
        BehindStep(frames, l, next, limit);
        FramesArrive(rest, parts, messages, next, input, tail, limit);
        assert [] + Events(next, input, limit) == Events(next, input, limit);
      } else {
        DataStep(l, end, f, parts, messages, DataOf(rest), limit);
        var parts' := if parts != [] then parts[1..] else messages[0].parts[1..];
        var messages' := if parts != [] then messages else messages[1..];
        MovesTell(l, parts, messages, next, event, parts', messages', DataOf(rest), limit);
        BehindStep(frames, l, next, limit);
        FramesArrive(rest, parts', messages', next, input, tail, limit);
        Slices.Regroup(if event == Nothing then [] else [event], Outcome(next, parts', messages'),
                       Events(Behind(next, rest), input, limit));
      }
    }
  }

  /** A frame on, what is behind all frames stays the same. */
  lemma BehindStep(frames: seq<Frame>, l: Link, next: Link, limit: nat)
    requires frames != [] && Streamable(frames, limit) && Pings(frames) <= l.writes
    requires frames[0].opcode != PING ==> next == l.(at := next.at, opcode := next.opcode, message := next.message)
    requires frames[0].opcode == PING ==>
               next == l.(at := next.at, opcode := next.opcode, message := next.message, writes := l.writes - 1,
                          sent := l.sent + [Reply(PONG, frames[0].payload)])
    requires next.at == l.at + |EncodeFrame(frames[0])|
    ensures (forall i :: 0 <= i < |frames[1..]| ==> Encodable(frames[1..][i])) && Pings(frames[1..]) <= next.writes
    ensures Behind(next, frames[1..]) == Behind(l, frames)
  {
    hide EncodeFrame;
    var rest := Pongs(frames[1..]);
    assert (l.sent + [Reply(PONG, frames[0].payload)]) + rest == l.sent + ([Reply(PONG, frames[0].payload)] + rest);
    assert [] + rest == rest;
  }

  lemma NothingAwaited(l: Link, parts: seq<seq<Byte>>, messages: seq<Message>, input: seq<Byte>, tail: seq<Byte>,
                       limit: nat)
    requires Awaits(l, parts, messages, limit) && Fragments(CONTINUATION, parts) + AllFragments(messages) == DataOf([])
    requires l.at <= |input| && input[l.at..] == Stream([]) + tail
    ensures Outcome(l, parts, messages) == [] && Behind(l, []) == l && input[l.at..] == tail
    ensures Events(l, input, limit) == [] + Events(l, input, limit)
  {
    hide Events;
    if messages != [] { FragmentsStart(messages); }
    assert |Fragments(CONTINUATION, parts)| == 0 && |AllFragments(messages)| == 0;
    assert parts == [] && messages == [];
    assert [] + tail == tail && l.sent + [] == l.sent;
  }

  lemma MovesTell(l: Link, parts: seq<seq<Byte>>, messages: seq<Message>, next: Link, event: Event,
                  parts': seq<seq<Byte>>, messages': seq<Message>, data: seq<Frame>, limit: nat)
    requires Moves(l, parts, messages, next, event, parts', messages', data, limit)
    ensures event != Error && Awaits(next, parts', messages', limit)
    ensures data == Fragments(CONTINUATION, parts') + AllFragments(messages')
    ensures Outcome(l, parts, messages) == (if event == Nothing then [] else [event]) + Outcome(next, parts', messages')
  {
    hide Awaits, Outcome;
  }

  lemma FragmentsStart(messages: seq<Message>)
    requires messages != []
    ensures messages[0].parts != [] ==> |AllFragments(messages)| > 0
  {
  }

  lemma AwaitsLive(l: Link, parts: seq<seq<Byte>>, messages: seq<Message>, limit: nat)
    requires Awaits(l, parts, messages, limit)
    ensures Live(l.state)
  {
  }

  /** The first frame of a stream is read back, and the rest of the stream stands behind it. */
  lemma StreamStep(frames: seq<Frame>, input: seq<Byte>, tail: seq<Byte>, at: nat, limit: nat)
    requires frames != [] && Streamable(frames, limit) && at <= |input| && input[at..] == Stream(frames) + tail
    ensures Encodable(frames[0]) && Streamable(frames[1..], limit)
    ensures var end := at + |EncodeFrame(frames[0])|;
            && at < end <= |input| && input[end..] == Stream(frames[1..]) + tail
            && ReadFrame(input, at, limit) == Some((frames[0].(form := 0), end))
    ensures IsControl(frames[0].opcode) <==> frames[0].opcode == PING || frames[0].opcode == PONG
  {
    hide EncodeFrame, ReadFrame;
    var e, rest := EncodeFrame(frames[0]), Stream(frames[1..]);
    assert Stream(frames) == e + rest;
    hide Stream, LawfulFrame, Encodable, IsControl;
    TwoParts(input, at, e, rest, tail);
    FrameReadsBack(input, at, frames[0], limit);
  }

  lemma TwoParts(input: seq<Byte>, at: nat, e: seq<Byte>, rest: seq<Byte>, tail: seq<Byte>)
    requires at <= |input| && input[at..] == (e + rest) + tail
    ensures at + |e| <= |input| && input[at..at + |e|] == e && input[at + |e|..] == rest + tail
  {
    var s := input[at..];
    assert s == e + (rest + tail);
    assert input[at..at + |e|] == s[..|e|] && input[at + |e|..] == s[|e|..];
  }

  lemma DataSplits(frames: seq<Frame>)
    requires frames != []
    ensures IsControl(frames[0].opcode) ==> DataOf(frames) == DataOf(frames[1..])
    ensures !IsControl(frames[0].opcode) ==> DataOf(frames) == [frames[0].(form := 0)] + DataOf(frames[1..])
    ensures Pings(frames) == (if frames[0].opcode == PING then 1 else 0) + Pings(frames[1..])
  {
    assert IsControl(frames[0].opcode) ==> [] + DataOf(frames[1..]) == DataOf(frames[1..]);
  }

  lemma EventsStep(l: Link, input: seq<Byte>, limit: nat, f: Frame, end: nat)
    requires Live(l.state) && l.at < |input| && ReadFrame(input, l.at, limit) == Some((f, end))
    ensures var (next, event) := Accept(l.(at := end), f, limit);
            event != Error ==>
              Events(l, input, limit) == (if event == Nothing then [] else [event]) + Events(next, input, limit)
  {
    hide ReadFrame, Accept;
  }

  lemma ControlStep(frames: seq<Frame>, l: Link, end: nat, parts: seq<seq<Byte>>, messages: seq<Message>, limit: nat)
    requires frames != [] && (frames[0].opcode == PING || frames[0].opcode == PONG) && Pings(frames) <= l.writes
    requires Awaits(l, parts, messages, limit)
    ensures var (next, event) := Accept(l.(at := end), frames[0].(form := 0), limit);
            && event == Nothing && next.at == end && Awaits(next, parts, messages, limit)
            && next == (if frames[0].opcode == PING
                        then l.(at := end, writes := l.writes - 1, sent := l.sent + [Reply(PONG, frames[0].payload)])
                        else l.(at := end))
            && Outcome(next, parts, messages) == Outcome(l, parts, messages)
  {
    hide Deliverable, Joined, DeliveredAll, IsEncoding;
  }

  /** One fragment moves the connection from what it awaits to what it awaits then. */
  ghost predicate Moves(l: Link, parts: seq<seq<Byte>>, messages: seq<Message>, next: Link, event: Event,
                        parts': seq<seq<Byte>>, messages': seq<Message>, data: seq<Frame>, limit: nat) {
    && event != Error && Awaits(next, parts', messages', limit)
    && data == Fragments(CONTINUATION, parts') + AllFragments(messages')
    && Outcome(l, parts, messages) == (if event == Nothing then [] else [event]) + Outcome(next, parts', messages')
  }

  lemma DataStep(l: Link, end: nat, f: Frame, parts: seq<seq<Byte>>, messages: seq<Message>, data: seq<Frame>,
                 limit: nat)
    requires Awaits(l, parts, messages, limit) && !IsControl(f.opcode)
    requires [f] + data == Fragments(CONTINUATION, parts) + AllFragments(messages)
    ensures parts == [] ==> messages != [] && messages[0].parts != []
    ensures var (next, event) := Accept(l.(at := end), f, limit);
            && next == l.(at := end, opcode := next.opcode, message := next.message) && event != Error
            && Moves(l, parts, messages, next, event,
                     if parts != [] then parts[1..] else messages[0].parts[1..],
                     if parts != [] then messages else messages[1..], data, limit)
  {
    if parts != [] {
      PartStep(l, end, f, parts, messages, data, limit);
    } else {
      StartStep(l, end, f, messages, data, limit);
    }
  }

  lemma FirstFragment(opcode: nat, parts: seq<seq<Byte>>, more: seq<Frame>, f: Frame, data: seq<Frame>)
    requires parts != [] && [f] + data == Fragments(opcode, parts) + more
    ensures f == Frame(|parts| == 1, opcode, 0, parts[0]) && data == Fragments(CONTINUATION, parts[1..]) + more
  {
    var rest := Fragments(CONTINUATION, parts[1..]);
    assert Fragments(opcode, parts) + more == [Frame(|parts| == 1, opcode, 0, parts[0])] + (rest + more);
    assert ([f] + data)[1..] == data;
  }

  /** Joining goes on where the message stands. */
  lemma JoinStep(message: seq<Byte>, parts: seq<seq<Byte>>)
    requires parts != []
    ensures message + Joined(parts) == (message + parts[0]) + Joined(parts[1..])
    ensures |parts| == 1 ==> message + Joined(parts) == message + parts[0]
  {
    var p, rest := parts[0], Joined(parts[1..]);
    assert Joined(parts) == p + rest;
    assert |parts| == 1 ==> parts[1..] == [] && rest == [];
    hide *;
    assert message + (p + rest) == (message + p) + rest;
    if |parts| == 1 { assert p + [] == p; }
  }

  lemma PartStep(l: Link, end: nat, f: Frame, parts: seq<seq<Byte>>, messages: seq<Message>, data: seq<Frame>,
                 limit: nat)
    requires Awaits(l, parts, messages, limit) && parts != []
    requires [f] + data == Fragments(CONTINUATION, parts) + AllFragments(messages)
    ensures var (next, event) := Accept(l.(at := end), f, limit);
            next == l.(at := end, opcode := next.opcode, message := next.message)
            && Moves(l, parts, messages, next, event, parts[1..], messages, data, limit)
  {
    hide ValidFrom, IsEncoding, Deliverable, AllFragments, Joined, DeliveredAll, Fragments;
    FirstFragment(CONTINUATION, parts, AllFragments(messages), f, data);
    JoinStep(l.message, parts);
    ValidIffEncoding(l.message + parts[0]);
    ShutEnds(l, parts[1..], messages);
  }

  lemma ShutEnds(l: Link, parts: seq<seq<Byte>>, messages: seq<Message>)
    ensures parts == [] ==> Outcome(l.(opcode := 0, message := []), parts, messages) == DeliveredAll(messages)
  {
  }

  lemma StartFragment(messages: seq<Message>, f: Frame, data: seq<Frame>, limit: nat)
    requires Deliverable(messages, limit) && [f] + data == Fragments(CONTINUATION, []) + AllFragments(messages)
    ensures messages != [] && messages[0].parts != []
    ensures f == Frame(|messages[0].parts| == 1, if messages[0].text then TEXT else BINARY, 0, messages[0].parts[0])
    ensures data == Fragments(CONTINUATION, messages[0].parts[1..]) + AllFragments(messages[1..])
  {
    hide Joined, IsEncoding;
    assert |[f] + data| > 0;
    var parts, kind := messages[0].parts, if messages[0].text then TEXT else BINARY;
    assert Fragments(CONTINUATION, []) + AllFragments(messages) == Fragments(kind, parts) + AllFragments(messages[1..]);
    hide *;
    FirstFragment(kind, parts, AllFragments(messages[1..]), f, data);
  }

  lemma StartStep(l: Link, end: nat, f: Frame, messages: seq<Message>, data: seq<Frame>, limit: nat)
    requires Awaits(l, [], messages, limit) && !IsControl(f.opcode)
    requires [f] + data == Fragments(CONTINUATION, []) + AllFragments(messages)
    ensures messages != [] && messages[0].parts != []
    ensures var (next, event) := Accept(l.(at := end), f, limit);
            next == l.(at := end, opcode := next.opcode, message := next.message)
            && Moves(l, [], messages, next, event, messages[0].parts[1..], messages[1..], data, limit)
  {
    hide ValidFrom, IsEncoding, AllFragments, Joined, Fragments;
    StartFragment(messages, f, data, limit);
    var parts := messages[0].parts;
    assert [] + parts[0] == parts[0] && [] + Joined(parts) == Joined(parts);
    JoinStep([], parts);
    ValidIffEncoding([] + parts[0]);
    ShutEnds(l, parts[1..], messages[1..]);
  }

  // --- How a stream ends ---

  /** What the data frames of a message that is not finished carry. */
  function OpenFragments(opcode: nat, parts: seq<seq<Byte>>): seq<Frame> {
    if parts == [] then [] else [Frame(false, opcode, 0, parts[0])] + OpenFragments(CONTINUATION, parts[1..])
  }

  /** The connection behind a run of frames that goes on with a message and does not finish it. */
  function Piled(l: Link, kind: nat, parts: seq<seq<Byte>>, frames: seq<Frame>): Link
    requires (forall i :: 0 <= i < |frames| ==> Encodable(frames[i])) && Pings(frames) <= l.writes
  {
    Behind(l, frames).(opcode := if parts == [] then l.opcode else kind, message := l.message + Joined(parts))
  }

  /** A connection that can take these fragments of a message of the given kind. */
  predicate Takes(l: Link, kind: nat, parts: seq<seq<Byte>>, limit: nat) {
    && Live(l.state) && (kind == TEXT || kind == BINARY) && (l.opcode == 0 || l.opcode == kind)
    && (l.opcode == 0 ==> l.message == []) && |l.message + Joined(parts)| <= limit
  }

  function NextOpcode(l: Link, kind: nat): nat {
    if l.opcode == 0 then kind else CONTINUATION
  }

  lemma {:induction false} FragmentsPile(frames: seq<Frame>, kind: nat, parts: seq<seq<Byte>>, l: Link,
                                         input: seq<Byte>, tail: seq<Byte>, limit: nat)
    requires Streamable(frames, limit) && Takes(l, kind, parts, limit) && Pings(frames) <= l.writes
    requires DataOf(frames) == OpenFragments(NextOpcode(l, kind), parts)
    requires l.at <= |input| && input[l.at..] == Stream(frames) + tail
    ensures var z := Piled(l, kind, parts, frames);
            Events(l, input, limit) == Events(z, input, limit) && z.at <= |input| && input[z.at..] == tail
    decreases |frames|
  {
    hide *;
    if frames == [] {
      NothingPiled(l, kind, parts, input, tail);
    } else {
      StreamStep(frames, input, tail, l.at, limit);
      TakesLive(l, kind, parts, limit);
      var f, rest, end := frames[0].(form := 0), frames[1..], l.at + |EncodeFrame(frames[0])|;
      var (next, event) := Accept(l.(at := end), f, limit);
      DataSplits(frames);
      EventsStep(l, input, limit, f, end);
      if IsControl(f.opcode) {
        PauseStep(frames, l, end, kind, parts, limit);
        BehindStep(frames, l, next, limit);
        FragmentsPile(rest, kind, parts, next, input, tail, limit);
        PiledStep(frames, l, next, kind, parts, parts, limit);
      } else {
        PileStep(l, end, f, kind, parts, DataOf(rest), limit);
        BehindStep(frames, l, next, limit);
        FragmentsPile(rest, kind, parts[1..], next, input, tail, limit);
        PiledStep(frames, l, next, kind, parts, parts[1..], limit);
      }
      assert [] + Events(next, input, limit) == Events(next, input, limit);
    }
  }

  lemma TakesLive(l: Link, kind: nat, parts: seq<seq<Byte>>, limit: nat)
    requires Takes(l, kind, parts, limit)
    ensures Live(l.state)
  {
  }

  lemma NothingPiled(l: Link, kind: nat, parts: seq<seq<Byte>>, input: seq<Byte>, tail: seq<Byte>)
    requires DataOf([]) == OpenFragments(NextOpcode(l, kind), parts) && l.at <= |input|
             && input[l.at..] == Stream([]) + tail
    ensures Piled(l, kind, parts, []) == l && input[l.at..] == tail
  {
    assert parts == [];
    assert [] + tail == tail && l.sent + [] == l.sent && l.message + [] == l.message;
  }

  /** A ping or pong between fragments leaves the message alone. */
  lemma PauseStep(frames: seq<Frame>, l: Link, end: nat, kind: nat, parts: seq<seq<Byte>>, limit: nat)
    requires frames != [] && (frames[0].opcode == PING || frames[0].opcode == PONG) && Pings(frames) <= l.writes
    requires Takes(l, kind, parts, limit)
    ensures var (next, event) := Accept(l.(at := end), frames[0].(form := 0), limit);
            && event == Nothing && Takes(next, kind, parts, limit) && NextOpcode(next, kind) == NextOpcode(l, kind)
            && next == (if frames[0].opcode == PING
                        then l.(at := end, writes := l.writes - 1, sent := l.sent + [Reply(PONG, frames[0].payload)])
                        else l.(at := end))
  {
    hide Joined;
  }

  lemma PileStep(l: Link, end: nat, f: Frame, kind: nat, parts: seq<seq<Byte>>, data: seq<Frame>, limit: nat)
    requires Takes(l, kind, parts, limit) && [f] + data == OpenFragments(NextOpcode(l, kind), parts)
    ensures parts != []
    ensures var (next, event) := Accept(l.(at := end), f, limit);
            && event == Nothing && Takes(next, kind, parts[1..], limit)
               && data == OpenFragments(NextOpcode(next, kind), parts[1..])
            && next == l.(at := end, opcode := kind, message := l.message + parts[0])
  {
    hide ValidFrom, Joined;
    assert |[f] + data| > 0;
    assert ([f] + data)[0] == f && ([f] + data)[1..] == data;
    JoinStep(l.message, parts);
    assert l.opcode == 0 ==> [] + parts[0] == l.message + parts[0];
  }

  lemma PiledStep(frames: seq<Frame>, l: Link, next: Link, kind: nat, parts: seq<seq<Byte>>, parts': seq<seq<Byte>>,
                  limit: nat)
    requires frames != [] && Streamable(frames, limit) && Pings(frames) <= l.writes
    requires Streamable(frames[1..], limit) && Pings(frames[1..]) <= next.writes
             && Behind(next, frames[1..]) == Behind(l, frames)
    requires (parts' == parts && next.opcode == l.opcode && next.message == l.message)
             || (parts != [] && parts' == parts[1..] && next.opcode == kind && next.message == l.message + parts[0])
    ensures Piled(next, kind, parts', frames[1..]) == Piled(l, kind, parts, frames)
  {
    hide Behind, Joined;
    if parts' != parts { JoinStep(l.message, parts); }
  }

  /** A stream of whole messages, perhaps the beginning of one more, and then the end, a frame that is cut
      off or breaks a rule, or a close: the reader is handed exactly the whole messages, and then nothing,
      one error, or the close. */
  lemma StreamEnds(frames: seq<Frame>, messages: seq<Message>, begun: seq<Frame>, kind: nat, parts: seq<seq<Byte>>,
                   l: Link, input: seq<Byte>, tail: seq<Byte>, limit: nat)
    requires Streamable(frames, limit) && Deliverable(messages, limit) && DataOf(frames) == AllFragments(messages)
    requires Streamable(begun, limit) && DataOf(begun) == OpenFragments(kind, parts)
    requires (kind == TEXT || kind == BINARY) && |Joined(parts)| <= limit
    requires Live(l.state) && l.opcode == 0 && l.message == [] && Pings(frames) + Pings(begun) <= l.writes
    requires l.at <= |input| && input[l.at..] == Stream(frames) + (Stream(begun) + tail)
    ensures var z := Piled(Behind(l, frames), kind, parts, begun);
            && z.at <= |input| && input[z.at..] == tail
            && (tail == [] ==> Events(l, input, limit) == DeliveredAll(messages))
            && (tail != [] && Violates(z, input, limit) ==> Events(l, input, limit) == DeliveredAll(messages) + [Error])
            && (tail != [] && !BreaksWire(input, z.at, limit) && FrameAt(input, z.at, limit).opcode == CLOSE ==>
                  Events(l, input, limit)
                  == DeliveredAll(messages) + [PeerClosed(CodeOf(FrameAt(input, z.at, limit).payload))])
  {
    hide Deliverable, DataOf, AllFragments, OpenFragments, Stream, DeliveredAll, Events, Joined, Violates, BreaksWire,
         FrameAt;
    MessagesArrive(frames, messages, l, input, Stream(begun) + tail, limit);
    var idle := Behind(l, frames);
    assert [] + Joined(parts) == Joined(parts);
    FragmentsPile(begun, kind, parts, idle, input, tail, limit);
    var z := Piled(idle, kind, parts, begun);
    LastEvents(z, input, limit);
    assert DeliveredAll(messages) + [] == DeliveredAll(messages);
  }

  lemma LastEvents(z: Link, input: seq<Byte>, limit: nat)
    requires Live(z.state) && z.opcode in {0, TEXT, BINARY} && z.at <= |input|
    ensures input[z.at..] == [] ==> Events(z, input, limit) == []
    ensures input[z.at..] != [] && Violates(z, input, limit) ==> Events(z, input, limit) == [Error]
    ensures input[z.at..] != [] && !BreaksWire(input, z.at, limit) && FrameAt(input, z.at, limit).opcode == CLOSE ==>
              Events(z, input, limit) == [PeerClosed(CodeOf(FrameAt(input, z.at, limit).payload))]
  {
    hide ReadFrame, Accept, BreaksWire, BreaksTurn, FrameAt;
    FailsIffViolates(z, input, limit);
    ReadsIffLawful(input, z.at, limit);
    if !BreaksWire(input, z.at, limit) {
      var f, end := FrameAt(input, z.at, limit), z.at + HeadSize(input, z.at) + PayloadLength(input, z.at);
      OpcodeFits(input, z.at, limit);
      AcceptFailsIff(z.(at := end), f, limit);
    }
  }
}
