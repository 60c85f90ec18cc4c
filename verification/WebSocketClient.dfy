/** The connection object: frames are read off the transport and assembled in a growing buffer. Each
    step does to the connection what the reference in module WebSocket says, so polls hand out
    the events of the stream one by one. */
module WebSocketClient {
  import opened Bytes
  import opened Options
  import opened Utf8
  import opened WebSocket
  import opened WebSocketWire

  function Max(a: nat, b: nat): nat { if a > b then a else b }

  /** A capacity doubled until it is large enough, and no further. */
  function Doubled(cap: nat, wanted: nat): (r: nat)
    requires cap > 0
    ensures wanted <= r && (r == cap || r < 2 * wanted)
    decreases if cap < wanted then wanted - cap else 0
  {
    if wanted <= cap then cap else Doubled(2 * cap, wanted)
  }

  /** Behind a lawful header the payload decides. */
  lemma ConsumeIs(l: WebSocket.Link, input: seq<Byte>, limit: nat, h: Head)
    requires ReadHead(input, l.at) == Some(h) && Lawful(h, limit)
    ensures h.end + h.length > |input| ==> Consume(l, input, limit).1 == Error
    ensures h.end + h.length <= |input| ==>
              Consume(l, input, limit)
              == Accept(l.(at := h.end + h.length), Frame(h.fin, h.opcode, 0, input[h.end..h.end + h.length]), limit)
  {
    hide ReadHead, Lawful, Accept;
  }

  lemma BadHead(l: WebSocket.Link, input: seq<Byte>, limit: nat)
    requires ReadHead(input, l.at).None? || !Lawful(ReadHead(input, l.at).value, limit)
    ensures Consume(l, input, limit).1 == Error
  {
    hide ReadHead, Lawful;
  }

  lemma EventsUnfold(l: WebSocket.Link, input: seq<Byte>, limit: nat)
    requires Live(l.state) && l.at < |input|
    ensures var (next, event) := Consume(l, input, limit);
            Events(l, input, limit)
            == if event == Error
               then [Error]
               else (if event == Nothing then [] else [event]) + Events(next, input, limit)
    ensures var (next, event) := Consume(l, input, limit);
            && (event == Nothing ==> Live(next.state) && next.at > l.at)
            && (event.PeerClosed? ==> next.state == Closed)
  {
    hide ReadFrame, ValidFrom;
  }

  /** At the end of the input nothing more is handed out, and a read fails. */
  lemma EndFails(l: WebSocket.Link, input: seq<Byte>, limit: nat)
    requires l.at >= |input|
    ensures Consume(l, input, limit).1 == Error && Events(l, input, limit) == []
  {
  }

  class Client {
    const input: seq<Byte>            // all bytes the transport will deliver
    const limit: nat                  // the cap on one message
    var at: nat
    var writes: nat                   // sends the transport still takes
    var sent: seq<Reply>
    var state: State
    var message: array<Byte>
    var messageLength: nat
    var messageOpcode: nat
    var closeCode: nat
    var closeReason: seq<Byte>

    /** The reassembly buffer holds the message, and is never more than twice the cap. */
    ghost predicate Valid()
      reads this, message
    {
      && messageLength <= message.Length <= Max(FIRST_CAPACITY, 2 * limit)
      && messageLength <= limit && at <= |input|
      && messageOpcode in {0, TEXT, BINARY}
    }

    ghost function Link(): WebSocket.Link
      reads this, message
      requires Valid()
    {
      WebSocket.Link(state, messageOpcode, message[..messageLength], at, writes, sent, closeCode, closeReason)
    }

    constructor (bytes: seq<Byte>, cap: nat, sends: nat)
      ensures Valid() && fresh(message) && input == bytes && limit == cap
      ensures Link() == WebSocket.Link(Open, 0, [], 0, sends, [], NO_CODE, [])
    {
      input, limit, at, writes, sent, state := bytes, cap, 0, sends, [], Open;
      message := new Byte[FIRST_CAPACITY](_ => 0);
      messageLength, messageOpcode, closeCode, closeReason := 0, 0, NO_CODE, [];
    }

    method Fail() returns (event: Event)
      requires Valid()
      modifies this`state
      ensures Valid() && event == Error && Link() == old(Link()).(state := Failed)
    {
      state := Failed;
      event := Error;
    }

    method ReadExact(n: nat) returns (r: bool, bytes: seq<Byte>)
      requires Valid()
      modifies this`at
      ensures Valid() && r == (old(at) + n <= |input|)
      ensures r ==> at == old(at) + n && bytes == input[old(at)..at]
      ensures !r ==> at == old(at)
    {
      if at + n > |input| { return false, []; }
      bytes := input[at..at + n];
      at := at + n;
      r := true;
    }

    method SendFrame(opcode: nat, payload: seq<Byte>) returns (r: bool)
      requires Valid()
      modifies this`writes, this`sent
      ensures Valid() && r == (old(writes) > 0) && Link() == Send(old(Link()), Reply(opcode, payload))
    {
      if writes == 0 { return false; }
      writes, sent := writes - 1, sent + [Reply(opcode, payload)];
      r := true;
    }

    /** Grows the buffer by doubling, keeping what it holds. */
    method Reserve(wanted: nat)
      requires Valid() && wanted <= limit
      modifies this`message
      ensures Valid() && wanted <= message.Length && Link() == old(Link())
      ensures wanted <= old(message.Length) ==> message == old(message)
      ensures wanted > old(message.Length) ==>
                var cap := if old(message.Length) == 0 then FIRST_CAPACITY else old(message.Length);
                fresh(message) && message.Length == Doubled(cap, wanted)
    {
      if wanted <= message.Length { return; }
      var cap := if message.Length == 0 then FIRST_CAPACITY else message.Length;
      ghost var first := cap;
      while cap < wanted
        invariant 0 < cap <= Max(FIRST_CAPACITY, 2 * limit) && Doubled(cap, wanted) == Doubled(first, wanted)
        decreases wanted - cap
      {
        cap := cap * 2;
      }
      var grown := new Byte[cap](_ => 0);
      forall i | 0 <= i < messageLength { grown[i] := message[i]; }
      assert grown[..messageLength] == message[..messageLength];
      message := grown;
    }

    method AppendMessage(bytes: seq<Byte>) returns (r: bool)
      requires Valid()
      modifies this`state, this`message, this`messageLength, message
      ensures Valid() && r == (old(messageLength) + |bytes| <= limit)
      ensures r ==>
                messageLength == old(messageLength) + |bytes|
                && Link() == old(Link()).(message := old(Link()).message + bytes)
      ensures !r ==> state == Failed
      ensures message == old(message) || fresh(message)
    {
      if |bytes| > limit - messageLength {
        var event := Fail();
        return false;
      }
      Reserve(messageLength + |bytes|);
      ghost var kept := message[..messageLength];
      forall i | 0 <= i < |bytes| { message[messageLength + i] := bytes[i]; }
      messageLength := messageLength + |bytes|;
      assert message[..messageLength] == kept + bytes;
      r := true;
    }

    /** A number sent most significant byte first. */
    method ReadNumber(n: nat) returns (r: bool, value: nat)
      requires Valid()
      modifies this`at
      ensures Valid() && r == (old(at) + n <= |input|)
      ensures r ==> at == old(at) + n && value == FromBytes(input[old(at)..at])
      ensures !r ==> at == old(at)
    {
      var bytes;
      value := 0;
      r, bytes := ReadExact(n);
      if !r { return; }
      var i := 0;
      while i < n
        invariant 0 <= i <= n && value == FromBytes(bytes[..i])
      {
        assert bytes[..i + 1][..i] == bytes[..i];
        value := value * 256 + bytes[i];
        i := i + 1;
      }
      assert bytes[..n] == bytes;
    }

    method ReadFrameHeader() returns (head: Option<Head>)
      requires Valid()
      modifies this`at, this`state
      ensures Valid() && head == ReadHead(input, old(at))
      ensures head.Some? ==> at == head.value.end && state == old(state)
      ensures head.None? ==> state == Failed
    {
      hide FromBytes;
      var r, bytes := ReadExact(2);
      if !r {
        var event := Fail();
        return None;
      }
      if bytes[0] / 16 % 8 != 0 {
        var event := Fail();
        return None;
      }
      var fin, opcode, masked := bytes[0] >= 128, bytes[0] % 16, bytes[1] >= 128;
      var value: nat := bytes[1] % 128;
      if value == 126 {
        r, value := ReadNumber(2);
      } else if value == 127 {
        ghost var start := at;
        r, value := ReadNumber(8);
        if r && input[at - 8] >= 128 { r := false; }
      }
      if !r {
        var event := Fail();
        return None;
      }
      head := Some(Head(fin, opcode, masked, value, at));
    }

    /** What `Consume` says happened to the connection `l`. */
    ghost predicate Did(l: WebSocket.Link, event: Event)
      reads this, message
      requires Valid()
    {
      var spec := Consume(l, input, limit);
      event == spec.1 && (if event == Error then state == Failed else Link() == spec.0)
    }

    /** A close from the peer: answered once, recorded, and the end. */
    method TakeClose(payload: seq<Byte>)
      requires Valid() && Live(state)
      modifies this`writes, this`sent, this`closeCode, this`closeReason, this`state
      ensures Valid() && Link() == AcceptControl(old(Link()), Frame(true, CLOSE, 0, payload)).0
    {
      closeCode := if |payload| >= 2 then (payload[0] as int) * 256 + payload[1] as int else NO_CODE;
      closeReason := if |payload| > 2 then payload[2..] else [];
      if state == Open { var r := SendFrame(CLOSE, payload); }
      state := Closed;
    }

    /** A whole control frame acts at once. */
    method ActOn(opcode: nat, payload: seq<Byte>) returns (event: Event)
      requires Valid() && Live(state)
      modifies this`writes, this`sent, this`closeCode, this`closeReason, this`state
      ensures Valid()
      ensures var spec := AcceptControl(old(Link()), Frame(true, opcode, 0, payload));
              event == spec.1 && (if event == Error then state == Failed else Link() == spec.0)
    {
      if opcode == PING {
        var r := SendFrame(PONG, payload);
        if !r {
          event := Fail();
          return;
        }
        return Nothing;
      }
      if opcode == PONG { return Nothing; }
      if opcode == CLOSE {
        TakeClose(payload);
        return PeerClosed(closeCode);
      }
      event := Fail();
    }

    /** The rest of a control frame, behind its header. */
    method ConsumeControl(h: Head, ghost l: WebSocket.Link) returns (event: Event)
      requires Valid() && at == h.end && Link() == l.(at := h.end) && Live(state)
      requires ReadHead(input, l.at) == Some(h) && Lawful(h, limit) && IsControl(h.opcode)
      modifies this
      ensures Valid() && Did(l, event) && message == old(message)
    {
      assert h.fin;
      hide ReadHead, ValidFrom, Lawful, Consume, ReadFrame, AcceptData, AcceptControl;
      ConsumeIs(l, input, limit, h);
      var r, control := ReadExact(h.length);
      if !r {
        event := Fail();
        return;
      }
      event := ActOn(h.opcode, control);
    }

    /** `l` is `start` with the payload from `from` read up to `to`. */
    ghost predicate ReadUpTo(start: WebSocket.Link, l: WebSocket.Link, from: nat, to: nat) {
      from <= to <= |input| && l == start.(at := to, message := start.message + input[from..to])
    }

    lemma ChunkJoins(start: WebSocket.Link, l: WebSocket.Link, next: WebSocket.Link, from: nat, mid: nat, to: nat)
      requires ReadUpTo(start, l, from, mid) && ReadUpTo(l, next, mid, to)
      ensures ReadUpTo(start, next, from, to)
    {
      var a, b := input[from..mid], input[mid..to];
      assert input[from..to] == a + b;
      assert (start.message + a) + b == start.message + (a + b);
    }

    lemma NothingRead()
      requires Valid()
      ensures ReadUpTo(Link(), Link(), at, at)
    {
      assert Link().message + input[at..at] == Link().message;
    }

    /** The next bytes of a payload go to the message. */
    method ReadChunk(take: nat) returns (r: bool)
      requires Valid() && state != Failed
      modifies this`at, this`state, this`message, this`messageLength, message
      ensures Valid() && r == (old(at) + take <= |input| && old(messageLength) + take <= limit)
              && (r ==> state == old(state))
      ensures r ==>
                at == old(at) + take && messageLength == old(messageLength) + take
                && ReadUpTo(old(Link()), Link(), old(at), at)
      ensures !r ==> state == Failed
      ensures message == old(message) || fresh(message)
    {
      var chunk;
      r, chunk := ReadExact(take);
      if r { r := AppendMessage(chunk); }
      if !r && state != Failed { var event := Fail(); }
    }

    /** Payload bytes go to the message in chunks, as long as they fit. */
    method ReadPayload(length: nat) returns (r: bool)
      requires Valid() && state != Failed
      modifies this`at, this`state, this`message, this`messageLength, message
      ensures Valid() && r == (old(at) + length <= |input| && old(messageLength) + length <= limit)
      ensures r ==> at == old(at) + length && ReadUpTo(old(Link()), Link(), old(at), at)
      ensures !r ==> state == Failed
      ensures message == old(message) || fresh(message)
    {
      hide ReadUpTo, Link;
      ghost var start, from := Link(), at;
      var remaining: nat := length;
      NothingRead();
      while remaining > 0
        invariant Valid() && remaining <= length && at == from + (length - remaining)
        invariant messageLength == old(messageLength) + (length - remaining) && state != Failed
        invariant ReadUpTo(start, Link(), from, at)
        invariant message == old(message) || fresh(message)
      {
        var take := if remaining < CHUNK then remaining else CHUNK;
        ghost var l, mid := Link(), at;
        r := ReadChunk(take);
        if !r { return; }
        ChunkJoins(start, l, Link(), from, mid, at);
        remaining := remaining - take;
      }
      r := true;
    }

    /** Hands out the finished message, unless it is text that is not UTF-8. */
    method Deliver() returns (event: Event)
      requires Valid() && state != Failed
      modifies this`state, this`messageOpcode, this`messageLength
      ensures Valid()
      ensures (event == Error) == (old(messageOpcode) == TEXT && !ValidFrom(old(Link()).message, 0))
      ensures event == Error ==> state == Failed
      ensures event != Error ==>
                event == Delivered(old(messageOpcode), old(Link()).message)
                && Link() == old(Link()).(opcode := 0, message := [])
    {
      hide ValidFrom;
      var payload := message[..messageLength];
      if messageOpcode == TEXT {
        var valid := Utf8Valid(payload);
        if !valid {
          event := Fail();
          return;
        }
      }
      event := if messageOpcode == TEXT then Text(payload) else Binary(payload);
      messageOpcode, messageLength := 0, 0;
    }

    /** A data frame starts a message or goes on with the open one. */
    method OpenMessage(opcode: nat) returns (r: bool)
      requires Valid() && Live(state) && !IsControl(opcode)
      modifies this`state, this`messageOpcode, this`messageLength
      ensures Valid() && r == InTurn(old(messageOpcode), opcode)
      ensures r && old(messageOpcode) == 0 ==> Link() == old(Link()).(opcode := opcode, message := [])
      ensures r && old(messageOpcode) != 0 ==> Link() == old(Link())
      ensures !r ==> state == Failed
    {
      var event;
      if opcode == CONTINUATION {
        if messageOpcode == 0 {
          event := Fail();
          return false;
        }
      } else if opcode == TEXT || opcode == BINARY {
        if messageOpcode != 0 {
          event := Fail();
          return false;
        }
        messageOpcode, messageLength := opcode, 0;
      } else {
        event := Fail();
        return false;
      }
      r := true;
    }

    /** The rest of a data frame, behind its header. */
    method ConsumeData(h: Head, ghost l: WebSocket.Link) returns (event: Event)
      requires Valid() && at == h.end && Link() == l.(at := h.end) && Live(state)
      requires ReadHead(input, l.at) == Some(h) && Lawful(h, limit) && !IsControl(h.opcode)
      modifies this, message
      ensures Valid() && Did(l, event)
      ensures message == old(message) || fresh(message)
    {
      hide ReadHead, ValidFrom, Lawful, Consume, ReadFrame, AcceptControl;
      ConsumeIs(l, input, limit, h);
      var r := OpenMessage(h.opcode);
      if !r { return Error; }
      r := ReadPayload(h.length);
      if !r { return Error; }
      if !h.fin { return Nothing; }
      event := Deliver();
    }

    method ConsumeFrame() returns (event: Event)
      requires Valid() && Live(state)
      modifies this, message
      ensures Valid() && Did(old(Link()), event)
      ensures message == old(message) || fresh(message)
    {
      hide ReadHead, Accept, Consume, ReadFrame;
      ghost var l := Link();
      var head := ReadFrameHeader();
      if head.None? || !Lawful(head.value, limit) { BadHead(l, input, limit); }
      if head.None? { return Error; }
      var h := head.value;
      if h.masked || h.length > limit {
        event := Fail();
        return;
      }
      if IsControl(h.opcode) {
        if !h.fin || h.length > CONTROL_MAX {
          event := Fail();
          return;
        }
        event := ConsumeControl(h, l);
      } else {
        event := ConsumeData(h, l);
      }
    }

    /** Reads frames whenever the transport is ready, until there is something to hand out or the deadline is
        past. `start` is the clock when the poll begins; the clock reaches the deadline. */
    method Poll(start: nat, budget: nat, ticks: seq<Tick>) returns (event: Event)
      requires Valid() && ticks != [] && ticks[|ticks| - 1].now >= start + budget
      modifies this, message
      ensures Valid() && (message == old(message) || fresh(message))
      ensures event == Polled(old(Link()), input, limit, start + budget, ticks).1
      ensures event != Error ==> Link() == Polled(old(Link()), input, limit, start + budget, ticks).0
      ensures event == Error ==> state == Failed
    {
      hide Consume, IsControl;
      if state == Failed { return Error; }
      if state == Closed { return PeerClosed(closeCode); }
      var deadline, i := start + budget, 0;
      ghost var l := Link();
      assert ticks[0..] == ticks;
      while true
        invariant Valid() && Live(state) && i < |ticks| && (message == old(message) || fresh(message))
        invariant Polled(l, input, limit, deadline, ticks) == Polled(Link(), input, limit, deadline, ticks[i..])
        decreases |ticks| - i
      {
        var tick := ticks[i];
        assert ticks[i..][1..] == ticks[i + 1..];
        if tick.now >= deadline { return Nothing; }
        if tick.ready == Quiet {
          i := i + 1;
          continue;
        }
        if tick.ready == Broken {
          event := Fail();
          return;
        }
        ConsumeLives(Link(), input, limit);
        event := ConsumeFrame();
        if event != Nothing { return; }
        i := i + 1;
      }
    }
  }

  // --- Polling ---

  /** What the transport answers when it is asked for input. Told to be ready with nothing left to read, it
      has hung up: the read fails. */
  datatype Readiness = Quiet | Ready | Broken

  /** A look at the clock, and the answer that follows. */
  datatype Tick = Tick(now: nat, ready: Readiness)

  /** A poll on values. */
  function Polled(l: WebSocket.Link, input: seq<Byte>, limit: nat, deadline: nat, ticks: seq<Tick>)
    : (WebSocket.Link, Event)
    decreases |ticks|
  {
    if l.state == Failed then (l, Error)
    else if l.state == Closed then (l, PeerClosed(l.closeCode))
    else if ticks == [] || ticks[0].now >= deadline then (l, Nothing)
    else
      match ticks[0].ready
      case Quiet => Polled(l, input, limit, deadline, ticks[1..])
      case Broken => (l.(state := Failed), Error)
      case Ready =>
        var (next, event) := Consume(l, input, limit);
        if event == Nothing then Polled(next, input, limit, deadline, ticks[1..]) else (next, event)
  }

  lemma ConsumeLives(l: WebSocket.Link, input: seq<Byte>, limit: nat)
    requires Live(l.state) && l.at <= |input|
    ensures Consume(l, input, limit).1 == Nothing ==>
              Live(Consume(l, input, limit).0.state) && Consume(l, input, limit).0.at <= |input|
  {
    if l.at < |input| { EventsUnfold(l, input, limit); } else { EndFails(l, input, limit); }
  }

  /** A poll of a live connection hands out the next event of the stream, or nothing. An error is that of the
      stream, a hang-up at its end, or a transport that broke before the deadline. */
  lemma {:induction false} PollIsNextEvent(l: WebSocket.Link, input: seq<Byte>, limit: nat, deadline: nat,
                                           ticks: seq<Tick>)
    requires Live(l.state) && l.at <= |input|
    ensures var (next, event) := Polled(l, input, limit, deadline, ticks);
            && (event == Nothing ==>
                  Live(next.state) && next.at <= |input| && Events(l, input, limit) == Events(next, input, limit))
            && (event != Nothing && event != Error ==>
                  next.at <= |input| && next.state != Failed
                  && Events(l, input, limit) == [event] + Events(next, input, limit))
            && (event == Error ==>
                  && next.state == Failed
                  && (Events(l, input, limit) in [[Error], []]
                      || exists t :: t in ticks && t.now < deadline && t.ready == Broken))
    decreases |ticks|
  {
    hide Consume, Events;
    if ticks != [] && ticks[0].now < deadline {
      if ticks[0].ready == Quiet {
        PollIsNextEvent(l, input, limit, deadline, ticks[1..]);
      } else if ticks[0].ready == Ready {
        if l.at < |input| { EventsUnfold(l, input, limit); } else { EndFails(l, input, limit); }
        ConsumeLives(l, input, limit);
        var (next, event) := Consume(l, input, limit);
        if event == Nothing {
          assert [] + Events(next, input, limit) == Events(next, input, limit);
          PollIsNextEvent(next, input, limit, deadline, ticks[1..]);
        }
      }
    }
  }

  /** The looks at the clock before the deadline. */
  function Timely(ticks: seq<Tick>, deadline: nat): (r: seq<Tick>)
    ensures |r| <= |ticks|
  {
    if ticks == [] || ticks[0].now >= deadline then [] else [ticks[0]] + Timely(ticks[1..], deadline)
  }

  function TimesReady(ticks: seq<Tick>): nat {
    if ticks == [] then 0 else (if ticks[0].ready == Ready then 1 else 0) + TimesReady(ticks[1..])
  }

  /** A poll that hands out nothing has read a frame each time the transport was ready before the deadline, and met no
      broken transport: so it cannot hand out nothing if it was told so more often than the input has frames. */
  lemma {:induction false} PollReadsOn(l: WebSocket.Link, input: seq<Byte>, limit: nat, deadline: nat,
                                       ticks: seq<Tick>)
    requires Live(l.state) && l.at <= |input| && Polled(l, input, limit, deadline, ticks).1 == Nothing
    ensures Polled(l, input, limit, deadline, ticks).0.at >= l.at + 2 * TimesReady(Timely(ticks, deadline))
    ensures 2 * TimesReady(Timely(ticks, deadline)) <= |input| - l.at
    ensures forall t :: t in Timely(ticks, deadline) ==> t.ready != Broken
    decreases |ticks|
  {
    hide Consume;
    PollIsNextEvent(l, input, limit, deadline, ticks);
    if ticks != [] && ticks[0].now < deadline {
      var rest := Timely(ticks[1..], deadline);
      assert Timely(ticks, deadline) == [ticks[0]] + rest && ([ticks[0]] + rest)[1..] == rest;
      if ticks[0].ready == Quiet {
        PollReadsOn(l, input, limit, deadline, ticks[1..]);
      } else {
        FrameIsRead(l, input, limit);
        ConsumeLives(l, input, limit);
        PollReadsOn(Consume(l, input, limit).0, input, limit, deadline, ticks[1..]);
      }
    }
  }

  lemma FrameIsRead(l: WebSocket.Link, input: seq<Byte>, limit: nat)
    ensures Consume(l, input, limit).1 != Error ==> Consume(l, input, limit).0.at >= l.at + 2
  {
    hide ReadHead, ValidFrom;
  }

  datatype Call = Call(deadline: nat, ticks: seq<Tick>)

  /** The transport broke before the deadline of a call. */
  ghost predicate BreaksIn(calls: seq<Call>) {
    exists i, t :: 0 <= i < |calls| && t in calls[i].ticks && t.now < calls[i].deadline && t.ready == Broken
  }

  /** What polls hand out one after the other, as long as the connection lives. */
  function Collected(l: WebSocket.Link, input: seq<Byte>, limit: nat, calls: seq<Call>): seq<Event>
    decreases |calls|
  {
    if calls == [] || !Live(l.state) then []
    else
      var (next, event) := Polled(l, input, limit, calls[0].deadline, calls[0].ticks);
      (if event == Nothing then [] else [event]) + Collected(next, input, limit, calls[1..])
  }

  /** However a reader polls, it is handed the events of the stream in order, none twice and none left out. Only
      the last may be an error that is not of the stream: behind all of its events, or on a broken transport. */
  lemma {:induction false} PollsHandOutEvents(l: WebSocket.Link, input: seq<Byte>, limit: nat, calls: seq<Call>)
    requires Live(l.state) && l.at <= |input|
    ensures var c, es := Collected(l, input, limit, calls), Events(l, input, limit);
            || c <= es
            || (c != [] && c[|c| - 1] == Error && c[..|c| - 1] <= es && (c[..|c| - 1] == es || BreaksIn(calls)))
    decreases |calls|
  {
    hide Events, Polled, BreaksIn;
    if calls != [] {
      var (next, event) := Polled(l, input, limit, calls[0].deadline, calls[0].ticks);
      PollIsNextEvent(l, input, limit, calls[0].deadline, calls[0].ticks);
      if event == Error {
        OneError(next, input, limit, calls);
      } else if Live(next.state) {
        PollsHandOutEvents(next, input, limit, calls[1..]);
        LaterBreaks(calls);
        InFront(if event == Nothing then [] else [event], Collected(next, input, limit, calls[1..]),
                Events(next, input, limit));
      }
    }
  }

  lemma OneError(next: WebSocket.Link, input: seq<Byte>, limit: nat, calls: seq<Call>)
    requires calls != [] && !Live(next.state)
    ensures [Error] + Collected(next, input, limit, calls[1..]) == [Error]
    ensures (exists t :: t in calls[0].ticks && t.now < calls[0].deadline && t.ready == Broken) ==> BreaksIn(calls)
  {
  }

  lemma LaterBreaks(calls: seq<Call>)
    requires calls != []
    ensures BreaksIn(calls[1..]) ==> BreaksIn(calls)
  {
    if BreaksIn(calls[1..]) {
      var i, t :| 0 <= i < |calls[1..]| && t in calls[1..][i].ticks && t.now < calls[1..][i].deadline
                  && t.ready == Broken;
      assert calls[1..][i] == calls[i + 1];
    }
  }

  lemma InFront(front: seq<Event>, c: seq<Event>, es: seq<Event>)
    ensures c <= es ==> front + c <= front + es
    ensures c != [] ==> front + c != [] && (front + c)[|front + c| - 1] == c[|c| - 1]
                        && (front + c)[..|front + c| - 1] == front + c[..|c| - 1]
    ensures c != [] && c[..|c| - 1] <= es ==> front + c[..|c| - 1] <= front + es
  {
  }
}
