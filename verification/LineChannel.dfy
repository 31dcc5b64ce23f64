/** The newline-framed control channel: a byte buffer over a socket. */
module LineChannel {
  import opened Results

  type Bytes = seq<int>

  const NEWLINE := 10

  type Chunk = b: Bytes | b != [] witness [NEWLINE]

  /** What the socket does next: deliver bytes, stay silent past the deadline, or end. */
  datatype Arrival = Data(bytes: Chunk) | Silence | Closed

  /** A decoded JSON object; a field that is absent or of another type is `None`. */
  datatype Message = Message(event: Option<string>, nonce: Option<string>, body: Bytes)

  datatype ChannelError = InvalidJson | EventOrNonceMismatch | TimedOut | SocketClosed

  // ----- Lines

  /** The position of the first newline, or the length if there is none. */
  function Find(text: Bytes): (k: nat)
    ensures k <= |text|
    ensures forall j :: 0 <= j < k ==> text[j] != NEWLINE
    ensures k < |text| ==> text[k] == NEWLINE
  {
    if text == [] || text[0] == NEWLINE then 0 else 1 + Find(text[1..])
  }

  predicate HasLine(text: Bytes) {
    Find(text) < |text|
  }

  function FirstLine(text: Bytes): Bytes {
    text[..Find(text)]
  }

  function AfterLine(text: Bytes): Bytes
    requires HasLine(text)
  {
    text[Find(text) + 1..]
  }

  lemma FindIs(text: Bytes, k: nat)
    requires k < |text| && text[k] == NEWLINE && forall j :: 0 <= j < k ==> text[j] != NEWLINE
    ensures Find(text) == k
  {
    var found := Find(text);
  }

  lemma NoLineInTail(tail: Bytes)
    requires NewlineFree(tail)
    ensures !HasLine(tail)
  {
    var found := Find(tail);
  }

  /** More bytes at the end do not move the first newline. */
  lemma LineIsStable(text: Bytes, more: Bytes)
    requires HasLine(text)
    ensures HasLine(text + more)
    ensures FirstLine(text + more) == FirstLine(text)
    ensures AfterLine(text + more) == AfterLine(text) + more
  {
    FindIs(text + more, Find(text));
  }

  ghost predicate AllData(arrivals: seq<Arrival>) {
    forall a :: a in arrivals ==> a.Data?
  }

  /** The bytes still to come. */
  ghost function Text(arrivals: seq<Arrival>): Bytes {
    if arrivals == [] then []
    else (if arrivals[0].Data? then arrivals[0].bytes else []) + Text(arrivals[1..])
  }

  lemma {:induction false} TextConcat(a: seq<Arrival>, b: seq<Arrival>)
    ensures Text(a + b) == Text(a) + Text(b)
  {
    if a == [] {
      assert a + b == b;
    } else {
      TextConcat(a[1..], b);
      assert (a + b)[1..] == a[1..] + b;
    }
  }

  lemma Regroup(a: Bytes, b: Bytes, c: Bytes)
    ensures (a + b) + c == a + (b + c)
  {
  }

  lemma TextOne(arrival: Arrival)
    ensures Text([arrival]) == if arrival.Data? then arrival.bytes else []
  {
    assert [arrival][1..] == [];
  }

  lemma StreamSplits(held: Bytes, seen: seq<Arrival>, rest: seq<Arrival>)
    ensures held + Text(seen + rest) == (held + Text(seen)) + Text(rest)
  {
    TextConcat(seen, rest);
    Regroup(held, Text(seen), Text(rest));
  }

  // ----- Framing

  predicate NewlineFree(m: Bytes) {
    forall k :: 0 <= k < |m| ==> m[k] != NEWLINE
  }

  function Frame(messages: seq<Bytes>): Bytes {
    if messages == [] then [] else messages[0] + [NEWLINE] + Frame(messages[1..])
  }

  /** A frame is the message and byte 10, and the message has no byte 10. */
  lemma FrameEndsInNewline(m: Bytes, messages: seq<Bytes>)
    ensures Frame([m] + messages) == m + [10] + Frame(messages) && Frame([]) == []
    ensures NewlineFree(m) <==> 10 !in m
  {
    assert ([m] + messages)[1..] == messages;
  }

  /** What one call takes from the stream: the first line, or nothing. */
  ghost predicate Delivers(before: Bytes, line: Option<Bytes>, after: Bytes) {
    if line.Some? then HasLine(before) && line.value == FirstLine(before) && after == AfterLine(before)
    else after == before
  }

  ghost function Delivered(lines: seq<Option<Bytes>>): seq<Bytes> {
    if lines == [] then []
    else (if lines[0].Some? then [lines[0].value] else []) + Delivered(lines[1..])
  }

  lemma FramedLine(m: Bytes, rest: Bytes)
    requires NewlineFree(m)
    ensures HasLine(m + [NEWLINE] + rest)
    ensures FirstLine(m + [NEWLINE] + rest) == m && AfterLine(m + [NEWLINE] + rest) == rest
  {
    FindIs(m + [NEWLINE] + rest, |m|);
  }

  /** Whatever calls are made, and however the stream was cut into chunks, the lines delivered are
      the messages sent, in order, none twice and none left out; what has not been delivered is
      still in the stream, an incomplete tail included. */
  lemma {:induction false} DeliveryInOrder(messages: seq<Bytes>, tail: Bytes, texts: seq<Bytes>,
                                           lines: seq<Option<Bytes>>)
    requires forall i :: 0 <= i < |messages| ==> NewlineFree(messages[i])
    requires NewlineFree(tail)
    requires |texts| == |lines| + 1 && texts[0] == Frame(messages) + tail
    requires forall i :: 0 <= i < |lines| ==> Delivers(texts[i], lines[i], texts[i + 1])
    ensures Delivered(lines) <= messages
    ensures texts[|lines|] == Frame(messages[|Delivered(lines)|..]) + tail
    decreases |lines|
  {
    if lines == [] {
      assert messages[0..] == messages;
    } else {
      if messages == [] {
        assert Frame(messages) + tail == tail;
        NoLineInTail(tail);
      }
      assert Delivers(texts[0], lines[0], texts[0 + 1]);
      var rest := messages;
      if lines[0].Some? {
        rest := messages[1..];
        FramedLine(messages[0], Frame(rest) + tail);
        assert Frame(messages) + tail == messages[0] + [NEWLINE] + (Frame(rest) + tail);
      }
      forall i | 0 <= i < |lines[1..]| ensures Delivers(texts[1..][i], lines[1..][i], texts[1..][i + 1]) {
        assert Delivers(texts[i + 1], lines[i + 1], texts[i + 1 + 1]);
      }
      DeliveryInOrder(rest, tail, texts[1..], lines[1..]);
      if lines[0].Some? {
        assert messages == [messages[0]] + rest;
        assert messages[|Delivered(lines)|..] == rest[|Delivered(lines[1..])|..];
      }
    }
  }

  // ----- Waiting for a line

  /** How a wait ends: with a line or with what stopped it, and what is held and still to come. */
  datatype Wait = Wait(line: Result<Bytes, ChannelError>, buffer: Bytes, socket: seq<Arrival>)

  /** Takes the first line that is held, reading one arrival at a time while there is none. */
  ghost function WaitFor(buffer: Bytes, socket: seq<Arrival>): Wait
    decreases |socket|
  {
    if HasLine(buffer) then Wait(Ok(FirstLine(buffer)), AfterLine(buffer), socket)
    else if socket == [] then Wait(Err(TimedOut), buffer, socket)
    else
      match socket[0]
      case Silence => Wait(Err(TimedOut), buffer, socket[1..])
      case Closed => Wait(Err(SocketClosed), buffer, socket[1..])
      case Data(bytes) => WaitFor(buffer + bytes, socket[1..])
  }

  ghost function Taken(w: Wait): Option<Bytes> {
    if w.line.Ok? then Some(w.line.value) else None
  }

  lemma {:induction false} WaitTakes(buffer: Bytes, socket: seq<Arrival>)
    ensures var w := WaitFor(buffer, socket);
            && Delivers(buffer + Text(socket), Taken(w), w.buffer + Text(w.socket))
            && (AllData(socket) && HasLine(buffer + Text(socket)) ==> w.line.Ok?)
    decreases |socket|
  {
    if HasLine(buffer) {
      LineIsStable(buffer, Text(socket));
    } else if socket == [] {
      assert buffer + Text(socket) == buffer;
    } else if socket[0].Data? {
      Regroup(buffer, socket[0].bytes, Text(socket[1..]));
      WaitTakes(buffer + socket[0].bytes, socket[1..]);
    }
  }

  lemma {:induction false} WaitStops(buffer: Bytes, socket: seq<Arrival>)
    ensures var w := WaitFor(buffer, socket);
            && |w.socket| <= |socket| && w.socket == socket[|socket| - |w.socket|..]
            && (w.line.Err? ==> !HasLine(w.buffer))
            && (w.line == Err(SocketClosed) ==> Closed in socket)
            && (w.line == Err(TimedOut) ==> w.socket == [] || Silence in socket)
            && (w.line.Err? ==> w.line.error.TimedOut? || w.line.error.SocketClosed?)
    decreases |socket|
  {
    if !HasLine(buffer) && socket != [] && socket[0].Data? {
      WaitStops(buffer + socket[0].bytes, socket[1..]);
    }
  }

  /** A wait takes the first line of the stream or nothing; a stream of chunks that holds a line
      yields it, and a wait that yields none has met a silence or the end, or read everything. */
  lemma WaitDelivers(buffer: Bytes, socket: seq<Arrival>)
    ensures var w := WaitFor(buffer, socket);
            && Delivers(buffer + Text(socket), Taken(w), w.buffer + Text(w.socket))
            && |w.socket| <= |socket| && w.socket == socket[|socket| - |w.socket|..]
            && (AllData(socket) && HasLine(buffer + Text(socket)) ==> w.line.Ok?)
            && (w.line.Err? ==> !HasLine(w.buffer))
            && (w.line == Err(SocketClosed) ==> Closed in socket)
            && (w.line == Err(TimedOut) ==> w.socket == [] || Silence in socket)
            && (w.line.Err? ==> w.line.error.TimedOut? || w.line.error.SocketClosed?)
  {
    WaitTakes(buffer, socket);
    WaitStops(buffer, socket);
  }

  /** The arrivals of a wait that begins by reading one, and what comes before the last of them. */
  lemma ReadOneMore(buffer: Bytes, socket: seq<Arrival>, n: nat)
    requires 0 < n <= |socket| && socket[0].Data? && AllData(socket[1..][..n - 1])
    ensures AllData(socket[..n])
    ensures buffer + Text(socket[..n - 1])
         == if n == 1 then buffer else buffer + socket[0].bytes + Text(socket[1..][..n - 2])
  {
    assert socket[..n] == [socket[0]] + socket[1..][..n - 1];
    if n > 1 {
      assert socket[..n - 1][1..] == socket[1..][..n - 2];
      Regroup(buffer, socket[0].bytes, Text(socket[1..][..n - 2]));
    }
  }

  /** No chunk is read that the line does not need. */
  lemma {:induction false} WaitReadsNoMore(buffer: Bytes, socket: seq<Arrival>)
    requires WaitFor(buffer, socket).line.Ok?
    ensures var n := |socket| - |WaitFor(buffer, socket).socket|;
            && 0 <= n <= |socket| && AllData(socket[..n])
            && (n > 0 ==> !HasLine(buffer + Text(socket[..n - 1])))
    decreases |socket|
  {
    if HasLine(buffer) {
      assert socket[..0] == [];
    } else {
      var n := |socket| - |WaitFor(buffer, socket).socket|;
      WaitReadsNoMore(buffer + socket[0].bytes, socket[1..]);
      ReadOneMore(buffer, socket, n);
    }
  }

  // ----- The channel

  /** What becomes of a line: a message if it decodes to an object with an event and the nonce, and
      otherwise one of two errors. */
  ghost predicate Judged(decode: Bytes -> Option<Message>, nonce: string, line: Bytes,
                         r: Result<Message, ChannelError>)
  {
    && (decode(line).None? ==> r == Err(InvalidJson))
    && (decode(line).Some? ==>
          var m := decode(line).value;
          if m.event != None && m.nonce == Some(nonce) then r == Ok(m) else r == Err(EventOrNonceMismatch))
  }

  class Channel {
    const nonce: string
    const decode: Bytes -> Option<Message>
    var buffer: Bytes
    var socket: seq<Arrival>

    constructor (nonce: string, decode: Bytes -> Option<Message>, socket: seq<Arrival>)
      ensures this.nonce == nonce && this.decode == decode
      ensures buffer == [] && this.socket == socket
    {
      this.nonce := nonce;
      this.decode := decode;
      this.buffer := [];
      this.socket := socket;
    }

    /** The stream as the channel sees it: what it holds and what is still to come. */
    ghost function Stream(): Bytes
      reads this
    {
      buffer + Text(socket)
    }

    /** A line becomes a message if it decodes to an object with an event and the right nonce. */
    function Accept(line: Bytes): Result<Message, ChannelError> {
      match decode(line)
      case None => Err(InvalidJson)
      case Some(m) => if m.event.Some? && m.nonce == Some(nonce) then Ok(m) else Err(EventOrNonceMismatch)
    }

    /** Takes the first complete line off the buffer, even one that does not decode. */
    method PopMessage() returns (r: Option<Result<Message, ChannelError>>)
      modifies this`buffer
      ensures r.None? <==> !HasLine(old(buffer))
      ensures r.None? ==> buffer == old(buffer)
      ensures r.Some? ==> buffer == AfterLine(old(buffer)) && r.value == Accept(FirstLine(old(buffer)))
    {
      var newline := Find(buffer);
      if newline == |buffer| {
        return None;
      }
      var raw := buffer[..newline];
      buffer := buffer[newline + 1..];
      return Some(Accept(raw));
    }

    /** Waits for a message: the outcome is that of the wait, and what it leaves behind too. */
    method Receive() returns (r: Result<Message, ChannelError>)
      modifies this
      ensures var w := WaitFor(old(buffer), old(socket));
              && buffer == w.buffer && socket == w.socket
              && r == if w.line.Ok? then Accept(w.line.value) else Err(w.line.error)
      ensures Delivers(old(Stream()), Taken(WaitFor(old(buffer), old(socket))), Stream())
    {
      ghost var held, arrivals := buffer, socket;
      WaitDelivers(held, arrivals);
      while true
        invariant WaitFor(buffer, socket) == WaitFor(held, arrivals)
        decreases |socket|
      {
        var message := PopMessage();
        if message.Some? {
          return message.value;
        }
        if socket == [] {
          return Err(TimedOut);
        }
        var arrival := Next();
        if !arrival.Data? {
          return Err(if arrival.Silence? then TimedOut else SocketClosed);
        }
      }
    }

    /** One `select` and one `recv`: a chunk goes into the buffer. */
    method Next() returns (arrival: Arrival)
      requires socket != []
      modifies this
      ensures arrival == old(socket)[0] && socket == old(socket)[1..]
      ensures buffer == old(buffer) + if arrival.Data? then arrival.bytes else []
    {
      arrival := socket[0];
      socket := socket[1..];
      if arrival.Data? {
        buffer := buffer + arrival.bytes;
      }
    }

    /** Looks for a message without waiting: a line that is held is taken; otherwise exactly one
        arrival is read, and a chunk that completes a line yields its message. */
    method Poll() returns (r: Result<Option<Message>, ChannelError>, ghost line: Option<Bytes>)
      modifies this
      ensures Delivers(old(Stream()), line, Stream())
      ensures HasLine(old(buffer)) || old(socket) == [] ==> socket == old(socket)
      ensures !HasLine(old(buffer)) && old(socket) != [] ==> socket == old(socket)[1..]
      ensures line.Some? <==> HasLine(old(buffer) + Text(old(socket)[..|old(socket)| - |socket|]))
      ensures line.Some? ==> r == Polled(Accept(line.value))
      ensures line.None? ==>
                r == if |socket| < |old(socket)| && old(socket)[0].Closed? then Err(SocketClosed) else Ok(None)
    {
      ghost var held, coming, arrivals := buffer, Text(socket), socket;
      assert held + Text([]) == held;
      var message := PopMessage();
      if message.Some? {
        LineIsStable(held, coming);
        return Polled(message.value), Some(FirstLine(held));
      }
      if socket == [] {
        return Ok(None), None;
      }
      TextOne(arrivals[0]);
      StreamSplits(held, [arrivals[0]], arrivals[1..]);
      assert arrivals == [arrivals[0]] + arrivals[1..] && arrivals[..1] == [arrivals[0]];
      var arrival := Next();
      match arrival {
        case Silence =>
          return Ok(None), None;
        case Closed =>
          return Err(SocketClosed), None;
        case Data(_) =>
          ghost var full := buffer;
          message := PopMessage();
          if message.None? {
            return Ok(None), None;
          }
          LineIsStable(full, Text(socket));
          return Polled(message.value), Some(FirstLine(full));
      }
    }
  }

  function Polled(m: Result<Message, ChannelError>): Result<Option<Message>, ChannelError> {
    match m
    case Ok(message) => Ok(Some(message))
    case Err(error) => Err(error)
  }

  // ----- Whole conversations

  lemma FirstMessage(messages: seq<Bytes>, tail: Bytes)
    requires messages != [] && NewlineFree(messages[0])
    ensures HasLine(Frame(messages) + tail)
    ensures FirstLine(Frame(messages) + tail) == messages[0]
    ensures AfterLine(Frame(messages) + tail) == Frame(messages[1..]) + tail
  {
    FramedLine(messages[0], Frame(messages[1..]) + tail);
    assert Frame(messages) + tail == messages[0] + [NEWLINE] + (Frame(messages[1..]) + tail);
  }

  lemma NoLineHeld(held: Bytes, coming: Bytes)
    requires !HasLine(held + coming)
    ensures !HasLine(held)
  {
    if HasLine(held) {
      LineIsStable(held, coming);
    }
  }

  /** A poll takes an arrival or a message, unless nothing is left of either. */
  lemma PollProgresses(held: Bytes, arrivals: seq<Arrival>, messages: seq<Bytes>, tail: Bytes)
    requires NewlineFree(tail) && (messages != [] ==> NewlineFree(messages[0]))
    requires held + Text(arrivals) == Frame(messages) + tail
    ensures messages == [] ==> !HasLine(held + Text(arrivals)) && !HasLine(held)
    ensures messages != [] && arrivals == [] ==> HasLine(held)
  {
    if messages == [] {
      assert Frame(messages) + tail == tail;
      NoLineInTail(tail);
      NoLineHeld(held, Text(arrivals));
    } else {
      FirstMessage(messages, tail);
      assert arrivals == [] ==> held + Text(arrivals) == held;
    }
  }

  /** A wait on chunks that hold the messages from the `i`th on takes the `i`th. */
  lemma WaitTakesMessage(buffer: Bytes, socket: seq<Arrival>, messages: seq<Bytes>, i: nat, tail: Bytes)
    requires i < |messages| && NewlineFree(messages[i]) && AllData(socket)
    requires buffer + Text(socket) == Frame(messages[i..]) + tail
    ensures var w := WaitFor(buffer, socket);
            && w.line == Ok(messages[i]) && AllData(w.socket)
            && w.buffer + Text(w.socket) == Frame(messages[i + 1..]) + tail
  {
    FirstMessage(messages[i..], tail);
    assert messages[i..][1..] == messages[i + 1..];
    WaitDelivers(buffer, socket);
  }

  /** As many waits as messages were sent receive exactly those messages, in order, however their
      bytes were cut into chunks; an unfinished tail stays in the stream. */
  method ReceiveAll(channel: Channel, count: nat, ghost messages: seq<Bytes>, ghost tail: Bytes)
    returns (received: seq<Result<Message, ChannelError>>)
    requires count == |messages| && forall i :: 0 <= i < |messages| ==> NewlineFree(messages[i])
    requires AllData(channel.socket) && channel.Stream() == Frame(messages) + tail
    modifies channel
    ensures |received| == |messages|
    ensures forall i :: 0 <= i < |messages| ==> Judged(channel.decode, channel.nonce, messages[i], received[i])
    ensures channel.Stream() == tail
  {
    received := [];
    assert messages[0..] == messages;
    for i := 0 to count
      invariant |received| == i && AllData(channel.socket)
      invariant forall k :: 0 <= k < i ==> received[k] == channel.Accept(messages[k])
      invariant channel.Stream() == Frame(messages[i..]) + tail
    {
      WaitTakesMessage(channel.buffer, channel.socket, messages, i, tail);
      var r := channel.Receive();
      received := received + [r];
    }
    assert Frame(messages[count..]) + tail == tail;
  }

  /** A delivery from a stream that holds the messages from the `n`th on is the `n`th. */
  lemma DeliversNext(before: Bytes, line: Option<Bytes>, after: Bytes, messages: seq<Bytes>, n: nat, tail: Bytes)
    requires n <= |messages| && NewlineFree(tail) && forall i :: 0 <= i < |messages| ==> NewlineFree(messages[i])
    requires before == Frame(messages[n..]) + tail && Delivers(before, line, after)
    ensures line.Some? ==>
              n < |messages| && line.value == messages[n] && after == Frame(messages[n + 1..]) + tail
  {
    if n == |messages| {
      assert before == tail;
      NoLineInTail(tail);
    } else {
      FirstMessage(messages[n..], tail);
      assert messages[n..][1..] == messages[n + 1..];
    }
  }

  /** Enough polls deliver the same, however the chunks are cut and whatever silences lie between
      them: one for each arrival and each message is enough. */
  method PollAll(channel: Channel, count: nat, ghost messages: seq<Bytes>, ghost tail: Bytes)
    returns (received: seq<Result<Message, ChannelError>>)
    requires count >= |channel.socket| + |messages|
    requires NewlineFree(tail) && forall i :: 0 <= i < |messages| ==> NewlineFree(messages[i])
    requires Closed !in channel.socket && channel.Stream() == Frame(messages) + tail
    modifies channel
    ensures |received| == |messages|
    ensures forall i :: 0 <= i < |messages| ==> Judged(channel.decode, channel.nonce, messages[i], received[i])
    ensures channel.Stream() == tail
  {
    received := [];
    assert messages[0..] == messages;
    for i := 0 to count
      invariant |received| <= |messages| && Closed !in channel.socket
      invariant forall k :: 0 <= k < |received| ==> received[k] == channel.Accept(messages[k])
      invariant channel.Stream() == Frame(messages[|received|..]) + tail
      invariant |channel.socket| + |messages| - |received| <= count - i
               || (channel.socket == [] && |received| == |messages|)
    {
      ghost var n, held, arrivals, stream := |received|, channel.buffer, channel.socket, channel.Stream();
      PollProgresses(held, arrivals, messages[n..], tail);
      assert held + Text(arrivals[..0]) == held;
      var r, line := channel.Poll();
      assert arrivals != [] ==> arrivals[0] != Closed;
      DeliversNext(stream, line, channel.Stream(), messages, n, tail);
      match r {
        case Ok(None) =>
        case Ok(Some(message)) =>
          received := received + [Ok(message)];
        case Err(error) =>
          received := received + [Err(error)];
      }
    }
    assert Frame(messages[|messages|..]) + tail == tail;
  }
}
