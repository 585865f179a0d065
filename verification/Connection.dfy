/** A client's connection: reading one line at a time into a bounded buffer, and sending a response piece by piece. */
module Connection {
  import opened Common
  import opened Errors
  import opened Protocol
  import Requests
  import opened Decoder
  import Encoder

  const BUFFER_LENGTH: nat := 128

  // ----- framing -----

  /** The bytes before the first newline, at most `limit` of them. */
  function LineLength(s: string, limit: nat): (k: nat)
    ensures k <= |s| && k <= limit && Requests.OneLine(s[..k])
    ensures k < |s| && k < limit ==> s[k] == '\n'
    decreases limit
  {
    if s == [] || limit == 0 || s[0] == '\n' then 0
    else
      var k := LineLength(s[1..], limit - 1);
      assert s[..k + 1] == [s[0]] + s[1..][..k];
      k + 1
  }

  lemma {:induction false} LengthOfLine(line: string, rest: string, limit: nat)
    requires Requests.OneLine(line)
    ensures LineLength(line + "\n" + rest, limit) == if |line| < limit then |line| else limit
    decreases |line|
  {
    var s := line + "\n" + rest;
    if line != [] && limit > 0 {
      assert s[1..] == line[1..] + "\n" + rest;
      LengthOfLine(line[1..], rest, limit - 1);
    }
  }

  lemma {:induction false} LengthOfPart(line: string, rest: string, limit: nat)
    requires Requests.OneLine(line) && (|line| >= limit || rest == [])
    ensures LineLength(line + rest, limit) == if |line| < limit then |line| else limit
    decreases |line|
  {
    if line != [] && limit > 0 {
      assert (line + rest)[1..] == line[1..] + rest;
      LengthOfPart(line[1..], rest, limit - 1);
    }
  }

  datatype Frame = Line(line: string, rest: string) | Ended | TooLong(rest: string)

  /** What one read takes from the incoming bytes. A line keeps a space where its newline was. */
  function ReadFrame(incoming: string): Frame {
    var k := LineLength(incoming, BUFFER_LENGTH);
    if k == BUFFER_LENGTH then TooLong(incoming[k..])
    else if k == |incoming| then Ended
    else Line(incoming[..k] + " ", incoming[k + 1..])
  }

  lemma PartsOfLine(line: string, rest: string)
    ensures (line + "\n" + rest)[..|line|] == line && (line + "\n" + rest)[|line| + 1..] == rest
    ensures |line + "\n" + rest| == |line| + 1 + |rest|
  {}

  lemma RestOfLongLine(line: string, rest: string, k: nat)
    requires k <= |line|
    ensures (line + "\n" + rest)[k..] == line[k..] + "\n" + rest
  {
    assert (line + "\n")[k..] == line[k..] + "\n";
  }

  lemma RestOfPart(line: string, rest: string)
    ensures (line + rest)[|line|..] == rest && line + [] == line
  {}

  /** The stream ends, or a newline comes, before the buffer is full. */
  lemma ShortFrame(line: string, rest: string)
    requires Requests.OneLine(line) && |line| < BUFFER_LENGTH
    ensures ReadFrame(line) == Ended && ReadFrame(line + "\n" + rest) == Line(line + " ", rest)
  {
    LengthOfLine(line, rest, BUFFER_LENGTH);
    LengthOfPart(line, [], BUFFER_LENGTH);
    PartsOfLine(line, rest);
    RestOfPart(line, []);
    hide LineLength, Requests.OneLine;
  }

  /** The buffer is full before a newline comes. */
  lemma LongFrame(line: string, rest: string)
    requires Requests.OneLine(line) && |line| >= BUFFER_LENGTH
    ensures ReadFrame(line + "\n" + rest) == TooLong(line[BUFFER_LENGTH..] + "\n" + rest)
    ensures |line| == BUFFER_LENGTH ==> ReadFrame(line + rest) == TooLong(rest)
  {
    LengthOfLine(line, rest, BUFFER_LENGTH);
    LengthOfPart(line, rest, BUFFER_LENGTH);
    RestOfLongLine(line, rest, BUFFER_LENGTH);
    RestOfPart(line, rest);
    hide LineLength, Requests.OneLine;
  }

  /** What a read finds when only `line` came before the newline, the end of the stream, or the end of the buffer. */
  lemma FrameOfLine(line: string, rest: string)
    requires Requests.OneLine(line)
    ensures |line| < BUFFER_LENGTH ==> ReadFrame(line) == Ended && ReadFrame(line + "\n" + rest) == Line(line + " ", rest)
    ensures |line| == BUFFER_LENGTH ==> ReadFrame(line + rest) == TooLong(rest)
    ensures |line| >= BUFFER_LENGTH ==> ReadFrame(line + "\n" + rest) == TooLong(line[BUFFER_LENGTH..] + "\n" + rest)
  {
    if |line| < BUFFER_LENGTH {
      ShortFrame(line, rest);
    } else {
      LongFrame(line, rest);
    }
    hide ReadFrame, Requests.OneLine;
  }

  datatype Received = Received(outcome: Result<Request, Error>, rest: string)

  /** One read: the request of the next line, or why there is none, and the bytes left for the next read. */
  function ReadRequest(incoming: string, ending: NetworkError): Received {
    match ReadFrame(incoming)
    case TooLong(rest) => Received(Err(NetworkFault(RequestBufferOverflow)), rest)
    case Ended => Received(Err(NetworkFault(ending)), "")
    case Line(line, rest) =>
      match Decode(line)
      case Ok(r) => Received(Ok(r), rest)
      case Err(e) => Received(Err(NetworkFault(e)), rest)
  }

  // ----- sending -----

  /** What a call to send reports: how many bytes it took, none because the peer is gone, or a failure. */
  datatype Sent = Took(count: nat) | PeerGone | SendTimeout | SendInterrupted | SendFailure

  datatype Delivery = Delivery(sent: string, error: Error, calls: nat)

  /** How many of the remaining bytes go out: at least one and no more than there are. */
  function Portion(count: nat, remaining: nat): (n: nat)
    requires remaining > 0
    ensures 1 <= n <= remaining
  {
    if count == 0 then 1 else if count > remaining then remaining else count
  }

  function SendFault(reply: Sent): NetworkError
    requires !reply.Took?
  {
    match reply
    case PeerGone => ClientClosed
    case SendTimeout => WriteTimeout
    case SendInterrupted => ServerClosed
    case SendFailure => WriteFailed
  }

  /** Sending a text with the replies of the calls numbered from `call`. */
  function SendAll(text: string, replies: nat -> Sent, call: nat): (d: Delivery)
    ensures d.sent <= text && (d.error == NoError ==> d.sent == text)
    ensures d.error.Exists() ==> d.error.NetworkFault?
    decreases |text|
  {
    if text == [] then Delivery("", NoError, call)
    else
      match replies(call)
      case Took(count) =>
        var n := Portion(count, |text|);
        var more := SendAll(text[n..], replies, call + 1);
        assert text == text[..n] + text[n..];
        more.(sent := text[..n] + more.sent)
      case failure => Delivery("", NetworkFault(SendFault(failure)), call + 1)
  }

  function Prepend(prefix: string, d: Delivery): Delivery {
    d.(sent := prefix + d.sent)
  }

  /** A call that takes some more bytes leaves the rest to the later calls. */
  lemma SendStep(text: string, sent: string, unsent: string, replies: nat -> Sent, first: nat, call: nat)
    requires text == sent + unsent && unsent != [] && replies(call).Took?
    requires SendAll(text, replies, first) == Prepend(sent, SendAll(unsent, replies, call))
    ensures var n := Portion(replies(call).count, |unsent|);
            && text == (sent + unsent[..n]) + unsent[n..]
            && SendAll(text, replies, first) == Prepend(sent + unsent[..n], SendAll(unsent[n..], replies, call + 1))
  {}

  /** A call that fails, or no bytes left, ends the sending. */
  lemma SendEnd(text: string, sent: string, unsent: string, replies: nat -> Sent, first: nat, call: nat)
    requires text == sent + unsent && (unsent == [] || !replies(call).Took?)
    requires SendAll(text, replies, first) == Prepend(sent, SendAll(unsent, replies, call))
    ensures SendAll(text, replies, first)
            == if unsent == [] then Delivery(sent, NoError, call)
               else Delivery(sent, NetworkFault(SendFault(replies(call))), call + 1)
  {}

  lemma NextSlice(a: string, b: string, n: nat)
    requires n <= |b|
    ensures (a + b)[|a|..|a| + n] == b[..n]
  {}

  // ----- decoding and encoding one message -----

  method DecodeRequest(buffer: array<char>, length: nat) returns (outcome: Result<Request, Error>)
    requires length <= buffer.Length
    ensures match Decode(buffer[..length])
            case Ok(r) => outcome == Ok(r)
            case Err(e) => outcome == Err(NetworkFault(e))
  {
    hide Decode;
    var decoder := new RequestDecoder(buffer, length);
    var error := decoder.RunBuffer();
    if error.Exists() {
      return Err(error);
    }
    return Ok(decoder.request);
  }

  method EncodeResponse(response: Response, buffer: array<char>) returns (error: Error, length: nat)
    requires Encoder.Contained(response, buffer.Length)
    modifies buffer
    ensures error == if |Encoder.Text(response)| > buffer.Length then NetworkFault(ResponseBufferOverflow) else NoError
    ensures !error.Exists() ==> length <= buffer.Length && buffer[..length] == Encoder.Text(response)
  {
    hide Encoder.Contained, Encoder.Text;
    var encoder := new Encoder.ResponseEncoder(response, buffer);
    error := encoder.Run();
    length := if error.Exists() then 0 else encoder.length;
  }

  // ----- the connection -----

  class Client {
    // The peer: the bytes still to come, what the system reports after them, how it answers sends, and what it got.
    var incoming: string
    const ending: NetworkError
    const replies: nat -> Sent
    var calls: nat
    var outgoing: string

    const readBuffer: array<char>
    const writeBuffer: array<char>
    var readIndex: nat
    var writeIndex: nat

    ghost predicate Valid() {
      readBuffer.Length == BUFFER_LENGTH && writeBuffer.Length == BUFFER_LENGTH && readBuffer != writeBuffer
    }

    constructor (incoming: string, ending: NetworkError, replies: nat -> Sent)
      ensures Valid() && fresh(readBuffer) && fresh(writeBuffer)
      ensures this.incoming == incoming && this.ending == ending && this.replies == replies
      ensures outgoing == "" && calls == 0
    {
      this.incoming, this.ending, this.replies := incoming, ending, replies;
      calls, outgoing := 0, "";
      readBuffer, writeBuffer := new char[BUFFER_LENGTH], new char[BUFFER_LENGTH];
      readIndex, writeIndex := 0, 0;
    }

    /** What the current read has put into the buffer. */
    ghost function Buffered(): (text: string)
      requires Valid() && readIndex <= BUFFER_LENGTH
      reads this`readIndex, readBuffer
      ensures |text| == readIndex
    {
      readBuffer[..readIndex]
    }

    method Store(c: char)
      requires Valid() && readIndex < BUFFER_LENGTH
      modifies `readIndex, readBuffer
      ensures readIndex == old(readIndex) + 1 && Buffered() == old(Buffered()) + [c]
    {
      readBuffer[readIndex] := c;
      readIndex := readIndex + 1;
    }

    /** Takes the next byte off the stream. */
    method Receive() returns (byte: char)
      requires incoming != []
      modifies `incoming
      ensures old(incoming) == [byte] + incoming
    {
      byte := incoming[0];
      incoming := incoming[1..];
    }

    /** Reads up to a newline, a byte at a time, into the buffer. */
    method ReadLine() returns (error: Error)
      requires Valid()
      modifies `incoming, `readIndex, readBuffer
      ensures readIndex <= BUFFER_LENGTH
      ensures match ReadFrame(old(incoming))
              case Line(line, rest) => error == NoError && Buffered() == line && incoming == rest
              case Ended => error == NetworkFault(ending) && incoming == ""
              case TooLong(rest) => error == NetworkFault(RequestBufferOverflow) && incoming == rest
    {
      hide ReadFrame, Buffered;
      var byte := '\0';
      readIndex := 0;
      ghost var line := "";
      assert old(incoming) == line + incoming && Buffered() == line;
      while readIndex < BUFFER_LENGTH
        invariant readIndex == |line| <= BUFFER_LENGTH && Requests.OneLine(line)
        invariant old(incoming) == line + incoming
        invariant Buffered() == line
        invariant byte != '\n'
        decreases BUFFER_LENGTH - readIndex
      {
        FrameOfLine(line, []);
        if incoming == [] {
          assert line + [] == line;
          return NetworkFault(ending);
        }
        byte := Receive();
        Associates(line, [byte], incoming);
        if byte == '\n' {
          FrameOfLine(line, incoming);
          Store(' ');
          break;
        }
        Store(byte);
        line := line + [byte];
      }
      if readIndex == BUFFER_LENGTH && byte != '\n' {
        FrameOfLine(line, incoming);
        return NetworkFault(RequestBufferOverflow);
      }
      return NoError;
    }

    /** Reads a line and decodes what is in the buffer. */
    method Read() returns (outcome: Result<Request, Error>)
      requires Valid()
      modifies `incoming, `readIndex, readBuffer
      ensures Received(outcome, incoming) == ReadRequest(old(incoming), ending)
    {
      hide ReadFrame, Decode;
      var error := ReadLine();
      if error.Exists() {
        return Err(error);
      }
      assert readBuffer[..readIndex] == Buffered();
      outcome := DecodeRequest(readBuffer, readIndex);
    }

    /** Encodes a response and sends it in as many pieces as the system takes. The buffer always suffices. */
    method Write(response: Response) returns (error: Error)
      requires Valid()
      modifies `outgoing, `writeIndex, `calls, writeBuffer
      ensures var d := SendAll(Encoder.Text(response), replies, old(calls));
              error == d.error && outgoing == old(outgoing) + d.sent && calls == d.calls
    {
      hide Encoder.Text, Encoder.Contained, SendAll, Portion;
      Encoder.ContainedIsExact(response, BUFFER_LENGTH);
      var length;
      error, length := EncodeResponse(response, writeBuffer);
      if error.Exists() {
        return;
      }
      assert Pending(length) == Encoder.Text(response);
      error := SendBuffer(length);
    }

    /** What there is to send. */
    ghost function Pending(length: nat): (text: string)
      requires length <= writeBuffer.Length
      reads writeBuffer
      ensures |text| == length
    {
      writeBuffer[..length]
    }

    /** One call to send: as many of the remaining bytes as the system takes, or an error. */
    method Transmit(length: nat) returns (error: Error)
      requires Valid() && writeIndex < length <= writeBuffer.Length
      modifies `outgoing, `writeIndex, `calls
      ensures calls == old(calls) + 1
      ensures match replies(old(calls))
              case Took(count) =>
                && error == NoError && writeIndex == old(writeIndex) + Portion(count, length - old(writeIndex))
                && outgoing == old(outgoing) + Pending(length)[old(writeIndex)..writeIndex]
              case failure => error == NetworkFault(SendFault(failure)) && outgoing == old(outgoing)
    {
      var remaining := length - writeIndex;
      var reply := replies(calls);
      calls := calls + 1;
      match reply {
        case Took(count) =>
          var n := Portion(count, remaining);
          outgoing := outgoing + writeBuffer[..length][writeIndex..writeIndex + n];
          writeIndex := writeIndex + n;
          return NoError;
        case PeerGone => return NetworkFault(ClientClosed);
        case SendTimeout => return NetworkFault(WriteTimeout);
        case SendInterrupted => return NetworkFault(ServerClosed);
        case SendFailure => return NetworkFault(WriteFailed);
      }
    }

    /** Sends the first bytes of the buffer, in as many calls as it takes. */
    method SendBuffer(length: nat) returns (error: Error)
      requires Valid() && length <= writeBuffer.Length
      modifies `outgoing, `writeIndex, `calls
      ensures var d := SendAll(Pending(length), replies, old(calls));
              error == d.error && outgoing == old(outgoing) + d.sent && calls == d.calls
    {
      hide SendAll, Portion, Pending;
      writeIndex := 0;
      error := NoError;
      ghost var text, before, first := Pending(length), outgoing, calls;
      ghost var sent, unsent := "", text;
      assert text == sent + unsent && before == before + sent;
      while writeIndex < length
        invariant writeIndex == |sent| <= length && text == sent + unsent
        invariant text == Pending(length)
        invariant outgoing == before + sent && error == NoError
        invariant SendAll(text, replies, first) == Prepend(sent, SendAll(unsent, replies, calls))
        decreases length - writeIndex
      {
        assert |unsent| == length - writeIndex;
        if replies(calls).Took? {
          SendStep(text, sent, unsent, replies, first, calls);
        } else {
          SendEnd(text, sent, unsent, replies, first, calls);
        }
        ghost var n := if replies(calls).Took? then Portion(replies(calls).count, |unsent|) else 0;
        NextSlice(sent, unsent, n);
        Associates(before, sent, unsent[..n]);
        error := Transmit(length);
        if error.Exists() {
          return;
        }
        sent, unsent := sent + unsent[..n], unsent[n..];
      }
      SendEnd(text, sent, unsent, replies, first, calls);
    }
  }
}
