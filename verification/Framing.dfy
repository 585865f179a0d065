/** What the line reader makes of whole streams: lines never shift, and encoded requests come out as they went in. */
module Framing {
  import opened Common
  import opened Errors
  import opened Protocol
  import Requests
  import Decoder
  import Grammar
  import opened Connection

  /** A line that the buffer can hold, newline included. */
  predicate IsShortLine(line: string) {
    Requests.OneLine(line) && |line| < BUFFER_LENGTH
  }

  function Outcome(decoded: Result<Request, NetworkError>): Result<Request, Error> {
    match decoded
    case Ok(r) => Ok(r)
    case Err(e) => Err(NetworkFault(e))
  }

  function DecodeLine(line: string): Result<Request, Error> {
    Outcome(Decoder.Decode(line + " "))
  }

  /** A line that fits is read whole, and the next read starts right after its newline, whatever the line says. */
  lemma ReadOfLine(line: string, rest: string, ending: NetworkError)
    requires Requests.OneLine(line)
    ensures IsShortLine(line) <==> |line| < 128
    ensures IsShortLine(line) ==> ReadRequest(line + "\n" + rest, ending) == Received(DecodeLine(line), rest)
    ensures !IsShortLine(line) ==>
              ReadRequest(line + "\n" + rest, ending)
              == Received(Err(NetworkFault(RequestBufferOverflow)), line[BUFFER_LENGTH..] + "\n" + rest)
  {
    FrameOfLine(line, rest);
    FrameDecides(line + "\n" + rest, ending);
    assert IsShortLine(line) <==> |line| < BUFFER_LENGTH;
    hide ReadFrame, ReadRequest, Outcome, Decoder.Decode, Requests.OneLine, IsShortLine;
  }

  lemma FrameDecides(stream: string, ending: NetworkError)
    ensures match ReadFrame(stream)
            case Line(line, rest) => ReadRequest(stream, ending) == Received(Outcome(Decoder.Decode(line)), rest)
            case TooLong(rest) => ReadRequest(stream, ending) == Received(Err(NetworkFault(RequestBufferOverflow)), rest)
            case Ended => ReadRequest(stream, ending) == Received(Err(NetworkFault(ending)), "")
  {
    hide ReadFrame, Decoder.Decode;
  }

  function Lines(lines: seq<string>): string {
    if lines == [] then "" else lines[0] + "\n" + Lines(lines[1..])
  }

  datatype ReceivedAll = ReceivedAll(outcomes: seq<Result<Request, Error>>, rest: string)

  /** Reading `n` times in a row. */
  function ReadMany(incoming: string, ending: NetworkError, n: nat): ReceivedAll
    decreases n
  {
    if n == 0 then ReceivedAll([], incoming)
    else
      var first := ReadRequest(incoming, ending);
      var more := ReadMany(first.rest, ending, n - 1);
      ReceivedAll([first.outcome] + more.outcomes, more.rest)
  }

  function Outcomes(lines: seq<string>): (outcomes: seq<Result<Request, Error>>)
    ensures |outcomes| == |lines| && forall i | 0 <= i < |lines| :: outcomes[i] == DecodeLine(lines[i])
  {
    seq(|lines|, i requires 0 <= i < |lines| => DecodeLine(lines[i]))
  }

  /** Any lines that fit, good or bad, are read one by one, each decoded on its own; none shifts the ones after it. */
  lemma {:induction false} LinesNeverShift(lines: seq<string>, rest: string, ending: NetworkError)
    requires forall i | 0 <= i < |lines| :: IsShortLine(lines[i])
    ensures ReadMany(Lines(lines) + rest, ending, |lines|) == ReceivedAll(Outcomes(lines), rest)
    decreases |lines|
  {
    if lines == [] {
      assert Lines(lines) + rest == rest;
    } else {
      var more := Lines(lines[1..]) + rest;
      assert Lines(lines) + rest == lines[0] + "\n" + more;
      hide ReadRequest, DecodeLine, Lines, IsShortLine;
      assert IsShortLine(lines[0]);
      ShortLineIsOne(lines[0]);
      ReadOfLine(lines[0], more, ending);
      LinesNeverShift(lines[1..], rest, ending);
      assert [DecodeLine(lines[0])] + Outcomes(lines[1..]) == Outcomes(lines);
    }
  }

  lemma ShortLineIsOne(line: string)
    requires IsShortLine(line)
    ensures Requests.OneLine(line)
  {}

  function Bodies(commands: seq<Requests.Command>): (bodies: seq<string>)
    ensures |bodies| == |commands| && forall i | 0 <= i < |commands| :: bodies[i] == Requests.Body(commands[i])
  {
    seq(|commands|, i requires 0 <= i < |commands| => Requests.Body(commands[i]))
  }

  /** What a driver sends for some requests. */
  function EncodeAll(commands: seq<Requests.Command>): string {
    if commands == [] then "" else Requests.Encode(commands[0]) + EncodeAll(commands[1..])
  }

  lemma {:induction false} EncodedIsLines(commands: seq<Requests.Command>)
    ensures EncodeAll(commands) == Lines(Bodies(commands))
    decreases |commands|
  {
    if commands != [] {
      EncodedIsLines(commands[1..]);
      assert Bodies(commands)[1..] == Bodies(commands[1..]);
    }
  }

  lemma EncodedIsShortLine(c: Requests.Command)
    ensures IsShortLine(Requests.Body(c)) && DecodeLine(Requests.Body(c)) == Ok(Requests.Meaning(c))
  {
    hide Requests.Body, Decoder.Decode;
    Requests.BodyIsOneLine(c);
    Requests.EncodingIsShort(c);
    Grammar.DecodeOfEncoded(c);
  }

  /** One encoded request, whatever follows it. */
  lemma ReadOfEncoded(c: Requests.Command, rest: string, ending: NetworkError)
    ensures ReadRequest(Requests.Encode(c) + rest, ending) == Received(Ok(Requests.Meaning(c)), rest)
  {
    EncodedIsShortLine(c);
    Requests.BodyIsOneLine(c);
    ReadOfLine(Requests.Body(c), rest, ending);
  }

  /** Round trip through the framing: any requests, encoded one after the other, are read in order and lose nothing. */
  lemma RequestsReadBack(commands: seq<Requests.Command>, rest: string, ending: NetworkError)
    ensures var read := ReadMany(EncodeAll(commands) + rest, ending, |commands|);
            && read.rest == rest && |read.outcomes| == |commands|
            && forall i | 0 <= i < |commands| :: read.outcomes[i] == Ok(Requests.Meaning(commands[i]))
  {
    hide DecodeLine, IsShortLine, Lines, ReadMany, EncodeAll, Requests.Body, Requests.Meaning;
    forall i | 0 <= i < |commands|
      ensures IsShortLine(Bodies(commands)[i]) && DecodeLine(Bodies(commands)[i]) == Ok(Requests.Meaning(commands[i]))
    {
      EncodedIsShortLine(commands[i]);
    }
    EncodedIsLines(commands);
    LinesNeverShift(Bodies(commands), rest, ending);
  }
}
