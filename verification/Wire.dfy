/** Both ends together: what a driver's requests do and what it reads back, through bytes in both directions. */
module Wire {
  import opened Common
  import opened Errors
  import opened Protocol
  import opened Server
  import opened Connection
  import opened Framing
  import opened Session
  import Ledger
  import Wal
  import Requests
  import Responses
  import Encoder
  import Decoder

  // ----- responses on the stream -----

  lemma {:induction false} JoinedIsOneLine(head: string, fields: seq<nat>)
    requires Responses.NoSpace(head)
    ensures Requests.OneLine(Responses.Joined(head, fields))
    decreases |fields|
  {
    if fields != [] {
      Responses.HexHasNoSpace(fields[0]);
      JoinedIsOneLine(Encoder.Hex(fields[0]), fields[1..]);
    }
  }

  /** A response is one line: its only newline is its last byte. */
  lemma TextIsLine(r: Response)
    ensures Encoder.Text(r) != "" && Requests.OneLine(Encoder.Text(r)[..|Encoder.Text(r)| - 1])
    ensures Encoder.Text(r)[|Encoder.Text(r)| - 1] == '\n'
  {
    hide Encoder.Text, Responses.Joined, Responses.FieldsOf;
    Responses.TextIsJoined(r);
    JoinedIsOneLine(Responses.KindOf(r), Responses.FieldsOf(r));
    var s := Responses.Joined(Responses.KindOf(r), Responses.FieldsOf(r));
    assert (s + "\n")[..|s|] == s;
  }

  /** Reading up to and including the first newline, as the driver's buffered reader does. */
  function FirstLine(stream: string): (k: nat)
    ensures k <= |stream|
  {
    if stream == [] then 0 else if stream[0] == '\n' then 1 else 1 + FirstLine(stream[1..])
  }

  lemma {:induction false} FirstLineOf(body: string, rest: string)
    requires Requests.OneLine(body)
    ensures FirstLine(body + "\n" + rest) == |body| + 1
    decreases |body|
  {
    var s := body + "\n" + rest;
    if body != [] {
      assert s[1..] == body[1..] + "\n" + rest;
      FirstLineOf(body[1..], rest);
    }
  }

  function Texts(responses: seq<Response>): string {
    if responses == [] then "" else Encoder.Text(responses[0]) + Texts(responses[1..])
  }

  datatype Parsed = Parsed(responses: seq<Result<Responses.Response, Responses.ParseError>>, rest: string)

  function ParseMany(stream: string, n: nat): Parsed
    decreases n
  {
    if n == 0 then Parsed([], stream)
    else
      var k := FirstLine(stream);
      var more := ParseMany(stream[k..], n - 1);
      Parsed([Responses.ParseResponse(stream[..k])] + more.responses, more.rest)
  }

  lemma ParseFirst(r: Response, rest: string)
    ensures var stream := Encoder.Text(r) + rest;
            var k := FirstLine(stream);
            k <= |stream| && Responses.ParseResponse(stream[..k]) == Ok(Responses.Seen(r)) && stream[k..] == rest
  {
    hide Encoder.Text, Responses.ParseResponse;
    TextIsLine(r);
    var text := Encoder.Text(r);
    var body := text[..|text| - 1];
    assert text == body + "\n";
    FirstLineOf(body, rest);
    hide FirstLine, Requests.OneLine;
    assert (text + rest)[..|text|] == text && (text + rest)[|text|..] == rest;
    Responses.ParseOfText(r);
  }

  /** Round trip of responses: any of them, sent one after the other, are read back in order and lose nothing. */
  lemma {:induction false} ResponsesReadBack(responses: seq<Response>, rest: string)
    ensures var parsed := ParseMany(Texts(responses) + rest, |responses|);
            && parsed.rest == rest && |parsed.responses| == |responses|
            && forall i | 0 <= i < |responses| :: parsed.responses[i] == Ok(Responses.Seen(responses[i]))
    decreases |responses|
  {
    if responses == [] {
      assert Texts(responses) + rest == rest;
    } else {
      var more := Texts(responses[1..]) + rest;
      assert Texts(responses) + rest == Encoder.Text(responses[0]) + more;
      ResponsesReadBack(responses[1..], rest);
      ParseFirst(responses[0], more);
      hide Texts, FirstLine, Responses.ParseResponse, Responses.Seen, Encoder.Text;
    }
  }

  // ----- requests to answers -----

  /** The loop answers this request: it is carried out, or refused in a way that does not end the connection. */
  predicate IsAnswered(h: Handled) {
    h.outcome.Ok? || (h.outcome.error.Exists() && ActionOf(h.outcome.error) == Reject)
  }

  function Answer(h: Handled): Response {
    if h.outcome.Ok? then h.outcome.value else ErrorResponse(h.outcome.error)
  }

  function Meanings(commands: seq<Requests.Command>): (requests: seq<Request>)
    ensures |requests| == |commands| && forall i | 0 <= i < |commands| :: requests[i] == Requests.Meaning(commands[i])
  {
    seq(|commands|, i requires 0 <= i < |commands| => Requests.Meaning(commands[i]))
  }

  datatype Answers = Answers(server: Server, responses: seq<Response>)

  function HandleRoomy(s: Server, request: Request, env: Environment): (h: Handled)
    requires Roomy(s)
    ensures Roomy(h.server)
  {
    RoomyIsSmall(s);
    HandleKeepsRoom(s, request, env);
    Handle(s, request, env)
  }

  /** Requests handled one after the other, without any bytes in between. */
  function AnswerAll(s: Server, requests: seq<Request>, envs: nat -> Environment, turn: nat): (a: Answers)
    requires Roomy(s)
    ensures Roomy(a.server) && |a.responses| == |requests|
    decreases |requests|
  {
    if requests == [] then Answers(s, [])
    else
      var h := HandleRoomy(s, requests[0], envs(turn));
      var more := AnswerAll(h.server, requests[1..], envs, turn + 1);
      Answers(more.server, [Answer(h)] + more.responses)
  }

  predicate AllAnswered(s: Server, requests: seq<Request>, envs: nat -> Environment, turn: nat)
    requires Roomy(s)
    decreases |requests|
  {
    requests == [] ||
    (var h := HandleRoomy(s, requests[0], envs(turn));
     IsAnswered(h) && requests[0] != CloseRequest && AllAnswered(h.server, requests[1..], envs, turn + 1))
  }

  // ----- one turn, then all of them -----

  lemma {:induction false} SendsEverything(text: string, replies: nat -> Sent, call: nat)
    requires forall k :: replies(k).Took?
    ensures SendAll(text, replies, call).error == NoError
    decreases |text|
  {
    if text != [] {
      SendsEverything(text[Portion(replies(call).count, |text|)..], replies, call + 1);
    }
  }

  lemma TurnAnswers(s: Session, c: Requests.Command, rest: string, env: Environment,
                    ending: NetworkError, replies: nat -> Sent)
    requires Roomy(s.server) && s.executing && (forall k :: replies(k).Took?)
    requires s.incoming == Requests.Encode(c) + rest
    requires IsAnswered(HandleRoomy(s.server, Requests.Meaning(c), env))
    ensures var h := HandleRoomy(s.server, Requests.Meaning(c), env);
            var after := Turn(s, env, ending, replies);
            && after.server == h.server && after.incoming == rest
            && after.outgoing == s.outgoing + Encoder.Text(Answer(h))
            && after.executing == (Requests.Meaning(c) != CloseRequest) && after.accepting == s.accepting
  {
    hide Handle, Requests.Encode, Requests.Meaning, ReadRequest, SendAll, Encoder.Text, Roomy, ActionOf;
    ReadOfEncoded(c, rest, ending);
    var h := HandleRoomy(s.server, Requests.Meaning(c), env);
    SendsEverything(Encoder.Text(Answer(h)), replies, s.calls);
  }

  /** What decoding can object to is always answered; what reading can object to always ends the connection. */
  lemma ReadErrorsSorted(incoming: string, ending: NetworkError)
    requires IsReadEnd(ending) && ReadRequest(incoming, ending).outcome.Err?
    ensures var action := ActionOf(ReadRequest(incoming, ending).outcome.error);
            if ReadFrame(incoming).Line? then action == Reject else action == Ignore || action == Close
  {
    if ReadFrame(incoming).Line? {
      DecodeErrors(ReadFrame(incoming).line);
    }
    EndsAreNotAnswered(ending);
    hide ReadFrame, Decoder.Decode, ActionOf, IsReadEnd;
  }

  lemma EndsAreNotAnswered(ending: NetworkError)
    requires IsReadEnd(ending)
    ensures ActionOf(NetworkFault(ending)) == Ignore || ActionOf(NetworkFault(ending)) == Close
    ensures ActionOf(NetworkFault(RequestBufferOverflow)) == Close
  {}

  lemma DecodeErrors(line: string)
    ensures Decoder.Decode(line).Err? ==> ActionOf(NetworkFault(Decoder.Decode(line).error)) == Reject
  {
    if line != "" && Decoder.Run(Decoder.Start, line).Err? {
      RunErrors(Decoder.Start, line);
    }
    hide Decoder.Run;
  }

  lemma {:induction false} RunErrors(p: Decoder.Progress, bytes: string)
    requires Decoder.Sound(p) && Decoder.Run(p, bytes).Err?
    ensures ActionOf(NetworkFault(Decoder.Run(p, bytes).error)) == Reject
    decreases |bytes|
  {
    var taken := Decoder.Take(p, bytes[0]);
    if taken.Ok? {
      RunErrors(taken.value, bytes[1..]);
    }
  }

  /** Sending fails at its last call, as that call says, and the calls before it took something. */
  lemma {:induction false} SendFailsLast(text: string, replies: nat -> Sent, call: nat)
    requires SendAll(text, replies, call).error.Exists()
    ensures var d := SendAll(text, replies, call);
            && d.calls > call && (forall j | call <= j < d.calls - 1 :: replies(j).Took?) && !replies(d.calls - 1).Took?
            && (replies(d.calls - 1).PeerGone? <==> d.error == NetworkFault(ClientClosed))
            && (replies(d.calls - 1).SendTimeout? <==> d.error == NetworkFault(WriteTimeout))
            && (replies(d.calls - 1).SendInterrupted? <==> d.error == NetworkFault(ServerClosed))
            && (replies(d.calls - 1).SendFailure? <==> d.error == NetworkFault(WriteFailed))
    decreases |text|
  {
    if replies(call).Took? {
      SendFailsLast(text[Portion(replies(call).count, |text|)..], replies, call + 1);
    }
  }

  /**
   A response that cannot be sent ends the connection, unless the peer is gone or the call was interrupted, when the loop
   goes on to find that out by reading. The process lives on in any case, and no close request is looked at.
   */
  lemma FailedSendEnds(s: Session, response: Response, closes: bool, replies: nat -> Sent)
    requires SendAll(Encoder.Text(response), replies, s.calls).error.Exists()
    ensures var after := Reply(s, response, closes, replies);
            && after.calls > 0 && after.accepting == s.accepting && after.server == s.server
            && (after.executing <==> replies(after.calls - 1).PeerGone? || replies(after.calls - 1).SendInterrupted?)
  {
    hide SendAll, Encoder.Text;
    SendFailsLast(Encoder.Text(response), replies, s.calls);
    match replies(SendAll(Encoder.Text(response), replies, s.calls).calls - 1)
    case PeerGone =>
    case SendTimeout =>
    case SendInterrupted =>
    case SendFailure =>
  }

  /** A turn that fails has an error to show for it. */
  lemma FailuresHaveErrors(s: Server, received: Result<Request, Error>, env: Environment)
    requires Roomy(s) && (received.Err? ==> received.error.Exists())
    ensures Dispatch(s, received, env).outcome.Err? ==> Dispatch(s, received, env).outcome.error.Exists()
  {
    RoomyIsSmall(s);
    hide Wal.LogWrite, Ledger.Guard, Roomy, Ledger.Apply, Ledger.InBounds, ApplyError;
    if received.Ok? && OperationOf(received.value).None? {
      QueryErrors(s, received.value);
    }
  }

  lemma QueryErrors(s: Server, request: Request)
    requires OperationOf(request).None? && |s.accounts| < U64_SIZE
    ensures Query(s, request).Err? ==> Query(s, request).error.Exists()
  {}

  /**
   When the loop goes on after a turn, and when the process takes more connections. It goes on exactly after an answer,
   unless the request was a close one or the answer could not be sent to a peer that may still be there. More connections
   are refused only after a fatal error: nothing a peer does, sends or fails to take can bring that about.
   */
  lemma TurnEnds(s: Session, env: Environment, ending: NetworkError, replies: nat -> Sent)
    requires Roomy(s.server) && IsReadEnd(ending) && s.executing
    ensures var received := ReadRequest(s.incoming, ending).outcome;
            var handled := Dispatch(s.server, received, env);
            var after := Turn(s, env, ending, replies);
            && (after.accepting <==>
                  s.accepting && (handled.outcome.Ok? || ActionOf(handled.outcome.error) != Fatal))
            && (handled.outcome.Err? && ActionOf(handled.outcome.error) == Fatal ==> received.Ok?)
            && (after.executing <==>
                  && IsAnswered(handled)
                  && if SendAll(Encoder.Text(Answer(handled)), replies, s.calls).error.Exists() then
                       after.calls > 0 && (replies(after.calls - 1).PeerGone? || replies(after.calls - 1).SendInterrupted?)
                     else received != Ok(CloseRequest))
  {
    hide *;
    ReadsHaveErrors(s.incoming, ending);
    FailuresHaveErrors(s.server, ReadRequest(s.incoming, ending).outcome, env);
    var received := ReadRequest(s.incoming, ending);
    var handled := Dispatch(s.server, received.outcome, env);
    var read := s.(server := handled.server, incoming := received.rest);
    UnreadIsUnhandled(s.server, received.outcome, env);
    TurnIsReply(s, env, ending, replies);
    WhatIsAnswered(handled);
    if IsAnswered(handled) {
      ReplyEnds(read, Answer(handled), received.outcome == Ok(CloseRequest), replies);
    }
  }

  lemma WhatIsAnswered(h: Handled)
    ensures h.outcome.Ok? ==> IsAnswered(h)
    ensures IsAnswered(h) && h.outcome.Err? ==> ActionOf(h.outcome.error) != Fatal
  {}

  lemma UnreadIsUnhandled(s: Server, received: Result<Request, Error>, env: Environment)
    requires Roomy(s)
    ensures received.Err? ==> Dispatch(s, received, env) == Handled(s, Err(received.error))
  {
    hide Roomy, Handle;
  }

  /** A turn is a reply, or the end of the connection. */
  lemma TurnIsReply(s: Session, env: Environment, ending: NetworkError, replies: nat -> Sent)
    requires Roomy(s.server)
    requires var handled := Dispatch(s.server, ReadRequest(s.incoming, ending).outcome, env);
             handled.outcome.Err? ==> handled.outcome.error.Exists()
    ensures var received := ReadRequest(s.incoming, ending);
            var handled := Dispatch(s.server, received.outcome, env);
            var read := s.(server := handled.server, incoming := received.rest);
            Turn(s, env, ending, replies)
            == if IsAnswered(handled) then Reply(read, Answer(handled), received.outcome == Ok(CloseRequest), replies)
               else read.(executing := false, accepting := s.accepting && ActionOf(handled.outcome.error) != Fatal)
  {
    hide ReadRequest, Roomy, Dispatch, Reply;
  }

  lemma ReplyEnds(s: Session, response: Response, closes: bool, replies: nat -> Sent)
    requires s.executing
    ensures var after := Reply(s, response, closes, replies);
            && after.accepting == s.accepting
            && (after.executing <==>
                  if SendAll(Encoder.Text(response), replies, s.calls).error.Exists() then
                    after.calls > 0 && (replies(after.calls - 1).PeerGone? || replies(after.calls - 1).SendInterrupted?)
                  else !closes)
  {
    hide SendAll, Encoder.Text;
    if SendAll(Encoder.Text(response), replies, s.calls).error.Exists() {
      FailedSendEnds(s, response, closes, replies);
    }
  }

  lemma ReadsHaveErrors(incoming: string, ending: NetworkError)
    ensures var received := ReadRequest(incoming, ending).outcome; received.Err? ==> received.error.Exists()
    ensures var received := ReadRequest(incoming, ending).outcome;
            IsReadEnd(ending) && received.Err? ==> ActionOf(received.error) != Fatal
  {
    hide ReadFrame, Decoder.Decode;
    if IsReadEnd(ending) && ReadRequest(incoming, ending).outcome.Err? {
      ReadErrorsSorted(incoming, ending);
    }
  }

  /** A bad line is answered with its error and harms nothing: not the server, not the lines after it, not the connection. */
  lemma BadLineIsAnswered(s: Session, line: string, rest: string, env: Environment,
                          ending: NetworkError, replies: nat -> Sent)
    requires Roomy(s.server) && IsReadEnd(ending) && s.executing && (forall k :: replies(k).Took?)
    requires IsShortLine(line) && s.incoming == line + "\n" + rest && DecodeLine(line).Err?
    ensures var after := Turn(s, env, ending, replies);
            && after.server == s.server && after.incoming == rest
            && after.outgoing == s.outgoing + Encoder.Text(ErrorResponse(DecodeLine(line).error))
            && after.executing && after.accepting == s.accepting
  {
    DecodeErrors(line + " ");
    ShortLineIsOne(line);
    ReadOfLine(line, rest, ending);
    SendsEverything(Encoder.Text(ErrorResponse(DecodeLine(line).error)), replies, s.calls);
    hide Handle, ReadRequest, SendAll, Encoder.Text, Roomy, ActionOf, Decoder.Decode, IsShortLine;
  }

  /** A line that does not fit the buffer ends the connection and nothing else; its remainder is never read as a request. */
  lemma LongLineEndsConnection(s: Session, line: string, rest: string, env: Environment,
                               ending: NetworkError, replies: nat -> Sent)
    requires Roomy(s.server) && Requests.OneLine(line) && !IsShortLine(line) && s.incoming == line + "\n" + rest
    ensures var after := Turn(s, env, ending, replies);
            after.server == s.server && after.outgoing == s.outgoing && !after.executing && after.accepting == s.accepting
  {
    ReadOfLine(line, rest, ending);
    assert ActionOf(NetworkFault(RequestBufferOverflow)) == Close;
    hide Handle, ReadRequest, SendAll, Encoder.Text, Roomy, DecodeLine, IsShortLine, Requests.OneLine, ActionOf;
  }

  /** After as many turns as there are requests, the server and the bytes sent are those of the plain requests. */
  lemma {:induction false} TurnsAnswer(s: Session, commands: seq<Requests.Command>, rest: string, envs: nat -> Environment,
                                       turn: nat, ending: NetworkError, replies: nat -> Sent) returns (after: Session)
    requires Roomy(s.server) && IsReadEnd(ending) && s.executing && (forall k :: replies(k).Took?)
    requires s.incoming == EncodeAll(commands) + rest
    requires AllAnswered(s.server, Meanings(commands), envs, turn)
    ensures var a := AnswerAll(s.server, Meanings(commands), envs, turn);
            && after.server == a.server && after.incoming == rest
            && after.outgoing == s.outgoing + Texts(a.responses)
            && after.executing && after.accepting == s.accepting
    ensures Converse(s, envs, turn, ending, replies) == Converse(after, envs, turn + |commands|, ending, replies)
    decreases |commands|
  {
    hide Turn, Roomy, HandleRoomy, IsAnswered, Requests.Encode, Requests.Meaning, Encoder.Text;
    if commands == [] {
      after := s;
      assert EncodeAll(commands) + rest == rest;
    } else {
      var more := EncodeAll(commands[1..]) + rest;
      assert s.incoming == Requests.Encode(commands[0]) + more;
      assert Meanings(commands)[1..] == Meanings(commands[1..]);
      TurnAnswers(s, commands[0], more, envs(turn), ending, replies);
      var next := Turn(s, envs(turn), ending, replies);
      after := TurnsAnswer(next, commands[1..], rest, envs, turn + 1, ending, replies);
      var a := AnswerAll(s.server, Meanings(commands), envs, turn);
      assert a.responses[1..] == AnswerAll(next.server, Meanings(commands[1..]), envs, turn + 1).responses;
      assert Texts(a.responses) == Encoder.Text(a.responses[0]) + Texts(a.responses[1..]);
    }
  }

  /**
   The wire is transparent. A driver that sends any requests and then a close one, to a server that answers them, leaves
   the server in the state that the requests themselves lead to, and reads exactly their answers, whatever pieces the
   bytes were sent in.
   */
  lemma WireIsTransparent(server: Server, commands: seq<Requests.Command>, rest: string, envs: nat -> Environment,
                          ending: NetworkError, replies: nat -> Sent)
    requires Roomy(server) && IsReadEnd(ending) && (forall k :: replies(k).Took?)
    requires AllAnswered(server, Meanings(commands), envs, 0) && envs(|commands|).now != -1
    ensures var sent := EncodeAll(commands) + (Requests.Encode(Requests.Close) + rest);
            var end := Converse(Session(server, sent, "", 0, true, true), envs, 0, ending, replies);
            var a := AnswerAll(server, Meanings(commands), envs, 0);
            var read := ParseMany(end.outgoing, |commands| + 1);
            && end.server == a.server && end.incoming == rest && !end.executing && end.accepting
            && read.rest == "" && |read.responses| == |commands| + 1
            && (forall i | 0 <= i < |commands| :: read.responses[i] == Ok(Responses.Seen(a.responses[i])))
            && read.responses[|commands|] == Ok(Responses.Okay)
  {
    hide Turn, Roomy, HandleRoomy, Requests.Encode, Encoder.Text, Texts, EncodeAll, AnswerAll, AllAnswered, ParseMany,
      Requests.Meaning;
    var more := Requests.Encode(Requests.Close) + rest;
    var s := Session(server, EncodeAll(commands) + more, "", 0, true, true);
    var before := TurnsAnswer(s, commands, more, envs, 0, ending, replies);
    var a := AnswerAll(server, Meanings(commands), envs, 0);
    CloseIsAnswered(before.server, envs(|commands|));
    TurnAnswers(before, Requests.Close, rest, envs(|commands|), ending, replies);
    var all := a.responses + [OkResponse];
    TextsMore(a.responses, OkResponse);
    ResponsesReadBack(all, "");
    assert Texts(all) + "" == Texts(all);
    var end := Turn(before, envs(|commands|), ending, replies);
    assert Converse(before, envs, |commands|, ending, replies) == end;
    assert "" + Texts(a.responses) == Texts(a.responses);
    assert Answer(HandleRoomy(before.server, CloseRequest, envs(|commands|))) == OkResponse;
    assert end.outgoing == Texts(all);
  }

  lemma CloseIsAnswered(s: Server, env: Environment)
    requires Roomy(s) && env.now != -1
    ensures HandleRoomy(s, Requests.Meaning(Requests.Close), env) == Handled(s, Ok(OkResponse))
    ensures Requests.Meaning(Requests.Close) == CloseRequest
  {
    hide Mutate;
  }

  lemma {:induction false} TextsMore(responses: seq<Response>, r: Response)
    ensures Texts(responses + [r]) == Texts(responses) + Encoder.Text(r)
    decreases |responses|
  {
    hide Encoder.Text;
    if responses == [] {
      assert [r][1..] == [];
      assert [] + [r] == [r];
      assert Texts([r]) == Encoder.Text(r) + "";
    } else {
      assert (responses + [r])[1..] == responses[1..] + [r];
      TextsMore(responses[1..], r);
    }
  }

  // ----- two requests, as a driver sees them -----

  /** What a driver reads that sends two requests and then a close one on a connection of its own. */
  function ReadBack(s: Server, first: Requests.Command, second: Requests.Command, envs: nat -> Environment,
                    ending: NetworkError, replies: nat -> Sent): Parsed
    requires Roomy(s) && IsReadEnd(ending)
  {
    var sent := Requests.Encode(first) + Requests.Encode(second) + Requests.Encode(Requests.Close);
    ParseMany(Converse(Session(s, sent, "", 0, true, true), envs, 0, ending, replies).outgoing, 3)
  }

  lemma TwoAnswers(s: Server, r0: Request, r1: Request, envs: nat -> Environment)
    requires Roomy(s) && r0 != CloseRequest && r1 != CloseRequest
    requires IsAnswered(HandleRoomy(s, r0, envs(0)))
    requires IsAnswered(HandleRoomy(HandleRoomy(s, r0, envs(0)).server, r1, envs(1)))
    ensures AllAnswered(s, [r0, r1], envs, 0)
    ensures AnswerAll(s, [r0, r1], envs, 0).responses
            == [Answer(HandleRoomy(s, r0, envs(0))),
                Answer(HandleRoomy(HandleRoomy(s, r0, envs(0)).server, r1, envs(1)))]
  {
    hide HandleRoomy, IsAnswered, Roomy, Answer;
    assert [r0, r1][1..] == [r1] && [r1][1..] == [];
    var s1 := HandleRoomy(s, r0, envs(0)).server;
    var s2 := HandleRoomy(s1, r1, envs(1)).server;
    assert AllAnswered(s2, [], envs, 2) && AnswerAll(s2, [], envs, 2) == Answers(s2, []);
    assert AllAnswered(s1, [r1], envs, 1);
    assert AnswerAll(s1, [r1], envs, 1).responses == [Answer(HandleRoomy(s1, r1, envs(1)))];
  }

  lemma TwoMeanings(first: Requests.Command, second: Requests.Command)
    ensures Meanings([first, second]) == [Requests.Meaning(first), Requests.Meaning(second)]
    ensures EncodeAll([first, second]) == Requests.Encode(first) + Requests.Encode(second)
  {
    hide Requests.Meaning, Requests.Encode;
    assert [first, second][1..] == [second] && [second][1..] == [];
    assert EncodeAll([second]) == Requests.Encode(second) + "";
  }

  /** Two requests that are answered are read back as their answers. */
  lemma TwoRequests(s: Server, first: Requests.Command, second: Requests.Command, envs: nat -> Environment,
                    ending: NetworkError, replies: nat -> Sent)
    requires Roomy(s) && IsReadEnd(ending) && (forall k :: replies(k).Took?) && envs(2).now != -1
    requires Requests.Meaning(first) != CloseRequest && Requests.Meaning(second) != CloseRequest
    requires IsAnswered(HandleRoomy(s, Requests.Meaning(first), envs(0)))
    requires IsAnswered(HandleRoomy(HandleRoomy(s, Requests.Meaning(first), envs(0)).server,
                                    Requests.Meaning(second), envs(1)))
    ensures var h0 := HandleRoomy(s, Requests.Meaning(first), envs(0));
            var h1 := HandleRoomy(h0.server, Requests.Meaning(second), envs(1));
            ReadBack(s, first, second, envs, ending, replies)
            == Parsed([Ok(Responses.Seen(Answer(h0))), Ok(Responses.Seen(Answer(h1))), Ok(Responses.Okay)], "")
  {
    hide HandleRoomy, IsAnswered, Roomy, Answer, AllAnswered, AnswerAll, Converse, ParseMany, Requests.Encode,
      Requests.Meaning, Responses.Seen, Meanings, EncodeAll;
    TwoMeanings(first, second);
    TwoAnswers(s, Requests.Meaning(first), Requests.Meaning(second), envs);
    WireIsTransparent(s, [first, second], "", envs, ending, replies);
    assert Requests.Encode(Requests.Close) + "" == Requests.Encode(Requests.Close);
    var read := ReadBack(s, first, second, envs, ending, replies);
    assert read.responses == [read.responses[0], read.responses[1], read.responses[2]];
  }
}
