/** Serving one connection: the loop that reads, dispatches, and answers or gives up, and what the two ends make of it. */
module Session {
  import opened Common
  import opened Errors
  import opened Ledger
  import opened Protocol
  import opened Layout
  import opened Wal
  import opened Server
  import opened Engine
  import opened Connection
  import Encoder

  datatype Session = Session(
    server: Server,
    incoming: string,
    outgoing: string,
    calls: nat,
    executing: bool,
    accepting: bool)

  /** The reports that end a stream of bytes. */
  predicate IsReadEnd(e: NetworkError) {
    e.ClientClosed? || e.ServerClosed? || e.ReadTimeout? || e.ReadFailed?
  }

  /** Every account has its record in the file, and the file is appended to at its end. */
  predicate Roomy(s: Server) {
    RecordOffset(|s.accounts|) <= |s.disk.bytes| <= FILE_LIMIT && s.disk.cursor == |s.disk.bytes|
  }

  lemma RoomyIsSmall(s: Server)
    requires Roomy(s)
    ensures |s.accounts| < FILE_LIMIT && |s.accounts| < U64_SIZE && s.disk.cursor <= |s.disk.bytes|
  {}

  lemma AppendKeepsRoom(s: Server, entry: Record, accepts: nat)
    requires Roomy(s)
    ensures var after := Append(s.disk, entry, accepts);
            && |s.disk.bytes| <= |after.bytes| <= FILE_LIMIT && after.cursor == |after.bytes|
            && (AppendsAll(s.disk, accepts) ==> |after.bytes| == |s.disk.bytes| + 54)
  {
    hide EncodeRecord;
  }

  lemma HandleKeepsRoom(s: Server, request: Request, env: Environment)
    requires Roomy(s) && |s.accounts| < U64_SIZE
    ensures Roomy(Handle(s, request, env).server)
  {
    if env.now != -1 && OperationOf(request).Some? {
      AppendKeepsRoom(s, Record(WalId(request), env.now, OperationOf(request).value), env.accepts);
      hide Append, AppendsAll, Guard;
    }
  }

  // ----- one turn of the loop -----

  /** Sends the answer. A failed send that is not a reason to close leaves the loop running. */
  function Reply(s: Session, response: Response, closes: bool, replies: nat -> Sent): Session {
    var d := SendAll(Encoder.Text(response), replies, s.calls);
    var sent := s.(outgoing := s.outgoing + d.sent, calls := d.calls);
    if d.error.Exists() then
      sent.(accepting := s.accepting && ActionOf(d.error) != Fatal, executing := ActionOf(d.error) != Close)
    else sent.(executing := s.executing && !closes)
  }

  function Dispatch(s: Server, received: Result<Request, Error>, env: Environment): (handled: Handled)
    requires Roomy(s)
  {
    RoomyIsSmall(s);
    match received
    case Ok(request) => Handle(s, request, env)
    case Err(e) => Handled(s, Err(e))
  }

  function Turn(s: Session, env: Environment, ending: NetworkError, replies: nat -> Sent): Session
    requires Roomy(s.server)
  {
    var received := ReadRequest(s.incoming, ending);
    var handled := Dispatch(s.server, received.outcome, env);
    var read := s.(server := handled.server, incoming := received.rest);
    match handled.outcome
    case Ok(response) => Reply(read, response, received.outcome == Ok(CloseRequest), replies)
    case Err(e) =>
      match ActionOf(e)
      case Proceed => read
      case Reject => Reply(read, ErrorResponse(e), received.outcome == Ok(CloseRequest), replies)
      case Ignore => read.(executing := false)
      case Close => read.(executing := false)
      case Fatal => read.(executing := false, accepting := false)
  }

  lemma TurnKeepsRoom(s: Session, env: Environment, ending: NetworkError, replies: nat -> Sent)
    requires Roomy(s.server)
    ensures Roomy(Turn(s, env, ending, replies).server)
  {
    hide Roomy, Handle, ReadRequest, SendAll, ActionOf, Encoder.Text;
    RoomyIsSmall(s.server);
    var received := ReadRequest(s.incoming, ending);
    if received.outcome.Ok? {
      HandleKeepsRoom(s.server, received.outcome.value, env);
    }
  }

  /** Every turn takes bytes off the stream, and one that finds none is the last. */
  lemma TurnMakesProgress(s: Session, env: Environment, ending: NetworkError, replies: nat -> Sent)
    requires Roomy(s.server) && IsReadEnd(ending)
    ensures var after := Turn(s, env, ending, replies);
            if s.incoming == "" then !after.executing && after.incoming == "" else |after.incoming| < |s.incoming|
  {
    ReadTakesBytes(s.incoming, ending);
    hide Roomy, Handle, ReadRequest, SendAll, Encoder.Text;
  }

  lemma ReadTakesBytes(incoming: string, ending: NetworkError)
    ensures var received := ReadRequest(incoming, ending);
            if incoming == "" then received == Received(Err(NetworkFault(ending)), "")
            else |received.rest| < |incoming|
  {}

  /** The loop until it stops executing. */
  function Converse(s: Session, envs: nat -> Environment, turn: nat, ending: NetworkError, replies: nat -> Sent): Session
    requires Roomy(s.server) && IsReadEnd(ending)
    decreases if s.executing then |s.incoming| + 1 else 0
  {
    if !s.executing then s
    else
      TurnKeepsRoom(s, envs(turn), ending, replies);
      TurnMakesProgress(s, envs(turn), ending, replies);
      Converse(Turn(s, envs(turn), ending, replies), envs, turn + 1, ending, replies)
  }

  // ----- the loop over the process -----

  /** A server process and the connection it serves, as one value. */
  ghost function ViewOf(engine: Engine, client: Client): Session
    requires engine.Valid()
    reads engine, engine.list, engine.list.accounts, engine.file, engine.wal, client
  {
    Session(engine.View(), client.incoming, client.outgoing, client.calls, engine.executing, engine.accepting)
  }

  method SendReply(engine: Engine, client: Client, response: Response, closes: bool)
    requires engine.Valid() && client.Valid()
    modifies engine`executing, engine`accepting
    modifies client`outgoing, client`calls, client`writeIndex, client.writeBuffer
    ensures engine.Valid() && client.Valid()
    ensures ViewOf(engine, client) == Reply(old(ViewOf(engine, client)), response, closes, client.replies)
  {
    hide SendAll, Encoder.Text, ActionOf;
    var error := client.Write(response);
    if error.Exists() {
      if ActionOf(error) == Fatal {
        engine.accepting := false;
      }
      engine.executing := ActionOf(error) != Close;
    } else if closes {
      engine.executing := false;
    }
  }

  /** Processes a request that could be read. */
  method Execute(engine: Engine, received: Result<Request, Error>, env: Environment)
    returns (outcome: Result<Response, Error>)
    requires engine.Valid() && Roomy(engine.View())
    modifies engine.list, engine.list.accounts, engine.wal, engine.file
    ensures engine.Valid()
    ensures engine.list.accounts == old(engine.list.accounts) || fresh(engine.list.accounts)
    ensures Handled(engine.View(), outcome) == Dispatch(old(engine.View()), received, env)
  {
    hide Handle, Roomy, RecordOffset;
    RoomyIsSmall(engine.View());
    match received {
      case Ok(request) => outcome := engine.Request(request, env);
      case Err(e) => outcome := Err(e);
    }
  }

  /** One turn: read, dispatch, then answer, reject, close or terminate. */
  method TakeTurn(engine: Engine, client: Client, env: Environment)
    requires engine.Valid() && client.Valid() && Roomy(engine.View())
    modifies engine, engine.list, engine.list.accounts, engine.wal, engine.file
    modifies client, client.readBuffer, client.writeBuffer
    ensures engine.Valid() && client.Valid()
    ensures engine.list.accounts == old(engine.list.accounts) || fresh(engine.list.accounts)
    ensures ViewOf(engine, client) == Turn(old(ViewOf(engine, client)), env, client.ending, client.replies)
  {
    hide ReadRequest, Dispatch, ActionOf, Reply, Roomy, RecordOffset;
    var received := client.Read();
    var outcome := Execute(engine, received, env);
    match outcome {
      case Ok(response) =>
        SendReply(engine, client, response, received == Ok(CloseRequest));
      case Err(e) =>
        match ActionOf(e) {
          case Proceed =>
          case Reject =>
            SendReply(engine, client, ErrorResponse(e), received == Ok(CloseRequest));
          case Ignore =>
            engine.executing := false;
          case Close =>
            engine.executing := false;
          case Fatal =>
            engine.executing := false;
            engine.accepting := false;
        }
    }
  }

  /** Serves an accepted connection until it ends. */
  method ServeClient(engine: Engine, client: Client, envs: nat -> Environment)
    requires engine.Valid() && client.Valid() && Roomy(engine.View())
    requires IsReadEnd(client.ending)
    modifies engine, engine.list, engine.list.accounts, engine.wal, engine.file
    modifies client, client.readBuffer, client.writeBuffer
    ensures engine.Valid() && client.Valid()
    ensures ViewOf(engine, client)
            == Converse(old(ViewOf(engine, client)).(executing := true), envs, 0, client.ending, client.replies)
  {
    hide Turn, Roomy, RecordOffset;
    engine.executing := true;
    var turn := 0;
    ghost var start := ViewOf(engine, client);
    while engine.executing
      invariant engine.Valid() && client.Valid() && Roomy(start.server) && Roomy(engine.View())
      invariant engine.list.accounts == old(engine.list.accounts) || fresh(engine.list.accounts)
      invariant Converse(start, envs, 0, client.ending, client.replies)
                == Converse(ViewOf(engine, client), envs, turn, client.ending, client.replies)
      decreases if engine.executing then |client.incoming| + 1 else 0
    {
      ghost var before := ViewOf(engine, client);
      TurnKeepsRoom(before, envs(turn), client.ending, client.replies);
      TurnMakesProgress(before, envs(turn), client.ending, client.replies);
      TakeTurn(engine, client, envs(turn));
      turn := turn + 1;
    }
  }
}
