/** What a live server answers to each request, in every case, in terms of its log. */
module Answers {
  import opened Common
  import opened Errors
  import opened Ledger
  import opened Protocol
  import opened Layout
  import opened Log
  import opened Wal
  import opened Server
  import opened Recovery
  import opened Durability
  import opened LedgerLaws
  import opened History
  import opened LiveLedger

  // ----- requests that change nothing -----

  /** What an account query is answered with. */
  ghost function AccountAnswer(log: seq<Record>, id: u64): Result<Response, Error>
    requires Admitted(log)
  {
    if id < |State(log)| then Ok(GetAccountResponse(CreditsOf(log, id), DebitsOf(log, id), FlagsOf(log, id)))
    else Err(AccountFault(NotFound))
  }

  /** The accounts of a live server, field by field. */
  lemma LiveAccount(w: World, id: nat)
    requires Invariant(w) && w.stage.Idle? && id < |w.server.accounts|
    ensures Admitted(w.log) && id < |State(w.log)| && TransfersNaming(w.log, id) < U64_SIZE
    ensures w.server.accounts[id].(updatedAt := 0)
            == Account(CreditsOf(w.log, id), DebitsOf(w.log, id), TransfersNaming(w.log, id),
                       CreatedBy(w.log, id).timestamp, 0, FlagsOf(w.log, id))
  {
    hide Invariant, Admitted, State, CreditsOf, DebitsOf, FlagsOf, CreatedBy, TransfersNaming;
    IdleState(w);
    AccountIsItsHistory(w.log, id);
    assert Timeless(w.server.accounts)[id] == w.server.accounts[id].(updatedAt := 0);
  }

  /**
   In every reachable idle state, while the clock works: the magic and the close query are answered as such, the count
   with the adds and the records of the log, and an account query with the amounts and flags that the log gives the
   account, or with "not found" exactly when there have not been so many adds. Nothing changes.
   */
  lemma QueriesAreAnswered(worlds: seq<World>, events: seq<Event>, n: nat, id: u64, env: Environment)
    requires Run(worlds, events) && n < |worlds| && worlds[n].stage.Idle? && env.now != -1
    ensures var s, log := worlds[n].server, worlds[n].log;
            && Admitted(log) && |State(log)| == Adds(log) < U64_SIZE && |log| < U64_SIZE
            && |s.accounts| < U64_SIZE && s.disk.cursor <= |s.disk.bytes|
            && Handle(s, MagicRequest, env) == Handled(s, Ok(MagicResponse))
            && Handle(s, CloseRequest, env) == Handled(s, Ok(OkResponse))
            && Handle(s, CountDatabaseRequest, env) == Handled(s, Ok(CountDatabaseResponse(Adds(log), |log|)))
            && Handle(s, GetAccountRequest(id), env) == Handled(s, AccountAnswer(log, id))
  {
    hide Run, Invariant, Admitted, State, AccountAnswer, Mutate, Query;
    RunKeeps(worlds, events, n);
    var w := worlds[n];
    IdleState(w);
    AccountsAreAdds(w.log);
    AccountsAreFew(w);
    StateOf(w);
    PlainQueries(w.server);
    AccountQuery(w, id);
  }

  lemma PlainQueries(s: Server)
    requires |s.accounts| < U64_SIZE
    ensures Query(s, MagicRequest) == Ok(MagicResponse) && Query(s, CloseRequest) == Ok(OkResponse)
    ensures Query(s, CountDatabaseRequest) == Ok(CountDatabaseResponse(|s.accounts|, s.transactions))
  {}

  lemma AccountQuery(w: World, id: u64)
    requires Invariant(w) && w.stage.Idle? && |w.server.accounts| < U64_SIZE
    ensures Admitted(w.log) && Query(w.server, GetAccountRequest(id)) == AccountAnswer(w.log, id)
  {
    hide Invariant, Admitted, State, CreditsOf, DebitsOf, FlagsOf, CreatedBy, TransfersNaming;
    IdleState(w);
    if id < |w.server.accounts| {
      LiveAccount(w, id);
    }
  }

  /** Without a time nothing is answered: every request ends the process, and changes nothing before that. */
  lemma NoTimeNoAnswer(s: Server, request: Request, env: Environment)
    requires |s.accounts| < U64_SIZE && s.disk.cursor <= |s.disk.bytes| && env.now == -1
    ensures Handle(s, request, env) == Handled(s, Err(StateFault(InvalidTime)))
    ensures ActionOf(StateFault(InvalidTime)) == Fatal
  {}

  // ----- requests that are logged -----

  /** What an accepted request is answered with. */
  function Accepting(adds: u64, op: Operation): Response {
    match op
    case AddAccount(_, _, _) => AddAccountResponse(adds)
    case MakeTransfer(_, _, _) => OkResponse
    case UpdateAccount(_, _) => OkResponse
  }

  /** The file system takes a whole record. */
  predicate TakesRecord(s: Server, env: Environment) {
    54 <= env.accepts && |s.disk.bytes| + 54 <= FILE_LIMIT
  }

  lemma TakesAll(s: Server, env: Environment)
    requires s.disk.cursor == |s.disk.bytes| <= FILE_LIMIT
    ensures AppendsAll(s.disk, env.accepts) <==> TakesRecord(s, env)
  {}

  /** Why a request that asks for an operation fails, in the order in which it is found out, or no error. */
  ghost function Failure(w: World, id: u64, op: Operation, env: Environment): Error
    requires Admitted(w.log)
  {
    if !Possible(w.log, op) then Guard(State(w.log), op)
    else if id != |w.log| then StorageFault(WalNonceMismatch)
    else if !TakesRecord(w.server, env) then StorageFault(WalWriteFailed)
    else if !env.syncs then StorageFault(WalSyncFailed)
    else if op.AddAccount? && Full(Adds(w.log)) && !env.allocates then AccountFault(OutOfMemory)
    else if op.MakeTransfer? && env.applyNow == -1 then StateFault(InvalidTime)
    else NoError
  }

  /** What the server is after a request: as it was when it was refused, the operation carried out when it was accepted. */
  ghost predicate Leaves(w: World, id: u64, op: Operation, env: Environment, s': Server)
    requires Admitted(w.log)
  {
    var failure := Failure(w, id, op, env);
    && (!Possible(w.log, op) || id != |w.log| ==> s' == w.server)
    && (failure.Exists() ==> s'.accounts == w.server.accounts)
    && (failure == StorageFault(WalWriteFailed) || failure == StorageFault(WalSyncFailed) ==>
          s'.transactions == |w.log| && s'.disk.durable == w.server.disk.durable)
    && (!failure.Exists() ==>
          var log := w.log + [Record(id, env.now, op)];
          && Admitted(log) && Timeless(s'.accounts) == State(log) && s'.transactions == |log|
          && InBounds(|w.server.accounts|, op) && s'.accounts == Apply(w.server.accounts, op, env.now, env.applyNow)
          && s'.disk.bytes == Image(log) && s'.disk.durable == s'.disk.bytes && s'.disk.cursor == |s'.disk.bytes|)
  }

  /** A request that asks for an operation under a number, handled: the error, or what the operation is answered with. */
  lemma OperationIsHandled(w: World, request: Request, id: u64, op: Operation, env: Environment)
    requires Invariant(w) && w.stage.Idle? && env.now != -1
    requires OperationOf(request) == Some(op) && WalId(request) == id
    ensures Admitted(w.log) && |w.server.accounts| == Adds(w.log) < U64_SIZE
    ensures w.server.disk.cursor <= |w.server.disk.bytes|
    ensures var h := Handle(w.server, request, env);
            && h.outcome == (if Failure(w, id, op, env).Exists() then Err(Failure(w, id, op, env))
                             else Ok(Accepting(Adds(w.log), op)))
            && Leaves(w, id, op, env, h.server)
  {
    hide Invariant, Admitted, State, Possible, Guard, TakesRecord, Full, Image, Append, AppendsAll, Apply, InBounds, LogWrite;
    IdleState(w);
    AccountsAreAdds(w.log);
    AccountsAreFew(w);
    StateOf(w);
    IdleBytes(w);
    TimelessGuard(w.server.accounts, op);
    GuardReadsHistory(w.log, op);
    WriteOutcome(w, Record(id, env.now, op), env);
    if Possible(w.log, op) {
      GuardMeansInBounds(w.server.accounts, op);
      if id == |w.log| {
        AcceptedMoves(w, Record(id, env.now, op), env.applyNow);
      }
    }
  }

  lemma IdleBytes(w: World)
    requires Invariant(w) && w.stage.Idle?
    ensures w.server.disk.bytes == Image(w.log) && w.server.disk.cursor == |w.server.disk.bytes| <= FILE_LIMIT
    ensures |w.log| + 1 < U64_SIZE
  {
    hide Admitted, AnswersKept, Image;
    assert |Image(w.log)| == RecordOffset(|w.log|);
  }

  /** What the log write makes of a record, in every case. */
  lemma WriteOutcome(w: World, r: Record, env: Environment)
    requires Invariant(w) && w.stage.Idle?
    ensures w.server.disk.cursor <= |w.server.disk.bytes|
    ensures var written := LogWrite(w.server.disk, w.server.transactions, r, env.accepts, env.syncs);
            && written.error == (if r.id != |w.log| then StorageFault(WalNonceMismatch)
                                 else if !TakesRecord(w.server, env) then StorageFault(WalWriteFailed)
                                 else if !env.syncs then StorageFault(WalSyncFailed)
                                 else NoError)
            && (r.id != |w.log| ==> written.disk == w.server.disk)
            && (written.error.Exists() ==>
                  written.transactions == |w.log| && written.disk.durable == w.server.disk.durable)
            && (!written.error.Exists() ==>
                  && written.transactions == |w.log| + 1
                  && written.disk.bytes == Image(w.log + [r]) && written.disk.durable == written.disk.bytes
                  && written.disk.cursor == |written.disk.bytes|)
  {
    hide Invariant, Image, TakesRecord, AppendsAll, Append;
    IdleBytes(w);
    IdleCount(w);
    TakesAll(w.server, env);
    AppendToImage(w.server.disk, w.log, r, env.accepts);
    AppendKeepsDurable(w.server.disk, r, env.accepts);
    assert (|w.log| + 1) % U64_SIZE == |w.log| + 1;
  }

  lemma IdleCount(w: World)
    requires Invariant(w) && w.stage.Idle?
    ensures w.server.transactions == |w.log|
  {
    hide HistoryOk, DiskOk, Fold, Replayable;
  }

  lemma AppendKeepsDurable(disk: Disk, r: Record, accepts: nat)
    requires disk.cursor <= |disk.bytes|
    ensures Append(disk, r, accepts).durable == disk.durable
  {
    hide EncodeRecord, Overwrite;
  }

  /** An accepted record extends the log, and memory moves with it. */
  lemma AcceptedMoves(w: World, r: Record, now: i64)
    requires Invariant(w) && w.stage.Idle? && Admitted(w.log) && Possible(w.log, r.operation) && r.id == |w.log|
    requires InBounds(|w.server.accounts|, r.operation)
    ensures Admitted(w.log + [r])
    ensures Timeless(Apply(w.server.accounts, r.operation, r.timestamp, now)) == State(w.log + [r])
  {
    hide Invariant, Possible, Admitted, State, Guard, Apply;
    IdleState(w);
    GuardReadsHistory(w.log, r.operation);
    AdmittedMore(w.log, r);
    TimelessApply(w.server.accounts, r.operation, r.timestamp, now);
  }

  /**
   In every reachable idle state and for every answer of clock, memory and file: an add, a transfer and an update succeed
   exactly when the history allows them, their number is that of the next record, and the system does its part. An add is
   answered with the number of adds before it, the others with a plain "okay"; the log has grown by the record, on disk
   and durable, and memory is its fold. Everything else is the first failure there is.
   */
  lemma RequestsAreAnswered(worlds: seq<World>, events: seq<Event>, n: nat, id: u64, op: Operation, env: Environment)
    requires Run(worlds, events) && n < |worlds| && worlds[n].stage.Idle? && env.now != -1
    ensures var w := worlds[n];
            && Admitted(w.log) && Adds(w.log) < U64_SIZE
            && |w.server.accounts| < U64_SIZE && w.server.disk.cursor <= |w.server.disk.bytes|
            && var request := match op
                 case AddAccount(credits, debits, flags) => AddAccountRequest(id, credits, debits, flags)
                 case MakeTransfer(fromId, toId, amount) => MakeTransferRequest(id, fromId, toId, amount)
                 case UpdateAccount(accountId, flags) => UpdateAccountRequest(id, accountId, flags);
            var h := Handle(w.server, request, env);
            && h.outcome == (if Failure(w, id, op, env).Exists() then Err(Failure(w, id, op, env))
                             else Ok(Accepting(Adds(w.log), op)))
            && Leaves(w, id, op, env, h.server)
  {
    hide Run, Invariant, Handle, Failure, Leaves, Admitted;
    RunKeeps(worlds, events, n);
    var request := Asking(op, id);
    OperationIsHandled(worlds[n], request, id, op, env);
  }
}
