/** The database server as a state: what one request does to the accounts, the counter and the log file. */
module Server {
  import opened Common
  import opened Errors
  import opened Ledger
  import opened Protocol
  import opened Wal

  datatype Server = Server(accounts: seq<Account>, transactions: u64, disk: Disk)

  /** What the operating system answers while a request is handled: the clock twice, memory, and the log file. */
  datatype Environment = Environment(now: i64, applyNow: i64, allocates: bool, accepts: nat, syncs: bool)

  /** The operation a request wants logged, if any. */
  function OperationOf(request: Request): Option<Operation> {
    match request
    case AddAccountRequest(_, credits, debits, flags) => Some(AddAccount(credits, debits, flags))
    case MakeTransferRequest(_, fromId, toId, amount) => Some(MakeTransfer(fromId, toId, amount))
    case UpdateAccountRequest(_, accountId, flags) => Some(UpdateAccount(accountId, flags))
    case _ => None
  }

  function WalId(request: Request): u64
    requires OperationOf(request).Some?
  {
    request.walId
  }

  /** The answer to a request that changes nothing. */
  function Query(s: Server, request: Request): Result<Response, Error>
    requires OperationOf(request).None?
    requires |s.accounts| < U64_SIZE
  {
    match request
    case MagicRequest => Ok(MagicResponse)
    case GetAccountRequest(id) =>
      if id < |s.accounts| then
        Ok(GetAccountResponse(s.accounts[id].credits, s.accounts[id].debits, s.accounts[id].flags))
      else Err(AccountFault(NotFound))
    case CountDatabaseRequest => Ok(CountDatabaseResponse(|s.accounts|, s.transactions))
    case CloseRequest => Ok(OkResponse)
  }

  /** Why applying a logged operation can still fail: no memory, or no time for a transfer. */
  function ApplyError(count: nat, op: Operation, env: Environment): Error {
    ApplyFailure(count, op, env.allocates, env.applyNow)
  }

  function Acknowledgement(accounts: seq<Account>, op: Operation): Response
    requires |accounts| < U64_SIZE
  {
    if op.AddAccount? then AddAccountResponse(|accounts|) else OkResponse
  }

  datatype Handled = Handled(server: Server, outcome: Result<Response, Error>)

  /** Guard, log, apply, in that order; the first failure ends the request. */
  function Mutate(s: Server, request: Request, env: Environment): Handled
    requires OperationOf(request).Some?
    requires |s.accounts| < U64_SIZE && s.disk.cursor <= |s.disk.bytes|
  {
    var op := OperationOf(request).value;
    var refusal := Guard(s.accounts, op);
    if refusal.Exists() then Handled(s, Err(refusal))
    else
      var entry := Record(WalId(request), env.now, op);
      var written := LogWrite(s.disk, s.transactions, entry, env.accepts, env.syncs);
      var logged := Server(s.accounts, written.transactions, written.disk);
      if written.error.Exists() then Handled(logged, Err(written.error))
      else if ApplyError(|s.accounts|, op, env).Exists() then Handled(logged, Err(ApplyError(|s.accounts|, op, env)))
      else
        GuardMeansInBounds(s.accounts, op);
        Handled(logged.(accounts := Apply(s.accounts, op, env.now, env.applyNow)), Ok(Acknowledgement(s.accounts, op)))
  }

  lemma GuardMeansInBounds(accounts: seq<Account>, op: Operation)
    requires !Guard(accounts, op).Exists()
    ensures InBounds(|accounts|, op)
  {}

  /** What one request does. */
  function Handle(s: Server, request: Request, env: Environment): Handled
    requires |s.accounts| < U64_SIZE && s.disk.cursor <= |s.disk.bytes|
  {
    if env.now == -1 then Handled(s, Err(StateFault(InvalidTime)))
    else if OperationOf(request).Some? then Mutate(s, request, env)
    else Handled(s, Query(s, request))
  }
}
