/** The server process: request dispatch and what the main loop makes of errors. */
module Engine {
  import opened Common
  import opened Errors
  import opened Ledger
  import opened Protocol
  import opened Accounts
  import opened Layout
  import opened Log
  import opened Wal
  import opened Server

  class Engine {
    const list: AccountList
    const state: State
    const guard: GuardKeeper
    const wal: WriteAheadLog
    const file: LogFile
    var accepting: bool
    var executing: bool

    ghost predicate Valid()
      reads this, list, file
    {
      && state.list == list && guard.state == state && wal.state == state && wal.file == file
      && list.Valid() && file.Valid()
      && file.cursor <= |file.bytes|
      // A file of at most 2^63 - 1 bytes has no room for more accounts than this.
      && list.length <= FILE_LIMIT
    }

    ghost function View(): Server
      requires Valid()
      reads this, list, list.accounts, file, wal
    {
      Server(list.Contents(), wal.transactions, file.View())
    }

    /** Builds the process around an opened log file and rebuilds the accounts from it. */
    constructor (file: LogFile)
      ensures this.file == file && fresh(list) && fresh(list.accounts) && fresh(wal)
      ensures state.list == list && guard.state == state && wal.state == state && wal.file == file
      ensures list.Valid() && list.Contents() == [] && wal.transactions == 0
      ensures !accepting && !executing
    {
      var l := new AccountList();
      var s := new State(l);
      list := l;
      state := s;
      guard := new GuardKeeper(s);
      wal := new WriteAheadLog(s, file);
      this.file := file;
      accepting, executing := false, false;
    }

    /**
     Starts the process on a file it creates or finds: the header is written or checked, the accounts are rebuilt, and the
     listening socket is opened. Requests are accepted only if all of that works.
     */
    method Start(created: bool, accepts: nat, truncates: bool, ticks: nat -> Tick, listens: Error) returns (error: Error)
      requires Valid() && list.Contents() == [] && file.cursor == 0 && !accepting
      requires created ==> file.bytes == []
      requires !created && HEADER_LENGTH <= |file.bytes| ==> Replayable(Scan(file.bytes[HEADER_LENGTH..]).records)
      modifies this`accepting, list, list.accounts, wal, file`bytes, file`cursor
      ensures list.accounts == old(list.accounts) || fresh(list.accounts)
      ensures list.Valid() && file.Valid()
      ensures var refused := OpenError(old(file.bytes), created, accepts);
              var content := Opened(old(file.bytes), created, accepts);
              if refused.Exists() then error == refused && file.bytes == content
              else
                && HEADER_LENGTH <= |content| && Replayable(Scan(content[HEADER_LENGTH..]).records)
                && exists replayed: Error ::
                     && Recovers(content, truncates, ticks, replayed, wal.transactions, list.Contents(), file.bytes)
                     && error == if replayed.Exists() then replayed else listens
      ensures created && HEADER_LENGTH <= accepts ==>
                error == listens && file.bytes == Header() && wal.transactions == 0 && list.Contents() == []
      ensures accepting == !error.Exists()
      ensures !error.Exists() ==> Valid() && file.cursor == |file.bytes|
    {
      hide Recovers, Scan, Replayable, Header;
      error := wal.Init(created, accepts);
      if error.Exists() {
        return;
      }
      ghost var bytes := file.bytes;
      NewIsEmpty(truncates, ticks);
      error := wal.Replay(truncates, ticks);
      ghost var replayed := error;
      assert Recovers(bytes, truncates, ticks, replayed, wal.transactions, list.Contents(), file.bytes);
      if created {
        NewRecovers(truncates, ticks, error, wal.transactions, list.Contents(), file.bytes);
      }
      if error.Exists() {
        return;
      }
      RecoveredFits(bytes, truncates, ticks, wal.transactions, list.Contents(), file.bytes);
      if listens.Exists() {
        return listens;
      }
      accepting := true;
    }

    /** Dispatches one request. The environment says how clock, memory and log file answer. */
    method Request(request: Request, env: Environment) returns (outcome: Result<Response, Error>)
      requires Valid() && list.length < FILE_LIMIT
      modifies list, list.accounts, wal, file
      ensures Valid()
      ensures list.accounts == old(list.accounts) || fresh(list.accounts)
      ensures Handled(View(), outcome) == Handle(old(View()), request, env)
    {
      hide LogWrite, GuardTransfer, GuardUpdate, Transferred;
      if env.now == -1 {
        return Err(StateFault(InvalidTime));
      }
      match request {
        case MagicRequest =>
          return Ok(MagicResponse);
        case AddAccountRequest(walId, credits, debits, flags) =>
          var entry := Record(walId, env.now, AddAccount(credits, debits, flags));
          var error := wal.Write(entry, env.accepts, env.syncs);
          if error.Exists() {
            return Err(error);
          }
          var id;
          error, id := state.AddAccount(NewAccount(credits, debits, env.now, flags), env.allocates);
          if error.Exists() {
            return Err(error);
          }
          return Ok(AddAccountResponse(id));
        case MakeTransferRequest(walId, fromId, toId, amount) =>
          var error := guard.MakeTransfer(fromId, toId, amount);
          if error.Exists() {
            return Err(error);
          }
          var entry := Record(walId, env.now, MakeTransfer(fromId, toId, amount));
          error := wal.Write(entry, env.accepts, env.syncs);
          if error.Exists() {
            return Err(error);
          }
          GuardMeansInBounds(list.Contents(), MakeTransfer(fromId, toId, amount));
          error := state.MakeTransfer(fromId, toId, amount, env.applyNow);
          if error.Exists() {
            return Err(error);
          }
          return Ok(OkResponse);
        case GetAccountRequest(accountId) =>
          var account := list.Get(accountId);
          match account {
            case Ok(a) => return Ok(GetAccountResponse(a.credits, a.debits, a.flags));
            case Err(e) => return Err(e);
          }
        case CountDatabaseRequest =>
          return Ok(CountDatabaseResponse(list.length, wal.transactions));
        case UpdateAccountRequest(walId, accountId, flags) =>
          var error := guard.UpdateAccount(accountId);
          if error.Exists() {
            return Err(error);
          }
          var entry := Record(walId, env.now, UpdateAccount(accountId, flags));
          error := wal.Write(entry, env.accepts, env.syncs);
          if error.Exists() {
            return Err(error);
          }
          GuardMeansInBounds(list.Contents(), UpdateAccount(accountId, flags));
          state.UpdateAccount(accountId, flags);
          return Ok(OkResponse);
        case CloseRequest =>
          return Ok(OkResponse);
      }
    }
  }

  /** A new file holds no records. */
  lemma NewIsEmpty(truncates: bool, ticks: nat -> Tick)
    ensures Header()[..HEADER_LENGTH] == Header() && Header()[HEADER_LENGTH..] == []
    ensures Scan(Header()[HEADER_LENGTH..]) == Scanned([], AtEnd) && Replayable([])
    ensures !FirstFailure([], ticks).Exists()
  {
    hide Header;
  }

  /** Replaying it cannot fail, and finds nothing. */
  lemma NewRecovers(truncates: bool, ticks: nat -> Tick, error: Error, k: nat, accounts: seq<Account>, after: seq<bv8>)
    requires Replayable(Scan(Header()[HEADER_LENGTH..]).records)
    requires Recovers(Header(), truncates, ticks, error, k, accounts, after)
    ensures error == NoError && k == 0 && accounts == [] && after == Header()
  {
    hide Header, FirstFailure;
    NewIsEmpty(truncates, ticks);
    assert Header()[..RecordOffset(0)] == Header();
    assert |Timeless(accounts)| == 0;
  }

  /** There is no room in a file for more accounts than its length. */
  lemma RecoveredFits(bytes: seq<bv8>, truncates: bool, ticks: nat -> Tick, k: nat, accounts: seq<Account>, after: seq<bv8>)
    requires HEADER_LENGTH <= |bytes| <= FILE_LIMIT && Replayable(Scan(bytes[HEADER_LENGTH..]).records)
    requires Recovers(bytes, truncates, ticks, NoError, k, accounts, after)
    ensures |accounts| <= FILE_LIMIT
  {
    FoldIsShort(Scan(bytes[HEADER_LENGTH..]).records);
    ScanNext(bytes, k);
    hide Scan, Fold, Replayable, FirstFailure, ChecksumOk, DecodeRecord;
  }
}
