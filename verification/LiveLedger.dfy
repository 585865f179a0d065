/** The laws of the ledger, stated of the accounts of a running server: after any run, with any crashes in it. */
module LiveLedger {
  import opened Common
  import opened Ledger
  import opened Protocol
  import opened Wal
  import opened Server
  import opened Recovery
  import opened Durability
  import opened LedgerLaws
  import opened Layout
  import opened Log
  import Nonces
  import Session

  /** The log behind the accounts of an idle server. */
  lemma IdleState(w: World)
    requires Invariant(w) && w.stage.Idle?
    ensures Admitted(w.log) && Timeless(w.server.accounts) == State(w.log) && w.server.transactions == |w.log|
  {
    hide DiskOk, AnswersKept, Admitted, Fold;
    AdmittedIsReplayable(w.log);
  }

  /**
   Counting and conservation in every reachable idle state: accounts are counted by adds, the counter of an account by
   the transfers that name it, all counters by twice the transfers, and what is owned by what was deposited.
   */
  lemma CountsAndBalance(worlds: seq<World>, events: seq<Event>, n: nat)
    requires Run(worlds, events) && n < |worlds| && worlds[n].stage.Idle?
    ensures var accounts, log := worlds[n].server.accounts, worlds[n].log;
            && Admitted(log)
            && |accounts| == Adds(log)
            && (forall k | 0 <= k < |accounts| :: accounts[k].transactions == TransfersNaming(log, k))
            && SumOfCounters(accounts) == 2 * Transfers(log)
            && Balance(accounts) == Deposits(log) + U128_SIZE * Wraps(log)
  {
    hide Run, Invariant, Admitted, State, Wraps, SumOfCounters, Balance, TransfersNaming, Deposits;
    RunKeeps(worlds, events, n);
    var accounts, log := worlds[n].server.accounts, worlds[n].log;
    IdleState(worlds[n]);
    AccountsAreAdds(log);
    forall k | 0 <= k < |accounts| ensures accounts[k].transactions == TransfersNaming(log, k) {
      CounterCountsTransfers(log, k);
      assert Timeless(accounts)[k].transactions == accounts[k].transactions;
    }
    CountersSumToTwiceTransfers(log);
    SumOfCountersTimeless(accounts);
    Conservation(log);
    BalanceTimeless(accounts);
  }

  /**
   Solvency in every reachable idle state, live or rebuilt, of an account never allowed debt: what it owes is exact, what
   it owns is exact up to multiples of 2^128, and it was solvent all along if and only if it absorbed all it received. One
   that was created solvent and whose income fits its field always is.
   */
  lemma SolventAccounts(worlds: seq<World>, events: seq<Event>, n: nat, k: nat)
    requires Run(worlds, events) && n < |worlds| && worlds[n].stage.Idle?
    requires k < |worlds[n].server.accounts|
    ensures Admitted(worlds[n].log) && k < |State(worlds[n].log)|
    ensures var log, a := worlds[n].log, worlds[n].server.accounts[k];
            NeverDebt(log, k) ==>
              && !CanDebt(a.flags)
              && a.credits == Creation(log, k).credits + SentBy(log, k)
              && a.debits == (Creation(log, k).debits + ReceivedBy(log, k)) % U128_SIZE
              && (AlwaysSolvent(log, k) <==> AbsorbsAll(log, k))
              && (Creation(log, k).credits <= Creation(log, k).debits < U128_SIZE - ReceivedBy(log, k) ==> Solvent(a))
  {
    hide Run, Invariant, Admitted, State, NeverDebt, Creation, SentBy, ReceivedBy, AlwaysSolvent, AbsorbsAll;
    RunKeeps(worlds, events, n);
    var accounts, log := worlds[n].server.accounts, worlds[n].log;
    IdleState(worlds[n]);
    assert Timeless(accounts)[k] == accounts[k].(updatedAt := 0);
    if NeverDebt(log, k) {
      ExactAccount(log, k);
      AlwaysSolventIff(log, k);
      if Creation(log, k).credits <= Creation(log, k).debits
         && Creation(log, k).debits + ReceivedBy(log, k) < U128_SIZE {
        Solvency(log, k);
      }
    }
  }

  // ----- which logs a server can have -----

  /** The request that logs an operation under a number. */
  function Asking(op: Operation, id: u64): (request: Request)
    ensures OperationOf(request) == Some(op) && WalId(request) == id
  {
    match op
    case AddAccount(credits, debits, flags) => AddAccountRequest(id, credits, debits, flags)
    case MakeTransfer(fromId, toId, amount) => MakeTransferRequest(id, fromId, toId, amount)
    case UpdateAccount(accountId, flags) => UpdateAccountRequest(id, accountId, flags)
  }

  /** With clock, memory and file willing, an operation the guard allows, under the right number, is carried out. */
  lemma WillingIsAccepted(s: Server, op: Operation, now: i64)
    requires |s.accounts| < U64_SIZE && s.disk.cursor <= |s.disk.bytes| && s.disk.cursor + 54 <= FILE_LIMIT
    requires now != -1 && !Guard(s.accounts, op).Exists()
    ensures Handle(s, Asking(op, s.transactions), Environment(now, 1, true, RECORD_LENGTH, true)).outcome.Ok?
  {
    hide Guard, Append, Apply, InBounds;
  }

  /**
   Every log the guard admits, its times valid and its image no longer than a file can be, is the log of an idle server at
   the end of some run. What an admitted log can lead to, a server can be led to.
   */
  lemma {:induction false} AdmittedIsReached(log: seq<Record>) returns (worlds: seq<World>, events: seq<Event>)
    requires Admitted(log) && RecordOffset(|log|) <= FILE_LIMIT
    requires forall r <- log :: r.timestamp != -1
    ensures Run(worlds, events) && |worlds| == |events| + 1
    ensures var w := worlds[|events|]; w.stage.Idle? && w.log == log && Timeless(w.server.accounts) == State(log)
    decreases |log|
  {
    hide Invariant, State, Admitted, Step, Initial;
    if log == [] {
      worlds, events := [World(Idle, Server([], 0, Disk(Header(), Header(), HEADER_LENGTH)), [], 0, [], 0)], [];
      PathStarts(worlds[0]);
      NoLogNoAccounts();
    } else {
      StateMoves(log);
      worlds, events := AdmittedIsReached(Before(log));
      RunKeeps(worlds, events, |events|);
      var w := worlds[|events|];
      var worlds', events' := LastIsReached(log, w);
      RunGoesOn(worlds, events, worlds', events');
      worlds, events := worlds + worlds'[1..], events + events';
      RunKeeps(worlds, events, |events|);
      IdleState(worlds[|events|]);
    }
  }

  lemma NoLogNoAccounts()
    ensures Admitted([]) && State([]) == [] == Timeless([])
    ensures var w := World(Idle, Server([], 0, Disk(Header(), Header(), HEADER_LENGTH)), [], 0, [], 0); Initial(w)
  {}

  lemma RunGoesOn(worlds: seq<World>, events: seq<Event>, worlds': seq<World>, events': seq<Event>)
    requires Run(worlds, events) && Path(worlds', events') && worlds'[0] == worlds[|events|]
    ensures Run(worlds + worlds'[1..], events + events')
    ensures (worlds + worlds'[1..])[|events| + |events'|] == worlds'[|events'|]
  {
    PathJoins(worlds, events, worlds', events');
    hide Step, Initial;
  }

  /** The last record of an admitted log, requested of a server that has the log before it. */
  lemma LastIsReached(log: seq<Record>, w: World) returns (worlds: seq<World>, events: seq<Event>)
    requires Admitted(log) && log != [] && RecordOffset(|log|) <= FILE_LIMIT && Last(log).timestamp != -1
    requires Invariant(w) && w.stage.Idle? && w.log == Before(log)
    ensures Path(worlds, events) && |worlds| == |events| + 1 && worlds[0] == w
    ensures worlds[|events|].stage.Idle? && worlds[|events|].log == log
  {
    hide Invariant, State, Admitted, Step, Handle, Fold;
    IdleState(w);
    StateMoves(log);
    hide Guard, Apply;
    var r := Last(log);
    TimelessGuard(w.server.accounts, r.operation);
    var request := Asking(r.operation, w.server.transactions);
    var env := Environment(r.timestamp, 1, true, RECORD_LENGTH, true);
    worlds, events := RequestIsRun(w, request, env);
    IdleFile(w);
    WillingIsAccepted(w.server, r.operation, r.timestamp);
    LastId(log);
    assert Before(log) + [r] == log;
  }

  lemma LastId(log: seq<Record>)
    requires Admitted(log) && log != []
    ensures Last(log).id == |Before(log)|
  {}

  lemma IdleFile(w: World)
    requires Invariant(w) && w.stage.Idle?
    ensures w.server.disk.cursor == |w.server.disk.bytes| == RecordOffset(|w.log|)
  {}

  /** A run, without any crash in it, to a server with an account that was never allowed debt and owes more than it owns. */
  lemma BankruptIsReached() returns (worlds: seq<World>, events: seq<Event>)
    ensures Admitted(Bankrupting()) && |State(Bankrupting())| == 2 && NeverDebt(Bankrupting(), 1)
    ensures Run(worlds, events) && |worlds| == |events| + 1
    ensures var w := worlds[|events|];
            && w.stage.Idle? && w.log == Bankrupting()
            && |w.server.accounts| == 2 && w.server.accounts[1].debits == 0 < w.server.accounts[1].credits
  {
    hide Admitted, State, NeverDebt, Run;
    ReceivingCanBankrupt();
    worlds, events := AdmittedIsReached(Bankrupting());
    hide Bankrupting;
    assert Timeless(worlds[|events|].server.accounts)[1] == State(Bankrupting())[1];
  }

  /** An accepted add request is answered with `id`, and the new account is the last one. */
  predicate AddedAs(id: nat, s: Server, request: Request, now: i64, handled: Handled)
    requires request.AddAccountRequest?
  {
    handled.outcome.Ok? ==>
      && handled.outcome.value.AddAccountResponse? && handled.outcome.value.accountId == id == |s.accounts|
      && handled.server.accounts == s.accounts + [NewAccount(request.credits, request.debits, now, request.flags)]
  }

  /** The account that a request creates is answered with the number of add records before it. */
  lemma NewAccountIsNamed(w: World, request: Request, env: Environment)
    requires Invariant(w) && w.stage.Idle? && request.AddAccountRequest?
    ensures |w.server.accounts| < U64_SIZE && w.server.disk.cursor <= |w.server.disk.bytes|
    ensures AddedAs(Adds(w.log), w.server, request, env.now, Handle(w.server, request, env))
  {
    hide Invariant, Admitted, State, LogWrite;
    IdleState(w);
    AccountsAreAdds(w.log);
    AccountsAreFew(w);
    StateOf(w);
  }

  /**
   An idle server, live or rebuilt, is what serving a connection and the sequence-number protocol ask for: one record per
   count, room for its accounts, and the cursor at the end of the file.
   */
  lemma IdleIsTidy(w: World)
    requires Invariant(w) && w.stage.Idle?
    ensures Nonces.Tidy(w.server) && Nonces.FileHolds(w.server, w.log) && Session.Roomy(w.server)
  {
    hide AnswersKept, Admitted, Fold, Image, Holds;
    StateOf(w);
    FoldIsShort(w.log);
    forall i | 0 <= i < |w.log| ensures w.log[i].id == i {
      AdmittedIds(w.log, i);
    }
  }
}
