/** From the driver's requests to the driver's responses: through both codecs, the wire, the server and its log. */
module EndToEnd {
  import opened Common
  import opened Errors
  import opened Ledger
  import opened Protocol
  import opened Server
  import opened Recovery
  import opened Durability
  import opened LedgerLaws
  import opened History
  import opened LiveLedger
  import opened Answers
  import opened Connection
  import opened Session
  import opened Uint128
  import Requests
  import Responses
  import Wire

  // ----- an operation, and then a look at an account -----

  /** A driver that sends these two requests and a close one reads these two responses and a last "okay", and no more. */
  ghost predicate Reads(s: Server, first: Requests.Command, second: Requests.Command, envs: nat -> Environment,
                        ending: NetworkError, replies: nat -> Sent, response: Responses.Response, look: Responses.Response)
  {
    && Roomy(s) && IsReadEnd(ending)
    && Wire.ReadBack(s, first, second, envs, ending, replies)
       == Wire.Parsed([Ok(response), Ok(look), Ok(Responses.Okay)], "")
  }

  /** The system does its part. */
  ghost predicate Willing(w: World, envs: nat -> Environment, ending: NetworkError, replies: nat -> Sent) {
    && IsReadEnd(ending) && (forall k :: replies(k).Took?) && (forall turn :: envs(turn).now != -1)
    && TakesRecord(w.server, envs(0)) && envs(0).syncs && envs(0).allocates && envs(0).applyNow != -1
  }

  /** The operation a driver's request stands for. */
  function Asked(c: Requests.Command): (op: Operation)
    requires Requests.IsWalRequest(c)
  {
    match c
    case AddAccount(_, credits, debits, flags) => AddAccount(Value(credits), Value(debits), flags)
    case MakeTransfer(_, fromId, toId, amount) => MakeTransfer(fromId, toId, Value(amount))
    case UpdateAccount(_, accountId, flags) => UpdateAccount(accountId, flags)
  }

  lemma AskedIsMeant(c: Requests.Command)
    requires Requests.IsWalRequest(c)
    ensures OperationOf(Requests.Meaning(c)) == Some(Asked(c)) && WalId(Requests.Meaning(c)) == c.walId
    ensures Requests.Meaning(c) != CloseRequest
  {}

  lemma AccountShows(s: Server, log: seq<Record>, id: u64, env: Environment)
    requires Roomy(s) && Admitted(log) && Timeless(s.accounts) == State(log) && env.now != -1
    ensures var h := Wire.HandleRoomy(s, GetAccountRequest(id), env);
            Wire.IsAnswered(h) && h.outcome == AccountAnswer(log, id)
  {
    hide Mutate, Roomy, State, Admitted, FlagsOf, CreditsOf, DebitsOf, CreatedBy, TransfersNaming;
    if id < |State(log)| {
      AccountIsItsHistory(log, id);
      assert Timeless(s.accounts)[id] == s.accounts[id].(updatedAt := 0);
    }
  }

  /**
   A driver that asks an idle server for an operation that the log allows, under the right number, and then for an
   account, reads the acknowledgement and the account as the log and this operation make it.
   */
  lemma ChangeThenLook(w: World, change: Requests.Command, id: u64, envs: nat -> Environment,
                       ending: NetworkError, replies: nat -> Sent)
    requires Invariant(w) && w.stage.Idle? && Willing(w, envs, ending, replies)
    requires Requests.IsWalRequest(change) && change.walId == |w.log|
    requires Admitted(w.log) && Possible(w.log, Asked(change))
    ensures Adds(w.log) < U64_SIZE
    ensures var log := w.log + [Record(|w.log|, envs(0).now, Asked(change))];
            && Admitted(log)
            && Reads(w.server, change, Requests.GetAccount(id), envs, ending, replies,
                     Responses.Seen(Accepting(Adds(w.log), Asked(change))),
                     Responses.Seen(match AccountAnswer(log, id) case Ok(r) => r case Err(e) => ErrorResponse(e)))
  {
    hide Invariant, Possible, Admitted, State, Roomy, Wire.ReadBack, Handle, Guard, Responses.Seen, Requests.Meaning, Full,
      AccountAnswer, ActionOf;
    var op := Asked(change);
    AskedIsMeant(change);
    IdleIsTidy(w);
    OperationIsHandled(w, Requests.Meaning(change), |w.log|, op, envs(0));
    var log := w.log + [Record(|w.log|, envs(0).now, op)];
    var h0 := Wire.HandleRoomy(w.server, Requests.Meaning(change), envs(0));
    AccountShows(h0.server, log, id, envs(1));
    LooksMean(id);
    Wire.TwoRequests(w.server, change, Requests.GetAccount(id), envs, ending, replies);
  }

  lemma LooksMean(id: u64)
    ensures Requests.Meaning(Requests.GetAccount(id)) == GetAccountRequest(id)
  {}

  // ----- the three operations -----

  /** An account that is added is read back with the credits, debits and flags it was given, under the id it was told. */
  lemma AddThenLook(w: World, credits: Uint128, debits: Uint128, flags: u8, envs: nat -> Environment,
                    ending: NetworkError, replies: nat -> Sent)
    requires Invariant(w) && w.stage.Idle? && Willing(w, envs, ending, replies) && |w.log| < U64_SIZE
    ensures Adds(w.log) < U64_SIZE
    ensures Reads(w.server, Requests.AddAccount(|w.log|, credits, debits, flags), Requests.GetAccount(Adds(w.log)),
                  envs, ending, replies,
                  Responses.AddAccount(Adds(w.log)), Responses.GetAccount(credits, debits, flags))
  {
    hide Invariant, Admitted, State, Reads, Willing, CreatedBy, SentBy, ReceivedBy, FlagsOf, Adds, TransfersNaming;
    IdleState(w);
    AccountsAreAdds(w.log);
    AddsAreFew(w);
    var add := Requests.AddAccount(|w.log|, credits, debits, flags);
    ChangeThenLook(w, add, Adds(w.log), envs, ending, replies);
    var r := Record(|w.log|, envs(0).now, Asked(add));
    LogGrows(w.log, r);
    HistoryStarts(w.log + [r], Adds(w.log));
    WrapOfFitting(Value(credits));
    WrapOfFitting(Value(debits));
    ValueIsInjective(OfValue(Value(credits)), credits);
    ValueIsInjective(OfValue(Value(debits)), debits);
  }

  lemma AddsAreFew(w: World)
    requires Invariant(w) && w.stage.Idle?
    ensures Admitted(w.log) && Adds(w.log) < U64_SIZE && |w.log| < U64_SIZE
  {
    hide Invariant, Admitted, State;
    IdleState(w);
    AccountsAreAdds(w.log);
    AccountsAreFew(w);
    IdleBytes(w);
  }

  lemma LogGrows(log: seq<Record>, r: Record)
    requires Admitted(log) && Admitted(log + [r])
    ensures log + [r] != [] && Before(log + [r]) == log && Last(log + [r]) == r
    ensures |State(log + [r])| == |State(log)| + (if r.operation.AddAccount? then 1 else 0)
  {
    hide State, Admitted;
    assert Before(log + [r]) == log;
    StateMoves(log + [r]);
  }

  /** What is moved is read back at both ends: on the sender's credits and on the recipient's debits, and nowhere else. */
  lemma TransferThenLook(w: World, fromId: u64, toId: u64, amount: Uint128, id: u64, envs: nat -> Environment,
                         ending: NetworkError, replies: nat -> Sent)
    requires Invariant(w) && w.stage.Idle? && Willing(w, envs, ending, replies) && |w.log| < U64_SIZE
    requires Admitted(w.log) && Possible(w.log, MakeTransfer(fromId, toId, Value(amount))) && id < |State(w.log)|
    ensures var sent, received := if id == fromId then Value(amount) else 0, if id == toId then Value(amount) else 0;
            Reads(w.server, Requests.MakeTransfer(|w.log|, fromId, toId, amount), Requests.GetAccount(id),
                  envs, ending, replies,
                  Responses.Okay,
                  Responses.GetAccount(OfValue((CreditsOf(w.log, id) + sent) % U128_SIZE),
                                       OfValue((DebitsOf(w.log, id) + received) % U128_SIZE),
                                       FlagsOf(w.log, id)))
  {
    hide Invariant, Admitted, State, Reads, Willing, CreatedBy, SentBy, ReceivedBy, FlagsOf, Possible, Adds,
      TransfersNaming;
    var transfer := Requests.MakeTransfer(|w.log|, fromId, toId, amount);
    ChangeThenLook(w, transfer, id, envs, ending, replies);
    var r := Record(|w.log|, envs(0).now, Asked(transfer));
    LogGrows(w.log, r);
    HistoryMoves(w.log + [r], id);
    WrappedSum(Creation(w.log, id).credits + SentBy(w.log, id), if id == fromId then Value(amount) else 0);
    WrappedSum(Creation(w.log, id).debits + ReceivedBy(w.log, id), if id == toId then Value(amount) else 0);
  }

  /** An update is read back as the flags of its account, and changes nothing else. */
  lemma UpdateThenLook(w: World, accountId: u64, flags: u8, id: u64, envs: nat -> Environment,
                       ending: NetworkError, replies: nat -> Sent)
    requires Invariant(w) && w.stage.Idle? && Willing(w, envs, ending, replies) && |w.log| < U64_SIZE
    requires Admitted(w.log) && accountId < Adds(w.log) && id < |State(w.log)|
    ensures Reads(w.server, Requests.UpdateAccount(|w.log|, accountId, flags), Requests.GetAccount(id),
                  envs, ending, replies,
                  Responses.Okay,
                  Responses.GetAccount(OfValue(CreditsOf(w.log, id)), OfValue(DebitsOf(w.log, id)),
                                       if id == accountId then flags else FlagsOf(w.log, id)))
  {
    hide Invariant, Admitted, State, Reads, Willing, CreatedBy, SentBy, ReceivedBy, FlagsOf, Adds, TransfersNaming;
    var update := Requests.UpdateAccount(|w.log|, accountId, flags);
    ChangeThenLook(w, update, id, envs, ending, replies);
    var r := Record(|w.log|, envs(0).now, Asked(update));
    LogGrows(w.log, r);
    HistoryMoves(w.log + [r], id);
  }
}
