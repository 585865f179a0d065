/** Accounts as functions of the log alone: every field of every account, and exactly which records may come next. */
module History {
  import opened Common
  import opened Ledger
  import opened LedgerLaws

  /** The flags account `k` was last given. */
  ghost function FlagsOf(log: seq<Record>, k: nat): u8
    requires Admitted(log) && k < |State(log)|
    decreases |log|
  {
    StateMoves(log);
    var op := Last(log).operation;
    if op.UpdateAccount? && op.accountId == k then op.flags
    else if k < |State(Before(log))| then FlagsOf(Before(log), k)
    else Creation(log, k).flags
  }

  function Reduced(n: nat): u128 {
    n % U128_SIZE
  }

  /** What account `k` owes: the initial credits and what it sent, as far as 128 bits hold it. */
  ghost function CreditsOf(log: seq<Record>, k: nat): u128
    requires Admitted(log) && k < |State(log)|
  {
    Reduced(Creation(log, k).credits + SentBy(log, k))
  }

  /** What account `k` owns: the initial debits and what it received, as far as 128 bits hold it. */
  ghost function DebitsOf(log: seq<Record>, k: nat): u128
    requires Admitted(log) && k < |State(log)|
  {
    Reduced(Creation(log, k).debits + ReceivedBy(log, k))
  }

  /** What the last record does to the history of an account that was there before it. */
  lemma HistoryMoves(log: seq<Record>, k: nat)
    requires Admitted(log) && log != [] && k < |State(Before(log))|
    ensures k < |State(log)| && Admitted(Before(log))
    ensures var op := Last(log).operation;
            && CreatedBy(log, k) == CreatedBy(Before(log), k)
            && FlagsOf(log, k) == (if op.UpdateAccount? && op.accountId == k then op.flags else FlagsOf(Before(log), k))
            && SentBy(log, k) == SentBy(Before(log), k) + (if op.MakeTransfer? && op.fromId == k then op.amount else 0)
            && ReceivedBy(log, k) == ReceivedBy(Before(log), k) + (if op.MakeTransfer? && op.toId == k then op.amount else 0)
            && TransfersNaming(log, k) == TransfersNaming(Before(log), k) + (if Names(op, k) then 1 else 0)
  {
    StateMoves(log);
    hide State, Admitted, Guard, Names;
  }

  /** What the history of an account is right after the record that created it. */
  lemma HistoryStarts(log: seq<Record>, k: nat)
    requires Admitted(log) && log != [] && |State(Before(log))| <= k < |State(log)|
    ensures var r := Last(log);
            && r.operation.AddAccount? && CreatedBy(log, k) == r && FlagsOf(log, k) == r.operation.flags
            && SentBy(log, k) == 0 && ReceivedBy(log, k) == 0 && TransfersNaming(log, k) == 0
            && State(log)[k].(updatedAt := 0)
               == Account(r.operation.credits, r.operation.debits, 0, r.timestamp, 0, r.operation.flags)
  {
    StateMoves(log);
    NothingMovedYet(Before(log), k);
    NoEarlierTransfer(Before(log), k);
    hide State, Admitted, Guard;
  }

  /** What the last record does to the amounts of an account that was there before it. */
  lemma AmountsMove(log: seq<Record>, k: nat)
    requires Admitted(log) && log != [] && k < |State(Before(log))| && k < |State(log)|
    ensures var op := Last(log).operation;
            && CreditsOf(log, k) == (if op.MakeTransfer? && op.fromId == k then (CreditsOf(Before(log), k) + op.amount) % U128_SIZE
                                     else CreditsOf(Before(log), k))
            && DebitsOf(log, k) == (if op.MakeTransfer? && op.toId == k then (DebitsOf(Before(log), k) + op.amount) % U128_SIZE
                                    else DebitsOf(Before(log), k))
  {
    hide *;
    HistoryMoves(log, k);
    AmountsAre(log, k);
    AmountsAre(Before(log), k);
    var op := Last(log).operation;
    if op.MakeTransfer? {
      ReducedSum(CreatedBy(log, k).operation.credits, SentBy(Before(log), k), op.amount);
      ReducedSum(CreatedBy(log, k).operation.debits, ReceivedBy(Before(log), k), op.amount);
    }
  }

  lemma AmountsAre(log: seq<Record>, k: nat)
    requires Admitted(log) && k < |State(log)|
    ensures CreditsOf(log, k) == Reduced(CreatedBy(log, k).operation.credits + SentBy(log, k))
    ensures DebitsOf(log, k) == Reduced(CreatedBy(log, k).operation.debits + ReceivedBy(log, k))
  {
    hide State, Admitted, CreatedBy, SentBy, ReceivedBy;
  }

  lemma ReducedSum(initial: nat, moved: nat, amount: nat)
    ensures Reduced(initial + (moved + amount)) == (Reduced(initial + moved) + amount) % U128_SIZE
  {
    WrappedSum(initial + moved, amount);
  }

  lemma AmountsStart(log: seq<Record>, k: nat)
    requires Admitted(log) && log != [] && |State(Before(log))| <= k < |State(log)|
    ensures Last(log).operation.AddAccount?
    ensures CreditsOf(log, k) == Last(log).operation.credits && DebitsOf(log, k) == Last(log).operation.debits
  {
    HistoryStarts(log, k);
    hide State, Admitted, CreatedBy, FlagsOf, SentBy, ReceivedBy, TransfersNaming;
    WrapOfFitting(Creation(log, k).credits);
    WrapOfFitting(Creation(log, k).debits);
  }

  /**
   Every field of every account, up to the wall clock, is what the log says: amounts initially given and moved, transfers
   counted, the time of the record that created it, and the flags last given. No condition on income or debt.
   */
  lemma {:induction false} AccountIsItsHistory(log: seq<Record>, k: nat)
    requires Admitted(log) && k < |State(log)|
    ensures TransfersNaming(log, k) < U64_SIZE
    ensures State(log)[k].(updatedAt := 0)
            == Account(CreditsOf(log, k), DebitsOf(log, k), TransfersNaming(log, k), CreatedBy(log, k).timestamp, 0,
                       FlagsOf(log, k))
    decreases |log|
  {
    StateMoves(log);
    CounterCountsTransfers(log, k);
    hide State, Admitted, CreatedBy, FlagsOf, CreditsOf, DebitsOf, SentBy, ReceivedBy, TransfersNaming, Guard, Apply;
    if k < |State(Before(log))| {
      AccountIsItsHistory(Before(log), k);
      AccountMoves(log, k);
      HistoryMoves(log, k);
      AmountsMove(log, k);
    } else {
      HistoryStarts(log, k);
      AmountsStart(log, k);
    }
  }

  // ----- which records may come next -----

  /** A transfer that the history allows: no more and no less than this has to hold. */
  ghost predicate Transferable(log: seq<Record>, op: Operation)
    requires Admitted(log) && op.MakeTransfer?
  {
    && op.amount > 0 && op.fromId != op.toId && op.fromId < |State(log)| && op.toId < |State(log)|
    && FlagsOf(log, op.fromId) % 2 == 1 && FlagsOf(log, op.toId) / 2 % 2 == 1
    && (FlagsOf(log, op.fromId) / 4 % 2 == 1 || CreditsOf(log, op.fromId) + op.amount <= DebitsOf(log, op.fromId))
    && TransfersNaming(log, op.fromId) < U64_MAX && TransfersNaming(log, op.toId) < U64_MAX
  }

  /** An operation that the history allows. */
  ghost predicate Possible(log: seq<Record>, op: Operation)
    requires Admitted(log)
  {
    match op
    case AddAccount(_, _, _) => true
    case MakeTransfer(_, _, _) => Transferable(log, op)
    case UpdateAccount(id, _) => id < Adds(log)
  }

  lemma GuardReadsHistory(log: seq<Record>, op: Operation)
    requires Admitted(log)
    ensures !Guard(State(log), op).Exists() <==> Possible(log, op)
  {
    match op
    case AddAccount(_, _, _) =>
    case UpdateAccount(id, _) =>
      AccountsAreAdds(log);
    case MakeTransfer(fromId, toId, amount) =>
      GuardIsExact(State(log), fromId, toId, amount);
      if fromId < |State(log)| {
        AccountIsItsHistory(log, fromId);
      }
      if toId < |State(log)| {
        AccountIsItsHistory(log, toId);
      }
      hide State, Guard, Admitted, CreditsOf, DebitsOf, FlagsOf;
  }

  /** Exactly which records an admitted log may be continued with. */
  lemma AdmittedIff(log: seq<Record>, r: Record)
    requires Admitted(log)
    ensures Admitted(log + [r]) <==> r.id == |log| && Possible(log, r.operation)
  {
    GuardReadsHistory(log, r.operation);
    hide Possible, Guard;
    assert (log + [r])[..|log|] == log;
    AdmittedIsReplayable(log);
  }

  // ----- the permission flags -----

  /** Account `k` is never given the flag of this weight, neither when it is added nor by an update. */
  ghost predicate NeverGiven(log: seq<Record>, k: nat, weight: nat)
    requires Admitted(log) && weight > 0
    decreases |log|
  {
    log != [] ==>
      (StateMoves(log);
       var op := Last(log).operation;
       && NeverGiven(Before(log), k, weight)
       && (op.UpdateAccount? && op.accountId == k ==> op.flags / weight % 2 == 0)
       && (op.AddAccount? && |State(Before(log))| == k ==> op.flags / weight % 2 == 0))
  }

  lemma {:induction false} NeverHas(log: seq<Record>, k: nat, weight: nat)
    requires Admitted(log) && k < |State(log)| && weight > 0 && NeverGiven(log, k, weight)
    ensures FlagsOf(log, k) / weight % 2 == 0
    decreases |log|
  {
    StateMoves(log);
    if k < |State(Before(log))| {
      NeverHas(Before(log), k, weight);
      HistoryMoves(log, k);
    } else {
      HistoryStarts(log, k);
    }
    hide State, Admitted, Guard, Apply, FlagsOf;
  }

  /** An account never allowed to send has sent nothing, and one never allowed to receive has received nothing. */
  lemma {:induction false} PermissionsHold(log: seq<Record>, k: nat)
    requires Admitted(log)
    ensures NeverGiven(log, k, 1) ==> SentBy(log, k) == 0
    ensures NeverGiven(log, k, 2) ==> ReceivedBy(log, k) == 0
    decreases |log|
  {
    if log != [] {
      StateMoves(log);
      PermissionsHold(Before(log), k);
      var before := Before(log);
      GuardReadsHistory(before, Last(log).operation);
      hide Guard, Apply, FlagsOf;
      if k < |State(before)| {
        if NeverGiven(log, k, 1) {
          NeverHas(before, k, 1);
        }
        if NeverGiven(log, k, 2) {
          NeverHas(before, k, 2);
        }
      }
      hide State, Admitted;
    }
  }

  // ----- the wall clock -----

  /**
   The times of an account: a new one was created and last changed when it was logged; a transfer sets the last change of
   exactly the two accounts it names, to the time it is applied; an update of the flags sets no time.
   */
  lemma TimesMove(accounts: seq<Account>, op: Operation, timestamp: i64, now: i64, k: nat)
    requires InBounds(|accounts|, op) && k < |Apply(accounts, op, timestamp, now)|
    ensures var a := Apply(accounts, op, timestamp, now)[k];
            if k < |accounts| then
              && a.createdAt == accounts[k].createdAt
              && a.updatedAt == if Names(op, k) then now else accounts[k].updatedAt
            else a.createdAt == a.updatedAt == timestamp
  {}
}
