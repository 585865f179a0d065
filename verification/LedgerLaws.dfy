/** Laws of every log the guard admits: counting, conservation and solvency. */
module LedgerLaws {
  import opened Common
  import opened Ledger

  // ----- reading a log from its end -----

  function Last(log: seq<Record>): Record
    requires log != []
  {
    log[|log| - 1]
  }

  function Before(log: seq<Record>): seq<Record>
    requires log != []
  {
    log[..|log| - 1]
  }

  /** The accounts an admitted log stands for. */
  ghost function State(log: seq<Record>): seq<Account>
    requires Admitted(log)
  {
    AdmittedIsReplayable(log);
    Fold(log)
  }

  /** One admitted record: the guard allowed it, and the state moves by it. */
  lemma StateMoves(log: seq<Record>)
    requires Admitted(log) && log != []
    ensures Admitted(Before(log))
    ensures var before, op := State(Before(log)), Last(log).operation;
            && !Guard(before, op).Exists() && InBounds(|before|, op)
            && |State(log)| == |Apply(before, op, Last(log).timestamp, 0)|
            && forall i | 0 <= i < |State(log)| ::
                 State(log)[i] == Apply(before, op, Last(log).timestamp, 0)[i].(updatedAt := 0)
  {
    AdmittedIsReplayable(log);
  }

  /** An account after an operation, field by field. */
  ghost predicate Moves(a: Account, k: nat, op: Operation, after: Account) {
    && after.credits == (if op.MakeTransfer? && op.fromId == k then (a.credits + op.amount) % U128_SIZE else a.credits)
    && after.debits == (if op.MakeTransfer? && op.toId == k then (a.debits + op.amount) % U128_SIZE else a.debits)
    && after.transactions == a.transactions + (if Names(op, k) then 1 else 0)
    && after.flags == (if op.UpdateAccount? && op.accountId == k then op.flags else a.flags)
    && after.createdAt == a.createdAt
  }

  lemma ApplyMoves(accounts: seq<Account>, op: Operation, timestamp: i64, now: i64, k: nat)
    requires !Guard(accounts, op).Exists() && InBounds(|accounts|, op) && k < |accounts|
    ensures Moves(accounts[k], k, op, Apply(accounts, op, timestamp, now)[k])
    ensures op.MakeTransfer? ==> op.fromId != op.toId
    ensures op.MakeTransfer? && op.fromId == k && !CanDebt(accounts[k].flags) ==>
              accounts[k].credits + op.amount <= accounts[k].debits
  {}

  /** How an admitted record changes an account that already exists. */
  lemma AccountMoves(log: seq<Record>, k: nat)
    requires Admitted(log) && log != [] && k < |State(Before(log))|
    ensures k < |State(log)|
    ensures var a, op := State(Before(log))[k], Last(log).operation;
            && Moves(a, k, op, State(log)[k])
            && (op.MakeTransfer? ==> op.fromId != op.toId)
            && (op.MakeTransfer? && op.fromId == k && !CanDebt(a.flags) ==> a.credits + op.amount <= a.debits)
  {
    StateMoves(log);
    ApplyMoves(State(Before(log)), Last(log).operation, Last(log).timestamp, 0, k);
    hide State, Admitted, Apply, Guard;
  }

  // ----- counting -----

  function Adds(log: seq<Record>): nat
    decreases |log|
  {
    if log == [] then 0 else Adds(Before(log)) + if Last(log).operation.AddAccount? then 1 else 0
  }

  predicate Names(op: Operation, k: nat) {
    op.MakeTransfer? && (op.fromId == k || op.toId == k)
  }

  /** How many transfers of the log name account `k`. */
  function TransfersNaming(log: seq<Record>, k: nat): nat
    decreases |log|
  {
    if log == [] then 0 else TransfersNaming(Before(log), k) + if Names(Last(log).operation, k) then 1 else 0
  }

  function Transfers(log: seq<Record>): nat
    decreases |log|
  {
    if log == [] then 0 else Transfers(Before(log)) + if Last(log).operation.MakeTransfer? then 1 else 0
  }

  /** There are as many accounts as add records, so the id given to a new account is the number of adds before it. */
  lemma {:induction false} AccountsAreAdds(log: seq<Record>)
    requires Admitted(log)
    ensures |State(log)| == Adds(log)
    decreases |log|
  {
    if log != [] {
      StateMoves(log);
      AccountsAreAdds(Before(log));
    }
  }

  /** The counter of an account never wraps: it is the number of transfers that name the account. */
  lemma {:induction false} CounterCountsTransfers(log: seq<Record>, k: nat)
    requires Admitted(log) && k < |State(log)|
    ensures State(log)[k].transactions == TransfersNaming(log, k)
    decreases |log|
  {
    StateMoves(log);
    if k < |State(Before(log))| {
      CounterCountsTransfers(Before(log), k);
      AccountMoves(log, k);
      hide State;
    } else {
      NoEarlierTransfer(Before(log), k);
    }
  }

  /** No transfer names an account that does not exist yet. */
  lemma {:induction false} NoEarlierTransfer(log: seq<Record>, k: nat)
    requires Admitted(log) && |State(log)| <= k
    ensures TransfersNaming(log, k) == 0
    decreases |log|
  {
    if log != [] {
      StateMoves(log);
      NoEarlierTransfer(Before(log), k);
    }
  }

  function SumOfCounters(accounts: seq<Account>): nat
    decreases |accounts|
  {
    if accounts == [] then 0 else SumOfCounters(accounts[..|accounts| - 1]) + accounts[|accounts| - 1].transactions
  }

  /** Changing one account changes the sum by the change of that account. */
  lemma {:induction false} SumOfCountersUpdate(accounts: seq<Account>, i: nat, a: Account)
    requires i < |accounts|
    ensures SumOfCounters(accounts[i := a]) == SumOfCounters(accounts) - accounts[i].transactions + a.transactions
    decreases |accounts|
  {
    var n := |accounts| - 1;
    if i < n {
      assert accounts[i := a][..n] == accounts[..n][i := a];
      SumOfCountersUpdate(accounts[..n], i, a);
    } else {
      assert accounts[i := a][..n] == accounts[..n];
    }
  }

  lemma {:induction false} SumOfCountersTimeless(accounts: seq<Account>)
    ensures SumOfCounters(Timeless(accounts)) == SumOfCounters(accounts)
    decreases |accounts|
  {
    if accounts != [] {
      var n := |accounts| - 1;
      assert Timeless(accounts)[..n] == Timeless(accounts[..n]);
      SumOfCountersTimeless(accounts[..n]);
    }
  }

  lemma TransferCounters(accounts: seq<Account>, op: Operation, now: i64)
    requires op.MakeTransfer? && !Guard(accounts, op).Exists() && InBounds(|accounts|, op)
    ensures SumOfCounters(Transferred(accounts, op.fromId, op.toId, op.amount, now)) == SumOfCounters(accounts) + 2
  {
    var from, to := accounts[op.fromId], accounts[op.toId];
    CountedOnce(from, op.amount, now);
    CountedOnce(to, op.amount, now);
    assert op.fromId != op.toId;
    hide SumOfCounters, Sent, Received, Guard;
    var mid := accounts[op.fromId := Sent(from, op.amount, now)];
    SumOfCountersUpdate(accounts, op.fromId, Sent(from, op.amount, now));
    SumOfCountersUpdate(mid, op.toId, Received(to, op.amount, now));
    assert mid[op.toId] == to;
  }

  /** An account that the guard lets take part in a transfer counts it. */
  lemma CountedOnce(a: Account, amount: u128, now: i64)
    requires a.transactions != U64_MAX
    ensures Sent(a, amount, now).transactions == Received(a, amount, now).transactions == a.transactions + 1
  {}

  /** Every transfer is counted by exactly two accounts. */
  lemma {:induction false} CountersSumToTwiceTransfers(log: seq<Record>)
    requires Admitted(log)
    ensures SumOfCounters(State(log)) == 2 * Transfers(log)
    decreases |log|
  {
    if log != [] {
      StateMoves(log);
      CountersSumToTwiceTransfers(Before(log));
      AdmittedIsReplayable(log);
      var before, r := State(Before(log)), Last(log);
      var after := Apply(before, r.operation, r.timestamp, 0);
      SumOfCountersTimeless(after);
      assert SumOfCounters(State(log)) == SumOfCounters(after);
      hide Fold, Replayable, Admitted, State, Timeless;
      match r.operation
      case AddAccount(credits, debits, flags) =>
        assert after[..|before|] == before;
      case MakeTransfer(fromId, toId, amount) =>
        TransferCounters(before, r.operation, 0);
      case UpdateAccount(id, flags) =>
        SumOfCountersUpdate(before, id, before[id].(flags := flags));
    }
  }

  // ----- conservation -----

  function Net(a: Account): int {
    a.debits - a.credits
  }

  /** What all accounts together own. */
  function Balance(accounts: seq<Account>): int
    decreases |accounts|
  {
    if accounts == [] then 0 else Balance(accounts[..|accounts| - 1]) + Net(accounts[|accounts| - 1])
  }

  /** What the add records alone brought in. */
  function Deposits(log: seq<Record>): int
    decreases |log|
  {
    if log == [] then 0
    else
      var op := Last(log).operation;
      Deposits(Before(log)) + if op.AddAccount? then op.debits - op.credits else 0
  }

  lemma {:induction false} BalanceUpdate(accounts: seq<Account>, i: nat, a: Account)
    requires i < |accounts|
    ensures Balance(accounts[i := a]) == Balance(accounts) - Net(accounts[i]) + Net(a)
    decreases |accounts|
  {
    var n := |accounts| - 1;
    if i < n {
      assert accounts[i := a][..n] == accounts[..n][i := a];
      BalanceUpdate(accounts[..n], i, a);
    } else {
      assert accounts[i := a][..n] == accounts[..n];
    }
  }

  lemma {:induction false} BalanceTimeless(accounts: seq<Account>)
    ensures Balance(Timeless(accounts)) == Balance(accounts)
    decreases |accounts|
  {
    if accounts != [] {
      var n := |accounts| - 1;
      assert Timeless(accounts)[..n] == Timeless(accounts[..n]);
      BalanceTimeless(accounts[..n]);
    }
  }

  /** How often crediting the sender and debiting the recipient wrap: zero or one each. */
  function CreditWrap(accounts: seq<Account>, op: Operation): int
    requires op.MakeTransfer? && InBounds(|accounts|, op)
  {
    if accounts[op.fromId].credits + op.amount >= U128_SIZE then 1 else 0
  }

  function DebitWrap(accounts: seq<Account>, op: Operation): int
    requires op.MakeTransfer? && InBounds(|accounts|, op)
  {
    if accounts[op.toId].debits + op.amount >= U128_SIZE then 1 else 0
  }

  lemma WrapOnce(n: u128, m: u128)
    ensures (n + m) % U128_SIZE == n + m - (if n + m >= U128_SIZE then U128_SIZE else 0)
  {}

  /** A transfer between two accounts changes what they own together only by wrapping. */
  lemma TransferBalance(accounts: seq<Account>, op: Operation, now: i64)
    requires op.MakeTransfer? && InBounds(|accounts|, op) && op.fromId != op.toId
    ensures Balance(Transferred(accounts, op.fromId, op.toId, op.amount, now))
            == Balance(accounts) + U128_SIZE * (CreditWrap(accounts, op) - DebitWrap(accounts, op))
  {
    hide Balance;
    var from, to := accounts[op.fromId], accounts[op.toId];
    var mid := accounts[op.fromId := Sent(from, op.amount, now)];
    BalanceUpdate(accounts, op.fromId, mid[op.fromId]);
    assert mid[op.toId] == to;
    BalanceUpdate(mid, op.toId, Received(to, op.amount, now));
    NetOfSent(from, op.amount, now);
    NetOfReceived(to, op.amount, now);
    hide Sent, Received, Net;
  }

  lemma NetOfSent(a: Account, amount: u128, now: i64)
    ensures Net(Sent(a, amount, now)) == Net(a) - amount + (if a.credits + amount >= U128_SIZE then U128_SIZE else 0)
  {
    WrapOnce(a.credits, amount);
  }

  lemma NetOfReceived(a: Account, amount: u128, now: i64)
    ensures Net(Received(a, amount, now)) == Net(a) + amount - (if a.debits + amount >= U128_SIZE then U128_SIZE else 0)
  {
    WrapOnce(a.debits, amount);
  }

  /** The number of wrapped credits minus the number of wrapped debits over a whole log. */
  ghost function Wraps(log: seq<Record>): int
    requires Admitted(log)
    decreases |log|
  {
    if log == [] then 0
    else
      StateMoves(log);
      var before, op := State(Before(log)), Last(log).operation;
      Wraps(Before(log)) + if op.MakeTransfer? then CreditWrap(before, op) - DebitWrap(before, op) else 0
  }

  /** What one guarded operation adds to what the accounts own together. */
  lemma OperationBalance(accounts: seq<Account>, op: Operation, timestamp: i64)
    requires !Guard(accounts, op).Exists() && InBounds(|accounts|, op)
    ensures Balance(Apply(accounts, op, timestamp, 0))
            == Balance(accounts)
               + (if op.AddAccount? then op.debits - op.credits else 0)
               + (if op.MakeTransfer? then U128_SIZE * (CreditWrap(accounts, op) - DebitWrap(accounts, op)) else 0)
  {
    match op
    case AddAccount(credits, debits, flags) =>
      assert Apply(accounts, op, timestamp, 0)[..|accounts|] == accounts;
    case MakeTransfer(fromId, toId, amount) =>
      TransferBalance(accounts, op, 0);
    case UpdateAccount(id, flags) =>
      BalanceUpdate(accounts, id, accounts[id].(flags := flags));
  }

  /** What the last record added, and what it wrapped. */
  function Added(op: Operation): int {
    if op.AddAccount? then op.debits - op.credits else 0
  }

  function Wrapped(accounts: seq<Account>, op: Operation): int
    requires InBounds(|accounts|, op)
  {
    if op.MakeTransfer? then CreditWrap(accounts, op) - DebitWrap(accounts, op) else 0
  }

  lemma BalanceMoves(log: seq<Record>)
    requires Admitted(log) && log != [] && Admitted(Before(log))
    requires InBounds(|State(Before(log))|, Last(log).operation)
    ensures Balance(State(log))
            == Balance(State(Before(log))) + Added(Last(log).operation)
               + U128_SIZE * Wrapped(State(Before(log)), Last(log).operation)
  {
    StateMoves(log);
    AdmittedIsReplayable(log);
    var before, r := State(Before(log)), Last(log);
    BalanceTimeless(Apply(before, r.operation, r.timestamp, 0));
    OperationBalance(before, r.operation, r.timestamp);
    hide Admitted, Apply, Balance, Guard, Timeless, InBounds, CreditWrap, DebitWrap;
  }

  lemma {:induction false} BalanceIsDeposits(log: seq<Record>)
    requires Admitted(log)
    ensures Balance(State(log)) == Deposits(log) + U128_SIZE * Wraps(log)
    decreases |log|
  {
    if log != [] {
      StateMoves(log);
      BalanceMoves(log);
      BalanceIsDeposits(Before(log));
      hide State, Admitted, Balance, Guard, Apply, InBounds, CreditWrap, DebitWrap;
    }
  }

  /**
   Conservation: over every admitted log what the accounts own together is what the add records brought in, up to
   multiples of 2^128; exactly so if and only if as many credits as debits wrapped.
   */
  lemma Conservation(log: seq<Record>)
    requires Admitted(log)
    ensures Balance(State(log)) == Deposits(log) + U128_SIZE * Wraps(log)
    ensures Balance(State(log)) == Deposits(log) <==> Wraps(log) == 0
  {
    BalanceIsDeposits(log);
    hide State, Balance, Deposits, Wraps, Admitted;
  }

  // ----- solvency -----

  /** The add record that created account `k`. */
  ghost function CreatedBy(log: seq<Record>, k: nat): (r: Record)
    requires Admitted(log) && k < |State(log)|
    ensures r.operation.AddAccount?
    decreases |log|
  {
    StateMoves(log);
    if k < |State(Before(log))| then CreatedBy(Before(log), k) else Last(log)
  }

  ghost function Creation(log: seq<Record>, k: nat): (op: Operation)
    requires Admitted(log) && k < |State(log)|
    ensures op.AddAccount?
  {
    CreatedBy(log, k).operation
  }

  /** What account `k` sent and received, as the log says. */
  function SentBy(log: seq<Record>, k: nat): nat
    decreases |log|
  {
    if log == [] then 0
    else
      var op := Last(log).operation;
      SentBy(Before(log), k) + if op.MakeTransfer? && op.fromId == k then op.amount else 0
  }

  function ReceivedBy(log: seq<Record>, k: nat): nat
    decreases |log|
  {
    if log == [] then 0
    else
      var op := Last(log).operation;
      ReceivedBy(Before(log), k) + if op.MakeTransfer? && op.toId == k then op.amount else 0
  }

  /** Account `k` is never given the flag that lets it go into debt. */
  ghost predicate NeverDebt(log: seq<Record>, k: nat)
    requires Admitted(log)
    decreases |log|
  {
    log != [] ==>
      (StateMoves(log);
       var op := Last(log).operation;
       && NeverDebt(Before(log), k)
       && (op.UpdateAccount? && op.accountId == k ==> !CanDebt(op.flags))
       && (op.AddAccount? && |State(Before(log))| == k ==> !CanDebt(op.flags)))
  }

  lemma {:induction false} NothingMovedYet(log: seq<Record>, k: nat)
    requires Admitted(log) && |State(log)| <= k
    ensures SentBy(log, k) == 0 && ReceivedBy(log, k) == 0
    decreases |log|
  {
    if log != [] {
      StateMoves(log);
      NothingMovedYet(Before(log), k);
    }
  }

  predicate Solvent(a: Account) {
    a.credits <= a.debits
  }

  /**
   Of an account never allowed debt, whatever it receives: its credits are exactly what it started with and sent, for the
   guard keeps them below its debits, and its debits are what it started with and received, up to multiples of 2^128.
   */
  lemma {:induction false} ExactAccount(log: seq<Record>, k: nat)
    requires Admitted(log) && k < |State(log)|
    requires NeverDebt(log, k)
    ensures var a := State(log)[k];
            && !CanDebt(a.flags)
            && a.credits == Creation(log, k).credits + SentBy(log, k)
            && a.debits == (Creation(log, k).debits + ReceivedBy(log, k)) % U128_SIZE
    decreases |log|
  {
    OneBefore(log, k);
    hide State, Admitted, Moves, NeverDebt, Creation, SentBy, ReceivedBy;
    if k < |State(Before(log))| {
      ExactAccount(Before(log), k);
      AccountMoves(log, k);
      ExactStep(State(Before(log))[k], k, Last(log).operation, State(log)[k],
                Creation(log, k).debits + ReceivedBy(Before(log), k));
    } else {
      WrapOfFitting(Creation(log, k).debits);
    }
  }

  lemma WrapOfFitting(n: u128)
    ensures n % U128_SIZE == n
  {}

  /** What the definitions say about an account and the log without its last record. */
  lemma OneBefore(log: seq<Record>, k: nat)
    requires Admitted(log) && k < |State(log)| && NeverDebt(log, k)
    ensures log != [] && Admitted(Before(log)) && NeverDebt(Before(log), k)
    ensures var op := Last(log).operation;
            if k < |State(Before(log))| then
              && Creation(Before(log), k) == Creation(log, k)
              && SentBy(log, k) == SentBy(Before(log), k) + (if op.MakeTransfer? && op.fromId == k then op.amount else 0)
              && ReceivedBy(log, k)
                 == ReceivedBy(Before(log), k) + (if op.MakeTransfer? && op.toId == k then op.amount else 0)
              && (op.UpdateAccount? && op.accountId == k ==> !CanDebt(op.flags))
            else
              && SentBy(log, k) == ReceivedBy(log, k) == 0
              && op.AddAccount? && op == Creation(log, k) && !CanDebt(op.flags)
              && State(log)[k].credits == op.credits && State(log)[k].debits == op.debits
              && State(log)[k].flags == op.flags
  {
    StateMoves(log);
    if k >= |State(Before(log))| {
      NothingMovedYet(Before(log), k);
    }
    hide Guard;
  }

  lemma ExactStep(a: Account, k: nat, op: Operation, after: Account, received: nat)
    requires Moves(a, k, op, after) && a.debits == received % U128_SIZE
    requires op.MakeTransfer? ==> op.fromId != op.toId
    requires op.MakeTransfer? && op.fromId == k ==> a.credits + op.amount <= a.debits
    ensures after.credits == a.credits + (if op.MakeTransfer? && op.fromId == k then op.amount else 0)
    ensures after.debits == (received + (if op.MakeTransfer? && op.toId == k then op.amount else 0)) % U128_SIZE
    ensures after.flags == (if op.UpdateAccount? && op.accountId == k then op.flags else a.flags)
  {
    if op.MakeTransfer? {
      WrapOnce(a.credits, op.amount);
      WrappedSum(received, op.amount);
    }
  }

  lemma WrappedSum(n: nat, m: nat)
    ensures (n % U128_SIZE + m) % U128_SIZE == (n + m) % U128_SIZE
  {
    var q, r := n / U128_SIZE, n % U128_SIZE;
    var p, t := (r + m) / U128_SIZE, (r + m) % U128_SIZE;
    assert n + m == (q + p) * U128_SIZE + t;
    Remainder(q + p, t);
  }

  lemma Remainder(q: nat, r: u128)
    ensures (q * U128_SIZE + r) % U128_SIZE == r
  {}

  /** Exactly when such an account covers its credits, for any log and any income. */
  lemma SolventIff(log: seq<Record>, k: nat)
    requires Admitted(log) && k < |State(log)|
    requires NeverDebt(log, k)
    ensures Solvent(State(log)[k]) <==>
              Creation(log, k).credits + SentBy(log, k) <= (Creation(log, k).debits + ReceivedBy(log, k)) % U128_SIZE
  {
    ExactAccount(log, k);
    hide State, Creation, SentBy, ReceivedBy, NeverDebt;
  }

  /**
   Solvency: an account created with debits covering its credits, never allowed debt, and never receiving more than
   fits its field, covers its credits in every reachable state, and neither field ever wraps.
   */
  lemma {:induction false} Solvency(log: seq<Record>, k: nat)
    requires Admitted(log) && k < |State(log)|
    requires NeverDebt(log, k)
    requires Creation(log, k).credits <= Creation(log, k).debits
    requires Creation(log, k).debits + ReceivedBy(log, k) < U128_SIZE
    ensures var a := State(log)[k];
            && !CanDebt(a.flags)
            && a.credits == Creation(log, k).credits + SentBy(log, k)
            && a.debits == Creation(log, k).debits + ReceivedBy(log, k)
            && Solvent(a)
    decreases |log|
  {
    ExactAccount(log, k);
    OneBefore(log, k);
    WrapOfFitting(Creation(log, k).debits + ReceivedBy(log, k));
    hide State, Admitted, NeverDebt, Creation, SentBy, ReceivedBy;
    if k < |State(Before(log))| {
      Solvency(Before(log), k);
      AccountMoves(log, k);
    }
  }

  // ----- transfer by transfer -----

  /** What a caller can check before a transfer: the recipient's debits do not wrap below its credits. */
  predicate CanAbsorb(to: Account, amount: u128) {
    to.debits + amount < U128_SIZE || to.credits <= to.debits + amount - U128_SIZE
  }

  /**
   A transfer that the guard lets through keeps a sender without debt solvent, and keeps a solvent recipient solvent if
   and only if the recipient can absorb the amount.
   */
  lemma TransferKeepsSolvent(accounts: seq<Account>, op: Operation, timestamp: i64, now: i64)
    requires op.MakeTransfer? && !Guard(accounts, op).Exists() && InBounds(|accounts|, op)
    ensures !CanDebt(accounts[op.fromId].flags) ==> Solvent(Apply(accounts, op, timestamp, now)[op.fromId])
    ensures Solvent(accounts[op.toId]) ==>
              (Solvent(Apply(accounts, op, timestamp, now)[op.toId]) <==> CanAbsorb(accounts[op.toId], op.amount))
  {
    ApplyMoves(accounts, op, timestamp, now, op.fromId);
    ApplyMoves(accounts, op, timestamp, now, op.toId);
    WrapOnce(accounts[op.fromId].credits, op.amount);
    WrapOnce(accounts[op.toId].debits, op.amount);
    hide Apply, Guard;
  }

  /** Account `k` is solvent after every record since it exists. */
  ghost predicate AlwaysSolvent(log: seq<Record>, k: nat)
    requires Admitted(log)
    decreases |log|
  {
    log != [] ==>
      (StateMoves(log);
       AlwaysSolvent(Before(log), k) && (k < |State(log)| ==> Solvent(State(log)[k])))
  }

  /** Account `k` was created solvent, and could absorb every transfer it received. */
  ghost predicate AbsorbsAll(log: seq<Record>, k: nat)
    requires Admitted(log)
    decreases |log|
  {
    log != [] ==>
      (StateMoves(log);
       var before, op := State(Before(log)), Last(log).operation;
       && AbsorbsAll(Before(log), k)
       && (op.AddAccount? && |before| == k ==> op.credits <= op.debits)
       && (op.MakeTransfer? && op.toId == k && k < |before| ==> CanAbsorb(before[k], op.amount)))
  }

  /** Over whole logs: an account never allowed debt is always solvent if and only if it absorbed all it received. */
  lemma {:induction false} AlwaysSolventIff(log: seq<Record>, k: nat)
    requires Admitted(log) && NeverDebt(log, k)
    ensures AlwaysSolvent(log, k) <==> AbsorbsAll(log, k)
    decreases |log|
  {
    if log != [] {
      StateMoves(log);
      AlwaysSolventIff(Before(log), k);
      if k < |State(Before(log))| {
        ExactAccount(Before(log), k);
        AccountMoves(log, k);
        if AlwaysSolvent(Before(log), k) {
          SolventBefore(Before(log), k);
          AbsorbStep(State(Before(log))[k], k, Last(log).operation, State(log)[k]);
        }
        hide State, Admitted, Guard, Apply, Moves, Solvent, CanAbsorb;
      }
    }
  }

  lemma SolventBefore(log: seq<Record>, k: nat)
    requires Admitted(log) && AlwaysSolvent(log, k) && k < |State(log)|
    ensures Solvent(State(log)[k])
  {}

  lemma AbsorbStep(a: Account, k: nat, op: Operation, after: Account)
    requires Moves(a, k, op, after) && Solvent(a)
    requires op.MakeTransfer? ==> op.fromId != op.toId
    requires op.MakeTransfer? && op.fromId == k ==> a.credits + op.amount <= a.debits
    ensures Solvent(after) <==> (op.MakeTransfer? && op.toId == k ==> CanAbsorb(a, op.amount))
  {
    if op.MakeTransfer? {
      WrapOnce(a.credits, op.amount);
      WrapOnce(a.debits, op.amount);
    }
  }

  // ----- the exception is real -----

  /** One more record that the guard allows. */
  lemma AdmittedMore(log: seq<Record>, r: Record)
    requires Admitted(log) && r.id == |log| && !Guard(State(log), r.operation).Exists()
    ensures Admitted(log + [r]) && Before(log + [r]) == log && Last(log + [r]) == r
    ensures InBounds(|State(log)|, r.operation)
    ensures State(log + [r]) == Timeless(Apply(State(log), r.operation, r.timestamp, 0))
  {
    var more := log + [r];
    assert Before(more) == log && Last(more) == r;
    AdmittedIsReplayable(log);
    hide Guard;
    assert Admitted(more);
    StateMoves(more);
    AdmittedIsReplayable(more);
  }

  const RICH: Record := Record(0, 1, AddAccount(0, U128_MAX, 1))
  const FULL: Record := Record(1, 1, AddAccount(1, U128_MAX, 2))
  const LAST_STRAW: Record := Record(2, 1, MakeTransfer(0, 1, 1))

  /** Two adds, which nothing guards, and one transfer that the guard lets through. */
  function Bankrupting(): seq<Record> {
    [] + [RICH] + [FULL] + [LAST_STRAW]
  }

  /** Without absorbing solvency fails: an admitted log of three records ends with debits zero and credits one. */
  lemma ReceivingCanBankrupt()
    ensures Admitted(Bankrupting()) && |State(Bankrupting())| == 2
    ensures NeverDebt(Bankrupting(), 1) && State(Bankrupting())[1].debits == 0 < State(Bankrupting())[1].credits
  {
    var rich, full := Account(0, U128_MAX, 0, 1, 0, 1), Account(1, U128_MAX, 0, 1, 0, 2);
    var one, two := [] + [RICH], [] + [RICH] + [FULL];
    AdmittedMore([], RICH);
    assert State(one) == [rich];
    AdmittedMore(one, FULL);
    assert State(two) == [rich, full];
    AdmittedMore(two, LAST_STRAW);
    assert NeverDebt(one, 1) && NeverDebt(two, 1);
  }
}
