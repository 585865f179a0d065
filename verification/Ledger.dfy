/** Accounts, log records, and how a record changes the accounts. */
module Ledger {
  import opened Common
  import opened Errors

  datatype Account = Account(
    credits: u128,
    debits: u128,
    transactions: u64,
    createdAt: i64,
    updatedAt: i64,
    flags: u8)

  datatype Operation =
    | AddAccount(credits: u128, debits: u128, flags: u8)
    | MakeTransfer(fromId: u64, toId: u64, amount: u128)
    | UpdateAccount(accountId: u64, flags: u8)

  datatype Record = Record(id: u64, timestamp: i64, operation: Operation)

  predicate CanSend(flags: u8) {
    flags % 2 == 1
  }

  predicate CanReceive(flags: u8) {
    flags / 2 % 2 == 1
  }

  predicate CanDebt(flags: u8) {
    flags / 4 % 2 == 1
  }

  function NewAccount(credits: u128, debits: u128, createdAt: i64, flags: u8): Account {
    Account(credits, debits, 0, createdAt, createdAt, flags)
  }

  // ----- the three state changes; unsigned fields wrap -----

  function Sent(a: Account, amount: u128, now: i64): Account {
    a.(credits := (a.credits + amount) % U128_SIZE,
       transactions := (a.transactions + 1) % U64_SIZE,
       updatedAt := now)
  }

  function Received(a: Account, amount: u128, now: i64): Account {
    a.(debits := (a.debits + amount) % U128_SIZE,
       transactions := (a.transactions + 1) % U64_SIZE,
       updatedAt := now)
  }

  /** The sender is updated first; nothing here rules out that both ids name one account. */
  function Transferred(accounts: seq<Account>, fromId: nat, toId: nat, amount: u128, now: i64): (after: seq<Account>)
    requires fromId < |accounts| && toId < |accounts|
    ensures |after| == |accounts|
  {
    var mid := accounts[fromId := Sent(accounts[fromId], amount, now)];
    mid[toId := Received(mid[toId], amount, now)]
  }

  /** The ids that an operation indexes the account list with. No code checks them during replay. */
  predicate InBounds(count: nat, op: Operation) {
    match op
    case AddAccount(_, _, _) => true
    case MakeTransfer(fromId, toId, _) => fromId < count && toId < count
    case UpdateAccount(id, _) => id < count
  }

  function Apply(accounts: seq<Account>, op: Operation, timestamp: i64, now: i64): (after: seq<Account>)
    requires InBounds(|accounts|, op)
    ensures |after| == |accounts| + (if op.AddAccount? then 1 else 0)
  {
    match op
    case AddAccount(credits, debits, flags) => accounts + [NewAccount(credits, debits, timestamp, flags)]
    case MakeTransfer(fromId, toId, amount) => Transferred(accounts, fromId, toId, amount, now)
    case UpdateAccount(id, flags) => accounts[id := accounts[id].(flags := flags)]
  }

  // ----- why applying can fail -----

  const CAPACITY_DEFAULT: u64 := 1024

  /** The size of the account array when it holds `count` accounts: it starts at the default and only ever doubles. */
  function CapacityFor(count: nat): (capacity: nat)
    ensures CAPACITY_DEFAULT <= capacity && count <= capacity
    ensures capacity == CAPACITY_DEFAULT || capacity < 2 * count
  {
    if count <= CAPACITY_DEFAULT then CAPACITY_DEFAULT else 2 * CapacityFor((count + 1) / 2)
  }

  /** One more account needs a larger array. */
  predicate Full(count: nat) {
    count == CapacityFor(count)
  }

  /** Adding an account keeps the array, unless it is full, when it doubles. */
  lemma {:induction false} CapacityGrows(count: nat)
    ensures CapacityFor(count + 1) == if Full(count) then 2 * CapacityFor(count) else CapacityFor(count)
    decreases count
  {
    if count > CAPACITY_DEFAULT && count % 2 == 0 {
      CapacityGrows(count / 2);
    }
  }

  /** No memory for a larger array, or no time for a transfer; `now` is -1 when the clock failed. */
  function ApplyFailure(count: nat, op: Operation, allocates: bool, now: i64): Error {
    if op.AddAccount? && Full(count) && !allocates then AccountFault(OutOfMemory)
    else if op.MakeTransfer? && now == -1 then StateFault(InvalidTime)
    else NoError
  }

  lemma FullHalves(count: nat)
    ensures count > 1024 ==> (Full(count) <==> count % 2 == 0 && Full(count / 2))
    ensures count <= 1024 ==> (Full(count) <==> count == 1024)
  {}

  lemma DoublingsHalve(k: nat)
    ensures Doublings(0) == 1 && Doublings(k + 1) == 2 * Doublings(k)
  {}

  /** The array is full at 1024 accounts and at the doublings of that, and nowhere else. */
  lemma {:induction false} FullAtDoublings(count: nat)
    ensures Full(count) <==> exists k: nat :: count == 1024 * Doublings(k)
    decreases count
  {
    hide Full, Doublings;
    FullHalves(count);
    DoublingsHalve(0);
    if Full(count) {
      if count > 1024 {
        FullAtDoublings(count / 2);
        var k: nat :| count / 2 == 1024 * Doublings(k);
        DoublingsHalve(k);
        assert count == 1024 * Doublings(k + 1);
      } else {
        assert count == 1024 * Doublings(0);
      }
    }
    if k: nat :| count == 1024 * Doublings(k) {
      if k > 0 {
        DoublingsHalve(k - 1);
        assert count / 2 == 1024 * Doublings(k - 1);
        FullAtDoublings(count / 2);
      }
    }
  }

  function Doublings(k: nat): (p: nat)
    ensures p > 0
  {
    if k == 0 then 1 else 2 * Doublings(k - 1)
  }

  // ----- the guard -----

  function GuardTransfer(accounts: seq<Account>, fromId: u64, toId: u64, amount: u128): Error {
    if amount == 0 then GuardFault(ZeroBalance)
    else if fromId == toId then GuardFault(SameAccount)
    else if fromId >= |accounts| then GuardFault(SenderNotFound)
    else if toId >= |accounts| then GuardFault(RecipientNotFound)
    else
      var from, to := accounts[fromId], accounts[toId];
      if !CanSend(from.flags) then GuardFault(CannotSend)
      else if !CanReceive(to.flags) then GuardFault(CannotReceive)
      else if !CanDebt(from.flags) && U128_MAX - from.credits < amount then GuardFault(InsufficientBalance)
      else if !CanDebt(from.flags) && from.debits < amount + from.credits then GuardFault(InsufficientBalance)
      else if from.transactions == U64_MAX || to.transactions == U64_MAX then GuardFault(TransactionOverflow)
      else NoError
  }

  function GuardUpdate(accounts: seq<Account>, accountId: u64): Error {
    if accountId >= |accounts| then AccountFault(NotFound) else NoError
  }

  /** What is checked before an operation is logged; adding an account is not guarded. */
  function Guard(accounts: seq<Account>, op: Operation): Error {
    match op
    case AddAccount(_, _, _) => NoError
    case MakeTransfer(fromId, toId, amount) => GuardTransfer(accounts, fromId, toId, amount)
    case UpdateAccount(id, _) => GuardUpdate(accounts, id)
  }

  /**
   What the guard lets through, in terms of the accounts' fields: a positive amount between two different accounts that
   exist, the sender allowed to send, the recipient to receive, the sender in debt or able to cover the amount, and room in
   both counters.
   */
  lemma GuardIsExact(accounts: seq<Account>, fromId: u64, toId: u64, amount: u128)
    ensures !Guard(accounts, MakeTransfer(fromId, toId, amount)).Exists() <==>
              && amount > 0 && fromId != toId && fromId < |accounts| && toId < |accounts|
              && accounts[fromId].flags % 2 == 1 && accounts[toId].flags / 2 % 2 == 1
              && (accounts[fromId].flags / 4 % 2 == 1
                  || accounts[fromId].credits + amount <= accounts[fromId].debits)
              && accounts[fromId].transactions < U64_MAX && accounts[toId].transactions < U64_MAX
  {}

  /** Adding is never refused, and an update exactly when its account is not there. */
  lemma OthersAreUnguarded(accounts: seq<Account>, id: u64, credits: u128, debits: u128, flags: u8)
    ensures Guard(accounts, AddAccount(credits, debits, flags)) == NoError
    ensures Guard(accounts, UpdateAccount(id, flags)) == if id < |accounts| then NoError else AccountFault(NotFound)
  {}

  /** What a refused transfer is told: the first objection, in this order. */
  lemma GuardObjects(accounts: seq<Account>, fromId: u64, toId: u64, amount: u128)
    ensures var error := Guard(accounts, MakeTransfer(fromId, toId, amount));
            && (amount == 0 ==> error == GuardFault(ZeroBalance))
            && (amount > 0 && fromId == toId ==> error == GuardFault(SameAccount))
            && (amount > 0 && fromId != toId ==>
                  && (fromId >= |accounts| ==> error == GuardFault(SenderNotFound))
                  && (fromId < |accounts| && toId >= |accounts| ==> error == GuardFault(RecipientNotFound))
                  && (fromId < |accounts| && toId < |accounts| ==>
                        error == ObjectionTo(accounts[fromId], accounts[toId], amount)))
  {}

  /** The objection to two existing accounts, in terms of their fields. */
  function ObjectionTo(from: Account, to: Account, amount: u128): (error: Error)
    ensures error == GuardFault(CannotSend) <==> from.flags % 2 == 0
    ensures error == GuardFault(CannotReceive) <==> from.flags % 2 == 1 && to.flags / 2 % 2 == 0
    ensures error == GuardFault(InsufficientBalance) <==>
              && from.flags % 2 == 1 && to.flags / 2 % 2 == 1
              && from.flags / 4 % 2 == 0 && from.debits < from.credits + amount
    ensures error == GuardFault(TransactionOverflow) <==>
              && from.flags % 2 == 1 && to.flags / 2 % 2 == 1
              && (from.flags / 4 % 2 == 1 || from.credits + amount <= from.debits)
              && (from.transactions == U64_MAX || to.transactions == U64_MAX)
    ensures error.Exists() ==>
              error in {GuardFault(CannotSend), GuardFault(CannotReceive), GuardFault(InsufficientBalance),
                        GuardFault(TransactionOverflow)}
  {
    if from.flags % 2 == 0 then GuardFault(CannotSend)
    else if to.flags / 2 % 2 == 0 then GuardFault(CannotReceive)
    else if from.flags / 4 % 2 == 0 && from.debits < from.credits + amount then GuardFault(InsufficientBalance)
    else if from.transactions == U64_MAX || to.transactions == U64_MAX then GuardFault(TransactionOverflow)
    else NoError
  }

  // ----- accounts up to the wall clock -----

  /** The account list without the field that live and replayed transfers take from the wall clock. */
  function Timeless(accounts: seq<Account>): (t: seq<Account>)
    ensures |t| == |accounts|
    ensures forall i | 0 <= i < |t| :: t[i] == accounts[i].(updatedAt := 0)
  {
    seq(|accounts|, i requires 0 <= i < |accounts| => accounts[i].(updatedAt := 0))
  }

  lemma TimelessGuard(accounts: seq<Account>, op: Operation)
    ensures Guard(Timeless(accounts), op) == Guard(accounts, op)
  {}

  /** Up to the wall clock, the effect of an operation does not depend on when it is applied. */
  lemma TimelessApply(accounts: seq<Account>, op: Operation, timestamp: i64, now: i64)
    requires InBounds(|accounts|, op)
    ensures Timeless(Apply(accounts, op, timestamp, now)) == Timeless(Apply(Timeless(accounts), op, timestamp, 0))
  {
    var a := Timeless(Apply(accounts, op, timestamp, now));
    var b := Timeless(Apply(Timeless(accounts), op, timestamp, 0));
    forall i | 0 <= i < |a| ensures a[i] == b[i] {}
  }

  // ----- the meaning of a log -----

  /** Folding a log: the accounts it stands for, up to the wall clock. */
  ghost function Fold(log: seq<Record>): seq<Account>
    requires Replayable(log)
    decreases |log|, 1
  {
    if log == [] then []
    else
      var last := log[|log| - 1];
      Timeless(Apply(Fold(log[..|log| - 1]), last.operation, last.timestamp, 0))
  }

  /** Every id a record names exists when the record is reached. */
  ghost predicate Replayable(log: seq<Record>)
    decreases |log|, 0
  {
    log != [] ==>
      var before := log[..|log| - 1];
      Replayable(before) && InBounds(|Fold(before)|, log[|log| - 1].operation)
  }

  /** A log the server may have written: numbered from zero, and each record allowed by the guard where it stands. */
  ghost predicate Admitted(log: seq<Record>)
    decreases |log|, 0
  {
    log != [] ==>
      var before, last := log[..|log| - 1], log[|log| - 1];
      && Admitted(before)
      && last.id == |before|
      && (AdmittedIsReplayable(before); !Guard(Fold(before), last.operation).Exists())
  }

  lemma {:induction false} AdmittedIsReplayable(log: seq<Record>)
    requires Admitted(log)
    ensures Replayable(log)
    decreases |log|, 1
  {
    if log != [] {
      AdmittedIsReplayable(log[..|log| - 1]);
    }
  }

  lemma {:induction false} ReplayablePrefix(log: seq<Record>, k: nat)
    requires Replayable(log) && k <= |log|
    ensures Replayable(log[..k])
    decreases |log|
  {
    if k == |log| {
      assert log[..k] == log;
    } else {
      ReplayablePrefix(log[..|log| - 1], k);
      assert log[..|log| - 1][..k] == log[..k];
    }
  }

  /** One more record of a replayable log: its ids exist, and the fold moves on by it. */
  lemma FoldNext(log: seq<Record>, k: nat)
    requires Replayable(log) && k < |log|
    ensures Replayable(log[..k]) && Replayable(log[..k + 1])
    ensures InBounds(|Fold(log[..k])|, log[k].operation)
    ensures Fold(log[..k + 1]) == Timeless(Apply(Fold(log[..k]), log[k].operation, log[k].timestamp, 0))
  {
    ReplayablePrefix(log, k);
    ReplayablePrefix(log, k + 1);
    assert log[..k + 1][..k] == log[..k];
  }

  lemma {:induction false} FoldIsShort(log: seq<Record>)
    requires Replayable(log)
    ensures |Fold(log)| <= |log|
    decreases |log|
  {
    if log != [] {
      FoldIsShort(log[..|log| - 1]);
    }
  }
}
