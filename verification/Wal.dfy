/** The log file as the operating system sees it, and the write-ahead log on top of it. */
module Wal {
  import opened Common
  import opened Errors
  import opened Ledger
  import opened Layout
  import opened Log
  import opened Accounts
  import opened Crc32cSpec
  import Checksum = Crc32c

  // File offsets are signed 64-bit numbers.
  const FILE_LIMIT: nat := 0x7FFF_FFFF_FFFF_FFFF

  /** File contents as programs see them, as they would survive a loss of power, and the position of the descriptor. */
  datatype Disk = Disk(bytes: seq<bv8>, durable: seq<bv8>, cursor: nat)

  function Overwrite(bytes: seq<bv8>, at: nat, data: seq<bv8>): (after: seq<bv8>)
    requires at <= |bytes|
  {
    if at + |data| < |bytes| then bytes[..at] + data + bytes[at + |data|..] else bytes[..at] + data
  }

  /** What a read of `count` bytes at `at` returns: fewer only when the file ends. */
  function Ahead(bytes: seq<bv8>, at: nat, count: nat): (chunk: seq<bv8>)
    ensures |chunk| <= count
  {
    if at >= |bytes| then [] else if at + count <= |bytes| then bytes[at..at + count] else bytes[at..]
  }

  /** An open file. */
  class LogFile {
    var bytes: seq<bv8>
    var durable: seq<bv8>
    var cursor: nat

    ghost function View(): Disk
      reads this
    {
      Disk(bytes, durable, cursor)
    }

    ghost predicate Valid()
      reads this
    {
      |bytes| <= FILE_LIMIT
    }

    constructor (bytes: seq<bv8>, durable: seq<bv8>)
      requires |bytes| <= FILE_LIMIT
      ensures Valid() && View() == Disk(bytes, durable, 0)
    {
      this.bytes, this.durable, this.cursor := bytes, durable, 0;
    }

    method Read(count: nat) returns (chunk: seq<bv8>)
      modifies this`cursor
      ensures chunk == Ahead(bytes, old(cursor), count)
      ensures cursor == old(cursor) + |chunk|
    {
      var end := if cursor + count <= |bytes| then cursor + count else |bytes|;
      chunk := if cursor >= end then [] else bytes[cursor..end];
      cursor := cursor + |chunk|;
    }

    /** Writes at the cursor; the system takes `accepts` bytes at most, and never past the largest offset. */
    method Write(data: seq<bv8>, accepts: nat) returns (count: nat)
      requires Valid() && cursor <= |bytes|
      modifies this`bytes, this`cursor
      ensures Valid()
      ensures count == Accepted(old(cursor), |data|, accepts)
      ensures bytes == Overwrite(old(bytes), old(cursor), data[..count])
      ensures cursor == old(cursor) + count
    {
      count := Accepted(cursor, |data|, accepts);
      bytes := Overwrite(bytes, cursor, data[..count]);
      cursor := cursor + count;
    }

    method Sync(syncs: bool) returns (ok: bool)
      modifies this`durable
      ensures ok == syncs
      ensures durable == if syncs then bytes else old(durable)
    {
      if syncs {
        durable := bytes;
      }
      ok := syncs;
    }

    method SeekStart(offset: nat)
      modifies this`cursor
      ensures cursor == offset
    {
      cursor := offset;
    }

    method SeekEnd()
      modifies this`cursor
      ensures cursor == |bytes|
    {
      cursor := |bytes|;
    }

    method Truncate(length: nat)
      requires Valid() && length <= |bytes|
      modifies this`bytes
      ensures Valid() && bytes == old(bytes)[..length]
    {
      bytes := bytes[..length];
    }
  }

  function Accepted(cursor: nat, size: nat, accepts: nat): (count: nat)
    ensures count <= size
    ensures cursor <= FILE_LIMIT ==> cursor + count <= FILE_LIMIT
  {
    var room := if cursor <= FILE_LIMIT then FILE_LIMIT - cursor else 0;
    var count := if accepts <= size then accepts else size;
    if count <= room then count else room
  }

  // ----- opening -----

  /** What opening an existing file checks. */
  function HeaderError(bytes: seq<bv8>): Error {
    if |bytes| < 8 then StorageFault(WalReadFailed)
    else if FromBytes(bytes[..8]) != MAGIC then StorageFault(WalInvalidMagic)
    else if |bytes| < 10 then StorageFault(WalReadFailed)
    else if FromBytes(bytes[8..10]) != VERSION then StorageFault(WalInvalidVersion)
    else NoError
  }

  /** How opening ends: a new file must take its whole header, an old one must have the right one. */
  function OpenError(bytes: seq<bv8>, created: bool, accepts: nat): Error {
    if created then if accepts < HEADER_LENGTH then StorageFault(WalWriteFailed) else NoError
    else HeaderError(bytes)
  }

  /** What is in the file then: what a new one took of its header, and an old one as it was. */
  function Opened(bytes: seq<bv8>, created: bool, accepts: nat): seq<bv8> {
    if created then Header()[..if accepts < HEADER_LENGTH then accepts else HEADER_LENGTH] else bytes
  }

  // ----- replay -----

  function StopError(stop: Stop): Error {
    match stop
    case AtEnd => NoError
    case ShortRead => StorageFault(WalReadFailed)
    case BadChecksum => StorageFault(WalChecksumMismatch)
    case BadType => StorageFault(WalInvalidEntryType)
  }

  /** What clock and memory answer while one record is replayed. */
  datatype Tick = Tick(now: i64, allocates: bool)

  /** The first failure while the records are replayed in order, if any. */
  ghost function FirstFailure(log: seq<Record>, ticks: nat -> Tick): (failure: Error)
    requires Replayable(log)
    ensures failure == NoError || failure == AccountFault(OutOfMemory) || failure == StateFault(InvalidTime)
    decreases |log|
  {
    if log == [] then NoError
    else
      var n := |log| - 1;
      var before := FirstFailure(log[..n], ticks);
      if before.Exists() then before
      else ApplyFailure(|Fold(log[..n])|, log[n].operation, ticks(n).allocates, ticks(n).now)
  }

  /** The first failure stays the first. */
  lemma {:induction false} FailureStays(log: seq<Record>, k: nat, ticks: nat -> Tick)
    requires Replayable(log) && k <= |log|
    ensures Replayable(log[..k])
    ensures FirstFailure(log[..k], ticks).Exists() ==> FirstFailure(log, ticks) == FirstFailure(log[..k], ticks)
    decreases |log|
  {
    ReplayablePrefix(log, k);
    if k == |log| {
      assert log[..k] == log;
    } else {
      var n := |log| - 1;
      FailureStays(log[..n], k, ticks);
      assert log[..n][..k] == log[..k];
    }
  }

  lemma FailureNext(log: seq<Record>, k: nat, ticks: nat -> Tick)
    requires Replayable(log) && k < |log|
    ensures Replayable(log[..k]) && Replayable(log[..k + 1])
    ensures !FirstFailure(log[..k], ticks).Exists() ==>
              FirstFailure(log[..k + 1], ticks)
              == ApplyFailure(|Fold(log[..k])|, log[k].operation, ticks(k).allocates, ticks(k).now)
  {
    ReplayablePrefix(log, k);
    ReplayablePrefix(log, k + 1);
    assert log[..k + 1][..k] == log[..k];
  }

  /** Replaying record `k` fails: an add finds the list full and no memory, or a transfer finds no time. */
  ghost predicate FailsAt(log: seq<Record>, k: nat, ticks: nat -> Tick)
    requires Replayable(log) && k < |log|
  {
    ReplayablePrefix(log, k);
    || (log[k].operation.AddAccount? && Full(|Fold(log[..k])|) && !ticks(k).allocates)
    || (log[k].operation.MakeTransfer? && ticks(k).now == -1)
  }

  /** Replay fails exactly when some record does, and then as the first such record does. */
  lemma {:induction false} FailureIsFirst(log: seq<Record>, ticks: nat -> Tick) returns (first: nat)
    requires Replayable(log)
    ensures first <= |log| && forall k | 0 <= k < first :: !FailsAt(log, k, ticks)
    ensures FirstFailure(log, ticks).Exists() <==> first < |log| && FailsAt(log, first, ticks)
    ensures !FirstFailure(log, ticks).Exists() ==> first == |log|
    ensures first < |log| ==>
              FirstFailure(log, ticks)
              == if log[first].operation.AddAccount? then AccountFault(OutOfMemory) else StateFault(InvalidTime)
    decreases |log|
  {
    if log == [] {
      first := 0;
    } else {
      var n := |log| - 1;
      first := FailureIsFirst(log[..n], ticks);
      forall k | 0 <= k <= first && k < n ensures FailsAt(log, k, ticks) == FailsAt(log[..n], k, ticks) {
        assert log[..n][..k] == log[..k];
      }
      if !FirstFailure(log[..n], ticks).Exists() && !FirstFailure(log, ticks).Exists() {
        first := |log|;
      }
    }
  }

  /** Whether replay succeeds on a scanned file. */
  function ReplayError(scanned: Scanned, truncates: bool, failure: Error): Error {
    if failure.Exists() then failure
    else if truncates && (scanned.stop == ShortRead || scanned.stop == BadChecksum) then NoError
    else StopError(scanned.stop)
  }

  /** `accounts` is what the first `k` records of the file make of the empty account list, and nothing failed so far. */
  ghost predicate Progress(bytes: seq<bv8>, ticks: nat -> Tick, k: nat, accounts: seq<Account>)
    requires HEADER_LENGTH <= |bytes|
  {
    var log := Scan(bytes[HEADER_LENGTH..]).records;
    && k <= |log|
    && Replayable(log[..k])
    && Timeless(accounts) == Fold(log[..k])
    && !FirstFailure(log[..k], ticks).Exists()
  }

  lemma ProgressStarts(bytes: seq<bv8>, ticks: nat -> Tick)
    requires HEADER_LENGTH <= |bytes|
    ensures Progress(bytes, ticks, 0, [])
  {
    assert Scan(bytes[HEADER_LENGTH..]).records[..0] == [];
  }

  lemma ProgressEnds(bytes: seq<bv8>, ticks: nat -> Tick, k: nat, accounts: seq<Account>)
    requires HEADER_LENGTH <= |bytes| && Progress(bytes, ticks, k, accounts)
    requires k == |Scan(bytes[HEADER_LENGTH..]).records|
    ensures var log := Scan(bytes[HEADER_LENGTH..]).records;
            Replayable(log) && Timeless(accounts) == Fold(log) && !FirstFailure(log, ticks).Exists()
  {
    var log := Scan(bytes[HEADER_LENGTH..]).records;
    assert log[..k] == log;
  }

  /** What replay makes of a file: its error or else the record count, the accounts, and the file cut after the last good record. */
  ghost predicate Recovers(bytes: seq<bv8>, truncates: bool, ticks: nat -> Tick,
                           error: Error, k: nat, accounts: seq<Account>, after: seq<bv8>)
    requires HEADER_LENGTH <= |bytes|
    requires Replayable(Scan(bytes[HEADER_LENGTH..]).records)
  {
    var scanned := Scan(bytes[HEADER_LENGTH..]);
    && error == ReplayError(scanned, truncates, FirstFailure(scanned.records, ticks))
    && if error.Exists() then after == bytes
       else
         && k == |scanned.records|
         && Timeless(accounts) == Fold(scanned.records)
         && after == bytes[..RecordOffset(k)]
  }

  lemma RecoversFromStop(bytes: seq<bv8>, truncates: bool, ticks: nat -> Tick, k: nat, accounts: seq<Account>)
    requires HEADER_LENGTH <= |bytes| && Progress(bytes, ticks, k, accounts)
    requires Replayable(Scan(bytes[HEADER_LENGTH..]).records)
    requires k == |Scan(bytes[HEADER_LENGTH..]).records|
    ensures var error := ReplayError(Scan(bytes[HEADER_LENGTH..]), truncates, NoError);
            && (error.Exists() ==> Recovers(bytes, truncates, ticks, error, k, accounts, bytes))
            && (!error.Exists() ==> Recovers(bytes, truncates, ticks, error, k, accounts, bytes[..RecordOffset(k)]))
  {
    ProgressEnds(bytes, ticks, k, accounts);
    hide FirstFailure, Scan, Fold;
  }

  /** Replay needs no bounds check on a replayable file. */
  lemma ProgressAllows(bytes: seq<bv8>, ticks: nat -> Tick, k: nat, accounts: seq<Account>)
    requires HEADER_LENGTH <= |bytes| <= FILE_LIMIT && Progress(bytes, ticks, k, accounts)
    requires Replayable(Scan(bytes[HEADER_LENGTH..]).records) && k < |Scan(bytes[HEADER_LENGTH..]).records|
    ensures InBounds(|accounts|, Scan(bytes[HEADER_LENGTH..]).records[k].operation)
    ensures |accounts| <= FILE_LIMIT
  {
    var log := Scan(bytes[HEADER_LENGTH..]).records;
    FoldNext(log, k);
    FoldIsShort(log[..k]);
  }

  /** Applying the next record moves the progress on by one, unless memory or clock fail it. */
  lemma ProgressMoves(bytes: seq<bv8>, truncates: bool, ticks: nat -> Tick, k: nat, accounts: seq<Account>)
    requires HEADER_LENGTH <= |bytes| && Progress(bytes, ticks, k, accounts)
    requires Replayable(Scan(bytes[HEADER_LENGTH..]).records) && k < |Scan(bytes[HEADER_LENGTH..]).records|
    requires InBounds(|accounts|, Scan(bytes[HEADER_LENGTH..]).records[k].operation)
    ensures var r := Scan(bytes[HEADER_LENGTH..]).records[k];
            var failure := ApplyFailure(|accounts|, r.operation, ticks(k).allocates, ticks(k).now);
            if failure.Exists() then forall any :: Recovers(bytes, truncates, ticks, failure, k, any, bytes)
            else Progress(bytes, ticks, k + 1, Apply(accounts, r.operation, r.timestamp, ticks(k).now))
  {
    var log := Scan(bytes[HEADER_LENGTH..]).records;
    FoldNext(log, k);
    FailureNext(log, k, ticks);
    FailureStays(log, k + 1, ticks);
    TimelessApply(accounts, log[k].operation, log[k].timestamp, ticks(k).now);
    assert |accounts| == |Fold(log[..k])|;
    hide Scan, FirstFailure, Replayable, Fold, Timeless, ApplyFailure, Apply;
  }

  // ----- appending -----

  /** The effect of the write call: the bytes the system took, at the cursor. */
  function Append(disk: Disk, entry: Record, accepts: nat): (after: Disk)
    requires disk.cursor <= |disk.bytes|
  {
    var count := Accepted(disk.cursor, RECORD_LENGTH, accepts);
    Disk(Overwrite(disk.bytes, disk.cursor, EncodeRecord(entry)[..count]), disk.durable, disk.cursor + count)
  }

  predicate AppendsAll(disk: Disk, accepts: nat) {
    Accepted(disk.cursor, RECORD_LENGTH, accepts) == RECORD_LENGTH
  }

  function Sync(disk: Disk): Disk {
    disk.(durable := disk.bytes)
  }

  datatype Written = Written(error: Error, disk: Disk, transactions: u64)

  /** A whole log write: the id is checked, the record appended and synced, and only then counted. */
  function LogWrite(disk: Disk, transactions: u64, entry: Record, accepts: nat, syncs: bool): Written
    requires disk.cursor <= |disk.bytes|
  {
    if entry.id != transactions then Written(StorageFault(WalNonceMismatch), disk, transactions)
    else
      var appended := Append(disk, entry, accepts);
      if !AppendsAll(disk, accepts) then Written(StorageFault(WalWriteFailed), appended, transactions)
      else if !syncs then Written(StorageFault(WalSyncFailed), appended, transactions)
      else Written(NoError, Sync(appended), (transactions + 1) % U64_SIZE)
  }

  /** One turn of the replay loop: a record was applied, reading stopped, or applying failed. */
  datatype Next = Advanced | Ended(stop: Stop) | Broken(error: Error)

  class WriteAheadLog {
    const state: State
    const file: LogFile
    var transactions: u64

    constructor (state: State, file: LogFile)
      ensures this.state == state && this.file == file && transactions == 0
    {
      this.state, this.file, this.transactions := state, file, 0;
    }

    /** Opens the log: a new file gets its header, an old one has it checked; the cursor goes to the end. */
    method Init(created: bool, accepts: nat) returns (error: Error)
      requires file.Valid() && file.cursor == 0
      requires created ==> file.bytes == []
      modifies file`bytes, file`cursor
      ensures file.Valid()
      ensures error == OpenError(old(file.bytes), created, accepts)
      ensures file.bytes == Opened(old(file.bytes), created, accepts)
      ensures !error.Exists() ==> file.cursor == |file.bytes| && HeaderError(file.bytes) == NoError
    {
      if created {
        var count := file.Write(ToBytes(MAGIC, 8), accepts);
        if count != 8 {
          assert file.bytes == Header()[..count];
          return StorageFault(WalWriteFailed);
        }
        assert file.bytes == ToBytes(MAGIC, 8);
        count := file.Write(ToBytes(VERSION, 2), accepts - 8);
        if count != 2 {
          assert file.bytes == Header()[..8 + count];
          return StorageFault(WalWriteFailed);
        }
        assert file.bytes == Header();
        HeaderIsGood(file.bytes);
      } else {
        var magic := file.Read(8);
        if |magic| != 8 {
          return StorageFault(WalReadFailed);
        }
        if FromBytes(magic) != MAGIC {
          return StorageFault(WalInvalidMagic);
        }
        var version := file.Read(2);
        if |version| != 2 {
          return StorageFault(WalReadFailed);
        }
        if FromBytes(version) != VERSION {
          return StorageFault(WalInvalidVersion);
        }
      }
      file.SeekEnd();
      return NoError;
    }

    /** Rebuilds the accounts from the file. Nothing checks the ids in a record before they index the account list. */
    method Replay(truncates: bool, ticks: nat -> Tick) returns (error: Error)
      requires file.Valid() && HEADER_LENGTH <= |file.bytes|
      requires state.list.Valid() && state.list.Contents() == []
      requires Replayable(Scan(file.bytes[HEADER_LENGTH..]).records)
      modifies this`transactions, file`bytes, file`cursor, state.list, state.list.accounts
      ensures file.Valid() && state.list.Valid()
      ensures state.list.accounts == old(state.list.accounts) || fresh(state.list.accounts)
      ensures Recovers(old(file.bytes), truncates, ticks, error, transactions, state.list.Contents(), file.bytes)
      ensures !error.Exists() ==> file.cursor == |file.bytes|
    {
      ghost var bytes := file.bytes;
      ghost var scanned := Scan(bytes[HEADER_LENGTH..]);
      var offset := HEADER_LENGTH;
      file.SeekStart(offset);
      transactions := 0;
      ProgressStarts(bytes, ticks);
      hide Progress, Recovers, Scan, Ahead, FirstFailure, Fold, Replayable, Timeless;
      var next := ReplayNext(ticks, bytes, truncates);
      while next.Advanced?
        invariant file.bytes == bytes && state.list.Valid()
        invariant !next.Broken? ==>
                    && Progress(bytes, ticks, transactions, state.list.Contents())
                    && transactions <= |scanned.records|
        invariant next.Advanced? ==> file.cursor == offset + RECORD_LENGTH == RecordOffset(transactions)
        invariant next.Ended? ==>
                    && scanned.stop == next.stop && transactions == |scanned.records|
                    && offset == RecordOffset(transactions) <= |bytes|
                    && (next.stop == AtEnd ==> offset == |bytes|)
        invariant next.Broken? ==> next.error.Exists()
        invariant next.Broken? ==> Recovers(bytes, truncates, ticks, next.error, transactions, state.list.Contents(), bytes)
        invariant state.list.accounts == old(state.list.accounts) || fresh(state.list.accounts)
        decreases next.Advanced?, |scanned.records| - transactions
      {
        offset := offset + RECORD_LENGTH;
        next := ReplayNext(ticks, bytes, truncates);
      }
      if next.Broken? {
        return next.error;
      }
      error := Finish(next.stop, offset, truncates, ticks, scanned);
    }

    /** Ends a replay: what stopped it is an error, or is cut off, and the cursor goes to the end. */
    method Finish(stop: Stop, offset: nat, truncates: bool, ghost ticks: nat -> Tick, ghost scanned: Scanned)
      returns (error: Error)
      requires file.Valid() && HEADER_LENGTH <= |file.bytes| && state.list.Valid()
      requires scanned == Scan(file.bytes[HEADER_LENGTH..]) && Replayable(scanned.records)
      requires Progress(file.bytes, ticks, transactions, state.list.Contents())
      requires stop == scanned.stop && transactions == |scanned.records| && offset == RecordOffset(transactions)
      requires offset <= |file.bytes| && (stop == AtEnd ==> offset == |file.bytes|)
      modifies file`bytes, file`cursor
      ensures file.Valid() && state.list.Valid()
      ensures Recovers(old(file.bytes), truncates, ticks, error, transactions, state.list.Contents(), file.bytes)
      ensures !error.Exists() ==> file.cursor == |file.bytes|
    {
      hide Progress, Recovers, Scan, Replayable;
      ghost var bytes := file.bytes;
      RecoversFromStop(bytes, truncates, ticks, transactions, state.list.Contents());
      if stop != AtEnd {
        if stop == BadType || !truncates {
          return StopError(stop);
        }
        file.Truncate(offset);
      }
      assert file.bytes == bytes[..offset];
      file.SeekEnd();
      return NoError;
    }

    /** Reads, checks and replays the record at the cursor. */
    method ReplayNext(ticks: nat -> Tick, ghost bytes: seq<bv8>, ghost truncates: bool) returns (next: Next)
      requires HEADER_LENGTH <= |bytes| <= FILE_LIMIT && file.bytes == bytes
      requires file.cursor == RecordOffset(transactions)
      requires state.list.Valid() && Progress(bytes, ticks, transactions, state.list.Contents())
      requires Replayable(Scan(bytes[HEADER_LENGTH..]).records)
      modifies this`transactions, file`cursor, state.list, state.list.accounts
      ensures state.list.Valid()
      ensures state.list.accounts == old(state.list.accounts) || fresh(state.list.accounts)
      ensures var scanned := Scan(bytes[HEADER_LENGTH..]);
              match next
              case Advanced =>
                && Progress(bytes, ticks, transactions, state.list.Contents())
                && transactions == old(transactions) + 1 <= |scanned.records|
                && file.cursor == RecordOffset(transactions)
              case Ended(stop) =>
                && Progress(bytes, ticks, transactions, state.list.Contents())
                && transactions == old(transactions) == |scanned.records| && stop == scanned.stop
                && RecordOffset(transactions) <= |bytes|
                && (stop == AtEnd ==> RecordOffset(transactions) == |bytes|)
              case Broken(error) =>
                && error.Exists()
                && Recovers(bytes, truncates, ticks, error, transactions, state.list.Contents(), bytes)
    {
      ScanNext(bytes, transactions);
      hide ChecksumOk, Progress, Recovers, Replayable, Scan, DecodeRecord, Ahead;
      var chunk := file.Read(RECORD_LENGTH);
      if |chunk| != RECORD_LENGTH {
        return Ended(if |chunk| == 0 then AtEnd else ShortRead);
      }
      var intact := Intact(chunk);
      if !intact {
        return Ended(BadChecksum);
      }
      match DecodeRecord(chunk) {
        case None =>
          return Ended(BadType);
        case Some(entry) =>
          var error := ReplayEntry(entry, ticks(transactions), ticks, bytes, truncates);
          if error.Exists() {
            return Broken(error);
          }
          transactions := transactions + 1;
          return Advanced;
      }
    }

    /** Applies the next record of the file; the operation is dispatched on its type. */
    method ReplayEntry(entry: Record, tick: Tick, ghost ticks: nat -> Tick, ghost bytes: seq<bv8>, ghost truncates: bool)
      returns (error: Error)
      requires HEADER_LENGTH <= |bytes| <= FILE_LIMIT && Replayable(Scan(bytes[HEADER_LENGTH..]).records)
      requires transactions < |Scan(bytes[HEADER_LENGTH..]).records|
      requires entry == Scan(bytes[HEADER_LENGTH..]).records[transactions] && tick == ticks(transactions)
      requires state.list.Valid() && Progress(bytes, ticks, transactions, state.list.Contents())
      modifies state.list, state.list.accounts
      ensures state.list.Valid()
      ensures state.list.accounts == old(state.list.accounts) || fresh(state.list.accounts)
      ensures if error.Exists() then Recovers(bytes, truncates, ticks, error, transactions, state.list.Contents(), bytes)
              else Progress(bytes, ticks, transactions + 1, state.list.Contents())
    {
      ProgressAllows(bytes, ticks, transactions, state.list.Contents());
      ProgressMoves(bytes, truncates, ticks, transactions, state.list.Contents());
      hide Progress, Recovers, Scan, Replayable, Apply, InBounds;
      error := ApplyEntry(entry, tick);
    }

    /** Dispatches a record on its type; none of these calls checks an id. */
    method ApplyEntry(entry: Record, tick: Tick) returns (error: Error)
      requires state.list.Valid() && |state.list.Contents()| <= FILE_LIMIT
      requires InBounds(|state.list.Contents()|, entry.operation)
      modifies state.list, state.list.accounts
      ensures state.list.Valid()
      ensures state.list.accounts == old(state.list.accounts) || fresh(state.list.accounts)
      ensures error == ApplyFailure(|old(state.list.Contents())|, entry.operation, tick.allocates, tick.now)
      ensures !error.Exists() ==>
                state.list.Contents() == Apply(old(state.list.Contents()), entry.operation, entry.timestamp, tick.now)
    {
      match entry.operation {
        case AddAccount(credits, debits, flags) =>
          var account := NewAccount(credits, debits, entry.timestamp, flags);
          var id;
          error, id := state.AddAccount(account, tick.allocates);
        case MakeTransfer(fromId, toId, amount) =>
          error := state.MakeTransfer(fromId, toId, amount, tick.now);
        case UpdateAccount(id, flags) =>
          state.UpdateAccount(id, flags);
          error := NoError;
      }
    }

    /** Logs a record, or rejects its id. The file is touched only when the id is the next one. */
    method Write(entry: Record, accepts: nat, syncs: bool) returns (error: Error)
      requires file.Valid() && file.cursor <= |file.bytes|
      modifies this`transactions, file
      ensures file.Valid() && file.cursor <= |file.bytes|
      ensures Written(error, file.View(), transactions)
              == LogWrite(old(file.View()), old(transactions), entry, accepts, syncs)
    {
      if entry.id != transactions {
        return StorageFault(WalNonceMismatch);
      }
      hide EncodeEntry, Crc, ChecksumBytes;
      var body := EncodeEntry(entry);
      var crc := Checksum.Compute(body);
      var safe := body + ChecksumBytes(crc);
      assert safe == EncodeRecord(entry);
      hide EncodeRecord;
      var count := file.Write(safe, accepts);
      if count != RECORD_LENGTH {
        return StorageFault(WalWriteFailed);
      }
      var ok := file.Sync(syncs);
      if !ok {
        return StorageFault(WalSyncFailed);
      }
      transactions := (transactions + 1) % U64_SIZE;
      return NoError;
    }
  }

  /** Compares a record's checksum with the one computed over its body. */
  method Intact(chunk: seq<bv8>) returns (intact: bool)
    requires |chunk| == RECORD_LENGTH
    ensures intact == ChecksumOk(chunk)
  {
    hide Crc, ReadChecksum;
    var crc := Checksum.Compute(chunk[..ENTRY_LENGTH]);
    intact := crc == ReadChecksum(chunk[ENTRY_LENGTH..]);
  }

  /** What the next read of replay sees, in terms of the scan of the whole file. */
  lemma ScanNext(bytes: seq<bv8>, k: nat)
    requires HEADER_LENGTH <= |bytes|
    requires k <= |Scan(bytes[HEADER_LENGTH..]).records|
    ensures var scanned := Scan(bytes[HEADER_LENGTH..]);
            var chunk := Ahead(bytes, RecordOffset(k), RECORD_LENGTH);
            && RecordOffset(k) <= |bytes|
            && (chunk == [] ==> |bytes| == RecordOffset(k))
            && if |chunk| < RECORD_LENGTH then k == |scanned.records| && scanned.stop == (if chunk == [] then AtEnd else ShortRead)
            else if !ChecksumOk(chunk) then k == |scanned.records| && scanned.stop == BadChecksum
            else if DecodeRecord(chunk) == None then k == |scanned.records| && scanned.stop == BadType
            else k < |scanned.records| && DecodeRecord(chunk) == Some(scanned.records[k])
  {
    hide ChecksumOk, DecodeRecord;
    var data := bytes[HEADER_LENGTH..];
    ScanFrom(data, k);
    var rest := data[54 * k..];
    assert rest == bytes[RecordOffset(k)..];
    if |rest| >= RECORD_LENGTH {
      assert rest[..RECORD_LENGTH] == Ahead(bytes, RecordOffset(k), RECORD_LENGTH);
    }
  }

  /** Opening accepts exactly the files that begin with the header, and says of every other one what is wrong with it. */
  lemma HeaderIsExact(bytes: seq<bv8>)
    ensures HeaderError(bytes) == NoError <==> Header() <= bytes
    ensures HeaderError(bytes) == StorageFault(WalInvalidMagic) <==> |bytes| >= 8 && bytes[..8] != Header()[..8]
    ensures HeaderError(bytes) == StorageFault(WalInvalidVersion)
            <==> |bytes| >= 10 && bytes[..8] == Header()[..8] && bytes[8..10] != Header()[8..10]
    ensures HeaderError(bytes) == StorageFault(WalReadFailed)
            <==> |bytes| < 8 || (|bytes| < 10 && bytes[..8] == Header()[..8])
  {
    Ranges();
    assert Range(2) == 65536;
    BytesRoundTrip(MAGIC, 8);
    BytesRoundTrip(VERSION, 2);
    hide Range, ToBytes, FromBytes;
    assert Header()[..8] == ToBytes(MAGIC, 8) && Header()[8..10] == ToBytes(VERSION, 2);
    if |bytes| >= 8 {
      NumberDecides(bytes[..8], ToBytes(MAGIC, 8));
    }
    if |bytes| >= 10 {
      NumberDecides(bytes[8..10], ToBytes(VERSION, 2));
      assert bytes[..10] == bytes[..8] + bytes[8..10] && Header() == Header()[..8] + Header()[8..10];
    }
  }

  lemma NumberDecides(a: seq<bv8>, b: seq<bv8>)
    requires |a| == |b|
    ensures FromBytes(a) == FromBytes(b) <==> a == b
  {
    if FromBytes(a) == FromBytes(b) {
      FromBytesIsInjective(a, b);
    }
  }

  lemma NextByte(n: nat, low: nat, high: nat, size: nat)
    requires low < 256 && size > 0 && n == low + 256 * high
    ensures ToBytes(n, size) == [low as bv8] + ToBytes(high, size - 1)
  {
    assert n / 256 == high && n % 256 == low;
  }

  /** The header, byte by byte: eight letters of ASCII, and version one. */
  lemma HeaderBytes()
    ensures Header() == [0x4C, 0x45, 0x54, 0x5F, 0x5F, 0x57, 0x41, 0x4C, 1, 0]
  {
    hide ToBytes;
    NextByte(0x4C41575F5F54454C, 0x4C, 0x4C41575F5F5445, 8);
    NextByte(0x4C41575F5F5445, 0x45, 0x4C41575F5F54, 7);
    NextByte(0x4C41575F5F54, 0x54, 0x4C41575F5F, 6);
    NextByte(0x4C41575F5F, 0x5F, 0x4C41575F, 5);
    NextByte(0x4C41575F, 0x5F, 0x4C4157, 4);
    NextByte(0x4C4157, 0x57, 0x4C41, 3);
    NextByte(0x4C41, 0x41, 0x4C, 2);
    NextByte(0x4C, 0x4C, 0x0, 1);
    NextByte(1, 1, 0, 2);
    NextByte(0, 0, 0, 1);
    assert ToBytes(0, 0) == [];
  }

  lemma HeaderIsGood(bytes: seq<bv8>)
    requires bytes[..] == Header()
    ensures HeaderError(bytes) == NoError
  {
    Ranges();
    assert Range(2) == 65536;
    assert bytes[..8] == ToBytes(MAGIC, 8) && bytes[8..10] == ToBytes(VERSION, 2);
    BytesRoundTrip(MAGIC, 8);
    BytesRoundTrip(VERSION, 2);
  }
}
