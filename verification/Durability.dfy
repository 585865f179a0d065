/** What the recovery invariant means for callers: nothing acknowledged is lost, and restarts agree with the history. */
module Durability {
  import opened Common
  import opened Errors
  import opened Ledger
  import opened Protocol
  import opened Layout
  import opened Log
  import opened Wal
  import opened Server
  import opened Recovery
  import opened Crc32cSpec
  import opened Damage

  // ----- restarts -----

  /** What a restart may find: the current file after the process died, or what a loss of power left. */
  ghost predicate Restarts(w: World, image: seq<bv8>) {
    image == w.server.disk.bytes || Survives(w.server.disk, image)
  }

  /** Whatever a restart finds is a log the guard admits, possibly with an incomplete record behind it. */
  lemma RestartReads(w: World, image: seq<bv8>)
    requires Invariant(w) && Restarts(w, image)
    ensures Holds(image, RecordsIn(image)) && Admitted(RecordsIn(image))
    ensures RecordsIn(image) <= Candidate(w) && w.stored <= |RecordsIn(image)|
    ensures AnswersKept(w.answered, RecordsIn(image), |RecordsIn(image)|)
    ensures |RecordsIn(image)| <= |w.answered| + w.crashes + 1
  {
    hide Invariant, Candidate, Holds, RecordsIn, Survives, Admitted, AnswersKept, Scan, Image, HeaderError;
    StateOf(w);
    CandidateHolds(w);
    var n := |Candidate(w)|;
    if image != w.server.disk.bytes {
      n := SurvivorHolds(w.server.disk, Candidate(w), w.stored, image);
    }
    ScanHolds(image, Candidate(w)[..n]);
    HistoryIn(w, n, n);
  }

  /**
   Durability over whole runs. Stop any run anywhere, lose any part of what was not synced, and boot with truncation:
   unless clock or memory fail, replay succeeds without ever indexing out of bounds, and the accounts and the counter are
   those of a log that holds every answered record at its own number and at most one more record per crash.
   */
  lemma Durable(worlds: seq<World>, events: seq<Event>, n: nat, image: seq<bv8>, ticks: nat -> Tick,
                error: Error, k: nat, accounts: seq<Account>, after: seq<bv8>)
    requires Run(worlds, events) && n < |worlds| && Restarts(worlds[n], image)
    ensures HEADER_LENGTH <= |image| && HeaderError(image) == NoError && Replayable(Scan(image[HEADER_LENGTH..]).records)
    ensures Recovers(image, true, ticks, error, k, accounts, after) ==>
              var log := RecordsIn(image);
              && Replayable(log)
              && error == FirstFailure(log, ticks)
              && AnswersKept(worlds[n].answered, log, |log|)
              && |log| <= |worlds[n].answered| + worlds[n].crashes + 1
              && (!error.Exists() ==> k == |log| && Timeless(accounts) == Fold(log) && after == Image(log))
  {
    hide Run, Restarts, Invariant, AnswersKept, FirstFailure, Scan, Image, HeaderError, Fold, Replayable, Admitted, Holds;
    RunKeeps(worlds, events, n);
    RestartReads(worlds[n], image);
    ScanHolds(image, RecordsIn(image));
    AdmittedIsReplayable(RecordsIn(image));
  }

  /** Between requests the file, the counter, the cursor and the memory all say the same: the log. */
  lemma IdleAgrees(worlds: seq<World>, events: seq<Event>, n: nat)
    requires Run(worlds, events) && n < |worlds| && worlds[n].stage.Idle?
    ensures var w := worlds[n];
            var disk := w.server.disk;
            && Replayable(w.log)
            && disk.bytes == Image(w.log) && disk.cursor == |disk.bytes|
            && Scan(disk.bytes[HEADER_LENGTH..]) == Scanned(w.log, AtEnd)
            && w.server.transactions == |w.log|
            && Timeless(w.server.accounts) == Fold(w.log)
            && AnswersKept(w.answered, w.log, w.stored)
            && |w.log| <= |w.answered| + w.crashes
            && forall i | 0 <= i < |w.log| :: w.log[i].id == i
  {
    hide Run, AnswersKept, Scan, Image, HeaderError, Fold, Replayable, Admitted, Holds, RecordsIn;
    RunKeeps(worlds, events, n);
    var w := worlds[n];
    ScanHolds(w.server.disk.bytes, w.log);
    forall i | 0 <= i < |w.log| ensures w.log[i].id == i {
      AdmittedIds(w.log, i);
    }
  }

  /** However often and in whatever order requests are delivered: in no reachable state do two records share an id. */
  lemma IdsAreUnique(worlds: seq<World>, events: seq<Event>, n: nat, i: nat, j: nat)
    requires Run(worlds, events) && n < |worlds| && i < j < |worlds[n].log|
    ensures worlds[n].log[i].id == i && worlds[n].log[j].id == j
  {
    hide Run, DiskOk, MemoryOk, AnswersKept, Admitted;
    RunKeeps(worlds, events, n);
    AdmittedIds(worlds[n].log, i);
    AdmittedIds(worlds[n].log, j);
  }

  // ----- replay without the guard -----

  /** Replay calls no guard, and needs none: ids are in range and no counter of an account is at its maximum. */
  lemma UnguardedReplayIsSafe(log: seq<Record>, i: nat)
    requires Admitted(log) && i < |log|
    ensures Replayable(log[..i]) && InBounds(|Fold(log[..i])|, log[i].operation)
    ensures log[i].operation.MakeTransfer? ==>
              var before, op := Fold(log[..i]), log[i].operation;
              && op.fromId != op.toId && op.amount > 0
              && before[op.fromId].transactions < U64_MAX && before[op.toId].transactions < U64_MAX
  {
    GuardPassed(log, i);
    hide Guard, Fold, Replayable, Admitted, InBounds;
    var op := log[i].operation;
    GuardMeansInBounds(Fold(log[..i]), op);
    if op.MakeTransfer? {
      GuardIsExact(Fold(log[..i]), op.fromId, op.toId, op.amount);
    }
  }

  /** Every record of an admitted log was let through by the guard where it stands. */
  lemma GuardPassed(log: seq<Record>, i: nat)
    requires Admitted(log) && i < |log|
    ensures Replayable(log[..i]) && !Guard(Fold(log[..i]), log[i].operation).Exists()
  {
    AdmittedPrefix(log, i + 1);
    assert log[..i + 1][..i] == log[..i];
    AdmittedIsReplayable(log[..i]);
    hide Guard;
  }

  // ----- cutting a damaged file -----

  lemma ScanWithTail(log: seq<Record>, tail: seq<bv8>)
    requires NoRecord(tail)
    ensures Scan((Image(log) + tail)[HEADER_LENGTH..])
            == Scanned(log, StopAt(tail))
  {
    hide ChecksumOk, Header, Records, DecodeRecord;
    assert (Image(log) + tail)[HEADER_LENGTH..] == Records(log) + tail;
    ScanImage(log, tail);
    assert log + [] == log;
  }

  /** A server-written log followed by anything that is not a good record: replay keeps exactly the log, and cuts the rest. */
  lemma TruncatingReplay(log: seq<Record>, tail: seq<bv8>, ticks: nat -> Tick,
                         error: Error, k: nat, accounts: seq<Account>, after: seq<bv8>)
    requires Replayable(log)
    requires NoRecord(tail)
    ensures Scan((Image(log) + tail)[HEADER_LENGTH..])
            == Scanned(log, StopAt(tail))
    ensures Recovers(Image(log) + tail, true, ticks, error, k, accounts, after) && !FirstFailure(log, ticks).Exists() ==>
              && !error.Exists() && k == |log| && Timeless(accounts) == Fold(log) && after == Image(log)
              // Idempotence: a later replay, even one that may not truncate, finds the same log and nothing to cut.
              && Scan(after[HEADER_LENGTH..]) == Scanned(log, AtEnd)
  {
    hide ChecksumOk, Fold, Replayable, FirstFailure, Scan, Image;
    ScanWithTail(log, tail);
    ScanWithTail(log, []);
    assert Image(log) + [] == Image(log);
    assert (Image(log) + tail)[..RecordOffset(|log|)] == Image(log);
  }

  /** Bytes behind a log that begin with a record of a type nobody writes. */
  predicate UnknownType(tail: seq<bv8>) {
    |tail| >= RECORD_LENGTH && ChecksumOk(tail[..RECORD_LENGTH]) && DecodeRecord(tail[..RECORD_LENGTH]).None?
  }

  lemma ScanUnknown(log: seq<Record>, tail: seq<bv8>)
    requires UnknownType(tail)
    ensures Scan((Image(log) + tail)[HEADER_LENGTH..]) == Scanned(log, BadType)
  {
    hide ChecksumOk, Header, Records, DecodeRecord;
    assert (Image(log) + tail)[HEADER_LENGTH..] == Records(log) + tail;
    ScanImage(log, tail);
    assert log + [] == log;
  }

  /**
   Every outcome of a replay, with truncation allowed or not: a failure of clock or memory, or a tail that may not be cut,
   is an error of its own kind and leaves the file alone; otherwise the accounts are those of the log and exactly the tail
   is cut off.
   */
  lemma ReplayOutcome(log: seq<Record>, tail: seq<bv8>, truncates: bool, ticks: nat -> Tick,
                      error: Error, k: nat, accounts: seq<Account>, after: seq<bv8>)
    requires Replayable(log) && (NoRecord(tail) || UnknownType(tail))
    ensures Scan((Image(log) + tail)[HEADER_LENGTH..]).records == log
    ensures Recovers(Image(log) + tail, truncates, ticks, error, k, accounts, after) ==>
              && (error.Exists() ==> after == Image(log) + tail)
              && (!error.Exists() ==> k == |log| && Timeless(accounts) == Fold(log) && after == Image(log))
              && if FirstFailure(log, ticks).Exists() then error == FirstFailure(log, ticks)
                 else if tail == [] then error == NoError
                 else if UnknownType(tail) then error == StorageFault(WalInvalidEntryType)
                 else if truncates then error == NoError
                 else error == StorageFault(if |tail| < RECORD_LENGTH then WalReadFailed else WalChecksumMismatch)
  {
    hide Recovers, ChecksumOk, DecodeRecord, Fold, Replayable, FirstFailure, Scan, Header, Records, Timeless, UnknownType,
      NoRecord, ReplayError;
    var stop := ScanStops(log, tail);
    if Recovers(Image(log) + tail, truncates, ticks, error, k, accounts, after) {
      RecoveryGives(Image(log) + tail, log, stop, truncates, ticks, error, k, accounts, after);
      ErrorOfStop(log, tail, stop, truncates, FirstFailure(log, ticks));
      assert (Image(log) + tail)[..RecordOffset(|log|)] == Image(log);
    }
  }

  lemma ScanStops(log: seq<Record>, tail: seq<bv8>) returns (stop: Stop)
    requires NoRecord(tail) || UnknownType(tail)
    ensures Scan((Image(log) + tail)[HEADER_LENGTH..]) == Scanned(log, stop)
    ensures stop == if UnknownType(tail) then BadType else StopAt(tail)
  {
    hide *;
    if UnknownType(tail) {
      ScanUnknown(log, tail);
      stop := BadType;
    } else {
      ScanWithTail(log, tail);
      stop := StopAt(tail);
    }
  }

  /** Why a tail stops replay, and what that makes of it. */
  lemma ErrorOfStop(log: seq<Record>, tail: seq<bv8>, stop: Stop, truncates: bool, failure: Error)
    requires stop == if UnknownType(tail) then BadType else StopAt(tail)
    ensures ReplayError(Scanned(log, stop), truncates, failure)
            == if failure.Exists() then failure else if tail == [] then NoError
               else if UnknownType(tail) then StorageFault(WalInvalidEntryType)
               else if truncates then NoError
               else StorageFault(if |tail| < RECORD_LENGTH then WalReadFailed else WalChecksumMismatch)
  {
    hide ChecksumOk, DecodeRecord;
  }

  lemma RecoveryGives(bytes: seq<bv8>, log: seq<Record>, stop: Stop, truncates: bool, ticks: nat -> Tick,
                      error: Error, k: nat, accounts: seq<Account>, after: seq<bv8>)
    requires Replayable(log) && HEADER_LENGTH <= |bytes| && Scan(bytes[HEADER_LENGTH..]) == Scanned(log, stop)
    requires Recovers(bytes, truncates, ticks, error, k, accounts, after)
    ensures error == ReplayError(Scanned(log, stop), truncates, FirstFailure(log, ticks))
    ensures error.Exists() ==> after == bytes
    ensures !error.Exists() ==>
              && k == |log| && Timeless(accounts) == Fold(log)
              && RecordOffset(|log|) <= |bytes| && after == bytes[..RecordOffset(|log|)]
  {
    hide Scan, FirstFailure, Replayable, Fold;
  }

  /** One stored record damaged by a burst of at most 32 bits: replay keeps exactly the records before it. */
  lemma DamagedRecordIsCut(log: seq<Record>, k: nat, bad: seq<bv8>, tail: seq<bv8>)
    requires k < |log| && |bad| == RECORD_LENGTH
    requires BurstApart(AllBits(EncodeRecord(log[k])), AllBits(bad))
    ensures Scan((Image(log[..k]) + (bad + tail))[HEADER_LENGTH..]) == Scanned(log[..k], BadChecksum)
  {
    hide ChecksumOk, EncodeRecord, Header, Replayable, AllBits, DecodeRecord, Scan, Image, BurstApart;
    RecordRoundTrip(log[k]);
    BurstIsDetected(EncodeRecord(log[k]), bad);
    assert (bad + tail)[..RECORD_LENGTH] == bad;
    ScanWithTail(log[..k], bad + tail);
  }

  // ----- what a restart can lose -----

  /** A loss of power while idle takes nothing away, whatever it leaves, exactly when the whole log was synced. */
  lemma PowerLossKeepsLogIffSynced(w: World)
    requires Invariant(w) && w.stage.Idle?
    ensures (forall image: seq<bv8> | Survives(w.server.disk, image) :: RecordsIn(image) == w.log) <==> w.stored == |w.log|
  {
    hide Invariant, Holds, Survives, Scan, Image, RecordsIn, HeaderError;
    StateOf(w);
    var disk := w.server.disk;
    if w.stored == |w.log| {
      forall image | Survives(disk, image) ensures RecordsIn(image) == w.log {
        var n := SurvivorHolds(disk, w.log, w.stored, image);
        ScanHolds(image, w.log[..n]);
        assert w.log[..n] == w.log;
      }
    } else {
      ScanHolds(disk.durable, w.log[..w.stored]);
      DurableSurvives(disk, w.stored);
      assert |RecordsIn(disk.durable)| < |w.log|;
    }
  }

  /** The process dies with a record written and not synced. */
  predicate LeavesUnsynced(w: World, event: Event) {
    w.stage.Appended? && (event.ProcessExit? || event == SyncFile(false))
  }

  /** After this the file and its synced contents hold the same log: the next sync, or a loss of power, which decides. */
  predicate Settles(event: Event) {
    event.PowerLoss? || event == SyncFile(true)
  }

  /** Some process died between write and sync, and nothing has settled the file since. */
  ghost predicate Unsettled(worlds: seq<World>, events: seq<Event>, n: nat)
    requires n < |worlds| && n <= |events|
  {
    exists m | 0 <= m < n :: LeavesUnsynced(worlds[m], events[m]) && forall j | m < j < n :: !Settles(events[j])
  }

  lemma StepSettles(w: World, event: Event, w': World)
    requires Invariant(w) && Step(w, event, w')
    ensures Settles(event) ==> w'.stored == |w'.log|
    ensures LeavesUnsynced(w, event) ==> w'.stored < |w'.log|
    ensures !Settles(event) && !LeavesUnsynced(w, event) ==> (w'.stored == |w'.log| <==> w.stored == |w.log|)
  {
    hide Holds, RecordsIn, Survives, Admitted, AnswersKept, Scan, Image, HeaderError, MemoryOk, Append, AppendsAll, Recovers,
      ApplyError, Apply, Accepts, Replayable, FirstFailure, InBounds, Invariant;
    StateOf(w);
    ScanHolds(w.server.disk.bytes, Candidate(w));
    if event.Write? {
      TornWriteReads(w, event.request, event.now, event.accepts, w');
    }
  }

  lemma TornWriteReads(w: World, request: Request, now: i64, accepts: nat, w': World)
    requires Invariant(w) && Step(w, Write(request, now, accepts), w')
    ensures w'.log == w.log && w'.stored == w.stored
  {
    hide Scan, Image, Holds, RecordsIn, HeaderError, Accepts, Append, AppendsAll, AnswersKept, MemoryOk, Admitted;
    var entry := Record(WalId(request), now, OperationOf(request).value);
    AppendToImage(w.server.disk, w.log, entry, accepts);
    if !AppendsAll(w.server.disk, accepts) {
      ScanHolds(Append(w.server.disk, entry, accepts).bytes, w.log);
    }
  }

  /** In every state of every run the whole log is synced, unless a process died between write and sync and nothing since. */
  lemma {:induction false} SyncedIffSettled(worlds: seq<World>, events: seq<Event>, n: nat)
    requires Run(worlds, events) && n < |worlds|
    ensures worlds[n].stored == |worlds[n].log| <==> !Unsettled(worlds, events, n)
    decreases n
  {
    hide Step, Invariant, Initial, LeavesUnsynced, Settles;
    if n == 0 {
      NothingStored(worlds[0]);
    } else {
      SyncedIffSettled(worlds, events, n - 1);
      RunKeeps(worlds, events, n - 1);
      StepSettles(worlds[n - 1], events[n - 1], worlds[n]);
      RunKeeps(worlds, events, n);
      StoredFits(worlds[n]);
      UnsettledNext(worlds, events, n);
      hide Unsettled, Run;
    }
  }

  lemma NothingStored(w: World)
    requires Initial(w)
    ensures w.stored == 0 == |w.log|
  {}

  lemma StoredFits(w: World)
    requires Invariant(w)
    ensures w.stored <= |w.log|
  {
    hide DiskOk, MemoryOk;
  }

  lemma UnsettledNext(worlds: seq<World>, events: seq<Event>, n: nat)
    requires 0 < n < |worlds| && n <= |events|
    ensures LeavesUnsynced(worlds[n - 1], events[n - 1]) ==> Unsettled(worlds, events, n)
    ensures !LeavesUnsynced(worlds[n - 1], events[n - 1]) ==>
              (Unsettled(worlds, events, n) <==> !Settles(events[n - 1]) && Unsettled(worlds, events, n - 1))
  {
    hide LeavesUnsynced, Settles;
    if Unsettled(worlds, events, n - 1) && !Settles(events[n - 1]) {
      var m :| 0 <= m < n - 1 && LeavesUnsynced(worlds[m], events[m]) && forall j | m < j < n - 1 :: !Settles(events[j]);
      assert forall j | m < j < n :: !Settles(events[j]);
    }
  }

  /**
   What an operator can see: while idle, a loss of power takes nothing away, whatever it leaves, if and only if no process
   has died between write and sync since the last sync or loss of power.
   */
  lemma PowerLossIsHarmlessIffSettled(worlds: seq<World>, events: seq<Event>, n: nat)
    requires Run(worlds, events) && n < |worlds| && worlds[n].stage.Idle?
    ensures (forall image: seq<bv8> | Survives(worlds[n].server.disk, image) :: RecordsIn(image) == worlds[n].log)
            <==> !Unsettled(worlds, events, n)
  {
    hide Run, Invariant, Survives, RecordsIn, Unsettled;
    RunKeeps(worlds, events, n);
    SyncedIffSettled(worlds, events, n);
    PowerLossKeepsLogIffSynced(worlds[n]);
  }

  lemma DurableSurvives(disk: Disk, k: nat)
    requires |disk.durable| <= FILE_LIMIT && RecordOffset(k) <= |disk.durable| && NoRecord(disk.durable[RecordOffset(k)..])
    ensures Survives(disk, disk.durable)
  {
    hide NoRecord;
    assert RealUpTo(disk, disk.durable, k);
  }

  /**
   A record that a restart brought back can still vanish: replay does not sync. The run logs one account, dies before
   the sync, boots with that account in memory, and then loses power.
   */
  lemma RecoveredRecordCanVanish() returns (worlds: seq<World>, events: seq<Event>)
    ensures Run(worlds, events) && |worlds| == 5
    ensures worlds[3].stage.Idle? && |worlds[3].server.accounts| == 1 && worlds[3].server.transactions == 1
    ensures worlds[4].stage.Down? && worlds[4].log == []
  {
    hide Step, Initial;
    var w0, w1, w2, w3, w4, accounts := VanishingSteps();
    worlds := [w0, w1, w2, w3, w4];
    events := [Write(AddAccountRequest(0, 0, 0, 0), 1, RECORD_LENGTH), ProcessExit, Boot(true, AlwaysOne, accounts),
               PowerLoss(Header())];
    PathOfFour(worlds, events);
  }

  lemma VanishingSteps() returns (w0: World, w1: World, w2: World, w3: World, w4: World, accounts: seq<Account>)
    ensures forall w <- [w0, w1, w2, w3, w4] :: w.server.disk.cursor <= |w.server.disk.bytes|
    ensures Initial(w0) && Step(w0, Write(AddAccountRequest(0, 0, 0, 0), 1, RECORD_LENGTH), w1)
    ensures Step(w1, ProcessExit, w2) && Step(w2, Boot(true, AlwaysOne, accounts), w3) && Step(w3, PowerLoss(Header()), w4)
    ensures w3.stage.Idle? && |w3.server.accounts| == 1 && w3.server.transactions == 1
    ensures w4.stage.Down? && w4.log == []
  {
    hide Scan, Image, Header, HeaderError, RecordsIn, AfterWrite, Recovers, Replayable, FirstFailure, Step;
    var entry := Record(0, 1, AddAccount(0, 0, 0));
    accounts := [NewAccount(0, 0, 1, 0)];
    w0 := World(Idle, Server([], 0, Disk(Header(), Header(), HEADER_LENGTH)), [], 0, [], 0);
    w1 := AfterWrite(w0, entry, RECORD_LENGTH);
    w2 := Stopped(w1, w1.server.disk);
    var file := w2.server.disk.bytes;
    w3 := w2.(stage := Idle, server := Server(accounts, 1, Disk(file, Header(), |file|)));
    w4 := Stopped(w3, Disk(Header(), Header(), 0));
    UnsyncedRecordIsOnDisk(w0, entry, accounts);
    WriteThenDie(w0, entry, w1, w2);
    BootThenLosePower(w2, entry, accounts, w3, w4);
  }

  lemma PathOfFour(worlds: seq<World>, events: seq<Event>)
    requires |worlds| == 5 && |events| == 4
    requires forall i | 0 <= i < 5 :: worlds[i].server.disk.cursor <= |worlds[i].server.disk.bytes|
    requires Step(worlds[0], events[0], worlds[1]) && Step(worlds[1], events[1], worlds[2])
    requires Step(worlds[2], events[2], worlds[3]) && Step(worlds[3], events[3], worlds[4])
    ensures Path(worlds, events)
  {
    hide Step;
  }

  lemma WriteThenDie(w0: World, entry: Record, w1: World, w2: World)
    requires w0 == World(Idle, Server([], 0, Disk(Header(), Header(), HEADER_LENGTH)), [], 0, [], 0)
    requires entry == Record(0, 1, AddAccount(0, 0, 0)) && w1 == AfterWrite(w0, entry, RECORD_LENGTH)
    requires w1.stage == Appended(entry) && w1.server.disk.cursor <= |w1.server.disk.bytes|
    requires w2 == Stopped(w1, w1.server.disk)
    ensures Step(w0, Write(AddAccountRequest(0, 0, 0, 0), 1, RECORD_LENGTH), w1)
    ensures Step(w1, ProcessExit, w2)
  {
    hide AfterWrite, RecordsIn, Header;
  }

  lemma BootThenLosePower(w2: World, entry: Record, accounts: seq<Account>, w3: World, w4: World)
    requires w2.stage.Down? && w2.server.disk.durable == Header() && HEADER_LENGTH <= |w2.server.disk.bytes|
    requires w2.server.disk.cursor <= |w2.server.disk.bytes| && w2.stored == 0
    requires var file := w2.server.disk.bytes;
             && HeaderError(file) == NoError && Scan(file[HEADER_LENGTH..]) == Scanned([entry], AtEnd)
             && Replayable([entry]) && !FirstFailure([entry], AlwaysOne).Exists()
             && file[..RecordOffset(1)] == file && |file| == RecordOffset(1)
             && Recovers(file, true, AlwaysOne, NoError, 1, accounts, file)
             && w3 == w2.(stage := Idle, server := Server(accounts, 1, Disk(file, Header(), |file|)))
    requires w4 == Stopped(w3, Disk(Header(), Header(), 0)) && RecordsIn(Header()) == []
    ensures Step(w2, Boot(true, AlwaysOne, accounts), w3)
    ensures Step(w3, PowerLoss(Header()), w4)
  {
    hide Scan, Image, Header, HeaderError, RecordsIn, Survives, Recovers, Replayable, FirstFailure;
    DurableSurvives(w3.server.disk, 0);
  }

  lemma UnsyncedRecordIsOnDisk(w0: World, entry: Record, accounts: seq<Account>)
    requires w0 == World(Idle, Server([], 0, Disk(Header(), Header(), HEADER_LENGTH)), [], 0, [], 0)
    requires entry == Record(0, 1, AddAccount(0, 0, 0)) && accounts == [NewAccount(0, 0, 1, 0)]
    ensures var w1 := AfterWrite(w0, entry, RECORD_LENGTH);
            var file := w1.server.disk.bytes;
            && w1.stage == Appended(entry) && w1.server.disk.durable == Header()
            && w1.server.disk.cursor == |file| == RecordOffset(1)
            && RecordsIn(file) == [entry] && RecordsIn(Header()) == []
            && HeaderError(file) == NoError && Scan(file[HEADER_LENGTH..]) == Scanned([entry], AtEnd)
            && Replayable([entry]) && !FirstFailure([entry], AlwaysOne).Exists()
            && Recovers(file, true, AlwaysOne, NoError, 1, accounts, file)
            && w1 == w0.(stage := Appended(entry), server := w0.server.(disk := Disk(file, Header(), |file|)))
            && file[..RecordOffset(1)] == file
  {
    hide Scan, Image, Header, HeaderError, RecordsIn, Append, EncodeRecord, Fold, Timeless, Replayable, Holds;
    EmptyImage();
    AppendToImage(w0.server.disk, [], entry, RECORD_LENGTH);
    assert [] + [entry] == [entry];
    ImageHolds([entry]);
    ScanHolds(Image([entry]), [entry]);
    OneAccount(entry, accounts);
    ImageHolds([]);
    ScanHolds(Header(), []);
    assert Image([entry])[..RecordOffset(1)] == Image([entry]);
  }

  function AlwaysOne(k: nat): Tick {
    Tick(1, true)
  }

  lemma EmptyImage()
    ensures Image([]) == Header()
  {
    hide Header;
  }

  lemma OneAccount(entry: Record, accounts: seq<Account>)
    requires entry == Record(0, 1, AddAccount(0, 0, 0)) && accounts == [NewAccount(0, 0, 1, 0)]
    ensures Replayable([entry]) && Timeless(accounts) == Fold([entry])
  {
    assert [entry][..0] == [];
    assert Apply([], entry.operation, 1, 0) == accounts;
  }

  // ----- requests as runs -----

  /** What the main loop does with an outcome, once it has handled it: go on idle, or terminate. */
  ghost predicate Follows(w: World, request: Request, env: Environment, w': World)
    requires |w.server.accounts| < U64_SIZE && w.server.disk.cursor <= |w.server.disk.bytes|
  {
    var handled := Handle(w.server, request, env);
    match handled.outcome
    case Ok(_) =>
      && w'.stage.Idle? && w'.server == handled.server && w'.crashes == w.crashes
      && if OperationOf(request).None? then w' == w
         else
           var entry := Record(WalId(request), env.now, OperationOf(request).value);
           w'.log == w.log + [entry] && w'.answered == w.answered + [entry] && w'.stored == |w'.log|
    case Err(e) =>
      if ActionOf(e) == Reject then w' == w && handled.server == w.server
      else ActionOf(e) == Fatal && w'.stage.Down? && w'.server.disk == handled.server.disk && w'.answered == w.answered
  }

  /**
   Every request an idle server handles is a sequence of steps of the run model: an accepted one grows log and answers
   by exactly that record, a rejected one changes nothing, and any other failure ends the process, so that nothing is
   ever appended behind a torn or unsynced record.
   */
  lemma RequestIsRun(w: World, request: Request, env: Environment) returns (worlds: seq<World>, events: seq<Event>)
    requires Invariant(w) && w.stage.Idle?
    ensures |w.server.accounts| < U64_SIZE
    ensures Path(worlds, events) && worlds[0] == w && Follows(w, request, env, worlds[|worlds| - 1])
  {
    hide Invariant, Step, Handle, Guard, Follows, Path;
    AccountsAreFew(w);
    StateOf(w);
    if env.now == -1 {
      ClockFollows(w, request, env);
      ExitSteps(w);
      PathStarts(w);
      PathGrows([w], [], ProcessExit, Stopped(w, w.server.disk));
      worlds, events := [w] + [Stopped(w, w.server.disk)], [] + [ProcessExit];
    } else if OperationOf(request).Some? && !Guard(w.server.accounts, OperationOf(request).value).Exists()
              && WalId(request) == w.server.transactions {
      worlds, events := MutationIsRun(w, request, env);
    } else {
      NothingFollows(w, request, env);
      PathStarts(w);
      worlds, events := [w], [];
    }
  }

  lemma ClockFollows(w: World, request: Request, env: Environment)
    requires w.stage.Idle? && |w.server.accounts| < U64_SIZE && w.server.disk.cursor <= |w.server.disk.bytes|
    requires env.now == -1
    ensures Follows(w, request, env, Stopped(w, w.server.disk))
  {
    hide Mutate, Query, RecordsIn;
  }

  /** A query, a request the guard refuses and a wrong sequence number change nothing and end nothing. */
  lemma NothingFollows(w: World, request: Request, env: Environment)
    requires w.stage.Idle? && |w.server.accounts| < U64_SIZE && w.server.disk.cursor <= |w.server.disk.bytes|
    requires env.now != -1
    requires OperationOf(request).None? || Guard(w.server.accounts, OperationOf(request).value).Exists()
             || WalId(request) != w.server.transactions
    ensures Follows(w, request, env, w)
  {
    hide Guard, LogWrite, Apply;
    if OperationOf(request).None? {
      QueriesAreRejected(w.server, request);
    } else if Guard(w.server.accounts, OperationOf(request).value).Exists() {
      RefusalIsReject(w.server.accounts, OperationOf(request).value);
    } else {
      NonceIsChecked(w.server, request, env);
    }
  }

  lemma QueriesAreRejected(s: Server, request: Request)
    requires OperationOf(request).None? && |s.accounts| < U64_SIZE
    ensures Query(s, request).Err? ==> ActionOf(Query(s, request).error) == Reject
  {}

  lemma NonceIsChecked(s: Server, request: Request, env: Environment)
    requires OperationOf(request).Some? && WalId(request) != s.transactions && s.disk.cursor <= |s.disk.bytes|
    ensures LogWrite(s.disk, s.transactions, Record(WalId(request), env.now, OperationOf(request).value), env.accepts, env.syncs)
            == Written(StorageFault(WalNonceMismatch), s.disk, s.transactions)
  {}

  lemma ExitSteps(w: World)
    requires !w.stage.Down? && w.server.disk.cursor <= |w.server.disk.bytes|
    ensures Step(w, ProcessExit, Stopped(w, w.server.disk))
  {}

  lemma RefusalIsReject(accounts: seq<Account>, op: Operation)
    requires Guard(accounts, op).Exists()
    ensures ActionOf(Guard(accounts, op)) == Reject
  {}

  lemma PathGrows(worlds: seq<World>, events: seq<Event>, event: Event, w': World)
    requires Path(worlds, events) && Step(worlds[|events|], event, w')
    requires w'.server.disk.cursor <= |w'.server.disk.bytes|
    ensures Path(worlds + [w'], events + [event])
  {
    hide Step;
  }

  /** A path that starts where another ends continues it. */
  lemma PathJoins(worlds: seq<World>, events: seq<Event>, worlds': seq<World>, events': seq<Event>)
    requires Path(worlds, events) && Path(worlds', events') && worlds'[0] == worlds[|events|]
    ensures Path(worlds + worlds'[1..], events + events')
    ensures (worlds + worlds'[1..])[|events| + |events'|] == worlds'[|events'|]
  {
    hide Step;
    var all, what := worlds + worlds'[1..], events + events';
    forall i | |events| <= i < |all| ensures all[i] == worlds'[i - |events|] {}
    forall i | 0 <= i < |what| ensures Step(all[i], what[i], all[i + 1]) {
      if i < |events| {
        assert Step(worlds[i], events[i], worlds[i + 1]);
      } else {
        assert Step(worlds'[i - |events|], events'[i - |events|], worlds'[i - |events| + 1]);
      }
    }
  }

  /** Write, sync, apply, answer, until one of them ends the process. */
  function AfterMutation(w: World, entry: Record, env: Environment): World
    requires w.server.disk.cursor <= |w.server.disk.bytes|
    requires InBounds(|w.server.accounts|, entry.operation)
  {
    var w1 := AfterWrite(w, entry, env.accepts);
    if !w1.stage.Appended? || w1.stage.entry != entry then w1
    else
      var w2 := AfterSync(w1, env.syncs);
      if !w2.stage.Synced? then w2
      else
        var w3 := AfterApply(w2, env);
        if !w3.stage.Applied? then w3 else AfterAnswer(w3)
  }

  /** The same for a request that gets past guard and sequence check: write, sync, apply, answer. */
  lemma MutationIsRun(w: World, request: Request, env: Environment) returns (worlds: seq<World>, events: seq<Event>)
    requires Invariant(w) && w.stage.Idle? && |w.server.accounts| < FILE_LIMIT
    requires env.now != -1 && OperationOf(request).Some? && WalId(request) == w.server.transactions
    requires !Guard(w.server.accounts, OperationOf(request).value).Exists()
    ensures Path(worlds, events) && worlds[0] == w
    ensures w.server.disk.cursor <= |w.server.disk.bytes| && Follows(w, request, env, worlds[|worlds| - 1])
  {
    hide Invariant, Guard, InBounds, Handle, AfterWrite, AfterSync, AfterApply, AfterAnswer;
    StateOf(w);
    var op := OperationOf(request).value;
    var entry := Record(WalId(request), env.now, op);
    GuardMeansInBounds(w.server.accounts, op);
    worlds, events := MutationPath(w, request, entry, env);
    MutationFollows(w, request, entry, env);
  }

  lemma MutationPath(w: World, request: Request, entry: Record, env: Environment)
    returns (worlds: seq<World>, events: seq<Event>)
    requires w.stage.Idle? && w.server.disk.cursor <= |w.server.disk.bytes|
    requires Accepts(w.server, request, env.now, entry) && InBounds(|w.server.accounts|, entry.operation)
    ensures Path(worlds, events) && worlds[0] == w
    ensures worlds[|worlds| - 1] == AfterMutation(w, entry, env)
  {
    hide Guard, InBounds, RecordsIn, Append, AppendsAll, Apply, Path, ApplyError;
    AppendStays(w.server.disk, entry, env.accepts);
    var w1 := AfterWrite(w, entry, env.accepts);
    worlds, events := [w], [];
    PathStarts(w);
    PathGrows(worlds, events, Write(request, env.now, env.accepts), w1);
    worlds, events := worlds + [w1], events + [Write(request, env.now, env.accepts)];
    if w1.stage.Appended? {
      var w2 := AfterSync(w1, env.syncs);
      PathGrows(worlds, events, SyncFile(env.syncs), w2);
      worlds, events := worlds + [w2], events + [SyncFile(env.syncs)];
      if w2.stage.Synced? {
        var w3 := AfterApply(w2, env);
        PathGrows(worlds, events, ApplyLogged(env), w3);
        worlds, events := worlds + [w3], events + [ApplyLogged(env)];
        if w3.stage.Applied? {
          PathGrows(worlds, events, Answer, AfterAnswer(w3));
          worlds, events := worlds + [AfterAnswer(w3)], events + [Answer];
        }
      }
    }
  }

  lemma PathStarts(w: World)
    requires w.server.disk.cursor <= |w.server.disk.bytes|
    ensures Path([w], [])
  {}

  lemma MutationFollows(w: World, request: Request, entry: Record, env: Environment)
    requires w.stage.Idle? && w.server.disk.cursor <= |w.server.disk.bytes| && |w.server.accounts| < FILE_LIMIT
    requires Accepts(w.server, request, env.now, entry) && InBounds(|w.server.accounts|, entry.operation)
    ensures Follows(w, request, env, AfterMutation(w, entry, env))
  {
    hide Guard, InBounds, RecordsIn, Append, AppendsAll, Apply;
  }

  lemma AppendStays(disk: Disk, entry: Record, accepts: nat)
    requires disk.cursor <= |disk.bytes|
    ensures var after := Append(disk, entry, accepts); after.cursor <= |after.bytes|
  {
    hide EncodeRecord;
  }

  lemma AccountsAreFew(w: World)
    requires Invariant(w) && w.stage.Idle?
    ensures |w.server.accounts| < FILE_LIMIT
  {
    hide Image, Holds;
    FoldIsShort(w.log);
  }
}
