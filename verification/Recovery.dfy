/**
 Runs of the server with crashes at every point. One step is one thing the process or the machine does:
 write a record, sync it, apply it, answer it, die, lose power, boot again.
 */
module Recovery {
  import opened Common
  import opened Errors
  import opened Ledger
  import opened Protocol
  import opened Layout
  import opened Log
  import opened Wal
  import opened Server

  /** How far the request being served has got. */
  datatype Stage =
    | Idle
    | Appended(entry: Record)
    | Synced(entry: Record)
    | Applied(entry: Record)
    | Down

  /** The server and, for the reader only, its history: the log, how much of it is certainly durable, what was answered. */
  datatype World = World(
    stage: Stage,
    server: Server,
    log: seq<Record>,
    stored: nat,
    answered: seq<Record>,
    crashes: nat)

  datatype Event =
    | Write(request: Request, now: i64, accepts: nat)
    | SyncFile(syncs: bool)
    | ApplyLogged(env: Environment)
    | Answer
    | ProcessExit
    | PowerLoss(image: seq<bv8>)
    | Boot(truncates: bool, ticks: nat -> Tick, accounts: seq<Account>)

  ghost predicate Initial(w: World) {
    w == World(Idle, Server([], 0, Disk(Header(), Header(), HEADER_LENGTH)), [], 0, [], 0)
  }

  /** The records a restart would read from a file. */
  function RecordsIn(file: seq<bv8>): seq<Record> {
    if |file| < HEADER_LENGTH then [] else Scan(file[HEADER_LENGTH..]).records
  }

  /** Bytes that do not begin with a record: too few of them, or a checksum that does not fit. */
  predicate NoRecord(tail: seq<bv8>) {
    |tail| < RECORD_LENGTH || !ChecksumOk(tail[..RECORD_LENGTH])
  }

  /** The first `k` record places hold what was really written, and what is behind them is not a record. */
  ghost predicate RealUpTo(disk: Disk, image: seq<bv8>, k: nat) {
    && RecordOffset(k) <= |image|
    && (image[..RecordOffset(k)] <= disk.bytes || image[..RecordOffset(k)] <= disk.durable)
    && NoRecord(image[RecordOffset(k)..])
  }

  /**
   What a loss of power may leave of a file: everything that synced and current contents agree on survives, and beyond
   that either of the two up to some record, and then anything at all that does not pass for a record.
   */
  ghost predicate Survives(disk: Disk, image: seq<bv8>) {
    && |image| <= FILE_LIMIT
    && (forall agreed | Agreed(disk, agreed) :: agreed <= image)
    && exists k: nat :: RealUpTo(disk, image, k)
  }

  ghost predicate Agreed(disk: Disk, agreed: seq<bv8>) {
    agreed <= disk.bytes && agreed <= disk.durable
  }

  /** The process is gone; the memory is lost and the file is what the disk holds. */
  function Stopped(w: World, disk: Disk): World {
    World(Down, Server([], 0, disk), RecordsIn(disk.bytes), w.stored, w.answered, w.crashes + 1)
  }

  /** The request passes guard and sequence check and becomes this record. */
  ghost predicate Accepts(s: Server, request: Request, now: i64, entry: Record) {
    && now != -1
    && OperationOf(request).Some?
    && !Guard(s.accounts, OperationOf(request).value).Exists()
    && WalId(request) == s.transactions
    && entry == Record(WalId(request), now, OperationOf(request).value)
  }

  /** The write call takes the whole record, or the error is fatal. */
  function AfterWrite(w: World, entry: Record, accepts: nat): World
    requires w.server.disk.cursor <= |w.server.disk.bytes|
  {
    var after := Append(w.server.disk, entry, accepts);
    if AppendsAll(w.server.disk, accepts) then w.(stage := Appended(entry), server := w.server.(disk := after))
    else Stopped(w, after)
  }

  /** The sync makes the record durable and counts it, or the error is fatal. */
  function AfterSync(w: World, syncs: bool): World
    requires w.stage.Appended?
  {
    if syncs then
      w.(stage := Synced(w.stage.entry),
         server := Server(w.server.accounts, (w.server.transactions + 1) % U64_SIZE, Sync(w.server.disk)),
         log := w.log + [w.stage.entry],
         stored := |w.log| + 1)
    else Stopped(w, w.server.disk)
  }

  function AfterApply(w: World, env: Environment): World
    requires w.stage.Synced? && InBounds(|w.server.accounts|, w.stage.entry.operation)
  {
    var r := w.stage.entry;
    if ApplyError(|w.server.accounts|, r.operation, env).Exists() then Stopped(w, w.server.disk)
    else
      w.(stage := Applied(r),
         server := w.server.(accounts := Apply(w.server.accounts, r.operation, r.timestamp, env.applyNow)))
  }

  function AfterAnswer(w: World): World
    requires w.stage.Applied?
  {
    w.(stage := Idle, answered := w.answered + [w.stage.entry])
  }

  ghost predicate Step(w: World, event: Event, w': World)
    requires w.server.disk.cursor <= |w.server.disk.bytes|
  {
    var disk := w.server.disk;
    match event
    case Write(request, now, accepts) =>
      && w.stage.Idle?
      && OperationOf(request).Some?
      && var entry := Record(WalId(request), now, OperationOf(request).value);
      Accepts(w.server, request, now, entry) && w' == AfterWrite(w, entry, accepts)
    case SyncFile(syncs) =>
      w.stage.Appended? && w' == AfterSync(w, syncs)
    case ApplyLogged(env) =>
      && w.stage.Synced?
      && InBounds(|w.server.accounts|, w.stage.entry.operation)
      && w' == AfterApply(w, env)
    case Answer =>
      w.stage.Applied? && w' == AfterAnswer(w)
    case ProcessExit =>
      !w.stage.Down? && w' == Stopped(w, disk)
    case PowerLoss(image) =>
      Survives(disk, image) && w' == Stopped(w, Disk(image, image, 0)).(stored := |RecordsIn(image)|)
    case Boot(truncates, ticks, accounts) =>
      && w.stage.Down?
      && HeaderError(disk.bytes) == NoError
      && Replayable(Scan(disk.bytes[HEADER_LENGTH..]).records)
      && var scanned := Scan(disk.bytes[HEADER_LENGTH..]);
      && var error := ReplayError(scanned, truncates, FirstFailure(scanned.records, ticks));
      && var after := if error.Exists() then disk.bytes else disk.bytes[..RecordOffset(|scanned.records|)];
      && Recovers(disk.bytes, truncates, ticks, error, |scanned.records|, accounts, after)
      && if error.Exists() then w' == w
         else
           && |scanned.records| < U64_SIZE
           && w' == w.(stage := Idle,
                       server := Server(accounts, |scanned.records|, Disk(after, disk.durable, |after|)))
  }

  // ----- the invariant -----

  /** A file that holds a log, possibly followed by an incomplete or damaged record and anything behind that. */
  ghost predicate Holds(file: seq<bv8>, log: seq<Record>) {
    Image(log) <= file && NoRecord(file[RecordOffset(|log|)..])
  }

  /** Every answered record is in the durable part of the log, at its own number, in the order of answering. */
  ghost predicate AnswersKept(answered: seq<Record>, log: seq<Record>, stored: nat) {
    && (forall i | 0 <= i < |answered| ::
          answered[i].id < stored && answered[i].id < |log| && log[answered[i].id] == answered[i])
    && (forall i, j | 0 <= i < j < |answered| :: answered[i].id < answered[j].id)
  }

  function InFlight(stage: Stage): nat {
    if stage.Synced? || stage.Applied? then 1 else 0
  }

  /** The log on disk, counting a record that is written but not yet synced. */
  function Candidate(w: World): seq<Record> {
    if w.stage.Appended? then w.log + [w.stage.entry] else w.log
  }

  ghost predicate HistoryOk(w: World) {
    && Admitted(w.log) && Admitted(Candidate(w))
    && w.stored <= |w.log|
    && AnswersKept(w.answered, w.log, w.stored)
    && |w.log| <= |w.answered| + w.crashes + InFlight(w.stage)
    && (InFlight(w.stage) == 1 ==>
          && w.stored == |w.log| > 0 && w.log[|w.log| - 1] == w.stage.entry
          && AnswersKept(w.answered, w.log, |w.log| - 1))
  }

  ghost predicate DiskOk(w: World) {
    var disk := w.server.disk;
    && |disk.bytes| <= FILE_LIMIT && |disk.durable| <= FILE_LIMIT && disk.cursor <= |disk.bytes|
    && Holds(disk.bytes, Candidate(w))
    && w.stored <= |w.log| && Holds(disk.durable, w.log[..w.stored])
    && (!w.stage.Down? ==> disk.bytes == Image(Candidate(w)) && disk.cursor == |disk.bytes|)
  }

  /** The part of the log that memory has already applied: all of it, except for a record just synced. */
  function InMemory(w: World): seq<Record> {
    if w.stage.Synced? && w.log != [] then w.log[..|w.log| - 1] else w.log
  }

  ghost predicate MemoryOk(w: World) {
    !w.stage.Down? ==>
      && w.server.transactions == |w.log|
      && Replayable(InMemory(w))
      && Timeless(w.server.accounts) == Fold(InMemory(w))
  }

  /**
   Whatever stage a request is in: the log is one the guard admits, the file is its image (or holds it, once the
   process is gone), the synced file holds its durable part, memory is its fold, and no answer is lost.
   */
  ghost predicate Invariant(w: World) {
    HistoryOk(w) && DiskOk(w) && MemoryOk(w)
  }

  // ----- what a restart reads -----

  /** Why reading stops at bytes that are no record. */
  function StopAt(tail: seq<bv8>): Stop {
    if tail == [] then AtEnd else if |tail| < RECORD_LENGTH then ShortRead else BadChecksum
  }

  /** A restart reads exactly the log back, and stops where it ends. */
  lemma ScanHolds(file: seq<bv8>, log: seq<Record>)
    requires Holds(file, log)
    ensures HEADER_LENGTH <= |file| && HeaderError(file) == NoError
    ensures RecordOffset(|log|) <= |file|
    ensures Scan(file[HEADER_LENGTH..]) == Scanned(log, StopAt(file[RecordOffset(|log|)..]))
    ensures RecordsIn(file) == log
    ensures file[..RecordOffset(|log|)] == Image(log)
  {
    HeaderOfImage(file, log);
    var tail := TailOf(file, log);
    ScanImage(log, tail);
    ScanNoRecord(tail);
    assert log + [] == log;
    hide Scan, Image, Records, HeaderError, NoRecord;
  }

  lemma TailOf(file: seq<bv8>, log: seq<Record>) returns (tail: seq<bv8>)
    requires Holds(file, log)
    ensures RecordOffset(|log|) <= |file| && tail == file[RecordOffset(|log|)..] && NoRecord(tail)
    ensures file[HEADER_LENGTH..] == Records(log) + tail
    ensures file[..RecordOffset(|log|)] == Image(log)
  {
    hide Header, Records, NoRecord;
    tail := file[RecordOffset(|log|)..];
    assert file == Image(log) + tail;
  }

  lemma ScanNoRecord(tail: seq<bv8>)
    requires NoRecord(tail)
    ensures Scan(tail) == Scanned([], StopAt(tail))
  {
    hide ChecksumOk, DecodeRecord;
  }

  lemma HeaderOfImage(file: seq<bv8>, log: seq<Record>)
    requires Image(log) <= file
    ensures HeaderError(file) == NoError
  {
    assert file[..HEADER_LENGTH] == Header();
    HeaderIsGood(file[..HEADER_LENGTH]);
    assert file[..8] == file[..HEADER_LENGTH][..8] && file[8..10] == file[..HEADER_LENGTH][8..10];
  }

  lemma {:induction false} AdmittedPrefix(log: seq<Record>, n: nat)
    requires Admitted(log) && n <= |log|
    ensures Admitted(log[..n])
    decreases |log|
  {
    if n == |log| {
      assert log[..n] == log;
    } else {
      AdmittedPrefix(log[..|log| - 1], n);
      assert log[..|log| - 1][..n] == log[..n];
    }
  }

  /** In the image of a log, each record is at its place. */
  lemma RecordInImage(log: seq<Record>, k: nat)
    requires k < |log|
    ensures RecordOffset(k + 1) <= |Image(log)|
    ensures Image(log)[RecordOffset(k)..RecordOffset(k + 1)] == EncodeRecord(log[k])
  {
    hide EncodeRecord, Image;
    ImagePrefix(log, k);
    ImagePrefix(log, k + 1);
    assert log[..k + 1] == log[..k] + [log[k]];
    ImageAppend(log[..k], log[k]);
    assert Image(log)[..RecordOffset(k + 1)][RecordOffset(k)..] == EncodeRecord(log[k]);
  }

  lemma RecordThere(log: seq<Record>, k: nat, image: seq<bv8>)
    requires k < |log| && Image(log) <= image
    ensures RecordOffset(k) <= |image| && !NoRecord(image[RecordOffset(k)..])
  {
    hide Image, EncodeRecord, ChecksumOk;
    RecordInImage(log, k);
    RecordRoundTrip(log[k]);
    assert image[RecordOffset(k)..][..RECORD_LENGTH] == Image(log)[RecordOffset(k)..RecordOffset(k + 1)];
  }

  /** What is real of a file that holds a log holds a prefix of the log, no shorter than the records known to be there. */
  lemma HoldsShorter(file: seq<bv8>, log: seq<Record>, image: seq<bv8>, stored: nat, k: nat) returns (n: nat)
    requires Holds(file, log) && stored <= |log| && Image(log[..stored]) <= image
    requires RecordOffset(k) <= |image| && image[..RecordOffset(k)] <= file && NoRecord(image[RecordOffset(k)..])
    ensures stored <= n <= |log| && Holds(image, log[..n])
  {
    hide Image, EncodeRecord, ChecksumOk;
    if k <= |log| {
      n := k;
      ImagePrefix(log, k);
      assert image[..RecordOffset(k)] == Image(log)[..RecordOffset(k)];
      if k < stored {
        RecordThere(log[..stored], k, image);
        assert false;
      }
    } else {
      n := |log|;
      assert log[..n] == log;
      var at := RecordOffset(n);
      assert Image(log) == file[..at] == image[..at];
      assert image[at..][..RECORD_LENGTH] == file[at..][..RECORD_LENGTH];
    }
  }

  /** What a loss of power leaves holds a prefix of the log that is no shorter than its durable part. */
  lemma SurvivorHolds(disk: Disk, log: seq<Record>, stored: nat, image: seq<bv8>) returns (n: nat)
    requires stored <= |log| && Holds(disk.bytes, log) && Holds(disk.durable, log[..stored])
    requires Survives(disk, image)
    ensures stored <= n <= |log| && Holds(image, log[..n])
    ensures stored == |log| ==> n == |log|
  {
    hide Image, RecordsIn, NoRecord;
    ImagePrefix(log, stored);
    assert Image(log[..stored]) <= disk.bytes;
    assert Agreed(disk, Image(log[..stored]));
    var k: nat :| RealUpTo(disk, image, k);
    if image[..RecordOffset(k)] <= disk.bytes {
      n := HoldsShorter(disk.bytes, log, image, stored, k);
    } else {
      assert log[..stored][..stored] == log[..stored];
      n := HoldsShorter(disk.durable, log[..stored], image, stored, k);
      assert log[..stored][..n] == log[..n];
    }
  }

  // ----- every step keeps the invariant -----

  lemma AnswersStay(answered: seq<Record>, log: seq<Record>, stored: nat, log': seq<Record>, stored': nat)
    requires AnswersKept(answered, log, stored) && stored <= stored' <= |log'|
    requires stored <= |log| && log'[..stored] == log[..stored]
    ensures AnswersKept(answered, log', stored')
  {
    forall i | 0 <= i < |answered|
      ensures answered[i].id < stored' && answered[i].id < |log'| && log'[answered[i].id] == answered[i]
    {
      assert log'[..stored][answered[i].id] == log[..stored][answered[i].id];
    }
  }

  /** Dying keeps the invariant, whatever was in flight, for any file that still holds enough of the log. */
  lemma StoppingKeeps(w: World, disk: Disk, n: nat, stored: nat)
    requires Invariant(w)
    requires w.stored <= stored <= n <= |Candidate(w)|
    requires |disk.bytes| <= FILE_LIMIT && |disk.durable| <= FILE_LIMIT && disk.cursor <= |disk.bytes|
    requires Holds(disk.bytes, Candidate(w)[..n]) && Holds(disk.durable, Candidate(w)[..stored])
    ensures Invariant(Stopped(w, disk).(stored := stored))
    ensures RecordsIn(disk.bytes) == Candidate(w)[..n]
  {
    hide Invariant, Candidate, RecordsIn, Holds, AnswersKept, Admitted, Scan, Image, HeaderError;
    var kept := Candidate(w)[..n];
    HistoryIn(w, n, stored);
    ScanHolds(disk.bytes, kept);
    assert kept[..stored] == Candidate(w)[..stored];
    DownIsFine(kept, disk, stored, w.answered, w.crashes + 1);
  }

  lemma DownIsFine(log: seq<Record>, disk: Disk, stored: nat, answered: seq<Record>, crashes: nat)
    requires Admitted(log) && stored <= |log| && AnswersKept(answered, log, stored) && |log| <= |answered| + crashes
    requires |disk.bytes| <= FILE_LIMIT && |disk.durable| <= FILE_LIMIT && disk.cursor <= |disk.bytes|
    requires Holds(disk.bytes, log) && Holds(disk.durable, log[..stored])
    ensures Invariant(World(Down, Server([], 0, disk), log, stored, answered, crashes))
  {
    hide Admitted, AnswersKept, Holds;
  }

  lemma HistoryIn(w: World, n: nat, stored: nat)
    requires Invariant(w) && w.stored <= stored <= n <= |Candidate(w)|
    ensures Admitted(Candidate(w)[..n])
    ensures AnswersKept(w.answered, Candidate(w)[..n], stored)
    ensures n <= |w.answered| + w.crashes + 1
  {
    hide DiskOk, MemoryOk, Admitted;
    AdmittedPrefix(Candidate(w), n);
    assert Candidate(w)[..n][..w.stored] == w.log[..w.stored];
    AnswersStay(w.answered, w.log, w.stored, Candidate(w)[..n], stored);
  }

  lemma CandidateHolds(w: World)
    requires Invariant(w)
    ensures Candidate(w)[..|Candidate(w)|] == Candidate(w)
    ensures Candidate(w)[..w.stored] == w.log[..w.stored]
  {
    hide DiskOk, MemoryOk, Admitted, AnswersKept;
  }

  lemma ExitKeeps(w: World, w': World)
    requires Invariant(w) && Step(w, ProcessExit, w')
    ensures Invariant(w')
  {
    hide Invariant, Candidate, RecordsIn, Holds;
    CandidateHolds(w);
    StateOf(w);
    StoppingKeeps(w, w.server.disk, |Candidate(w)|, w.stored);
  }

  lemma StateOf(w: World)
    requires Invariant(w)
    ensures Holds(w.server.disk.bytes, Candidate(w)) && Holds(w.server.disk.durable, w.log[..w.stored])
    ensures |w.server.disk.bytes| <= FILE_LIMIT && |w.server.disk.durable| <= FILE_LIMIT
    ensures w.server.disk.cursor <= |w.server.disk.bytes|
    ensures w.stored <= |w.log| <= |Candidate(w)|
  {}

  lemma PowerLossKeeps(w: World, image: seq<bv8>, w': World)
    requires Invariant(w) && Step(w, PowerLoss(image), w')
    ensures Invariant(w')
  {
    hide Invariant, Candidate, RecordsIn, Holds, Survives;
    CandidateHolds(w);
    StateOf(w);
    var n := SurvivorHolds(w.server.disk, Candidate(w), w.stored, image);
    SurvivorIsBounded(w.server.disk, image);
    StoppingKeeps(w, Disk(image, image, 0), n, n);
  }

  lemma SurvivorIsBounded(disk: Disk, image: seq<bv8>)
    requires Survives(disk, image)
    ensures |image| <= FILE_LIMIT
  {}

  /** A request that passes guard and sequence check extends the log by a record the guard admits there. */
  lemma AcceptedIsAdmitted(s: Server, log: seq<Record>, request: Request, now: i64, entry: Record)
    requires Admitted(log) && Replayable(log) && Timeless(s.accounts) == Fold(log) && s.transactions == |log|
    requires Accepts(s, request, now, entry)
    ensures Admitted(log + [entry])
  {
    TimelessGuard(s.accounts, entry.operation);
    assert (log + [entry])[..|log|] == log;
    hide Guard, Timeless, Fold;
  }

  /** Appending at the end of the image of a log: all of the record, or a torn piece of it. */
  lemma AppendToImage(disk: Disk, log: seq<Record>, entry: Record, accepts: nat)
    requires disk.bytes == Image(log) && disk.cursor == |disk.bytes| <= FILE_LIMIT
    ensures var after := Append(disk, entry, accepts);
            && |after.bytes| <= FILE_LIMIT && after.durable == disk.durable && after.cursor == |after.bytes|
            && if AppendsAll(disk, accepts) then after.bytes == Image(log + [entry]) else Holds(after.bytes, log)
  {
    hide EncodeRecord, Image;
    ImageAppend(log, entry);
    var bytes := EncodeRecord(entry);
    assert bytes[..RECORD_LENGTH] == bytes;
  }

  lemma ImageHolds(log: seq<Record>)
    ensures Holds(Image(log), log)
  {
    hide Image;
  }

  lemma WriteKeeps(w: World, request: Request, now: i64, accepts: nat, w': World)
    requires Invariant(w) && Step(w, Write(request, now, accepts), w')
    ensures Invariant(w')
  {
    hide Scan, Image, Holds, Admitted, Replayable, Fold, Timeless, AnswersKept, Accepts, Append, AppendsAll, RecordsIn;
    var entry := Record(WalId(request), now, OperationOf(request).value);
    var after := Append(w.server.disk, entry, accepts);
    AppendToImage(w.server.disk, w.log, entry, accepts);
    if AppendsAll(w.server.disk, accepts) {
      AcceptedIsAdmitted(w.server, w.log, request, now, entry);
      ImageHolds(w.log + [entry]);
    } else {
      assert w.log[..|w.log|] == w.log;
      StoppingKeeps(w, after, |w.log|, w.stored);
    }
  }

  lemma SyncKeeps(w: World, syncs: bool, w': World)
    requires Invariant(w) && Step(w, SyncFile(syncs), w')
    ensures Invariant(w')
  {
    hide Scan, Image, Admitted, Replayable, Fold, Timeless, AnswersKept, RecordsIn, Holds;
    if syncs {
      var log := w.log + [w.stage.entry];
      assert log[..|log|] == log && log[..|w.log|] == w.log;
      assert log[..w.stored] == w.log[..w.stored];
      AnswersStay(w.answered, w.log, w.stored, log, |w.log|);
      AnswersStay(w.answered, w.log, w.stored, log, |log|);
      ImageSize(w);
    } else {
      CandidateHolds(w);
      StoppingKeeps(w, w.server.disk, |Candidate(w)|, w.stored);
    }
  }

  lemma ImageSize(w: World)
    requires Invariant(w)
    ensures |w.log| + 1 < U64_SIZE
  {
    hide Image, Admitted;
  }

  lemma ApplyKeeps(w: World, env: Environment, w': World)
    requires Invariant(w) && Step(w, ApplyLogged(env), w')
    ensures Invariant(w')
  {
    hide Scan, Image, Admitted, AnswersKept, RecordsIn, Holds, ApplyError;
    var r := w.stage.entry;
    if ApplyError(|w.server.accounts|, r.operation, env).Exists() {
      hide *;
      CandidateHolds(w);
      StateOf(w);
      StoppingKeeps(w, w.server.disk, |Candidate(w)|, w.stored);
    } else {
      MemoryCatchesUp(w, env);
      hide Replayable, Fold, Timeless, Apply;
    }
  }

  /** Applying the synced record makes memory the fold of the whole log. */
  lemma MemoryCatchesUp(w: World, env: Environment)
    requires Invariant(w) && w.stage.Synced? && InBounds(|w.server.accounts|, w.stage.entry.operation)
    ensures var r := w.stage.entry;
            Replayable(w.log) && Timeless(Apply(w.server.accounts, r.operation, r.timestamp, env.applyNow)) == Fold(w.log)
  {
    hide DiskOk, AnswersKept, Admitted;
    var r := w.stage.entry;
    AdmittedIsReplayable(w.log);
    FoldNext(w.log, |w.log| - 1);
    assert w.log[..|w.log|] == w.log;
    TimelessApply(w.server.accounts, r.operation, r.timestamp, env.applyNow);
    hide Fold, Replayable, Timeless, Apply, InBounds;
  }

  lemma AnswerKeeps(w: World, w': World)
    requires Invariant(w) && Step(w, Answer, w')
    ensures Invariant(w')
  {
    hide Scan, Image, Admitted, Holds, Replayable, Fold, Timeless;
    AdmittedIds(w.log, |w.log| - 1);
    AnswerAdded(w.answered, w.log, w.stage.entry);
  }

  lemma AnswerAdded(answered: seq<Record>, log: seq<Record>, entry: Record)
    requires log != [] && AnswersKept(answered, log, |log| - 1)
    requires entry == log[|log| - 1] && entry.id == |log| - 1
    ensures AnswersKept(answered + [entry], log, |log|)
  {
    var all := answered + [entry];
    forall i | 0 <= i < |all| ensures all[i].id < |log| && log[all[i].id] == all[i] {
      if i < |answered| { assert all[i] == answered[i]; }
    }
    forall i, j | 0 <= i < j < |all| ensures all[i].id < all[j].id {
      assert all[i] == answered[i];
      if j < |answered| { assert all[j] == answered[j]; }
    }
  }

  lemma {:induction false} AdmittedIds(log: seq<Record>, i: nat)
    requires Admitted(log) && i < |log|
    ensures log[i].id == i
    decreases |log|
  {
    if i < |log| - 1 {
      AdmittedIds(log[..|log| - 1], i);
    }
  }

  lemma BootKeeps(w: World, truncates: bool, ticks: nat -> Tick, accounts: seq<Account>, w': World)
    requires Invariant(w) && Step(w, Boot(truncates, ticks, accounts), w')
    ensures Invariant(w')
  {
    hide Scan, Image, Admitted, Replayable, Fold, Timeless, AnswersKept, RecordsIn, HeaderError, FirstFailure;
    ScanHolds(w.server.disk.bytes, w.log);
    ImageHolds(w.log);
    AdmittedIsReplayable(w.log);
  }

  /** Every step of server and machine keeps the invariant. */
  lemma StepKeeps(w: World, event: Event, w': World)
    requires Invariant(w) && Step(w, event, w')
    ensures Invariant(w')
  {
    hide *;
    match event
    case Write(request, now, accepts) => WriteKeeps(w, request, now, accepts, w');
    case SyncFile(syncs) => SyncKeeps(w, syncs, w');
    case ApplyLogged(env) => ApplyKeeps(w, env, w');
    case Answer => AnswerKeeps(w, w');
    case ProcessExit => ExitKeeps(w, w');
    case PowerLoss(image) => PowerLossKeeps(w, image, w');
    case Boot(truncates, ticks, accounts) => BootKeeps(w, truncates, ticks, accounts, w');
  }

  lemma InitialHolds(w: World)
    requires Initial(w)
    ensures Invariant(w)
  {
    hide Header;
    assert Image([]) == Header();
  }

  // ----- runs -----

  /** Worlds, each one step after the one before. */
  ghost predicate Path(worlds: seq<World>, events: seq<Event>) {
    && |worlds| == |events| + 1
    && (forall i | 0 <= i < |worlds| :: worlds[i].server.disk.cursor <= |worlds[i].server.disk.bytes|)
    && (forall i | 0 <= i < |events| :: Step(worlds[i], events[i], worlds[i + 1]))
  }

  /** A run starts from the empty log. */
  ghost predicate Run(worlds: seq<World>, events: seq<Event>) {
    Path(worlds, events) && Initial(worlds[0])
  }

  lemma {:induction false} RunKeeps(worlds: seq<World>, events: seq<Event>, n: nat)
    requires Run(worlds, events) && n < |worlds|
    ensures Invariant(worlds[n])
  {
    hide Step, Invariant, Initial;
    if n == 0 {
      InitialHolds(worlds[0]);
    } else {
      RunKeeps(worlds, events, n - 1);
      StepKeeps(worlds[n - 1], events[n - 1], worlds[n]);
    }
  }
}
