/**
 Many drivers and one server: every interleaving of dialing, greeting, sending, receiving, giving up, hanging up, losing
 data and restarting, and what the sequence numbers mean in all of them.
 */
module Nonces {
  import opened Common
  import opened Errors
  import opened Ledger
  import opened Protocol
  import opened Layout
  import opened Log
  import opened Wal
  import opened Server
  import Requests
  import Responses
  import Driver
  import Wire

  /** A request and a reply in flight, numbered by the request's place on its connection. */
  datatype Message = Message(number: nat, request: Request)
  datatype Reply = Reply(number: nat, response: Response)

  /** A connection: whose it is, how many requests were sent on it, and what is in flight either way. */
  datatype Channel = Channel(owner: nat, sent: nat, requests: seq<Message>, replies: seq<Reply>)

  /** A driver with the connection it holds. Stale: it was told of an accepted request and did not count it. */
  datatype Peer = Peer(driver: Driver.DriverState, channel: nat, stale: bool)

  /** Which request of which connection wrote which record. */
  datatype Writer = Writer(channel: nat, number: nat, record: Record)

  /**
   The server serves one connection at a time, in the order of dialing: connection `accepted - 1` while it is serving.
   Connections before that are over, the ones after it wait. `log` is what the file holds, `epoch` how many connections
   there had been when the server last started.
   */
  datatype World = World(
    server: Server,
    serving: bool,
    accepted: nat,
    channels: seq<Channel>,
    peers: seq<Peer>,
    writers: seq<Writer>,
    log: seq<Record>,
    epoch: nat)

  datatype Happening =
    | Act(k: nat, event: Driver.Event, delivered: bool)
    | Accept
    | Serve(env: Environment, delivered: bool)
    | HangUp
    | Lose(c: nat, requests: bool, replies: bool)
    | Restart(server: Server, log: seq<Record>)

  // ----- the server between requests -----

  /** The counter is the number of records in the file, and every account has one. */
  predicate Tidy(s: Server) {
    && RecordOffset(s.transactions) == |s.disk.bytes| <= FILE_LIMIT && s.disk.cursor == |s.disk.bytes|
    && |s.accounts| <= s.transactions
  }

  lemma TidyIsSmall(s: Server)
    requires Tidy(s)
    ensures |s.accounts| < U64_SIZE && s.disk.cursor <= |s.disk.bytes| && s.transactions + 1 < U64_SIZE
  {}

  function HandleTidy(s: Server, request: Request, env: Environment): Handled
    requires Tidy(s)
  {
    TidyIsSmall(s);
    Handle(s, request, env)
  }

  /** The file is the image of the log, and its records are numbered from zero. */
  ghost predicate FileHolds(s: Server, log: seq<Record>) {
    s.disk.bytes == Image(log) && forall i | 0 <= i < |log| :: log[i].id == i
  }

  predicate IsAccepted(request: Request, h: Handled) {
    OperationOf(request).Some? && h.outcome.Ok?
  }

  /** The record that an accepted request is logged as. */
  function EntryOf(request: Request, now: i64): Record
    requires OperationOf(request).Some?
  {
    Record(WalId(request), now, OperationOf(request).value)
  }

  lemma AppendIsExact(s: Server, entry: Record, accepts: nat)
    requires Tidy(s)
    ensures s.disk.cursor <= |s.disk.bytes|
    ensures AppendsAll(s.disk, accepts) ==>
              && Append(s.disk, entry, accepts).bytes == s.disk.bytes + EncodeRecord(entry)
              && |Append(s.disk, entry, accepts).bytes| == |s.disk.bytes| + 54 <= FILE_LIMIT
              && Append(s.disk, entry, accepts).cursor == |s.disk.bytes| + 54
  {
    hide EncodeRecord;
    var bytes := EncodeRecord(entry);
    assert bytes[..RECORD_LENGTH] == bytes;
    assert s.disk.bytes[..|s.disk.bytes|] == s.disk.bytes;
  }

  /**
   An answered request either appends exactly its record, having named the current counter, or leaves the server as it
   was.
   */
  ghost predicate ChangesBy(s: Server, request: Request, now: i64, h: Handled) {
    && Tidy(h.server)
    && (OperationOf(request).Some? && h.outcome.Ok? ==>
          && WalId(request) == s.transactions && h.server.transactions == s.transactions + 1
          && h.server.disk.bytes
             == s.disk.bytes + EncodeRecord(EntryOf(request, now)))
    && (!IsAccepted(request, h) ==> h.server == s)
    && (OperationOf(request).Some? ==> (IsAccepted(request, h) <==> !Wire.Answer(h).ErrorResponse?))
  }

  lemma QueryChanges(s: Server, request: Request, env: Environment)
    requires Tidy(s) && OperationOf(request).None?
    ensures ChangesBy(s, request, env.now, HandleTidy(s, request, env))
  {
    TidyIsSmall(s);
    hide Query, Tidy;
  }

  /** A log write counts exactly the record it appends, or changes nothing and is rejected, or is fatal. */
  lemma WriteMeans(s: Server, entry: Record, accepts: nat, syncs: bool)
    requires Tidy(s)
    ensures s.disk.cursor <= |s.disk.bytes|
    ensures var w := LogWrite(s.disk, s.transactions, entry, accepts, syncs);
            if w.error.Exists() then
              ActionOf(w.error) == Fatal || (ActionOf(w.error) == Reject && w.disk == s.disk && w.transactions == s.transactions)
            else
              && entry.id == s.transactions && w.transactions == s.transactions + 1
              && w.disk.bytes == s.disk.bytes + EncodeRecord(entry)
              && RecordOffset(w.transactions) == |w.disk.bytes| <= FILE_LIMIT && w.disk.cursor == |w.disk.bytes|
  {
    TidyIsSmall(s);
    AppendIsExact(s, entry, accepts);
    assert ActionOf(StorageFault(WalNonceMismatch)) == Reject;
    assert ActionOf(StorageFault(WalWriteFailed)) == ActionOf(StorageFault(WalSyncFailed)) == Fatal;
    assert (s.transactions + 1) % U64_SIZE == s.transactions + 1;
    assert RecordOffset(s.transactions + 1) == |s.disk.bytes| + 54;
    hide Append, AppendsAll, EncodeRecord, ActionOf, Tidy, RecordOffset;
  }

  lemma MutationChanges(s: Server, request: Request, env: Environment)
    requires Tidy(s) && |s.accounts| < U64_SIZE && s.disk.cursor <= |s.disk.bytes| && OperationOf(request).Some?
    requires Wire.IsAnswered(Mutate(s, request, env))
    ensures ChangesBy(s, request, env.now, Mutate(s, request, env))
  {
    var op := OperationOf(request).value;
    var entry := Record(WalId(request), env.now, op);
    WriteMeans(s, entry, env.accepts, env.syncs);
    ApplyErrorIsFatal(|s.accounts|, op, env);
    hide LogWrite, Guard, EncodeRecord, OperationOf, WalId, ActionOf, RecordOffset, ApplyError;
    if !Guard(s.accounts, op).Exists() {
      GuardMeansInBounds(s.accounts, op);
      var after := Apply(s.accounts, op, env.now, env.applyNow);
      assert |after| <= |s.accounts| + 1;
    }
    hide Apply, InBounds;
  }

  lemma ApplyErrorIsFatal(count: nat, op: Operation, env: Environment)
    ensures ApplyError(count, op, env).Exists() ==> ActionOf(ApplyError(count, op, env)) == Fatal
  {}

  lemma AnsweredMeans(s: Server, request: Request, env: Environment)
    requires Tidy(s) && Wire.IsAnswered(HandleTidy(s, request, env))
    ensures ChangesBy(s, request, env.now, HandleTidy(s, request, env))
  {
    TidyIsSmall(s);
    ClockIsFatal();
    hide ChangesBy, Mutate, Query, Tidy, ActionOf;
    if OperationOf(request).None? {
      QueryChanges(s, request, env);
    } else {
      MutationChanges(s, request, env);
    }
  }

  lemma ClockIsFatal()
    ensures ActionOf(StateFault(InvalidTime)) == Fatal
  {}

  lemma CountIsAnswered(s: Server, env: Environment)
    requires Tidy(s) && Wire.IsAnswered(HandleTidy(s, CountDatabaseRequest, env))
    ensures |s.accounts| < U64_SIZE
    ensures HandleTidy(s, CountDatabaseRequest, env) == Handled(s, Ok(CountDatabaseResponse(|s.accounts|, s.transactions)))
  {
    TidyIsSmall(s);
    hide Mutate;
  }

  // ----- steps -----

  /** The connection is the one being served. */
  predicate Live(w: World, c: nat) {
    w.serving && c + 1 == w.accepted
  }

  function Push(ch: Channel, request: Request): Channel {
    ch.(sent := ch.sent + 1, requests := ch.requests + [Message(ch.sent, request)])
  }

  /** The server took the first request in flight and answers it, unless the answer is lost. */
  function Served(ch: Channel, response: Response, delivered: bool): Channel
    requires ch.requests != []
  {
    var number := ch.requests[0].number;
    ch.(requests := ch.requests[1..], replies := ch.replies + if delivered then [Reply(number, response)] else [])
  }

  /** What a driver's event does to the channels. Sends that fail may still have arrived. */
  function ChannelsAfter(w: World, p: Peer, k: nat, event: Driver.Event, delivered: bool, d: Driver.DriverState): seq<Channel>
    requires p.driver.connected ==> p.channel < |w.channels|
  {
    match event
    case DialFailed => if delivered then w.channels + [Channel(k, 0, [], [])] else w.channels
    case Dial => w.channels + [Channel(k, 0, [], [])]
    case SendCount(ok) =>
      if p.driver.connected && (ok || delivered) then
        w.channels[p.channel := Push(w.channels[p.channel], CountDatabaseRequest)]
      else w.channels
    case SendRequest(ok) =>
      if p.driver.connected && (ok || delivered) then
        w.channels[p.channel := Push(w.channels[p.channel], Requests.Meaning(d.request))]
      else w.channels
    case ReceiveCount(reply) => Popped(w, p, reply)
    case ReceiveReply(reply) => Popped(w, p, reply)
    case _ => w.channels
  }

  function Popped(w: World, p: Peer, reply: Option<Responses.Response>): seq<Channel>
    requires p.driver.connected ==> p.channel < |w.channels|
  {
    if reply.Some? && p.driver.connected && w.channels[p.channel].replies != [] then
      w.channels[p.channel := w.channels[p.channel].(replies := w.channels[p.channel].replies[1..])]
    else w.channels
  }

  /** A reply that is received is the next one on the connection; nothing is received from nowhere. */
  predicate Arrives(w: World, p: Peer, event: Driver.Event)
    requires p.driver.connected ==> p.channel < |w.channels|
  {
    var reply := match event case ReceiveCount(r) => r case ReceiveReply(r) => r case _ => None;
    reply.Some? ==>
      && p.driver.connected && w.channels[p.channel].replies != []
      && reply.value == Responses.Seen(w.channels[p.channel].replies[0].response)
  }

  function PeerAfter(w: World, p: Peer, event: Driver.Event, d: Driver.DriverState): Peer {
    match event
    case Dial => Peer(d, |w.channels|, false)
    case Return(cancelled) =>
      var uncounted := cancelled && p.driver.phase.Answered? && Driver.Counts(p.driver.request, p.driver.phase.response);
      Peer(d, p.channel, p.stale || uncounted)
    case _ => Peer(d, p.channel, p.stale)
  }

  ghost predicate Acts(w: World, k: nat, event: Driver.Event, delivered: bool, w': World) {
    && k < |w.peers|
    && var p := w.peers[k];
    && (p.driver.connected ==> p.channel < |w.channels|)
    && var d := Driver.Next(p.driver, event);
    && d.Some? && Arrives(w, p, event)
    && w' == w.(channels := ChannelsAfter(w, p, k, event, delivered, d.value),
                peers := w.peers[k := PeerAfter(w, p, event, d.value)])
  }

  ghost predicate Serves(w: World, env: Environment, delivered: bool, w': World) {
    && w.serving && 0 < w.accepted <= |w.channels| && Tidy(w.server)
    && var c := w.accepted - 1;
    && w.channels[c].requests != []
    && var m := w.channels[c].requests[0];
    && var h := HandleTidy(w.server, m.request, env);
    // A request that is not answered ends the process; that is a restart.
    && Wire.IsAnswered(h)
    && w' == w.(server := h.server,
                serving := m.request != CloseRequest,
                channels := w.channels[c := Served(w.channels[c], Wire.Answer(h), delivered)],
                writers := w.writers
                           + if IsAccepted(m.request, h) then [Writer(c, m.number, EntryOf(m.request, env.now))] else [],
                log := w.log + if IsAccepted(m.request, h) then [EntryOf(m.request, env.now)] else [])
  }

  ghost predicate Step(w: World, what: Happening, w': World) {
    match what
    case Act(k, event, delivered) => Acts(w, k, event, delivered, w')
    case Accept => !w.serving && w.accepted < |w.channels| && w' == w.(serving := true, accepted := w.accepted + 1)
    case Serve(env, delivered) => Serves(w, env, delivered, w')
    case HangUp => w' == w.(serving := false)
    case Lose(c, requests, replies) =>
      && c < |w.channels|
      && var ch := w.channels[c];
      var left := ch.(requests := if requests then [] else ch.requests, replies := if replies then [] else ch.replies);
      w' == w.(channels := w.channels[c := left])
    case Restart(server, log) =>
      && Tidy(server) && FileHolds(server, log)
      && w' == w.(server := server, serving := false, accepted := |w.channels|, log := log, epoch := |w.channels|)
  }

  ghost predicate Initially(w: World) {
    && Tidy(w.server) && FileHolds(w.server, w.log)
    && !w.serving && w.accepted == w.epoch == 0 && w.channels == [] && w.writers == []
    && forall p | p in w.peers :: p.driver == Driver.Initial() && !p.stale
  }

  ghost predicate Run(worlds: seq<World>, what: seq<Happening>) {
    && |worlds| == |what| + 1 && Initially(worlds[0])
    && forall i | 0 <= i < |what| :: Step(worlds[i], what[i], worlds[i + 1])
  }

  // ----- the invariant -----

  /** What was written is what this request asked for, under the number it named. */
  predicate WrittenFor(writer: Writer, c: nat, number: nat, request: Request) {
    && writer.channel == c && writer.number == number
    && OperationOf(request) == Some(writer.record.operation) && WalId(request) == writer.record.id
  }

  /** The request wrote a record. */
  predicate Wrote(writers: seq<Writer>, c: nat, number: nat, request: Request) {
    exists i | 0 <= i < |writers| :: WrittenFor(writers[i], c, number, request)
  }

  predicate WroteNothing(writers: seq<Writer>, c: nat, number: nat) {
    forall i | 0 <= i < |writers| :: writers[i].channel != c || writers[i].number != number
  }

  /** At most one request is in flight on a connection, the last one sent, and it has written nothing yet. */
  predicate ChannelOk(writers: seq<Writer>, c: nat, ch: Channel) {
    && |ch.requests| + |ch.replies| <= 1
    && (ch.requests != [] ==>
          ch.sent > 0 && ch.requests[0].number == ch.sent - 1 && WroteNothing(writers, c, ch.sent - 1))
    && (ch.replies != [] ==> ch.sent > 0 && ch.replies[0].number == ch.sent - 1)
    && forall i | 0 <= i < |writers| && writers[i].channel == c :: writers[i].number < ch.sent
  }

  /** No request wrote two records. */
  predicate WriteOnce(writers: seq<Writer>) {
    forall i, j | 0 <= i < j < |writers| ::
      writers[i].channel != writers[j].channel || writers[i].number != writers[j].number
  }

  function Lag(p: Peer): nat {
    if p.stale then 1 else 0
  }

  /** While its connection is the served one, the driver's counter is this far behind the server's. */
  predicate Behind(w: World, p: Peer, n: nat) {
    Live(w, p.channel) ==> w.server.transactions == p.driver.counter + n
  }

  /** A reply to the driver's request, in flight or arrived: an accepted one wrote one record and is one more to count. */
  predicate ReplyOk(w: World, p: Peer, ch: Channel, response: Responses.Response) {
    var d := p.driver;
    && Behind(w, p, Lag(p) + if Driver.Counts(d.request, response) then 1 else 0)
    && (Driver.Counts(d.request, response) ==>
          !p.stale && ch.sent > 0 && Wrote(w.writers, p.channel, ch.sent - 1, Requests.Meaning(d.request)))
  }

  predicate ConnectionOk(w: World, p: Peer, ch: Channel) {
    var d := p.driver;
    match d.phase
    case Dialing => true
    case Dialed => !p.stale && ch.requests == [] && ch.replies == []
    case Greeting =>
      && !p.stale
      && (ch.requests != [] ==> ch.requests[0].request == CountDatabaseRequest)
      && (ch.replies != [] ==>
            && p.channel < w.accepted && ch.replies[0].response.CountDatabaseResponse?
            && (Live(w, p.channel) ==> w.server.transactions == ch.replies[0].response.entries))
    case Waiting =>
      && p.channel < w.accepted
      && (ch.requests != [] ==>
            && ch.requests[0].request == Requests.Meaning(d.request)
            && (Requests.IsWalRequest(d.request) ==> d.request.walId == d.counter)
            && Behind(w, p, Lag(p)))
      && (ch.replies != [] ==> ReplyOk(w, p, ch, Responses.Seen(ch.replies[0].response)))
    case Answered(response) =>
      p.channel < w.accepted && ch.requests == [] && ch.replies == [] && ReplyOk(w, p, ch, response)
    case _ =>
      p.channel < w.accepted && ch.requests == [] && ch.replies == [] && Behind(w, p, Lag(p))
  }

  predicate Engaged(phase: Driver.Phase) {
    phase.Dialed? || phase.Greeting? || phase.Ready? || phase.Waiting? || phase.Answered?
  }

  predicate PeerOk(w: World, k: nat)
    requires k < |w.peers|
  {
    var p := w.peers[k];
    && (p.driver.phase.Dialing? ==> !p.driver.connected)
    && (Engaged(p.driver.phase) ==> p.driver.connected)
    && (p.driver.connected ==>
          && p.channel < |w.channels| && w.channels[p.channel].owner == k
          && ConnectionOk(w, p, w.channels[p.channel]))
  }

  /** Everything written since the server last started is in the file, each record at its own number. */
  ghost predicate LogOk(w: World) {
    && FileHolds(w.server, w.log)
    && w.epoch <= w.accepted && (w.serving ==> w.epoch < w.accepted)
    && forall i | 0 <= i < |w.writers| && w.epoch <= w.writers[i].channel ::
         w.writers[i].record.id < |w.log| && w.log[w.writers[i].record.id] == w.writers[i].record
  }

  ghost predicate Invariant(w: World) {
    && LogOk(w)
    && Tidy(w.server) && w.accepted <= |w.channels| && (w.serving ==> w.accepted > 0)
    && WriteOnce(w.writers)
    && (forall i | 0 <= i < |w.writers| :: w.writers[i].channel < |w.channels|)
    && (forall c | 0 <= c < |w.channels| :: ChannelOk(w.writers, c, w.channels[c]))
    && (forall k | 0 <= k < |w.peers| :: PeerOk(w, k))
  }

  lemma InitiallyHolds(w: World)
    requires Initially(w)
    ensures Invariant(w)
  {}

  // ----- steps that touch no driver -----

  lemma SameLog(w: World, w': World)
    requires LogOk(w) && w'.server == w.server && w'.log == w.log && w'.writers == w.writers && w'.epoch == w.epoch
    requires w'.epoch <= w'.accepted && (w'.serving ==> w'.epoch < w'.accepted)
    ensures LogOk(w')
  {
    hide FileHolds;
  }

  lemma EpochStays(w: World)
    requires LogOk(w)
    ensures w.epoch <= w.accepted && (w.serving ==> w.epoch < w.accepted)
  {}

  lemma AcceptKeeps(w: World, w': World)
    requires Invariant(w) && Step(w, Accept, w')
    ensures Invariant(w')
  {
    hide LogOk, WriteOnce, Wrote, Tidy, Driver.Counts, Requests.Meaning, Requests.IsWalRequest, Responses.Seen;
    EpochStays(w);
    SameLog(w, w');
    forall k | 0 <= k < |w'.peers| ensures PeerOk(w', k) {
      assert PeerOk(w, k);
    }
  }

  lemma HangUpKeeps(w: World, w': World)
    requires Invariant(w) && Step(w, HangUp, w')
    ensures Invariant(w')
  {
    hide LogOk, WriteOnce, Wrote, Tidy, Driver.Counts, Requests.Meaning, Requests.IsWalRequest, Responses.Seen;
    EpochStays(w);
    SameLog(w, w');
    forall k | 0 <= k < |w'.peers| ensures PeerOk(w', k) {
      assert PeerOk(w, k);
    }
  }

  lemma RestartKeeps(w: World, server: Server, log: seq<Record>, w': World)
    requires Invariant(w) && Step(w, Restart(server, log), w')
    ensures Invariant(w')
  {
    hide FileHolds, WriteOnce, Wrote, Tidy, Driver.Counts, Requests.Meaning, Requests.IsWalRequest, Responses.Seen;
    assert forall i | 0 <= i < |w.writers| :: w.writers[i].channel < |w.channels|;
    assert LogOk(w');
    hide LogOk;
    forall k | 0 <= k < |w'.peers| ensures PeerOk(w', k) {
      assert PeerOk(w, k);
    }
  }

  lemma LoseKeeps(w: World, c: nat, requests: bool, replies: bool, w': World)
    requires Invariant(w) && Step(w, Lose(c, requests, replies), w')
    ensures Invariant(w')
  {
    hide LogOk, WriteOnce, Wrote, Tidy, Driver.Counts, Requests.Meaning, Requests.IsWalRequest, Responses.Seen;
    EpochStays(w);
    SameLog(w, w');
    forall k | 0 <= k < |w'.peers| ensures PeerOk(w', k) {
      assert PeerOk(w, k);
    }
    forall i | 0 <= i < |w'.channels| ensures ChannelOk(w'.writers, i, w'.channels[i]) {
      assert ChannelOk(w.writers, i, w.channels[i]);
    }
  }

  // ----- serving a request -----

  /** One more writer: the request that was in flight, which had written nothing. */
  lemma WriterAdded(writers: seq<Writer>, c: nat, ch: Channel, record: Record, response: Response, delivered: bool)
    requires ChannelOk(writers, c, ch) && ch.requests != [] && WriteOnce(writers)
    ensures var number := ch.requests[0].number;
            && WriteOnce(writers + [Writer(c, number, record)])
            && ChannelOk(writers, c, Served(ch, response, delivered))
            && ChannelOk(writers + [Writer(c, number, record)], c, Served(ch, response, delivered))
  {}

  lemma OtherWriterAdded(writers: seq<Writer>, c: nat, ch: Channel, writer: Writer)
    requires ChannelOk(writers, c, ch) && writer.channel != c
    ensures ChannelOk(writers + [writer], c, ch)
  {}

  lemma ServeKeepsChannels(w: World, env: Environment, delivered: bool, w': World)
    requires Invariant(w) && Serves(w, env, delivered, w')
    ensures WriteOnce(w'.writers)
    ensures forall i | 0 <= i < |w'.writers| :: w'.writers[i].channel < |w'.channels|
    ensures forall i | 0 <= i < |w'.channels| :: ChannelOk(w'.writers, i, w'.channels[i])
  {
    hide HandleTidy, Wire.IsAnswered, Wire.Answer, WalId, Tidy, PeerOk, WriteOnce, ChannelOk, OperationOf, Served;
    var c := w.accepted - 1;
    var ch := w.channels[c];
    assert ChannelOk(w.writers, c, ch);
    var m := ch.requests[0];
    var h := HandleTidy(w.server, m.request, env);
    var entry := if IsAccepted(m.request, h) then EntryOf(m.request, env.now) else Record(0, 0, UpdateAccount(0, 0));
    WriterAdded(w.writers, c, ch, entry, Wire.Answer(h), delivered);
    assert w.writers + [] == w.writers;
    forall i | 0 <= i < |w'.channels| ensures ChannelOk(w'.writers, i, w'.channels[i]) {
      assert ChannelOk(w.writers, i, w.channels[i]);
      if i != c {
        OtherWriterAdded(w.writers, i, w.channels[i], Writer(c, m.number, entry));
      }
    }
  }

  lemma ServeKeepsLog(w: World, env: Environment, delivered: bool, w': World)
    requires Invariant(w) && Serves(w, env, delivered, w')
    ensures LogOk(w')
  {
    hide HandleTidy, Wire.IsAnswered, Wire.Answer, PeerOk, WriteOnce, ChannelOk, OperationOf, Served, Image, EncodeRecord,
      WalId;
    var m := w.channels[w.accepted - 1].requests[0];
    AnsweredMeans(w.server, m.request, env);
    var h := HandleTidy(w.server, m.request, env);
    if IsAccepted(m.request, h) {
      ImageAppend(w.log, EntryOf(m.request, env.now));
      assert |Image(w.log)| == RecordOffset(|w.log|);
    } else {
      assert w.log + [] == w.log && w.writers + [] == w.writers;
    }
  }

  /** What serving does to the driver that waits on the served connection. */
  lemma ServedPeer(w: World, k: nat, env: Environment, delivered: bool, w': World)
    requires Invariant(w) && Serves(w, env, delivered, w') && k < |w.peers|
    requires w.peers[k].driver.connected && w.peers[k].channel == w.accepted - 1
    ensures PeerOk(w', k)
  {
    hide HandleTidy, Wire.IsAnswered, Wire.Answer, WalId, Tidy, OperationOf, ChangesBy, WriteOnce, LogOk, Wrote, EntryOf,
      Requests.Meaning, Responses.Seen;
    var p := w.peers[k];
    var c := p.channel;
    var ch := w.channels[c];
    assert PeerOk(w, k) && ChannelOk(w.writers, c, ch);
    var m := ch.requests[0];
    var h := HandleTidy(w.server, m.request, env);
    if p.driver.phase.Greeting? {
      CountServed(w.server, env);
    } else {
      assert p.driver.phase.Waiting?;
      RequestServed(w.server, p.driver.request, p.driver.counter, Lag(p), env);
      if IsAccepted(m.request, h) {
        WroteNow(w.writers, c, m.number, m.request, env.now);
      }
    }
  }

  lemma CountServed(s: Server, env: Environment)
    requires Tidy(s) && Wire.IsAnswered(HandleTidy(s, CountDatabaseRequest, env))
    ensures var h := HandleTidy(s, CountDatabaseRequest, env);
            && h.server == s && Wire.Answer(h).CountDatabaseResponse? && Wire.Answer(h).entries == s.transactions
  {
    CountIsAnswered(s, env);
    hide HandleTidy;
  }

  lemma LoggedRequests(request: Requests.Command)
    ensures Requests.IsWalRequest(request) <==> OperationOf(Requests.Meaning(request)).Some?
    ensures Requests.IsWalRequest(request) ==> WalId(Requests.Meaning(request)) == request.walId
  {}

  /** What has been written stays written, and an accepted request writes what it asked for. */
  lemma WroteMore(writers: seq<Writer>, more: seq<Writer>, c: nat, number: nat, request: Request)
    ensures Wrote(writers, c, number, request) ==> Wrote(writers + more, c, number, request)
  {
    hide WrittenFor;
    if Wrote(writers, c, number, request) {
      var i :| 0 <= i < |writers| && WrittenFor(writers[i], c, number, request);
      assert (writers + more)[i] == writers[i];
    }
  }

  lemma WroteNow(writers: seq<Writer>, c: nat, number: nat, request: Request, now: i64)
    requires OperationOf(request).Some?
    ensures Wrote(writers + [Writer(c, number, EntryOf(request, now))], c, number, request)
  {
    var all := writers + [Writer(c, number, EntryOf(request, now))];
    assert WrittenFor(all[|writers|], c, number, request);
  }

  lemma SeenErrors(response: Response)
    ensures Responses.Seen(response).Error? <==> response.ErrorResponse?
  {}

  lemma RequestServed(s: Server, request: Requests.Command, counter: u64, lag: nat, env: Environment)
    requires Tidy(s) && Wire.IsAnswered(HandleTidy(s, Requests.Meaning(request), env))
    requires Requests.IsWalRequest(request) ==> request.walId == counter
    requires s.transactions == counter + lag
    ensures var h := HandleTidy(s, Requests.Meaning(request), env);
            var counts := Driver.Counts(request, Responses.Seen(Wire.Answer(h)));
            && Tidy(h.server)
            && h.server.transactions == counter + lag + (if counts then 1 else 0)
            && (counts <==> IsAccepted(Requests.Meaning(request), h))
            && (counts ==> lag == 0 && WalId(Requests.Meaning(request)) == request.walId)
  {
    AnsweredMeans(s, Requests.Meaning(request), env);
    LoggedRequests(request);
    SeenErrors(Wire.Answer(HandleTidy(s, Requests.Meaning(request), env)));
    hide HandleTidy, Tidy, Wire.Answer, Wire.IsAnswered, OperationOf, WalId, Requests.Meaning, Responses.Seen;
  }

  lemma OtherPeer(w: World, k: nat, env: Environment, delivered: bool, w': World)
    requires Invariant(w) && Serves(w, env, delivered, w') && k < |w.peers|
    requires w.peers[k].driver.connected ==> w.peers[k].channel != w.accepted - 1
    ensures PeerOk(w', k)
  {
    hide HandleTidy, Wire.IsAnswered, Wire.Answer, WalId, Tidy, ChannelOk, WriteOnce, LogOk, Wrote, EntryOf,
      Requests.Meaning, Driver.Counts;
    assert PeerOk(w, k);
    var p := w.peers[k];
    if p.driver.connected && w.channels[p.channel].sent > 0 {
      var m := w.channels[w.accepted - 1].requests[0];
      var h := HandleTidy(w.server, m.request, env);
      WroteMore(w.writers, if IsAccepted(m.request, h) then [Writer(w.accepted - 1, m.number, EntryOf(m.request, env.now))]
                           else [],
                p.channel, w.channels[p.channel].sent - 1, Requests.Meaning(p.driver.request));
    }
  }

  lemma ServeKeeps(w: World, env: Environment, delivered: bool, w': World)
    requires Invariant(w) && Step(w, Serve(env, delivered), w')
    ensures Invariant(w')
  {
    hide HandleTidy, Wire.IsAnswered, Wire.Answer, WalId, Tidy, PeerOk, ChannelOk, WriteOnce, LogOk, OperationOf, EntryOf,
      EncodeRecord, Served;
    ServeKeepsChannels(w, env, delivered, w');
    ServeKeepsLog(w, env, delivered, w');
    AnsweredMeans(w.server, w.channels[w.accepted - 1].requests[0].request, env);
    forall k | 0 <= k < |w'.peers| ensures PeerOk(w', k) {
      if w.peers[k].driver.connected && w.peers[k].channel == w.accepted - 1 {
        ServedPeer(w, k, env, delivered, w');
      } else {
        OtherPeer(w, k, env, delivered, w');
      }
    }
  }

  // ----- what a driver does -----

  /** Only the driver's own connection changes, or a new one appears. */
  lemma ChannelsOfAct(w: World, k: nat, event: Driver.Event, delivered: bool, w': World)
    requires Invariant(w) && Acts(w, k, event, delivered, w')
    ensures |w.channels| <= |w'.channels|
    ensures forall c | 0 <= c < |w.channels| && !(w.peers[k].driver.connected && w.peers[k].channel == c) ::
              w'.channels[c] == w.channels[c]
    ensures forall c | |w.channels| <= c < |w'.channels| :: w'.channels[c] == Channel(k, 0, [], [])
    ensures forall c | 0 <= c < |w.channels| :: w'.channels[c].owner == w.channels[c].owner
  {
    hide PeerOk, ChannelOk, WriteOnce, Tidy, Driver.Next, Requests.Meaning;
  }

  lemma ActKeepsOthers(w: World, k: nat, event: Driver.Event, delivered: bool, w': World, j: nat)
    requires Invariant(w) && Acts(w, k, event, delivered, w') && j < |w.peers| && j != k
    ensures PeerOk(w', j)
  {
    hide ChannelOk, WriteOnce, Tidy, Driver.Next, PeerAfter, Arrives, Requests.Meaning, LogOk, Wrote, Driver.Counts,
      Requests.IsWalRequest, Responses.Seen;
    ChannelsOfAct(w, k, event, delivered, w');
    assert PeerOk(w, j) && PeerOk(w, k);
    hide ChannelsAfter;
  }

  lemma ActKeepsChannels(w: World, k: nat, event: Driver.Event, delivered: bool, w': World)
    requires Invariant(w) && Acts(w, k, event, delivered, w')
    ensures forall c | 0 <= c < |w'.channels| :: ChannelOk(w'.writers, c, w'.channels[c])
  {
    ChannelsOfAct(w, k, event, delivered, w');
    forall c | 0 <= c < |w'.channels| ensures ChannelOk(w'.writers, c, w'.channels[c]) {
      if c >= |w.channels| {
        assert w'.channels[c] == Channel(k, 0, [], []);
      } else if w.peers[k].driver.connected && w.peers[k].channel == c {
        OwnChannel(w, k, event, delivered, w');
      } else {
        assert ChannelOk(w.writers, c, w.channels[c]);
      }
    }
  }

  lemma OwnChannel(w: World, k: nat, event: Driver.Event, delivered: bool, w': World)
    requires Invariant(w) && Acts(w, k, event, delivered, w') && w.peers[k].driver.connected
    ensures w.peers[k].channel < |w'.channels|
    ensures ChannelOk(w'.writers, w.peers[k].channel, w'.channels[w.peers[k].channel])
  {
    hide WriteOnce, Tidy, Requests.Meaning, ReplyOk, Behind, LogOk;
    var c := w.peers[k].channel;
    assert PeerOk(w, k) && ChannelOk(w.writers, c, w.channels[c]);
  }

  /** A request is stamped with the counter when it is sent. */
  lemma StampedCarries(request: Requests.Command, counter: u64)
    ensures Requests.IsWalRequest(Driver.Stamped(request, counter)) ==> Driver.Stamped(request, counter).walId == counter
  {}

  lemma ActKeepsItself(w: World, k: nat, event: Driver.Event, delivered: bool, w': World)
    requires Invariant(w) && Acts(w, k, event, delivered, w')
    ensures PeerOk(w', k)
  {
    hide WriteOnce, Requests.Meaning, Wrote, RecordOffset, Driver.Stamped, Driver.Counts, LogOk;
    var p := w.peers[k];
    assert PeerOk(w, k);
    if p.driver.connected {
      assert ChannelOk(w.writers, p.channel, w.channels[p.channel]);
    }
    StampedCarries(p.driver.request, p.driver.counter);
    TidyIsSmall(w.server);
    hide Tidy;
    match event
    case Return(cancelled) =>
    case SendRequest(ok) =>
    case ReceiveReply(reply) =>
    case ReceiveCount(reply) =>
    case _ =>
  }

  lemma ActKeeps(w: World, k: nat, event: Driver.Event, delivered: bool, w': World)
    requires Invariant(w) && Step(w, Act(k, event, delivered), w')
    ensures Invariant(w')
  {
    ChannelsOfAct(w, k, event, delivered, w');
    EpochStays(w);
    SameLog(w, w');
    ActKeepsChannels(w, k, event, delivered, w');
    forall j | 0 <= j < |w'.peers| ensures PeerOk(w', j) {
      if j == k {
        ActKeepsItself(w, k, event, delivered, w');
      } else {
        ActKeepsOthers(w, k, event, delivered, w', j);
      }
    }
    hide ChannelOk, WriteOnce, Tidy, Driver.Next, ChannelsAfter, PeerAfter, Arrives, PeerOk, LogOk;
  }

  lemma StepKeeps(w: World, what: Happening, w': World)
    requires Invariant(w) && Step(w, what, w')
    ensures Invariant(w')
  {
    hide Invariant, Step;
    match what
    case Act(k, event, delivered) => ActKeeps(w, k, event, delivered, w');
    case Accept => AcceptKeeps(w, w');
    case Serve(env, delivered) => ServeKeeps(w, env, delivered, w');
    case HangUp => HangUpKeeps(w, w');
    case Lose(c, requests, replies) => LoseKeeps(w, c, requests, replies, w');
    case Restart(server, log) => RestartKeeps(w, server, log, w');
  }

  /** Every interleaving keeps the invariant. */
  lemma {:induction false} RunKeeps(worlds: seq<World>, what: seq<Happening>, n: nat)
    requires Run(worlds, what) && n < |worlds|
    ensures Invariant(worlds[n])
    decreases n
  {
    if n == 0 {
      InitiallyHolds(worlds[0]);
    } else {
      RunKeeps(worlds, what, n - 1);
      StepKeeps(worlds[n - 1], what[n - 1], worlds[n]);
    }
  }
}
