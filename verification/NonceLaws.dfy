/** What drivers may rely on: their counters, their replies, and the one way a counter falls behind. */
module NonceLaws {
  import opened Common
  import opened Errors
  import opened Ledger
  import opened Protocol
  import opened Layout
  import opened Log
  import opened Wal
  import opened Server
  import opened Nonces
  import Requests
  import Responses
  import Driver
  import Wire
  import Uint128

  /**
   In every reachable state, a resting driver on the connection being served knows the server's counter, or is exactly one
   behind it; it is never ahead.
   */
  lemma RestingCounter(worlds: seq<World>, what: seq<Happening>, n: nat, k: nat)
    requires Run(worlds, what) && n < |worlds| && k < |worlds[n].peers|
    requires var p := worlds[n].peers[k];
             p.driver.phase.Resting? && p.driver.connected && Live(worlds[n], p.channel)
    ensures var p, transactions := worlds[n].peers[k], worlds[n].server.transactions;
            && p.driver.counter <= transactions
            && (p.driver.counter == transactions <==> !p.stale)
            && (p.stale ==> transactions == p.driver.counter + 1)
  {
    hide Run, ChannelOk, WriteOnce, Tidy;
    RunKeeps(worlds, what, n);
    assert PeerOk(worlds[n], k);
  }

  /**
   A driver falls behind in one way only: its context was done when the reply to an accepted request had arrived. It
   catches up in one way only: with a new connection.
   */
  lemma StalenessChanges(w: World, what: Happening, w': World, k: nat)
    requires Step(w, what, w') && k < |w.peers| && w.peers[k].stale != w'.peers[k].stale
    ensures what.Act? && what.k == k
    ensures w'.peers[k].stale ==>
              && what.event == Driver.Return(true) && w.peers[k].driver.phase.Answered?
              && Driver.Counts(w.peers[k].driver.request, w.peers[k].driver.phase.response)
    ensures w.peers[k].stale ==> what.event.Dial?
  {
    hide HandleTidy, Tidy, Driver.Counts, Driver.Next;
  }

  /** Such a return really leaves the driver behind on a connection that it keeps. */
  lemma CancelledReturnFallsBehind(w: World, k: nat, w': World)
    requires Invariant(w) && Step(w, Act(k, Driver.Return(true), false), w')
    requires var p := w.peers[k];
             Live(w, p.channel) && p.driver.phase.Answered? && Driver.Counts(p.driver.request, p.driver.phase.response)
    ensures var p := w'.peers[k];
            p.stale && p.driver.connected && Live(w', p.channel) && w'.server.transactions == p.driver.counter + 1
  {
    hide ChannelOk, WriteOnce, Tidy, Driver.Counts, Wrote, LogOk, Requests.Meaning, Responses.Seen;
    assert PeerOk(w, k);
  }

  /** From then on every logged request on that connection is refused and changes nothing. */
  lemma StaleIsRefused(w: World, k: nat, env: Environment, delivered: bool, w': World)
    requires Invariant(w) && Step(w, Serve(env, delivered), w') && k < |w.peers|
    requires var p := w.peers[k];
             && p.stale && p.driver.phase.Waiting? && Requests.IsWalRequest(p.driver.request) && Live(w, p.channel)
    ensures w'.server == w.server && w'.writers == w.writers
    ensures delivered ==>
              && |w'.channels[w.peers[k].channel].replies| == 1
              && w'.channels[w.peers[k].channel].replies[0].response.ErrorResponse?
  {
    hide HandleTidy, Tidy, WriteOnce, Wire.IsAnswered, OperationOf, WalId, ReplyOk, Wire.Answer, LogOk, EntryOf,
      Requests.Meaning;
    var p := w.peers[k];
    var ch := w.channels[p.channel];
    assert PeerOk(w, k) && ChannelOk(w.writers, p.channel, ch);
    StaleRequestFails(w.server, p.driver.request, p.driver.counter, env);
  }

  lemma StaleRequestFails(s: Server, request: Requests.Command, counter: u64, env: Environment)
    requires Tidy(s) && Requests.IsWalRequest(request) && request.walId == counter
    requires s.transactions == counter + 1
    requires Wire.IsAnswered(HandleTidy(s, Requests.Meaning(request), env))
    ensures var h := HandleTidy(s, Requests.Meaning(request), env);
            !IsAccepted(Requests.Meaning(request), h) && h.server == s && Wire.Answer(h).ErrorResponse?
  {
    AnsweredMeans(s, Requests.Meaning(request), env);
    LoggedRequests(request);
    hide HandleTidy, Tidy, Wire.Answer, Wire.IsAnswered, OperationOf, WalId, Requests.Meaning;
  }

  /** A driver that is not behind is never refused for its sequence number. */
  lemma FreshNumberIsRight(w: World, k: nat, env: Environment)
    requires Invariant(w) && k < |w.peers|
    requires var p := w.peers[k];
             && !p.stale && p.driver.phase.Waiting? && Requests.IsWalRequest(p.driver.request) && Live(w, p.channel)
    ensures var p := w.peers[k];
            && p.channel < |w.channels|
            && (w.channels[p.channel].requests != [] ==>
                  && w.channels[p.channel].requests[0].request == Requests.Meaning(p.driver.request)
                  && p.driver.request.walId == w.server.transactions
                  && HandleTidy(w.server, Requests.Meaning(p.driver.request), env).outcome
                     != Err(StorageFault(WalNonceMismatch)))
  {
    hide Tidy, WriteOnce, ChannelOk, ReplyOk, HandleTidy;
    assert PeerOk(w, k);
    if w.channels[w.peers[k].channel].requests != [] {
      RightNumberIsAccepted(w.server, w.peers[k].driver.request, env);
    }
  }

  lemma RightNumberIsAccepted(s: Server, request: Requests.Command, env: Environment)
    requires Tidy(s) && Requests.IsWalRequest(request) && request.walId == s.transactions
    ensures HandleTidy(s, Requests.Meaning(request), env).outcome != Err(StorageFault(WalNonceMismatch))
  {
    TidyIsSmall(s);
    hide Append, Apply, Tidy;
  }

  /** The file reads as this log, and has one record with this number. */
  ghost predicate ReadsOnce(s: Server, log: seq<Record>, id: u64, record: Record) {
    && HEADER_LENGTH <= |s.disk.bytes| && Scan(s.disk.bytes[HEADER_LENGTH..]) == Scanned(log, AtEnd)
    && id < |log| && log[id] == record
    && forall j | 0 <= j < |log| && log[j].id == id :: j == id
  }

  /**
   Every accepted reply that reaches a driver stands for exactly one record, written by exactly the request it answers: its
   operation is the request's and its number the one the request carried. Until the server restarts, the file reads back
   with this record at that number, and with no other of that number.
   */
  lemma AcceptedReplyWroteOnce(worlds: seq<World>, what: seq<Happening>, n: nat, k: nat) returns (i: nat)
    requires Run(worlds, what) && n < |worlds| && k < |worlds[n].peers|
    requires var d := worlds[n].peers[k].driver; d.phase.Answered? && Driver.Counts(d.request, d.phase.response)
    ensures var w, p := worlds[n], worlds[n].peers[k];
            && p.channel < |w.channels| && w.channels[p.channel].owner == k && w.channels[p.channel].sent > 0
            && var number := w.channels[p.channel].sent - 1;
            && i < |w.writers| && WrittenFor(w.writers[i], p.channel, number, Requests.Meaning(p.driver.request))
            && (forall j | 0 <= j < |w.writers| && w.writers[j].channel == p.channel && w.writers[j].number == number ::
                  j == i)
            && (w.epoch <= p.channel ==> ReadsOnce(w.server, w.log, w.writers[i].record.id, w.writers[i].record))
  {
    hide Run, ChannelOk, Tidy, Requests.Meaning, WrittenFor, Scan, Image;
    RunKeeps(worlds, what, n);
    var w, p := worlds[n], worlds[n].peers[k];
    assert PeerOk(w, k);
    var number := w.channels[p.channel].sent - 1;
    var request := Requests.Meaning(p.driver.request);
    i :| 0 <= i < |w.writers| && WrittenFor(w.writers[i], p.channel, number, request);
    WriterOf(w.writers[i], p.channel, number, request);
    FileReads(w.server, w.log);
  }

  lemma WriterOf(writer: Writer, c: nat, number: nat, request: Request)
    requires WrittenFor(writer, c, number, request)
    ensures writer.channel == c && writer.number == number
  {}

  lemma FileReads(s: Server, log: seq<Record>)
    requires FileHolds(s, log)
    ensures HEADER_LENGTH <= |s.disk.bytes| && Scan(s.disk.bytes[HEADER_LENGTH..]) == Scanned(log, AtEnd)
  {
    hide Records, Header;
    ScanImage(log, []);
    assert Image(log)[HEADER_LENGTH..] == Records(log) + [];
    assert log + [] == log;
  }

  /** While a connection is being served, nothing but its own requests moves the log. */
  lemma OnlyTheServedWrites(w: World, what: Happening, w': World, c: nat)
    requires Invariant(w) && Step(w, what, w') && Live(w, c) && Live(w', c)
    ensures w'.server.transactions != w.server.transactions ==>
              && what.Serve? && w'.server.transactions == w.server.transactions + 1
              && w.channels[c].requests != [] && OperationOf(w.channels[c].requests[0].request).Some?
              && var entry := EntryOf(w.channels[c].requests[0].request, what.env.now);
              && entry.id == w.server.transactions && w'.log == w.log + [entry]
              && w'.writers == w.writers + [Writer(c, w.channels[c].sent - 1, entry)]
    ensures w'.server.transactions == w.server.transactions ==> w'.writers == w.writers && w'.log == w.log
  {
    hide HandleTidy, Tidy, PeerOk, WriteOnce, Wire.IsAnswered, Wire.Answer, OperationOf, Driver.Next, LogOk, EncodeRecord,
      ChannelsAfter, PeerAfter, Arrives, Served;
    if what.Serve? {
      assert ChannelOk(w.writers, c, w.channels[c]);
      AnsweredMeans(w.server, w.channels[c].requests[0].request, what.env);
    }
  }

  // ----- the exception is real -----

  const ONE_ADD: Requests.Command := Requests.AddAccount(0, Uint128.Uint128(0, 0), Uint128.Uint128(0, 0), 0)
  const FIRST: Record := Record(0, 1, AddAccount(0, 0, 0))
  const FRIENDLY: Environment := Environment(1, 1, true, RECORD_LENGTH, true)

  function EmptyServer(): (s: Server)
    ensures Tidy(s) && FileHolds(s, []) && s.accounts == [] && s.transactions == 0
  {
    assert Image([]) == Header();
    Server([], 0, Disk(Header(), Header(), |Header()|))
  }

  lemma AddSucceeds(s: Server)
    requires Tidy(s) && s.transactions == 0 && s.accounts == [] && |s.disk.bytes| == 10
    ensures HandleTidy(s, Requests.Meaning(ONE_ADD), FRIENDLY).outcome == Ok(AddAccountResponse(0))
  {
    TidyIsSmall(s);
    hide Append;
  }

  lemma CountSucceeds(s: Server)
    requires Tidy(s) && s.transactions == 0 && s.accounts == []
    ensures HandleTidy(s, CountDatabaseRequest, FRIENDLY) == Handled(s, Ok(CountDatabaseResponse(0, 0)))
  {
    TidyIsSmall(s);
  }

  function At(phase: Driver.Phase): Driver.DriverState {
    Driver.DriverState(phase, true, 0, ONE_ADD)
  }

  /** A world of one driver and its only connection. */
  function Alone(s: Server, accepted: nat, ch: Channel, d: Driver.DriverState, stale: bool, log: seq<Record>): World {
    World(s, accepted > 0, accepted, [ch], [Peer(d, 0, stale)], if log == [] then [] else [Writer(0, 1, log[0])], log, 0)
  }

  lemma One<T>(a: T, b: T)
    ensures [a][0 := b] == [b] && [a][1..] == [] && [] + [a] == [a]
  {}

  lemma DialSteps(s: Server) returns (worlds: seq<World>, what: seq<Happening>)
    requires Tidy(s) && FileHolds(s, [])
    ensures Run(worlds, what) && worlds != []
    ensures worlds[|worlds| - 1] == Alone(s, 0, Channel(0, 0, [], []), At(Driver.Dialed), false, [])
  {
    hide Tidy, FileHolds;
    var d := Driver.Initial();
    var w0 := World(s, false, 0, [], [Peer(d, 0, false)], [], [], 0);
    var w1 := w0.(peers := [Peer(d.(phase := Driver.Trying, request := ONE_ADD), 0, false)]);
    var w2 := w0.(peers := [Peer(d.(phase := Driver.Dialing, request := ONE_ADD), 0, false)]);
    var w3 := Alone(s, 0, Channel(0, 0, [], []), At(Driver.Dialed), false, []);
    One(w0.peers[0], w1.peers[0]);
    One(w1.peers[0], w2.peers[0]);
    One(w2.peers[0], w3.peers[0]);
    One(Channel(0, 0, [], []), Channel(0, 0, [], []));
    worlds := [w0, w1, w2, w3];
    what := [Act(0, Driver.Call(ONE_ADD), false), Act(0, Driver.Attempt, false), Act(0, Driver.Dial, false)];
    assert Step(w0, what[0], w1) && Step(w1, what[1], w2) && Step(w2, what[2], w3);
  }

  /** Sending and receiving with one connection. */
  lemma SendStep(w: World, event: Driver.Event, request: Request, d: Driver.DriverState)
    requires |w.channels| == 1 && |w.peers| == 1 && w.peers[0].channel == 0 && w.channels[0].requests == []
    requires var p := w.peers[0];
             && p.driver.connected && Driver.Next(p.driver, event) == Some(d)
             && ((event == Driver.SendCount(true) && request == CountDatabaseRequest)
                 || (event == Driver.SendRequest(true) && request == Requests.Meaning(d.request)))
    ensures var p, ch := w.peers[0], w.channels[0];
            Step(w, Act(0, event, false),
                 w.(peers := [p.(driver := d)],
                    channels := [ch.(sent := ch.sent + 1, requests := [Message(ch.sent, request)])]))
  {
    hide Driver.Next, Requests.Meaning;
    var p, ch := w.peers[0], w.channels[0];
    One(p, p.(driver := d));
    One(ch, Push(ch, request));
    One(Message(ch.sent, request), Message(ch.sent, request));
    assert w.peers == [p] && w.channels == [ch];
  }

  lemma ReceiveStep(w: World, event: Driver.Event, reply: Responses.Response, d: Driver.DriverState)
    requires |w.channels| == 1 && |w.peers| == 1 && w.peers[0].channel == 0 && |w.channels[0].replies| == 1
    requires Responses.Seen(w.channels[0].replies[0].response) == reply
    requires var p := w.peers[0];
             && p.driver.connected && Driver.Next(p.driver, event) == Some(d)
             && (event == Driver.ReceiveCount(Some(reply)) || event == Driver.ReceiveReply(Some(reply)))
    ensures var p, ch := w.peers[0], w.channels[0];
            Step(w, Act(0, event, false), w.(peers := [p.(driver := d)], channels := [ch.(replies := [])]))
  {
    var p, ch := w.peers[0], w.channels[0];
    One(p, p.(driver := d));
    One(ch, ch.(replies := []));
    hide Driver.Next, Responses.Seen;
    assert w.peers == [p] && w.channels == [ch] && ch.replies[1..] == [];
  }

  lemma ServeStep(w: World, h: Handled)
    requires w.serving && w.accepted == 1 && |w.channels| == 1 && Tidy(w.server)
    requires |w.channels[0].requests| == 1 && w.channels[0].replies == []
    requires h == HandleTidy(w.server, w.channels[0].requests[0].request, FRIENDLY) && h.outcome.Ok?
    requires w.channels[0].requests[0].request != CloseRequest
    ensures var ch := w.channels[0];
            var m := ch.requests[0];
            Step(w, Serve(FRIENDLY, true),
                 w.(server := h.server,
                    channels := [ch.(requests := [], replies := [Reply(m.number, h.outcome.value)])],
                    writers := w.writers
                               + if OperationOf(m.request).Some? then [Writer(0, m.number, EntryOf(m.request, 1))] else [],
                    log := w.log + if OperationOf(m.request).Some? then [EntryOf(m.request, 1)] else []))
  {
    hide HandleTidy, Tidy, OperationOf, WalId;
    var ch := w.channels[0];
    var r := Reply(ch.requests[0].number, h.outcome.value);
    One(ch, ch.(requests := [], replies := [r]));
    One(r, r);
    assert w.channels == [ch] && ch.requests[1..] == [];
    assert ch.replies + [r] == [r];
  }

  lemma RunMore(worlds: seq<World>, what: seq<Happening>, happening: Happening, w: World)
    returns (worlds': seq<World>, what': seq<Happening>)
    requires Run(worlds, what) && Step(worlds[|worlds| - 1], happening, w)
    ensures Run(worlds', what') && worlds' != [] && worlds'[|worlds'| - 1] == w
  {
    hide Step, Initially;
    worlds', what' := worlds + [w], what + [happening];
  }

  /** Dialing, and asking for the counter. */
  lemma AskingSteps(s: Server) returns (worlds: seq<World>, what: seq<Happening>)
    requires Tidy(s) && FileHolds(s, [])
    ensures Run(worlds, what) && worlds != []
    ensures worlds[|worlds| - 1]
            == Alone(s, 1, Channel(0, 1, [Message(0, CountDatabaseRequest)], []), At(Driver.Greeting), false, [])
  {
    hide HandleTidy, Tidy, Step, Run, FileHolds;
    worlds, what := DialSteps(s);
    var w3 := worlds[|worlds| - 1];
    SendStep(w3, Driver.SendCount(true), CountDatabaseRequest, At(Driver.Greeting));
    var w4 := Alone(s, 0, Channel(0, 1, [Message(0, CountDatabaseRequest)], []), At(Driver.Greeting), false, []);
    worlds, what := RunMore(worlds, what, Act(0, Driver.SendCount(true), false), w4);
    var w5 := w4.(serving := true, accepted := 1);
    AcceptStep(w4, w5);
    worlds, what := RunMore(worlds, what, Accept, w5);
  }

  /** Dialing and greeting. */
  lemma GreetingSteps(s: Server) returns (worlds: seq<World>, what: seq<Happening>)
    requires Tidy(s) && FileHolds(s, []) && s.transactions == 0 && s.accounts == []
    ensures Run(worlds, what) && worlds != []
    ensures worlds[|worlds| - 1] == Alone(s, 1, Channel(0, 1, [], []), At(Driver.Ready), false, [])
  {
    hide HandleTidy, Tidy, Step, Run, FileHolds;
    CountSucceeds(s);
    worlds, what := AskingSteps(s);
    var w5 := worlds[|worlds| - 1];
    ServeStep(w5, Handled(s, Ok(CountDatabaseResponse(0, 0))));
    var w6 := w5.(channels := [Channel(0, 1, [], [Reply(0, CountDatabaseResponse(0, 0))])]);
    assert w5.writers + [] == [] && w5.log + [] == [];
    worlds, what := RunMore(worlds, what, Serve(FRIENDLY, true), w6);
    var reply := Responses.CountDatabase(0, 0);
    ReceiveStep(w6, Driver.ReceiveCount(Some(reply)), reply, At(Driver.Ready));
    var w7 := Alone(s, 1, Channel(0, 1, [], []), At(Driver.Ready), false, []);
    worlds, what := RunMore(worlds, what, Act(0, Driver.ReceiveCount(Some(reply)), false), w7);
  }

  lemma AcceptStep(w: World, w': World)
    requires !w.serving && w.accepted < |w.channels| && w' == w.(serving := true, accepted := w.accepted + 1)
    ensures Step(w, Accept, w')
  {}

  lemma ReturnStep(w: World, w': World)
    requires |w.peers| == 1 && |w.channels| == 1 && w.peers[0].channel == 0
    requires w.peers[0].driver == At(Driver.Answered(Responses.AddAccount(0)))
    requires w' == w.(peers := [Peer(At(Driver.Resting), 0, true)])
    ensures Step(w, Act(0, Driver.Return(true), false), w')
  {
    One(w.peers[0], w'.peers[0]);
  }

  /** Sending the request and serving it. */
  lemma AddingSteps(s: Server, h: Handled) returns (worlds: seq<World>, what: seq<Happening>)
    requires Tidy(s) && FileHolds(s, []) && s.transactions == 0 && s.accounts == []
    requires h == HandleTidy(s, Requests.Meaning(ONE_ADD), FRIENDLY) && h.outcome == Ok(AddAccountResponse(0))
    ensures Run(worlds, what) && worlds != []
    ensures worlds[|worlds| - 1]
            == Alone(h.server, 1, Channel(0, 2, [], [Reply(1, AddAccountResponse(0))]), At(Driver.Waiting), false,
                     [FIRST])
  {
    hide HandleTidy, Tidy, Run, Step;
    worlds, what := GreetingSteps(s);
    var w7 := Alone(s, 1, Channel(0, 1, [], []), At(Driver.Ready), false, []);
    SendStep(w7, Driver.SendRequest(true), Requests.Meaning(ONE_ADD), At(Driver.Waiting));
    var w8 := Alone(s, 1, Channel(0, 2, [Message(1, Requests.Meaning(ONE_ADD))], []), At(Driver.Waiting), false, []);
    worlds, what := RunMore(worlds, what, Act(0, Driver.SendRequest(true), false), w8);
    ServeStep(w8, h);
    assert w8.writers + [Writer(0, 1, FIRST)] == [Writer(0, 1, FIRST)] && w8.log + [FIRST] == [FIRST];
    var w9 := Alone(h.server, 1, Channel(0, 2, [], [Reply(1, AddAccountResponse(0))]), At(Driver.Waiting), false,
                    [FIRST]);
    worlds, what := RunMore(worlds, what, Serve(FRIENDLY, true), w9);
  }

  /** One cancelled call on a fresh server and driver: the record is written, and the driver does not count it. */
  lemma StaleCounterExists() returns (worlds: seq<World>, what: seq<Happening>)
    ensures Run(worlds, what) && worlds != []
    ensures var w := worlds[|worlds| - 1];
            && |w.peers| == 1 && w.peers[0].driver.phase.Resting? && w.peers[0].driver.connected
            && Live(w, w.peers[0].channel) && w.peers[0].stale
            && w.peers[0].driver.counter == 0 && w.server.transactions == 1
  {
    var s, h := FirstAdd();
    hide HandleTidy, Tidy, Run, Step, Requests.Meaning;
    worlds, what := AddingSteps(s, h);
    var w9 := worlds[|worlds| - 1];
    var reply := Responses.AddAccount(0);
    ReceiveStep(w9, Driver.ReceiveReply(Some(reply)), reply, At(Driver.Answered(reply)));
    var w10 := Alone(h.server, 1, Channel(0, 2, [], []), At(Driver.Answered(reply)), false, [FIRST]);
    worlds, what := RunMore(worlds, what, Act(0, Driver.ReceiveReply(Some(reply)), false), w10);
    var w11 := w10.(peers := [Peer(At(Driver.Resting), 0, true)]);
    ReturnStep(w10, w11);
    worlds, what := RunMore(worlds, what, Act(0, Driver.Return(true), false), w11);
  }

  lemma FirstAdd() returns (s: Server, h: Handled)
    ensures Tidy(s) && FileHolds(s, []) && s.transactions == 0 && s.accounts == []
    ensures h == HandleTidy(s, Requests.Meaning(ONE_ADD), FRIENDLY) && h.outcome == Ok(AddAccountResponse(0))
    ensures h.server.transactions == 1
  {
    s := EmptyServer();
    AddSucceeds(s);
    AnsweredMeans(s, Requests.Meaning(ONE_ADD), FRIENDLY);
    h := HandleTidy(s, Requests.Meaning(ONE_ADD), FRIENDLY);
    hide HandleTidy, Tidy;
  }
}
