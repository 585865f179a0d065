/** A connection's bytes and the run model together: what a conversation answers is what becomes durable. */
module Conversations {
  import opened Common
  import opened Errors
  import opened Ledger
  import opened Protocol
  import opened Wal
  import opened Server
  import opened Recovery
  import opened Durability
  import opened Connection
  import opened Session
  import Encoder
  import LiveLedger
  import Nonces

  /** The record that a turn logs and acknowledges, if it does. */
  function Acknowledged(s: Session, env: Environment, ending: NetworkError): seq<Record>
    requires Roomy(s.server)
  {
    var received := ReadRequest(s.incoming, ending);
    var handled := Dispatch(s.server, received.outcome, env);
    if received.outcome.Ok? && OperationOf(received.outcome.value).Some? && handled.outcome.Ok? then
      [Record(WalId(received.outcome.value), env.now, OperationOf(received.outcome.value).value)]
    else []
  }

  datatype Progressed = Progressed(session: Session, acknowledged: seq<Record>)

  /** The first `n` turns of a conversation, or all of them if it ends before. */
  function Turns(s: Session, envs: nat -> Environment, turn: nat, ending: NetworkError, replies: nat -> Sent, n: nat): (p: Progressed)
    requires Roomy(s.server)
    ensures Roomy(p.session.server)
    decreases n
  {
    if n == 0 || !s.executing then Progressed(s, [])
    else
      TurnKeepsRoom(s, envs(turn), ending, replies);
      var more := Turns(Turn(s, envs(turn), ending, replies), envs, turn + 1, ending, replies, n - 1);
      more.(acknowledged := Acknowledged(s, envs(turn), ending) + more.acknowledged)
  }

  lemma NoMoreTurns(s: Session, envs: nat -> Environment, turn: nat, ending: NetworkError, replies: nat -> Sent, n: nat)
    requires Roomy(s.server)
    requires n == 0 || !s.executing
    ensures Turns(s, envs, turn, ending, replies, n) == Progressed(s, [])
    ensures IsReadEnd(ending) && !s.executing ==> Converse(s, envs, turn, ending, replies) == s
  {
    hide Turn, Roomy, Acknowledged, IsReadEnd;
  }

  lemma OneMoreTurn(s: Session, envs: nat -> Environment, turn: nat, ending: NetworkError, replies: nat -> Sent, n: nat)
    requires Roomy(s.server) && n > 0 && s.executing
    ensures var next := Turn(s, envs(turn), ending, replies);
            && Roomy(next.server)
            && var more := Turns(next, envs, turn + 1, ending, replies, n - 1);
            && Turns(s, envs, turn, ending, replies, n)
               == Progressed(more.session, Acknowledged(s, envs(turn), ending) + more.acknowledged)
            && (IsReadEnd(ending) ==>
                  Converse(s, envs, turn, ending, replies) == Converse(next, envs, turn + 1, ending, replies))
  {
    TurnKeepsRoom(s, envs(turn), ending, replies);
    hide Turn, Roomy, Acknowledged, IsReadEnd;
  }

  /** With more turns than there are bytes the conversation is over. */
  lemma {:induction false} TurnsEnd(s: Session, envs: nat -> Environment, turn: nat, ending: NetworkError, replies: nat -> Sent,
                                    n: nat)
    requires Roomy(s.server) && IsReadEnd(ending) && |s.incoming| < n
    ensures Turns(s, envs, turn, ending, replies, n).session == Converse(s, envs, turn, ending, replies)
    ensures !Turns(s, envs, turn, ending, replies, n).session.executing
    decreases n
  {
    hide Turn, Turns, Converse, Roomy, Acknowledged, IsReadEnd;
    if s.executing {
      OneMoreTurn(s, envs, turn, ending, replies, n);
      TurnMakesProgress(s, envs(turn), ending, replies);
      var next := Turn(s, envs(turn), ending, replies);
      if s.incoming == "" {
        NoMoreTurns(next, envs, turn + 1, ending, replies, n - 1);
      } else {
        TurnsEnd(next, envs, turn + 1, ending, replies, n - 1);
      }
    } else {
      NoMoreTurns(s, envs, turn, ending, replies, n);
    }
  }

  // ----- what a turn sends -----

  /** A turn's answer as far as it got: nothing, or a beginning of the text of one response. */
  ghost predicate SendsOf(before: Session, after: Session, response: Response) {
    before.outgoing <= after.outgoing <= before.outgoing + Encoder.Text(response)
  }

  /**
   The records of a turn are those of its acknowledgement: a turn that logs and acknowledges a record sends, as far as
   sending works, its acknowledgement; any other turn sends no acknowledgement of a logged request.
   */
  lemma TurnSends(s: Session, env: Environment, ending: NetworkError, replies: nat -> Sent)
    requires Roomy(s.server)
    ensures var after := Turn(s, env, ending, replies);
            var received := ReadRequest(s.incoming, ending).outcome;
            if Acknowledged(s, env, ending) != [] then
              && |s.server.accounts| < U64_SIZE
              && SendsOf(s, after, Acknowledgement(s.server.accounts, OperationOf(received.value).value))
            else
              || after.outgoing == s.outgoing
              || (received.Ok? && OperationOf(received.value).None? && exists r :: SendsOf(s, after, r))
              || exists e :: SendsOf(s, after, ErrorResponse(e))
  {
    hide Roomy, ReadRequest, Encoder.Text, ActionOf, LogWrite, Apply, InBounds, ApplyError, Guard, Query;
    RoomyIsSmall(s.server);
    var received := ReadRequest(s.incoming, ending);
    var handled := Dispatch(s.server, received.outcome, env);
    var read := s.(server := handled.server, incoming := received.rest);
    if handled.outcome.Ok? {
      ReplySends(read, handled.outcome.value, received.outcome == Ok(CloseRequest), replies);
      assert SendsOf(s, Turn(s, env, ending, replies), handled.outcome.value);
    } else if ActionOf(handled.outcome.error) == Reject {
      ReplySends(read, ErrorResponse(handled.outcome.error), received.outcome == Ok(CloseRequest), replies);
      assert SendsOf(s, Turn(s, env, ending, replies), ErrorResponse(handled.outcome.error));
    }
  }

  lemma ReplySends(s: Session, response: Response, closes: bool, replies: nat -> Sent)
    ensures SendsOf(s, Reply(s, response, closes, replies), response)
  {
    hide SendAll, Encoder.Text, ActionOf;
  }

  // ----- a turn is a path -----

  /** The session and the world stand for the same server: idle, or ended by a fatal error. */
  ghost predicate Stands(s: Session, w: World) {
    if w.stage.Idle? then w.server == s.server
    else w.stage.Down? && w.server.disk == s.server.disk && !s.executing && !s.accepting
  }

  /** How a world moves with a session: log and answers grow by the acknowledged records, and nothing is lost. */
  ghost predicate MovesWith(w: World, records: seq<Record>, w': World) {
    && w'.answered == w.answered + records
    && (w'.stage.Idle? ==> w'.log == w.log + records && w'.crashes == w.crashes)
  }

  lemma UnreadableTurn(s: Session, env: Environment, ending: NetworkError, replies: nat -> Sent)
    requires Roomy(s.server) && ReadRequest(s.incoming, ending).outcome.Err?
    ensures Turn(s, env, ending, replies).server == s.server && Acknowledged(s, env, ending) == []
  {
    hide Roomy, ReadRequest, Encoder.Text, ActionOf, SendAll;
  }

  lemma ReadableTurn(s: Session, w: World, env: Environment, ending: NetworkError, replies: nat -> Sent, w': World)
    requires Roomy(s.server) && w.stage.Idle? && w.server == s.server && ReadRequest(s.incoming, ending).outcome.Ok?
    requires |w.server.accounts| < U64_SIZE && w.server.disk.cursor <= |w.server.disk.bytes|
    requires Follows(w, ReadRequest(s.incoming, ending).outcome.value, env, w')
    ensures Stands(Turn(s, env, ending, replies), w') && MovesWith(w, Acknowledged(s, env, ending), w')
  {
    hide Roomy, ReadRequest, Encoder.Text, ActionOf, SendAll, Handle;
    assert w.log + [] == w.log && w.answered + [] == w.answered;
  }

  /** A path from one world to another. */
  ghost predicate Leads(w: World, worlds: seq<World>, events: seq<Event>, w': World) {
    Path(worlds, events) && |worlds| == |events| + 1 && worlds[0] == w && worlds[|events|] == w'
  }

  lemma LeadsOn(w: World, worlds: seq<World>, events: seq<Event>, w': World,
                worlds': seq<World>, events': seq<Event>, w'': World)
    requires Leads(w, worlds, events, w') && Leads(w', worlds', events', w'')
    ensures |worlds'| > 0 && Leads(w, worlds + worlds'[1..], events + events', w'')
  {
    PathJoins(worlds, events, worlds', events');
    hide Path;
  }

  lemma Staying(w: World)
    requires Invariant(w)
    ensures Leads(w, [w], [], w) && MovesWith(w, [], w)
  {
    hide Invariant;
    StateOf(w);
    PathStarts(w);
    hide Path;
    assert w.log + [] == w.log && w.answered + [] == w.answered;
  }

  lemma TurnIsRun(s: Session, w: World, env: Environment, ending: NetworkError, replies: nat -> Sent)
    returns (worlds: seq<World>, events: seq<Event>, w': World)
    requires Invariant(w) && w.stage.Idle? && w.server == s.server && Roomy(s.server)
    ensures Leads(w, worlds, events, w')
    ensures Stands(Turn(s, env, ending, replies), w') && MovesWith(w, Acknowledged(s, env, ending), w')
  {
    hide Invariant, Roomy, ReadRequest, Step, Follows, Turn, Acknowledged, MovesWith;
    if ReadRequest(s.incoming, ending).outcome.Ok? {
      StateOf(w);
      worlds, events := RequestIsRun(w, ReadRequest(s.incoming, ending).outcome.value, env);
      w' := worlds[|events|];
      hide Stands;
      ReadableTurn(s, w, env, ending, replies, w');
    } else {
      worlds, events, w' := [w], [], w;
      Staying(w);
      UnreadableTurn(s, env, ending, replies);
    }
  }

  lemma {:induction false} PathKeeps(worlds: seq<World>, events: seq<Event>, n: nat)
    requires Path(worlds, events) && Invariant(worlds[0]) && n < |worlds|
    ensures Invariant(worlds[n])
    decreases n
  {
    hide Step, Invariant;
    if n > 0 {
      PathKeeps(worlds, events, n - 1);
      StepKeeps(worlds[n - 1], events[n - 1], worlds[n]);
    }
  }

  lemma LeadsKeeps(w: World, worlds: seq<World>, events: seq<Event>, w': World)
    requires Invariant(w) && Leads(w, worlds, events, w')
    ensures Invariant(w')
  {
    hide Path, Invariant;
    PathKeeps(worlds, events, |events|);
  }

  lemma MovesOn(w: World, some: seq<Record>, w': World, more: seq<Record>, w'': World)
    requires MovesWith(w, some, w') && w'.stage.Idle? && MovesWith(w', more, w'')
    ensures MovesWith(w, some + more, w'')
  {
    Associates(w.log, some, more);
    Associates(w.answered, some, more);
  }

  /**
   Every beginning of a conversation over bytes is a path of the run model: the answers of the model grow by exactly the
   records the conversation acknowledged, the log by the same, and the path ends idle with the conversation's server, or
   dead with its file, when a fatal error has ended the conversation.
   */
  lemma {:induction false} ConversationIsRun(s: Session, w: World, envs: nat -> Environment, turn: nat, ending: NetworkError,
                                             replies: nat -> Sent, n: nat)
    returns (worlds: seq<World>, events: seq<Event>, end: World)
    requires Invariant(w) && w.stage.Idle? && w.server == s.server
    ensures Roomy(s.server) && Leads(w, worlds, events, end)
    ensures Stands(Turns(s, envs, turn, ending, replies, n).session, end)
    ensures MovesWith(w, Turns(s, envs, turn, ending, replies, n).acknowledged, end)
    decreases n
  {
    hide Invariant, Roomy, Turn, Turns, Acknowledged, Leads, MovesWith, Nonces.Tidy, Nonces.FileHolds;
    LiveLedger.IdleIsTidy(w);
    if n == 0 || !s.executing {
      worlds, events, end := [w], [], w;
      Staying(w);
      NoMoreTurns(s, envs, turn, ending, replies, n);
    } else {
      var env := envs(turn);
      var next := Turn(s, env, ending, replies);
      worlds, events, end := TurnIsRun(s, w, env, ending, replies);
      OneMoreTurn(s, envs, turn, ending, replies, n);
      if end.stage.Idle? {
        LeadsKeeps(w, worlds, events, end);
        var worlds', events', end' := ConversationIsRun(next, end, envs, turn + 1, ending, replies, n - 1);
        LeadsOn(w, worlds, events, end, worlds', events', end');
        MovesOn(w, Acknowledged(s, env, ending), end,
                Turns(next, envs, turn + 1, ending, replies, n - 1).acknowledged, end');
        worlds, events, end := worlds + worlds'[1..], events + events', end';
      } else {
        NoMoreTurns(next, envs, turn + 1, ending, replies, n - 1);
        assert Acknowledged(s, env, ending) + [] == Acknowledged(s, env, ending);
      }
    }
  }

  /**
   From bytes to bytes: whatever a conversation on a server that any run has reached has acknowledged by its n-th turn is
   in what a restart reads, each record at its own number and after everything acknowledged before, even if the machine
   loses power right then.
   */
  lemma AcknowledgedSurvives(worlds: seq<World>, events: seq<Event>, s: Session, envs: nat -> Environment, turn: nat,
                             ending: NetworkError, replies: nat -> Sent, n: nat)
    requires Run(worlds, events) && |worlds| == |events| + 1
    requires worlds[|events|].stage.Idle? && worlds[|events|].server == s.server
    ensures Roomy(s.server)
    ensures var p := Turns(s, envs, turn, ending, replies, n);
            forall image | image == p.session.server.disk.bytes || Survives(p.session.server.disk, image) ::
              AnswersKept(worlds[|events|].answered + p.acknowledged, RecordsIn(image), |RecordsIn(image)|)
  {
    hide Run, Invariant, Roomy, Turns, Leads, Survives, RecordsIn, AnswersKept;
    var w := worlds[|events|];
    RunKeeps(worlds, events, |events|);
    var path, steps, end := ConversationIsRun(s, w, envs, turn, ending, replies, n);
    LeadsKeeps(w, path, steps, end);
    var p := Turns(s, envs, turn, ending, replies, n);
    forall image | image == p.session.server.disk.bytes || Survives(p.session.server.disk, image)
      ensures AnswersKept(w.answered + p.acknowledged, RecordsIn(image), |RecordsIn(image)|)
    {
      RestartReads(end, image);
    }
  }
}
