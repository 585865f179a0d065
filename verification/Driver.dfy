/** The driver's client: one call at a time, with connection, handshake, sequence number and retries. */
module Driver {
  import opened Common
  import opened Requests
  import Responses
  import opened Supervisor

  // ----- the client as a machine -----

  datatype Phase =
    | Resting
    | Trying
    | Dialing
    | Dialed
    | Greeting
    | Ready
    | Waiting
    | Answered(response: Responses.Response)

  datatype DriverState = DriverState(phase: Phase, connected: bool, counter: u64, request: Command)

  /** What the client does and what comes back; a failed send, receive or handshake drops the connection. */
  datatype Event =
    | Call(request: Command)
    | Attempt
    | GiveUp
    | DialFailed
    | Dial
    | SendCount(ok: bool)
    | ReceiveCount(reply: Option<Responses.Response>)
    | SendRequest(ok: bool)
    | ReceiveReply(reply: Option<Responses.Response>)
    | Return(cancelled: bool)
    | Disconnect

  function Initial(): DriverState {
    DriverState(Resting, false, 0, Magic)
  }

  /** The request as it is sent: requests that are logged carry the client's counter. */
  function Stamped(request: Command, counter: u64): Command {
    if IsWalRequest(request) then SetId(request, counter) else request
  }

  function Dropped(s: DriverState): DriverState {
    s.(phase := Trying, connected := false)
  }

  /** A reply to a logged request that is not an error. */
  predicate Counts(request: Command, response: Responses.Response) {
    IsWalRequest(request) && !response.Error?
  }

  function Next(s: DriverState, e: Event): Option<DriverState> {
    match e
    case Call(request) => if s.phase.Resting? then Some(s.(phase := Trying, request := request)) else None
    case Attempt => if s.phase.Trying? then Some(s.(phase := if s.connected then Ready else Dialing)) else None
    case GiveUp => if s.phase.Trying? then Some(s.(phase := Resting)) else None
    case DialFailed => if s.phase.Dialing? then Some(s.(phase := Trying)) else None
    case Dial => if s.phase.Dialing? then Some(s.(phase := Dialed, connected := true)) else None
    case SendCount(ok) =>
      if !s.phase.Dialed? then None else Some(if ok then s.(phase := Greeting) else Dropped(s))
    case ReceiveCount(reply) =>
      if !s.phase.Greeting? then None
      else if reply.Some? && reply.value.CountDatabase? then
        Some(s.(phase := Ready, counter := reply.value.transactions))
      else Some(Dropped(s))
    case SendRequest(ok) =>
      if !s.phase.Ready? then None
      else
        var stamped := s.(request := Stamped(s.request, s.counter));
        Some(if ok then stamped.(phase := Waiting) else Dropped(stamped))
    case ReceiveReply(reply) =>
      if !s.phase.Waiting? then None
      else Some(if reply.Some? then s.(phase := Answered(reply.value)) else Dropped(s))
    case Return(cancelled) =>
      if !s.phase.Answered? then None
      else
        var counter := if !cancelled && Counts(s.request, s.phase.response) then (s.counter + 1) % U64_SIZE else s.counter;
        Some(s.(phase := Resting, counter := counter))
    case Disconnect => if s.phase.Resting? then Some(s.(connected := false)) else None
  }

  function After(s: DriverState, events: seq<Event>): Option<DriverState>
    decreases |events|
  {
    if events == [] then Some(s)
    else
      var before := After(s, events[..|events| - 1]);
      if before.None? then None else Next(before.value, events[|events| - 1])
  }

  function Attempts(events: seq<Event>): nat
    decreases |events|
  {
    if events == [] then 0
    else Attempts(events[..|events| - 1]) + if events[|events| - 1].Attempt? then 1 else 0
  }

  lemma AfterMore(s: DriverState, events: seq<Event>, e: Event)
    requires After(s, events).Some?
    ensures After(s, events + [e]) == Next(After(s, events).value, e)
  {
    assert (events + [e])[..|events|] == events;
  }

  lemma AttemptsMore(events: seq<Event>, e: Event)
    ensures Attempts(events + [e]) == Attempts(events) + if e.Attempt? then 1 else 0
  {
    assert (events + [e])[..|events|] == events;
  }

  // ----- the client as a program -----

  /** What the context and the network answer at one moment. */
  datatype Moment = Moment(done: bool, dials: bool, sends: bool, receives: Option<Responses.Response>)

  /** A context that is done stays done. */
  ghost predicate StaysDone(moments: nat -> Moment) {
    forall i, j | i <= j :: moments(i).done ==> moments(j).done
  }

  /** An answer to the request for the counter. */
  predicate Counted(reply: Option<Responses.Response>) {
    reply.Some? && reply.value.CountDatabase?
  }

  /** The response is what just came in: the last event's reply, and the network's answer at that moment. */
  ghost predicate CameIn(response: Responses.Response, trace: seq<Event>, moment: Moment) {
    trace != [] && trace[|trace| - 1] == ReceiveReply(Some(response)) && moment.receives == Some(response)
  }

  class Client {
    const supervisor: Supervisor
    const moments: nat -> Moment
    var moment: nat
    var connected: bool
    var transactions: u64
    var request: Command
    ghost var state: DriverState
    // What the current call has done, and the state of the machine when it began.
    ghost var start: DriverState
    ghost var trace: seq<Event>

    ghost predicate Valid()
      reads this
    {
      && connected == state.connected && transactions == state.counter && request == state.request
      && After(start, trace) == Some(state)
    }

    constructor (supervisor: Supervisor, moments: nat -> Moment)
      ensures Valid() && this.supervisor == supervisor && this.moments == moments
      ensures state == Initial()
    {
      this.supervisor, this.moments, moment := supervisor, moments, 0;
      connected, transactions, request := false, 0, Magic;
      state, start, trace := Initial(), Initial(), [];
    }

    /** Notes an event that the machine allows. */
    ghost method Note(e: Event)
      requires After(start, trace) == Some(state) && Next(state, e).Some?
      modifies `state, `trace
      ensures state == Next(old(state), e).value && trace == old(trace) + [e]
      ensures After(start, trace) == Some(state)
      ensures Attempts(trace) == Attempts(old(trace)) + if e.Attempt? then 1 else 0
    {
      AfterMore(start, trace, e);
      AttemptsMore(trace, e);
      state, trace := Next(state, e).value, trace + [e];
    }

    /** Asks the server for its counter on a new connection. */
    method Greet() returns (ok: bool)
      requires Valid() && state.phase.Dialed? && connected
      modifies `moment, `connected, `transactions, `state, `trace
      ensures Valid() && moment >= old(moment) && old(trace) <= trace
      ensures state.phase == (if ok then Ready else Trying) && connected == ok
      ensures ok <==> moments(old(moment) + 1).sends && Counted(moments(old(moment) + 2).receives)
      ensures ok ==> transactions == moments(old(moment) + 2).receives.value.transactions
      ensures state.request == old(state.request) && Attempts(trace) == Attempts(old(trace))
    {
      hide After, Attempts;
      moment := moment + 1;
      if !moments(moment).sends {
        connected := false;
        Note(SendCount(false));
        return false;
      }
      Note(SendCount(true));
      moment := moment + 1;
      var reply := moments(moment).receives;
      if reply.None? || !reply.value.CountDatabase? {
        connected := false;
        Note(ReceiveCount(reply));
        return false;
      }
      transactions := reply.value.transactions;
      Note(ReceiveCount(reply));
      return true;
    }

    /** Connects and reads the server's counter, unless there is a connection already. */
    method Connect() returns (ok: bool)
      requires Valid() && (state.phase == if connected then Ready else Dialing)
      modifies `moment, `connected, `transactions, `state, `trace
      ensures Valid() && moment >= old(moment) && old(trace) <= trace
      ensures state.phase == (if ok then Ready else Trying) && connected == ok
      // Only a context that is not done, a peer that takes the call, and a count for an answer make a connection.
      ensures ok <==>
                || old(connected)
                || (!moments(old(moment) + 1).done && moments(old(moment) + 1).dials
                    && moments(old(moment) + 2).sends && Counted(moments(old(moment) + 3).receives))
      ensures ok && !old(connected) ==> transactions == moments(old(moment) + 3).receives.value.transactions
      ensures old(connected) ==> moment == old(moment) && transactions == old(transactions)
      ensures state.request == old(state.request) && Attempts(trace) == Attempts(old(trace))
    {
      hide After, Attempts;
      if connected {
        return true;
      }
      moment := moment + 1;
      if moments(moment).done || !moments(moment).dials {
        Note(DialFailed);
        return false;
      }
      connected := true;
      Note(Dial);
      ok := Greet();
    }

    /** One attempt: connect, stamp, send, receive. */
    method TryOnce() returns (response: Option<Responses.Response>)
      requires Valid() && state.phase.Trying?
      modifies `moment, `connected, `transactions, `request, `state, `trace
      ensures Valid() && moment >= old(moment) && old(trace) <= trace
      ensures state.phase == match response case Some(r) => Answered(r) case None => Trying
      ensures response.Some? ==> CameIn(response.value, trace, moments(moment))
      ensures Attempts(trace) == Attempts(old(trace)) + 1
    {
      hide After, Attempts;
      Note(Attempt);
      var ok := Connect();
      response := None;
      if ok {
        response := Exchange();
      }
    }

    /** Stamps and sends the request, and waits for the reply. */
    method Exchange() returns (response: Option<Responses.Response>)
      requires Valid() && state.phase.Ready? && connected
      modifies `moment, `connected, `transactions, `request, `state, `trace
      ensures Valid() && moment >= old(moment) && old(trace) <= trace
      ensures state.phase == match response case Some(r) => Answered(r) case None => Trying
      ensures response.Some? ==> CameIn(response.value, trace, moments(moment))
      ensures response == if moments(old(moment) + 1).sends then moments(old(moment) + 2).receives else None
      ensures connected == response.Some? && request == Stamped(old(request), old(transactions))
      ensures transactions == old(transactions)
      ensures Attempts(trace) == Attempts(old(trace))
    {
      hide After, Attempts;
      if IsWalRequest(request) {
        request := SetId(request, transactions);
      }
      moment := moment + 1;
      if !moments(moment).sends {
        connected := false;
        Note(SendRequest(false));
        return None;
      }
      Note(SendRequest(true));
      moment := moment + 1;
      response := moments(moment).receives;
      if response.None? {
        connected := false;
      }
      Note(ReceiveReply(response));
    }

    /** Asks the supervisor whether to make another attempt. */
    method MayTry() returns (proceed: bool)
      modifies `moment, supervisor`currentTry
      ensures moment == old(moment) + 2
      ensures supervisor.currentTry == old(supervisor.currentTry) + if proceed then 1 else 0
      ensures proceed <==>
                && !moments(old(moment) + 1).done
                && (old(supervisor.currentTry) == 0
                    || (old(supervisor.currentTry) < supervisor.cancelAfter && !moments(old(moment) + 2).done))
      ensures proceed ==> supervisor.currentTry <= AttemptLimit(supervisor.cancelAfter)
      ensures !proceed ==>
                || moments(old(moment) + 1).done || moments(old(moment) + 2).done
                || AttemptLimit(supervisor.cancelAfter) <= supervisor.currentTry
      ensures !proceed && old(supervisor.currentTry) == 0 ==> moments(old(moment) + 1).done
    {
      var delay;
      proceed, delay := supervisor.Try(moments(moment + 1).done, moments(moment + 2).done);
      moment := moment + 2;
    }

    /** Takes the request of a new call. */
    method Begin(command: Command)
      requires Valid() && state.phase.Resting?
      modifies `request, `state, `start, `trace
      ensures Valid() && state.phase.Trying? && start == old(state)
      ensures trace == [Call(command)] && Attempts(trace) == 0
    {
      start, trace := state, [];
      request := command;
      Note(Call(command));
    }

    /**
     A whole call. What it does is a run of the machine from rest to rest, with at most as many attempts as the
     supervisor allows. It returns exactly the response that came in last, and only if the context was not done by then;
     it counts it; and it gives up only when the context is done or all attempts have been made.
     */
    method Communicate(command: Command) returns (result: Option<Responses.Response>)
      requires Valid() && state.phase.Resting? && supervisor.currentTry == 0 && StaysDone(moments)
      modifies this, supervisor
      ensures Valid() && state.phase.Resting? && supervisor.currentTry == 0
      ensures start == old(state) && After(old(state), trace) == Some(state)
      ensures |trace| > 1 && trace[0] == Call(command)
      ensures Attempts(trace) <= AttemptLimit(supervisor.cancelAfter)
      ensures result.Some? <==> trace[|trace| - 1] == Return(false)
      ensures trace[|trace| - 1] in [Return(false), Return(true), GiveUp]
      ensures result.Some? ==>
                && |trace| > 2 && moment > 0 && !moments(moment).done
                && CameIn(result.value, trace[..|trace| - 1], moments(moment - 1))
      ensures trace[|trace| - 1] == Return(true) ==> moments(moment).done
      ensures trace[|trace| - 1] == GiveUp && !moments(moment).done ==>
                Attempts(trace) == AttemptLimit(supervisor.cancelAfter)
    {
      hide After, Attempts, StaysDone, CameIn, AttemptLimit, Next;
      Begin(command);
      var response, failed := Persist(command);
      supervisor.Reset();
      StillDone(moments, moment, moment + 1);
      ghost var before := trace;
      if response.Some? {
        RepliesAreLater(response.value, trace, moments(moment), command);
      }
      result := Finish(response, failed);
      assert trace[..|trace| - 1] == before;
    }

    /** Makes attempts until one of them succeeds or no more may be made. */
    method Persist(command: Command) returns (response: Option<Responses.Response>, failed: bool)
      requires Valid() && state.phase.Trying? && trace == [Call(command)] && Attempts(trace) == 0
      requires supervisor.currentTry == 0 && StaysDone(moments)
      modifies `moment, `connected, `transactions, `request, `state, `trace, supervisor
      ensures Valid() && moment > old(moment) && old(trace) <= trace
      ensures state.phase == match response case Some(r) => Answered(r) case None => Trying
      ensures response.Some? ==> CameIn(response.value, trace, moments(moment))
      ensures failed ==> response.None?
      ensures failed || response.Some? || moments(moment).done
      ensures Attempts(trace) <= AttemptLimit(supervisor.cancelAfter)
      ensures response.None? && !moments(moment).done ==> Attempts(trace) == AttemptLimit(supervisor.cancelAfter)
    {
      hide After, Attempts, StaysDone, CameIn, AttemptLimit, Next;
      response, failed := None, false;
      var proceed := MayTry();
      StillDone(moments, moment - 1, moment);
      while proceed && response.None?
        invariant Valid() && moment > old(moment) && old(trace) <= trace
        invariant state.phase == match response case Some(r) => Answered(r) case None => Trying
        invariant if response.None? && proceed then Attempts(trace) + 1 == supervisor.currentTry
                  else Attempts(trace) == supervisor.currentTry
        invariant supervisor.currentTry <= AttemptLimit(supervisor.cancelAfter)
        invariant failed || response.Some? || proceed || moments(moment).done
        invariant failed ==> response.None?
        invariant response.Some? ==> CameIn(response.value, trace, moments(moment))
        invariant !proceed ==>
                    || moments(moment).done || AttemptLimit(supervisor.cancelAfter) <= supervisor.currentTry
        decreases AttemptLimit(supervisor.cancelAfter) - Attempts(trace), response.None?
      {
        response := TryOnce();
        failed := response.None?;
        if failed {
          proceed := MayTry();
          StillDone(moments, moment - 1, moment);
        }
      }
    }

    /** Ends a call: an error if the context is done or the last attempt failed, and otherwise the response. */
    method Finish(response: Option<Responses.Response>, failed: bool) returns (result: Option<Responses.Response>)
      requires Valid() && state.phase == match response case Some(r) => Answered(r) case None => Trying
      // Without an error and without a done context there is a response: it is never read when it is missing.
      requires moments(moment + 1).done || (failed <==> response.None?)
      modifies `moment, `transactions, `state, `trace
      ensures Valid() && state.phase.Resting? && moment == old(moment) + 1
      ensures result == if moments(old(moment) + 1).done || failed then None else response
      ensures Attempts(trace) == Attempts(old(trace))
      ensures trace == old(trace) + [if result.Some? then Return(false) else if response.Some? then Return(true) else GiveUp]
    {
      hide After, Attempts;
      moment := moment + 1;
      if moments(moment).done {
        Note(if response.Some? then Return(true) else GiveUp);
        return None;
      }
      if failed {
        Note(GiveUp);
        return None;
      }
      if IsWalRequest(request) && !response.value.Error? {
        transactions := (transactions + 1) % U64_SIZE;
      }
      Note(Return(false));
      return response;
    }

    method Disconnect()
      requires Valid() && state.phase.Resting?
      modifies `connected, `state, `trace
      ensures Valid() && state == Next(old(state), Event.Disconnect).value && !connected
    {
      connected := false;
      Note(Event.Disconnect);
    }
  }

  lemma RepliesAreLater(response: Responses.Response, trace: seq<Event>, moment: Moment, command: Command)
    requires CameIn(response, trace, moment) && trace != [] && trace[0] == Call(command)
    ensures |trace| > 1
  {}

  lemma StillDone(moments: nat -> Moment, i: nat, j: nat)
    requires StaysDone(moments) && i <= j
    ensures moments(i).done ==> moments(j).done
  {}
}
