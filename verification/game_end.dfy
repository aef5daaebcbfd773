/** How an agent is stepped until its game has ended: StepAgents, StepAgentsRealtime and
    CallOnStep of src/sc2api/sc2_coordinator.cc over the client's end of the protocol in
    src/sc2api/sc2_client.cc. What the game and the connection do is the input of a turn. */
module GameEnds {
  import opened ProtoInterfaces
  import opened Wrappers

  datatype AppState = Normal | Crashed | Timeout | TimeoutZombie

  const LEAVE_GAME: nat := 5
  const OBSERVATION: nat := 10
  const STEP: nat := 12
  const PING: nat := 19

  /** What comes of waiting: a response, or silence. In silence the process is looked for, then
      pinged, then killed. */
  datatype Reply = Answered(response: Response) | Silent(running: bool, pingSent: bool, ping: Option<Response>, killed: bool)

  /** A request that a callback or SendActions makes. */
  datatype Exchange = Exchange(kind: nat, connects: bool, waitsAnyway: bool, reply: Reply)

  datatype Poll = Poll(ready: bool, reply: Reply)

  /** All that can happen to an agent while it is stepped once: connects says whether there is
      a connection to send over, lookups what is asked for while an observation is taken in,
      callbacks what the callbacks of a step ask, farewell what OnGameEnd asks. */
  datatype Turn = Turn(poll: Poll, secondPoll: Poll, stepConnects: bool, step: Reply,
                       observationConnects: bool, observation: Reply, lookups: seq<Exchange>,
                       callbacks: seq<Exchange>, farewell: seq<Exchange>, leaveConnects: bool)

  /** An agent and its control; gameEnds counts the calls of OnGameEnd. */
  datatype Agent = Agent(multiplayer: bool, app: AppState, status: Status, pending: nat, gameEnds: nat)

  datatype Mode = MultiThreaded | SingleThreaded | Realtime

  // ---- The control as a value ----

  predicate IsPlay(s: Status) { s.InGame? || s.InReplay? }

  predicate Playing(a: Agent) { a.app.Normal? && IsPlay(a.status) }

  predicate Finished(a: Agent) { !a.app.Normal? || (!Playing(a) && a.pending == NOT_SET) }

  predicate Sends(a: Agent, connects: bool) { connects && a.pending == NOT_SET }

  function Requested(a: Agent, kind: nat, connects: bool): Agent { if Sends(a, connects) then a.(pending := kind) else a }

  function StatusOf(r: Response): Status { if r.status.Some? then r.status.value else Unknown }

  function Heard(a: Agent, r: Response): Agent { a.(status := StatusOf(r), pending := NOT_SET) }

  function Gone(a: Agent, killed: bool): Agent { a.(status := Unknown, app := if killed then Timeout else TimeoutZombie) }

  /** WaitForResponse. */
  function Awaited(a: Agent, reply: Reply): Agent {
    match reply
    case Answered(r) => Heard(a, r)
    case Silent(running, pingSent, ping, killed) =>
      if !running then a.(status := Unknown, app := Crashed)
      else if !pingSent then Gone(a, killed)
      else if ping.Some? then Heard(a, ping.value)
      else Gone(a.(pending := PING), killed)
  }

  function Exchanged(a: Agent, x: Exchange): Agent {
    if Sends(a, x.connects) || x.waitsAnyway then Awaited(Requested(a, x.kind, x.connects), x.reply) else a
  }

  function ExchangedAll(a: Agent, xs: seq<Exchange>): Agent
    decreases |xs|
  {
    if xs == [] then a else ExchangedAll(Exchanged(a, xs[0]), xs[1..])
  }

  predicate ObservationTaken(reply: Reply) { reply.Answered? && reply.response.kind == OBSERVATION && reply.response.errorSize == 0 }

  /** GetObservation. */
  function Observed(a: Agent, t: Turn): Agent {
    if a.app.Normal? && Sends(a, t.observationConnects) then
      var b := Awaited(Requested(a, OBSERVATION, t.observationConnects), t.observation);
      if ObservationTaken(t.observation) then ExchangedAll(b, t.lookups) else b
    else a
  }

  predicate StepTaken(reply: Reply) { reply.Answered? && reply.response.kind == STEP && reply.response.errorSize == 0 }

  /** Step and WaitStep. */
  function Stepped(a: Agent, t: Turn): Agent {
    var b := Awaited(Requested(a, STEP, t.stepConnects), t.step);
    if StepTaken(t.step) then Observed(b, t) else b
  }

  /** PollLeaveGame: whether the agent is done with, and what became of it. */
  function LeavePolled(a: Agent, p: Poll): (bool, Agent) {
    if !a.multiplayer then (false, a)
    else if a.pending != LEAVE_GAME then (!Playing(a), a)
    else (true, if p.ready then Awaited(a, p.reply) else a)
  }

  /** OnGameEnd and RequestLeaveGame. */
  function Farewell(a: Agent, t: Turn): Agent {
    var b := ExchangedAll(a.(gameEnds := a.gameEnds + 1), t.farewell);
    if b.multiplayer then Requested(b, LEAVE_GAME, t.leaveConnects) else b
  }

  function CalledOnStep(a: Agent, t: Turn): Agent {
    if Playing(a) then ExchangedAll(a, t.callbacks) else Farewell(a, t)
  }

  predicate Skips(a: Agent, t: Turn) { !a.app.Normal? || LeavePolled(a, t.poll).0 || Finished(LeavePolled(a, t.poll).1) }

  function Skipped(a: Agent, t: Turn): Agent { if a.app.Normal? then LeavePolled(a, t.poll).1 else a }

  /** One turn of the agent. */
  function Turned(a: Agent, t: Turn, mode: Mode): Agent {
    match mode
    case MultiThreaded => if Skips(a, t) then Skipped(a, t) else CalledOnStep(Stepped(a, t), t)
    case SingleThreaded =>
      var b := if Skips(a, t) then Skipped(a, t) else Stepped(a, t);
      if !b.app.Normal? then b
      else if LeavePolled(b, t.secondPoll).0 then LeavePolled(b, t.secondPoll).1
      else CalledOnStep(b, t)
    case Realtime =>
      if Skips(a, t) then Skipped(a, t)
      else
        var b := ExchangedAll(Observed(a, t), t.callbacks);
        if Playing(b) then b else Farewell(b, t)
  }

  function After(a: Agent, ts: seq<Turn>, mode: Mode): Agent
    decreases |ts|
  {
    if ts == [] then a else After(Turned(a, ts[0], mode), ts[1..], mode)
  }

  /** The agent and the client's end of a link agree on what is pending and on the status. */
  predicate Agrees(a: Agent, l: Link) { a.pending == l.pending && a.status == l.status }

  /** Requests and responses do to an agent what they do to the client's end of its link. */
  lemma AgentFollowsLink(a: Agent, l: Link, kind: nat, reconnects: bool)
    requires Agrees(a, l)
    ensures Agrees(Requested(a, kind, l.connected || reconnects), Sent(l, kind, false, reconnects))
    ensures Sends(a, l.connected || reconnects) <==> Accepts(l, false, reconnects)
    ensures l.queue != [] ==> Agrees(Awaited(a, Answered(l.queue[0])), Taken(l))
  {
  }

  // ---- What waiting leaves behind ----

  /** Between turns only a request to leave can be pending, and only in multiplayer. */
  predicate Settled(a: Agent) { a.app.Normal? ==> a.pending == NOT_SET || (a.multiplayer && a.pending == LEAVE_GAME) }

  /** The agent is settled; it is the same one, and nothing has ended since. */
  predicate Onward(a: Agent, b: Agent) {
    Settled(b) && b.multiplayer == a.multiplayer && b.gameEnds == a.gameEnds && (b.app.Normal? ==> a.app.Normal?)
  }

  /** Waiting leaves nothing pending, or else the application is given up. */
  lemma AwaitedSettles(a: Agent, reply: Reply)
    ensures var b := Awaited(a, reply);
      && (b.app.Normal? ==> b.pending == NOT_SET)
      && b.multiplayer == a.multiplayer && b.gameEnds == a.gameEnds && (b.app.Normal? ==> a.app.Normal?)
  {
  }

  lemma {:induction false} ExchangesSettle(a: Agent, xs: seq<Exchange>)
    requires Settled(a)
    ensures Onward(a, ExchangedAll(a, xs))
    decreases |xs|
  {
    if xs != [] {
      AwaitedSettles(Requested(a, xs[0].kind, xs[0].connects), xs[0].reply);
      ExchangesSettle(Exchanged(a, xs[0]), xs[1..]);
    }
  }

  lemma ObservationSettles(a: Agent, t: Turn)
    requires Settled(a)
    ensures Onward(a, Observed(a, t))
  {
    hide Awaited, ExchangedAll;
    var b := Requested(a, OBSERVATION, t.observationConnects);
    AwaitedSettles(b, t.observation);
    if a.app.Normal? && Sends(a, t.observationConnects) { ExchangesSettle(Awaited(b, t.observation), t.lookups); }
  }

  lemma StepSettles(a: Agent, t: Turn)
    requires Settled(a)
    ensures Onward(a, Stepped(a, t)) && Onward(a, Observed(a, t))
  {
    hide Awaited, Observed;
    var b := Requested(a, STEP, t.stepConnects);
    AwaitedSettles(b, t.step);
    ObservationSettles(a, t);
    ObservationSettles(Awaited(b, t.step), t);
  }

  lemma PollSettles(a: Agent, p: Poll)
    requires Settled(a)
    ensures Onward(a, LeavePolled(a, p).1)
  {
    hide Awaited;
    AwaitedSettles(a, p.reply);
  }

  lemma FarewellSettles(a: Agent, t: Turn)
    requires Settled(a)
    ensures var b := Farewell(a, t); Settled(b) && b.multiplayer == a.multiplayer && b.gameEnds == a.gameEnds + 1
  {
    ExchangesSettle(a.(gameEnds := a.gameEnds + 1), t.farewell);
  }

  /** The polls of a turn let an agent through to be stepped exactly when it is in a game with
      nothing pending. */
  lemma SteppedExactly(a: Agent, t: Turn)
    requires Settled(a)
    ensures !Skips(a, t) <==> Playing(a) && a.pending == NOT_SET
    ensures Finished(a) && !a.multiplayer ==> Skipped(a, t) == a
  {
    hide Awaited;
  }

  // ---- When OnGameEnd is called ----

  /** The state in which a turn looks whether the game goes on. */
  function Looked(a: Agent, t: Turn, mode: Mode): Agent {
    if mode.Realtime? then ExchangedAll(Observed(a, t), t.callbacks) else Stepped(a, t)
  }

  /** In multi-threaded and realtime stepping OnGameEnd is called exactly by the turns that
      begin in the game, with no request to leave pending, and end outside it. */
  lemma EndsExactly(a: Agent, t: Turn, mode: Mode)
    requires Settled(a) && !mode.SingleThreaded?
    ensures Settled(Turned(a, t, mode)) && Turned(a, t, mode).multiplayer == a.multiplayer
    ensures Turned(a, t, mode).gameEnds ==
      a.gameEnds + if Playing(a) && a.pending == NOT_SET && !Playing(Looked(a, t, mode)) then 1 else 0
  {
    hide Stepped, Observed, ExchangedAll, Farewell, Awaited;
    PollSettles(a, t.poll);
    StepSettles(a, t);
    ExchangesSettle(Stepped(a, t), t.callbacks);
    ExchangesSettle(Observed(a, t), t.callbacks);
    FarewellSettles(Stepped(a, t), t);
    FarewellSettles(ExchangedAll(Observed(a, t), t.callbacks), t);
  }

  // ---- What a turn leaves, by the responses that come ----

  /** The exchange waits for a response: its request is sent, or it waits without. */
  predicate Waits(x: Exchange) { x.connects || x.waitsAnyway }

  ghost predicate AllAnswered(xs: seq<Exchange>) { forall i :: 0 <= i < |xs| && Waits(xs[i]) ==> xs[i].reply.Answered? }

  function ResponsesTo(xs: seq<Exchange>): seq<Response>
    requires AllAnswered(xs)
    decreases |xs|
  {
    if xs == [] then [] else (if Waits(xs[0]) then [xs[0].reply.response] else []) + ResponsesTo(xs[1..])
  }

  /** The status named by the last of some responses, or the old one if there are none. */
  function LastStatus(status: Status, rs: seq<Response>): Status {
    if rs == [] then status
    else match rs[|rs| - 1].status case Some(s) => s case None => Unknown
  }

  /** A turn in which whatever is sent is answered. */
  ghost predicate Smooth(t: Turn) {
    t.step.Answered? && t.observation.Answered? && AllAnswered(t.lookups) && AllAnswered(t.callbacks) && AllAnswered(t.farewell)
  }

  /** The responses that come while an observation is asked for and taken in. */
  function HeardObserving(t: Turn): seq<Response>
    requires Smooth(t)
  {
    var r := t.observation.response;
    if !t.observationConnects then []
    else if r.kind == OBSERVATION && r.errorSize == 0 then [r] + ResponsesTo(t.lookups)
    else [r]
  }

  /** The responses that come before the turn looks whether the game goes on. */
  function HeardBefore(t: Turn, mode: Mode): seq<Response>
    requires Smooth(t)
  {
    var r := t.step.response;
    if mode.Realtime? then HeardObserving(t) + ResponsesTo(t.callbacks)
    else if r.kind == STEP && r.errorSize == 0 then [r] + HeardObserving(t)
    else [r]
  }

  lemma LaterStatus(status: Status, rs: seq<Response>, more: seq<Response>)
    ensures LastStatus(status, rs + more) == LastStatus(LastStatus(status, rs), more)
  {
  }

  lemma {:induction false} ExchangesHear(a: Agent, xs: seq<Exchange>)
    requires a.pending == NOT_SET && AllAnswered(xs)
    ensures ExchangedAll(a, xs) == a.(status := LastStatus(a.status, ResponsesTo(xs)))
    decreases |xs|
  {
    if xs != [] {
      var b, first := Exchanged(a, xs[0]), if Waits(xs[0]) then [xs[0].reply.response] else [];
      assert b == a.(status := LastStatus(a.status, first));
      ExchangesHear(b, xs[1..]);
      LaterStatus(a.status, first, ResponsesTo(xs[1..]));
    }
  }

  lemma ObservingHears(a: Agent, t: Turn)
    requires a.app.Normal? && a.pending == NOT_SET && Smooth(t)
    ensures Observed(a, t) == a.(status := LastStatus(a.status, HeardObserving(t)))
  {
    var b := Heard(Requested(a, OBSERVATION, t.observationConnects), t.observation.response);
    if t.observationConnects {
      assert b == a.(status := LastStatus(a.status, [t.observation.response]));
      ExchangesHear(b, t.lookups);
      LaterStatus(a.status, [t.observation.response], ResponsesTo(t.lookups));
    }
    hide ExchangedAll;
  }

  lemma SteppingHears(a: Agent, t: Turn)
    requires a.app.Normal? && a.pending == NOT_SET && Smooth(t)
    ensures Stepped(a, t) == a.(status := LastStatus(a.status, HeardBefore(t, MultiThreaded)))
  {
    var b := Heard(Requested(a, STEP, t.stepConnects), t.step.response);
    assert b == a.(status := LastStatus(a.status, [t.step.response]));
    ObservingHears(b, t);
    LaterStatus(a.status, [t.step.response], HeardObserving(t));
    hide Observed, HeardObserving;
  }

  lemma LooksHear(a: Agent, t: Turn)
    requires a.app.Normal? && a.pending == NOT_SET && Smooth(t)
    ensures ExchangedAll(Observed(a, t), t.callbacks) == a.(status := LastStatus(a.status, HeardBefore(t, Realtime)))
  {
    ObservingHears(a, t);
    ExchangesHear(Observed(a, t), t.callbacks);
    LaterStatus(a.status, HeardObserving(t), ResponsesTo(t.callbacks));
    hide Observed, ExchangedAll, HeardObserving, ResponsesTo, LastStatus;
  }

  /** The turn calls OnGameEnd, by the status when it looks. In single-threaded multiplayer
      the call is skipped. */
  predicate CallsEnd(a: Agent, status: Status, mode: Mode) { !IsPlay(status) && !(mode.SingleThreaded? && a.multiplayer) }

  /** What callbacks and OnGameEnd ask for after that. */
  function AskedAfter(a: Agent, t: Turn, status: Status, mode: Mode): seq<Exchange> {
    if CallsEnd(a, status, mode) then t.farewell
    else if IsPlay(status) && !mode.Realtime? then t.callbacks
    else []
  }

  /** A turn of an agent in its game with nothing pending, when all that is sent is answered: it
      heeds the last response before it looks. If that reports a game, the game goes on. If not,
      OnGameEnd is called, once, and in multiplayer the request to leave is sent and pending. */
  lemma SmoothTurn(a: Agent, t: Turn, mode: Mode)
    requires Playing(a) && a.pending == NOT_SET && Smooth(t)
    ensures var status := LastStatus(a.status, HeardBefore(t, mode)); var after := AskedAfter(a, t, status, mode);
      AllAnswered(after) && Turned(a, t, mode) == Agent(a.multiplayer, Normal, LastStatus(status, ResponsesTo(after)),
        if CallsEnd(a, status, mode) && a.multiplayer && t.leaveConnects then LEAVE_GAME else NOT_SET,
        a.gameEnds + if CallsEnd(a, status, mode) then 1 else 0)
  {
    SteppedExactly(a, t);
    SteppingHears(a, t);
    LooksHear(a, t);
    var b := a.(status := LastStatus(a.status, HeardBefore(t, mode)));
    ExchangesHear(b, t.callbacks);
    ExchangesHear(b.(gameEnds := b.gameEnds + 1), t.farewell);
    hide Observed, Stepped, ExchangedAll, Awaited, HeardBefore, Skips, AllAnswered, ResponsesTo, LastStatus, Finished;
  }

  /** A realtime turn without callbacks calls OnGameEnd exactly if its observation, when asked
      for, is answered with a status other than in_game and in_replay; the agent keeps that. */
  lemma RealtimeHeedsObservation(a: Agent, t: Turn)
    requires Playing(a) && a.pending == NOT_SET && Smooth(t) && t.lookups == [] && t.callbacks == [] && t.farewell == []
    requires t.observationConnects
    ensures var b, status := Turned(a, t, Realtime), StatusOf(t.observation.response);
      && b.status == status && b.app.Normal?
      && (b.gameEnds == a.gameEnds + 1 <==> !status.InGame? && !status.InReplay?) && a.gameEnds <= b.gameEnds <= a.gameEnds + 1
      && (IsPlay(status) ==> b.pending == NOT_SET)
  {
    SmoothTurn(a, t, Realtime);
    hide Turned;
  }

  /** What silence leaves: the application crashed when it is gone, timed out when it runs and no
      ping comes back, killed or not; a ping that comes back counts as a response. */
  predicate LeftSilent(b: Agent, reply: Reply)
    requires reply.Silent?
  {
    && (b.app.Crashed? <==> !reply.running)
    && (b.app.Normal? <==> reply.running && reply.pingSent && reply.ping.Some?)
    && (b.app.Timeout? <==> reply.running && !(reply.pingSent && reply.ping.Some?) && reply.killed)
    && (b.app.TimeoutZombie? <==> reply.running && !(reply.pingSent && reply.ping.Some?) && !reply.killed)
    && b.status == if b.app.Normal? then LastStatus(Unknown, [reply.ping.value]) else Unknown
  }

  /** The request whose answer a turn waits for first. */
  function FirstReply(t: Turn, mode: Mode): Reply { if mode.Realtime? then t.observation else t.step }

  /** A turn that meets silence calls OnGameEnd, unless a ping comes back and reports a game. The
      ping that does not come back stays pending, and else the request that was not answered. */
  lemma SilentTurn(a: Agent, t: Turn, mode: Mode)
    requires Playing(a) && a.pending == NOT_SET && !mode.SingleThreaded? && t.callbacks == [] && t.farewell == []
    requires FirstReply(t, mode).Silent? && (mode.Realtime? ==> t.observationConnects)
    ensures var b, reply := Turned(a, t, mode), FirstReply(t, mode);
      && LeftSilent(b, reply)
      && (reply.running && reply.pingSent && reply.ping.None? ==> b.pending == PING)
      && (!(reply.running && reply.pingSent) ==>
            (mode.Realtime? ==> b.pending == OBSERVATION) && (mode.MultiThreaded? && t.stepConnects ==> b.pending == STEP))
      && b.gameEnds == a.gameEnds + if reply.running && reply.pingSent && reply.ping.Some? && IsPlay(StatusOf(reply.ping.value)) then 0 else 1
  {
    SteppedExactly(a, t);
  }

  /** An application that is given up is stepped no more. */
  lemma GivenUpIsLeft(a: Agent, t: Turn, mode: Mode)
    requires !a.app.Normal?
    ensures Turned(a, t, mode) == a
  {
  }

  /** With a request to leave pending, an agent only takes the answer to that,
      once it is there. */
  lemma LeavingIsPolled(a: Agent, t: Turn, mode: Mode)
    requires a.app.Normal? && a.multiplayer && a.pending == LEAVE_GAME && !mode.SingleThreaded?
    requires t.poll.ready ==> t.poll.reply.Answered?
    ensures Turned(a, t, mode) ==
      if t.poll.ready then a.(status := LastStatus(Unknown, [t.poll.reply.response]), pending := NOT_SET) else a
  {
  }

  // ---- After the game ----

  predicate QuietReply(r: Reply) {
    match r
    case Answered(response) => !IsPlay(StatusOf(response))
    case Silent(_, _, ping, _) => ping.Some? ==> !IsPlay(StatusOf(ping.value))
  }

  predicate QuietExchanges(xs: seq<Exchange>) { forall i :: 0 <= i < |xs| ==> QuietReply(xs[i].reply) }

  /** No response reports in_game or in_replay. */
  predicate Quiet(t: Turn) {
    && QuietReply(t.poll.reply) && QuietReply(t.secondPoll.reply) && QuietReply(t.step) && QuietReply(t.observation)
    && QuietExchanges(t.lookups) && QuietExchanges(t.callbacks) && QuietExchanges(t.farewell)
  }

  lemma {:induction false} QuietStaysOut(a: Agent, xs: seq<Exchange>)
    requires !Playing(a) && QuietExchanges(xs)
    ensures !Playing(ExchangedAll(a, xs))
    decreases |xs|
  {
    if xs != [] { QuietStaysOut(Exchanged(a, xs[0]), xs[1..]); }
  }

  ghost predicate EndsNow(a: Agent, t: Turn, mode: Mode) { Turned(a, t, mode).gameEnds > a.gameEnds }

  /** From the first end on, nothing reports that a game is on. */
  ghost predicate QuietAfterEnd(a: Agent, ts: seq<Turn>, mode: Mode)
    decreases |ts|
  {
    ts == [] ||
    if EndsNow(a, ts[0], mode) then QuietExchanges(ts[0].farewell) && forall k :: 1 <= k < |ts| ==> Quiet(ts[k])
    else QuietAfterEnd(Turned(a, ts[0], mode), ts[1..], mode)
  }

  /** An agent outside a game is polled at most. */
  lemma OutStaysOut(a: Agent, t: Turn, mode: Mode)
    requires Settled(a) && !Playing(a) && Quiet(t) && !mode.SingleThreaded?
    ensures Turned(a, t, mode) == Skipped(a, t) && !Playing(Skipped(a, t))
    ensures Settled(Skipped(a, t)) && Skipped(a, t).gameEnds == a.gameEnds && Skipped(a, t).multiplayer == a.multiplayer
  {
    PollSettles(a, t.poll);
  }

  lemma {:induction false} NeverAgain(a: Agent, ts: seq<Turn>, mode: Mode)
    requires Settled(a) && !Playing(a) && !mode.SingleThreaded? && forall k :: 0 <= k < |ts| ==> Quiet(ts[k])
    ensures After(a, ts, mode).gameEnds == a.gameEnds
    decreases |ts|
  {
    if ts != [] {
      OutStaysOut(a, ts[0], mode);
      NeverAgain(Turned(a, ts[0], mode), ts[1..], mode);
    }
  }

  lemma EndLeavesGame(a: Agent, t: Turn, mode: Mode)
    requires Settled(a) && !mode.SingleThreaded? && EndsNow(a, t, mode) && QuietExchanges(t.farewell)
    ensures !Playing(Turned(a, t, mode))
  {
    hide Stepped, Observed, ExchangedAll, Awaited;
    EndsExactly(a, t, mode);
    var b := Looked(a, t, mode);
    QuietStaysOut(b.(gameEnds := b.gameEnds + 1), t.farewell);
    StepSettles(a, t);
    PollSettles(a, t.poll);
    ExchangesSettle(Observed(a, t), t.callbacks);
    ExchangesSettle(Stepped(a, t), t.callbacks);
  }

  /** In multi-threaded and realtime stepping, OnGameEnd is called at most once if nothing after
      it reports a game, whether or not the request to leave could be sent. */
  lemma {:induction false} EndsAtMostOnce(a: Agent, ts: seq<Turn>, mode: Mode)
    requires Settled(a) && !mode.SingleThreaded? && QuietAfterEnd(a, ts, mode)
    ensures a.gameEnds <= After(a, ts, mode).gameEnds <= a.gameEnds + 1
    decreases |ts|
  {
    if ts != [] {
      hide Turned, Settled, Quiet, QuietExchanges, Playing;
      EndsExactly(a, ts[0], mode);
      var b := Turned(a, ts[0], mode);
      if EndsNow(a, ts[0], mode) {
        EndLeavesGame(a, ts[0], mode);
        NeverAgain(b, ts[1..], mode);
      } else {
        EndsAtMostOnce(b, ts[1..], mode);
      }
    }
  }

  // ---- The single-threaded path ----

  /** There OnGameEnd is called by every turn that finds an agent with a working application
      outside a game, but never in multiplayer: the second poll skips the call. */
  lemma SingleThreadedEndsExactly(a: Agent, t: Turn)
    requires Settled(a)
    ensures Settled(Turned(a, t, SingleThreaded)) && Turned(a, t, SingleThreaded).multiplayer == a.multiplayer
    ensures var b := if Skips(a, t) then Skipped(a, t) else Stepped(a, t);
      Turned(a, t, SingleThreaded).gameEnds == a.gameEnds + if !a.multiplayer && b.app.Normal? && !Playing(b) then 1 else 0
  {
    hide Stepped, Observed, ExchangedAll, Farewell, Awaited;
    PollSettles(a, t.poll);
    StepSettles(a, t);
    var b := if Skips(a, t) then Skipped(a, t) else Stepped(a, t);
    PollSettles(b, t.secondPoll);
    ExchangesSettle(b, t.callbacks);
    FarewellSettles(b, t);
  }

  /** In single-threaded multiplayer OnGameEnd is never called. */
  lemma {:induction false} SingleThreadedMultiplayerNeverEnds(a: Agent, ts: seq<Turn>)
    requires Settled(a) && a.multiplayer
    ensures After(a, ts, SingleThreaded).gameEnds == a.gameEnds
    decreases |ts|
  {
    if ts != [] {
      hide Turned, Settled;
      SingleThreadedEndsExactly(a, ts[0]);
      SingleThreadedMultiplayerNeverEnds(Turned(a, ts[0], SingleThreaded), ts[1..]);
    }
  }

  /** In a single-threaded game against the computer it is called by every turn after the end. */
  lemma {:induction false} SingleThreadedSoloEndsAgain(a: Agent, ts: seq<Turn>)
    requires a.app.Normal? && a.pending == NOT_SET && !Playing(a) && !a.multiplayer
    requires forall k :: 0 <= k < |ts| ==> ts[k].farewell == []
    ensures After(a, ts, SingleThreaded).gameEnds == a.gameEnds + |ts|
    decreases |ts|
  {
    if ts != [] {
      var b := Turned(a, ts[0], SingleThreaded);
      assert ExchangedAll(a.(gameEnds := a.gameEnds + 1), ts[0].farewell) == a.(gameEnds := a.gameEnds + 1);
      assert b == a.(gameEnds := a.gameEnds + 1);
      SingleThreadedSoloEndsAgain(b, ts[1..]);
    }
  }

  // ---- The control as it runs ----

  class Control {
    const isMultiplayer: bool
    var appState: AppState
    var latestStatus: Status
    var responsePending: nat
    var gameEnds: nat

    /** A game that was just joined. */
    constructor (multiplayer: bool, status: Status)
      ensures Abs() == Agent(multiplayer, Normal, status, NOT_SET, 0)
    {
      isMultiplayer := multiplayer;
      appState, latestStatus, responsePending, gameEnds := Normal, status, NOT_SET, 0;
    }

    ghost function Abs(): Agent
      reads this
    {
      Agent(isMultiplayer, appState, latestStatus, responsePending, gameEnds)
    }

    predicate IsInGame()
      reads this
      ensures IsInGame() <==> Playing(Abs())
    {
      appState == Normal && (latestStatus == InGame || latestStatus == InReplay)
    }

    predicate HasResponsePending() reads this { responsePending != NOT_SET }

    predicate IsFinishedGame()
      reads this
      ensures IsFinishedGame() <==> Finished(Abs())
    {
      if appState != Normal then true
      else if IsInGame() then false
      else if HasResponsePending() then false
      else true
    }

    method SendRequest(kind: nat, connects: bool) returns (ok: bool)
      modifies this`responsePending
      ensures Abs() == Requested(old(Abs()), kind, connects) && ok == Sends(old(Abs()), connects)
    {
      if !connects || HasResponsePending() {
        return false;
      }
      responsePending := kind;
      return true;
    }

    method TakeResponse(r: Response)
      modifies this`latestStatus, this`responsePending
      ensures Abs() == Heard(old(Abs()), r)
    {
      latestStatus := Unknown;
      if r.status.Some? {
        latestStatus := r.status.value;
      }
      responsePending := NOT_SET;
    }

    method WaitForResponse(reply: Reply)
      modifies this`appState, this`latestStatus, this`responsePending
      ensures Abs() == Awaited(old(Abs()), reply)
    {
      match reply
      case Answered(r) => TakeResponse(r);
      case Silent(running, pingSent, ping, killed) =>
        latestStatus := Unknown;
        if !running {
          appState := Crashed;
          return;
        }
        if pingSent {
          responsePending := PING;
          if ping.Some? {
            TakeResponse(ping.value);
            return;
          }
        }
        appState := Timeout;
        if !killed {
          appState := TimeoutZombie;
        }
    }

    method MakeCalls(calls: seq<Exchange>)
      modifies this`appState, this`latestStatus, this`responsePending
      ensures Abs() == ExchangedAll(old(Abs()), calls)
    {
      hide Awaited;
      for i := 0 to |calls|
        invariant ExchangedAll(Abs(), calls[i..]) == ExchangedAll(old(Abs()), calls)
      {
        assert calls[i..][1..] == calls[i + 1..];
        var ok := SendRequest(calls[i].kind, calls[i].connects);
        if ok || calls[i].waitsAnyway {
          WaitForResponse(calls[i].reply);
        }
      }
    }

    method GetObservation(t: Turn)
      modifies this`appState, this`latestStatus, this`responsePending
      ensures Abs() == Observed(old(Abs()), t)
    {
      hide Awaited, ExchangedAll;
      if appState != Normal {
        return;
      }
      var ok := SendRequest(OBSERVATION, t.observationConnects);
      if !ok {
        return;
      }
      WaitForResponse(t.observation);
      if t.observation.Silent? || t.observation.response.kind != OBSERVATION || t.observation.response.errorSize > 0 {
        return;
      }
      MakeCalls(t.lookups);
    }

    method Step(t: Turn)
      modifies this`responsePending
      ensures Abs() == if old(appState).Normal? then Requested(old(Abs()), STEP, t.stepConnects) else old(Abs())
    {
      if appState == Normal {
        var _ := SendRequest(STEP, t.stepConnects);
      }
    }

    method WaitStep(t: Turn)
      modifies this`appState, this`latestStatus, this`responsePending
      ensures Abs() == var b := Awaited(old(Abs()), t.step); if StepTaken(t.step) then Observed(b, t) else b
    {
      hide Awaited, Observed;
      WaitForResponse(t.step);
      if t.step.Silent? || t.step.response.kind != STEP || t.step.response.errorSize > 0 {
        return;
      }
      GetObservation(t);
    }

    method PollLeaveGame(p: Poll) returns (left: bool)
      modifies this`appState, this`latestStatus, this`responsePending
      ensures (left, Abs()) == LeavePolled(old(Abs()), p)
    {
      hide Awaited;
      if !isMultiplayer {
        return false;
      }
      if responsePending != LEAVE_GAME {
        return !IsInGame();
      }
      if !p.ready {
        return true;
      }
      WaitForResponse(p.reply);
      return true;
    }

    method RequestLeaveGame(connects: bool)
      modifies this`responsePending
      ensures Abs() == if isMultiplayer then Requested(old(Abs()), LEAVE_GAME, connects) else old(Abs())
    {
      if isMultiplayer {
        var _ := SendRequest(LEAVE_GAME, connects);
      }
    }

    method OnGameEnd(t: Turn)
      modifies this
      ensures Abs() == ExchangedAll(old(Abs()).(gameEnds := old(gameEnds) + 1), t.farewell)
    {
      gameEnds := gameEnds + 1;
      MakeCalls(t.farewell);
    }

    method CallOnStep(t: Turn)
      modifies this
      ensures Abs() == CalledOnStep(old(Abs()), t)
    {
      hide ExchangedAll;
      if !IsInGame() {
        OnGameEnd(t);
        RequestLeaveGame(t.leaveConnects);
        return;
      }
      MakeCalls(t.callbacks);
    }

    method StepAgent(t: Turn, multiThreaded: bool)
      modifies this
      ensures Abs() == if Skips(old(Abs()), t) then Skipped(old(Abs()), t)
        else if multiThreaded then CalledOnStep(Stepped(old(Abs()), t), t) else Stepped(old(Abs()), t)
    {
      hide Awaited, ExchangedAll, CalledOnStep, Observed;
      if appState != Normal {
        return;
      }
      var left := PollLeaveGame(t.poll);
      if left {
        return;
      }
      if IsFinishedGame() {
        return;
      }
      Step(t);
      WaitStep(t);
      if multiThreaded {
        CallOnStep(t);
      }
    }

    method StepAgents(t: Turn, multiThreaded: bool)
      modifies this
      ensures Abs() == Turned(old(Abs()), t, if multiThreaded then MultiThreaded else SingleThreaded)
    {
      hide Awaited, ExchangedAll, CalledOnStep, Observed, Stepped, Skips;
      StepAgent(t, multiThreaded);
      if !multiThreaded {
        if appState != Normal {
          return;
        }
        var left := PollLeaveGame(t.secondPoll);
        if left {
          return;
        }
        CallOnStep(t);
      }
    }

    method StepAgentsRealtime(t: Turn)
      modifies this
      ensures Abs() == Turned(old(Abs()), t, Realtime)
    {
      hide Awaited, ExchangedAll, Observed;
      if appState != Normal {
        return;
      }
      var left := PollLeaveGame(t.poll);
      if left {
        return;
      }
      if IsFinishedGame() {
        return;
      }
      GetObservation(t);
      MakeCalls(t.callbacks);
      if !IsInGame() {
        OnGameEnd(t);
        RequestLeaveGame(t.leaveConnects);
      }
    }
  }
}
