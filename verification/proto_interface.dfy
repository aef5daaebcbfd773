/** src/sc2api/sc2_proto_interface.cc: one request at a time over the connection. The game at
    the other end answers each request once, in order. */
module ProtoInterfaces {
  import opened Connections
  import opened Wrappers

  datatype Status = Launched | InitGame | InGame | InReplay | Ended | Quit | Unknown

  datatype ClientError = ResponseNotConsumed | ResponseMismatch

  /** A response; kind is its case number, 0 when none is set, the same as its request's. */
  datatype Response = Response(kind: nat, errorSize: nat, status: Option<Status>)

  const NOT_SET: nat := 0

  // ---- Both ends as a value ----

  /** pending, status and connected are what the client remembers, errors what it reported;
      inflight holds the requests that the game has yet to answer, queue the responses that the
      client has yet to take; sent and received are the whole conversation. */
  datatype Link = Link(connected: bool, pending: nat, status: Status, errors: seq<ClientError>,
                       inflight: seq<nat>, queue: seq<Response>, sent: seq<nat>, received: seq<Response>)

  predicate Accepts(l: Link, ignorePending: bool, reconnects: bool) {
    (l.connected || reconnects) && (ignorePending || l.pending == NOT_SET)
  }

  /** SendRequest; reconnects says whether Connect would succeed. */
  function Sent(l: Link, kind: nat, ignorePending: bool, reconnects: bool): Link {
    if !l.connected && !reconnects then l
    else if !Accepts(l, ignorePending, reconnects) then l.(connected := true, errors := l.errors + [ResponseNotConsumed])
    else l.(connected := true, inflight := l.inflight + [kind], sent := l.sent + [kind], pending := kind)
  }

  /** WaitForResponseInternal, when Receive hands over a response. */
  function Taken(l: Link): Link
    requires l.queue != []
  {
    var r := l.queue[0];
    l.(queue := l.queue[1..], received := l.received + [r], pending := NOT_SET,
       status := if r.status.Some? then r.status.value else Unknown,
       errors := if r.errorSize == 0 && l.pending != r.kind then l.errors + [ResponseMismatch] else l.errors)
  }

  /** A response that fits the request: of the same kind, unless it reports errors. */
  predicate Answers(r: Response, kind: nat) { r.errorSize > 0 || r.kind == kind }

  datatype Op = Send(kind: nat, ignorePending: bool, reconnects: bool) | Answer(response: Response) | Wait

  /** The game only answers what it was asked; a client that waits with nothing in the queue
      blocks, for as long as there is no timeout. */
  function Next(l: Link, op: Op): Link {
    match op
    case Send(kind, ignorePending, reconnects) => Sent(l, kind, ignorePending, reconnects)
    case Answer(r) =>
      if l.inflight != [] && Answers(r, l.inflight[0]) then l.(inflight := l.inflight[1..], queue := l.queue + [r]) else l
    case Wait => if l.queue != [] then Taken(l) else l
  }

  /** As many requests and responses are on their way as the client knows of. */
  ghost predicate Single(l: Link) {
    |l.inflight| + |l.queue| == if l.pending == NOT_SET then 0 else 1
  }

  /** Every response received belongs to the request of the same number; what is on its way
      belongs to the last one. */
  ghost predicate Matched(l: Link) {
    && |l.sent| == |l.received| + |l.inflight| + |l.queue|
    && (forall i :: 0 <= i < |l.received| ==> Answers(l.received[i], l.sent[i]))
    && (l.pending != NOT_SET ==> l.sent != [] && l.sent[|l.sent| - 1] == l.pending)
    && (forall i :: 0 <= i < |l.inflight| ==> l.inflight[i] == l.pending)
    && (forall i :: 0 <= i < |l.queue| ==> Answers(l.queue[i], l.pending))
    && ResponseMismatch !in l.errors
  }

  /** What the client must not do: send a request of no kind, or send while a response is
      pending and have that ignored. */
  predicate Proper(l: Link, op: Op) {
    op.Send? && Accepts(l, op.ignorePending, op.reconnects) ==> op.kind != NOT_SET && l.pending == NOT_SET
  }

  /** One request at a time is kept up by exactly the proper operations. */
  lemma SingleExactly(l: Link, op: Op)
    requires Single(l)
    ensures Single(Next(l, op)) <==> Proper(l, op)
  {
  }

  lemma NextKeepsMatched(l: Link, op: Op)
    requires Single(l) && Matched(l) && Proper(l, op)
    ensures Matched(Next(l, op))
  {
    var n := Next(l, op);
    match op
    case Send(_, _, _) =>
    case Answer(_) =>
    case Wait =>
      if l.queue != [] {
        assert |l.sent| - 1 == |l.received|;
        assert n.received[|l.received|] == l.queue[0];
      }
  }

  function Run(l: Link, ops: seq<Op>): Link
    decreases |ops|
  {
    if ops == [] then l else Run(Next(l, ops[0]), ops[1..])
  }

  predicate AllProper(l: Link, ops: seq<Op>)
    decreases |ops|
  {
    ops == [] || (Proper(l, ops[0]) && AllProper(Next(l, ops[0]), ops[1..]))
  }

  /** In every run of proper operations, however the answers come in between: at most one
      request or response is on its way, exactly when the client says one is pending; every
      response is that of its own request; and ResponseMismatch is never reported. */
  lemma {:induction false} OneRequestAtATime(l: Link, ops: seq<Op>)
    requires Single(l) && Matched(l) && AllProper(l, ops)
    ensures Single(Run(l, ops)) && Matched(Run(l, ops))
    decreases |ops|
  {
    if ops != [] {
      hide Single, Matched, Proper, Next;
      SingleExactly(l, ops[0]);
      NextKeepsMatched(l, ops[0]);
      OneRequestAtATime(Next(l, ops[0]), ops[1..]);
    }
  }

  // ---- What a run reports, hears and remembers ----

  lemma {:induction false} RunEnds(l: Link, ops: seq<Op>)
    requires ops != []
    ensures Run(l, ops) == Next(Run(l, ops[..|ops| - 1]), ops[|ops| - 1])
    decreases |ops|
  {
    hide Next;
    var last := |ops| - 1;
    if last == 0 {
      assert ops[1..] == [] && ops[..0] == [];
    } else {
      RunEnds(Next(l, ops[0]), ops[1..]);
      assert ops[1..][..last - 1] == ops[..last][1..];
    }
  }

  /** A send that there is a connection for, while a response is pending and counts. */
  predicate Refused(l: Link, op: Op) {
    op.Send? && !op.ignorePending && (l.connected || op.reconnects) && l.pending != NOT_SET
  }

  /** A wait that meets a response without errors and of another kind than the one pending. */
  predicate Mistaken(l: Link, op: Op) {
    op.Wait? && l.queue != [] && l.queue[0].errorSize == 0 && l.queue[0].kind != l.pending
  }

  function RefusedIn(l: Link, ops: seq<Op>): set<nat> { set k: nat | k < |ops| && Refused(Run(l, ops[..k]), ops[k]) }

  function MistakenIn(l: Link, ops: seq<Op>): set<nat> { set k: nat | k < |ops| && Mistaken(Run(l, ops[..k]), ops[k]) }

  lemma OneMoreRefused(l: Link, ops: seq<Op>)
    requires ops != []
    ensures var last := |ops| - 1;
      |RefusedIn(l, ops)| == |RefusedIn(l, ops[..last])| + (if Refused(Run(l, ops[..last]), ops[last]) then 1 else 0)
  {
    hide Refused, Run;
    var last := |ops| - 1;
    var all, before := RefusedIn(l, ops), RefusedIn(l, ops[..last]);
    forall k: nat | k < last ensures k in all <==> k in before {
      assert ops[..last][..k] == ops[..k];
    }
    if Refused(Run(l, ops[..last]), ops[last]) {
      assert all == before + {last};
    } else {
      assert all == before;
    }
  }

  lemma OneMoreMistaken(l: Link, ops: seq<Op>)
    requires ops != []
    ensures var last := |ops| - 1;
      |MistakenIn(l, ops)| == |MistakenIn(l, ops[..last])| + (if Mistaken(Run(l, ops[..last]), ops[last]) then 1 else 0)
  {
    hide Mistaken, Run;
    var last := |ops| - 1;
    var all, before := MistakenIn(l, ops), MistakenIn(l, ops[..last]);
    forall k: nat | k < last ensures k in all <==> k in before {
      assert ops[..last][..k] == ops[..k];
    }
    if Mistaken(Run(l, ops[..last]), ops[last]) {
      assert all == before + {last};
    } else {
      assert all == before;
    }
  }

  /** In any run ResponseNotConsumed is reported once for each refused send and ResponseMismatch
      once for each mistaken wait, and nothing else is reported. */
  lemma {:induction false} RunReports(l: Link, ops: seq<Op>)
    ensures multiset(Run(l, ops).errors)[ResponseNotConsumed] == multiset(l.errors)[ResponseNotConsumed] + |RefusedIn(l, ops)|
    ensures multiset(Run(l, ops).errors)[ResponseMismatch] == multiset(l.errors)[ResponseMismatch] + |MistakenIn(l, ops)|
    ensures l.errors <= Run(l, ops).errors
    decreases |ops|
  {
    if ops != [] {
      var last := |ops| - 1;
      RunReports(l, ops[..last]);
      RunEnds(l, ops);
      OneMoreRefused(l, ops);
      OneMoreMistaken(l, ops);
      hide Run, RefusedIn, MistakenIn;
    }
  }

  /** In any run the status is that of the last response taken, unknown if it names none; the
      responses are taken in the order in which they came, and what is in flight is the end of
      what was sent. */
  lemma {:induction false} RunHears(l: Link, ops: seq<Op>)
    requires |l.inflight| <= |l.sent| && l.inflight == l.sent[|l.sent| - |l.inflight|..]
    ensures var r := Run(l, ops);
      && l.received <= r.received && l.received + l.queue <= r.received + r.queue && l.sent <= r.sent
      && |r.inflight| <= |r.sent| && r.inflight == r.sent[|r.sent| - |r.inflight|..]
      && r.status ==
        if r.received == l.received then l.status
        else match r.received[|r.received| - 1].status case Some(status) => status case None => Unknown
    decreases |ops|
  {
    if ops != [] {
      var last := |ops| - 1;
      RunHears(l, ops[..last]);
      RunEnds(l, ops);
      hide Run;
      NextHears(Run(l, ops[..last]), ops[last]);
    }
  }

  lemma NextHears(l: Link, op: Op)
    requires |l.inflight| <= |l.sent| && l.inflight == l.sent[|l.sent| - |l.inflight|..]
    ensures var n := Next(l, op);
      && l.received <= n.received && l.received + l.queue <= n.received + n.queue && l.sent <= n.sent
      && |n.inflight| <= |n.sent| && n.inflight == n.sent[|n.sent| - |n.inflight|..]
      && n.status ==
        if n.received == l.received then l.status
        else match n.received[|n.received| - 1].status case Some(status) => status case None => Unknown
  {
  }

  /** A connection, once there, stays; it comes with the first send that can reconnect. What is
      sent is the kind of every send that is not refused and has a connection, in order. */
  lemma {:induction false} RunSends(l: Link, ops: seq<Op>)
    ensures Run(l, ops).connected <==> l.connected || exists k :: 0 <= k < |ops| && ops[k].Send? && ops[k].reconnects
    ensures ops != [] ==>
      var last := |ops| - 1; var before := Run(l, ops[..last]);
      Run(l, ops).sent == before.sent +
        if ops[last].Send? && (before.connected || ops[last].reconnects) && !Refused(before, ops[last]) then [ops[last].kind] else []
    decreases |ops|
  {
    if ops != [] {
      var last := |ops| - 1;
      RunSends(l, ops[..last]);
      RunEnds(l, ops);
      hide Run;
      assert forall k :: 0 <= k < |ops| ==> ops[k] == if k == last then ops[last] else ops[..last][k];
    }
  }

  function Fresh(): Link { Link(false, NOT_SET, Unknown, [], [], [], [], []) }

  /** A request that is sent although another is pending, with that ignored, and is followed by
      the answer r to the first and a wait. */
  function Overtaken(l: Link, kind: nat, reconnects: bool, r: Response): Link {
    Next(Next(Next(l, Send(kind, true, reconnects)), Answer(r)), Wait)
  }

  /** That reports a mismatch exactly when r has no errors and is not of the kind of the second
      request. */
  lemma IgnoringPendingMismatches(l: Link, kind: nat, reconnects: bool, r: Response)
    requires Single(l) && Matched(l) && l.connected && l.pending != NOT_SET
    requires l.inflight != [] && Answers(r, l.pending)
    ensures ResponseMismatch in Overtaken(l, kind, reconnects, r).errors <==> r.errorSize == 0 && r.kind != kind
  {
    assert l.inflight[0] == l.pending && l.queue == [];
  }

  /** When the answer is on its way to the client already, it is that answer that mismatches. */
  lemma IgnoringAnsweredMismatches(l: Link, kind: nat, reconnects: bool)
    requires Single(l) && Matched(l) && l.connected && l.pending != NOT_SET && l.queue != []
    ensures ResponseMismatch in Next(Next(l, Send(kind, true, reconnects)), Wait).errors <==>
      l.queue[0].errorSize == 0 && l.queue[0].kind != kind
  {
  }

  // ---- The client's end ----

  class ProtoInterface {
    const connection: Connection<Response>
    var latestStatus: Status
    var responsePending: nat
    var countUses: seq<nat>
    var errors: seq<ClientError>
    ghost var inflight: seq<nat>
    ghost var sent: seq<nat>
    ghost var received: seq<Response>

    constructor (connection: Connection<Response>)
      requires connection.Valid() && connection.queue == [] && !connection.connected
      ensures Valid() && this.connection == connection && countUses == [] && Abs() == Fresh()
    {
      this.connection := connection;
      latestStatus, responsePending := Unknown, NOT_SET;
      countUses, errors := [], [];
      inflight, sent, received := [], [], [];
    }

    ghost predicate Valid()
      reads this, connection
    {
      connection.Valid()
    }

    ghost function Abs(): Link
      reads this, connection
    {
      Link(connection.connected, responsePending, latestStatus, errors, inflight, connection.queue, sent, received)
    }

    /** Every request is counted, whether it is sent or not; the counters are of 32 bits. */
    method CountUse(kind: nat)
      modifies this`countUses
      ensures |countUses| == if kind < |old(countUses)| then |old(countUses)| else kind + 1
      ensures forall k :: 0 <= k < |countUses| ==>
        var before := if k < |old(countUses)| then old(countUses)[k] else 0;
        countUses[k] == if k == kind then (before + 1) % 0x1_0000_0000 else before
    {
      ghost var before := countUses;
      while |countUses| < kind + 1
        invariant before <= countUses && |countUses| <= if kind < |before| then |before| else kind + 1
        invariant forall k :: |before| <= k < |countUses| ==> countUses[k] == 0
      {
        countUses := countUses + [0];
      }
      countUses := countUses[kind := (countUses[kind] + 1) % 0x1_0000_0000];
    }

    method SendRequest(kind: nat, ignorePending: bool, reconnects: bool) returns (ok: bool)
      requires Valid()
      modifies this, connection
      ensures Valid() && Abs() == Sent(old(Abs()), kind, ignorePending, reconnects)
      ensures ok <==> Accepts(old(Abs()), ignorePending, reconnects)
    {
      CountUse(kind);
      if !connection.connected {
        if !reconnects {
          return false;
        }
        connection.connected := true;
      }
      if !ignorePending && HasResponsePending() {
        errors := errors + [ResponseNotConsumed];
        return false;
      }
      inflight, sent := inflight + [kind], sent + [kind];
      responsePending := kind;
      return true;
    }

    predicate HasResponsePending()
      reads this
    {
      responsePending != NOT_SET
    }

    /** With nothing to receive the wait times out: the status is forgotten, the request stays
        pending and the connection is gone. */
    method WaitForResponseInternal() returns (response: Option<Response>)
      requires Valid()
      modifies this, connection
      ensures Valid()
      ensures match response
        case Some(r) => old(Abs()).queue != [] && r == old(Abs()).queue[0] && Abs() == Taken(old(Abs()))
        case None => old(Abs()).queue == [] && Abs() == old(Abs()).(status := Unknown, connected := false)
    {
      latestStatus := Unknown;
      var ok;
      ok, response := connection.Receive();
      if !ok {
        return None;
      }
      var r := response.value;
      if r.status.Some? {
        latestStatus := r.status.value;
      }
      if r.errorSize == 0 {
        var actualResponse := r.kind;
        if responsePending != actualResponse {
          errors := errors + [ResponseMismatch];
        }
      }
      responsePending := NOT_SET;
      received := received + [r];
    }
  }
}
