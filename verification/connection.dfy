/** src/sc2api/sc2_connection.cc: the queue of responses that the socket threads fill and the
    client's thread empties. First the class, whose methods run one after the other; then the
    same code step by step, with any number of threads between any two steps. */
module Connections {
  import opened Wrappers

  class Connection<T> {
    var queue: seq<T>
    var hasResponse: bool
    var connected: bool

    constructor ()
      ensures Valid() && queue == [] && !connected
    {
      queue, hasResponse, connected := [], false, false;
    }

    ghost predicate Valid() reads this { hasResponse <==> queue != [] }

    method PushResponse(response: T)
      requires Valid()
      modifies this`queue, this`hasResponse
      ensures Valid() && queue == old(queue) + [response]
    {
      queue := queue + [response];
      hasResponse := true;
    }

    method PopResponse() returns (response: Option<T>)
      requires Valid()
      modifies this`queue, this`hasResponse
      ensures Valid()
      ensures match response { case None => old(queue) == queue == [] case Some(r) => old(queue) == [r] + queue }
    {
      if queue == [] {
        return None;
      }
      response := Some(queue[0]);
      queue := queue[1..];
      if queue == [] {
        hasResponse := false;
      }
    }

    /** Nothing in the queue is a timeout, since here nobody fills it meanwhile. */
    method Receive() returns (received: bool, response: Option<T>)
      requires Valid()
      modifies this
      ensures Valid() && received == (old(queue) != []) == response.Some?
      ensures received ==> old(queue) == [response.value] + queue && connected == old(connected)
      ensures !received ==> queue == [] && !connected
    {
      if queue != [] {
        response := PopResponse();
        return true, response;
      }
      connected := false;
      queue := [];
      return false, None;
    }

    function PollResponse(): (polled: bool)
      requires Valid()
      reads this
      ensures polled <==> queue != []
    {
      hasResponse
    }
  }

  // ---- The same code under threads ----

  /** Where a thread is in PushResponse: before the lock, or holding it and about to do what
      the state is named after. */
  datatype Producer<T> = Resting | Locking(response: T) | Pushing(response: T) | Notifying | Flagging | Releasing

  /** Where the client's thread is in Receive. Asleep is inside wait_until, which gave the lock
      back; Peeking is the test of the queue that PopResponse makes without the lock. */
  datatype Consumer = Away | Locking | Testing | Asleep(notified: bool) | Passing | Peeking | Relocking
    | Popping | Clearing | Unlocking | Missed

  datatype Holder = Nobody | ByProducer(i: nat) | ByConsumer

  /** pushed and taken hold every response that ever entered and left the queue. */
  datatype System<T> = System(queue: seq<T>, flag: bool, holder: Holder, producers: seq<Producer<T>>,
                              consumer: Consumer, pushed: seq<T>, taken: seq<T>)

  /** What the scheduler may pick: a message arrives at a thread, a thread does its next step,
      the client calls Receive, does its next step, or wakes for no reason. */
  datatype Move<T> = Arrive(i: nat, response: T) | Produce(i: nat) | Call | Consume | Wake

  function Start<T>(threads: nat): System<T> {
    System([], false, Nobody, seq(threads, _ => Resting), Away, [], [])
  }

  function ProducerStep<T>(s: System<T>, i: nat): System<T>
    requires i < |s.producers|
  {
    match s.producers[i]
    case Resting => s
    case Locking(r) =>
      if s.holder.Nobody? then s.(holder := ByProducer(i), producers := s.producers[i := Pushing(r)]) else s
    case Pushing(r) =>
      s.(queue := s.queue + [r], pushed := s.pushed + [r], producers := s.producers[i := Notifying])
    case Notifying =>
      s.(consumer := if s.consumer.Asleep? then Asleep(true) else s.consumer, producers := s.producers[i := Flagging])
    case Flagging => s.(flag := true, producers := s.producers[i := Releasing])
    case Releasing => s.(holder := Nobody, producers := s.producers[i := Resting])
  }

  function ConsumerStep<T>(s: System<T>): System<T> {
    match s.consumer
    case Away | Missed => s
    case Locking => if s.holder.Nobody? then s.(holder := ByConsumer, consumer := Testing) else s
    case Testing =>
      if s.queue != [] then s.(consumer := Passing) else s.(holder := Nobody, consumer := Asleep(false))
    case Asleep(notified) => if notified then s.(consumer := Consumer.Locking) else s
    case Passing => s.(holder := Nobody, consumer := Peeking)
    case Peeking => s.(consumer := if s.queue == [] then Missed else Relocking)
    case Relocking => if s.holder.Nobody? then s.(holder := ByConsumer, consumer := Popping) else s
    case Popping =>
      if s.queue == [] then s.(consumer := Missed)
      else s.(queue := s.queue[1..], taken := s.taken + [s.queue[0]], consumer := Clearing)
    case Clearing => s.(flag := s.flag && s.queue != [], consumer := Unlocking)
    case Unlocking => s.(holder := Nobody, consumer := Away)
  }

  /** A move that is not possible leaves everything as it is. */
  function Next<T>(s: System<T>, m: Move<T>): System<T> {
    match m
    case Arrive(i, r) =>
      if i < |s.producers| && s.producers[i].Resting? then s.(producers := s.producers[i := Producer.Locking(r)]) else s
    case Produce(i) => if i < |s.producers| then ProducerStep(s, i) else s
    case Call => if s.consumer.Away? then s.(consumer := Consumer.Locking) else s
    case Consume => ConsumerStep(s)
    case Wake => if s.consumer.Asleep? then s.(consumer := Consumer.Locking) else s
  }

  function Run<T>(s: System<T>, moves: seq<Move<T>>): System<T>
    decreases |moves|
  {
    if moves == [] then s else Run(Next(s, moves[0]), moves[1..])
  }

  predicate HoldsLock<T>(p: Producer<T>) { !p.Resting? && !p.Locking? }

  predicate ConsumerHoldsLock(c: Consumer) {
    c.Testing? || c.Passing? || c.Popping? || c.Clearing? || c.Unlocking?
  }

  /** The client has seen a response, and relies on it. */
  predicate Relies(c: Consumer) { c.Passing? || c.Peeking? || c.Relocking? || c.Popping? }

  ghost predicate Exclusive<T>(s: System<T>) {
    && (forall i :: 0 <= i < |s.producers| ==> (HoldsLock(s.producers[i]) <==> s.holder == ByProducer(i)))
    && (s.holder.ByProducer? ==> s.holder.i < |s.producers|)
    && (ConsumerHoldsLock(s.consumer) <==> s.holder == ByConsumer)
  }

  predicate FlagValid<T>(s: System<T>) {
    match s.holder
    case Nobody => s.flag <==> s.queue != []
    case ByProducer(i) =>
      && i < |s.producers|
      && (match s.producers[i]
          case Notifying | Flagging => s.queue != []
          case _ => s.flag <==> s.queue != [])
    case ByConsumer => if s.consumer.Clearing? then s.queue != [] ==> s.flag else s.flag <==> s.queue != []
  }

  /** Nobody sleeps past a response: a sleeper is notified, or about to be. */
  predicate Awaited<T>(s: System<T>) {
    s.consumer == Asleep(false) && s.queue != [] ==>
      s.holder.ByProducer? && s.holder.i < |s.producers| && s.producers[s.holder.i].Notifying?
  }

  ghost predicate Inv<T>(s: System<T>) {
    && Exclusive(s) && FlagValid(s) && Awaited(s)
    && (Relies(s.consumer) ==> s.queue != [])
    && s.pushed == s.taken + s.queue && !s.consumer.Missed?
  }

  lemma ProducerStepKeepsInv<T>(s: System<T>, i: nat)
    requires Inv(s) && i < |s.producers|
    ensures Inv(ProducerStep(s, i))
  {
  }

  lemma ConsumerStepKeepsInv<T>(s: System<T>)
    requires Inv(s)
    ensures Inv(ConsumerStep(s))
  {
  }

  lemma NextKeepsInv<T>(s: System<T>, m: Move<T>)
    requires Inv(s)
    ensures Inv(Next(s, m))
  {
    match m
    case Produce(i) => if i < |s.producers| { ProducerStepKeepsInv(s, i); }
    case Consume => ConsumerStepKeepsInv(s);
    case _ =>
  }

  lemma {:induction false} RunKeepsInv<T>(s: System<T>, moves: seq<Move<T>>)
    requires Inv(s)
    ensures Inv(Run(s, moves))
    decreases |moves|
  {
    if moves != [] {
      NextKeepsInv(s, moves[0]);
      RunKeepsInv(Next(s, moves[0]), moves[1..]);
    }
  }

  /** However the threads interleave: what the client took is the beginning of what was pushed,
      in that order, and the queue holds the rest; when nobody holds the lock, the flag that
      PollResponse reads says whether the queue holds something; the client that was let
      through never finds the queue empty, neither at its test without the lock nor when it
      pops; and it does not sleep on while there is a response that nobody holds back. */
  lemma QueueUnderThreads<T>(threads: nat, moves: seq<Move<T>>)
    ensures var s := Run(Start(threads), moves);
      && s.pushed == s.taken + s.queue
      && (s.holder.Nobody? ==> (s.flag <==> s.queue != []))
      && !s.consumer.Missed? && (s.consumer.Peeking? || s.consumer.Popping? ==> s.queue != [])
      && (s.holder.Nobody? && s.consumer == Asleep(false) ==> s.queue == [])
  {
    RunKeepsInv(Start(threads), moves);
  }

  /** The client inside Receive always has a step to make when the lock is free and there is a
      response. */
  lemma ReceiverCanMove<T>(threads: nat, moves: seq<Move<T>>)
    ensures var s := Run(Start(threads), moves);
      s.holder.Nobody? && s.queue != [] && !s.consumer.Away? ==> ConsumerStep(s).consumer != s.consumer
  {
    RunKeepsInv(Start(threads), moves);
  }

  /** Whoever holds the lock has a step to make, too. */
  lemma HolderCanMove<T>(threads: nat, moves: seq<Move<T>>)
    ensures var s := Run(Start(threads), moves);
      match s.holder
      case Nobody => true
      case ByProducer(i) => i < |s.producers| && ProducerStep(s, i) != s
      case ByConsumer => ConsumerStep(s) != s
  {
    RunKeepsInv(Start(threads), moves);
  }

  /** The same move over and over. */
  function Repeat<T>(s: System<T>, m: Move<T>, times: nat): System<T>
    decreases times
  {
    if times == 0 then s else Repeat(Next(s, m), m, times - 1)
  }

  /** A thread that is left alone pushes its response and sets the flag, as the class does. */
  lemma PushAlone<T>(s: System<T>, i: nat)
    requires Inv(s) && s.holder.Nobody? && i < |s.producers| && s.producers[i].Locking?
    ensures var t := Repeat(s, Produce(i), 5);
      t.queue == s.queue + [s.producers[i].response] && t.flag && t.holder.Nobody? && t.producers == s.producers[i := Resting]
  {
    hide *;
    var s3 := PushHalf(s, i);
    SetFlag(s3, i);
    Halves(s, Produce(i));
  }

  lemma Halves<T>(s: System<T>, m: Move<T>)
    ensures Repeat(s, m, 5) == Repeat(Repeat(s, m, 2), m, 3)
    ensures Repeat(s, m, 8) == Repeat(Repeat(s, m, 4), m, 4)
  {
    hide Next;
  }

  lemma PushHalf<T>(s: System<T>, i: nat) returns (t: System<T>)
    requires s.holder.Nobody? && i < |s.producers| && s.producers[i].Locking?
    ensures t == Repeat(s, Produce(i), 2)
    ensures t.queue == s.queue + [s.producers[i].response] && t.holder == ByProducer(i)
    ensures t.producers == s.producers[i := Notifying]
  {
    t := Repeat(s, Produce(i), 2);
  }

  lemma SetFlag<T>(s: System<T>, i: nat)
    requires s.holder == ByProducer(i) && i < |s.producers| && s.producers[i].Notifying?
    ensures var t := Repeat(s, Produce(i), 3);
      t.queue == s.queue && t.flag && t.holder.Nobody? && t.producers == s.producers[i := Resting]
  {
    var s1 := Next(s, Produce(i));
    assert s1.producers[i] == Flagging && s1.queue == s.queue;
    var s2 := Next(s1, Produce(i));
    assert s2.producers[i] == Releasing && s2.flag && s2.queue == s.queue;
    var s3 := Next(s2, Produce(i));
    assert s3.producers == s.producers[i := Resting];
    hide Next;
    assert Repeat(s, Produce(i), 3) == s3;
  }

  /** The client that is left alone takes the oldest response, as the class does. */
  lemma ReceiveAlone<T>(s: System<T>)
    requires Inv(s) && s.holder.Nobody? && s.queue != [] && s.consumer == Consumer.Locking
    ensures var t := Repeat(s, Consume, 8);
      && s.queue == [s.queue[0]] + t.queue && t.taken == s.taken + [s.queue[0]]
      && (t.flag <==> t.queue != []) && t.holder.Nobody? && t.consumer.Away?
  {
    assert s.flag;
    hide *;
    var t := WaitForOne(s);
    TakeOne(t);
    Halves(s, Consume);
  }

  /** So does the client that fell asleep on an empty queue and was notified. */
  lemma NotifiedReceives<T>(s: System<T>)
    requires Inv(s) && s.holder.Nobody? && s.queue != [] && s.consumer == Asleep(true)
    ensures var t := Repeat(s, Consume, 9);
      && s.queue == [s.queue[0]] + t.queue && t.taken == s.taken + [s.queue[0]]
      && (t.flag <==> t.queue != []) && t.holder.Nobody? && t.consumer.Away?
  {
    NextKeepsInv(s, Consume);
    var woken := Next(s, Consume);
    assert woken == s.(consumer := Consumer.Locking);
    ReceiveAlone(woken);
    hide Next;
  }

  /** Pushing while the client sleeps notifies it, and it then takes the oldest response: a
      response that comes late is received as one that was there already. */
  lemma LateResponseIsReceived<T>(s: System<T>, i: nat)
    requires Inv(s) && s.holder.Nobody? && s.consumer == Asleep(false) && i < |s.producers| && s.producers[i].Locking?
    ensures var t := Repeat(Repeat(s, Produce(i), 5), Consume, 9);
      t.taken == s.taken + [s.producers[i].response] && t.queue == [] && t.consumer.Away? && t.holder.Nobody? && !t.flag
  {
    hide *;
    var t := Repeat(s, Produce(i), 5);
    assert Inv(t) by { RepeatKeepsInv(s, Produce(i), 5); }
    PushAlone(s, i);
    PushNotifies(s, i);
    assert s.queue == [] by { SleepsOnNothing(s); }
    NotifiedReceives(t);
  }

  lemma SleepsOnNothing<T>(s: System<T>)
    requires Inv(s) && s.holder.Nobody? && s.consumer == Asleep(false)
    ensures s.queue == []
  {
  }

  lemma {:induction false} RepeatKeepsInv<T>(s: System<T>, m: Move<T>, times: nat)
    requires Inv(s)
    ensures Inv(Repeat(s, m, times))
    decreases times
  {
    hide Next, Inv;
    if times > 0 {
      NextKeepsInv(s, m);
      RepeatKeepsInv(Next(s, m), m, times - 1);
    }
  }

  lemma PushNotifies<T>(s: System<T>, i: nat)
    requires s.holder.Nobody? && s.consumer.Asleep? && i < |s.producers| && s.producers[i].Locking?
    ensures Repeat(s, Produce(i), 5).consumer == Asleep(true) && Repeat(s, Produce(i), 5).taken == s.taken
  {
    hide *;
    var t := Repeat(s, Produce(i), 2);
    assert t.producers == s.producers[i := Notifying] && t.consumer.Asleep? && t.taken == s.taken by { PushHalfSleeps(s, i); }
    NotifyHalf(t, i);
    Halves(s, Produce(i));
  }

  lemma PushHalfSleeps<T>(s: System<T>, i: nat)
    requires s.holder.Nobody? && s.consumer.Asleep? && i < |s.producers| && s.producers[i].Locking?
    ensures var t := Repeat(s, Produce(i), 2);
      t.producers == s.producers[i := Notifying] && t.consumer == s.consumer && t.taken == s.taken
  {
    var s1 := Next(s, Produce(i));
    assert s1.producers == s.producers[i := Pushing(s.producers[i].response)];
    var s2 := Next(s1, Produce(i));
    assert s2.producers == s.producers[i := Notifying];
    hide Next;
    assert Repeat(s, Produce(i), 2) == s2;
  }

  lemma NotifyHalf<T>(s: System<T>, i: nat)
    requires s.consumer.Asleep? && i < |s.producers| && s.producers[i].Notifying?
    ensures Repeat(s, Produce(i), 3).consumer == Asleep(true) && Repeat(s, Produce(i), 3).taken == s.taken
  {
    var s1 := Next(s, Produce(i));
    assert s1.producers[i] == Flagging && s1.consumer == Asleep(true) && s1.taken == s.taken;
    var s2 := Next(s1, Produce(i));
    assert s2.producers[i] == Releasing && s2.consumer == Asleep(true) && s2.taken == s.taken;
    var s3 := Next(s2, Produce(i));
    assert s3.consumer == Asleep(true) && s3.taken == s.taken;
    hide Next;
    assert Repeat(s, Produce(i), 3) == s3;
  }

  /** How many steps the client makes alone until Receive returns. */
  function StepsLeft(c: Consumer): nat {
    match c
    case Away | Missed => 0
    case Unlocking => 1
    case Clearing => 2
    case Popping => 3
    case Relocking => 4
    case Peeking => 5
    case Passing => 6
    case Testing => 7
    case Locking => 8
    case Asleep(_) => 9
  }

  /** The client has taken its response and is about to return. */
  function Delivered<T>(s: System<T>): nat { if s.consumer.Clearing? || s.consumer.Unlocking? then 1 else 0 }

  /** The client is inside Receive and nothing keeps it there: no other thread holds the lock,
      and it has taken a response, or there is one and it is not asleep past it. */
  ghost predicate Free<T>(s: System<T>) {
    && Inv(s) && !s.holder.ByProducer? && s.consumer != Asleep(false)
    && (s.queue != [] || s.consumer.Clearing? || s.consumer.Unlocking?)
  }

  lemma OneStepCloser<T>(s: System<T>)
    requires Free(s) && !s.consumer.Away?
    ensures var t := Next(s, Consume);
      && StepsLeft(t.consumer) == StepsLeft(s.consumer) - 1 && (t.consumer.Away? || Free(t))
      && |t.taken| + Delivered(s) == |s.taken| + (if t.consumer.Away? then 1 else Delivered(t))
  {
    ConsumerStepKeepsInv(s);
  }

  /** From wherever it is in Receive, the client left alone returns, with exactly one response. */
  lemma {:induction false} AloneReturns<T>(s: System<T>)
    requires Free(s) && !s.consumer.Away?
    ensures var t := Repeat(s, Consume, StepsLeft(s.consumer));
      t.consumer.Away? && |t.taken| + Delivered(s) == |s.taken| + 1
    decreases StepsLeft(s.consumer)
  {
    hide Next, Free, Delivered;
    OneStepCloser(s);
    var t := Next(s, Consume);
    if !t.consumer.Away? { AloneReturns(t); }
  }

  /** A message that reaches a thread at rest is pushed by it. */
  lemma ArrivalIsPushed<T>(s: System<T>, i: nat, response: T)
    requires Inv(s) && s.holder.Nobody? && i < |s.producers| && s.producers[i].Resting?
    ensures var t := Repeat(Next(s, Arrive(i, response)), Produce(i), 5);
      t.queue == s.queue + [response] && t.flag && t.holder.Nobody? && t.producers == s.producers
  {
    NextKeepsInv(s, Arrive(i, response));
    var arrived := Next(s, Arrive(i, response));
    assert arrived.producers[i] == Producer.Locking(response);
    hide Next, Inv;
    PushAlone(arrived, i);
    assert arrived.producers[i := Resting] == s.producers;
  }

  /** The client that wakes for no reason looks at the queue, and with nothing in it goes back to
      sleep; only a notification or such a wake-up takes it out of its sleep. */
  lemma WakesForNothing<T>(s: System<T>)
    requires Inv(s) && s.holder.Nobody? && s.queue == [] && s.consumer == Asleep(false)
    ensures Next(s, Consume) == s && Next(s, Wake).consumer == Consumer.Locking
    ensures Repeat(Next(s, Wake), Consume, 2) == s
  {
    var s1 := Next(s, Wake);
    var s2 := Next(s1, Consume);
    assert s2 == s.(holder := ByConsumer, consumer := Testing);
    var s3 := Next(s2, Consume);
    assert s3 == s;
    hide Next;
    assert Repeat(s1, Consume, 2) == s3;
  }

  // ---- Calls and responses, counted ----

  predicate Leaves<T>(s: System<T>, m: Move<T>) { s.consumer.Away? && !Next(s, m).consumer.Away? }

  predicate Returns<T>(s: System<T>, m: Move<T>) { !s.consumer.Away? && Next(s, m).consumer.Away? }

  /** How often Receive is called, and how often it returns. */
  function Calls<T>(s: System<T>, moves: seq<Move<T>>): nat
    decreases |moves|
  {
    if moves == [] then 0 else (if Leaves(s, moves[0]) then 1 else 0) + Calls(Next(s, moves[0]), moves[1..])
  }

  function Comings<T>(s: System<T>, moves: seq<Move<T>>): nat
    decreases |moves|
  {
    if moves == [] then 0 else (if Returns(s, moves[0]) then 1 else 0) + Comings(Next(s, moves[0]), moves[1..])
  }

  lemma NextBalances<T>(s: System<T>, m: Move<T>)
    requires Inv(s)
    ensures |Next(s, m).taken| + Delivered(s) == |s.taken| + Delivered(Next(s, m)) + if Returns(s, m) then 1 else 0
    ensures Leaves(s, m) <==> m.Call? && s.consumer.Away?
  {
  }

  lemma {:induction false} RunBalances<T>(s: System<T>, moves: seq<Move<T>>)
    requires Inv(s)
    ensures |Run(s, moves).taken| + Delivered(s) == |s.taken| + Comings(s, moves) + Delivered(Run(s, moves))
    ensures Calls(s, moves) + (if s.consumer.Away? then 0 else 1)
            == Comings(s, moves) + if Run(s, moves).consumer.Away? then 0 else 1
    decreases |moves|
  {
    if moves != [] {
      hide Next, Delivered, Inv;
      NextBalances(s, moves[0]);
      NextKeepsInv(s, moves[0]);
      RunBalances(Next(s, moves[0]), moves[1..]);
    }
  }

  /** In every run Receive returns once for each response taken, and every call but one under
      way has returned: no call comes back without a response and none takes two. */
  lemma EachReceiveTakesOne<T>(threads: nat, moves: seq<Move<T>>)
    ensures var start := Start<T>(threads); var s := Run(start, moves);
      && |s.taken| == Comings(start, moves) + Delivered(s)
      && Calls(start, moves) == Comings(start, moves) + (if s.consumer.Away? then 0 else 1)
      && (s.consumer.Away? ==> |s.taken| == Calls(start, moves))
  {
    RunBalances(Start<T>(threads), moves);
  }

  lemma WaitForOne<T>(s: System<T>) returns (t: System<T>)
    requires s.holder.Nobody? && s.queue != [] && s.consumer == Consumer.Locking
    ensures t == Repeat(s, Consume, 4) == s.(consumer := Relocking)
  {
    t := Repeat(s, Consume, 4);
  }

  lemma TakeOne<T>(s: System<T>)
    requires s.holder.Nobody? && s.queue != [] && s.consumer == Relocking
    ensures Repeat(s, Consume, 4) ==
      s.(queue := s.queue[1..], taken := s.taken + [s.queue[0]], flag := s.flag && |s.queue| > 1, consumer := Away)
  {
    hide Next;
    var t := PopOne(s);
    ClearFlag(t);
    assert Repeat(s, Consume, 4) == Repeat(Repeat(s, Consume, 2), Consume, 2);
  }

  lemma PopOne<T>(s: System<T>) returns (t: System<T>)
    requires s.holder.Nobody? && s.queue != [] && s.consumer == Relocking
    ensures t == Repeat(s, Consume, 2) ==
      s.(queue := s.queue[1..], taken := s.taken + [s.queue[0]], holder := ByConsumer, consumer := Clearing)
  {
    t := Repeat(s, Consume, 2);
  }

  lemma ClearFlag<T>(s: System<T>)
    requires s.consumer == Clearing
    ensures Repeat(s, Consume, 2) == s.(flag := s.flag && s.queue != [], holder := Nobody, consumer := Away)
  {
  }
}
