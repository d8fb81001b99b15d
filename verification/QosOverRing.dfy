/**
  A `QosPipe` whose underlying pipe is one end of the shared-memory transport. The worker holds the send
  lock while it is inside the ring's `send`; the receiver runs at any time.
 */
module QosOverRing {
  import opened Common
  import Q = QosQueue
  import R = RingProtocol
  import RR = RingRefinement
  import RS = RingSafety

  /** `sending` is the message the worker is handing to the ring, if it is inside that call. */
  datatype State = State(q: Q.State, ring: R.State, sending: Option<Message>)

  datatype Action =
    | CallerSend(msg: Message, now: nat)
    | WorkerTurn(now: nat, later: nat)      // up to the call of the underlying send
    | WorkerStep(act: R.Action)             // one step of the producer inside that call
    | SemaphoreFails                        // sem_wait reports an error: kIoError, which is fatal
    | ReceiverStep(act: R.Action)
    | Close

  ghost predicate Init(s: State) {
    s.q == Q.START && R.Init(s.ring) && s.sending == None
  }

  /**
    The producer is idle while the worker is outside the call, and the message it carries stays in front
    while it is inside (`Inv`); `Enabled` repeats both where a step relies on them.
   */
  ghost predicate Enabled(o: Q.Options, s: State, a: Action) {
    match a
    case CallerSend(m, now) => s.sending == None && Q.Enabled(o, s.q, Q.SendLocked(m, now))
    case WorkerTurn(now, later) =>
      s.sending == None && s.ring.prod.SendIdle? && Q.Enabled(o, s.q, Q.WorkerRound(now, later, Q.Temporary))
    case WorkerStep(act) =>
      && s.sending.Some? && s.q.queue != []
      && act.ByProducer() && !act.BeginSend? && !act.SendTimeout? && R.Enabled(s.ring, act)
    case SemaphoreFails => s.sending.Some? && s.ring.prod.SendWaiting?
    case ReceiverStep(act) => !act.ByProducer() && R.Enabled(s.ring, act)
    case Close => s.sending == None
  }

  /** The worker sends without a timeout; a message too large for a slot is refused and stays in front. */
  ghost function Turn(o: Q.Options, s: State, now: nat, later: nat): State
    requires s.ring.prod.SendIdle?
  {
    if !s.q.running then s
    else
      var q1 := Q.Expire(o, s.q, now);
      if q1.queue == [] || !Q.CanSend(o, q1, later) then s.(q := q1)
      else
        var m := q1.queue[0].msg;
        var ring' := R.Next(s.ring, R.BeginSend(m));
        s.(q := q1, ring := ring', sending := if ring'.prod.SendWaiting? then Some(m) else None)
  }

  ghost function Next(o: Q.Options, s: State, a: Action): State
    requires Enabled(o, s, a)
  {
    match a
    case CallerSend(m, now) => s.(q := Q.Next(o, s.q, Q.SendLocked(m, now)))
    case WorkerTurn(now, later) => Turn(o, s, now, later)
    case WorkerStep(act) =>
      var ring' := R.Next(s.ring, act);
      if ring'.prod.SendIdle? then s.(ring := ring', q := Q.HandOver(s.q), sending := None)
      else s.(ring := ring')
    case SemaphoreFails =>
      s.(ring := R.Next(s.ring, R.SendTimeout), q := s.q.(running := false), sending := None)
    case ReceiverStep(act) => s.(ring := R.Next(s.ring, act))
    case Close => s.(q := s.q.(running := false))
  }

  /** The message a producer is carrying. */
  ghost predicate Carries(p: R.Producer, m: Message) {
    match p
    case SendWaiting(x) => x == m
    case SendHolding(x) => x == m
    case SendLoaded(x, _) => x == m
    case SendCopying(x, _, _) => x == m
    case SendStored(x) => x == m
    case _ => false
  }

  ghost predicate Inv(o: Q.Options, s: State) {
    && Q.Inv(o, s.q) && RS.Inv(s.ring)
    && s.q.handed == s.ring.acked
    && match s.sending
       case None => s.ring.prod.SendIdle?
       case Some(m) => s.q.queue != [] && s.q.queue[0].msg == m && Carries(s.ring.prod, m)
  }

  lemma TurnKeepsInv(o: Q.Options, s: State, now: nat, later: nat)
    requires Inv(o, s) && Enabled(o, s, WorkerTurn(now, later))
    ensures Inv(o, Turn(o, s, now, later))
  {
    Q.ExpireKeeps(o, s.q, now);
    var q1 := Q.Expire(o, s.q, now);
    if q1.queue != [] { RS.StepKeepsInv(s.ring, R.BeginSend(q1.queue[0].msg)); }
  }

  lemma ProducerCarriesOn(r: R.State, a: R.Action, m: Message)
    requires Carries(r.prod, m) && R.Enabled(r, a) && a.ByProducer() && !a.SendTimeout?
    requires RS.Inv(r)
    ensures
      var r' := R.Next(r, a);
      if r'.prod.SendIdle? then r'.acked == r.acked + [m]
      else Carries(r'.prod, m) && r'.acked == r.acked
  {
    RS.StepKeepsInv(r, a);
  }

  lemma WorkerStepKeepsInv(o: Q.Options, s: State, act: R.Action)
    requires Inv(o, s) && Enabled(o, s, WorkerStep(act))
    ensures Inv(o, Next(o, s, WorkerStep(act)))
  {
    RS.StepKeepsInv(s.ring, act);
    ProducerCarriesOn(s.ring, act, s.sending.value);
    Q.DropFrontKeeps(o, s.q, Q.HandedOver);
  }

  lemma ReceiverStepKeepsInv(o: Q.Options, s: State, act: R.Action)
    requires Inv(o, s) && Enabled(o, s, ReceiverStep(act))
    ensures Inv(o, Next(o, s, ReceiverStep(act)))
  {
    RS.StepKeepsInv(s.ring, act);
  }

  lemma StepKeepsInv(o: Q.Options, s: State, a: Action)
    requires Inv(o, s) && Enabled(o, s, a)
    ensures Inv(o, Next(o, s, a))
  {
    match a
    case CallerSend(m, now) => Q.SendKeeps(o, s.q, m, now);
    case WorkerTurn(now, later) => TurnKeepsInv(o, s, now, later);
    case WorkerStep(act) => WorkerStepKeepsInv(o, s, act);
    case SemaphoreFails =>
      RS.StepKeepsInv(s.ring, R.SendTimeout);
      Q.DeliverKeeps(o, s.q, Q.Fatal);
    case ReceiverStep(act) => ReceiverStepKeepsInv(o, s, act);
    case Close => Q.DeliverKeeps(o, s.q, Q.Fatal);
  }

  ghost predicate Steps(o: Q.Options, s: State, run: seq<Action>, s': State)
    decreases |run|
  {
    if run == [] then s == s'
    else Enabled(o, s, run[0]) && Steps(o, Next(o, s, run[0]), run[1..], s')
  }

  lemma InitInv(o: Q.Options, s: State)
    requires Init(s)
    ensures Inv(o, s)
  {
    RS.InitInv(s.ring);
  }

  lemma {:induction false} RunKeepsInv(o: Q.Options, s: State, run: seq<Action>, s': State)
    requires Inv(o, s) && Steps(o, s, run, s')
    ensures Inv(o, s')
    decreases |run|
  {
    if run == [] {
    } else {
      StepKeepsInv(o, s, run[0]);
      RunKeepsInv(o, Next(o, s, run[0]), run[1..], s');
    }
  }

  /** What the ring has been given is what the pipe handed over, and at most the front message more. */
  lemma RingHoldsHanded(o: Q.Options, s: State)
    requires Inv(o, s)
    ensures s.ring.received <= s.ring.sent
    ensures s.ring.sent == s.q.handed
         || (s.q.queue != [] && s.ring.sent == s.q.handed + [s.q.queue[0].msg])
  {
  }

  /**
    End to end, in every run: the peer receives queued messages only, byte for byte, in the order in which
    they were queued.
   */
  lemma EndToEnd(o: Q.Options, s0: State, run: seq<Action>, s: State) returns (at: seq<nat>)
    requires Init(s0) && Steps(o, s0, run, s)
    ensures Selects(at, s.ring.received, Q.Messages(s.q.accepted))
  {
    InitInv(o, s0);
    RunKeepsInv(o, s0, run, s);
    RingHoldsHanded(o, s);
    at := Q.HandedPositions(s.q.accepted, s.q.fates);
    if s.ring.sent != s.q.handed { at := at + [|s.q.fates|]; }
    at := at[..|s.ring.received|];
  }

  /** Without a TTL and outside kDropOld, the peer receives a prefix of what was queued. */
  lemma EndToEndPrefix(o: Q.Options, s0: State, run: seq<Action>, s: State)
    requires Init(s0) && Steps(o, s0, run, s) && o.ttl <= 0 && o.policy != DropOld
    ensures s.ring.received <= Q.Messages(s.q.accepted)
  {
    InitInv(o, s0);
    RunKeepsInv(o, s0, run, s);
    RingHoldsHanded(o, s);
    Q.NothingLost(o, s.q);
    var all := s.q.handed + Q.Messages(s.q.queue);
    assert s.ring.sent <= all;
  }

  /**
    And nothing is lost on the way: what was queued is what the receiver has taken out of the ring, what the
    ring's memory holds, and what is still queued. A message whose head store is done but whose call has not
    returned is in the ring and in front of the queue.
   */
  lemma NothingLostEndToEnd(o: Q.Options, s0: State, run: seq<Action>, s: State)
    requires Init(s0) && Steps(o, s0, run, s) && o.ttl <= 0 && o.policy != DropOld
    ensures s.ring.sent != s.q.handed ==> s.q.queue != [] && s.ring.sent == s.q.handed + [s.q.queue[0].msg]
    ensures
      var rest := if s.ring.sent == s.q.handed then s.q.queue else s.q.queue[1..];
      Q.Messages(s.q.accepted) == RR.TakenOut(s.ring) + RR.Contents(s.ring.mem) + Q.Messages(rest)
  {
    InitInv(o, s0);
    RunKeepsInv(o, s0, run, s);
    RingHoldsHanded(o, s);
    Q.NothingLost(o, s.q);
    RR.SentIsTakenAndHeld(s.ring);
    if s.ring.sent != s.q.handed { FrontApart(s.q.handed, s.q.queue); }
  }

  lemma FrontApart(handed: seq<Message>, queue: seq<Q.Stamped>)
    requires queue != []
    ensures handed + Q.Messages(queue) == handed + [queue[0].msg] + Q.Messages(queue[1..])
  {
  }
}
