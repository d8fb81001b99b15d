/**
  What becomes of a `QosPipe` on a ring from any point on: when it can still hand a message over, and when
  `close` can get through.
 */
module QosRingProgress {
  import opened Common
  import opened QosOverRing
  import Q = QosQueue
  import QP = QosProgress
  import R = RingProtocol
  import RC = RingCapacity
  import RP = RingProgress
  import RS = RingSafety

  lemma StepsCons(o: Q.Options, s: State, a: Action, rest: seq<Action>, s': State)
    requires Enabled(o, s, a) && Steps(o, Next(o, s, a), rest, s')
    ensures Steps(o, s, [a] + rest, s')
  {
    TailOfCons(a, rest);
  }

  lemma {:induction false} StepsCompose(
      o: Q.Options, s: State, run: seq<Action>, mid: State, more: seq<Action>, s': State)
    requires Steps(o, s, run, mid) && Steps(o, mid, more, s')
    ensures Steps(o, s, run + more, s')
    decreases |run|
  {
    if run == [] {
      assert run + more == more;
    } else {
      StepsCompose(o, Next(o, s, run[0]), run[1..], mid, more, s');
      TailOfSum(run, more);
    }
  }

  // ---- Close waits for the worker ----

  /** The worker waits for a slot of a full ring, and holds the lock that `close` needs. */
  ghost predicate HeldUp(s: State) {
    s.sending.Some? && s.ring.prod.SendWaiting? && s.ring.spaces == 0
  }

  /** Neither the receiver nor an error of the semaphore comes to its help. */
  ghost predicate Unaided(run: seq<Action>) {
    forall i | 0 <= i < |run| :: !run[i].ReceiverStep? && !run[i].SemaphoreFails?
  }

  ghost predicate Closes(o: Q.Options, s: State, run: seq<Action>, s': State) {
    Unaided(run) && Steps(o, s, run, s') && Enabled(o, s', Close)
  }

  lemma HeldUpForEver(o: Q.Options, s: State, run: seq<Action>, s': State)
    requires HeldUp(s) && Unaided(run) && Steps(o, s, run, s')
    ensures s' == s && !Enabled(o, s', Close)
  {
  }

  /** One step of the call the worker is in, taken by the producer. */
  lemma CallAdvances(o: Q.Options, s: State, act: R.Action)
    requires Inv(o, s) && s.sending.Some?
    requires act.ByProducer() && !act.BeginSend? && !act.SendTimeout? && R.Enabled(s.ring, act)
    ensures Enabled(o, s, WorkerStep(act)) && Inv(o, Next(o, s, WorkerStep(act)))
    ensures Next(o, s, WorkerStep(act)).ring == R.Next(s.ring, act)
    ensures Next(o, s, WorkerStep(act)).sending == if R.Next(s.ring, act).prod.SendIdle? then None else s.sending
    ensures s.q.queue != []
    ensures Next(o, s, WorkerStep(act)).q == if R.Next(s.ring, act).prod.SendIdle? then Q.HandOver(s.q) else s.q
  {
    StepKeepsInv(o, s, WorkerStep(act));
  }

  lemma ClosesLater(o: Q.Options, s: State, act: R.Action, rest: seq<Action>, s': State)
    requires Enabled(o, s, WorkerStep(act)) && Closes(o, Next(o, s, WorkerStep(act)), rest, s')
    ensures Closes(o, s, [WorkerStep(act)] + rest, s')
  {
    TailOfCons(WorkerStep(act), rest);
  }

  lemma SpacesKept(r: R.State)
    requires RS.Inv(r) && !r.prod.SendIdle? && !r.prod.SendWaiting?
    ensures R.Next(r, RP.SendNext(r)).spaces == r.spaces && !R.Next(r, RP.SendNext(r)).prod.SendWaiting?
  {
  }

  /** Past the semaphore the worker finishes its call by itself, and the message has been handed over. */
  lemma {:induction false} FinishCall(o: Q.Options, s: State) returns (run: seq<Action>, s': State)
    requires Inv(o, s) && !s.ring.prod.SendWaiting?
    ensures Closes(o, s, run, s') && Inv(o, s')
    ensures s'.ring.spaces == s.ring.spaces
    ensures if s.sending == None then s' == s else s.q.queue != [] && s'.q == Q.HandOver(s.q)
    decreases RP.SendStage(s.ring.prod), RP.BytesToSend(s.ring.prod)
  {
    if s.sending == None {
      run, s' := [], s;
    } else {
      var act := RP.SendNext(s.ring);
      RP.SendAdvances(s.ring);
      SpacesKept(s.ring);
      CallAdvances(o, s, act);
      var rest, end := FinishCall(o, Next(o, s, WorkerStep(act)));
      ClosesLater(o, s, act, rest, end);
      run, s' := [WorkerStep(act)] + rest, end;
    }
  }

  /** A waiting worker that finds a slot takes it and finishes. */
  lemma TakeSlotAndFinish(o: Q.Options, s: State) returns (run: seq<Action>, s': State)
    requires Inv(o, s) && s.sending.Some? && s.ring.prod.SendWaiting? && s.ring.spaces > 0
    ensures Closes(o, s, run, s') && Inv(o, s') && s'.ring.spaces == s.ring.spaces - 1
    ensures s.q.queue != [] && s'.q == Q.HandOver(s.q)
  {
    CallAdvances(o, s, R.AcquireSpace);
    run, s' := FinishCall(o, Next(o, s, WorkerStep(R.AcquireSpace)));
    ClosesLater(o, s, R.AcquireSpace, run, s');
    run := [WorkerStep(R.AcquireSpace)] + run;
  }

  /**
    `close` has to wait for the lock, and the worker keeps it while it sends, without a timeout. Without the
    receiver's help `close` can get it if and only if the worker does not wait for a slot of a full ring.
   */
  lemma CloseIsHeldUpIff(o: Q.Options, s: State)
    requires Inv(o, s)
    ensures HeldUp(s) <==> !exists run, s' :: Closes(o, s, run, s')
  {
    if HeldUp(s) {
      forall run, s' | Unaided(run) && Steps(o, s, run, s')
        ensures !Closes(o, s, run, s')
      {
        HeldUpForEver(o, s, run, s');
      }
    } else if s.ring.prod.SendWaiting? {
      var run, s' := TakeSlotAndFinish(o, s);
    } else {
      var run, s' := FinishCall(o, s);
    }
  }

  // ---- A full ring comes about ----

  /** A ready worker starts to send. */
  lemma ReadyStartsCall(o: Q.Options, s: State)
    requires Inv(o, s) && s.sending == None && QP.Ready(o, s.q, R.SLOT_PAYLOAD_MAX)
    ensures
      var a := WorkerTurn(s.q.clock, s.q.clock);
      && Enabled(o, s, a) && Inv(o, Next(o, s, a))
      && Next(o, s, a).sending.Some? && Next(o, s, a).ring.prod.SendWaiting?
      && Next(o, s, a).ring.spaces == s.ring.spaces && Next(o, s, a).q == Q.Expire(o, s.q, s.q.clock)
  {
    var a := WorkerTurn(s.q.clock, s.q.clock);
    StepKeepsInv(o, s, a);
  }

  /** An idle pipe takes an empty message, and its worker starts to send it. */
  lemma OfferEmpty(o: Q.Options, s: State) returns (run: seq<Action>, s': State)
    requires Inv(o, s) && o.hwm > 0 && s.sending == None && s.q.running && s.q.queue == []
    ensures Steps(o, s, run, s') && Inv(o, s') && s'.sending.Some? && s'.ring.prod.SendWaiting?
    ensures s'.ring.spaces == s.ring.spaces && s'.q.running && |s'.q.queue| == 1
  {
    var clock := s.q.clock;
    var a, b := CallerSend([], clock), WorkerTurn(clock, clock);
    var mid := Next(o, s, a);
    QP.FreshIsReady(o, s.q, R.SLOT_PAYLOAD_MAX);
    StepKeepsInv(o, s, a);
    ReadyStartsCall(o, mid);
    s' := Next(o, mid, b);
    StepsCons(o, mid, b, [], s');
    StepsCons(o, s, a, [b] + [], s');
    run := [a] + ([b] + []);
  }

  lemma {:induction false} FillSlots(o: Q.Options, s0: State, n: nat) returns (run: seq<Action>, s: State)
    requires Init(s0) && o.hwm > 0 && n <= R.SLOT_COUNT
    ensures Steps(o, s0, run, s) && Inv(o, s) && s.ring.spaces == R.SLOT_COUNT - n
    ensures s.sending == None && s.q.running && s.q.queue == []
  {
    if n == 0 {
      InitInv(o, s0);
      run, s := [], s0;
    } else {
      var before, was := FillSlots(o, s0, n - 1);
      var offer, mid := OfferEmpty(o, was);
      var call, end := TakeSlotAndFinish(o, mid);
      StepsCompose(o, was, offer, mid, call, end);
      StepsCompose(o, s0, before, was, offer + call, end);
      run, s := before + (offer + call), end;
    }
  }

  ghost predicate GetsHeldUp(o: Q.Options, s0: State, run: seq<Action>, s: State) {
    Steps(o, s0, run, s) && HeldUp(s)
  }

  /** From a fresh start, 64 messages nobody receives and one more hold `close` up. */
  lemma SilentPeer(o: Q.Options, s0: State) returns (run: seq<Action>, s: State)
    requires Init(s0) && o.hwm > 0
    ensures GetsHeldUp(o, s0, run, s)
  {
    var before, was := FillSlots(o, s0, R.SLOT_COUNT);
    var offer, end := OfferEmpty(o, was);
    StepsCompose(o, s0, before, was, offer, end);
    run, s := before + offer, end;
  }

  // ---- When a message can still be handed over ----

  /** It is on its way, or the worker runs and its queue can move; a slot takes SLOT_PAYLOAD_MAX bytes. */
  ghost predicate CanMove(o: Q.Options, s: State) {
    s.sending.Some? || (s.q.running && QP.CanMove(o, s.q, R.SLOT_PAYLOAD_MAX))
  }

  lemma HaltedTurn(o: Q.Options, s: State, now: nat, later: nat)
    requires Inv(o, s) && !CanMove(o, s) && Enabled(o, s, WorkerTurn(now, later))
    ensures !CanMove(o, Turn(o, s, now, later)) && Turn(o, s, now, later).ring.sent == s.ring.sent
    ensures Turn(o, s, now, later).q.handed == s.q.handed
  {
    if s.q.running {
      QP.OffersOnlyOversized(o, s.q, now, later, R.SLOT_PAYLOAD_MAX);
      QP.HaltedRound(o, s.q, now, later, Q.Temporary, R.SLOT_PAYLOAD_MAX);
    }
  }

  lemma HaltedStep(o: Q.Options, s: State, a: Action)
    requires Inv(o, s) && !CanMove(o, s) && Enabled(o, s, a)
    ensures !CanMove(o, Next(o, s, a))
    ensures Next(o, s, a).q.handed == s.q.handed && Next(o, s, a).ring.sent == s.ring.sent
  {
    match a
    case CallerSend(m, now) => QP.HaltedStep(o, s.q, Q.SendLocked(m, now), R.SLOT_PAYLOAD_MAX);
    case WorkerTurn(now, later) => HaltedTurn(o, s, now, later);
    case ReceiverStep(act) =>
    case Close =>
  }

  lemma {:induction false} HaltedForEver(o: Q.Options, s: State, run: seq<Action>, s': State)
    requires Inv(o, s) && !CanMove(o, s) && Steps(o, s, run, s')
    ensures !CanMove(o, s') && s'.q.handed == s.q.handed && s'.ring.sent == s.ring.sent
    decreases |run|
  {
    if run == [] {
    } else {
      HaltedStep(o, s, run[0]);
      StepKeepsInv(o, s, run[0]);
      HaltedForEver(o, Next(o, s, run[0]), run[1..], s');
    }
  }

  /** What callers and an idle worker do to the queue can be done here too. */
  lemma {:induction false} LiftQuiet(o: Q.Options, s: State, qrun: seq<Q.Action>, q': Q.State)
    returns (run: seq<Action>, s': State)
    requires Inv(o, s) && s.sending == None && QP.QuietSteps(o, s.q, qrun, q')
    ensures Steps(o, s, run, s') && Inv(o, s') && s'.sending == None && s'.q == q' && q'.handed == s.q.handed
    decreases |qrun|
  {
    if qrun == [] {
      run, s' := [], s;
    } else {
      var a := match qrun[0]
        case SendLocked(m, now) => CallerSend(m, now)
        case WorkerRound(now, later, _) => WorkerTurn(now, later);
      QP.QuietHandsNothing(o, s.q, qrun[0]);
      StepKeepsInv(o, s, a);
      run, s' := LiftQuiet(o, Next(o, s, a), qrun[1..], q');
      StepsCons(o, s, a, run, s');
      run := [a] + run;
    }
  }

  /** What the receiver does to the ring by itself. */
  lemma {:induction false} LiftReceiver(o: Q.Options, s: State, rrun: seq<R.Action>, ring': R.State)
    returns (run: seq<Action>, s': State)
    requires Inv(o, s) && R.Steps(s.ring, rrun, ring') && RP.OnlyBy(false, rrun)
    ensures Steps(o, s, run, s') && Inv(o, s') && s' == s.(ring := ring')
    decreases |rrun|
  {
    if rrun == [] {
      run, s' := [], s;
    } else {
      var a := ReceiverStep(rrun[0]);
      StepKeepsInv(o, s, a);
      run, s' := LiftReceiver(o, Next(o, s, a), rrun[1..], ring');
      StepsCons(o, s, a, run, s');
      run := [a] + run;
    }
  }

  lemma OnlyReceives(len: nat)
    ensures RP.OnlyBy(false, RC.RecvRun(len))
  {
  }

  /** The receiver finishes its call and, if the ring is still full, makes another. */
  lemma ReceiverMakesRoom(r: R.State) returns (run: seq<R.Action>, r': R.State)
    requires RS.Inv(r) && r.prod.SendWaiting?
    ensures R.Steps(r, run, r') && RP.OnlyBy(false, run) && r'.prod == r.prod && r'.spaces > 0
  {
    run, r' := RP.FinishRecv(r);
    if r'.spaces == 0 {
      var m := r'.sent[r'.taken];
      RC.RecvAlone(r');
      OnlyReceives(|m|);
      RC.StepsCompose(r, run, r', RC.RecvRun(|m|), RC.RecvEffect(r', m));
      run, r' := run + RC.RecvRun(|m|), RC.RecvEffect(r', m);
    }
  }

  ghost predicate Delivers(o: Q.Options, s: State, run: seq<Action>, s': State) {
    Steps(o, s, run, s') && |s'.q.handed| > |s.q.handed|
  }

  /** A call of the worker can always be brought to its end, with the receiver's help if need be. */
  lemma CallDelivers(o: Q.Options, s: State) returns (run: seq<Action>, s': State)
    requires Inv(o, s) && s.sending.Some?
    ensures Delivers(o, s, run, s')
  {
    if s.ring.prod.SendWaiting? {
      var rrun, ring' := ReceiverMakesRoom(s.ring);
      var help, mid := LiftReceiver(o, s, rrun, ring');
      var call, end := TakeSlotAndFinish(o, mid);
      StepsCompose(o, s, help, mid, call, end);
      run, s' := help + call, end;
    } else {
      run, s' := FinishCall(o, s);
    }
  }

  lemma IdleDelivers(o: Q.Options, s: State) returns (run: seq<Action>, s': State)
    requires Inv(o, s) && s.sending == None && CanMove(o, s)
    ensures Delivers(o, s, run, s')
  {
    var qrun, q' := QP.GetsReady(o, s.q, R.SLOT_PAYLOAD_MAX);
    var quiet, ready := LiftQuiet(o, s, qrun, q');
    var a := WorkerTurn(ready.q.clock, ready.q.clock);
    ReadyStartsCall(o, ready);
    var call, end := CallDelivers(o, Next(o, ready, a));
    StepsCons(o, ready, a, call, end);
    StepsCompose(o, s, quiet, ready, [a] + call, end);
    run, s' := quiet + ([a] + call), end;
  }

  /**
    When the pipe can still hand a message over to the ring: one is on its way, or the worker runs and its
    queue can move: there is a positive mark and a TTL or the policy kDropOld, or the queue is below its mark
    with nothing in front that is too large for a slot.
   */
  lemma MovesIff(o: Q.Options, s: State)
    requires Inv(o, s)
    ensures CanMove(o, s) <==> exists run, s' :: Delivers(o, s, run, s')
  {
    if !CanMove(o, s) {
      forall run, s' | Steps(o, s, run, s')
        ensures !Delivers(o, s, run, s')
      {
        HaltedForEver(o, s, run, s');
      }
    } else if s.sending == None {
      var run, s' := IdleDelivers(o, s);
    } else {
      var run, s' := CallDelivers(o, s);
    }
  }

  /**
    A message larger than a slot but below the mark is accepted by a fresh pipe and stops it for good: in
    every run nothing at all reaches the ring.
   */
  lemma OversizedIsStuck(o: Q.Options, s0: State, m: Message, run: seq<Action>, s: State)
    requires Init(s0) && o.ttl <= 0 && o.policy != DropOld && R.SLOT_PAYLOAD_MAX < |m| < o.hwm
    requires run != [] && run[0] == CallerSend(m, 0) && Steps(o, s0, run, s)
    ensures Next(o, s0, run[0]).q.queue == [Q.Stamped(m, 0)] && Next(o, s0, run[0]).q.bytes < o.hwm
    ensures s.q.handed == [] && s.ring.sent == [] && Q.Messages(s.q.accepted) == Q.Messages(s.q.queue)
  {
    InitInv(o, s0);
    StepKeepsInv(o, s0, run[0]);
    HaltedForEver(o, Next(o, s0, run[0]), run[1..], s);
    RunKeepsInv(o, s0, run, s);
    Q.NothingLost(o, s.q);
  }

  /** `close` can come to be held up from a fresh start if and only if the mark is positive. */
  lemma HeldUpReachableIff(o: Q.Options, s0: State)
    requires Init(s0)
    ensures o.hwm > 0 <==> exists run, s :: GetsHeldUp(o, s0, run, s)
  {
    if o.hwm > 0 {
      var run, s := SilentPeer(o, s0);
    } else {
      InitInv(o, s0);
      forall run, s | Steps(o, s0, run, s)
        ensures !GetsHeldUp(o, s0, run, s)
      {
        HaltedForEver(o, s0, run, s);
      }
    }
  }

  /** Once `close` has the lock, nothing more reaches the ring in any run. */
  lemma CloseStops(o: Q.Options, s: State, run: seq<Action>, s': State)
    requires Inv(o, s) && Enabled(o, s, Close) && Steps(o, Next(o, s, Close), run, s')
    ensures Next(o, s, Close).q.queue == s.q.queue && !Next(o, s, Close).q.running
    ensures s'.q.handed == s.q.handed && s'.ring.sent == s.ring.sent
  {
    StepKeepsInv(o, s, Close);
    HaltedForEver(o, Next(o, s, Close), run, s');
  }

  /** An error of the semaphore stops the pipe: the message stays queued, and no run hands over another. */
  lemma SemaphoreErrorStops(o: Q.Options, s: State, run: seq<Action>, s': State)
    requires Inv(o, s) && Enabled(o, s, SemaphoreFails) && Steps(o, Next(o, s, SemaphoreFails), run, s')
    ensures Next(o, s, SemaphoreFails).q.queue == s.q.queue && !Next(o, s, SemaphoreFails).q.running
    ensures s'.q.handed == s.q.handed && s'.ring.sent == s.ring.sent
  {
    StepKeepsInv(o, s, SemaphoreFails);
    HaltedForEver(o, Next(o, s, SemaphoreFails), run, s');
  }
}
