/** Whether a pusher sleeps on though it could go on, and which steps bring that about. */
module QueueStranding {
  import opened Common
  import opened QueueMonitor
  import opened QueueWakeUps
  import MQ = MessageQueue

  // ---- Pushers that could go on ----

  /**
    No lost wake-up in the usual sense: with no notified pusher about, no sleeping pusher could go on. The
    code does not keep this: one signal is sent per message removed, however many pushers now fit, and a
    pusher that goes on signals no other.
   */
  ghost predicate NoneStranded(c: MQ.Config, s: State) {
    s.pushReady == map[] ==> forall u | u in s.pushAsleep :: !MQ.MayProceed(c, s.q, |s.pushAsleep[u]|)
  }

  /** Only a kBlock push waits. */
  ghost predicate OnlyBlockWaits(c: MQ.Config, s: State) {
    c.policy == Block || (s.pushAsleep == map[] && s.pushReady == map[])
  }

  /** Whether the sleeper `u` could go on once a pusher of `m` has gone on, if it can. */
  ghost predicate ProceedsAfter(c: MQ.Config, s: State, m: Message, u: Thread)
    requires u in s.pushAsleep
  {
    var added := if MQ.MayProceed(c, s.q, |m|) then |m| else 0;
    MQ.MayProceed(c, s.q.(total := s.q.total + added), |s.pushAsleep[u]|)
  }

  /** The only notified pusher runs, and there is room for a sleeper besides. */
  ghost predicate LastOneLeavesRoom(c: MQ.Config, s: State, t: Thread) {
    s.pushReady.Keys == {t} && exists u | u in s.pushAsleep :: ProceedsAfter(c, s, s.pushReady[t], u)
  }

  ghost predicate Strands(c: MQ.Config, s: State, a: Action) {
    match a
    case PushResume(t, _, _, _) => LastOneLeavesRoom(c, s, t)
    case _ => Silences(s, a)
  }

  lemma BlockPush(c: MQ.Config, q: MQ.State, m: Message, now: nat)
    requires c.policy == Block
    ensures
      var (q', out, sig) := MQ.Push(c, q, m, now);
      && (out.Enqueued? <==> !q.closed && MQ.MayProceed(c, q, |m|))
      && (out.PushMustWait? <==> !q.closed && !MQ.MayProceed(c, q, |m|))
      && q'.closed == q.closed && q'.total == q.total + (if out.Enqueued? then |m| else 0)
  {
  }

  /** A full queue gets no emptier by a push, so nobody who had to wait can go on after one. */
  lemma PushMakesNoRoom(c: MQ.Config, s: State, t: Thread, m: Message, now: nat, gaveUp: bool, woken: set<Thread>)
    requires c.policy == Block && NoneStranded(c, s) && t !in s.pushReady
    requires t in s.pushAsleep ==> s.pushAsleep[t] == m
    ensures NoneStranded(c, DoPush(c, s, t, m, now, gaveUp, woken))
  {
    BlockPush(c, s.q, m, now);
    assert s.pushReady - {t} == s.pushReady;
  }

  /** A notified pusher that runs, whatever it then does. */
  lemma NotifiedPushStrandsIff(c: MQ.Config, s: State, t: Thread, now: nat, gaveUp: bool, woken: set<Thread>)
    requires c.policy == Block && PushersServed(s) && t in s.pushReady
    ensures NoneStranded(c, DoPush(c, s, t, s.pushReady[t], now, gaveUp, woken)) <==> !LastOneLeavesRoom(c, s, t)
  {
    var m := s.pushReady[t];
    var s' := DoPush(c, s, t, m, now, gaveUp, woken);
    BlockPush(c, s.q, m, now);
    assert s'.pushReady.Keys == s.pushReady.Keys - {t};
    assert s'.pushReady == map[] <==> s.pushReady.Keys == {t} by { EmptyKeys(s'.pushReady); }
    assert s.pushAsleep - {t} == s.pushAsleep;
    forall u | u in s.pushAsleep
      ensures u in s'.pushAsleep && s'.pushAsleep[u] == s.pushAsleep[u]
      ensures ProceedsAfter(c, s, m, u) <==> MQ.MayProceed(c, s'.q, |s.pushAsleep[u]|)
    {
    }
  }

  /** Waking somebody, or finding nobody to wake, strands nobody. */
  lemma WakingStrandsNobody(c: MQ.Config, s: State, n: nat, woken: set<Thread>)
    requires n > 0 && Wakes(n, s.pushAsleep.Keys, woken)
    ensures NoneStranded(c, WakePushers(s, woken))
  {
    WakingSomebody(s, n, woken);
  }

  lemma PopStrandsNobody(c: MQ.Config, s: State, t: Thread, now: nat, gaveUp: bool, woken: set<Thread>)
    requires NoneStranded(c, s) && Wakes(MQ.Pop(s.q, now).2.notFullOne, s.pushAsleep.Keys, woken)
    ensures NoneStranded(c, DoPop(s, t, now, gaveUp, woken))
  {
    PopShape(s.q, now);
    var me := s.(q := MQ.Pop(s.q, now).0, popAsleep := s.popAsleep - {t}, popReady := s.popReady - {t});
    if s.q.queue == [] {
      WakingNobody(me, woken);
    } else {
      WakingStrandsNobody(c, me, MQ.Pop(s.q, now).2.notFullOne, woken);
    }
  }

  lemma TryPopStrandsIff(c: MQ.Config, s: State, now: nat, woken: set<Thread>)
    requires MQ.Inv(c, s.q) && NoneStranded(c, s) && Enabled(c, s, TryPop(now, woken))
    ensures NoneStranded(c, Next(c, s, TryPop(now, woken))) <==> !Silences(s, TryPop(now, woken))
  {
    TryPopOutcome(s.q, now);
    MQ.TakeKeeps(c, s.q, now);
    var s1 := s.(q := MQ.TryPop(s.q, now).0);
    if MQ.TryPop(s.q, now).1.Some? {
      WakingStrandsNobody(c, s1, 1, woken);
    } else {
      WakingNobody(s1, woken);
      if AllExpired(s.q, now) { EmptyHasRoom(c, s1); }
    }
  }

  /** An empty queue has room for anybody. */
  lemma EmptyHasRoom(c: MQ.Config, s: State)
    requires MQ.Inv(c, s.q) && s.q.queue == []
    ensures forall u | u in s.pushAsleep :: MQ.MayProceed(c, s.q, |s.pushAsleep[u]|)
    ensures NoneStranded(c, s) <==> s.pushReady != map[] || s.pushAsleep == map[]
  {
    EmptyKeys(s.pushAsleep);
    if s.pushAsleep != map[] {
      var u :| u in s.pushAsleep;
      assert MQ.MayProceed(c, s.q, |s.pushAsleep[u]|);
    }
  }

  lemma PurgeStrandsNobody(c: MQ.Config, s: State, now: nat)
    requires NoneStranded(c, s) && Enabled(c, s, Purge(now))
    ensures NoneStranded(c, Next(c, s, Purge(now)))
  {
    PurgeShape(c, s.q, now);
    var (q', n, sig) := MQ.Purge(c, s.q, now);
    if n == 0 { WakingNobody(s.(q := q'), {}); }
  }

  /**
    Which steps strand a pusher: the last notified pusher that runs while a sleeper would still find room,
    and a `try_pop` that silently empties the queue. No other step does.
   */
  lemma StepStrandsIff(c: MQ.Config, s: State, a: Action)
    requires MQ.Inv(c, s.q) && PushersServed(s) && OnlyBlockWaits(c, s) && NoneStranded(c, s) && Enabled(c, s, a)
    ensures NoneStranded(c, Next(c, s, a)) <==> !Strands(c, s, a)
  {
    match a
    case Push(t, m, now, woken) => NewPushStrandsNobody(c, s, t, m, now, woken);
    case PushResume(t, now, gaveUp, woken) =>
      if t in s.pushReady {
        NotifiedPushStrandsIff(c, s, t, now, gaveUp, woken);
      } else {
        PushMakesNoRoom(c, s, t, s.pushAsleep[t], now, gaveUp, woken);
      }
    case Pop(t, now, woken) => PopStrandsNobody(c, s, t, now, false, woken);
    case PopResume(t, now, gaveUp, woken) => PopStrandsNobody(c, s, t, now, gaveUp, woken);
    case TryPop(now, woken) => TryPopStrandsIff(c, s, now, woken);
    case Purge(now) => PurgeStrandsNobody(c, s, now);
    case Close =>
  }

  lemma NewPushStrandsNobody(c: MQ.Config, s: State, t: Thread, m: Message, now: nat, woken: set<Thread>)
    requires OnlyBlockWaits(c, s) && NoneStranded(c, s) && !Waiting(s, t)
    ensures NoneStranded(c, DoPush(c, s, t, m, now, false, woken))
  {
    if c.policy == Block {
      PushMakesNoRoom(c, s, t, m, now, false, woken);
    } else {
      PushShape(c, s.q, m, now);
      assert s.pushAsleep - {t} == s.pushAsleep;
    }
  }

  lemma StepKeepsOnlyBlock(c: MQ.Config, s: State, a: Action)
    requires OnlyBlockWaits(c, s) && Enabled(c, s, a)
    ensures OnlyBlockWaits(c, Next(c, s, a))
  {
    if c.policy != Block && a.Push? {
      PushShape(c, s.q, a.msg, a.now);
      assert s.pushAsleep - {a.t} == s.pushAsleep && s.pushReady - {a.t} == s.pushReady;
    }
  }

  // Five steps without a TTL and without `try_pop`: one large message, two small ones that wait for it to
  // go, one pop. Both small ones fit now, but only one of them is notified.

  ghost predicate TwoByteQueue(c: MQ.Config, s: State) {
    && c == MQ.Config(2, Block, 0) && !s.q.closed && s.q.clock == 0 && s.q.total == 2
    && s.q.queue == [MQ.Entry([0, 0], 0)] && s.popAsleep == {} && s.popReady == {}
  }

  /** A run from the start without `try_pop`. */
  ghost predicate RunTo(c: MQ.Config, run: seq<Action>, s: State) {
    Steps(c, START, run, s) && forall i | 0 <= i < |run| :: !run[i].TryPop?
  }

  lemma OneMore(c: MQ.Config, run: seq<Action>, s: State, a: Action)
    requires RunTo(c, run, s) && Enabled(c, s, a) && !a.TryPop?
    ensures RunTo(c, run + [a], Next(c, s, a))
  {
    StepsSnoc(c, START, run, s, a);
  }

  lemma LargeOneIn(c: MQ.Config) returns (run: seq<Action>, s: State)
    requires c == MQ.Config(2, Block, 0)
    ensures RunTo(c, run, s) && |run| == 1
    ensures TwoByteQueue(c, s) && s.pushAsleep == map[] && s.pushReady == map[]
  {
    var a := Push(1, [0, 0], 0, {});
    OneMore(c, [], START, a);
    run, s := [] + [a], Next(c, START, a);
  }

  lemma SmallOneWaits(c: MQ.Config, run: seq<Action>, s: State, t: Thread) returns (run': seq<Action>, s': State)
    requires RunTo(c, run, s) && TwoByteQueue(c, s) && !Waiting(s, t)
    ensures RunTo(c, run', s') && |run'| == |run| + 1 && s' == s.(pushAsleep := s.pushAsleep[t := [0]])
  {
    var a := Push(t, [0], 0, {});
    BlockPush(c, s.q, [0], 0);
    assert s.pushAsleep - {t} == s.pushAsleep && s.pushReady - {t} == s.pushReady;
    OneMore(c, run, s, a);
    run', s' := run + [a], Next(c, s, a);
  }

  lemma PopWakesOne(c: MQ.Config, run: seq<Action>, s: State) returns (run': seq<Action>, s': State)
    requires RunTo(c, run, s) && TwoByteQueue(c, s)
    requires s.pushAsleep == map[2 := [0], 3 := [0]] && s.pushReady == map[]
    ensures RunTo(c, run', s') && |run'| == |run| + 1
    ensures s'.pushAsleep == map[3 := [0]] && s'.pushReady == map[2 := [0]] && s'.popAsleep == {}
    ensures !s'.q.closed && s'.q.clock == 0 && s'.q.total == 0
  {
    var a := Pop(4, 0, {2});
    assert MQ.SkipExpired(s.q.(clock := 0), 0) == s.q;
    assert s.pushAsleep.Keys == {2, 3};
    OneMore(c, run, s, a);
    run', s' := run + [a], Next(c, s, a);
  }

  lemma OneGoesOn(c: MQ.Config, run: seq<Action>, s: State) returns (run': seq<Action>, s': State)
    requires RunTo(c, run, s) && c == MQ.Config(2, Block, 0) && !s.q.closed && s.q.clock == 0 && s.q.total == 0
    requires s.pushAsleep == map[3 := [0]] && s.pushReady == map[2 := [0]] && s.popAsleep == {}
    ensures RunTo(c, run', s') && |run'| == |run| + 1
    ensures s'.pushAsleep == map[3 := [0]] && s'.pushReady == map[] && s'.q.total == 1
  {
    var a := PushResume(2, 0, false, {});
    BlockPush(c, s.q, [0], 0);
    OneMore(c, run, s, a);
    run', s' := run + [a], Next(c, s, a);
  }

  /** So the stronger guarantee fails: a pusher stays asleep though there is room for its message. */
  lemma StrandedPusher() returns (c: MQ.Config, run: seq<Action>, s: State)
    ensures c.ttl == 0 && |run| == 5 && Steps(c, START, run, s) && forall i | 0 <= i < |run| :: !run[i].TryPop?
    ensures !NoneStranded(c, s) && s.pushReady == map[] && s.pushAsleep == map[3 := [0]] && s.q.total + 1 <= c.hwm
  {
    c := MQ.Config(2, Block, 0);
    run, s := LargeOneIn(c);
    run, s := SmallOneWaits(c, run, s, 2);
    run, s := SmallOneWaits(c, run, s, 3);
    run, s := PopWakesOne(c, run, s);
    run, s := OneGoesOn(c, run, s);
    assert 3 in s.pushAsleep && MQ.MayProceed(c, s.q, |s.pushAsleep[3]|);
  }

  /** One of the steps of the run strands a pusher. */
  ghost predicate StrandedIn(c: MQ.Config, s: State, run: seq<Action>, s': State)
    requires Steps(c, s, run, s')
    decreases |run|
  {
    run != [] && (Strands(c, s, run[0]) || StrandedIn(c, Next(c, s, run[0]), run[1..], s'))
  }

  /** In any run, no pusher is stranded unless one of the two kinds of step strands it. */
  lemma {:induction false} PushersNeverStranded(c: MQ.Config, s: State, run: seq<Action>, s': State)
    requires MQ.Inv(c, s.q) && PushersServed(s) && OnlyBlockWaits(c, s) && NoneStranded(c, s)
    requires Steps(c, s, run, s') && !StrandedIn(c, s, run, s')
    ensures NoneStranded(c, s') && PushersServed(s')
    decreases |run|
  {
    if run == [] {
    } else {
      if run[0].TryPop? {
        TryPopServesPushersIff(c, s, run[0].now, run[0].woken);
      } else {
        StepServesPushers(c, s, run[0]);
      }
      StepStrandsIff(c, s, run[0]);
      StepKeepsOnlyBlock(c, s, run[0]);
      QueueKept(c, s, run[0]);
      PushersNeverStranded(c, Next(c, s, run[0]), run[1..], s');
    }
  }

  /** From the start: in every run without a stranding step, nobody sleeps who could go on unnotified. */
  lemma EveryRunStrandsNobody(c: MQ.Config, run: seq<Action>, s: State)
    requires Steps(c, START, run, s) && !StrandedIn(c, START, run, s)
    ensures s.pushReady == map[] ==> forall u | u in s.pushAsleep :: !MQ.MayProceed(c, s.q, |s.pushAsleep[u]|)
  {
    StartIsServed(c);
    PushersNeverStranded(c, START, run, s);
  }
}
