/** Whether the threads that sleep on the two condition variables still have somebody to wake them. */
module QueueWakeUps {
  import opened Common
  import opened Expiry
  import opened QueueMonitor
  import MQ = MessageQueue

  // ---- Poppers ----

  /**
    While a popper sleeps on an open queue, every queued message has a notified popper coming for it.
    Nobody sleeps on a closed queue.
   */
  ghost predicate PoppersServed(s: State) {
    && s.popAsleep !! s.popReady
    && (s.popAsleep != {} ==> !s.q.closed && |s.q.queue| <= |s.popReady|)
  }

  lemma PushShape(c: MQ.Config, q: MQ.State, m: Message, now: nat)
    ensures
      var (q', out, sig) := MQ.Push(c, q, m, now);
      && q'.closed == q.closed
      && (out.Enqueued? ==> sig.notEmptyOne == 1 && q'.queue != [] && |q'.queue| <= |q.queue| + 1)
      && (!out.Enqueued? ==> sig.notEmptyOne == 0 && q' == q)
      && (out.PushMustWait? ==> !q.closed && c.policy == Block && c.hwm > 0 && q.total >= c.hwm)
  {
    EvictShape(c, q);
  }

  lemma {:induction false} EvictShape(c: MQ.Config, q: MQ.State)
    ensures MQ.Evict(c, q).closed == q.closed && |MQ.Evict(c, q).queue| <= |q.queue|
    decreases |q.queue|
  {
    if MQ.HasSpace(c, q.total) || q.queue == [] {
    } else {
      EvictShape(c, MQ.DropFront(q, MQ.Evicted));
    }
  }

  lemma {:induction false} SkipShape(q: MQ.State, now: nat)
    ensures MQ.SkipExpired(q, now).closed == q.closed && |MQ.SkipExpired(q, now).queue| <= |q.queue|
    decreases |q.queue|
  {
    if q.queue == [] || !MQ.IsExpired(q.queue[0], now) {
    } else {
      SkipShape(MQ.DropFront(q, MQ.Expired(now)), now);
    }
  }

  lemma PopShape(q: MQ.State, now: nat)
    ensures
      var (q', out, sig) := MQ.Pop(q, now);
      && q'.closed == q.closed
      && (out.PopMustWait? <==> q.queue == [] && !q.closed)
      && (q.queue == [] ==> q' == q)
      && (q.queue != [] ==> |q'.queue| < |q.queue| && sig.notFullOne == |q.queue| - |q'.queue|)
  {
    SkipShape(q.(clock := now), now);
  }

  lemma TryPopShape(q: MQ.State, now: nat)
    ensures
      var (q', out, sig) := MQ.TryPop(q, now);
      && q'.closed == q.closed && |q'.queue| <= |q.queue|
      && (sig.notFullOne == if out.Some? then 1 else 0)
      && (q.queue != [] && out.None? ==> q'.queue == [])
  {
    SkipShape(q.(clock := now), now);
  }

  lemma PurgeShape(c: MQ.Config, q: MQ.State, now: nat)
    ensures
      var (q', n, sig) := MQ.Purge(c, q, now);
      && q'.closed == q.closed && |q'.queue| + n == |q.queue| && sig.notFullAll == (n > 0)
      && (n == 0 ==> q'.queue == q.queue && q'.total == q.total)
  {
    if |MQ.Purge(c, q, now).0.queue| == |q.queue| && c.ttl != 0 {
      KeepLosesNothing(q.queue, MQ.DeadAt(now));
    }
  }

  lemma PushServes(c: MQ.Config, s: State, t: Thread, m: Message, now: nat, gaveUp: bool, woken: set<Thread>)
    requires PoppersServed(s) && Wakes(MQ.Push(c, s.q, m, now).2.notEmptyOne, s.popAsleep, woken)
    ensures PoppersServed(DoPush(c, s, t, m, now, gaveUp, woken))
  {
    PushShape(c, s.q, m, now);
    if MQ.Push(c, s.q, m, now).1.Enqueued? {
      assert |s.popReady + woken| == |s.popReady| + |woken|;
      if s.popAsleep - woken != {} { assert woken != s.popAsleep; SubsetSize(woken, s.popAsleep); }
    } else {
      assert woken == {};
      assert s.popAsleep - woken == s.popAsleep && s.popReady + woken == s.popReady;
    }
  }

  lemma {:induction false} SubsetSize(a: set<Thread>, b: set<Thread>)
    requires a <= b && a != b
    ensures |a| < |b|
  {
    assert |b - a| + |a| == |b|;
    assert b - a != {};
  }

  lemma PopServes(s: State, t: Thread, now: nat, gaveUp: bool, woken: set<Thread>)
    requires PoppersServed(s)
    ensures PoppersServed(DoPop(s, t, now, gaveUp, woken))
  {
    PopShape(s.q, now);
    if t in s.popReady { assert |s.popReady - {t}| == |s.popReady| - 1; }
  }

  lemma StepServesPoppers(c: MQ.Config, s: State, a: Action)
    requires PoppersServed(s) && Enabled(c, s, a)
    ensures PoppersServed(Next(c, s, a))
  {
    match a
    case Push(t, m, now, woken) => PushServes(c, s, t, m, now, false, woken);
    case PushResume(t, now, gaveUp, woken) => PushServes(c, s, t, WaitingMessage(s, t), now, gaveUp, woken);
    case Pop(t, now, woken) => PopServes(s, t, now, false, woken);
    case PopResume(t, now, gaveUp, woken) => PopServes(s, t, now, gaveUp, woken);
    case TryPop(now, woken) => TryPopShape(s.q, now);
    case Purge(now) => PurgeShape(c, s.q, now);
    case Close =>
  }

  /** When a pop falls asleep: exactly on an empty, open queue, unless its time is up. */
  lemma PopWaitsIff(c: MQ.Config, s: State, t: Thread, now: nat, gaveUp: bool, woken: set<Thread>)
    requires t !in s.pushAsleep && t !in s.pushReady
    ensures t in DoPop(s, t, now, gaveUp, woken).popAsleep <==> s.q.queue == [] && !s.q.closed && !gaveUp
    ensures t !in DoPop(s, t, now, gaveUp, woken).popReady
  {
    PopShape(s.q, now);
  }

  /** When a push falls asleep: exactly under kBlock at the mark, if the message does not fit, and there is time. */
  lemma PushWaitsIff(c: MQ.Config, s: State, t: Thread, m: Message, now: nat, gaveUp: bool, woken: set<Thread>)
    requires t !in s.popAsleep && t !in woken
    ensures t in DoPush(c, s, t, m, now, gaveUp, woken).pushAsleep
       <==> c.policy == Block && !s.q.closed && c.hwm > 0 && s.q.total >= c.hwm && s.q.total + |m| > c.hwm && !gaveUp
    ensures t !in DoPush(c, s, t, m, now, gaveUp, woken).pushReady
  {
  }

  /** No lost wake-up for poppers, in any run of any operations by any number of threads. */
  lemma {:induction false} PoppersAlwaysServed(c: MQ.Config, s: State, run: seq<Action>, s': State)
    requires PoppersServed(s) && Steps(c, s, run, s')
    ensures PoppersServed(s')
    decreases |run|
  {
    if run == [] {
    } else {
      StepServesPoppers(c, s, run[0]);
      PoppersAlwaysServed(c, Next(c, s, run[0]), run[1..], s');
    }
  }

  // ---- Pushers ----

  /**
    While a pusher sleeps, the queue is open and somebody may still come by who signals it: a popper of a
    queued message, or a notified pusher whose message can then be popped. That is weaker than saying that
    no sleeper could go on now; see `NoneStranded`.
   */
  ghost predicate PushersServed(s: State) {
    && s.pushAsleep.Keys !! s.pushReady.Keys
    && (s.pushAsleep != map[] ==> !s.q.closed && (s.q.queue != [] || s.pushReady != map[]))
  }

  ghost predicate AllExpired(q: MQ.State, now: nat) {
    q.queue != [] && forall i | 0 <= i < |q.queue| :: MQ.IsExpired(q.queue[i], now)
  }

  /** A `try_pop` that finds nothing alive while a pusher sleeps and none has been notified. */
  ghost predicate Silences(s: State, a: Action) {
    a.TryPop? && s.pushAsleep != map[] && s.pushReady == map[] && AllExpired(s.q, a.now)
  }

  lemma {:induction false} SkipEmpties(q: MQ.State, now: nat)
    ensures MQ.SkipExpired(q, now).queue == [] <==> forall i | 0 <= i < |q.queue| :: MQ.IsExpired(q.queue[i], now)
    decreases |q.queue|
  {
    if q.queue == [] || !MQ.IsExpired(q.queue[0], now) {
    } else {
      var d := MQ.DropFront(q, MQ.Expired(now));
      SkipEmpties(d, now);
      assert forall i | 1 <= i < |q.queue| :: q.queue[i] == d.queue[i - 1];
    }
  }

  lemma PushServesPushers(c: MQ.Config, s: State, t: Thread, m: Message, now: nat, gaveUp: bool, woken: set<Thread>)
    requires MQ.Inv(c, s.q) && PushersServed(s)
    requires (t in s.pushAsleep || t in s.pushReady) ==> c.policy == Block
    ensures PushersServed(DoPush(c, s, t, m, now, gaveUp, woken))
  {
    PushShape(c, s.q, m, now);
    if t !in s.pushAsleep && t !in s.pushReady {
      assert s.pushAsleep - {t} == s.pushAsleep && s.pushReady - {t} == s.pushReady;
    }
  }

  lemma WakeShape(s: State, woken: set<Thread>)
    requires woken <= s.pushAsleep.Keys
    ensures WakePushers(s, woken).pushAsleep.Keys == s.pushAsleep.Keys - woken
    ensures WakePushers(s, woken).pushReady.Keys == s.pushReady.Keys + woken
  {
  }

  lemma EmptyKeys(w: map<Thread, Message>)
    ensures w == map[] <==> w.Keys == {}
  {
    if w.Keys == {} { assert forall t :: t !in w; }
  }

  lemma WakingNobody(s: State, woken: set<Thread>)
    requires woken == {}
    ensures WakePushers(s, woken) == s
  {
    assert s.pushReady + (map t | t in s.pushAsleep && t in woken :: s.pushAsleep[t]) == s.pushReady;
    assert s.pushAsleep - woken == s.pushAsleep;
  }

  /** After at least one `notify` call somebody has been notified, or nobody sleeps. */
  lemma WakingSomebody(s: State, n: nat, woken: set<Thread>)
    requires n > 0 && Wakes(n, s.pushAsleep.Keys, woken)
    ensures WakePushers(s, woken).pushReady != map[] || WakePushers(s, woken).pushAsleep == map[]
  {
    WakeShape(s, woken);
    EmptyKeys(WakePushers(s, woken).pushAsleep);
    if s.pushAsleep.Keys != {} {
      var t :| t in woken;
      assert t in WakePushers(s, woken).pushReady;
    }
  }

  /** A queue that shrank has made at least one `notify` call, and that is enough. */
  lemma WakingServes(s: State, was: State, n: nat, woken: set<Thread>)
    requires PushersServed(was) && s.pushAsleep == was.pushAsleep && s.pushReady == was.pushReady
    requires s.q.closed == was.q.closed && Wakes(n, s.pushAsleep.Keys, woken)
    requires n == 0 ==> s.q.queue == was.q.queue
    ensures PushersServed(WakePushers(s, woken))
  {
    if n == 0 {
      WakingNobody(s, woken);
    } else {
      WakeShape(s, woken);
      EmptyKeys(s.pushAsleep);
      EmptyKeys(WakePushers(s, woken).pushAsleep);
      WakingSomebody(s, n, woken);
    }
  }

  lemma PopServesPushers(s: State, t: Thread, now: nat, gaveUp: bool, woken: set<Thread>)
    requires PushersServed(s) && Wakes(MQ.Pop(s.q, now).2.notFullOne, s.pushAsleep.Keys, woken)
    ensures PushersServed(DoPop(s, t, now, gaveUp, woken))
  {
    PopShape(s.q, now);
    var me := s.(popAsleep := s.popAsleep - {t}, popReady := s.popReady - {t});
    WakingServes(me.(q := MQ.Pop(s.q, now).0), s, MQ.Pop(s.q, now).2.notFullOne, woken);
  }

  /** Every step but `try_pop` keeps pushers served. */
  lemma StepServesPushers(c: MQ.Config, s: State, a: Action)
    requires MQ.Inv(c, s.q) && PushersServed(s) && Enabled(c, s, a) && !a.TryPop?
    ensures PushersServed(Next(c, s, a))
  {
    match a
    case Push(t, m, now, woken) => PushServesPushers(c, s, t, m, now, false, woken);
    case PushResume(t, now, gaveUp, woken) =>
      PushServesPushers(c, s, t, WaitingMessage(s, t), now, gaveUp, woken);
    case Pop(t, now, woken) => PopServesPushers(s, t, now, false, woken);
    case PopResume(t, now, gaveUp, woken) => PopServesPushers(s, t, now, gaveUp, woken);
    case Purge(now) =>
      PurgeShape(c, s.q, now);
      var (q', n, sig) := MQ.Purge(c, s.q, now);
      var asleep := s.pushAsleep.Keys;
      WakingServes(s.(q := q'), s, if n > 0 then n + |asleep| else 0, if n > 0 then asleep else {});
    case Close =>
  }

  lemma TryPopOutcome(q: MQ.State, now: nat)
    ensures AllExpired(q, now) <==> q.queue != [] && MQ.TryPop(q, now).1.None?
    ensures AllExpired(q, now) ==> MQ.TryPop(q, now).0.queue == []
    ensures MQ.TryPop(q, now).2.notFullOne == if MQ.TryPop(q, now).1.Some? then 1 else 0
    ensures MQ.TryPop(q, now).0.closed == q.closed
    ensures q.queue == [] ==> MQ.TryPop(q, now).0.queue == []
  {
    TryPopShape(q, now);
    SkipEmpties(q.(clock := now), now);
  }

  /** A `try_pop` that empties the queue without a signal leaves the waiting pushers as they were. */
  lemma SilentTryPop(c: MQ.Config, s: State, now: nat, woken: set<Thread>)
    requires PushersServed(s) && Enabled(c, s, TryPop(now, woken)) && AllExpired(s.q, now)
    ensures PushersServed(Next(c, s, TryPop(now, woken))) <==> !(s.pushAsleep != map[] && s.pushReady == map[])
  {
    TryPopOutcome(s.q, now);
    WakingNobody(s.(q := MQ.TryPop(s.q, now).0), woken);
  }

  /**
    `try_pop` loses a wake-up exactly when a pusher sleeps, none has been notified, and every queued
    message has expired: it then empties the queue and signals nobody.
   */
  lemma TryPopServesPushersIff(c: MQ.Config, s: State, now: nat, woken: set<Thread>)
    requires PushersServed(s) && Enabled(c, s, TryPop(now, woken))
    ensures PushersServed(Next(c, s, TryPop(now, woken))) <==> !Silences(s, TryPop(now, woken))
  {
    if AllExpired(s.q, now) {
      SilentTryPop(c, s, now, woken);
    } else {
      TryPopOutcome(s.q, now);
      if MQ.TryPop(s.q, now).2.notFullOne == 0 { TryPopUnlessAllExpired(c, s, now); }
      WakingServes(s.(q := MQ.TryPop(s.q, now).0), s, MQ.TryPop(s.q, now).2.notFullOne, woken);
    }
  }

  lemma TryPopUnlessAllExpired(c: MQ.Config, s: State, now: nat)
    requires !AllExpired(s.q, now) && MQ.TryPop(s.q, now).2.notFullOne == 0
    ensures MQ.TryPop(s.q, now).0.queue == s.q.queue
  {
    TryPopOutcome(s.q, now);
  }

  /** Without a TTL nothing expires, so `try_pop` is harmless. */
  lemma NothingExpires(c: MQ.Config, q: MQ.State, now: nat)
    requires MQ.Inv(c, q) && c.ttl <= 0
    ensures !AllExpired(q, now)
  {
    if q.queue != [] { assert q.queue[0] == q.enqueued[|q.fates|]; }
  }

  // The failure is real: a message in the way, a pusher that waits for it, and a late `try_pop`.

  ghost predicate OneByteQueue(c: MQ.Config, s: State) {
    && c == MQ.Config(1, Block, 1) && !s.q.closed && s.q.clock == 0 && s.q.total == 1
    && s.q.queue == [MQ.Entry([0], 1)] && s.popAsleep == {} && s.popReady == {} && s.pushReady == map[]
  }

  lemma FirstByteIn(c: MQ.Config) returns (run: seq<Action>, s: State)
    requires c == MQ.Config(1, Block, 1)
    ensures Steps(c, START, run, s) && |run| == 1 && OneByteQueue(c, s) && s.pushAsleep == map[]
  {
    var a := Push(1, [0], 0, {});
    StepsSnoc(c, START, [], START, a);
    run, s := [] + [a], Next(c, START, a);
  }

  lemma SecondByteWaits(c: MQ.Config, run: seq<Action>, s: State) returns (run': seq<Action>, s': State)
    requires Steps(c, START, run, s) && OneByteQueue(c, s) && s.pushAsleep == map[]
    ensures Steps(c, START, run', s') && |run'| == |run| + 1 && s' == s.(pushAsleep := map[2 := [0]])
  {
    var a := Push(2, [0], 0, {});
    StepsSnoc(c, START, run, s, a);
    run', s' := run + [a], Next(c, s, a);
  }

  lemma QueueEmptied(c: MQ.Config, run: seq<Action>, s: State) returns (run': seq<Action>, s': State)
    requires Steps(c, START, run, s) && OneByteQueue(c, s)
    ensures Steps(c, START, run', s') && |run'| == |run| + 1
    ensures !s'.q.closed && s'.q.queue == [] && s'.pushAsleep == s.pushAsleep && s'.pushReady == map[]
  {
    var a := TryPop(2, {});
    assert AllExpired(s.q, 2);
    TryPopOutcome(s.q, 2);
    WakingNobody(s.(q := MQ.TryPop(s.q, 2).0), {});
    StepsSnoc(c, START, run, s, a);
    run', s' := run + [a], Next(c, s, a);
  }

  lemma LostWakeUp() returns (c: MQ.Config, run: seq<Action>, s: State)
    ensures c == MQ.Config(1, Block, 1) && |run| == 3
    ensures Steps(c, START, run, s)
    ensures !s.q.closed && s.q.queue == [] && s.pushAsleep != map[] && s.pushReady == map[]
  {
    c := MQ.Config(1, Block, 1);
    run, s := FirstByteIn(c);
    run, s := SecondByteWaits(c, run, s);
    run, s := QueueEmptied(c, run, s);
    assert 2 in s.pushAsleep;
  }

  lemma PopsKept(c: MQ.Config, q: MQ.State, now: nat)
    requires MQ.Inv(c, q) && q.clock <= now
    ensures MQ.Inv(c, MQ.Pop(q, now).0) && MQ.Inv(c, MQ.TryPop(q, now).0)
  {
    MQ.TakeKeeps(c, q, now);
  }

  lemma PushKept(c: MQ.Config, s: State, t: Thread, m: Message, now: nat, gaveUp: bool, woken: set<Thread>)
    requires MQ.Inv(c, s.q) && s.q.clock <= now
    ensures MQ.Inv(c, DoPush(c, s, t, m, now, gaveUp, woken).q)
  {
    MQ.PushKeeps(c, s.q, m, now);
  }

  lemma QueueKept(c: MQ.Config, s: State, a: Action)
    requires MQ.Inv(c, s.q) && Enabled(c, s, a)
    ensures MQ.Inv(c, Next(c, s, a).q)
  {
    match a
    case Push(t, m, now, woken) => PushKept(c, s, t, m, now, false, woken);
    case PushResume(t, now, gaveUp, woken) => PushKept(c, s, t, WaitingMessage(s, t), now, gaveUp, woken);
    case Pop(t, now, woken) => PopsKept(c, s.q, now);
    case PopResume(t, now, gaveUp, woken) => PopsKept(c, s.q, now);
    case TryPop(now, woken) => PopsKept(c, s.q, now);
    case Purge(now) => MQ.PurgeKeeps(c, s.q, now);
    case Close =>
  }

  /** One of the steps of the run is a `try_pop` that silences a sleeping pusher. */
  ghost predicate SilencedIn(c: MQ.Config, s: State, run: seq<Action>, s': State)
    requires Steps(c, s, run, s')
    decreases |run|
  {
    run != [] && (Silences(s, run[0]) || SilencedIn(c, Next(c, s, run[0]), run[1..], s'))
  }

  /** In any run, pushers stay served unless a `try_pop` silences one. */
  lemma {:induction false} PushersAlwaysServed(c: MQ.Config, s: State, run: seq<Action>, s': State)
    requires MQ.Inv(c, s.q) && PushersServed(s) && Steps(c, s, run, s') && !SilencedIn(c, s, run, s')
    ensures PushersServed(s')
    decreases |run|
  {
    if run == [] {
    } else {
      if run[0].TryPop? {
        TryPopServesPushersIff(c, s, run[0].now, run[0].woken);
      } else {
        StepServesPushers(c, s, run[0]);
      }
      QueueKept(c, s, run[0]);
      PushersAlwaysServed(c, Next(c, s, run[0]), run[1..], s');
    }
  }

  /** Without a TTL, or without `try_pop`, no run silences anybody. */
  lemma {:induction false} NobodySilenced(c: MQ.Config, s: State, run: seq<Action>, s': State)
    requires MQ.Inv(c, s.q) && Steps(c, s, run, s')
    requires c.ttl <= 0 || forall i | 0 <= i < |run| :: !run[i].TryPop?
    ensures !SilencedIn(c, s, run, s')
    decreases |run|
  {
    if run == [] {
    } else {
      if run[0].TryPop? { NothingExpires(c, s.q, run[0].now); }
      QueueKept(c, s, run[0]);
      NobodySilenced(c, Next(c, s, run[0]), run[1..], s');
    }
  }

  lemma StartIsServed(c: MQ.Config)
    ensures MQ.Inv(c, START.q) && PushersServed(START)
  {
  }

  /** From the start: in every run without a silencing `try_pop`, every sleeping pusher still has a chance. */
  lemma EveryRunServesPushers(c: MQ.Config, run: seq<Action>, s: State)
    requires Steps(c, START, run, s) && !SilencedIn(c, START, run, s)
    ensures s.pushAsleep != map[] ==> !s.q.closed && (s.q.queue != [] || s.pushReady != map[])
  {
    StartIsServed(c);
    PushersAlwaysServed(c, START, run, s);
  }
}
