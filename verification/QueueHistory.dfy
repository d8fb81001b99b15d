/** What `close` ends, and what every run of the monitor does with the messages. */
module QueueHistory {
  import opened Common
  import opened QueueMonitor
  import opened QueueWakeUps
  import MQ = MessageQueue

  // ---- Close ----

  ghost predicate ClosedIsAwake(s: State) {
    s.q.closed ==> s.popAsleep == {} && s.pushAsleep == map[]
  }

  lemma StepKeepsAwake(c: MQ.Config, s: State, a: Action)
    requires PoppersServed(s) && ClosedIsAwake(s) && Enabled(c, s, a)
    ensures ClosedIsAwake(Next(c, s, a))
  {
    StepServesPoppers(c, s, a);
    match a
    case Push(t, m, now, woken) => PushShape(c, s.q, m, now);
    case PushResume(t, now, gaveUp, woken) => PushShape(c, s.q, WaitingMessage(s, t), now);
    case Pop(t, now, woken) => PopShape(s.q, now);
    case PopResume(t, now, gaveUp, woken) => PopShape(s.q, now);
    case TryPop(now, woken) => TryPopShape(s.q, now);
    case Purge(now) => PurgeShape(c, s.q, now);
    case Close =>
  }

  lemma {:induction false} RunKeepsAwake(c: MQ.Config, s: State, run: seq<Action>, s': State)
    requires PoppersServed(s) && ClosedIsAwake(s) && Steps(c, s, run, s')
    ensures ClosedIsAwake(s')
    decreases |run|
  {
    if run == [] {
    } else {
      StepServesPoppers(c, s, run[0]);
      StepKeepsAwake(c, s, run[0]);
      RunKeepsAwake(c, Next(c, s, run[0]), run[1..], s');
    }
  }

  /** `close` wakes everybody, and nobody falls asleep on a closed queue again, in any run. */
  lemma NobodySleepsOnClosed(c: MQ.Config, run: seq<Action>, s: State)
    requires Steps(c, START, run, s) && s.q.closed
    ensures s.popAsleep == {} && s.pushAsleep == map[]
  {
    RunKeepsAwake(c, START, run, s);
  }

  lemma ClosedStep(c: MQ.Config, s: State, a: Action)
    requires s.q.closed && Enabled(c, s, a)
    ensures Next(c, s, a).q.closed && Next(c, s, a).q.enqueued == s.q.enqueued
    ensures |Next(c, s, a).q.queue| <= |s.q.queue|
  {
    match a
    case Pop(t, now, woken) => TakeAddsNothing(s.q, now);
    case PopResume(t, now, gaveUp, woken) => TakeAddsNothing(s.q, now);
    case TryPop(now, woken) => TakeAddsNothing(s.q, now);
    case _ =>
  }

  lemma {:induction false} SkipAddsNothing(q: MQ.State, now: nat)
    ensures MQ.SkipExpired(q, now).enqueued == q.enqueued
    ensures |MQ.SkipExpired(q, now).queue| <= |q.queue| && MQ.SkipExpired(q, now).closed == q.closed
    decreases |q.queue|
  {
    if q.queue == [] || !MQ.IsExpired(q.queue[0], now) {
    } else {
      SkipAddsNothing(MQ.DropFront(q, MQ.Expired(now)), now);
    }
  }

  lemma TakeAddsNothing(q: MQ.State, now: nat)
    ensures MQ.Take(q, now).0.enqueued == q.enqueued && MQ.Take(q, now).0.closed == q.closed
    ensures |MQ.Take(q, now).0.queue| <= |q.queue|
  {
    SkipAddsNothing(q.(clock := now), now);
  }

  /** Closed is final, and nothing enters a closed queue: not even a push that was waiting when it closed. */
  lemma {:induction false} NothingEntersClosed(c: MQ.Config, s: State, run: seq<Action>, s': State)
    requires s.q.closed && Steps(c, s, run, s')
    ensures s'.q.closed && s'.q.enqueued == s.q.enqueued && |s'.q.queue| <= |s.q.queue|
    decreases |run|
  {
    if run == [] {
    } else {
      ClosedStep(c, s, run[0]);
      NothingEntersClosed(c, Next(c, s, run[0]), run[1..], s');
    }
  }

  /** So it is from `close` on, in every run. */
  lemma CloseIsFinal(c: MQ.Config, s: State, run: seq<Action>, s': State)
    requires Steps(c, Next(c, s, Close), run, s')
    ensures s'.q.closed && s'.q.enqueued == s.q.enqueued && |s'.q.queue| <= |s.q.queue|
  {
    NothingEntersClosed(c, Next(c, s, Close), run, s');
  }

  // ---- Every run ----

  ghost predicate PushesWithin(a: Action, longest: nat) {
    a.Push? ==> |a.msg| <= longest
  }

  ghost predicate Inv(c: MQ.Config, s: State, longest: nat) {
    && MQ.Inv(c, s.q) && MQ.WithinMark(c, s.q, longest)
    && (forall t | t in s.pushAsleep :: |s.pushAsleep[t]| <= longest)
    && (forall t | t in s.pushReady :: |s.pushReady[t]| <= longest)
  }

  lemma TakeKeepsMark(c: MQ.Config, q: MQ.State, now: nat, longest: nat)
    requires MQ.Inv(c, q) && MQ.WithinMark(c, q, longest) && q.clock <= now
    ensures MQ.Inv(c, MQ.Take(q, now).0) && MQ.WithinMark(c, MQ.Take(q, now).0, longest)
  {
    MQ.TakeKeeps(c, q, now);
    SkipLightens(q.(clock := now), now);
  }

  lemma {:induction false} SkipLightens(q: MQ.State, now: nat)
    ensures MQ.SkipExpired(q, now).total <= q.total
    decreases |q.queue|
  {
    if q.queue == [] || !MQ.IsExpired(q.queue[0], now) {
    } else {
      SkipLightens(MQ.DropFront(q, MQ.Expired(now)), now);
    }
  }

  lemma PushKeepsInv(
      c: MQ.Config, s: State, t: Thread, m: Message, now: nat, gaveUp: bool, woken: set<Thread>, longest: nat)
    requires Inv(c, s, longest) && 1 <= longest && |m| <= longest && s.q.clock <= now
    ensures Inv(c, DoPush(c, s, t, m, now, gaveUp, woken), longest)
  {
    MQ.PushKeeps(c, s.q, m, now);
    MQ.PushKeepsMark(c, s.q, m, now, longest);
    var q' := MQ.Push(c, s.q, m, now).0;
    assert MQ.Inv(c, q') && MQ.WithinMark(c, q', longest);
    assert DoPush(c, s, t, m, now, gaveUp, woken).q == q' || DoPush(c, s, t, m, now, gaveUp, woken).q == s.q;
  }

  lemma WakingKeepsInv(c: MQ.Config, s: State, woken: set<Thread>, longest: nat)
    requires Inv(c, s, longest)
    ensures Inv(c, WakePushers(s, woken), longest)
  {
    assert WakePushers(s, woken).q == s.q;
  }

  lemma PopKeepsInv(c: MQ.Config, s: State, t: Thread, now: nat, gaveUp: bool, woken: set<Thread>, longest: nat)
    requires Inv(c, s, longest) && s.q.clock <= now
    ensures Inv(c, DoPop(s, t, now, gaveUp, woken), longest)
  {
    TakeKeepsMark(c, s.q, now, longest);
    var me := s.(q := MQ.Pop(s.q, now).0, popAsleep := s.popAsleep - {t}, popReady := s.popReady - {t});
    assert MQ.Inv(c, me.q) && MQ.WithinMark(c, me.q, longest);
    WakingKeepsInv(c, me, woken, longest);
  }

  lemma TryPopKeepsInv(c: MQ.Config, s: State, now: nat, woken: set<Thread>, longest: nat)
    requires Inv(c, s, longest) && s.q.clock <= now
    ensures Inv(c, WakePushers(s.(q := MQ.TryPop(s.q, now).0), woken), longest)
  {
    TakeKeepsMark(c, s.q, now, longest);
    WakingKeepsInv(c, s.(q := MQ.TryPop(s.q, now).0), woken, longest);
  }

  lemma PurgeKeepsInv(c: MQ.Config, s: State, now: nat, longest: nat)
    requires Inv(c, s, longest) && Enabled(c, s, Purge(now))
    ensures Inv(c, Next(c, s, Purge(now)), longest)
  {
    MQ.PurgeKeeps(c, s.q, now);
    if c.ttl != 0 {
      MQ.PurgeIsSkip(c, s.q, now);
      SkipLightens(s.q.(clock := now), now);
    }
  }

  lemma StepKeepsInv(c: MQ.Config, s: State, a: Action, longest: nat)
    requires Inv(c, s, longest) && Enabled(c, s, a) && 1 <= longest && PushesWithin(a, longest)
    ensures Inv(c, Next(c, s, a), longest)
  {
    match a
    case Push(t, m, now, woken) => PushKeepsInv(c, s, t, m, now, false, woken, longest);
    case PushResume(t, now, gaveUp, woken) =>
      PushKeepsInv(c, s, t, WaitingMessage(s, t), now, gaveUp, woken, longest);
    case Pop(t, now, woken) => PopKeepsInv(c, s, t, now, false, woken, longest);
    case PopResume(t, now, gaveUp, woken) => PopKeepsInv(c, s, t, now, gaveUp, woken, longest);
    case TryPop(now, woken) => TryPopKeepsInv(c, s, now, woken, longest);
    case Purge(now) => PurgeKeepsInv(c, s, now, longest);
    case Close =>
  }

  lemma {:induction false} RunKeepsInv(c: MQ.Config, s: State, run: seq<Action>, s': State, longest: nat)
    requires Inv(c, s, longest) && Steps(c, s, run, s') && 1 <= longest
    requires forall i | 0 <= i < |run| :: PushesWithin(run[i], longest)
    ensures Inv(c, s', longest)
    decreases |run|
  {
    if run == [] {
    } else {
      StepKeepsInv(c, s, run[0], longest);
      RunKeepsInv(c, Next(c, s, run[0]), run[1..], s', longest);
    }
  }

  function Messages(es: seq<MQ.Entry>): seq<Message> {
    seq(|es|, i requires 0 <= i < |es| => es[i].msg)
  }

  /** Where the popped messages were in the enqueue history. */
  function PoppedAt(fates: seq<MQ.Fate>): seq<nat> {
    if fates == [] then []
    else PoppedAt(fates[..|fates| - 1]) + (if fates[|fates| - 1].Popped? then [|fates| - 1] else [])
  }

  lemma {:induction false} PoppedAtExactly(fates: seq<MQ.Fate>)
    ensures forall n | n in PoppedAt(fates) :: n < |fates| && fates[n].Popped?
    ensures forall n | 0 <= n < |fates| && fates[n].Popped? :: n in PoppedAt(fates)
    decreases |fates|
  {
    if fates == [] {
    } else {
      PoppedAtExactly(fates[..|fates| - 1]);
    }
  }

  lemma {:induction false} PoppedAtSelects(enqueued: seq<MQ.Entry>, fates: seq<MQ.Fate>)
    requires |fates| <= |enqueued|
    ensures Selects(PoppedAt(fates), MQ.PoppedMessages(enqueued, fates), Messages(enqueued))
    decreases |fates|
  {
    if fates == [] {
    } else {
      var n := |fates| - 1;
      var before := fates[..n];
      PoppedAtSelects(enqueued, before);
      PoppedAtExactly(before);
      if fates[n].Popped? {
        var at := PoppedAt(before);
        assert forall i | 0 <= i < |at| :: at[i] in at;
        SelectsOneMore(at, MQ.PoppedMessages(enqueued, before), Messages(enqueued), n);
      }
    }
  }

  /**
    The history of every run. What was enqueued is exactly what was popped, evicted, expired or is still
    queued; the popped messages are an order-preserving selection of the enqueued ones, none of them past
    its deadline when popped; the byte count is right, and each policy keeps its bound.
   */
  lemma EveryRun(c: MQ.Config, run: seq<Action>, s: State, longest: nat) returns (at: seq<nat>)
    requires Steps(c, START, run, s) && 1 <= longest
    requires forall i | 0 <= i < |run| :: PushesWithin(run[i], longest)
    ensures |s.q.fates| + |s.q.queue| == |s.q.enqueued| && s.q.queue == s.q.enqueued[|s.q.fates|..]
    ensures Selects(at, s.q.popped, Messages(s.q.enqueued))
    ensures forall n | n in at :: n < |s.q.fates| && s.q.fates[n].Popped?
    ensures forall n | 0 <= n < |s.q.fates| && s.q.fates[n].Popped? :: n in at
    ensures forall i | 0 <= i < |s.q.fates| :: MQ.FateOk(c, s.q.enqueued[i], s.q.fates[i])
    ensures s.q.total == MQ.Bytes(s.q.queue) && MQ.WithinMark(c, s.q, longest)
    ensures PoppersServed(s)
  {
    RunKeepsInv(c, START, run, s, longest);
    PoppersAlwaysServed(c, START, run, s);
    at := PoppedAt(s.q.fates);
    PoppedAtExactly(s.q.fates);
    PoppedAtSelects(s.q.enqueued, s.q.fates);
  }

  // ---- The bound of kBlock and kDropOld is exact ----

  /** A push that finds space under these two policies is queued, whether it fits or not. */
  lemma PushGoesIn(c: MQ.Config, s: State, m: Message)
    requires c.policy == Block || c.policy == DropOld
    requires 0 <= s.q.total < c.hwm && !s.q.closed && s.q.clock == 0
    requires s.popAsleep == {} && s.popReady == {} && s.pushAsleep == map[] && s.pushReady == map[]
    ensures Enabled(c, s, Push(0, m, 0, {}))
    ensures
      var s' := Next(c, s, Push(0, m, 0, {}));
      && s'.q.total == s.q.total + |m| && !s'.q.closed && s'.q.clock == 0
      && s'.popAsleep == {} && s'.popReady == {} && s'.pushAsleep == map[] && s'.pushReady == map[]
  {
    var (q', out, sig) := MQ.Push(c, s.q, m, 0);
    assert MQ.Evict(c, s.q) == s.q;
    assert q' == MQ.Enqueue(c, s.q, m, 0) && out == MQ.Enqueued && sig == MQ.Signals(1, 0, false);
  }

  lemma {:induction false} FillOneByOne(c: MQ.Config, n: nat) returns (run: seq<Action>, s: State)
    requires (c.policy == Block || c.policy == DropOld) && n < c.hwm
    ensures Steps(c, START, run, s) && |run| == n
    ensures forall i | 0 <= i < n :: PushesWithin(run[i], 1)
    ensures s.q.total == n && !s.q.closed && s.q.clock == 0
    ensures s.popAsleep == {} && s.popReady == {} && s.pushAsleep == map[] && s.pushReady == map[]
  {
    if n == 0 {
      run, s := [], START;
    } else {
      var was: State;
      run, was := FillOneByOne(c, n - 1);
      var a := Push(0, [0], 0, {});
      PushGoesIn(c, was, [0]);
      StepsSnoc(c, START, run, was, a);
      run, s := run + [a], Next(c, was, a);
    }
  }

  /** The byte bound of kBlock and kDropOld is reached: both let in a message that does not fit. */
  lemma BoundIsReached(c: MQ.Config, m: Message) returns (run: seq<Action>, s: State)
    requires (c.policy == Block || c.policy == DropOld) && c.hwm > 0 && 1 <= |m|
    ensures Steps(c, START, run, s) && forall i | 0 <= i < |run| :: PushesWithin(run[i], |m|)
    ensures s.q.total == c.hwm - 1 + |m|
  {
    var was: State;
    run, was := FillOneByOne(c, c.hwm - 1);
    var a := Push(0, m, 0, {});
    PushGoesIn(c, was, m);
    StepsSnoc(c, START, run, was, a);
    run, s := run + [a], Next(c, was, a);
  }
}
