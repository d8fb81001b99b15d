/**
  `MessageQueue` as a monitor: any number of threads, each critical section one step, and the threads
  that sleep on the two condition variables. A thread that has been notified has not yet got the lock
  back, and others may get in first. Waits may time out, and may wake for no reason.
 */
module QueueMonitor {
  import opened Common
  import MQ = MessageQueue

  type Thread = nat

  /** Per condition variable: who sleeps, and who has been notified but has not yet run. */
  datatype State = State(
    q: MQ.State,
    popAsleep: set<Thread>, popReady: set<Thread>,
    pushAsleep: map<Thread, Message>, pushReady: map<Thread, Message>)

  /**
    `woken` is the choice a notification makes among the sleepers. A `Resume` step is a waiting thread
    that runs again, notified or not; with `gaveUp` it leaves with a timeout if it still has to wait.
   */
  datatype Action =
    | Push(t: Thread, msg: Message, now: nat, woken: set<Thread>)
    | PushResume(t: Thread, now: nat, gaveUp: bool, woken: set<Thread>)
    | Pop(t: Thread, now: nat, woken: set<Thread>)
    | PopResume(t: Thread, now: nat, gaveUp: bool, woken: set<Thread>)
    | TryPop(now: nat, woken: set<Thread>)
    | Purge(now: nat)
    | Close

  const START := State(MQ.START, {}, {}, map[], map[])

  /** `n` calls of `notify_one` wake `n` sleepers, or all of them if there are fewer. */
  ghost predicate Wakes(n: nat, asleep: set<Thread>, woken: set<Thread>) {
    woken <= asleep && |woken| == if n <= |asleep| then n else |asleep|
  }

  ghost predicate Waiting(s: State, t: Thread) {
    t in s.popAsleep || t in s.popReady || t in s.pushAsleep || t in s.pushReady
  }

  function WaitingMessage(s: State, t: Thread): Message
    requires t in s.pushAsleep || t in s.pushReady
  {
    if t in s.pushReady then s.pushReady[t] else s.pushAsleep[t]
  }

  ghost predicate Enabled(c: MQ.Config, s: State, a: Action) {
    match a
    case Push(t, m, now, woken) =>
      !Waiting(s, t) && s.q.clock <= now
      && Wakes(MQ.Push(c, s.q, m, now).2.notEmptyOne, s.popAsleep, woken)
    case PushResume(t, now, gaveUp, woken) =>
      (t in s.pushAsleep || t in s.pushReady) && s.q.clock <= now && c.policy == Block
      && Wakes(MQ.Push(c, s.q, WaitingMessage(s, t), now).2.notEmptyOne, s.popAsleep, woken)
    case Pop(t, now, woken) =>
      !Waiting(s, t) && s.q.clock <= now
      && Wakes(MQ.Pop(s.q, now).2.notFullOne, s.pushAsleep.Keys, woken)
    case PopResume(t, now, gaveUp, woken) =>
      (t in s.popAsleep || t in s.popReady) && s.q.clock <= now
      && Wakes(MQ.Pop(s.q, now).2.notFullOne, s.pushAsleep.Keys, woken)
    case TryPop(now, woken) =>
      s.q.clock <= now && Wakes(MQ.TryPop(s.q, now).2.notFullOne, s.pushAsleep.Keys, woken)
    case Purge(now) => s.q.clock <= now
    case Close => true
  }

  function WakePoppers(s: State, woken: set<Thread>): State {
    s.(popAsleep := s.popAsleep - woken, popReady := s.popReady + woken)
  }

  function WakePushers(s: State, woken: set<Thread>): State {
    s.(pushAsleep := s.pushAsleep - woken,
       pushReady := s.pushReady + (map t | t in s.pushAsleep && t in woken :: s.pushAsleep[t]))
  }

  function DoPush(c: MQ.Config, s: State, t: Thread, m: Message, now: nat, gaveUp: bool, woken: set<Thread>): State {
    var (q', out, sig) := MQ.Push(c, s.q, m, now);
    var me := s.(pushAsleep := s.pushAsleep - {t}, pushReady := s.pushReady - {t});
    if out.PushMustWait? then
      if gaveUp then me else me.(pushAsleep := me.pushAsleep[t := m])
    else WakePoppers(me.(q := q'), woken)
  }

  function DoPop(s: State, t: Thread, now: nat, gaveUp: bool, woken: set<Thread>): State {
    var (q', out, sig) := MQ.Pop(s.q, now);
    var me := s.(popAsleep := s.popAsleep - {t}, popReady := s.popReady - {t});
    if out.PopMustWait? then
      if gaveUp then me else me.(popAsleep := me.popAsleep + {t})
    else WakePushers(me.(q := q'), woken)
  }

  ghost function Next(c: MQ.Config, s: State, a: Action): State
    requires Enabled(c, s, a)
  {
    match a
    case Push(t, m, now, woken) => DoPush(c, s, t, m, now, false, woken)
    case PushResume(t, now, gaveUp, woken) => DoPush(c, s, t, WaitingMessage(s, t), now, gaveUp, woken)
    case Pop(t, now, woken) => DoPop(s, t, now, false, woken)
    case PopResume(t, now, gaveUp, woken) => DoPop(s, t, now, gaveUp, woken)
    case TryPop(now, woken) => WakePushers(s.(q := MQ.TryPop(s.q, now).0), woken)
    case Purge(now) =>
      var (q', n, sig) := MQ.Purge(c, s.q, now);
      WakePushers(s.(q := q'), if sig.notFullAll then s.pushAsleep.Keys else {})
    case Close =>
      WakePoppers(WakePushers(s.(q := MQ.Close(s.q)), s.pushAsleep.Keys), s.popAsleep)
  }

  ghost predicate Steps(c: MQ.Config, s: State, run: seq<Action>, s': State)
    decreases |run|
  {
    if run == [] then s == s'
    else Enabled(c, s, run[0]) && Steps(c, Next(c, s, run[0]), run[1..], s')
  }

  lemma {:induction false} StepsSnoc(c: MQ.Config, s: State, run: seq<Action>, mid: State, a: Action)
    requires Steps(c, s, run, mid) && Enabled(c, mid, a)
    ensures Steps(c, s, run + [a], Next(c, mid, a))
    decreases |run|
  {
    if run == [] {
      assert run + [a] == [a];
    } else {
      StepsSnoc(c, Next(c, s, run[0]), run[1..], mid, a);
      TailOfSum(run, [a]);
    }
  }
}
