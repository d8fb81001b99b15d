/** When the queue of a `QosPipe` still moves, and when it has stopped for good. */
module QosProgress {
  import opened Common
  import opened Expiry
  import opened QosQueue

  // ---- At the mark ----

  predicate AtMark(o: Options, s: State) {
    s.bytes >= o.hwm
  }

  /**
    A queue at its mark, without a TTL and outside kDropOld, is stuck: in every run from there no message
    is handed over and none is accepted, since the worker and the senders both wait for the count to drop.
   */
  lemma {:induction false} StuckAtMark(o: Options, s: State, run: seq<Action>, s': State)
    requires AtMark(o, s) && o.ttl <= 0 && o.policy != DropOld && Steps(o, s, run, s')
    ensures AtMark(o, s') && s'.queue == s.queue && s'.handed == s.handed && s'.accepted == s.accepted
    decreases |run|
  {
    if run == [] {
    } else {
      StuckAtMark(o, Next(o, s, run[0]), run[1..], s');
    }
  }

  /** One message as large as the mark is accepted by a fresh pipe and never reaches the underlying one. */
  lemma LargestMessageIsStuck(o: Options, m: Message, run: seq<Action>, s: State)
    requires o.ttl <= 0 && o.policy != DropOld && 0 < |m| == o.hwm
    requires run != [] && run[0] == SendLocked(m, 0) && Steps(o, START, run, s)
    ensures Messages(s.accepted) == [m] && s.handed == []
  {
    StuckAtMark(o, Next(o, START, run[0]), run[1..], s);
  }

  // ---- Over a pipe that refuses large messages ----

  /**
    The pipe underneath takes only messages of at most `most` bytes. Every transport of the library has such
    a limit; its refusal is not fatal, so the message stays in front.
   */
  ghost predicate Honest(o: Options, s: State, a: Action, most: nat) {
    a.WorkerRound? && a.r == Sent ==>
      var queue := Expire(o, s, a.now).queue;
      queue != [] ==> |queue[0].msg| <= most
  }

  ghost predicate StepsOver(o: Options, most: nat, s: State, run: seq<Action>, s': State)
    decreases |run|
  {
    if run == [] then s == s'
    else
      && Enabled(o, s, run[0]) && Honest(o, s, run[0], most)
      && StepsOver(o, most, Next(o, s, run[0]), run[1..], s')
  }

  ghost predicate Delivers(o: Options, most: nat, s: State, run: seq<Action>, s': State) {
    StepsOver(o, most, s, run, s') && |s'.handed| > |s.handed|
  }

  predicate FrontFits(s: State, most: nat) {
    s.queue == [] || |s.queue[0].msg| <= most
  }

  /** Old messages go away, by age or by force, or the front one can be sent as it is. */
  predicate CanMove(o: Options, s: State, most: nat) {
    || (o.hwm > 0 && (o.ttl > 0 || o.policy == DropOld))
    || (!AtMark(o, s) && FrontFits(s, most))
  }

  // Where it cannot move, it never will.

  predicate Halted(o: Options, s: State, most: nat) {
    !s.running || !CanMove(o, s, most)
  }

  /** A halted worker offers at most a message that will be refused. */
  lemma OffersOnlyOversized(o: Options, s: State, now: nat, later: nat, most: nat)
    requires Inv(o, s) && Halted(o, s, most) && s.running && s.clock <= now
    ensures
      var s1 := Expire(o, s, now);
      s1.queue != [] && CanSend(o, s1, later) ==> s1 == s && |s.queue[0].msg| > most
  {
    ExpireKeeps(o, s, now);
  }

  lemma HaltedRound(o: Options, s: State, now: nat, later: nat, r: Underlying, most: nat)
    requires Inv(o, s) && Halted(o, s, most) && s.clock <= now && Honest(o, s, WorkerRound(now, later, r), most)
    ensures Halted(o, Round(o, s, now, later, r), most) && Round(o, s, now, later, r).handed == s.handed
  {
    if s.running {
      OffersOnlyOversized(o, s, now, later, most);
      RoundKeeps(o, s, now, later, r);
    }
  }

  lemma HaltedStep(o: Options, s: State, a: Action, most: nat)
    requires Inv(o, s) && Halted(o, s, most) && Enabled(o, s, a) && Honest(o, s, a, most)
    ensures Halted(o, Next(o, s, a), most) && Next(o, s, a).handed == s.handed
  {
    match a
    case SendLocked(m, now) => SendKeeps(o, s, m, now);
    case WorkerRound(now, later, r) => HaltedRound(o, s, now, later, r, most);
    case Close =>
  }

  lemma {:induction false} HaltedForEver(o: Options, most: nat, s: State, run: seq<Action>, s': State)
    requires Inv(o, s) && Halted(o, s, most) && StepsOver(o, most, s, run, s')
    ensures s'.handed == s.handed
    decreases |run|
  {
    if run == [] {
    } else {
      HaltedStep(o, s, run[0], most);
      StepKeepsInv(o, s, run[0]);
      HaltedForEver(o, most, Next(o, s, run[0]), run[1..], s');
    }
  }

  // Where it can, it is enough that callers send and time passes; the pipe underneath need not be asked
  // before there is a message that it takes.

  /** A send, or a turn of the worker that finds nothing alive. */
  ghost predicate Quiet(o: Options, s: State, a: Action) {
    a.SendLocked? || (a.WorkerRound? && a.r == Temporary && Expire(o, s, a.now).queue == [])
  }

  ghost predicate QuietSteps(o: Options, s: State, run: seq<Action>, s': State)
    decreases |run|
  {
    if run == [] then s == s'
    else Enabled(o, s, run[0]) && Quiet(o, s, run[0]) && QuietSteps(o, Next(o, s, run[0]), run[1..], s')
  }

  /** The next turn of the worker offers a message that is taken. */
  ghost predicate Ready(o: Options, s: State, most: nat) {
    var s1 := Expire(o, s, s.clock);
    s.running && s1.queue != [] && CanSend(o, s1, s.clock) && |s1.queue[0].msg| <= most
  }

  lemma QuietCons(o: Options, s: State, a: Action, rest: seq<Action>, s': State)
    requires Enabled(o, s, a) && Quiet(o, s, a) && QuietSteps(o, Next(o, s, a), rest, s')
    ensures QuietSteps(o, s, [a] + rest, s')
  {
    TailOfCons(a, rest);
  }

  /** An empty message in an otherwise empty queue is ready. */
  lemma FreshIsReady(o: Options, s: State, most: nat)
    requires Inv(o, s) && s.running && s.queue == [] && o.hwm > 0
    ensures
      var mid := Next(o, s, SendLocked([], s.clock));
      && Ready(o, mid, most) && mid.queue == [Stamped([], s.clock)] && mid.clock == s.clock
      && Expire(o, mid, mid.clock).queue == mid.queue && Expire(o, mid, mid.clock).running
  {
    var mid := Next(o, s, SendLocked([], s.clock));
    if o.ttl > 0 { KeepAll(mid.queue, DeadAt(o, s.clock)); }
  }

  lemma EmptyGetsReady(o: Options, s: State, most: nat) returns (run: seq<Action>, s': State)
    requires Inv(o, s) && s.running && s.queue == [] && o.hwm > 0
    ensures QuietSteps(o, s, run, s') && Ready(o, s', most)
  {
    var a := SendLocked([], s.clock);
    FreshIsReady(o, s, most);
    s' := Next(o, s, a);
    QuietCons(o, s, a, [], s');
    run := [a] + [];
  }

  lemma AllTooOld(o: Options, s: State, now: nat)
    requires Inv(o, s) && now > s.clock + o.ttl
    ensures Keep(s.queue, DeadAt(o, now)) == []
  {
    forall i | 0 <= i < |s.queue|
      ensures TooOld(o, s.queue[i], now)
    {
      assert s.queue[i] == s.accepted[|s.fates| + i];
    }
    KeepNone(s.queue, DeadAt(o, now));
  }

  /** With a TTL it is enough to wait until everything has expired. */
  lemma AgedGetsReady(o: Options, s: State, most: nat) returns (run: seq<Action>, s': State)
    requires Inv(o, s) && s.running && s.queue != [] && o.hwm > 0 && o.ttl > 0
    ensures QuietSteps(o, s, run, s') && Ready(o, s', most)
  {
    var later := s.clock + o.ttl + 1;
    var a := WorkerRound(later, later, Temporary);
    AllTooOld(o, s, later);
    StepKeepsInv(o, s, a);
    run, s' := EmptyGetsReady(o, Next(o, s, a), most);
    QuietCons(o, s, a, run, s');
    run := [a] + run;
  }

  /** A queue with a message as large as the mark in it is at the mark. */
  lemma HeavyIsAtMark(o: Options, s: State, front: seq<Stamped>, full: Stamped, back: seq<Stamped>)
    requires Accounts(s) && s.queue == front + [full] + back && |full.msg| == o.hwm
    ensures AtMark(o, s)
  {
    BytesConcat(front + [full], back);
    BytesConcat(front, [full]);
  }

  /** At its mark under kDropOld, an empty message takes the place of the oldest. */
  lemma EmptyReplacesFront(o: Options, s: State)
    requires Inv(o, s) && AtMark(o, s) && o.policy == DropOld && s.queue != []
    ensures
      var mid := Next(o, s, SendLocked([], s.clock));
      && mid.queue == s.queue[1..] + [Stamped([], s.clock)]
      && Inv(o, mid) && mid.clock == s.clock && mid.running == s.running
  {
    SendKeeps(o, s, [], s.clock);
  }

  lemma AllEmptyIsReady(o: Options, s: State, n: nat, most: nat)
    requires Inv(o, s) && s.running && o.hwm > 0 && o.ttl <= 0 && s.queue == Repeat(n + 1, Stamped([], s.clock))
    ensures Ready(o, s, most)
  {
    BytesRepeat(n + 1, Stamped([], s.clock));
  }

  /** With a full message at the mark, empty messages push everything out, the full one last. */
  lemma {:induction false} FlushGetsReady(
      o: Options, s: State, front: seq<Stamped>, m: Message, n: nat, most: nat)
    returns (run: seq<Action>, s': State)
    requires Inv(o, s) && s.running && o.ttl <= 0 && o.policy == DropOld && |m| == o.hwm > 0
    requires s.queue == front + [Stamped(m, s.clock)] + Repeat(n, Stamped([], s.clock))
    ensures QuietSteps(o, s, run, s') && Ready(o, s', most)
    decreases |front|
  {
    var empty := Stamped([], s.clock);
    var a := SendLocked([], s.clock);
    var mid := Next(o, s, a);
    HeavyIsAtMark(o, s, front, Stamped(m, s.clock), Repeat(n, empty));
    EmptyReplacesFront(o, s);
    RepeatSnoc(n, empty);
    if front == [] {
      assert mid.queue == Repeat(n, empty) + [empty];
      AllEmptyIsReady(o, mid, n, most);
      run, s' := [], mid;
    } else {
      Pushed(front, Stamped(m, s.clock), n, empty);
      run, s' := FlushGetsReady(o, mid, front[1..], m, n + 1, most);
    }
    QuietCons(o, s, a, run, s');
    run := [a] + run;
  }

  lemma Pushed(front: seq<Stamped>, full: Stamped, n: nat, empty: Stamped)
    requires front != []
    ensures (front + [full] + Repeat(n, empty))[1..] + [empty] == front[1..] + [full] + Repeat(n + 1, empty)
  {
  }

  /** Under kDropOld a full message and then empty ones do it. */
  lemma DropOldGetsReady(o: Options, s: State, most: nat) returns (run: seq<Action>, s': State)
    requires Inv(o, s) && s.running && o.hwm > 0 && o.ttl <= 0 && o.policy == DropOld
    ensures QuietSteps(o, s, run, s') && Ready(o, s', most)
  {
    var m: Message := Repeat(o.hwm, 0);
    var a := SendLocked(m, s.clock);
    var mid := Next(o, s, a);
    var front := if AtMark(o, s) && s.queue != [] then s.queue[1..] else s.queue;
    SendKeeps(o, s, m, s.clock);
    assert mid.queue == front + [Stamped(m, s.clock)] + Repeat(0, Stamped([], s.clock));
    run, s' := FlushGetsReady(o, mid, front, m, 0, most);
    QuietCons(o, s, a, run, s');
    run := [a] + run;
  }

  lemma GetsReady(o: Options, s: State, most: nat) returns (run: seq<Action>, s': State)
    requires Inv(o, s) && s.running && CanMove(o, s, most)
    ensures QuietSteps(o, s, run, s') && Ready(o, s', most)
  {
    if s.queue == [] {
      run, s' := EmptyGetsReady(o, s, most);
    } else if o.hwm > 0 && o.ttl > 0 {
      run, s' := AgedGetsReady(o, s, most);
    } else if !AtMark(o, s) && FrontFits(s, most) {
      run, s' := [], s;
    } else {
      run, s' := DropOldGetsReady(o, s, most);
    }
  }

  lemma QuietHandsNothing(o: Options, s: State, a: Action)
    requires Enabled(o, s, a) && Quiet(o, s, a)
    ensures Next(o, s, a).handed == s.handed
  {
  }

  /** Quiet steps, and then the turn that delivers. */
  lemma {:induction false} QuietThenSent(o: Options, most: nat, s: State, run: seq<Action>, mid: State)
    requires QuietSteps(o, s, run, mid) && Ready(o, mid, most)
    ensures
      var a := WorkerRound(mid.clock, mid.clock, Sent);
      Delivers(o, most, s, run + [a], Next(o, mid, a))
    decreases |run|
  {
    var a := WorkerRound(mid.clock, mid.clock, Sent);
    if run == [] {
      assert run + [a] == [a];
      ReadyIsSent(o, most, mid);
    } else {
      QuietHandsNothing(o, s, run[0]);
      QuietThenSent(o, most, Next(o, s, run[0]), run[1..], mid);
      TailOfSum(run, [a]);
    }
  }

  lemma ReadyIsSent(o: Options, most: nat, s: State)
    requires Ready(o, s, most)
    ensures
      var a := WorkerRound(s.clock, s.clock, Sent);
      Enabled(o, s, a) && Honest(o, s, a, most) && |Next(o, s, a).handed| > |s.handed|
  {
  }

  /**
    When a pipe can still hand a message over: it runs, and it has a positive mark and a TTL or the policy
    kDropOld, or it is below its mark with nothing in front that the pipe underneath refuses.
   */
  lemma MovesIff(o: Options, s: State, most: nat)
    requires Inv(o, s)
    ensures s.running && CanMove(o, s, most) <==> exists run, s' :: Delivers(o, most, s, run, s')
  {
    if Halted(o, s, most) {
      forall run, s' | StepsOver(o, most, s, run, s')
        ensures !Delivers(o, most, s, run, s')
      {
        HaltedForEver(o, most, s, run, s');
      }
    } else {
      var run, mid := GetsReady(o, s, most);
      QuietThenSent(o, most, s, run, mid);
    }
  }

  // ---- After a fatal error, and after close ----

  lemma {:induction false} StoppedForEver(o: Options, s: State, run: seq<Action>, s': State)
    requires !s.running && Steps(o, s, run, s')
    ensures !s'.running && s'.handed == s.handed
    decreases |run|
  {
    if run == [] {
    } else {
      StoppedForEver(o, Next(o, s, run[0]), run[1..], s');
    }
  }

  /**
    When the pipe underneath answers the worker with kClosed or kIoError, the message stays queued, and in no
    run from there is anything handed over or does the pipe run again.
   */
  lemma FatalStops(o: Options, s: State, now: nat, later: nat, run: seq<Action>, s': State)
    requires s.running && Enabled(o, s, WorkerRound(now, later, Fatal))
    requires var s1 := Expire(o, s, now); s1.queue != [] && CanSend(o, s1, later)
    requires Steps(o, Next(o, s, WorkerRound(now, later, Fatal)), run, s')
    ensures Next(o, s, WorkerRound(now, later, Fatal)).queue == Expire(o, s, now).queue
    ensures !s'.running && s'.handed == s.handed
  {
    StoppedForEver(o, Next(o, s, WorkerRound(now, later, Fatal)), run, s');
  }

  /** `close` does the same, whatever the state. */
  lemma CloseStops(o: Options, s: State, run: seq<Action>, s': State)
    requires Steps(o, Next(o, s, Close), run, s')
    ensures Next(o, s, Close).queue == s.queue && !s'.running && s'.handed == s.handed
  {
    StoppedForEver(o, Next(o, s, Close), run, s');
  }
}
