/** What every step of the reconnecting pipe keeps, and what follows for every run. */
module ReconnectSafety {
  import opened Common
  import opened ReconnectProtocol

  // ---- Connections ----

  ghost predicate Increasing(cs: seq<Conn>) {
    forall i, j | 0 <= i < j < |cs| :: cs[i] < cs[j]
  }

  /** No dial round runs while a connection is in place, so an install never overwrites one. */
  predicate InRound(w: Worker) {
    w.Setup? || w.Loop? || w.Decide? || w.GivingUp? || w.Dialing? || w.Install? || w.Record? || w.Sleep?
  }

  /** Everything installed has been moved out, in order, but for the connection in place. */
  ghost predicate Ownership(s: State) {
    && s.installed == s.movedOut + Moved(s.f.inner)
    && Increasing(s.installed)
    && (forall c | c in s.installed :: c < |s.dials| && s.dials[c])
    && (s.f.ever <==> s.installed != [])
    && (InRound(s.worker) ==> s.f.inner.None?)
    && (s.worker.Install? ==>
          s.worker.conn == |s.dials| - 1 && s.dials[s.worker.conn]
          && forall c | c in s.installed :: c < s.worker.conn)
  }

  /** The number of dials that have failed since the last one that succeeded. */
  function Streak(dials: seq<bool>): nat {
    if dials == [] || dials[|dials| - 1] then 0 else 1 + Streak(dials[..|dials| - 1])
  }

  /** The limit a policy puts on consecutive failures; a negative `max_attempts` allows no dial at all. */
  function Limit(maxAttempts: int): nat {
    if maxAttempts < 0 then 0 else maxAttempts
  }

  ghost predicate Counting(s: State) {
    && s.started == |s.dials| + (if s.worker.Dialing? then 1 else 0)
    && (match s.worker
        case Loop(n) => n == Streak(s.dials) && (s.maxAttempts != 0 ==> n <= Limit(s.maxAttempts))
        case Decide(n) => n == Streak(s.dials) && (s.maxAttempts != 0 ==> n <= Limit(s.maxAttempts))
        case Dialing(n) => n == Streak(s.dials) && (s.maxAttempts != 0 ==> n < s.maxAttempts)
        case Record(n) => n == Streak(s.dials) && (s.maxAttempts != 0 ==> n <= Limit(s.maxAttempts))
        case Sleep(n) => n == Streak(s.dials) && (s.maxAttempts != 0 ==> n <= Limit(s.maxAttempts))
        case GivingUp => s.maxAttempts != 0 && Streak(s.dials) == Limit(s.maxAttempts)
        case Exited => s.f.closed || s.f.failed
        case _ => Streak(s.dials) == 0)
    && (s.f.failed ==>
          s.worker.Exited? && s.f.inner.None? && s.maxAttempts != 0 && Streak(s.dials) == Limit(s.maxAttempts))
  }

  // ---- Calls ----

  ghost predicate AllDisconnected(outcomes: seq<Outcome>) {
    forall i | 0 <= i < |outcomes| :: outcomes[i] == Disconnected
  }

  ghost predicate BelowInner(call: Call, f: Fields) {
    f.inner.Some? ==> forall c | c in call.tried :: c < f.inner.value
  }

  /**
    What a returned call reports. A last use that succeeded, timed out or failed otherwise decides the
    answer. Without one, the fields at the end of the last wait do: closed if they say so, exhausted if they
    say that and not closed, and a timeout exactly if they say neither and there was no connection.
   */
  ghost predicate AnswersTruly(r: CallResult, outcomes: seq<Outcome>, left: Option<Fields>, f: Fields) {
    if outcomes == [] || outcomes[|outcomes| - 1] == Disconnected then
      && left.Some? && (left.value.closed ==> f.closed) && (left.value.failed ==> f.failed)
      && r != CallOk && r != CallError
      && (r == CallClosed <==> left.value.closed)
      && (r == CallExhausted <==> left.value.failed && !left.value.closed)
      && (r == CallTimeout <==> !left.value.closed && !left.value.failed && left.value.inner.None?)
    else
      match outcomes[|outcomes| - 1]
      case Success => r == CallOk
      case UseTimedOut => r == CallTimeout
      case OtherError => r == CallError
  }

  ghost predicate CallConsistent(call: Call, s: State) {
    && Increasing(call.tried)
    && (forall c | c in call.tried :: c in s.installed)
    && match call.pc
       case Awaiting =>
         |call.outcomes| == |call.tried| && AllDisconnected(call.outcomes)
         && (!s.f.closed ==> BelowInner(call, s.f))
       case Snapping =>
         |call.outcomes| == |call.tried| && AllDisconnected(call.outcomes) && BelowInner(call, s.f)
       case Using(c) =>
         |call.tried| == |call.outcomes| + 1 && AllDisconnected(call.outcomes) && call.tried[|call.outcomes|] == c
       case Marking(c) =>
         |call.outcomes| == |call.tried| > 0 && AllDisconnected(call.outcomes) && call.tried[|call.tried| - 1] == c
       case Returned(r) =>
         |call.outcomes| == |call.tried|
         && (call.outcomes != [] ==> AllDisconnected(call.outcomes[..|call.outcomes| - 1]))
         && AnswersTruly(r, call.outcomes, call.left, s.f)
  }

  ghost predicate CallsOk(s: State) {
    forall t | t in s.calls :: CallConsistent(s.calls[t], s)
  }

  ghost predicate Inv(s: State) {
    Ownership(s) && Counting(s) && CallsOk(s)
  }

  /** The streak is the longest run of failures at the end. */
  lemma {:induction false} StreakIsTail(dials: seq<bool>)
    ensures Streak(dials) <= |dials|
    ensures forall i | |dials| - Streak(dials) <= i < |dials| :: !dials[i]
    ensures Streak(dials) < |dials| ==> dials[|dials| - Streak(dials) - 1]
    decreases |dials|
  {
    if dials == [] || dials[|dials| - 1] {
    } else {
      StreakIsTail(dials[..|dials| - 1]);
    }
  }

  lemma StreakSnoc(dials: seq<bool>, ok: bool)
    ensures Streak(dials + [ok]) == if ok then 0 else Streak(dials) + 1
  {
    assert (dials + [ok])[..|dials|] == dials;
  }

  lemma IncreasingSnoc(cs: seq<Conn>, c: Conn)
    requires Increasing(cs) && forall x | x in cs :: x < c
    ensures Increasing(cs + [c])
  {
    assert forall i | 0 <= i < |cs| :: cs[i] in cs;
  }

  lemma WorkKeepsOwnership(s: State, ok: bool)
    requires Ownership(s) && Counting(s) && Enabled(s, Work(ok))
    ensures Ownership(Next(s, Work(ok)))
  {
    if s.worker.Install? { IncreasingSnoc(s.installed, s.worker.conn); }
  }

  lemma WorkKeepsCounting(s: State, ok: bool)
    requires Ownership(s) && Counting(s) && Enabled(s, Work(ok))
    ensures Counting(Next(s, Work(ok)))
  {
    StreakSnoc(s.dials, ok);
  }

  lemma WorkKeepsCalls(s: State, ok: bool)
    requires Inv(s) && Enabled(s, Work(ok))
    ensures CallsOk(Next(s, Work(ok)))
  {
    var s' := Next(s, Work(ok));
    forall t | t in s'.calls
      ensures CallConsistent(s'.calls[t], s')
    {
      assert CallConsistent(s.calls[t], s);
      assert s.calls[t] == s'.calls[t];
    }
  }

  /** The connection in place is the newest ever installed. */
  lemma InnerIsNewest(s: State, c: Conn)
    requires Ownership(s) && s.f.inner.Some? && c in s.installed
    ensures c <= s.f.inner.value
  {
    assert s.installed[|s.installed| - 1] == s.f.inner.value;
  }

  /** A step of one call that touches no field keeps the invariant if that call stays consistent. */
  lemma OneCallChanges(s: State, t: Thread, call: Call)
    requires Inv(s) && CallConsistent(call, s)
    ensures Inv(s.(calls := s.calls[t := call]))
  {
    var s' := s.(calls := s.calls[t := call]);
    forall u | u in s'.calls
      ensures CallConsistent(s'.calls[u], s')
    {
      if u != t { assert CallConsistent(s.calls[u], s); }
    }
  }

  lemma SnapKeepsInv(s: State, t: Thread)
    requires Inv(s) && Enabled(s, Snap(t))
    ensures Inv(Next(s, Snap(t)))
  {
    assert CallConsistent(s.calls[t], s);
    if s.f.inner.Some? {
      IncreasingSnoc(s.calls[t].tried, s.f.inner.value);
      assert s.f.inner.value == s.installed[|s.installed| - 1];
    }
    OneCallChanges(s, t, Next(s, Snap(t)).calls[t]);
  }

  lemma UseKeepsInv(s: State, t: Thread, outcome: Outcome)
    requires Inv(s) && Enabled(s, Use(t, outcome))
    ensures Inv(Next(s, Use(t, outcome)))
  {
    assert CallConsistent(s.calls[t], s);
    var o := s.calls[t].outcomes;
    assert (o + [outcome])[..|o|] == o;
    OneCallChanges(s, t, AfterUse(s.calls[t], outcome));
  }

  lemma AwaitKeepsInv(s: State, t: Thread, gaveUp: bool)
    requires Inv(s) && Enabled(s, Await(t, gaveUp))
    ensures Inv(Next(s, Await(t, gaveUp)))
  {
    assert CallConsistent(s.calls[t], s);
    OneCallChanges(s, t, AfterWait(s.calls[t], s.f));
  }

  lemma MarkKeepsMine(s: State, t: Thread)
    requires Inv(s) && Enabled(s, Mark(t))
    ensures CallConsistent(AfterMark(s.calls[t]), Next(s, Mark(t)))
  {
    assert CallConsistent(s.calls[t], s);
    if s.f.inner.Some? { InnerIsNewest(s, s.calls[t].pc.conn); }
  }

  lemma MarkKeepsOthers(s: State, t: Thread, call: Call)
    requires Inv(s) && Enabled(s, Mark(t)) && CallConsistent(call, s)
    ensures CallConsistent(call, Next(s, Mark(t)))
  {
  }

  lemma MarkKeepsInv(s: State, t: Thread)
    requires Inv(s) && Enabled(s, Mark(t))
    ensures Inv(Next(s, Mark(t)))
  {
    var s' := Next(s, Mark(t));
    MarkKeepsMine(s, t);
    forall u | u in s'.calls
      ensures CallConsistent(s'.calls[u], s')
    {
      if u != t { MarkKeepsOthers(s, t, s.calls[u]); }
    }
  }

  lemma CloseKeepsInv(s: State)
    requires Inv(s)
    ensures Inv(Next(s, Close))
  {
    var s' := Next(s, Close);
    forall u | u in s'.calls
      ensures CallConsistent(s'.calls[u], s')
    {
      assert CallConsistent(s.calls[u], s);
    }
  }

  lemma StepKeepsInv(s: State, a: Action)
    requires Inv(s) && Enabled(s, a)
    ensures Inv(Next(s, a))
  {
    match a
    case Work(ok) =>
      WorkKeepsOwnership(s, ok);
      WorkKeepsCounting(s, ok);
      WorkKeepsCalls(s, ok);
    case Mark(t) => MarkKeepsInv(s, t);
    case Close => CloseKeepsInv(s);
    case Begin(t) => OneCallChanges(s, t, NEW_CALL);
    case Await(t, gaveUp) => AwaitKeepsInv(s, t, gaveUp);
    case Snap(t) => SnapKeepsInv(s, t);
    case Use(t, outcome) => UseKeepsInv(s, t, outcome);
  }

  lemma {:induction false} RunKeepsInv(s: State, run: seq<Action>, s': State)
    requires Inv(s) && Steps(s, run, s')
    ensures Inv(s')
    decreases |run|
  {
    if run == [] {
    } else {
      StepKeepsInv(s, run[0]);
      RunKeepsInv(Next(s, run[0]), run[1..], s');
    }
  }

  // ---- What it means for every run ----

  /**
    A call never retries a connection. Whatever the worker, the other calls and `close` do meanwhile, the
    connections one call tries are strictly newer each time; every attempt but the last ended in a
    disconnect; and the answer is true: Ok exactly when the last attempt succeeded, closed or exhausted only
    when the pipe is.
   */
  lemma CallsNeverRetry(s0: State, run: seq<Action>, s: State, t: Thread)
    requires Init(s0) && Steps(s0, run, s) && t in s.calls
    ensures Increasing(s.calls[t].tried)
    ensures |s.calls[t].outcomes| <= |s.calls[t].tried| <= |s.calls[t].outcomes| + 1
    ensures forall i | 0 <= i < |s.calls[t].tried| - 1 :: s.calls[t].outcomes[i] == Disconnected
    ensures
      var call := s.calls[t];
      call.pc.Returned? ==> AnswersTruly(call.pc.result, call.outcomes, call.left, s.f)
  {
    RunKeepsInv(s0, run, s);
    ConsistentCall(s.calls[t], s);
  }

  lemma ConsistentCall(call: Call, s: State)
    requires CallConsistent(call, s)
    ensures |call.outcomes| <= |call.tried| <= |call.outcomes| + 1
    ensures forall i | 0 <= i < |call.tried| - 1 :: call.outcomes[i] == Disconnected
  {
    var o := call.outcomes;
    if call.pc.Returned? && o != [] {
      assert forall i | 0 <= i < |o| - 1 :: o[i] == o[..|o| - 1][i];
    }
  }

  /**
    How a wait ends, for every state of the pipe: closed comes first, then exhausted, and the call goes on
    exactly if a connection is in place on a pipe that is neither.
   */
  lemma WaitEnds(s: State, t: Thread, gaveUp: bool)
    requires Enabled(s, Await(t, gaveUp))
    ensures
      var pc := Next(s, Await(t, gaveUp)).calls[t].pc;
      && (pc == Returned(CallClosed) <==> s.f.closed)
      && (pc == Returned(CallExhausted) <==> !s.f.closed && s.f.failed)
      && (pc == Snapping <==> !s.f.closed && !s.f.failed && s.f.inner.Some?)
      && (pc == Returned(CallTimeout) <==> !s.f.closed && !s.f.failed && s.f.inner.None?)
      && (pc == Returned(CallTimeout) ==> gaveUp)
  {
  }

  /**
    How the rest of a round ends: the call uses the connection in place, or waits again if there is none; it
    returns what the use reported, except that after a disconnect it reports the connection and waits again.
   */
  lemma RoundEnds(s: State, t: Thread, outcome: Outcome)
    requires t in s.calls
    ensures Enabled(s, Snap(t)) ==>
      Next(s, Snap(t)).calls[t].pc == if s.f.inner.Some? then Using(s.f.inner.value) else Awaiting
    ensures Enabled(s, Use(t, outcome)) ==>
      var pc := Next(s, Use(t, outcome)).calls[t].pc;
      && (pc == Returned(CallOk) <==> outcome == Success)
      && (pc == Returned(CallTimeout) <==> outcome == UseTimedOut)
      && (pc == Returned(CallError) <==> outcome == OtherError)
      && (pc == Marking(s.calls[t].pc.conn) <==> outcome == Disconnected)
    ensures Enabled(s, Mark(t)) ==>
      var s' := Next(s, Mark(t));
      && s'.calls[t].pc == Awaiting
      && s'.f.inner == if !s.f.closed && s.f.inner == Some(s.calls[t].pc.conn) then None else s.f.inner
  {
  }

  /** A step that may take connection `c` out: `close`, or `mark_disconnected` of that very connection. */
  ghost predicate Blames(s: State, a: Action, c: Conn)
    requires Enabled(s, a)
  {
    a.Close? || (a.Mark? && s.calls[a.t].pc == Marking(c))
  }

  ghost predicate BlamedIn(s: State, run: seq<Action>, s': State, c: Conn)
    requires Steps(s, run, s')
    decreases |run|
  {
    run != [] && (Blames(s, run[0], c) || BlamedIn(Next(s, run[0]), run[1..], s', c))
  }

  /**
    A stale error never drops a newer connection: a connection in place stays there through any run in
    which nobody closes the pipe and no call blames that very connection.
   */
  lemma {:induction false} StaysUntilBlamed(s: State, run: seq<Action>, s': State, c: Conn)
    requires Inv(s) && Steps(s, run, s') && s.f.inner == Some(c) && !BlamedIn(s, run, s', c)
    ensures s'.f.inner == Some(c) && s'.movedOut == s.movedOut && s'.installed == s.installed
    decreases |run|
  {
    if run == [] {
    } else {
      StepKeepsInv(s, run[0]);
      StaysUntilBlamed(Next(s, run[0]), run[1..], s', c);
    }
  }

  /** Each connection is installed once and moved out at most once. */
  lemma MovedOutOnce(s0: State, run: seq<Action>, s: State)
    requires Init(s0) && Steps(s0, run, s)
    ensures Increasing(s.installed) && Increasing(s.movedOut)
    ensures s.movedOut <= s.installed && |s.installed| <= |s.movedOut| + 1
    ensures s.f.inner.Some? <==> |s.installed| == |s.movedOut| + 1
  {
    RunKeepsInv(s0, run, s);
    assert forall i | 0 <= i < |s.movedOut| :: s.movedOut[i] == s.installed[i];
  }

  /** Under a negative `max_attempts` no dial ever starts: the limit is tested first, and it is met at once. */
  ghost predicate NeverDialled(s: State) {
    && s.started == 0 && s.dials == []
    && !s.worker.Dialing? && !s.worker.Install? && !s.worker.Record? && !s.worker.Sleep?
  }

  lemma StepNeverDials(s: State, a: Action)
    requires s.maxAttempts < 0 && NeverDialled(s) && Enabled(s, a)
    requires s.worker.Loop? ==> s.worker.attempts == 0
    requires s.worker.Decide? ==> s.worker.attempts == 0
    ensures NeverDialled(Next(s, a))
  {
  }

  /** The policy never changes. */
  lemma {:induction false} PolicyKept(s: State, run: seq<Action>, s': State)
    requires Steps(s, run, s')
    ensures s'.maxAttempts == s.maxAttempts
    decreases |run|
  {
    if run == [] {
    } else {
      PolicyKept(Next(s, run[0]), run[1..], s');
    }
  }

  lemma {:induction false} RunNeverDials(s: State, run: seq<Action>, s': State)
    requires Inv(s) && s.maxAttempts < 0 && NeverDialled(s) && Steps(s, run, s')
    ensures NeverDialled(s')
    decreases |run|
  {
    if run == [] {
    } else {
      StepNeverDials(s, run[0]);
      StepKeepsInv(s, run[0]);
      RunNeverDials(Next(s, run[0]), run[1..], s');
    }
  }

  lemma InstalledWereDialled(s: State)
    ensures Ownership(s) && s.installed != [] ==> s.dials != []
  {
    if s.installed != [] { assert s.installed[0] in s.installed; }
  }

  /** So no run of such a pipe dials, and so none ever connects. */
  lemma NegativeNeverDials(s0: State, run: seq<Action>, s: State)
    requires Init(s0) && s0.maxAttempts < 0 && Steps(s0, run, s)
    ensures s.started == 0 && s.dials == [] && s.installed == []
  {
    RunNeverDials(s0, run, s);
    RunKeepsInv(s0, run, s);
    InstalledWereDialled(s);
  }

  lemma GaveUpUndialled(s0: State, run: seq<Action>, s: State)
    requires Init(s0) && Steps(s0, run, s) && Inv(s) && s.f.failed
    ensures s.dials == [] <==> s.maxAttempts < 0
    ensures s.dials == [] ==> s.started == 0
  {
    PolicyKept(s0, run, s);
    if s.maxAttempts < 0 { NegativeNeverDials(s0, run, s); }
  }

  /**
    The worker gives up only under a policy with a limit, and then after exactly that many failures in a
    row: the last `Limit` dials failed and the one before them, if there was one, succeeded. Under a
    negative limit it gives up without having dialled.
   */
  lemma FailsAfterExactlyMax(s0: State, run: seq<Action>, s: State)
    requires Init(s0) && Steps(s0, run, s) && s.f.failed
    ensures s.maxAttempts != 0 && s.worker.Exited? && s.f.inner.None?
    ensures
      var n, k := |s.dials|, Limit(s.maxAttempts);
      && k <= n
      && (forall i | n - k <= i < n :: !s.dials[i])
      && (k < n ==> s.dials[n - k - 1])
    ensures s.dials == [] <==> s.maxAttempts < 0
    ensures s.dials == [] ==> s.started == 0
  {
    RunKeepsInv(s0, run, s);
    StreakIsTail(s.dials);
    GaveUpUndialled(s0, run, s);
  }

  /** Permanent means permanent: no further dial, no further connection. */
  lemma {:induction false} FailureIsPermanent(s: State, run: seq<Action>, s': State)
    requires Inv(s) && s.f.failed && Steps(s, run, s')
    ensures s'.f.failed && s'.f.inner.None? && s'.dials == s.dials && s'.started == s.started
    ensures s'.installed == s.installed
    decreases |run|
  {
    if run == [] {
    } else {
      StepKeepsInv(s, run[0]);
      FailureIsPermanent(Next(s, run[0]), run[1..], s');
    }
  }

  // ---- Close ends the worker ----

  /** A bound on the steps a worker has left once the pipe is closed. */
  function StepsLeft(w: Worker): nat {
    match w
    case Exited => 0
    case Top => 1
    case Loop(_) => 1
    case GivingUp => 1
    case WaitLost => 2
    case Sleep(_) => 2
    case Setup => 2
    case Install(_) => 2
    case Record(_) => 3
    case Check => 3
    case Dialing(_) => 4
    case Decide(_) => 5
  }

  function DialsLeft(w: Worker): nat {
    if w.Decide? then 1 else 0
  }

  function WorkerSteps(run: seq<Action>): nat {
    if run == [] then 0 else (if run[0].Work? then 1 else 0) + WorkerSteps(run[1..])
  }

  /** The worker has looked at `closed_` for the last time before a connection may be installed. */
  predicate InFlight(s: State) {
    match s.worker
    case Decide(n) => s.maxAttempts == 0 || n < s.maxAttempts
    case Dialing(_) => true
    case Install(_) => true
    case _ => false
  }

  function InstallsLeft(s: State): nat {
    if InFlight(s) then 1 else 0
  }

  lemma ClosedStep(s: State, a: Action)
    requires s.f.closed && Enabled(s, a)
    ensures Next(s, a).f.closed && Next(s, a).movedOut == s.movedOut
    ensures StepsLeft(Next(s, a).worker) + (if a.Work? then 1 else 0) <= StepsLeft(s.worker)
    ensures Next(s, a).started + DialsLeft(Next(s, a).worker) <= s.started + DialsLeft(s.worker)
  {
  }

  lemma ClosedStepInstalls(s: State, a: Action)
    requires s.f.closed && Enabled(s, a)
    ensures |Next(s, a).installed| + InstallsLeft(Next(s, a)) <= |s.installed| + InstallsLeft(s)
  {
  }

  lemma {:induction false} ClosedRun(s: State, run: seq<Action>, s': State)
    requires s.f.closed && Steps(s, run, s')
    ensures s'.f.closed && s'.movedOut == s.movedOut
    ensures StepsLeft(s'.worker) + WorkerSteps(run) <= StepsLeft(s.worker)
    ensures s'.started + DialsLeft(s'.worker) <= s.started + DialsLeft(s.worker)
    ensures |s'.installed| + InstallsLeft(s') <= |s.installed| + InstallsLeft(s)
    decreases |run|
  {
    if run == [] {
    } else {
      ClosedStep(s, run[0]);
      ClosedStepInstalls(s, run[0]);
      ClosedRun(Next(s, run[0]), run[1..], s');
    }
  }

  /**
    Once the pipe is closed, wherever the worker is: it starts at most one more dial, it has at most five
    steps left, and until it has exited it can always take the next one.
   */
  lemma CloseEndsWorker(s: State, run: seq<Action>, s': State)
    requires s.f.closed && Steps(s, run, s')
    ensures s'.started <= s.started + 1 && WorkerSteps(run) <= 5
    ensures !s'.worker.Exited? ==> forall ok :: Enabled(s', Work(ok))
    ensures WorkerSteps(run) == 5 ==> s'.worker.Exited?
  {
    ClosedRun(s, run, s');
  }

  lemma {:induction false} StepsSnoc(s: State, run: seq<Action>, mid: State, a: Action)
    requires Steps(s, run, mid) && Enabled(mid, a)
    ensures Steps(s, run + [a], Next(mid, a))
    decreases |run|
  {
    if run == [] {
      assert run + [a] == [a] && [a][1..] == [];
    } else {
      StepsSnoc(Next(s, run[0]), run[1..], mid, a);
      TailOfSum(run, [a]);
    }
  }

  /** The run made longer by one step of the worker. */
  lemma OneMoreWork(s: State, run: seq<Action>, mid: State) returns (run': seq<Action>, s': State)
    requires Steps(s, run, mid) && Enabled(mid, Work(true))
    ensures Steps(s, run', s') && s' == WorkerNext(mid, true) && run' == run + [Work(true)]
  {
    StepsSnoc(s, run, mid, Work(true));
    run', s' := run + [Work(true)], WorkerNext(mid, true);
  }

  /** From a start the worker comes to its first decision in four steps. */
  lemma FirstDecision(s0: State) returns (run: seq<Action>, s: State)
    requires Init(s0)
    ensures Steps(s0, run, s) && s == s0.(worker := Decide(0)) && |run| == 4
  {
    run, s := OneMoreWork(s0, [], s0);
    run, s := OneMoreWork(s0, run, s);
    run, s := OneMoreWork(s0, run, s);
    run, s := OneMoreWork(s0, run, s);
  }

  /** A run that closes the pipe and ends with a connection in place. */
  ghost predicate LeavesConnection(s: State, later: seq<Action>, s': State) {
    later != [] && later[0] == Close && Steps(s, later, s') && s'.f.inner.Some?
  }

  /** A worker in flight that is not disturbed connects the closed pipe and is back at its head. */
  lemma {:induction false} InFlightConnects(s: State, run: seq<Action>, mid: State)
    returns (run': seq<Action>, s': State)
    requires Inv(mid) && InFlight(mid) && Steps(s, run, mid) && run != []
    ensures Steps(s, run', s') && s'.worker.Top?
    ensures s'.f == InstallFields(mid.f, if mid.worker.Install? then mid.worker.conn else |mid.dials|)
    ensures run' != [] && run'[0] == run[0]
    decreases StepsLeft(mid.worker)
  {
    StepKeepsInv(mid, Work(true));
    run', s' := OneMoreWork(s, run, mid);
    if mid.worker.Install? {
    } else {
      run', s' := InFlightConnects(s, run', s');
    }
  }

  lemma CanLeaveConnection(s: State) returns (later: seq<Action>, s': State)
    requires Inv(s) && InFlight(s)
    ensures LeavesConnection(s, later, s')
  {
    StepKeepsInv(s, Close);
    StepsSnoc(s, [], s, Close);
    assert [] + [Close] == [Close];
    later, s' := InFlightConnects(s, [Close], Next(s, Close));
  }

  lemma InstalledSinceClose(s: State, later: seq<Action>, s': State)
    requires Inv(s) && !s.f.closed && later != [] && later[0] == Close && Steps(s, later, s')
    ensures |s.installed| <= |s'.installed| <= |s.installed| + InstallsLeft(s)
    ensures s'.f.inner.Some? <==> |s'.installed| > |s.installed|
  {
    StepKeepsInv(s, Close);
    var c := Next(s, Close);
    ClosedRun(c, later[1..], s');
    RunKeepsInv(c, later[1..], s');
    assert c.installed == c.movedOut;
  }

  /**
    After `close` nothing is moved out any more, so a connection in place was installed after it, the only
    one. That can happen exactly when `close` finds the worker in flight: deciding to dial with attempts to
    spare, dialling, or about to install what it dialled.
   */
  lemma AfterClose(s0: State, run: seq<Action>, s: State)
    requires Init(s0) && Steps(s0, run, s) && !s.f.closed
    ensures forall later, s' | later != [] && later[0] == Close && Steps(s, later, s') ::
      |s.installed| <= |s'.installed| <= |s.installed| + 1 && (s'.f.inner.Some? <==> |s'.installed| > |s.installed|)
    ensures InFlight(s) <==> exists later, s' :: LeavesConnection(s, later, s')
  {
    RunKeepsInv(s0, run, s);
    forall later, s' | later != [] && later[0] == Close && Steps(s, later, s')
      ensures |s.installed| <= |s'.installed| <= |s.installed| + InstallsLeft(s)
      ensures s'.f.inner.Some? <==> |s'.installed| > |s.installed|
    {
      InstalledSinceClose(s, later, s');
    }
    if InFlight(s) { var later, s' := CanLeaveConnection(s); }
  }

  /** That does happen: a dial that succeeds after `close` leaves its connection in the closed pipe. */
  lemma LateConnection(s0: State) returns (run: seq<Action>, s: State)
    requires Init(s0) && s0.maxAttempts == 0
    ensures Steps(s0, run, s) && s.f.closed && s.worker.Exited? && s.f.inner == Some(0)
  {
    run, s := FirstDecision(s0);
    RunKeepsInv(s0, run, s);
    StepKeepsInv(s, Close);
    StepsSnoc(s0, run, s, Close);
    run, s := InFlightConnects(s0, run + [Close], Next(s, Close));
    run, s := OneMoreWork(s0, run, s);
  }

  // ---- A negative limit ----

  ghost predicate FailsUndialled(s0: State, run: seq<Action>, s: State) {
    Steps(s0, run, s) && s.f.failed && s.dials == []
  }

  /** Under a negative limit the pipe fails for good in six steps of the worker, none of them a dial. */
  lemma NegativeFails(s0: State) returns (run: seq<Action>, s: State)
    requires Init(s0) && s0.maxAttempts < 0
    ensures FailsUndialled(s0, run, s) && |run| == 6
  {
    run, s := FirstDecision(s0);
    run, s := OneMoreWork(s0, run, s);
    run, s := OneMoreWork(s0, run, s);
  }

  /** A pipe can fail for good without a single dial if and only if `max_attempts` is negative. */
  lemma FailsUndialledIff(s0: State)
    requires Init(s0)
    ensures s0.maxAttempts < 0 <==> exists run, s :: FailsUndialled(s0, run, s)
  {
    if s0.maxAttempts < 0 {
      var run, s := NegativeFails(s0);
    } else {
      forall run, s | Steps(s0, run, s)
        ensures !FailsUndialled(s0, run, s)
      {
        PolicyKept(s0, run, s);
        if s.f.failed { FailsAfterExactlyMax(s0, run, s); }
      }
    }
  }

  // ---- The worker keeps trying ----

  /** A bound on the worker's steps until it dials again, once there is no connection. */
  function StepsToDial(w: Worker): nat {
    match w
    case Exited => 0
    case GivingUp => 1
    case Install(_) => 1
    case Decide(_) => 2
    case Loop(_) => 3
    case Setup => 4
    case Sleep(_) => 4
    case Check => 5
    case Record(_) => 5
    case Top => 6
    case Dialing(_) => 6
    case WaitLost => 7
  }

  ghost predicate NoConnection(s: State) {
    !s.f.closed && !s.f.failed && s.f.inner.None?
  }

  ghost predicate NobodyCloses(run: seq<Action>) {
    forall i | 0 <= i < |run| :: run[i] != Close
  }

  /** Since `s` a dial has started, a connection was installed, or the worker has given up for good. */
  ghost predicate Progress(s: State, s': State) {
    s'.started > s.started || |s'.installed| > |s.installed| || s'.f.failed
  }

  /**
    Without a connection an open pipe's worker is never blocked, and each of its steps brings the next dial
    nearer.
   */
  lemma WorkerAdvances(s: State, ok: bool)
    requires Inv(s) && NoConnection(s)
    ensures Enabled(s, Work(ok)) && StepsToDial(s.worker) > 0
    ensures
      var s' := Next(s, Work(ok));
      Progress(s, s') || (NoConnection(s') && StepsToDial(s'.worker) < StepsToDial(s.worker))
  {
  }

  /** The steps of calls do not set it back. */
  lemma CallsDoNoHarm(s: State, a: Action)
    requires NoConnection(s) && Enabled(s, a) && !a.Work? && a != Close
    ensures NoConnection(Next(s, a)) && Next(s, a).worker == s.worker
  {
  }

  lemma {:induction false} HistoryGrows(s: State, run: seq<Action>, s': State)
    requires Steps(s, run, s')
    ensures s'.started >= s.started && |s'.installed| >= |s.installed| && (s.f.failed ==> s'.f.failed)
    decreases |run|
  {
    if run == [] {
    } else {
      HistoryGrows(Next(s, run[0]), run[1..], s');
    }
  }

  /**
    An open pipe without a connection is never given up silently. In any run in which nobody closes it,
    whatever the calls do meanwhile: until another dial starts, a connection is installed or the pipe has
    failed for good, the worker can always take its next step, and at most seven of them suffice.
   */
  lemma {:induction false} KeepsTrying(s: State, run: seq<Action>, s': State)
    requires Inv(s) && NoConnection(s) && NobodyCloses(run) && Steps(s, run, s')
    ensures
      || Progress(s, s')
      || (NoConnection(s') && (forall ok :: Enabled(s', Work(ok)))
          && WorkerSteps(run) + StepsToDial(s'.worker) <= StepsToDial(s.worker))
    ensures WorkerSteps(run) >= StepsToDial(s.worker) ==> Progress(s, s')
    decreases |run|
  {
    WorkerAdvances(s, true);
    if run == [] {
    } else {
      var a, mid := run[0], Next(s, run[0]);
      if a.Work? { WorkerAdvances(s, a.dialOk); } else { CallsDoNoHarm(s, a); }
      HistoryGrows(s, [a], mid);
      StepKeepsInv(s, a);
      HistoryGrows(mid, run[1..], s');
      if !Progress(s, mid) { KeepsTrying(mid, run[1..], s'); }
    }
  }
}
