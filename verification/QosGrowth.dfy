/** How far the queue of a `QosPipe` can grow, under kDropOld above all. */
module QosGrowth {
  import opened Common
  import opened Expiry
  import opened QosQueue

  function IsEmptySend(a: Action): nat {
    if a.SendLocked? && a.msg == [] then 1 else 0
  }

  /** How many of the messages sent in a run are empty. */
  function EmptySends(run: seq<Action>): nat {
    if run == [] then 0 else IsEmptySend(run[0]) + EmptySends(run[1..])
  }

  function Empties(q: seq<Stamped>): nat {
    if q == [] then 0 else (if q[0].msg == [] then 1 else 0) + Empties(q[1..])
  }

  lemma {:induction false} EmptiesSnoc(q: seq<Stamped>, e: Stamped)
    ensures Empties(q + [e]) == Empties(q) + if e.msg == [] then 1 else 0
  {
    if q == [] {
      assert q + [e] == [e];
    } else {
      EmptiesSnoc(q[1..], e);
      assert (q + [e])[1..] == q[1..] + [e];
    }
  }

  ghost predicate AllWithin(q: seq<Stamped>, longest: nat) {
    forall i | 0 <= i < |q| :: |q[i].msg| <= longest
  }

  lemma {:induction false} BytesPerEntry(q: seq<Stamped>, longest: nat)
    requires AllWithin(q, longest)
    ensures Bytes(q) <= |q| * longest
    ensures |q| <= Bytes(q) + Empties(q)
  {
    if q == [] {
    } else {
      BytesPerEntry(q[1..], longest);
      assert |q| * longest == |q[1..]| * longest + longest;
    }
  }

  /** After `k` empty sends: below the mark every entry but those weighs a byte; at it, none is added. */
  ghost predicate CountWithin(o: Options, s: State, k: nat) {
    && AllWithin(s.queue, o.hwm)
    && Empties(s.queue) <= k
    && |s.queue| <= o.hwm + k
  }

  lemma AppendCounts(o: Options, s: State, msg: Message, now: nat, k: nat)
    requires AllWithin(s.queue, o.hwm) && Empties(s.queue) <= k && |msg| <= o.hwm
    requires |s.queue| < o.hwm + k + if msg == [] then 1 else 0
    ensures CountWithin(o, Append(s, msg, now), k + if msg == [] then 1 else 0)
  {
    EmptiesSnoc(s.queue, Stamped(msg, now));
  }

  lemma SendCounts(o: Options, s: State, msg: Message, now: nat, k: nat)
    requires Accounts(s) && CountWithin(o, s, k) && |msg| <= o.hwm
    ensures CountWithin(o, Send(o, s, msg, now).0, k + if msg == [] then 1 else 0)
  {
    BytesPerEntry(s.queue, o.hwm);
    if s.bytes < o.hwm {
      AppendCounts(o, s, msg, now, k);
    } else if o.policy == DropOld {
      AppendCounts(o, if s.queue != [] then DropFront(s, Evicted) else s, msg, now, k);
    }
  }

  lemma {:induction false} SkipOldCounts(o: Options, s: State, now: nat, k: nat)
    requires CountWithin(o, s, k)
    ensures CountWithin(o, SkipOld(o, s, now), k)
    decreases |s.queue|
  {
    if s.queue == [] || !TooOld(o, s.queue[0], now) {
    } else {
      SkipOldCounts(o, DropFront(s, Expired), now, k);
    }
  }

  lemma ExpireCounts(o: Options, s: State, now: nat, k: nat)
    requires Inv(o, s) && s.clock <= now && CountWithin(o, s, k)
    ensures CountWithin(o, Expire(o, s, now), k)
  {
    if o.ttl > 0 {
      ExpireIsSkipping(o, s, now);
      SkipOldCounts(o, s.(clock := now), now, k);
    }
  }

  lemma StepCounts(o: Options, s: State, a: Action, k: nat)
    requires Inv(o, s) && CountWithin(o, s, k) && Enabled(o, s, a)
    ensures CountWithin(o, Next(o, s, a), k + IsEmptySend(a))
  {
    match a
    case SendLocked(m, now) => SendCounts(o, s, m, now, k);
    case WorkerRound(now, later, r) => ExpireCounts(o, s, now, k);
    case Close =>
  }

  lemma {:induction false} RunCounts(o: Options, s: State, run: seq<Action>, s': State, k: nat)
    requires Inv(o, s) && CountWithin(o, s, k) && Steps(o, s, run, s')
    ensures CountWithin(o, s', k + EmptySends(run))
    decreases |run|
  {
    if run == [] {
    } else {
      StepCounts(o, s, run[0], k);
      StepKeepsInv(o, s, run[0]);
      RunCounts(o, Next(o, s, run[0]), run[1..], s', k + IsEmptySend(run[0]));
    }
  }

  /**
    The bound under every policy, kDropOld too: after `k` empty messages a queue holds at most `hwm + k`
    messages, and so at most `(hwm + k) * hwm` bytes.
   */
  lemma GrowthBound(o: Options, run: seq<Action>, s: State)
    requires Steps(o, START, run, s)
    ensures |s.queue| <= o.hwm + EmptySends(run)
    ensures s.bytes <= (o.hwm + EmptySends(run)) * o.hwm
  {
    RunCounts(o, START, run, s, 0);
    RunKeepsInv(o, START, run, s);
    BytesPerEntry(s.queue, o.hwm);
    Times(|s.queue|, o.hwm + EmptySends(run), o.hwm);
  }

  lemma Times(a: nat, b: nat, c: nat)
    requires a <= b
    ensures a * c <= b * c
  {
  }

  lemma {:induction false} EmptySendsSnoc(run: seq<Action>, a: Action)
    ensures EmptySends(run + [a]) == EmptySends(run) + IsEmptySend(a)
  {
    if run == [] {
      assert run + [a] == [a] && [a][1..] == [];
    } else {
      EmptySendsSnoc(run[1..], a);
      TailOfSum(run, [a]);
    }
  }

  /** A run from the start whose clock never moves. */
  ghost predicate RunTo(o: Options, run: seq<Action>, s: State) {
    Steps(o, START, run, s) && s.clock == 0
  }

  lemma OneMoreSend(o: Options, run: seq<Action>, s: State, m: Message) returns (run': seq<Action>, s': State)
    requires RunTo(o, run, s) && |m| <= o.hwm
    ensures RunTo(o, run', s') && s' == Send(o, s, m, 0).0
    ensures EmptySends(run') == EmptySends(run) + if m == [] then 1 else 0
  {
    var a := SendLocked(m, 0);
    OneStep(o, s, a);
    StepsCompose(o, START, run, s, [a], Next(o, s, a));
    EmptySendsSnoc(run, a);
    run', s' := run + [a], Next(o, s, a);
  }

  /** `k` empty messages, then `j` of one byte. */
  function Light(k: nat, j: nat): seq<Stamped> {
    Repeat(k, Stamped([], 0)) + Repeat(j, Stamped([0], 0))
  }

  lemma {:induction false} FillLight(o: Options, k: nat, j: nat) returns (run: seq<Action>, s: State)
    requires j < o.hwm
    ensures RunTo(o, run, s) && s.queue == Light(k, j) && s.bytes == j && EmptySends(run) == k
    decreases k + j
  {
    if k == 0 && j == 0 {
      run, s := [], START;
    } else if j == 0 {
      var was: State;
      run, was := FillLight(o, k - 1, 0);
      run, s := OneMoreSend(o, run, was, []);
      RepeatSnoc(k - 1, Stamped([], 0));
    } else {
      var was: State;
      run, was := FillLight(o, k, j - 1);
      run, s := OneMoreSend(o, run, was, [0]);
      RepeatSnoc(j - 1, Stamped([0], 0));
      assert was.queue + [Stamped([0], 0)] == Light(k, j);
    }
  }

  /** One send of `m` goes in below the mark; each later one takes the place of one light message. */
  lemma {:induction false} Displace(o: Options, m: Message, was: State, runWas: seq<Action>, i: nat)
    returns (run: seq<Action>, s: State)
    requires o.policy == DropOld && 0 < |m| == o.hwm
    requires RunTo(o, runWas, was) && was.bytes < o.hwm && i <= |was.queue|
    ensures RunTo(o, run, s) && EmptySends(run) == EmptySends(runWas)
    ensures s.queue == was.queue[i..] + Repeat(i + 1, Stamped(m, 0))
  {
    var full := Stamped(m, 0);
    if i == 0 {
      run, s := OneMoreSend(o, runWas, was, m);
      assert Repeat(1, full) == [full];
    } else {
      var mid: State;
      run, mid := Displace(o, m, was, runWas, i - 1);
      RunKeepsInv(o, START, run, mid);
      BytesConcat(was.queue[i - 1..], Repeat(i, full));
      BytesRepeat(i, full);
      Times(1, i, o.hwm);
      run, s := OneMoreSend(o, run, mid, m);
      RepeatSnoc(i, full);
      assert mid.queue[1..] == was.queue[i..] + Repeat(i, full);
    }
  }

  /** Light messages first, then full ones until no light one is left. */
  lemma Overfill(o: Options, m: Message, k: nat, j: nat) returns (run: seq<Action>, s: State)
    requires o.policy == DropOld && j < |m| == o.hwm
    ensures Steps(o, START, run, s) && EmptySends(run) == k && s.bytes == (k + j + 1) * o.hwm
  {
    var was: State;
    run, was := FillLight(o, k, j);
    run, s := Displace(o, m, was, run, k + j);
    RunKeepsInv(o, START, run, s);
    assert s.queue == Repeat(k + j + 1, Stamped(m, 0));
    BytesRepeat(k + j + 1, Stamped(m, 0));
  }

  /** kDropOld reaches the bound, whatever the number of empty messages. */
  lemma GrowthReached(o: Options, m: Message, k: nat) returns (run: seq<Action>, s: State)
    requires o.policy == DropOld && 0 < |m| == o.hwm
    ensures Steps(o, START, run, s) && EmptySends(run) == k && s.bytes == (o.hwm + k) * o.hwm
  {
    run, s := Overfill(o, m, k, o.hwm - 1);
  }

  /** With empty messages there is no bound: one message is evicted per send, whatever the sizes. */
  lemma DropOldUnbounded(o: Options, m: Message, n: nat) returns (run: seq<Action>, s: State)
    requires o.policy == DropOld && 0 < |m| == o.hwm
    ensures Steps(o, START, run, s) && s.bytes == n * o.hwm
  {
    if n == 0 {
      run, s := [], START;
    } else {
      run, s := Overfill(o, m, n - 1, 0);
    }
  }

  ghost predicate Bounded(o: Options, emptiesAllowed: bool, bound: nat) {
    forall run, s | Steps(o, START, run, s) && (emptiesAllowed || EmptySends(run) == 0) :: s.bytes <= bound
  }

  lemma Exceeds(o: Options, bound: nat)
    requires o.policy == DropOld && o.hwm > 0
    ensures !Bounded(o, true, bound)
  {
    var run, s := DropOldUnbounded(o, Repeat(o.hwm, 0), bound + 1);
    Times(1, o.hwm, bound + 1);
  }

  /**
    So the bytes kDropOld holds are bounded if and only if no caller sends an empty message, or the mark is
    zero and only empty ones are admitted.
   */
  lemma DropOldBoundedIff(o: Options, emptiesAllowed: bool)
    requires o.policy == DropOld
    ensures !emptiesAllowed || o.hwm == 0 <==> exists bound :: Bounded(o, emptiesAllowed, bound)
  {
    if emptiesAllowed && o.hwm > 0 {
      forall bound: nat
        ensures !Bounded(o, emptiesAllowed, bound)
      {
        Exceeds(o, bound);
      }
    } else {
      forall run, s | Steps(o, START, run, s) && (emptiesAllowed || EmptySends(run) == 0)
        ensures s.bytes <= o.hwm * o.hwm
      {
        GrowthBound(o, run, s);
      }
      assert Bounded(o, emptiesAllowed, o.hwm * o.hwm);
    }
  }
}
