/** `QosPipe`: a send queue in front of another pipe, and the worker that empties it. */
module QosQueue {
  import opened Common
  import opened Expiry

  /** `QosOptions`; `ttl <= 0` means messages never expire. */
  datatype Options = Options(hwm: nat, policy: Policy, ttl: int)

  /** `QueuedMessage` of the pipe: stamped under the lock when it is queued. */
  datatype Stamped = Stamped(msg: Message, at: nat)

  datatype Fate = HandedOver | Evicted | Expired

  /**
    The fields of the pipe, then history: the last clock reading, every message ever queued, the fates of
    those that have left, and the messages the underlying pipe accepted.
   */
  datatype State = State(
    queue: seq<Stamped>, bytes: int, count: int, running: bool,
    clock: nat, accepted: seq<Stamped>, fates: seq<Fate>, handed: seq<Message>)

  const START := State([], 0, 0, true, 0, [], [], [])

  datatype SendOutcome = Accepted | Dropped | Refused | MustWait

  /** What the underlying `send` reports; only kClosed and kIoError are fatal. */
  datatype Underlying = Sent | Fatal | Temporary

  // ---- What each critical section does ----

  function Bytes(q: seq<Stamped>): nat {
    if q == [] then 0 else |q[0].msg| + Bytes(q[1..])
  }

  predicate TooOld(o: Options, e: Stamped, now: nat) {
    now - e.at > o.ttl
  }

  function DeadAt(o: Options, now: nat): Stamped -> bool {
    (e: Stamped) => TooOld(o, e, now)
  }

  function DropFront(s: State, fate: Fate): State
    requires s.queue != []
  {
    s.(queue := s.queue[1..], bytes := s.bytes - |s.queue[0].msg|, count := s.count - 1, fates := s.fates + [fate])
  }

  function Append(s: State, msg: Message, now: nat): State {
    var e := Stamped(msg, now);
    s.(queue := s.queue + [e], bytes := s.bytes + |msg|, count := s.count + 1, clock := now,
       accepted := s.accepted + [e])
  }

  /** `send` under the lock, and equally a blocked `send` that runs again. */
  function Send(o: Options, s: State, msg: Message, now: nat): (State, SendOutcome) {
    if s.bytes >= o.hwm then
      match o.policy
      case FailFast => (s, Refused)
      case DropNew => (s, Dropped)
      case DropOld => (Append(if s.queue != [] then DropFront(s, Evicted) else s, msg, now), Accepted)
      case Block => (s, MustWait)
    else (Append(s, msg, now), Accepted)
  }

  /** The worker's TTL pass over the queue. */
  function Expire(o: Options, s: State, now: nat): State {
    if o.ttl > 0 then
      var kept := Keep(s.queue, DeadAt(o, now));
      var n := |s.queue| - |kept|;
      s.(queue := kept, bytes := s.bytes - (Bytes(s.queue) - Bytes(kept)), count := s.count - n, clock := now,
         fates := s.fates + Repeat(n, Expired))
    else s
  }

  /** `can_send_message` for the front message. */
  predicate CanSend(o: Options, s: State, now: nat)
    requires s.queue != []
  {
    !(o.ttl > 0 && TooOld(o, s.queue[0], now)) && s.bytes < o.hwm
  }

  function HandOver(s: State): State
    requires s.queue != []
  {
    DropFront(s, HandedOver).(handed := s.handed + [s.queue[0].msg])
  }

  /** One turn of the worker's loop from when its wait ends; it reads the clock twice. */
  function Round(o: Options, s: State, now: nat, later: nat, r: Underlying): State {
    if !s.running then s
    else
      var s1 := Expire(o, s, now);
      if s1.queue == [] then s1
      else if !CanSend(o, s1, later) then s1
      else
        match r
        case Sent => HandOver(s1)
        case Fatal => s1.(running := false)
        case Temporary => s1
  }

  // ---- The invariant ----

  function HandedMessages(accepted: seq<Stamped>, fates: seq<Fate>): seq<Message>
    requires |fates| <= |accepted|
  {
    if fates == [] then []
    else
      var n := |fates| - 1;
      HandedMessages(accepted, fates[..n]) + (if fates[n] == HandedOver then [accepted[n].msg] else [])
  }

  ghost predicate FateAllowed(o: Options, f: Fate) {
    match f
    case HandedOver => true
    case Evicted => o.policy == DropOld
    case Expired => o.ttl > 0
  }

  ghost predicate History(o: Options, s: State) {
    && |s.fates| <= |s.accepted|
    && s.queue == s.accepted[|s.fates|..]
    && s.handed == HandedMessages(s.accepted, s.fates)
    && forall i | 0 <= i < |s.fates| :: FateAllowed(o, s.fates[i])
  }

  /** `send_bytes_` and `send_count_` are right whenever the lock is free. */
  ghost predicate Accounts(s: State) {
    s.bytes == Bytes(s.queue) && s.count == |s.queue|
  }

  ghost predicate Stamps(s: State) {
    && (forall i | 0 <= i < |s.accepted| :: s.accepted[i].at <= s.clock)
    && (forall i, j | 0 <= i < j < |s.accepted| :: s.accepted[i].at <= s.accepted[j].at)
  }

  /** Outside kDropOld the queue never holds more than one message beyond the mark. */
  ghost predicate WithinMark(o: Options, s: State) {
    o.policy != DropOld ==> s.bytes <= if o.hwm == 0 then 0 else 2 * o.hwm - 1
  }

  ghost predicate Inv(o: Options, s: State) {
    History(o, s) && Accounts(s) && Stamps(s) && WithinMark(o, s)
  }

  lemma {:induction false} BytesConcat(p: seq<Stamped>, q: seq<Stamped>)
    ensures Bytes(p + q) == Bytes(p) + Bytes(q)
  {
    if p == [] {
      assert p + q == q;
    } else {
      BytesConcat(p[1..], q);
      TailOfSum(p, q);
    }
  }

  lemma {:induction false} BytesRepeat(n: nat, e: Stamped)
    ensures Bytes(Repeat(n, e)) == n * |e.msg|
  {
    if n == 0 {
    } else {
      BytesRepeat(n - 1, e);
      assert Repeat(n, e)[1..] == Repeat(n - 1, e);
      assert n * |e.msg| == (n - 1) * |e.msg| + |e.msg|;
    }
  }

  lemma {:induction false} HandedStable(accepted: seq<Stamped>, e: Stamped, fates: seq<Fate>)
    requires |fates| <= |accepted|
    ensures HandedMessages(accepted + [e], fates) == HandedMessages(accepted, fates)
  {
    if fates == [] {
    } else {
      HandedStable(accepted, e, fates[..|fates| - 1]);
    }
  }

  lemma HandedSnoc(accepted: seq<Stamped>, fates: seq<Fate>, f: Fate)
    requires |fates| < |accepted|
    ensures HandedMessages(accepted, fates + [f])
         == HandedMessages(accepted, fates) + (if f == HandedOver then [accepted[|fates|].msg] else [])
  {
    assert (fates + [f])[..|fates|] == fates;
  }

  lemma DropFrontKeeps(o: Options, s: State, f: Fate)
    requires Inv(o, s) && s.queue != [] && FateAllowed(o, f)
    ensures Inv(o, if f == HandedOver then HandOver(s) else DropFront(s, f))
  {
    HandedSnoc(s.accepted, s.fates, f);
  }

  lemma AppendKeeps(o: Options, s: State, msg: Message, now: nat)
    requires Inv(o, s) && s.clock <= now && |msg| <= o.hwm
    requires o.policy == DropOld || s.bytes < o.hwm
    ensures Inv(o, Append(s, msg, now))
  {
    HandedStable(s.accepted, Stamped(msg, now), s.fates);
    BytesConcat(s.queue, [Stamped(msg, now)]);
  }

  lemma SendKeeps(o: Options, s: State, msg: Message, now: nat)
    requires Inv(o, s) && s.clock <= now && |msg| <= o.hwm
    ensures Inv(o, Send(o, s, msg, now).0)
  {
    if s.bytes >= o.hwm {
      if o.policy == DropOld && s.queue != [] {
        DropFrontKeeps(o, s, Evicted);
        AppendKeeps(o, DropFront(s, Evicted), msg, now);
      } else if o.policy == DropOld {
        AppendKeeps(o, s, msg, now);
      }
    } else {
      AppendKeeps(o, s, msg, now);
    }
  }

  /**
    Which messages a send queues: below the mark all, at the mark only under kDropOld, at the price of the
    oldest. A message that is not queued leaves no trace.
   */
  lemma SendAdmitsIff(o: Options, s: State, msg: Message, now: nat)
    requires Accounts(s)
    ensures
      var (s', out) := Send(o, s, msg, now);
      && (out.Accepted? <==> s.bytes < o.hwm || o.policy == DropOld)
      && (out.Accepted? <==> s'.accepted == s.accepted + [Stamped(msg, now)])
      && (!out.Accepted? ==> s' == s)
      && (s'.fates != s.fates <==> o.policy == DropOld && s.bytes >= o.hwm && s.queue != [])
      && s.fates <= s'.fates && s'.handed == s.handed
  {
  }

  /** The compacting pass removes a prefix, because stamps never decrease along the queue. */
  lemma OldFirst(o: Options, s: State, now: nat)
    requires Inv(o, s)
    ensures DeadFirst(s.queue, DeadAt(o, now))
  {
    var n := |s.fates|;
    forall i, j | 0 <= i < j < |s.queue| && TooOld(o, s.queue[j], now)
      ensures TooOld(o, s.queue[i], now)
    {
      assert s.queue[i] == s.accepted[n + i] && s.queue[j] == s.accepted[n + j];
    }
  }

  /** The same pass as a loop over the front, for the proof. */
  function SkipOld(o: Options, s: State, now: nat): State
    decreases |s.queue|
  {
    if s.queue == [] || !TooOld(o, s.queue[0], now) then s else SkipOld(o, DropFront(s, Expired), now)
  }

  lemma {:induction false} SkipOldFrame(o: Options, s: State, now: nat)
    requires Accounts(s)
    ensures
      var s' := SkipOld(o, s, now);
      && |s'.queue| <= |s.queue|
      && s' == s.(queue := s'.queue, bytes := Bytes(s'.queue), count := |s'.queue|,
                  fates := s.fates + Repeat(|s.queue| - |s'.queue|, Expired))
    decreases |s.queue|
  {
    RepeatCons(s.fates, Expired, 0);
    if s.queue == [] || !TooOld(o, s.queue[0], now) {
    } else {
      var d := DropFront(s, Expired);
      SkipOldFrame(o, d, now);
      RepeatCons(s.fates, Expired, |d.queue| - |SkipOld(o, d, now).queue|);
    }
  }

  lemma {:induction false} SkipOldIsSkipFront(o: Options, s: State, now: nat)
    ensures SkipOld(o, s, now).queue == SkipFront(s.queue, DeadAt(o, now))
    decreases |s.queue|
  {
    if s.queue == [] || !TooOld(o, s.queue[0], now) {
    } else {
      SkipOldIsSkipFront(o, DropFront(s, Expired), now);
    }
  }

  lemma {:induction false} SkipOldKeeps(o: Options, s: State, now: nat)
    requires Inv(o, s) && o.ttl > 0
    ensures Inv(o, SkipOld(o, s, now))
    decreases |s.queue|
  {
    if s.queue == [] || !TooOld(o, s.queue[0], now) {
    } else {
      DropFrontKeeps(o, s, Expired);
      SkipOldKeeps(o, DropFront(s, Expired), now);
    }
  }

  lemma CompactionIsSkipping(o: Options, s: State, now: nat)
    requires Inv(o, s)
    ensures SkipOld(o, s, now).queue == Keep(s.queue, DeadAt(o, now))
  {
    OldFirst(o, s, now);
    SkipIsKeep(s.queue, DeadAt(o, now));
    SkipOldIsSkipFront(o, s, now);
  }

  lemma ExpireIsSkipping(o: Options, s: State, now: nat)
    requires Inv(o, s) && s.clock <= now && o.ttl > 0
    ensures Expire(o, s, now) == SkipOld(o, s.(clock := now), now)
  {
    var t := s.(clock := now);
    CompactionIsSkipping(o, t, now);
    SkipOldFrame(o, t, now);
  }

  lemma ExpireKeeps(o: Options, s: State, now: nat)
    requires Inv(o, s) && s.clock <= now
    ensures Inv(o, Expire(o, s, now))
  {
    if o.ttl > 0 {
      ExpireIsSkipping(o, s, now);
      SkipOldKeeps(o, s.(clock := now), now);
    }
  }

  lemma RoundKeeps(o: Options, s: State, now: nat, later: nat, r: Underlying)
    requires Inv(o, s) && s.clock <= now
    ensures Inv(o, Round(o, s, now, later, r))
  {
    ExpireKeeps(o, s, now);
    DeliverKeeps(o, Expire(o, s, now), r);
  }

  lemma DeliverKeeps(o: Options, s: State, r: Underlying)
    requires Inv(o, s)
    ensures s.queue != [] ==> Inv(o, HandOver(s))
    ensures Inv(o, s.(running := false))
  {
    if s.queue != [] { DropFrontKeeps(o, s, HandedOver); }
  }

  // ---- Runs ----

  datatype Action =
    | SendLocked(msg: Message, now: nat)
    | WorkerRound(now: nat, later: nat, r: Underlying)
    | Close

  /**
    `send` tests `running_` and the size before it takes the lock, so a send may still queue after `close`;
    the worker takes a turn when it is woken by a message or by the shutdown.
   */
  ghost predicate Enabled(o: Options, s: State, a: Action) {
    match a
    case SendLocked(m, now) => s.clock <= now && |m| <= o.hwm
    case WorkerRound(now, later, r) => s.clock <= now <= later && (s.queue != [] || !s.running)
    case Close => true
  }

  function Next(o: Options, s: State, a: Action): State {
    match a
    case SendLocked(m, now) => Send(o, s, m, now).0
    case WorkerRound(now, later, r) => Round(o, s, now, later, r)
    case Close => s.(running := false)
  }

  ghost predicate Steps(o: Options, s: State, run: seq<Action>, s': State)
    decreases |run|
  {
    if run == [] then s == s'
    else Enabled(o, s, run[0]) && Steps(o, Next(o, s, run[0]), run[1..], s')
  }

  lemma {:induction false} StepsCompose(
      o: Options, s: State, run: seq<Action>, mid: State, more: seq<Action>, s': State)
    requires Steps(o, s, run, mid) && Steps(o, mid, more, s')
    ensures Steps(o, s, run + more, s')
    decreases |run|
  {
    if run == [] {
      assert run + more == more;
    } else {
      StepsCompose(o, Next(o, s, run[0]), run[1..], mid, more, s');
      TailOfSum(run, more);
    }
  }

  lemma OneStep(o: Options, s: State, a: Action)
    requires Enabled(o, s, a)
    ensures Steps(o, s, [a], Next(o, s, a))
  {
    assert [a][1..] == [];
  }

  lemma StepKeepsInv(o: Options, s: State, a: Action)
    requires Inv(o, s) && Enabled(o, s, a)
    ensures Inv(o, Next(o, s, a))
  {
    match a
    case SendLocked(m, now) => SendKeeps(o, s, m, now);
    case WorkerRound(now, later, r) => RoundKeeps(o, s, now, later, r);
    case Close => DeliverKeeps(o, s, Sent);
  }

  lemma {:induction false} RunKeepsInv(o: Options, s: State, run: seq<Action>, s': State)
    requires Inv(o, s) && Steps(o, s, run, s')
    ensures Inv(o, s')
    decreases |run|
  {
    if run == [] {
    } else {
      StepKeepsInv(o, s, run[0]);
      RunKeepsInv(o, Next(o, s, run[0]), run[1..], s');
    }
  }

  function Messages(es: seq<Stamped>): seq<Message> {
    seq(|es|, i requires 0 <= i < |es| => es[i].msg)
  }

  /** When nothing was evicted and nothing expired, what left is what was handed over. */
  lemma {:induction false} AllHanded(accepted: seq<Stamped>, fates: seq<Fate>)
    requires |fates| <= |accepted| && forall i | 0 <= i < |fates| :: fates[i] == HandedOver
    ensures HandedMessages(accepted, fates) == Messages(accepted[..|fates|])
    decreases |fates|
  {
    if fates == [] {
    } else {
      var n := |fates| - 1;
      AllHanded(accepted, fates[..n]);
      assert accepted[..n + 1] == accepted[..n] + [accepted[n]];
    }
  }

  lemma {:induction false} HandedPositions(accepted: seq<Stamped>, fates: seq<Fate>) returns (at: seq<nat>)
    requires |fates| <= |accepted|
    ensures Selects(at, HandedMessages(accepted, fates), Messages(accepted))
    ensures forall i | 0 <= i < |at| :: at[i] < |fates|
    decreases |fates|
  {
    if fates == [] {
      at := [];
    } else {
      var n := |fates| - 1;
      at := HandedPositions(accepted, fates[..n]);
      if fates[n] == HandedOver {
        SelectsOneMore(at, HandedMessages(accepted, fates[..n]), Messages(accepted), n);
        at := at + [n];
      }
    }
  }

  lemma MessagesConcat(p: seq<Stamped>, q: seq<Stamped>)
    ensures Messages(p + q) == Messages(p) + Messages(q)
  {
  }

  /** Without a TTL and outside kDropOld: nothing queued is ever lost, and order is kept. */
  lemma NothingLost(o: Options, s: State)
    requires Inv(o, s) && o.ttl <= 0 && o.policy != DropOld
    ensures Messages(s.accepted) == s.handed + Messages(s.queue)
  {
    AllHanded(s.accepted, s.fates);
    MessagesConcat(s.accepted[..|s.fates|], s.queue);
    SplitAt(s.accepted, |s.fates|);
  }

  /** In every run: right accounts, the bound of the mark, and an order-preserving hand-over. */
  lemma EveryRun(o: Options, run: seq<Action>, s: State) returns (at: seq<nat>)
    requires Steps(o, START, run, s)
    ensures s.bytes == Bytes(s.queue) && s.count == |s.queue|
    ensures o.policy != DropOld ==> s.bytes <= if o.hwm == 0 then 0 else 2 * o.hwm - 1
    ensures |s.fates| + |s.queue| == |s.accepted| && s.queue == s.accepted[|s.fates|..]
    ensures Selects(at, s.handed, Messages(s.accepted))
    ensures o.ttl <= 0 && o.policy != DropOld ==> Messages(s.accepted) == s.handed + Messages(s.queue)
  {
    RunKeepsInv(o, START, run, s);
    at := HandedPositions(s.accepted, s.fates);
    if o.ttl <= 0 && o.policy != DropOld { NothingLost(o, s); }
  }

  /** The bound of the mark is reached, by one byte less than the mark and then a message as large as it. */
  lemma BoundIsReached(o: Options, almost: Message, full: Message) returns (run: seq<Action>, s: State)
    requires |almost| + 1 == |full| == o.hwm
    ensures Steps(o, START, run, s) && s.bytes == 2 * o.hwm - 1
  {
    var a, b := SendLocked(almost, 0), SendLocked(full, 0);
    var mid := Next(o, START, a);
    s := Next(o, mid, b);
    run := [a, b];
    OneStep(o, mid, b);
    assert run[1..] == [b];
  }
}
