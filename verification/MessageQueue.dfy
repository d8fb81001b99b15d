/** `MessageQueue`: a byte-bounded queue with four backpressure policies and a TTL. */
module MessageQueue {
  import opened Common
  import opened Expiry

  /** `hwm == 0` means no limit; `ttl <= 0` means messages never expire. */
  datatype Config = Config(hwm: nat, policy: Policy, ttl: int)

  /** `QueuedMessage`; a zero deadline means none. Times are ticks of the steady clock. */
  datatype Entry = Entry(msg: Message, deadline: nat)

  /** What became of a message that is no longer queued. */
  datatype Fate = Popped(at: nat) | Evicted | Expired(at: nat)

  /**
    The fields under `mu_`, then history: the last clock reading, every message ever enqueued, the
    fates of those that have left, and the messages that `pop` and `try_pop` returned.
   */
  datatype State = State(
    queue: seq<Entry>, total: int, closed: bool,
    clock: nat, enqueued: seq<Entry>, fates: seq<Fate>, popped: seq<Message>)

  /** Calls on the two condition variables made by one critical section. */
  datatype Signals = Signals(notEmptyOne: nat, notFullOne: nat, notFullAll: bool)

  const SILENT := Signals(0, 0, false)

  datatype PushOutcome = Enqueued | DroppedNew | PushClosed | WouldBlock | PushMustWait
  datatype PopOutcome = Delivered(msg: Message) | PopClosed | AllExpired | PopMustWait

  const START := State([], 0, false, 0, [], [], [])

  // ---- What each critical section does ----

  function Bytes(q: seq<Entry>): nat {
    if q == [] then 0 else |q[0].msg| + Bytes(q[1..])
  }

  predicate IsExpired(e: Entry, now: nat) {
    e.deadline != 0 && now > e.deadline
  }

  function DeadAt(now: nat): Entry -> bool {
    (e: Entry) => IsExpired(e, now)
  }

  predicate HasSpace(c: Config, total: int) {
    c.hwm == 0 || total < c.hwm
  }

  predicate Congested(c: Config, s: State, size: nat) {
    !HasSpace(c, s.total) || (s.total + size > c.hwm && c.hwm > 0)
  }

  /** The predicate a kBlock push waits for. */
  predicate MayProceed(c: Config, s: State, size: nat) {
    s.closed || HasSpace(c, s.total) || c.hwm == 0 || s.total + size <= c.hwm
  }

  function DropFront(s: State, fate: Fate): State
    requires s.queue != []
  {
    s.(queue := s.queue[1..], total := s.total - |s.queue[0].msg|, fates := s.fates + [fate])
  }

  /** kDropOld: drop from the front until there is space. */
  function Evict(c: Config, s: State): State
    decreases |s.queue|
  {
    if HasSpace(c, s.total) || s.queue == [] then s else Evict(c, DropFront(s, Evicted))
  }

  function Enqueue(c: Config, s: State, msg: Message, now: nat): State {
    var e := Entry(msg, if c.ttl > 0 then now + c.ttl else 0);
    s.(queue := s.queue + [e], total := s.total + |msg|, clock := now, enqueued := s.enqueued + [e])
  }

  /** `push`, and equally a blocked `push` that has been woken, as one critical section. */
  function Push(c: Config, s: State, msg: Message, now: nat): (State, PushOutcome, Signals) {
    if s.closed then (s, PushClosed, SILENT)
    else if Congested(c, s, |msg|) then
      match c.policy
      case Block =>
        if MayProceed(c, s, |msg|) then (Enqueue(c, s, msg, now), Enqueued, Signals(1, 0, false))
        else (s, PushMustWait, SILENT)
      case DropNew => (s, DroppedNew, SILENT)
      case DropOld => (Enqueue(c, Evict(c, s), msg, now), Enqueued, Signals(1, 0, false))
      case FailFast => (s, WouldBlock, SILENT)
    else (Enqueue(c, s, msg, now), Enqueued, Signals(1, 0, false))
  }

  function SkipExpired(s: State, now: nat): State
    decreases |s.queue|
  {
    if s.queue == [] || !IsExpired(s.queue[0], now) then s else SkipExpired(DropFront(s, Expired(now)), now)
  }

  /** The tail that `pop` and `try_pop` share: skip what has expired, then take the front. */
  function Take(s: State, now: nat): (State, PopOutcome) {
    var s' := SkipExpired(s.(clock := now), now);
    if s'.queue == [] then (s', if s.closed then PopClosed else AllExpired)
    else
      var m := s'.queue[0].msg;
      (DropFront(s', Popped(now)).(popped := s'.popped + [m]), Delivered(m))
  }

  /** `pop`, and equally a blocked `pop` that has been woken: one signal for every message removed. */
  function Pop(s: State, now: nat): (State, PopOutcome, Signals) {
    if s.queue == [] then (s, if s.closed then PopClosed else PopMustWait, SILENT)
    else
      var (s', out) := Take(s, now);
      (s', out, Signals(0, Removed(s, s'), false))
  }

  /** `try_pop`: expired messages are removed without a signal. */
  function TryPop(s: State, now: nat): (State, Option<Message>, Signals) {
    if s.queue == [] then (s, None, SILENT)
    else
      var (s', out) := Take(s, now);
      if out.Delivered? then (s', Some(out.msg), Signals(0, 1, false)) else (s', None, SILENT)
  }

  function Removed(s: State, s': State): nat {
    if |s'.queue| <= |s.queue| then |s.queue| - |s'.queue| else 0
  }

  /** `purge_expired`: erase every expired message, wherever it is. */
  function Purge(c: Config, s: State, now: nat): (State, nat, Signals) {
    if c.ttl == 0 then (s, 0, SILENT)
    else
      var kept := Keep(s.queue, DeadAt(now));
      var n := |s.queue| - |kept|;
      (s.(queue := kept, total := s.total - (Bytes(s.queue) - Bytes(kept)), clock := now,
          fates := s.fates + Repeat(n, Expired(now))),
       n, Signals(0, 0, n > 0))
  }

  function Close(s: State): State {
    s.(closed := true)
  }

  // ---- The invariant ----

  /** The messages popped so far, read off the fates. */
  function PoppedMessages(enqueued: seq<Entry>, fates: seq<Fate>): seq<Message>
    requires |fates| <= |enqueued|
  {
    if fates == [] then []
    else
      var n := |fates| - 1;
      PoppedMessages(enqueued, fates[..n]) + (if fates[n].Popped? then [enqueued[n].msg] else [])
  }

  /** Every enqueued message is either still queued or has exactly one fate; what is queued is a suffix. */
  ghost predicate SplitExactly(s: State) {
    && |s.fates| <= |s.enqueued|
    && s.queue == s.enqueued[|s.fates|..]
    && s.popped == PoppedMessages(s.enqueued, s.fates)
    && s.total == Bytes(s.queue)
  }

  ghost predicate FateOk(c: Config, e: Entry, fate: Fate) {
    match fate
    case Popped(at) => !IsExpired(e, at)
    case Expired(at) => IsExpired(e, at)
    case Evicted => c.policy == DropOld && c.hwm > 0
  }

  ghost predicate FatesOk(c: Config, s: State) {
    |s.fates| <= |s.enqueued| && forall i | 0 <= i < |s.fates| :: FateOk(c, s.enqueued[i], s.fates[i])
  }

  /** Deadlines never decrease along the queue, because they were stamped under the lock. */
  ghost predicate DeadlinesOk(c: Config, s: State) {
    && (forall i | 0 <= i < |s.enqueued| ::
          if c.ttl > 0 then 0 < s.enqueued[i].deadline <= s.clock + c.ttl else s.enqueued[i].deadline == 0)
    && (forall i, j | 0 <= i < j < |s.enqueued| :: s.enqueued[i].deadline <= s.enqueued[j].deadline)
  }

  ghost predicate Inv(c: Config, s: State) {
    SplitExactly(s) && FatesOk(c, s) && DeadlinesOk(c, s)
  }

  /** The bound each policy keeps when no message is longer than `longest`. */
  ghost predicate WithinMark(c: Config, s: State, longest: nat) {
    c.hwm > 0 ==>
      s.total <= if c.policy == DropNew || c.policy == FailFast then c.hwm else c.hwm - 1 + longest
  }

  lemma {:induction false} BytesConcat(p: seq<Entry>, q: seq<Entry>)
    ensures Bytes(p + q) == Bytes(p) + Bytes(q)
  {
    if p == [] {
      assert p + q == q;
    } else {
      BytesConcat(p[1..], q);
      TailOfSum(p, q);
    }
  }

  lemma {:induction false} PoppedStable(enqueued: seq<Entry>, e: Entry, fates: seq<Fate>)
    requires |fates| <= |enqueued|
    ensures PoppedMessages(enqueued + [e], fates) == PoppedMessages(enqueued, fates)
  {
    if fates == [] {
    } else {
      PoppedStable(enqueued, e, fates[..|fates| - 1]);
    }
  }

  lemma PoppedSnoc(enqueued: seq<Entry>, fates: seq<Fate>, fate: Fate)
    requires |fates| < |enqueued|
    ensures PoppedMessages(enqueued, fates + [fate])
         == PoppedMessages(enqueued, fates) + (if fate.Popped? then [enqueued[|fates|].msg] else [])
  {
    assert (fates + [fate])[..|fates|] == fates;
  }

  /** Removes the front message and, if it was popped, logs it. */
  function Leave(s: State, fate: Fate): State
    requires s.queue != []
  {
    var s' := DropFront(s, fate);
    if fate.Popped? then s'.(popped := s.popped + [s.queue[0].msg]) else s'
  }

  lemma LeaveKeepsSplit(s: State, fate: Fate)
    requires SplitExactly(s) && s.queue != []
    ensures SplitExactly(Leave(s, fate))
  {
    PoppedSnoc(s.enqueued, s.fates, fate);
    assert s.enqueued[|s.fates|..][1..] == s.enqueued[|s.fates| + 1..];
  }

  lemma LeaveKeepsFates(c: Config, s: State, fate: Fate)
    requires SplitExactly(s) && FatesOk(c, s) && s.queue != [] && FateOk(c, s.queue[0], fate)
    ensures FatesOk(c, Leave(s, fate))
  {
    assert s.queue[0] == s.enqueued[|s.fates|];
  }

  /** Removing the front message with an honest fate keeps everything. */
  lemma DropFrontKeeps(c: Config, s: State, fate: Fate)
    requires Inv(c, s) && s.queue != [] && FateOk(c, s.queue[0], fate)
    ensures Inv(c, Leave(s, fate))
  {
    LeaveKeepsSplit(s, fate);
    LeaveKeepsFates(c, s, fate);
  }

  lemma {:induction false} EvictKeeps(c: Config, s: State)
    requires Inv(c, s) && c.policy == DropOld
    ensures Inv(c, Evict(c, s)) && Evict(c, s).clock == s.clock && Evict(c, s).closed == s.closed
    ensures HasSpace(c, Evict(c, s).total)
    decreases |s.queue|
  {
    if HasSpace(c, s.total) || s.queue == [] {
    } else {
      DropFrontKeeps(c, s, Evicted);
      EvictKeeps(c, DropFront(s, Evicted));
    }
  }

  lemma EnqueueKeepsSplit(c: Config, s: State, msg: Message, now: nat)
    requires SplitExactly(s)
    ensures SplitExactly(Enqueue(c, s, msg, now))
  {
    var e := Entry(msg, if c.ttl > 0 then now + c.ttl else 0);
    PoppedStable(s.enqueued, e, s.fates);
    BytesConcat(s.queue, [e]);
  }

  lemma EnqueueKeepsFates(c: Config, s: State, msg: Message, now: nat)
    requires FatesOk(c, s)
    ensures FatesOk(c, Enqueue(c, s, msg, now))
  {
    var s' := Enqueue(c, s, msg, now);
    assert forall i | 0 <= i < |s.fates| :: s'.enqueued[i] == s.enqueued[i];
  }

  lemma EnqueueKeepsDeadlines(c: Config, s: State, msg: Message, now: nat)
    requires DeadlinesOk(c, s) && s.clock <= now
    ensures DeadlinesOk(c, Enqueue(c, s, msg, now))
  {
  }

  lemma EnqueueKeeps(c: Config, s: State, msg: Message, now: nat)
    requires Inv(c, s) && s.clock <= now
    ensures Inv(c, Enqueue(c, s, msg, now))
  {
    EnqueueKeepsSplit(c, s, msg, now);
    EnqueueKeepsFates(c, s, msg, now);
    EnqueueKeepsDeadlines(c, s, msg, now);
  }

  /** A push leaves the queue alone, or enqueues, or evicts and enqueues. */
  lemma PushCases(c: Config, s: State, msg: Message, now: nat)
    ensures
      var s' := Push(c, s, msg, now).0;
      || s' == s || s' == Enqueue(c, s, msg, now)
      || (c.policy == DropOld && s' == Enqueue(c, Evict(c, s), msg, now))
  {
  }

  lemma PushKeeps(c: Config, s: State, msg: Message, now: nat)
    requires Inv(c, s) && s.clock <= now
    ensures Inv(c, Push(c, s, msg, now).0)
  {
    PushCases(c, s, msg, now);
    EnqueueKeeps(c, s, msg, now);
    if c.policy == DropOld { EvictThenEnqueueKeeps(c, s, msg, now); }
  }

  lemma EvictThenEnqueueKeeps(c: Config, s: State, msg: Message, now: nat)
    requires Inv(c, s) && s.clock <= now && c.policy == DropOld
    ensures Inv(c, Enqueue(c, Evict(c, s), msg, now))
  {
    EvictKeeps(c, s);
    EnqueueKeeps(c, Evict(c, s), msg, now);
  }

  lemma PushKeepsMark(c: Config, s: State, msg: Message, now: nat, longest: nat)
    requires Inv(c, s) && WithinMark(c, s, longest) && |msg| <= longest && 1 <= longest
    ensures WithinMark(c, Push(c, s, msg, now).0, longest)
  {
    if c.policy == DropOld { EvictKeeps(c, s); }
  }

  lemma {:induction false} EvictFrame(c: Config, s: State)
    requires s.total == Bytes(s.queue) && c.hwm > 0
    ensures
      var s' := Evict(c, s);
      var k := Removed(s, s');
      && k <= |s.queue| && s'.queue == s.queue[k..]
      && s'.total == Bytes(s'.queue) < c.hwm
      && s'.fates == s.fates + Repeat(k, Evicted)
      && s' == s.(queue := s'.queue, total := s'.total, fates := s'.fates)
    decreases |s.queue|
  {
    RepeatCons(s.fates, Evicted, 0);
    if HasSpace(c, s.total) {
    } else {
      var d := DropFront(s, Evicted);
      EvictFrame(c, d);
      RepeatCons(s.fates, Evicted, Removed(d, Evict(c, d)));
    }
  }

  lemma {:induction false} EvictsNoMore(c: Config, s: State, j: nat)
    requires s.total == Bytes(s.queue) && c.hwm > 0 && j < Removed(s, Evict(c, s))
    ensures j <= |s.queue| && Bytes(s.queue[j..]) >= c.hwm
    decreases |s.queue|
  {
    if j == 0 {
      assert s.queue[0..] == s.queue;
    } else {
      var d := DropFront(s, Evicted);
      EvictsNoMore(c, d, j - 1);
      assert s.queue[j..] == d.queue[j - 1..];
    }
  }

  /** kDropOld evicts a prefix, and no shorter prefix would have brought the total below the mark. */
  lemma EvictsShortestPrefix(c: Config, s: State)
    requires s.total == Bytes(s.queue) && c.hwm > 0
    ensures
      var s' := Evict(c, s);
      var k := Removed(s, s');
      && k <= |s.queue| && s'.queue == s.queue[k..]
      && s'.total == Bytes(s'.queue) < c.hwm
      && s'.fates == s.fates + Repeat(k, Evicted)
      && s' == s.(queue := s'.queue, total := s'.total, fates := s'.fates)
      && forall j | 0 <= j < k :: Bytes(s.queue[j..]) >= c.hwm
  {
    EvictFrame(c, s);
    forall j | 0 <= j < Removed(s, Evict(c, s))
      ensures Bytes(s.queue[j..]) >= c.hwm
    {
      EvictsNoMore(c, s, j);
    }
  }

  lemma {:induction false} SkipKeeps(c: Config, s: State, now: nat)
    requires Inv(c, s)
    ensures Inv(c, SkipExpired(s, now))
    decreases |s.queue|
  {
    if s.queue == [] || !IsExpired(s.queue[0], now) {
    } else {
      DropFrontKeeps(c, s, Expired(now));
      SkipKeeps(c, DropFront(s, Expired(now)), now);
    }
  }

  /** Skipping changes the queue, the total and the fates, each by exactly the expired front. */
  lemma {:induction false} SkipFrame(s: State, now: nat)
    requires s.total == Bytes(s.queue)
    ensures
      var s' := SkipExpired(s, now);
      && |s'.queue| <= |s.queue|
      && s' == s.(queue := s'.queue, total := Bytes(s'.queue),
                  fates := s.fates + Repeat(|s.queue| - |s'.queue|, Expired(now)))
    decreases |s.queue|
  {
    RepeatCons(s.fates, Expired(now), 0);
    if s.queue == [] || !IsExpired(s.queue[0], now) {
    } else {
      var d := DropFront(s, Expired(now));
      SkipFrame(d, now);
      RepeatCons(s.fates, Expired(now), |d.queue| - |SkipExpired(d, now).queue|);
    }
  }

  lemma {:induction false} SkipIsSkipFront(s: State, now: nat)
    ensures SkipExpired(s, now).queue == SkipFront(s.queue, DeadAt(now))
    decreases |s.queue|
  {
    if s.queue == [] || !IsExpired(s.queue[0], now) {
    } else {
      SkipIsSkipFront(DropFront(s, Expired(now)), now);
    }
  }

  lemma TakeKeeps(c: Config, s: State, now: nat)
    requires Inv(c, s) && s.clock <= now
    ensures Inv(c, Take(s, now).0)
  {
    var t := s.(clock := now);
    SkipKeeps(c, t, now);
    SkipFrame(t, now);
    SkipIsSkipFront(t, now);
    var s' := SkipExpired(t, now);
    if s'.queue != [] { DropFrontKeeps(c, s', Popped(now)); }
  }

  /** The queue an honest history leaves has its expired messages in front. */
  lemma ExpiredFirst(c: Config, s: State, now: nat)
    requires Inv(c, s)
    ensures DeadFirst(s.queue, DeadAt(now))
  {
    var n := |s.fates|;
    forall i, j | 0 <= i < j < |s.queue| && IsExpired(s.queue[j], now)
      ensures IsExpired(s.queue[i], now)
    {
      assert s.queue[i] == s.enqueued[n + i] && s.queue[j] == s.enqueued[n + j];
    }
  }

  /** The front-skipping loop and the erasing loop keep the same messages. */
  lemma SkipAndPurgeAgree(c: Config, s: State, now: nat)
    requires Inv(c, s)
    ensures SkipExpired(s, now).queue == Keep(s.queue, DeadAt(now))
  {
    ExpiredFirst(c, s, now);
    SkipIsKeep(s.queue, DeadAt(now));
    SkipIsSkipFront(s, now);
  }

  lemma TimePasses(c: Config, s: State, now: nat)
    requires Inv(c, s) && s.clock <= now
    ensures Inv(c, s.(clock := now))
  {
  }

  /** `purge_expired` does exactly what the front-skipping loop of `pop` would do. */
  lemma PurgeIsSkip(c: Config, s: State, now: nat)
    requires Inv(c, s) && c.ttl != 0 && s.clock <= now
    ensures Purge(c, s, now).0 == SkipExpired(s.(clock := now), now)
  {
    var t := s.(clock := now);
    TimePasses(c, s, now);
    SkipAndPurgeAgree(c, t, now);
    SkipFrame(t, now);
  }

  lemma PurgeKeeps(c: Config, s: State, now: nat)
    requires Inv(c, s) && s.clock <= now
    ensures Inv(c, Purge(c, s, now).0)
  {
    if c.ttl != 0 {
      PurgeIsSkip(c, s, now);
      SkipKeeps(c, s.(clock := now), now);
    }
  }

  // ---- What push and pop mean to their callers ----

  /** A message that gets in is the newest, and only kDropOld, and only at the mark, pays with older ones. */
  ghost predicate GotIn(c: Config, s: State, s': State, msg: Message) {
    && |s'.enqueued| == |s.enqueued| + 1 && s'.enqueued[..|s.enqueued|] == s.enqueued
    && s'.enqueued[|s.enqueued|].msg == msg && s'.queue != [] && s'.queue[|s'.queue| - 1] == s'.enqueued[|s.enqueued|]
    && s.fates <= s'.fates && (c.policy != DropOld || HasSpace(c, s.total) ==> s'.fates == s.fates)
  }

  lemma EnqueueGetsIn(c: Config, s: State, msg: Message, now: nat)
    ensures GotIn(c, s, Enqueue(c, s, msg, now), msg)
  {
  }

  lemma EvictThenEnqueueGetsIn(c: Config, s: State, msg: Message, now: nat)
    requires s.total == Bytes(s.queue) && c.hwm > 0 && c.policy == DropOld && !HasSpace(c, s.total)
    ensures GotIn(c, s, Enqueue(c, Evict(c, s), msg, now), msg)
  {
    EvictFrame(c, s);
    EnqueueGetsIn(c, Evict(c, s), msg, now);
  }

  /**
    Which messages get in: on an open queue, under kBlock when there is space or the message fits, under
    kDropNew and kFailFast only when both hold, under kDropOld always. A message that does not get in
    leaves no trace.
   */
  lemma PushAdmitsIff(c: Config, s: State, msg: Message, now: nat)
    requires s.total == Bytes(s.queue)
    ensures
      var (s', out, sig) := Push(c, s, msg, now);
      var space, fits := c.hwm == 0 || s.total < c.hwm, c.hwm == 0 || s.total + |msg| <= c.hwm;
      && (out.Enqueued? <==> !s.closed && match c.policy
            case Block => space || fits
            case DropOld => true
            case _ => space && fits)
      && (out.PushClosed? <==> s.closed)
      && (if out.Enqueued? then GotIn(c, s, s', msg) else s' == s)
  {
    EnqueueGetsIn(c, s, msg, now);
    if c.policy == DropOld && !HasSpace(c, s.total) { EvictThenEnqueueGetsIn(c, s, msg, now); }
  }

  /** The bytes left in the queue and the new message exceed the mark; the bytes left alone do not reach it. */
  ghost predicate Exceeds(c: Config, left: seq<Entry>, msg: Message) {
    c.hwm - |msg| < Bytes(left) < c.hwm
  }

  lemma {:induction false} SuffixIsLighter(q: seq<Entry>, j: nat, k: nat)
    requires j <= k <= |q|
    ensures Bytes(q[k..]) <= Bytes(q[j..])
    decreases k
  {
    if j == k {
    } else {
      SuffixIsLighter(q, j, k - 1);
      assert q[k - 1..][1..] == q[k..];
    }
  }

  /** What kDropOld leaves is the longest suffix below the mark, and so the heaviest. */
  lemma EvictedExceedsIff(c: Config, s: State, msg: Message)
    requires s.total == Bytes(s.queue) && c.hwm > 0
    ensures Evict(c, s).total + |msg| > c.hwm
       <==> exists k | 0 <= k <= |s.queue| :: Exceeds(c, s.queue[k..], msg)
  {
    EvictsShortestPrefix(c, s);
    var k0 := Removed(s, Evict(c, s));
    if Evict(c, s).total + |msg| > c.hwm { assert Exceeds(c, s.queue[k0..], msg); }
    forall k | 0 <= k <= |s.queue| && Exceeds(c, s.queue[k..], msg)
      ensures Evict(c, s).total + |msg| > c.hwm
    {
      if k >= k0 { SuffixIsLighter(s.queue, k0, k); }
    }
  }

  /** An admitted push enqueues, under kDropOld after the eviction. */
  lemma AdmittedPush(c: Config, s: State, msg: Message, now: nat)
    requires Push(c, s, msg, now).1.Enqueued? && c.hwm > 0
    ensures Push(c, s, msg, now).0.total == (if c.policy == DropOld then Evict(c, s).total else s.total) + |msg|
    ensures c.policy == Block || c.policy == DropOld || (s.total < c.hwm && s.total + |msg| <= c.hwm)
  {
  }

  /**
    When an admitted message takes the queue above its mark. Under the two policies that refuse what does not
    fit: never. Under kBlock: when it does not fit. Under kDropOld, whose eviction stops too early: when
    some suffix of the queue is itself below the mark but not with the message.
   */
  lemma OvershootsIff(c: Config, s: State, msg: Message, now: nat)
    requires s.total == Bytes(s.queue) && c.hwm > 0 && Push(c, s, msg, now).1.Enqueued?
    ensures Push(c, s, msg, now).0.total > c.hwm
       <==> match c.policy
            case Block => s.total + |msg| > c.hwm
            case DropOld => exists k | 0 <= k <= |s.queue| :: Exceeds(c, s.queue[k..], msg)
            case _ => false
  {
    AdmittedPush(c, s, msg, now);
    if c.policy == DropOld { EvictedExceedsIff(c, s, msg); }
  }

  /** `pop` and `try_pop` deliver the oldest message that is still alive, and leave the live ones after it. */
  lemma TakesOldestLive(c: Config, s: State, now: nat)
    requires Inv(c, s)
    ensures
      var live := Keep(s.queue, DeadAt(now));
      var (s', out) := Take(s, now);
      if live == [] then s'.queue == [] && (out == if s.closed then PopClosed else AllExpired) && s'.popped == s.popped
      else out == Delivered(live[0].msg) && s'.queue == live[1..] && s'.popped == s.popped + [live[0].msg]
  {
    var t := s.(clock := now);
    ExpiredFirst(c, s, now);
    SkipIsKeep(s.queue, DeadAt(now));
    SkipIsSkipFront(t, now);
    SkipFrame(t, now);
  }

  /** What `pop` answers, and what it leaves: the answer is the message that the history gains. */
  lemma PopAnswers(c: Config, s: State, now: nat)
    requires Inv(c, s)
    ensures
      var live := Keep(s.queue, DeadAt(now));
      var (s', out, _) := Pop(s, now);
      if s.queue == [] then s' == s && out == (if s.closed then PopClosed else PopMustWait)
      else if live == [] then
        out == (if s.closed then PopClosed else AllExpired) && s'.queue == [] && s'.popped == s.popped
      else out == Delivered(live[0].msg) && s'.queue == live[1..] && s'.popped == s.popped + [live[0].msg]
  {
    TakesOldestLive(c, s, now);
  }

  /** The same of `try_pop`, which answers nothing exactly when nothing is alive. */
  lemma TryPopAnswers(c: Config, s: State, now: nat)
    requires Inv(c, s)
    ensures
      var live := Keep(s.queue, DeadAt(now));
      var (s', out, _) := TryPop(s, now);
      if live == [] then out == None && s'.queue == [] && s'.popped == s.popped
      else out == Some(live[0].msg) && s'.queue == live[1..] && s'.popped == s.popped + [live[0].msg]
  {
    TakesOldestLive(c, s, now);
  }

  /** What `push` answers when it does not let a message in: each policy its own refusal. */
  lemma PushAnswers(c: Config, s: State, msg: Message, now: nat)
    requires s.total == Bytes(s.queue)
    ensures
      var out := Push(c, s, msg, now).1;
      var space, fits := c.hwm == 0 || s.total < c.hwm, c.hwm == 0 || s.total + |msg| <= c.hwm;
      && (out == PushClosed <==> s.closed)
      && (out == DroppedNew <==> !s.closed && c.policy == DropNew && !(space && fits))
      && (out == WouldBlock <==> !s.closed && c.policy == FailFast && !(space && fits))
      && (out == PushMustWait <==> !s.closed && c.policy == Block && !space && !fits)
  {
  }

  /** How long an admitted message lives: for the TTL from the clock reading of its push, or for ever. */
  lemma AdmittedLives(c: Config, s: State, msg: Message, now: nat, later: nat)
    requires Push(c, s, msg, now).1.Enqueued?
    ensures
      var s' := Push(c, s, msg, now).0;
      && s'.queue != []
      && (IsExpired(s'.queue[|s'.queue| - 1], later) <==> c.ttl > 0 && later > now + c.ttl)
  {
  }
}
