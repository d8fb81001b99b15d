/** The ring refines a first-in first-out queue of SLOT_COUNT messages, for runs of any length. */
module RingRefinement {
  import opened Common
  import opened RingProtocol
  import opened RingSafety

  // ---- The abstract queue ----

  datatype FifoOp = Enqueue(msg: Message) | Dequeue(msg: Message) | Skip

  ghost predicate FifoStep(q: seq<Message>, op: FifoOp, q': seq<Message>) {
    match op
    case Enqueue(m) => |q| < SLOT_COUNT && q' == q + [m]
    case Dequeue(m) => q != [] && m == q[0] && q' == q[1..]
    case Skip => q' == q
  }

  // ---- Reading the queue off the shared memory alone ----

  function Decode(slot: Slot): Message {
    slot.data[..if slot.len <= SLOT_PAYLOAD_MAX then slot.len else SLOT_PAYLOAD_MAX]
  }

  /** The number of messages between tail and head, in unsigned 32-bit arithmetic. */
  function Used(mem: Memory): nat {
    (mem.head - mem.tail) % U32_RANGE
  }

  function Contents(mem: Memory): seq<Message> {
    seq(Used(mem), i requires 0 <= i => Decode(mem.slots[SlotIndex((mem.tail + i) % U32_RANGE)]))
  }

  /** Which queue operation a protocol step performs: only the two counter stores do anything. */
  ghost function Meaning(s: State, a: Action): FifoOp
    requires Enabled(s, a)
  {
    match a
    case StoreHead => Enqueue(s.prod.msg)
    case StoreTail => Dequeue(Collected(s.cons.len, s.cons.got))
    case _ => Skip
  }

  lemma UsedIsWindow(s: State)
    requires Inv(s)
    ensures Used(s.mem) == |s.sent| - s.taken <= SLOT_COUNT
  {
    var h, t := |s.sent|, s.taken;
    var qh, qt := h / U32_RANGE, t / U32_RANGE;
    assert s.mem.head == h - U32_RANGE * qh && s.mem.tail == t - U32_RANGE * qt;
    if qh == qt {
    } else {
      assert qh == qt + 1;
    }
  }

  lemma SlotOfOffset(tail: nat, i: nat)
    ensures SlotIndex((tail % U32_RANGE + i) % U32_RANGE) == (tail + i) % SLOT_COUNT
  {
    var q := tail / U32_RANGE;
    var n := tail % U32_RANGE + i;
    SlotOfWrapped(n);
    assert tail + i == n + SLOT_COUNT * (67108864 * q);
    WholeRounds(n, 67108864 * q);
  }

  lemma DecodeHolds(slot: Slot, m: Message)
    requires Holds(slot, m)
    ensures Decode(slot) == m
  {
  }

  lemma ContentsAt(s: State, i: nat)
    requires Inv(s) && i < |s.sent| - s.taken == Used(s.mem)
    ensures Contents(s.mem)[i] == s.sent[s.taken + i]
  {
    var j := s.taken + i;
    SlotOfOffset(s.taken, i);
    assert s.mem.tail == s.taken % U32_RANGE;
    DecodeHolds(s.mem.slots[j % SLOT_COUNT], s.sent[j]);
  }

  /** The memory holds exactly the messages sent and not yet taken, even after the counters wrap. */
  lemma ContentsAreWindow(s: State)
    requires Inv(s)
    ensures Contents(s.mem) == s.sent[s.taken..]
  {
    UsedIsWindow(s);
    forall i | 0 <= i < |s.sent| - s.taken
      ensures Contents(s.mem)[i] == s.sent[s.taken..][i]
    {
      ContentsAt(s, i);
    }
  }

  lemma StoreHeadMovesWindow(s: State)
    requires Inv(s) && Enabled(s, StoreHead)
    ensures |s.sent| - s.taken < SLOT_COUNT
    ensures (s.sent + [s.prod.msg])[s.taken..] == s.sent[s.taken..] + [s.prod.msg]
  {
  }

  lemma StoreTailMovesWindow(s: State)
    requires Inv(s) && Enabled(s, StoreTail)
    ensures s.taken < |s.sent| && Collected(s.cons.len, s.cons.got) == s.sent[s.taken]
    ensures s.sent[s.taken..][1..] == s.sent[s.taken + 1..]
  {
    assert Collected(s.cons.len, s.cons.got) == s.sent[s.taken];
  }

  lemma StepMovesWindow(s: State, a: Action)
    requires Inv(s) && Enabled(s, a) && Next(s, a).taken <= |Next(s, a).sent|
    ensures FifoStep(s.sent[s.taken..], Meaning(s, a), Next(s, a).sent[Next(s, a).taken..])
  {
    if a.StoreHead? {
      StoreHeadMovesWindow(s);
    } else if a.StoreTail? {
      StoreTailMovesWindow(s);
    }
  }

  /** Every step of the protocol is a step of the queue. */
  lemma StepRefines(s: State, a: Action)
    requires Inv(s) && Enabled(s, a)
    ensures FifoStep(Contents(s.mem), Meaning(s, a), Contents(Next(s, a).mem))
  {
    StepKeepsInv(s, a);
    ContentsAreWindow(s);
    ContentsAreWindow(Next(s, a));
    StepMovesWindow(s, a);
  }

  ghost predicate FifoRun(q: seq<Message>, ops: seq<FifoOp>, q': seq<Message>)
    decreases |ops|
  {
    if ops == [] then q == q'
    else exists mid :: FifoStep(q, ops[0], mid) && FifoRun(mid, ops[1..], q')
  }

  ghost function Meanings(s: State, run: seq<Action>, s': State): (ops: seq<FifoOp>)
    requires Steps(s, run, s')
    decreases |run|
  {
    if run == [] then []
    else [Meaning(s, run[0])] + Meanings(Next(s, run[0]), run[1..], s')
  }

  /** Every run of the protocol, seen through the shared memory, is a run of the queue. */
  lemma {:induction false} RunRefines(s: State, run: seq<Action>, s': State)
    requires Inv(s) && Steps(s, run, s')
    ensures FifoRun(Contents(s.mem), Meanings(s, run, s'), Contents(s'.mem))
    decreases |run|
  {
    if run == [] {
    } else {
      StepRefines(s, run[0]);
      StepKeepsInv(s, run[0]);
      RunRefines(Next(s, run[0]), run[1..], s');
      var ops := Meanings(s, run, s');
      assert ops[1..] == Meanings(Next(s, run[0]), run[1..], s');
    }
  }

  function Enqueued(ops: seq<FifoOp>): seq<Message> {
    if ops == [] then [] else (if ops[0].Enqueue? then [ops[0].msg] else []) + Enqueued(ops[1..])
  }

  function Dequeued(ops: seq<FifoOp>): seq<Message> {
    if ops == [] then [] else (if ops[0].Dequeue? then [ops[0].msg] else []) + Dequeued(ops[1..])
  }

  /** What the consumer has taken out of the ring: returned by `recv`, or in its hands. */
  function TakenOut(s: State): seq<Message> {
    if s.cons.RecvStored? then s.received + [s.cons.msg] else s.received
  }

  lemma ConsTraffic(op: FifoOp, rest: seq<FifoOp>, sent: seq<Message>, out: seq<Message>)
    ensures sent + Enqueued([op] + rest) == sent + (if op.Enqueue? then [op.msg] else []) + Enqueued(rest)
    ensures out + Dequeued([op] + rest) == out + (if op.Dequeue? then [op.msg] else []) + Dequeued(rest)
  {
  }

  lemma SentTraffic(s: State, a: Action)
    requires Enabled(s, a)
    ensures Next(s, a).sent == s.sent + (if a.StoreHead? then [s.prod.msg] else [])
  {
  }

  /** Returning a message does not change what has been taken out. */
  lemma ReturnedTraffic(s: State)
    requires Conserved(s) && Enabled(s, PostSpace)
    ensures TakenOut(Next(s, PostSpace)) == TakenOut(s)
  {
    assert s.spaces < SLOT_COUNT;
  }

  lemma TakenTraffic(s: State, a: Action)
    requires Conserved(s) && Enabled(s, a)
    ensures TakenOut(Next(s, a))
         == TakenOut(s) + (if a.StoreTail? then [Collected(s.cons.len, s.cons.got)] else [])
  {
    if a.PostSpace? { ReturnedTraffic(s); }
  }

  lemma StepTraffic(s: State, a: Action)
    requires Inv(s) && Enabled(s, a)
    ensures
      var s', op := Next(s, a), Meaning(s, a);
      && s'.sent == s.sent + (if op.Enqueue? then [op.msg] else [])
      && TakenOut(s') == TakenOut(s) + (if op.Dequeue? then [op.msg] else [])
  {
    SentTraffic(s, a);
    TakenTraffic(s, a);
  }

  /** The queue operations carry the real traffic: what is sent goes in, what is received came out. */
  lemma {:induction false} RunTraffic(s: State, run: seq<Action>, s': State)
    requires Inv(s) && Steps(s, run, s')
    ensures s'.sent == s.sent + Enqueued(Meanings(s, run, s'))
    ensures TakenOut(s') == TakenOut(s) + Dequeued(Meanings(s, run, s'))
    decreases |run|
  {
    if run == [] {
    } else {
      var mid := Next(s, run[0]);
      StepTraffic(s, run[0]);
      StepKeepsInv(s, run[0]);
      RunTraffic(mid, run[1..], s');
      ConsTraffic(Meaning(s, run[0]), Meanings(mid, run[1..], s'), s.sent, TakenOut(s));
    }
  }

  lemma FreshRing(s: State)
    requires Init(s)
    ensures Inv(s) && Contents(s.mem) == [] && s.sent == [] && TakenOut(s) == []
  {
    InitInv(s);
    ContentsAreWindow(s);
  }

  lemma SentIsTakenAndHeld(s: State)
    requires Inv(s)
    ensures s.sent == TakenOut(s) + Contents(s.mem)
  {
    ContentsAreWindow(s);
    assert TakenOut(s) == s.sent[..s.taken];
  }

  /** From a fresh ring: the run is a queue run from empty that moves exactly this ring's traffic. */
  lemma RingRefinesFifo(s0: State, run: seq<Action>, s: State)
    requires Init(s0) && Steps(s0, run, s)
    ensures FifoRun([], Meanings(s0, run, s), Contents(s.mem))
    ensures Enqueued(Meanings(s0, run, s)) == s.sent
    ensures Dequeued(Meanings(s0, run, s)) == TakenOut(s)
    ensures s.sent == TakenOut(s) + Contents(s.mem)
  {
    FreshRing(s0);
    RunRefines(s0, run, s);
    RunTraffic(s0, run, s);
    RunKeepsInv(s0, run, s);
    SentIsTakenAndHeld(s);
  }
}
