/** What every step of the ring protocol keeps, and what follows for every run. */
module RingSafety {
  import opened Common
  import opened RingProtocol

  /** 1 while the producer owns a space that it has not yet turned into an item. */
  function HeldSpaces(p: Producer): nat {
    if p.SendIdle? || p.SendWaiting? then 0 else 1
  }

  /** 1 while the consumer owns an item that it has not yet turned back into a space. */
  function HeldItems(c: Consumer): nat {
    if c.RecvIdle? || c.RecvWaiting? then 0 else 1
  }

  /** 1 between the head store and the post that announces it. */
  function Unannounced(p: Producer): nat {
    if p.SendStored? then 1 else 0
  }

  /** 1 between taking an item and the tail store. */
  function Reading(c: Consumer): nat {
    if c.RecvHolding? || c.RecvLoaded? || c.RecvCopying? then 1 else 0
  }

  ghost predicate Conserved(s: State) {
    && s.spaces + s.items + HeldSpaces(s.prod) + HeldItems(s.cons) == SLOT_COUNT
    && s.items + Unannounced(s.prod) + Reading(s.cons) + s.taken == |s.sent|
  }

  ghost predicate CountersAgree(s: State) {
    && s.mem.head == |s.sent| % U32_RANGE
    && s.mem.tail == s.taken % U32_RANGE
  }

  ghost predicate Holds(slot: Slot, m: Message) {
    && |m| <= SLOT_PAYLOAD_MAX
    && slot.len == |m|
    && forall k | 0 <= k < |m| :: slot.data[k] == m[k]
  }

  /** Every message between tail and head sits, whole, in its slot. */
  ghost predicate WindowIntact(s: State) {
    && s.taken <= |s.sent|
    && forall j | s.taken <= j < |s.sent| :: Holds(s.mem.slots[j % SLOT_COUNT], s.sent[j])
  }

  ghost predicate ProducerOk(s: State) {
    match s.prod
    case SendWaiting(m) => |m| <= SLOT_PAYLOAD_MAX && s.acked == s.sent
    case SendHolding(m) => |m| <= SLOT_PAYLOAD_MAX && s.acked == s.sent
    case SendLoaded(m, h) =>
      |m| <= SLOT_PAYLOAD_MAX && h == |s.sent| % U32_RANGE && s.acked == s.sent
    case SendCopying(m, h, copied) =>
      var slot := s.mem.slots[|s.sent| % SLOT_COUNT];
      && |m| <= SLOT_PAYLOAD_MAX && h == |s.sent| % U32_RANGE && s.acked == s.sent
      && slot.len == |m|
      && forall k: nat | k in copied :: k < |m| && slot.data[k] == m[k]
    case SendStored(m) => s.sent == s.acked + [m]
    case SendIdle => s.acked == s.sent
    case SendReleaseError => false
  }

  ghost predicate ConsumerOk(s: State)
    requires s.taken <= |s.sent|
  {
    match s.cons
    case RecvLoaded(t) => s.received == s.sent[..s.taken] && t == s.taken % U32_RANGE
    case RecvCopying(t, len, got) =>
      && s.received == s.sent[..s.taken] && t == s.taken % U32_RANGE
      && s.taken < |s.sent|
      && len == |s.sent[s.taken]| <= SLOT_PAYLOAD_MAX
      && forall k: nat | k in got :: k < len && got[k] == s.sent[s.taken][k]
    case RecvStored(m) => s.received + [m] == s.sent[..s.taken]
    case RecvTooLarge => false
    case RecvReleaseError => false
    case _ => s.received == s.sent[..s.taken]
  }

  ghost predicate Inv(s: State) {
    Conserved(s) && CountersAgree(s) && WindowIntact(s) && ProducerOk(s) && ConsumerOk(s)
  }

  // ---- Arithmetic of the counters ----

  /** Going round the ring any number of times ends at the same slot. */
  lemma WholeRounds(a: nat, k: nat)
    ensures (a + SLOT_COUNT * k) % SLOT_COUNT == a % SLOT_COUNT
  {
    assert a + SLOT_COUNT * k == SLOT_COUNT * (a / SLOT_COUNT + k) + a % SLOT_COUNT;
  }

  /** The slot of the wrapped counter is the slot of the true counter: 64 divides 2^32. */
  lemma SlotOfWrapped(n: nat)
    ensures SlotIndex(n % U32_RANGE) == n % SLOT_COUNT
  {
    var q := n / U32_RANGE;
    assert n == n % U32_RANGE + SLOT_COUNT * (67108864 * q);
    WholeRounds(n % U32_RANGE, 67108864 * q);
  }

  lemma IncrementWrapped(n: nat)
    ensures Increment(n % U32_RANGE) == (n + 1) % U32_RANGE
  {
  }

  /** Two counters less than a ring apart use different slots. */
  lemma DistinctSlots(j: nat, n: nat)
    requires j < n < j + SLOT_COUNT
    ensures j % SLOT_COUNT != n % SLOT_COUNT
  {
  }

  // ---- The invariant holds in every reachable state ----

  lemma InitInv(s: State)
    requires Init(s)
    ensures Inv(s)
  {
  }

  lemma WriteKeepsWindow(s: State, slot: Slot)
    requires Conserved(s) && WindowIntact(s) && HeldSpaces(s.prod) == 1 && Unannounced(s.prod) == 0
    ensures
      var slots := s.mem.slots[|s.sent| % SLOT_COUNT := slot];
      forall j | s.taken <= j < |s.sent| :: Holds(slots[j % SLOT_COUNT], s.sent[j])
  {
    forall j | s.taken <= j < |s.sent|
      ensures j % SLOT_COUNT != |s.sent| % SLOT_COUNT
    {
      DistinctSlots(j, |s.sent|);
    }
  }

  lemma WriteLenKeepsInv(s: State)
    requires Inv(s) && Enabled(s, WriteLen)
    ensures Inv(Next(s, WriteLen))
  {
    var n := |s.sent|;
    SlotOfWrapped(n);
    var slot := s.mem.slots[n % SLOT_COUNT].(len := |s.prod.msg|);
    WriteKeepsWindow(s, slot);
    var s' := Next(s, WriteLen);
    assert s'.mem.slots == s.mem.slots[n % SLOT_COUNT := slot];
    assert WindowIntact(s');
  }

  lemma CopyInKeepsInv(s: State, k: nat)
    requires Inv(s) && Enabled(s, CopyIn(k))
    ensures Inv(Next(s, CopyIn(k)))
  {
    var n := |s.sent|;
    SlotOfWrapped(n);
    var slot := s.mem.slots[n % SLOT_COUNT];
    WriteKeepsWindow(s, slot.(data := slot.data[k := s.prod.msg[k]]));
  }

  lemma StoreHeadKeepsInv(s: State)
    requires Inv(s) && Enabled(s, StoreHead)
    ensures Inv(Next(s, StoreHead))
  {
    var n := |s.sent|;
    IncrementWrapped(n);
    var s' := Next(s, StoreHead);
    forall j | s.taken <= j < |s'.sent|
      ensures Holds(s'.mem.slots[j % SLOT_COUNT], s'.sent[j])
    {
      if j < n { assert Holds(s.mem.slots[j % SLOT_COUNT], s.sent[j]); }
    }
    assert s'.sent[..s.taken] == s.sent[..s.taken];
  }

  lemma ProducerKeepsInv(s: State, a: Action)
    requires Inv(s) && Enabled(s, a) && a.ByProducer()
    ensures Inv(Next(s, a))
  {
    match a
    case WriteLen => WriteLenKeepsInv(s);
    case CopyIn(k) => CopyInKeepsInv(s, k);
    case StoreHead => StoreHeadKeepsInv(s);
    case _ =>
  }

  lemma StoreTailKeepsInv(s: State)
    requires Inv(s) && Enabled(s, StoreTail)
    ensures Inv(Next(s, StoreTail))
  {
    IncrementWrapped(s.taken);
    assert Collected(s.cons.len, s.cons.got) == s.sent[s.taken];
    assert s.sent[..s.taken + 1] == s.sent[..s.taken] + [s.sent[s.taken]];
  }

  lemma CopyOutKeepsInv(s: State, k: nat)
    requires Inv(s) && Enabled(s, CopyOut(k))
    ensures Inv(Next(s, CopyOut(k)))
  {
    SlotOfWrapped(s.taken);
    assert Holds(s.mem.slots[s.taken % SLOT_COUNT], s.sent[s.taken]);
  }

  lemma ConsumerKeepsInv(s: State, a: Action)
    requires Inv(s) && Enabled(s, a) && !a.ByProducer()
    ensures Inv(Next(s, a))
  {
    match a
    case ReadLen =>
      SlotOfWrapped(s.taken);
      assert Holds(s.mem.slots[s.taken % SLOT_COUNT], s.sent[s.taken]);
    case CopyOut(k) => CopyOutKeepsInv(s, k);
    case StoreTail => StoreTailKeepsInv(s);
    case _ =>
  }

  lemma StepKeepsInv(s: State, a: Action)
    requires Inv(s) && Enabled(s, a)
    ensures Inv(Next(s, a))
  {
    if a.ByProducer() { ProducerKeepsInv(s, a); } else { ConsumerKeepsInv(s, a); }
  }

  lemma {:induction false} RunKeepsInv(s: State, run: seq<Action>, s': State)
    requires Inv(s) && Steps(s, run, s')
    ensures Inv(s')
    decreases |run|
  {
    if run == [] {
    } else {
      StepKeepsInv(s, run[0]);
      RunKeepsInv(Next(s, run[0]), run[1..], s');
    }
  }

  lemma ReachableInv(s: State)
    requires Reachable(s)
    ensures Inv(s)
  {
    var s0, run :| Init(s0) && Steps(s0, run, s);
    InitInv(s0);
    RunKeepsInv(s0, run, s);
  }

  // ---- What it means for every run ----

  /**
    FIFO without tearing: what `recv` returned is a prefix, byte for byte, of the messages whose head
    store completed, in that order; so is what `send` confirmed, and the rest is still in the ring.
   */
  lemma FifoNoTearing(s: State)
    requires Reachable(s)
    ensures s.received <= s.sent && s.acked <= s.sent
    ensures |s.sent| <= |s.acked| + 1
    ensures |s.sent| <= |s.received| + SLOT_COUNT
  {
    ReachableInv(s);
  }

  /** No space is created or lost, and the window never outgrows the ring. */
  lemma Conservation(s: State)
    requires Reachable(s)
    ensures s.spaces + s.items + HeldSpaces(s.prod) + HeldItems(s.cons) == 64
    ensures s.taken <= |s.sent| <= s.taken + 64
    ensures s.mem.head == |s.sent| % 0x1_0000_0000 && s.mem.tail == s.taken % 0x1_0000_0000
  {
    ReachableInv(s);
  }

  /** While both processes are inside a slot, it is not the same slot. */
  lemma Exclusion(s: State)
    requires Reachable(s)
    requires s.prod.SendLoaded? || s.prod.SendCopying?
    requires s.cons.RecvLoaded? || s.cons.RecvCopying?
    ensures SlotIndex(s.prod.head) != SlotIndex(s.cons.tail)
  {
    ReachableInv(s);
    SlotOfWrapped(|s.sent|);
    SlotOfWrapped(s.taken);
    DistinctSlots(s.taken, |s.sent|);
  }

  /**
    Neither release can exceed the cap, capped or not, so no error branch is ever taken: not the
    oversized slot length, not a failed release of either semaphore.
   */
  lemma ErrorBranchesUnreachable(s: State)
    requires Reachable(s)
    ensures s.prod.SendStored? ==> s.items < SLOT_COUNT
    ensures s.cons.RecvStored? ==> s.spaces < SLOT_COUNT
    ensures !s.prod.SendReleaseError?
    ensures !s.cons.RecvTooLarge? && !s.cons.RecvReleaseError?
    ensures s.cons.RecvLoaded? ==> s.mem.slots[SlotIndex(s.cons.tail)].len <= SLOT_PAYLOAD_MAX
  {
    ReachableInv(s);
    if s.cons.RecvLoaded? {
      SlotOfWrapped(s.taken);
      assert Holds(s.mem.slots[s.taken % SLOT_COUNT], s.sent[s.taken]);
    }
  }

  /** The two processes never block each other: one of the two semaphores can always be taken. */
  lemma NoDeadlock(s: State)
    requires Reachable(s) && s.prod.SendWaiting? && s.cons.RecvWaiting?
    ensures Enabled(s, AcquireSpace) || Enabled(s, AcquireItem)
  {
    ReachableInv(s);
  }
}
