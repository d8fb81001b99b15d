/**
  One direction of the shared-memory transport: a ring of slots in mapped memory, two counting
  semaphores, and the two processes that use them. Every load, store, copied byte and semaphore
  operation is a step of its own, so that the producer and the consumer can be interleaved anywhere.

  Memory is sequentially consistent: the semaphores synchronise memory (POSIX.1-2017, XBD 4.12).
  There is one producer and one consumer, since the code takes no lock.
 */
module RingProtocol {
  import opened Common

  const SLOT_COUNT: nat := 64
  const SLOT_PAYLOAD_MAX: nat := 65536
  const U32_RANGE: nat := 0x1_0000_0000

  type U32 = x: int | 0 <= x < U32_RANGE

  /** `Slot::data`, a fixed array of bytes. */
  type Payload = d: seq<Byte> | |d| == SLOT_PAYLOAD_MAX
    ghost witness seq(SLOT_PAYLOAD_MAX, i => 0)

  datatype Slot = Slot(len: U32, data: Payload)

  type Slots = s: seq<Slot> | |s| == SLOT_COUNT
    ghost witness seq(SLOT_COUNT, i => Slot(0, seq(SLOT_PAYLOAD_MAX, j => 0)))

  /** `Ring`: the meta block and the slots, as both processes see them. */
  datatype Memory = Memory(head: U32, tail: U32, slots: Slots)

  /** Where the sending process is inside `ShmPipe::send`, with the locals it holds there. */
  datatype Producer =
    | SendIdle
    | SendWaiting(msg: Message)                                   // in sem_wait(spaces)
    | SendHolding(msg: Message)                                   // owns a space
    | SendLoaded(msg: Message, head: U32)                         // head read
    | SendCopying(msg: Message, head: U32, copied: set<nat>)      // len written, memcpy under way
    | SendStored(msg: Message)                                    // head stored, items not yet posted
    | SendReleaseError                                            // ReleaseSemaphore(items) failed

  /** Where the receiving process is inside `ShmPipe::recv`. */
  datatype Consumer =
    | RecvIdle
    | RecvWaiting
    | RecvHolding                                                 // owns an item
    | RecvLoaded(tail: U32)
    | RecvCopying(tail: U32, len: U32, got: map<nat, Byte>)
    | RecvStored(msg: Message)                                    // tail stored, spaces not yet posted
    | RecvTooLarge                                                // "shm slot len too large"
    | RecvReleaseError                                            // ReleaseSemaphore(spaces) failed

  /**
    The last four fields are history, read by no step: the messages whose head store completed, the
    messages whose `send` returned Ok, the number of tail stores, and the messages `recv` returned.
    `capped` says that releasing a semaphore at SLOT_COUNT fails, as it does on Windows.
   */
  datatype State = State(
    capped: bool, mem: Memory, spaces: nat, items: nat, prod: Producer, cons: Consumer,
    sent: seq<Message>, acked: seq<Message>, taken: nat, received: seq<Message>)

  /** memcpy promises no order, so `CopyIn` and `CopyOut` may take the offsets in any order. */
  datatype Action =
    | BeginSend(msg: Message) | SendTimeout | AcquireSpace | LoadHead | WriteLen
    | CopyIn(at: nat) | StoreHead | PostItem
    | BeginRecv | RecvTimeout | AcquireItem | LoadTail | ReadLen
    | CopyOut(at: nat) | StoreTail | PostSpace
  {
    predicate ByProducer() {
      BeginSend? || SendTimeout? || AcquireSpace? || LoadHead? || WriteLen? || CopyIn? || StoreHead? || PostItem?
    }
  }

  /** `create_resources`: zeroed memory, no items, SLOT_COUNT spaces. */
  ghost predicate Init(s: State) {
    && s.mem.head == 0 && s.mem.tail == 0
    && (forall i | 0 <= i < SLOT_COUNT :: s.mem.slots[i].len == 0)
    && s.spaces == SLOT_COUNT && s.items == 0
    && s.prod == SendIdle && s.cons == RecvIdle
    && s.sent == [] && s.acked == [] && s.taken == 0 && s.received == []
  }

  function SlotIndex(counter: U32): (i: nat)
    ensures i < SLOT_COUNT
  {
    counter % SLOT_COUNT
  }

  /** Unsigned 32-bit increment. */
  function Increment(counter: U32): U32 {
    (counter + 1) % U32_RANGE
  }

  ghost predicate AllIn(n: nat, offsets: set<nat>) {
    forall k: nat | k < n :: k in offsets
  }

  ghost predicate Enabled(s: State, a: Action) {
    match a
    case BeginSend(_) => s.prod.SendIdle?
    case SendTimeout => s.prod.SendWaiting?
    case AcquireSpace => s.prod.SendWaiting? && s.spaces > 0
    case LoadHead => s.prod.SendHolding?
    case WriteLen => s.prod.SendLoaded?
    case CopyIn(k) => s.prod.SendCopying? && k < |s.prod.msg| && k < SLOT_PAYLOAD_MAX
    case StoreHead => s.prod.SendCopying? && AllIn(|s.prod.msg|, s.prod.copied)
    case PostItem => s.prod.SendStored?
    case BeginRecv => s.cons.RecvIdle?
    case RecvTimeout => s.cons.RecvWaiting?
    case AcquireItem => s.cons.RecvWaiting? && s.items > 0
    case LoadTail => s.cons.RecvHolding?
    case ReadLen => s.cons.RecvLoaded?
    case CopyOut(k) => s.cons.RecvCopying? && k < s.cons.len && k < SLOT_PAYLOAD_MAX
    case StoreTail => s.cons.RecvCopying? && AllIn(s.cons.len, s.cons.got.Keys)
    case PostSpace => s.cons.RecvStored?
  }

  function SetLen(mem: Memory, i: nat, len: U32): Memory
    requires i < SLOT_COUNT
  {
    mem.(slots := mem.slots[i := mem.slots[i].(len := len)])
  }

  function SetByte(mem: Memory, i: nat, k: nat, b: Byte): Memory
    requires i < SLOT_COUNT && k < SLOT_PAYLOAD_MAX
  {
    mem.(slots := mem.slots[i := mem.slots[i].(data := mem.slots[i].data[k := b])])
  }

  /** The `len` bytes a finished copy has collected. */
  ghost function Collected(len: nat, got: map<nat, Byte>): Message
    requires AllIn(len, got.Keys)
  {
    seq(len, k requires 0 <= k < len && AllIn(len, got.Keys) => got[k])
  }

  ghost function Next(s: State, a: Action): State
    requires Enabled(s, a)
  {
    match a
    case BeginSend(m) =>
      // An oversized message is refused before the semaphore is touched.
      if |m| > SLOT_PAYLOAD_MAX then s else s.(prod := SendWaiting(m))
    case SendTimeout => s.(prod := SendIdle)
    case AcquireSpace => s.(spaces := s.spaces - 1, prod := SendHolding(s.prod.msg))
    case LoadHead => s.(prod := SendLoaded(s.prod.msg, s.mem.head))
    case WriteLen =>
      s.(mem := SetLen(s.mem, SlotIndex(s.prod.head), |s.prod.msg| % U32_RANGE),
         prod := SendCopying(s.prod.msg, s.prod.head, {}))
    case CopyIn(k) =>
      s.(mem := SetByte(s.mem, SlotIndex(s.prod.head), k, s.prod.msg[k]),
         prod := s.prod.(copied := s.prod.copied + {k}))
    case StoreHead =>
      s.(mem := s.mem.(head := Increment(s.prod.head)), sent := s.sent + [s.prod.msg],
         prod := SendStored(s.prod.msg))
    case PostItem =>
      if s.capped && s.items >= SLOT_COUNT then s.(prod := SendReleaseError)
      else s.(items := s.items + 1, prod := SendIdle, acked := s.acked + [s.prod.msg])
    case BeginRecv => s.(cons := RecvWaiting)
    case RecvTimeout => s.(cons := RecvIdle)
    case AcquireItem => s.(items := s.items - 1, cons := RecvHolding)
    case LoadTail => s.(cons := RecvLoaded(s.mem.tail))
    case ReadLen =>
      var len := s.mem.slots[SlotIndex(s.cons.tail)].len;
      if len > SLOT_PAYLOAD_MAX then s.(cons := RecvTooLarge)
      else s.(cons := RecvCopying(s.cons.tail, len, map[]))
    case CopyOut(k) =>
      s.(cons := s.cons.(got := s.cons.got[k := s.mem.slots[SlotIndex(s.cons.tail)].data[k]]))
    case StoreTail =>
      s.(mem := s.mem.(tail := Increment(s.cons.tail)), taken := s.taken + 1,
         cons := RecvStored(Collected(s.cons.len, s.cons.got)))
    case PostSpace =>
      if s.capped && s.spaces >= SLOT_COUNT then s.(cons := RecvReleaseError)
      else s.(spaces := s.spaces + 1, received := s.received + [s.cons.msg], cons := RecvIdle)
  }

  /** `s'` is reached from `s` by taking the steps `run`, each of which is enabled in its turn. */
  ghost predicate Steps(s: State, run: seq<Action>, s': State)
    decreases |run|
  {
    if run == [] then s == s'
    else Enabled(s, run[0]) && Steps(Next(s, run[0]), run[1..], s')
  }

  ghost predicate Reachable(s: State) {
    exists s0: State, run: seq<Action> :: Init(s0) && Steps(s0, run, s)
  }
}
