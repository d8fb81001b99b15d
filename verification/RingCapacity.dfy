/** Calls that run alone, and how many of them a ring takes before one must wait. */
module RingCapacity {
  import opened Common
  import opened RingProtocol
  import opened RingSafety

  // ---- Runs compose ----

  lemma {:induction false} StepsCompose(s: State, run: seq<Action>, mid: State, more: seq<Action>, s': State)
    requires Steps(s, run, mid) && Steps(mid, more, s')
    ensures Steps(s, run + more, s')
    decreases |run|
  {
    if run == [] {
      assert run + more == more;
    } else {
      StepsCompose(Next(s, run[0]), run[1..], mid, more, s');
      TailOfSum(run, more);
    }
  }

  lemma StepsSnoc(s: State, run: seq<Action>, mid: State, a: Action)
    requires Steps(s, run, mid) && Enabled(mid, a)
    ensures Steps(s, run + [a], Next(mid, a))
  {
    assert Steps(Next(mid, a), [a][1..], Next(mid, a));
    StepsCompose(s, run, mid, [a], Next(mid, a));
  }

  lemma TwoSteps(s: State, a: Action, b: Action)
    requires Enabled(s, a) && Enabled(Next(s, a), b)
    ensures Steps(s, [a, b], Next(Next(s, a), b))
  {
    var s2 := Next(Next(s, a), b);
    assert Steps(s2, [b][1..], s2);
    assert [a, b][1..] == [b];
  }

  lemma FourSteps(s: State, a: Action, b: Action, c: Action, d: Action)
    requires Enabled(s, a) && Enabled(Next(s, a), b)
    requires Enabled(Next(Next(s, a), b), c) && Enabled(Next(Next(Next(s, a), b), c), d)
    ensures Steps(s, [a, b, c, d], Next(Next(Next(Next(s, a), b), c), d))
  {
    var mid := Next(Next(s, a), b);
    TwoSteps(s, a, b);
    TwoSteps(mid, c, d);
    StepsCompose(s, [a, b], mid, [c, d], Next(Next(mid, c), d));
    assert [a, b] + [c, d] == [a, b, c, d];
  }

  // ---- A whole send ----

  /** The slot after the message has been written into it; bytes past the message are left alone. */
  function Filled(slot: Slot, m: Message): Slot
    requires |m| <= SLOT_PAYLOAD_MAX
  {
    Slot(|m|, m + slot.data[|m|..])
  }

  function SendEffect(s: State, m: Message): State
    requires |m| <= SLOT_PAYLOAD_MAX && s.spaces > 0
  {
    var i := SlotIndex(s.mem.head);
    s.(mem := s.mem.(head := Increment(s.mem.head), slots := s.mem.slots[i := Filled(s.mem.slots[i], m)]),
       spaces := s.spaces - 1, items := s.items + 1, sent := s.sent + [m], acked := s.acked + [m])
  }

  function CopyInRun(n: nat): seq<Action> {
    seq(n, i requires 0 <= i => CopyIn(i))
  }

  ghost function UpTo(n: nat): (r: set<nat>)
    ensures forall k: nat :: k in r <==> k < n
  {
    if n == 0 then {} else UpTo(n - 1) + {n - 1}
  }

  /** The state after the first `n` bytes of `m` have been copied. */
  ghost function CopiedIn(s: State, m: Message, n: nat): State
    requires n <= |m| <= SLOT_PAYLOAD_MAX && s.spaces > 0
  {
    var i := SlotIndex(s.mem.head);
    var slot := s.mem.slots[i];
    s.(mem := s.mem.(slots := s.mem.slots[i := Slot(|m|, m[..n] + slot.data[n..])]),
       spaces := s.spaces - 1, prod := SendCopying(m, s.mem.head, UpTo(n)))
  }

  lemma CopyInStep(s: State, m: Message, n: nat)
    requires n < |m| <= SLOT_PAYLOAD_MAX && s.spaces > 0
    ensures Enabled(CopiedIn(s, m, n), CopyIn(n))
    ensures Next(CopiedIn(s, m, n), CopyIn(n)) == CopiedIn(s, m, n + 1)
  {
    var i := SlotIndex(s.mem.head);
    var data := s.mem.slots[i].data;
    assert (m[..n] + data[n..])[n := m[n]] == m[..n + 1] + data[n + 1..];
    assert UpTo(n) + {n} == UpTo(n + 1);
    var slots := CopiedIn(s, m, n).mem.slots;
    assert slots[i := slots[i].(data := slots[i].data[n := m[n]])] == CopiedIn(s, m, n + 1).mem.slots;
  }

  lemma {:induction false} CopyInRuns(s: State, m: Message, n: nat)
    requires n <= |m| <= SLOT_PAYLOAD_MAX && s.spaces > 0
    ensures Steps(CopiedIn(s, m, 0), CopyInRun(n), CopiedIn(s, m, n))
  {
    if n == 0 {
    } else {
      CopyInRuns(s, m, n - 1);
      CopyInStep(s, m, n - 1);
      StepsSnoc(CopiedIn(s, m, 0), CopyInRun(n - 1), CopiedIn(s, m, n - 1), CopyIn(n - 1));
      assert CopyInRun(n) == CopyInRun(n - 1) + [CopyIn(n - 1)];
    }
  }

  function SendRun(m: Message): seq<Action> {
    [BeginSend(m), AcquireSpace, LoadHead, WriteLen] + CopyInRun(|m|) + [StoreHead, PostItem]
  }

  lemma SendOpens(s: State, m: Message)
    requires s.prod.SendIdle? && |m| <= SLOT_PAYLOAD_MAX && s.spaces > 0
    ensures Steps(s, [BeginSend(m), AcquireSpace, LoadHead, WriteLen], CopiedIn(s, m, 0))
  {
    var s1 := Next(s, BeginSend(m));
    var s2 := Next(s1, AcquireSpace);
    var s3 := Next(s2, LoadHead);
    var s4 := Next(s3, WriteLen);
    var i := SlotIndex(s.mem.head);
    assert s.mem.slots[i].data == m[..0] + s.mem.slots[i].data[0..];
    assert s4.mem == CopiedIn(s, m, 0).mem;
    assert s4 == CopiedIn(s, m, 0);
    FourSteps(s, BeginSend(m), AcquireSpace, LoadHead, WriteLen);
  }

  lemma SendCloses(s: State, m: Message)
    requires s.prod.SendIdle? && |m| <= SLOT_PAYLOAD_MAX && s.spaces > 0
    requires s.capped ==> s.items < SLOT_COUNT
    ensures Steps(CopiedIn(s, m, |m|), [StoreHead, PostItem], SendEffect(s, m))
  {
    var c := CopiedIn(s, m, |m|);
    assert m[..|m|] == m;
    assert Enabled(c, StoreHead);
    TwoSteps(c, StoreHead, PostItem);
  }

  /** A send that meets a space and no interference is one run of the protocol, with this effect. */
  lemma SendAlone(s: State, m: Message)
    requires s.prod.SendIdle? && |m| <= SLOT_PAYLOAD_MAX && s.spaces > 0
    requires s.capped ==> s.items < SLOT_COUNT
    ensures Steps(s, SendRun(m), SendEffect(s, m))
  {
    SendOpens(s, m);
    CopyInRuns(s, m, |m|);
    SendCloses(s, m);
    var opening := [BeginSend(m), AcquireSpace, LoadHead, WriteLen];
    StepsCompose(s, opening, CopiedIn(s, m, 0), CopyInRun(|m|), CopiedIn(s, m, |m|));
    StepsCompose(s, opening + CopyInRun(|m|), CopiedIn(s, m, |m|), [StoreHead, PostItem], SendEffect(s, m));
  }

  function SendAllRun(ms: seq<Message>): seq<Action> {
    if ms == [] then [] else SendRun(ms[0]) + SendAllRun(ms[1..])
  }

  /** One more send fits while the ring is not full. */
  lemma SendOne(s: State, m: Message) returns (s': State)
    requires Inv(s) && s.prod.SendIdle? && HeldItems(s.cons) == 0 && |m| <= SLOT_PAYLOAD_MAX
    requires |s.sent| - s.taken < SLOT_COUNT
    ensures Steps(s, SendRun(m), s')
    ensures Inv(s') && s'.prod.SendIdle? && s'.cons == s.cons && s'.taken == s.taken
    ensures s'.sent == s.sent + [m]
  {
    s' := SendEffect(s, m);
    SendAlone(s, m);
    RunKeepsInv(s, SendRun(m), s');
  }

  /** The producer, between calls, must wait on its next send exactly when the ring is full. */
  lemma WaitsIffFull(s: State, m: Message)
    requires Inv(s) && s.prod.SendIdle? && HeldItems(s.cons) == 0 && |m| <= SLOT_PAYLOAD_MAX
    ensures !Enabled(Next(s, BeginSend(m)), AcquireSpace) <==> |s.sent| - s.taken == SLOT_COUNT
  {
  }

  lemma SendsJoin(s: State, m: Message, mid: State, ms: seq<Message>, s': State)
    requires Steps(s, SendRun(m), mid) && Steps(mid, SendAllRun(ms), s')
    requires mid.sent == s.sent + [m] && s'.sent == mid.sent + ms
    ensures Steps(s, SendAllRun([m] + ms), s') && s'.sent == s.sent + ([m] + ms)
  {
    TailOfCons(m, ms);
    Regroup(s.sent, [m], ms);
    StepsCompose(s, SendRun(m), mid, SendAllRun(ms), s');
  }

  lemma {:induction false} SendsFit(s: State, ms: seq<Message>) returns (s': State)
    requires Inv(s) && s.prod.SendIdle? && HeldItems(s.cons) == 0
    requires |s.sent| - s.taken + |ms| <= SLOT_COUNT
    requires forall i | 0 <= i < |ms| :: |ms[i]| <= SLOT_PAYLOAD_MAX
    ensures Steps(s, SendAllRun(ms), s')
    ensures Inv(s') && s'.prod.SendIdle? && s'.cons == s.cons && s'.taken == s.taken
    ensures s'.sent == s.sent + ms
    decreases |ms|
  {
    if ms == [] {
      s' := s;
    } else {
      var first, rest := ms[0], ms[1..];
      var mid := SendOne(s, first);
      s' := SendsFit(mid, rest);
      assert ms == [first] + rest;
      SendsJoin(s, first, mid, rest, s');
    }
  }

  /**
    Exact capacity. In a ring that holds k messages with neither process inside a call, any 64 - k
    messages can be sent, one after another, without the receiver taking a step; and it is exactly
    when all 64 - k have been sent that the next send has to wait.
   */
  lemma ExactCapacity(s: State, ms: seq<Message>) returns (s': State)
    requires Inv(s) && s.prod.SendIdle? && HeldItems(s.cons) == 0
    requires |s.sent| - s.taken + |ms| <= SLOT_COUNT
    requires forall i | 0 <= i < |ms| :: |ms[i]| <= SLOT_PAYLOAD_MAX
    ensures Steps(s, SendAllRun(ms), s') && Inv(s')
    ensures s'.acked == s.acked + ms && s'.prod.SendIdle?
    ensures forall m: Message | |m| <= SLOT_PAYLOAD_MAX ::
      !Enabled(Next(s', BeginSend(m)), AcquireSpace) <==> |s.sent| - s.taken + |ms| == SLOT_COUNT
  {
    s' := SendsFit(s, ms);
    forall m: Message | |m| <= SLOT_PAYLOAD_MAX
      ensures !Enabled(Next(s', BeginSend(m)), AcquireSpace) <==> |s.sent| - s.taken + |ms| == SLOT_COUNT
    {
      WaitsIffFull(s', m);
    }
  }

  // ---- A whole receive ----

  function RecvEffect(s: State, m: Message): State
    requires s.items > 0
  {
    s.(mem := s.mem.(tail := Increment(s.mem.tail)), items := s.items - 1, spaces := s.spaces + 1,
       taken := s.taken + 1, received := s.received + [m])
  }

  function CopyOutRun(n: nat): seq<Action> {
    seq(n, i requires 0 <= i => CopyOut(i))
  }

  ghost function CopiedOut(s: State, n: nat): State
    requires s.items > 0
    requires n <= s.mem.slots[SlotIndex(s.mem.tail)].len <= SLOT_PAYLOAD_MAX
  {
    var slot := s.mem.slots[SlotIndex(s.mem.tail)];
    s.(items := s.items - 1,
       cons := RecvCopying(s.mem.tail, slot.len, map k: nat | k < n :: slot.data[k]))
  }

  lemma {:induction false} CopyOutRuns(s: State, n: nat)
    requires s.items > 0
    requires n <= s.mem.slots[SlotIndex(s.mem.tail)].len <= SLOT_PAYLOAD_MAX
    ensures Steps(CopiedOut(s, 0), CopyOutRun(n), CopiedOut(s, n))
  {
    if n == 0 {
    } else {
      CopyOutRuns(s, n - 1);
      assert Next(CopiedOut(s, n - 1), CopyOut(n - 1)).cons.got == CopiedOut(s, n).cons.got;
      StepsSnoc(CopiedOut(s, 0), CopyOutRun(n - 1), CopiedOut(s, n - 1), CopyOut(n - 1));
      assert CopyOutRun(n) == CopyOutRun(n - 1) + [CopyOut(n - 1)];
    }
  }

  function RecvRun(len: nat): seq<Action> {
    [BeginRecv, AcquireItem, LoadTail, ReadLen] + CopyOutRun(len) + [StoreTail, PostSpace]
  }

  lemma RecvOpens(s: State)
    requires s.cons.RecvIdle? && s.items > 0 && s.mem.slots[SlotIndex(s.mem.tail)].len <= SLOT_PAYLOAD_MAX
    ensures Steps(s, [BeginRecv, AcquireItem, LoadTail, ReadLen], CopiedOut(s, 0))
  {
    var s1 := Next(s, BeginRecv);
    var s2 := Next(s1, AcquireItem);
    var s3 := Next(s2, LoadTail);
    var s4 := Next(s3, ReadLen);
    assert CopiedOut(s, 0).cons.got == map[];
    assert s4 == CopiedOut(s, 0);
    FourSteps(s, BeginRecv, AcquireItem, LoadTail, ReadLen);
  }

  lemma RecvCloses(s: State)
    requires s.cons.RecvIdle? && s.items > 0 && s.mem.slots[SlotIndex(s.mem.tail)].len <= SLOT_PAYLOAD_MAX
    requires s.capped ==> s.spaces < SLOT_COUNT
    ensures
      var slot := s.mem.slots[SlotIndex(s.mem.tail)];
      Steps(CopiedOut(s, slot.len), [StoreTail, PostSpace], RecvEffect(s, slot.data[..slot.len]))
  {
    var slot := s.mem.slots[SlotIndex(s.mem.tail)];
    var c := CopiedOut(s, slot.len);
    assert Enabled(c, StoreTail);
    assert Collected(slot.len, c.cons.got) == slot.data[..slot.len];
    TwoSteps(c, StoreTail, PostSpace);
  }

  /**
    A receive that meets an item and no interference returns the oldest message in the ring.
   */
  lemma RecvAlone(s: State)
    requires Inv(s) && s.cons.RecvIdle? && s.items > 0
    ensures s.taken < |s.sent| && Steps(s, RecvRun(|s.sent[s.taken]|), RecvEffect(s, s.sent[s.taken]))
    ensures
      var slot := s.mem.slots[SlotIndex(s.mem.tail)];
      slot.len <= SLOT_PAYLOAD_MAX && slot.data[..slot.len] == s.sent[s.taken]
  {
    SlotOfWrapped(s.taken);
    assert Holds(s.mem.slots[s.taken % SLOT_COUNT], s.sent[s.taken]);
    var slot := s.mem.slots[SlotIndex(s.mem.tail)];
    assert slot.data[..slot.len] == s.sent[s.taken];
    RecvOpens(s);
    CopyOutRuns(s, slot.len);
    RecvCloses(s);
    var opening := [BeginRecv, AcquireItem, LoadTail, ReadLen];
    StepsCompose(s, opening, CopiedOut(s, 0), CopyOutRun(slot.len), CopiedOut(s, slot.len));
    StepsCompose(s, opening + CopyOutRun(slot.len), CopiedOut(s, slot.len), [StoreTail, PostSpace],
      RecvEffect(s, s.sent[s.taken]));
  }

  function RecvAllRun(ms: seq<Message>): seq<Action> {
    if ms == [] then [] else RecvRun(|ms[0]|) + RecvAllRun(ms[1..])
  }

  /**
    Nothing is stranded: when both processes are between calls, receives alone return every message
    that was sent, in order.
   */
  lemma {:induction false} Drains(s: State) returns (s': State)
    requires Inv(s) && s.prod.SendIdle? && s.cons.RecvIdle?
    ensures Steps(s, RecvAllRun(s.sent[s.taken..]), s')
    ensures Inv(s') && s'.sent == s.sent && s'.received == s.sent && s'.spaces == SLOT_COUNT
    ensures s'.prod.SendIdle? && s'.cons.RecvIdle?
    decreases |s.sent| - s.taken
  {
    if s.taken == |s.sent| {
      s' := s;
    } else {
      var m := s.sent[s.taken];
      var mid := RecvEffect(s, m);
      RecvAlone(s);
      RunKeepsInv(s, RecvRun(|m|), mid);
      s' := Drains(mid);
      assert s.sent[s.taken..][1..] == mid.sent[mid.taken..];
      StepsCompose(s, RecvRun(|m|), mid, RecvAllRun(mid.sent[mid.taken..]), s');
    }
  }
}
