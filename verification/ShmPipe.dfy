/**
  `ShmPipe` over its mapped memory, updated in place. A call here runs from start to end with nothing in
  between; the methods' contracts say that it then does what the protocol of RingProtocol does.
 */
module ShmPipe {
  import opened Common
  import opened RingProtocol
  import opened RingSafety
  import opened RingCapacity

  /** One `Ring` and its two semaphores. Slot `i` is `lens[i]` and row `i` of `data`. */
  class Ring {
    const capped: bool
    var head: U32
    var tail: U32
    const lens: array<U32>
    const data: array2<Byte>
    var spaces: nat
    var items: nat
    ghost var sent: seq<Message>
    ghost var acked: seq<Message>
    ghost var taken: nat
    ghost var received: seq<Message>

    ghost predicate Shaped() {
      lens.Length == SLOT_COUNT && data.Length0 == SLOT_COUNT && data.Length1 == SLOT_PAYLOAD_MAX
    }

    ghost function SlotAt(i: nat): Slot
      requires Shaped() && i < SLOT_COUNT
      reads lens, data
    {
      Slot(lens[i], seq(SLOT_PAYLOAD_MAX, k requires 0 <= k < SLOT_PAYLOAD_MAX && Shaped() reads data => data[i, k]))
    }

    ghost function SlotsNow(): Slots
      requires Shaped()
      reads lens, data
    {
      seq(SLOT_COUNT, i requires 0 <= i < SLOT_COUNT && Shaped() reads lens, data => SlotAt(i))
    }

    /** The protocol state this ring is in between calls. */
    ghost function View(): State
      requires Shaped()
      reads this, lens, data
    {
      State(capped, Memory(head, tail, SlotsNow()), spaces, items, SendIdle, RecvIdle, sent, acked, taken, received)
    }

    ghost predicate Valid()
      reads this, lens, data
    {
      Shaped() && Inv(View())
    }

    constructor (capped: bool)
      ensures Valid() && fresh(lens) && fresh(data) && Init(View())
      ensures Init(View()) && this.capped == capped
    {
      this.capped := capped;
      head, tail := 0, 0;
      lens := new U32[SLOT_COUNT](i => 0);
      data := new Byte[SLOT_COUNT, SLOT_PAYLOAD_MAX]((i, k) => 0);
      spaces, items := SLOT_COUNT, 0;
      sent, acked, taken, received := [], [], 0, [];
      new;
      InitInv(View());
    }

    /** Stores the length and copies `msg` to the start of row `i`; the rest of the row is left alone. */
    method StoreMessage(i: nat, msg: Message)
      requires Shaped() && i < SLOT_COUNT && |msg| <= SLOT_PAYLOAD_MAX
      modifies lens, data
      ensures SlotsNow() == old(SlotsNow())[i := Filled(old(SlotAt(i)), msg)]
    {
      lens[i] := |msg|;
      for k := 0 to |msg|
        invariant lens[i] == |msg| && forall x | 0 <= x < SLOT_COUNT && x != i :: lens[x] == old(lens[x])
        invariant forall x, y | 0 <= x < SLOT_COUNT && 0 <= y < SLOT_PAYLOAD_MAX ::
          data[x, y] == if x == i && y < k then msg[y] else old(data[x, y])
      {
        data[i, k] := msg[k];
      }
      assert SlotAt(i).data == msg + old(SlotAt(i)).data[|msg|..];
      forall j | 0 <= j < SLOT_COUNT && j != i
        ensures SlotAt(j) == old(SlotAt(j))
      {
        assert SlotAt(j).data == old(SlotAt(j)).data;
      }
    }

    /** Reads the first `len` bytes of row `i`. */
    method LoadMessage(i: nat, len: nat) returns (m: Message)
      requires Shaped() && i < SLOT_COUNT && len <= SLOT_PAYLOAD_MAX
      ensures m == SlotAt(i).data[..len]
    {
      m := [];
      for k := 0 to len
        invariant m == SlotAt(i).data[..k]
      {
        m := m + [data[i, k]];
      }
    }

    /** The counts of a ring that nobody is using. */
    static lemma IdleCounts(s: State)
      requires Inv(s) && s.prod.SendIdle? && s.cons.RecvIdle?
      ensures s.spaces + s.items == SLOT_COUNT && s.items + s.taken == |s.sent|
    {
    }

    static lemma SendOutcome(s: State, msg: Message)
      requires Inv(s) && s.prod.SendIdle? && s.cons.RecvIdle? && s.spaces > 0 && |msg| <= SLOT_PAYLOAD_MAX
      ensures Steps(s, SendRun(msg), SendEffect(s, msg)) && Inv(SendEffect(s, msg))
    {
      SendAlone(s, msg);
      RunKeepsInv(s, SendRun(msg), SendEffect(s, msg));
    }

    static lemma RecvOutcome(s: State)
      requires Inv(s) && s.prod.SendIdle? && s.cons.RecvIdle? && s.items > 0
      ensures
        var slot := s.mem.slots[SlotIndex(s.mem.tail)];
        && slot.len <= SLOT_PAYLOAD_MAX
        && s.taken < |s.sent| && slot.data[..slot.len] == s.sent[s.taken]
        && Steps(s, RecvRun(slot.len), RecvEffect(s, s.sent[s.taken]))
        && Inv(RecvEffect(s, s.sent[s.taken]))
    {
      RecvAlone(s);
      RunKeepsInv(s, RecvRun(|s.sent[s.taken]|), RecvEffect(s, s.sent[s.taken]));
    }

    /** Alone on a full ring, `send` can only time out. */
    method Send(msg: Message) returns (r: Result<()>)
      requires Valid()
      modifies this, lens, data
      ensures Valid()
      ensures r == if |msg| > 65536 then Err(InvalidArgument)
                   else if |old(sent)| - old(taken) == 64 then Err(Timeout) else Ok(())
      ensures r.Err? ==> View() == old(View())
      ensures r.Ok? ==>
        && |msg| <= SLOT_PAYLOAD_MAX && old(spaces) > 0
        && View() == SendEffect(old(View()), msg) && Steps(old(View()), SendRun(msg), View())
    {
      ghost var was := View();
      IdleCounts(was);
      if |msg| > SLOT_PAYLOAD_MAX {
        return Err(InvalidArgument);
      }
      if spaces == 0 {
        return Err(Timeout);
      }
      SendOutcome(was, msg);
      spaces := spaces - 1;
      var idx := SlotIndex(head);
      StoreMessage(idx, msg);
      head := Increment(head);
      sent := sent + [msg];
      if capped && items >= SLOT_COUNT {
        assert false;
        return Err(IoError);
      }
      items := items + 1;
      acked := acked + [msg];
      assert View() == SendEffect(was, msg);
      return Ok(());
    }

    /** Alone on an empty ring, `recv` can only time out. */
    method Recv() returns (r: Result<Message>)
      requires Valid()
      modifies this
      ensures Valid()
      ensures r == if old(taken) == |old(sent)| then Err(Timeout) else Ok(old(sent)[old(taken)])
      ensures r.Err? ==> View() == old(View())
      ensures r.Ok? ==>
        && old(items) > 0
        && View() == RecvEffect(old(View()), r.value) && Steps(old(View()), RecvRun(|r.value|), View())
    {
      ghost var was := View();
      IdleCounts(was);
      if items == 0 {
        return Err(Timeout);
      }
      RecvOutcome(was);
      items := items - 1;
      var idx := SlotIndex(tail);
      var len := lens[idx];
      assert was.mem.slots[idx] == SlotAt(idx);
      if len > SLOT_PAYLOAD_MAX {
        assert false;
        return Err(ProtocolError);
      }
      var m := LoadMessage(idx, len);
      tail := Increment(tail);
      taken := taken + 1;
      if capped && spaces >= SLOT_COUNT {
        assert false;
        return Err(IoError);
      }
      spaces := spaces + 1;
      received := received + [m];
      assert View() == RecvEffect(was, m);
      return Ok(m);
    }
  }

  /** One end of a connection: it sends on one ring and receives on the other. */
  class Pipe {
    const c2s: Ring
    const s2c: Ring
    const isClient: bool
    var open: bool

    constructor (c2s: Ring, s2c: Ring, isClient: bool)
      ensures this.c2s == c2s && this.s2c == s2c && this.isClient == isClient && open
    {
      this.c2s, this.s2c, this.isClient, open := c2s, s2c, isClient, true;
    }

    ghost predicate Valid()
      reads this, c2s, s2c, c2s.lens, c2s.data, s2c.lens, s2c.data
    {
      && c2s.Valid() && s2c.Valid()
      && c2s != s2c && c2s.lens != s2c.lens && c2s.data != s2c.data
    }

    function Tx(): Ring {
      if isClient then c2s else s2c
    }

    function Rx(): Ring {
      if isClient then s2c else c2s
    }

    /** The client sends on c2s, the server on s2c; that ring changes only on success, the other one never. */
    method Send(msg: Message) returns (r: Result<()>)
      requires Valid()
      modifies Tx(), Tx().lens, Tx().data
      ensures Valid()
      ensures
        var tx, rx := if isClient then c2s else s2c, if isClient then s2c else c2s;
        && (r == if !open then Err(Closed)
                 else if |msg| > 65536 then Err(InvalidArgument)
                 else if |old(tx.sent)| - old(tx.taken) == 64 then Err(Timeout)
                 else Ok(()))
        && (r.Err? ==> tx.View() == old(tx.View()))
        && (r.Ok? ==> old(tx.spaces) > 0 && tx.View() == SendEffect(old(tx.View()), msg))
        && rx.View() == old(rx.View())
    {
      if !open {
        return Err(Closed);
      }
      r := Tx().Send(msg);
    }

    /** The client receives on s2c, the server on c2s. */
    method Recv() returns (r: Result<Message>)
      requires Valid()
      modifies Rx()
      ensures Valid()
      ensures
        var rx, tx := if isClient then s2c else c2s, if isClient then c2s else s2c;
        && (r == if !open then Err(Closed)
                 else if old(rx.taken) == |old(rx.sent)| then Err(Timeout)
                 else Ok(old(rx.sent)[old(rx.taken)]))
        && (r.Err? ==> rx.View() == old(rx.View()))
        && (r.Ok? ==> old(rx.items) > 0 && rx.View() == RecvEffect(old(rx.View()), r.value))
        && tx.View() == old(tx.View())
    {
      if !open {
        return Err(Closed);
      }
      r := Rx().Recv();
    }

    method Close()
      modifies this
      ensures !open
    {
      open := false;
    }
  }

  /** A call of one of the two ends: `send` of a message, or `recv`. */
  datatype Call = Sends(byClient: bool, msg: Message) | Receives(byClient: bool)

  /** Two idle rings hold what was confirmed on them, and what was received from them is the older part. */
  lemma IdleRing(s: State)
    requires Inv(s) && s.prod.SendIdle? && s.cons.RecvIdle?
    ensures s.acked == s.sent && s.received == s.sent[..s.taken]
  {
  }

  /**
    Two ends over the same two rings, in any sequence of calls by either: what each end received is a prefix
    of what the other end's `send` confirmed, and a `recv` that finds nothing says so.
   */
  method Exchange(client: Pipe, server: Pipe, calls: seq<Call>)
    returns (clientSent: seq<Message>, serverSent: seq<Message>, clientGot: seq<Message>, serverGot: seq<Message>)
    requires client.Valid() && client.isClient && !server.isClient
    requires client.c2s == server.c2s && client.s2c == server.s2c
    requires Init(client.c2s.View()) && Init(client.s2c.View())
    modifies client.c2s, client.c2s.lens, client.c2s.data, client.s2c, client.s2c.lens, client.s2c.data
    ensures clientGot <= serverSent && serverGot <= clientSent
    ensures |serverSent| <= |clientGot| + SLOT_COUNT && |clientSent| <= |serverGot| + SLOT_COUNT
  {
    clientSent, serverSent, clientGot, serverGot := [], [], [], [];
    for i := 0 to |calls|
      invariant client.Valid() && server.Valid()
      invariant clientSent == client.c2s.acked && serverGot == client.c2s.received
      invariant serverSent == client.s2c.acked && clientGot == client.s2c.received
    {
      match calls[i] {
        case Sends(byClient, msg) =>
          var r := (if byClient then client else server).Send(msg);
          if r.Ok? {
            if byClient { clientSent := clientSent + [msg]; } else { serverSent := serverSent + [msg]; }
          }
        case Receives(byClient) =>
          var r := (if byClient then client else server).Recv();
          if r.Ok? {
            if byClient { clientGot := clientGot + [r.value]; } else { serverGot := serverGot + [r.value]; }
          }
      }
    }
    IdleRing(client.c2s.View());
    IdleRing(client.s2c.View());
  }
}
