/**
  A reconnecting `send` over framed connections: the retry loop of ReconnectProtocol, with `WriteFrame` as
  the use of a connection. Each connection is a socket with its own chunking and failures.
 */
module ReconnectOverWire {
  import opened Common
  import opened WireFormat
  import opened WireIo
  import RP = ReconnectProtocol

  /** How `send` classifies what the connection reported. */
  function OutcomeOf(r: Result<()>): RP.Outcome {
    match r
    case Ok(_) => RP.Success
    case Err(Timeout) => RP.UseTimedOut
    case Err(Closed) => RP.Disconnected
    case Err(IoError) => RP.Disconnected
    case Err(_) => RP.OtherError
  }

  /** What an attempt to send `f` leaves on a wire that carried `before`, to whoever reads it to its end. */
  ghost predicate ReadsAs(wire: seq<Byte>, before: seq<Frame>, f: Frame, arrived: bool) {
    ParseStream(wire) == (if arrived then Messages(before) + [f.msg] else Messages(before), Closed)
  }

  lemma WholeArrives(before: seq<Frame>, f: Frame)
    requires AllSendable(before) && Sendable(f)
    ensures ReadsAs(Stream(before) + FrameBytes(f), before, f, true)
  {
    StreamSnoc(before, f);
    StreamRoundTrip(before + [f]);
    assert Messages(before + [f]) == Messages(before) + [f.msg];
  }

  lemma NothingArrives(before: seq<Frame>, f: Frame)
    requires AllSendable(before)
    ensures ReadsAs(Stream(before), before, f, false)
  {
    StreamRoundTrip(before);
  }

  lemma PartDoesNot(before: seq<Frame>, f: Frame, k: nat)
    requires AllSendable(before) && Sendable(f) && k < |FrameBytes(f)|
    ensures ReadsAs(Stream(before) + FrameBytes(f)[..k], before, f, false)
  {
    PartAtTheEnd(before, f, k);
  }

  /** One use of a connection: the message arrives exactly if the write returned Ok. */
  method Attempt(fd: Socket, f: Frame, ghost before: seq<Frame>) returns (outcome: RP.Outcome)
    requires AllSendable(before) && fd.outgoing == Stream(before)
    modifies fd`script, fd`outgoing
    ensures ReadsAs(fd.outgoing, before, f, outcome == RP.Success)
    ensures outcome == RP.OtherError <==> !Sendable(f)
    ensures outcome != RP.UseTimedOut
  {
    var r := WriteFrame(fd, f);
    outcome := OutcomeOf(r);
    if r.Ok? {
      WholeArrives(before, f);
    } else if r.error == InvalidArgument {
      NothingArrives(before, f);
    } else {
      ghost var k :| 0 <= k < |FrameBytes(f)| && fd.outgoing == Stream(before) + FrameBytes(f)[..k];
      PartDoesNot(before, f, k);
    }
  }

  /**
    `send` over the connections it is given one after another, newest last: it goes on to the next exactly
    after a disconnect. So the message arrives at most once over all of them: on the last one tried if that
    reported success, and nowhere otherwise; and the connections not tried are as they were.
   */
  method SendOver(conns: seq<Socket>, f: Frame, ghost before: seq<seq<Frame>>) returns (outcomes: seq<RP.Outcome>)
    requires |before| == |conns| && forall i, j | 0 <= i < j < |conns| :: conns[i] != conns[j]
    requires forall i | 0 <= i < |conns| :: AllSendable(before[i]) && conns[i].outgoing == Stream(before[i])
    modifies conns
    ensures |outcomes| <= |conns| && (conns != [] ==> outcomes != [])
    ensures forall i | 0 <= i < |outcomes| - 1 :: outcomes[i] == RP.Disconnected
    ensures |outcomes| < |conns| ==> outcomes != [] && outcomes[|outcomes| - 1] != RP.Disconnected
    ensures forall i | 0 <= i < |outcomes| ::
      ReadsAs(conns[i].outgoing, before[i], f, i == |outcomes| - 1 && outcomes[i] == RP.Success)
    ensures forall i | |outcomes| <= i < |conns| :: conns[i].outgoing == old(conns[i].outgoing)
  {
    outcomes := [];
    while |outcomes| < |conns|
      invariant |outcomes| <= |conns|
      invariant forall i | 0 <= i < |outcomes| :: outcomes[i] == RP.Disconnected
      invariant forall i | 0 <= i < |outcomes| :: ReadsAs(conns[i].outgoing, before[i], f, false)
      invariant forall i | |outcomes| <= i < |conns| :: conns[i].outgoing == old(conns[i].outgoing)
    {
      var n := |outcomes|;
      var fd := conns[n];
      label attempt:
      var outcome := Attempt(fd, f, before[n]);
      assert forall i | 0 <= i < |conns| && i != n :: conns[i].outgoing == old@attempt(conns[i].outgoing);
      outcomes := outcomes + [outcome];
      if outcome != RP.Disconnected {
        return;
      }
    }
  }
}
