/** No call is ever stranded: whatever point a run has reached, the calls can be finished and the ring drained. */
module RingProgress {
  import opened Common
  import opened RingProtocol
  import opened RingSafety
  import opened RingCapacity

  /** What will have been sent once the call in progress has finished; a call still waiting may give up. */
  function Committed(s: State): seq<Message> {
    match s.prod
    case SendHolding(m) => s.sent + [m]
    case SendLoaded(m, _) => s.sent + [m]
    case SendCopying(m, _, _) => s.sent + [m]
    case _ => s.sent
  }

  ghost predicate OnlyBy(producer: bool, run: seq<Action>) {
    forall i | 0 <= i < |run| :: run[i].ByProducer() == producer
  }

  /** How far a send is from its end, apart from the bytes to copy. */
  function SendStage(p: Producer): nat {
    match p
    case SendIdle => 0
    case SendReleaseError => 0
    case SendStored(_) => 1
    case SendWaiting(_) => 1
    case SendCopying(_, _, _) => 2
    case SendLoaded(_, _) => 3
    case SendHolding(_) => 4
  }

  ghost function BytesToSend(p: Producer): set<nat> {
    if p.SendCopying? then UpTo(|p.msg|) - p.copied else {}
  }

  /** The next step of a send in progress. It is never blocked: only a send that still waits can be. */
  ghost function SendNext(s: State): (a: Action)
    requires Inv(s) && !s.prod.SendIdle?
    ensures a.ByProducer() && Enabled(s, a)
  {
    match s.prod
    case SendWaiting(_) => SendTimeout
    case SendHolding(_) => LoadHead
    case SendLoaded(_, _) => WriteLen
    case SendCopying(m, _, copied) =>
      if UpTo(|m|) <= copied then StoreHead
      else
        var k :| k in UpTo(|m|) && k !in copied;
        CopyIn(k)
    case SendStored(_) => PostItem
  }

  lemma SendAdvances(s: State)
    requires Inv(s) && !s.prod.SendIdle?
    ensures
      var s' := Next(s, SendNext(s));
      && Inv(s') && Committed(s') == Committed(s) && s'.cons == s.cons
      && (SendStage(s'.prod) < SendStage(s.prod)
          || (SendStage(s'.prod) == SendStage(s.prod) && BytesToSend(s'.prod) < BytesToSend(s.prod)))
  {
    StepKeepsInv(s, SendNext(s));
  }

  /** A send in progress can be finished by the producer alone. */
  lemma {:induction false} FinishSend(s: State) returns (run: seq<Action>, s': State)
    requires Inv(s)
    ensures Steps(s, run, s') && OnlyBy(true, run)
    ensures Inv(s') && s'.prod.SendIdle? && s'.cons == s.cons && s'.sent == Committed(s)
    decreases SendStage(s.prod), BytesToSend(s.prod)
  {
    if s.prod.SendIdle? {
      run, s' := [], s;
    } else {
      var a := SendNext(s);
      SendAdvances(s);
      var rest, end := FinishSend(Next(s, a));
      run, s' := [a] + rest, end;
      assert run[1..] == rest;
    }
  }

  function RecvStage(c: Consumer): nat {
    match c
    case RecvIdle => 0
    case RecvTooLarge => 0
    case RecvReleaseError => 0
    case RecvWaiting => 1
    case RecvStored(_) => 1
    case RecvCopying(_, _, _) => 2
    case RecvLoaded(_) => 3
    case RecvHolding => 4
  }

  ghost function BytesToReceive(c: Consumer): set<nat> {
    if c.RecvCopying? then UpTo(c.len) - c.got.Keys else {}
  }

  ghost function RecvNext(s: State): (a: Action)
    requires Inv(s) && !s.cons.RecvIdle?
    ensures !a.ByProducer() && Enabled(s, a)
  {
    match s.cons
    case RecvWaiting => RecvTimeout
    case RecvHolding => LoadTail
    case RecvLoaded(_) => ReadLen
    case RecvCopying(_, len, got) =>
      if UpTo(len) <= got.Keys then StoreTail
      else
        var k :| k in UpTo(len) && k !in got.Keys;
        CopyOut(k)
    case RecvStored(_) => PostSpace
  }

  lemma RecvShrinks(s: State)
    requires Inv(s) && !s.cons.RecvIdle?
    ensures
      var s' := Next(s, RecvNext(s));
      || RecvStage(s'.cons) < RecvStage(s.cons)
      || (RecvStage(s'.cons) == RecvStage(s.cons) && BytesToReceive(s'.cons) < BytesToReceive(s.cons))
  {
    var a := RecvNext(s);
    if a.CopyOut? {
      var s' := Next(s, a);
      assert s'.cons.got.Keys == s.cons.got.Keys + {a.at};
      assert a.at in BytesToReceive(s.cons) && a.at !in BytesToReceive(s'.cons);
    }
  }

  lemma RecvAdvances(s: State)
    requires Inv(s) && !s.cons.RecvIdle?
    ensures Inv(Next(s, RecvNext(s)))
    ensures Next(s, RecvNext(s)).sent == s.sent && Next(s, RecvNext(s)).prod == s.prod
  {
    StepKeepsInv(s, RecvNext(s));
  }

  /** A receive in progress can be finished by the consumer alone. */
  lemma {:induction false} FinishRecv(s: State) returns (run: seq<Action>, s': State)
    requires Inv(s)
    ensures Steps(s, run, s') && OnlyBy(false, run)
    ensures Inv(s') && s'.cons.RecvIdle? && s'.prod == s.prod && s'.sent == s.sent
    decreases RecvStage(s.cons), BytesToReceive(s.cons)
  {
    if s.cons.RecvIdle? {
      run, s' := [], s;
    } else {
      var a := RecvNext(s);
      RecvAdvances(s);
      RecvShrinks(s);
      var rest, end := FinishRecv(Next(s, a));
      run, s' := [a] + rest, end;
      assert run[1..] == rest;
    }
  }

  /**
    From every reachable state the ring can be brought to rest with nothing stranded: the send and the
    receive in progress finish, and then receives alone return every message that was sent.
   */
  lemma NothingStranded(s: State) returns (run: seq<Action>, s': State)
    requires Reachable(s)
    ensures Steps(s, run, s')
    ensures s'.prod.SendIdle? && s'.cons.RecvIdle? && s'.spaces == SLOT_COUNT && s'.items == 0
    ensures s'.sent == Committed(s) && s'.acked == s'.sent && s'.received == s'.sent
  {
    ReachableInv(s);
    var run1, s1 := FinishSend(s);
    var run2, s2 := FinishRecv(s1);
    s' := Drains(s2);
    var run3 := RecvAllRun(s2.sent[s2.taken..]);
    StepsCompose(s, run1, s1, run2, s2);
    StepsCompose(s, run1 + run2, s2, run3, s');
    run := run1 + run2 + run3;
  }
}
