/** The pipe object: the critical sections of `QosPipe`, updating its fields in place. */
module QosPipe {
  import opened Common
  import opened Expiry
  import Q = QosQueue

  class QosPipe {
    const qos: Q.Options
    var sendQueue: seq<Q.Stamped>
    var sendBytes: int
    var sendCount: int
    var running: bool
    ghost var clock: nat
    ghost var accepted: seq<Q.Stamped>
    ghost var fates: seq<Q.Fate>
    ghost var handed: seq<Message>

    ghost function View(): Q.State
      reads this
    {
      Q.State(sendQueue, sendBytes, sendCount, running, clock, accepted, fates, handed)
    }

    constructor (qos: Q.Options)
      ensures View() == Q.START && this.qos == qos
    {
      this.qos := qos;
      sendQueue, sendBytes, sendCount, running := [], 0, 0, true;
      clock, accepted, fates, handed := 0, [], [], [];
    }

    method PopFront(ghost fate: Q.Fate)
      requires sendQueue != []
      modifies `sendQueue, `sendBytes, `sendCount, `fates
      ensures View() == Q.DropFront(old(View()), fate)
    {
      sendBytes := sendBytes - |sendQueue[0].msg|;
      sendCount := sendCount - 1;
      sendQueue := sendQueue[1..];
      fates := fates + [fate];
    }

    /** `send` once it holds the lock; `MustWait` stands for waiting on `send_cv_`. */
    method SendLocked(msg: Message, now: nat) returns (r: Q.SendOutcome)
      modifies this
      ensures View() == Q.Send(qos, old(View()), msg, now).0
      ensures r == Q.Send(qos, old(View()), msg, now).1
    {
      if sendBytes >= qos.hwm {
        match qos.policy {
          case FailFast => return Q.Refused;
          case DropNew => return Q.Dropped;
          case DropOld => if sendQueue != [] { PopFront(Q.Evicted); }
          case Block => return Q.MustWait;
        }
      }
      sendQueue := sendQueue + [Q.Stamped(msg, now)];
      sendBytes := sendBytes + |msg|;
      sendCount := sendCount + 1;
      clock, accepted := now, accepted + [Q.Stamped(msg, now)];
      return Q.Accepted;
    }

    /** What it takes for a message to be queued. */
    ghost predicate GetsIn(msg: Message)
      reads this
    {
      running && |msg| <= qos.hwm && (sendBytes < qos.hwm || qos.policy == DropOld)
    }

    /**
      A whole `send` that nothing disturbs. Ok does not mean queued: kDropNew says Ok at the mark as well.
      Every other answer means that the message was not queued, and says why.
     */
    method Send(msg: Message, now: nat) returns (r: Result<()>)
      modifies this
      ensures old(GetsIn(msg)) ==> r.Ok? && accepted == old(accepted) + [Q.Stamped(msg, now)]
      ensures !old(GetsIn(msg)) ==> View() == old(View())
      ensures r.Ok? && !old(GetsIn(msg)) ==> qos.policy == DropNew && old(running) && |msg| <= qos.hwm
      ensures r == Err(Closed) <==> !old(running)
      ensures r == Err(InvalidArgument) <==> old(running) && |msg| > qos.hwm
      ensures r == Err(IoError) ==> qos.policy == FailFast && old(sendBytes) >= qos.hwm
      ensures r == Err(Timeout) ==> qos.policy == Block && old(sendBytes) >= qos.hwm
      ensures r != Err(ProtocolError)
      ensures old(GetsIn(msg)) && Q.Inv(qos, old(View())) && old(clock) <= now ==>
        Q.Inv(qos, View()) && handed == old(handed)
    {
      if !running {
        return Err(Closed);
      }
      if |msg| > qos.hwm {
        return Err(InvalidArgument);
      }
      ghost var s := View();
      var out := SendLocked(msg, now);
      if s.clock <= now && Q.Inv(qos, s) { Q.SendKeeps(qos, s, msg, now); }
      match out {
        case Refused => return Err(IoError);
        case MustWait => return Err(Timeout);
        case _ => return Ok(());
      }
    }

    /**
      `remove_if` over the queue and the `erase` after it: survivors are moved down onto the slots of the
      dead, and the counters are taken down for each of the dead on the way.
     */
    method RemoveExpired(now: nat)
      modifies `sendQueue, `sendBytes, `sendCount
      ensures sendQueue == Keep(old(sendQueue), Q.DeadAt(qos, now))
      ensures sendBytes == old(sendBytes) - (Q.Bytes(old(sendQueue)) - Q.Bytes(sendQueue))
      ensures sendCount == old(sendCount) - (|old(sendQueue)| - |sendQueue|)
    {
      ghost var q0 := sendQueue;
      ghost var kept: seq<Q.Stamped> := [];
      var write := 0;
      for read := 0 to |sendQueue|
        invariant 0 <= write <= read && |sendQueue| == |q0|
        invariant kept == sendQueue[..write] && kept == Keep(q0[..read], Q.DeadAt(qos, now))
        invariant sendQueue[read..] == q0[read..]
        invariant sendBytes == old(sendBytes) - (Q.Bytes(q0[..read]) - Q.Bytes(kept))
        invariant sendCount == old(sendCount) - (read - write)
      {
        var e := sendQueue[read];
        DropHead(sendQueue, read);
        DropHead(q0, read);
        KeepStep(qos, q0, read, now);
        if now - e.at > qos.ttl {
          sendBytes := sendBytes - |e.msg|;
          sendCount := sendCount - 1;
        } else {
          StoreBelow(sendQueue, write, e, read + 1);
          sendQueue := sendQueue[write := e];
          write := write + 1;
          kept := kept + [e];
        }
      }
      assert q0[..|q0|] == q0;
      sendQueue := sendQueue[..write];
    }

    static lemma KeepStep(o: Q.Options, q: seq<Q.Stamped>, i: nat, now: nat)
      requires i < |q|
      ensures
        var dead := Q.DeadAt(o, now);
        var kept := Keep(q[..i], dead);
        && Keep(q[..i + 1], dead) == (if now - q[i].at > o.ttl then kept else kept + [q[i]])
        && Q.Bytes(q[..i + 1]) == Q.Bytes(q[..i]) + |q[i].msg|
        && Q.Bytes(kept + [q[i]]) == Q.Bytes(kept) + |q[i].msg|
    {
      var dead := Q.DeadAt(o, now);
      assert q[..i + 1] == q[..i] + [q[i]];
      KeepSnoc(q[..i], q[i], dead);
      Q.BytesConcat(q[..i], [q[i]]);
      Q.BytesConcat(Keep(q[..i], dead), [q[i]]);
    }

    /** The worker's TTL pass, if there is a TTL. */
    method ExpireQueue(now: nat)
      modifies `sendQueue, `sendBytes, `sendCount, `clock, `fates
      ensures View() == Q.Expire(qos, old(View()), now)
    {
      if qos.ttl > 0 {
        var n := |sendQueue|;
        RemoveExpired(now);
        clock := now;
        fates := fates + Repeat(n - |sendQueue|, Q.Expired);
      }
    }

    /**
      One turn of the worker from the end of its wait. `r` is what the underlying pipe answers, if it is
      asked at all; `asked` says whether it was.
     */
    method WorkerRound(now: nat, later: nat, r: Q.Underlying) returns (asked: bool)
      modifies this
      ensures View() == Q.Round(qos, old(View()), now, later, r)
      ensures
        var left := if qos.ttl > 0 then Keep(old(sendQueue), Q.DeadAt(qos, now)) else old(sendQueue);
        var bytes := if qos.ttl > 0 then old(sendBytes) - (Q.Bytes(old(sendQueue)) - Q.Bytes(left)) else old(sendBytes);
        && (asked <==>
              && old(running) && left != [] && bytes < qos.hwm
              && (qos.ttl <= 0 || later - left[0].at <= qos.ttl))
        && (if !old(running) then View() == old(View())
            else if asked && r.Sent? then
              running && sendQueue == left[1..] && handed == old(handed) + [left[0].msg]
            else
              && sendQueue == left && handed == old(handed)
              && (running <==> !(asked && r.Fatal?)))
    {
      asked := false;
      if !running {
        return;
      }
      ExpireQueue(now);
      if sendQueue != [] {
        var front := sendQueue[0];
        if !(qos.ttl > 0 && later - front.at > qos.ttl) && sendBytes < qos.hwm {
          asked := true;
          match r {
            case Sent =>
              handed := handed + [front.msg];
              PopFront(Q.HandedOver);
            case Fatal => running := false;
            case Temporary =>
          }
        }
      }
    }

    method Close()
      modifies `running
      ensures View() == old(View()).(running := false)
    {
      running := false;
    }
  }
}
