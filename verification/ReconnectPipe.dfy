/**
  The pipe object: the critical sections of `ReconnectPipe` on its fields. Each is tied to the function of
  ReconnectProtocol that the runs are made of.
 */
module ReconnectPipe {
  import opened Common
  import opened ReconnectProtocol

  class ReconnectPipe {
    var closed: bool
    var permanentlyFailed: bool
    var everConnected: bool
    var inner: Option<Conn>
    // How often the condition variable has been signalled; always with notify_all.
    var notified: nat

    ghost function View(): Fields
      reads this
    {
      Fields(closed, permanentlyFailed, everConnected, inner)
    }

    constructor ()
      ensures View() == FRESH
    {
      closed, permanentlyFailed, everConnected, inner, notified := false, false, false, None, 0;
    }

    /** The connection moved out, for the caller to close outside the lock. */
    method Close() returns (toClose: Option<Conn>)
      modifies this
      ensures (View(), toClose) == CloseFields(old(View()))
      ensures notified == old(notified) + if old(closed) then 0 else 1
    {
      if closed {
        return None;
      }
      closed := true;
      toClose := inner;
      inner := None;
      notified := notified + 1;
    }

    /** `wait_connected` once it holds the lock and stops waiting. */
    method LeaveWaiting() returns (r: WaitResult)
      ensures r == LeaveWait(View())
      ensures r == WaitClosed <==> closed
      ensures r == Exhausted <==> !closed && permanentlyFailed
      ensures r == WaitResult.Connected <==> !closed && !permanentlyFailed && inner != None
      ensures r == WaitTimedOut <==> !closed && !permanentlyFailed && inner == None
    {
      if !(closed || inner != None || permanentlyFailed) {
        return WaitTimedOut;
      }
      if closed {
        return WaitClosed;
      }
      if permanentlyFailed {
        return Exhausted;
      }
      return WaitResult.Connected;
    }

    method MarkDisconnected(which: Conn) returns (toClose: Option<Conn>)
      modifies this
      ensures (View(), toClose) == MarkFields(old(View()), which)
      ensures notified == old(notified) + if toClose.Some? then 1 else 0
    {
      if closed {
        return None;
      }
      if inner == None {
        return None;
      }
      if inner != Some(which) {
        return None;
      }
      toClose := inner;
      inner := None;
      notified := notified + 1;
    }

    method InstallConnection(c: Conn)
      modifies this
      ensures View() == InstallFields(old(View()), c) && notified == old(notified) + 1
    {
      inner := Some(c);
      everConnected := true;
      notified := notified + 1;
    }

    method GiveUp()
      modifies this
      ensures View() == FailFields(old(View())) && notified == old(notified) + 1
    {
      permanentlyFailed := true;
      notified := notified + 1;
    }

    /**
      The loop of `send` and `recv`, fed with what each round meets: the fields when the wait ends, the
      fields when the snapshot is taken, and how the use of the connection ends. The result is the call
      that the protocol's own steps make of the same encounters.
     */
    static method CallLoop(met: seq<Encounter>) returns (call: Call)
      ensures call == Play(NEW_CALL, met)
    {
      call := NEW_CALL;
      var i := 0;
      while i < |met|
        invariant 0 <= i <= |met| && call.pc.Awaiting?
        invariant Play(call, met[i..]) == Play(NEW_CALL, met)
      {
        var e := met[i];
        assert met[i..][1..] == met[i + 1..];
        i := i + 1;
        call := call.(left := Some(e.atWait));
        if !CanLeaveWait(e.atWait) {
          return call.(pc := Returned(CallTimeout));
        }
        if e.atWait.closed {
          return call.(pc := Returned(CallClosed));
        }
        if e.atWait.failed {
          return call.(pc := Returned(CallExhausted));
        }
        if e.atSnap.inner == None {
          continue;
        }
        var snapshot := e.atSnap.inner.value;
        call := call.(tried := call.tried + [snapshot], outcomes := call.outcomes + [e.outcome]);
        if e.outcome == Success {
          return call.(pc := Returned(CallOk));
        }
        if e.outcome == UseTimedOut {
          return call.(pc := Returned(CallTimeout));
        }
        if e.outcome == Disconnected {
          continue;
        }
        return call.(pc := Returned(CallError));
      }
    }
  }

  datatype Encounter = Encounter(atWait: Fields, atSnap: Fields, outcome: Outcome)

  /** The protocol's call steps, one after another, until the call returns or the script ends. */
  function Play(call: Call, met: seq<Encounter>): Call
    requires call.pc.Awaiting?
    decreases |met|
  {
    if met == [] then call
    else
      var waited := AfterWait(call, met[0].atWait);
      if waited.pc.Returned? then waited
      else
        var snapped := AfterSnap(waited, met[0].atSnap);
        if snapped.pc.Awaiting? then Play(snapped, met[1..])
        else
          var used := AfterUse(snapped, met[0].outcome);
          if used.pc.Marking? then Play(AfterMark(used), met[1..]) else used
  }

  /** An encounter after which the call goes on: it met a live pipe, and no connection or a disconnect. */
  ghost predicate Passes(e: Encounter) {
    && !e.atWait.closed && !e.atWait.failed && e.atWait.inner.Some?
    && (e.atSnap.inner.None? || e.outcome == Disconnected)
  }

  /** What one encounter uses: the connection at the snapshot, unless the wait already ended the call. */
  ghost function UseOf(e: Encounter): seq<(Conn, Outcome)> {
    if !e.atWait.closed && !e.atWait.failed && e.atWait.inner.Some? && e.atSnap.inner.Some?
    then [(e.atSnap.inner.value, e.outcome)]
    else []
  }

  /** The connections used in some encounters, and how they were. */
  ghost function Uses(met: seq<Encounter>): seq<(Conn, Outcome)> {
    if met == [] then [] else UseOf(met[0]) + Uses(met[1..])
  }

  ghost predicate Logs(call: Call, uses: seq<(Conn, Outcome)>) {
    && |call.tried| == |call.outcomes| == |uses|
    && forall i | 0 <= i < |uses| :: call.tried[i] == uses[i].0 && call.outcomes[i] == uses[i].1
  }

  /**
    What the loop makes of its encounters. It goes on past those that pass, as long as they last; the first
    that does not decides the answer; and it has used the connections met up to there, each once.
   */
  lemma RoundLogs(call: Call, e: Encounter, before: seq<(Conn, Outcome)>)
    requires call.pc.Awaiting? && Logs(call, before)
    ensures
      var waited := AfterWait(call, e.atWait);
      if waited.pc.Returned? then UseOf(e) == [] && Logs(waited, before)
      else
        var snapped := AfterSnap(waited, e.atSnap);
        if snapped.pc.Awaiting? then UseOf(e) == [] && Logs(snapped, before)
        else
          var used := AfterUse(snapped, e.outcome);
          Logs(used, before + UseOf(e)) && Logs(AfterMark(used), before + UseOf(e))
  {
  }

  lemma {:induction false} PlayEnds(call: Call, before: seq<(Conn, Outcome)>, met: seq<Encounter>) returns (k: nat)
    requires call.pc.Awaiting? && Logs(call, before)
    ensures k <= |met| && forall i | 0 <= i < k :: Passes(met[i])
    ensures k == |met| ==> Play(call, met).pc == Awaiting && Logs(Play(call, met), before + Uses(met))
    ensures k < |met| ==>
      var e, pc := met[k], Play(call, met).pc;
      && !Passes(e) && Logs(Play(call, met), before + Uses(met[..k + 1]))
      && (pc == Returned(CallClosed) <==> e.atWait.closed)
      && (pc == Returned(CallExhausted) <==> !e.atWait.closed && e.atWait.failed)
      && (!e.atWait.closed && !e.atWait.failed ==>
            if e.atWait.inner.None? then pc == Returned(CallTimeout)
            else
              match e.outcome
              case Success => pc == Returned(CallOk)
              case UseTimedOut => pc == Returned(CallTimeout)
              case OtherError => pc == Returned(CallError)
              case Disconnected => false)
    decreases |met|
  {
    if met == [] {
      k := 0;
    } else {
      var first := UseOf(met[0]);
      assert Uses(met[..1]) == first by { assert met[..1][1..] == []; }
      assert before + [] == before;
      RoundLogs(call, met[0], before);
      if Passes(met[0]) {
        var snapped := AfterSnap(AfterWait(call, met[0].atWait), met[0].atSnap);
        var next := if snapped.pc.Awaiting? then snapped else AfterMark(AfterUse(snapped, met[0].outcome));
        var rest := PlayEnds(next, before + first, met[1..]);
        k := rest + 1;
        Regroup(before, first, Uses(met[1..]));
        if k < |met| {
          assert met[..k + 1][1..] == met[1..][..rest + 1];
          Regroup(before, first, Uses(met[1..][..rest + 1]));
        }
      } else {
        k := 0;
      }
    }
  }
}
