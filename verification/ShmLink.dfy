/** The two rings of a connection, driven by a client and a server process. */
module ShmLink {
  import opened Common
  import opened RingProtocol
  import opened RingSafety

  /**
    `ShmLayout` with its four semaphores; then history, for each of the two sides: the messages its own
    `send` has returned Ok for, and the messages its own `recv` has returned.
   */
  datatype Link = Link(
    c2s: State, s2c: State,
    clientSent: seq<Message>, serverSent: seq<Message>, clientGot: seq<Message>, serverGot: seq<Message>)

  /** A protocol step taken by the client or by the server, in its `send` or in its `recv`. */
  datatype Move = Move(isClient: bool, act: Action)

  /** `tx` is c2s for the client and s2c for the server; `rx` is the other one. */
  ghost predicate UsesC2s(m: Move) {
    if m.act.ByProducer() then m.isClient else !m.isClient
  }

  ghost predicate CanMove(l: Link, m: Move) {
    if UsesC2s(m) then Enabled(l.c2s, m.act) else Enabled(l.s2c, m.act)
  }

  /** What a step makes `send` confirm, if it is the last one of a successful call. */
  ghost function Confirms(s: State, a: Action): seq<Message>
    requires Enabled(s, a)
  {
    if a.PostItem? && Next(s, a).prod.SendIdle? then [s.prod.msg] else []
  }

  /** What a step makes `recv` return, if it is the last one of a successful call. */
  ghost function Returns(s: State, a: Action): seq<Message>
    requires Enabled(s, a)
  {
    if a.PostSpace? && Next(s, a).cons.RecvIdle? then [s.cons.msg] else []
  }

  ghost function MoveTo(l: Link, m: Move): Link
    requires CanMove(l, m)
  {
    var ring := if UsesC2s(m) then l.c2s else l.s2c;
    var l1 := if UsesC2s(m) then l.(c2s := Next(ring, m.act)) else l.(s2c := Next(ring, m.act));
    if m.isClient then
      l1.(clientSent := l.clientSent + Confirms(ring, m.act), clientGot := l.clientGot + Returns(ring, m.act))
    else
      l1.(serverSent := l.serverSent + Confirms(ring, m.act), serverGot := l.serverGot + Returns(ring, m.act))
  }

  ghost predicate Moves(l: Link, run: seq<Move>, l': Link)
    decreases |run|
  {
    if run == [] then l == l'
    else CanMove(l, run[0]) && Moves(MoveTo(l, run[0]), run[1..], l')
  }

  ghost predicate Fresh(l: Link) {
    && Init(l.c2s) && Init(l.s2c)
    && l.clientSent == [] && l.serverSent == [] && l.clientGot == [] && l.serverGot == []
  }

  /** The steps of a run that touch one of the two rings. */
  ghost function Touching(c2s: bool, run: seq<Move>): seq<Action> {
    if run == [] then []
    else (if UsesC2s(run[0]) == c2s then [run[0].act] else []) + Touching(c2s, run[1..])
  }

  /** The directions are independent: each ring goes through a run of its own, unaware of the other. */
  lemma {:induction false} DirectionsAreIndependent(l: Link, run: seq<Move>, l': Link)
    requires Moves(l, run, l')
    ensures Steps(l.c2s, Touching(true, run), l'.c2s)
    ensures Steps(l.s2c, Touching(false, run), l'.s2c)
    decreases |run|
  {
    if run == [] {
    } else {
      DirectionsAreIndependent(MoveTo(l, run[0]), run[1..], l');
      var mine, rest := [run[0].act], Touching(UsesC2s(run[0]), run[1..]);
      TailOfSum(mine, rest);
      assert Touching(UsesC2s(run[0]), run) == mine + rest;
      assert Touching(!UsesC2s(run[0]), run) == Touching(!UsesC2s(run[0]), run[1..]);
    }
  }

  /** Each side's history is the history of the ring it uses for that. */
  ghost predicate Logged(l: Link) {
    && l.clientSent == l.c2s.acked && l.serverGot == l.c2s.received
    && l.serverSent == l.s2c.acked && l.clientGot == l.s2c.received
  }

  lemma StepLogs(s: State, a: Action)
    requires Enabled(s, a)
    ensures Next(s, a).acked == s.acked + Confirms(s, a)
    ensures Next(s, a).received == s.received + Returns(s, a)
  {
  }

  lemma ProducerReturnsNothing(s: State, a: Action)
    requires Enabled(s, a)
    ensures if a.ByProducer() then Returns(s, a) == [] else Confirms(s, a) == []
  {
  }

  lemma {:induction false} RunIsLogged(l: Link, run: seq<Move>, l': Link)
    requires Logged(l) && Moves(l, run, l')
    ensures Logged(l')
    decreases |run|
  {
    if run == [] {
    } else {
      var ring := if UsesC2s(run[0]) then l.c2s else l.s2c;
      StepLogs(ring, run[0].act);
      ProducerReturnsNothing(ring, run[0].act);
      RunIsLogged(MoveTo(l, run[0]), run[1..], l');
    }
  }

  /** What has been received had been confirmed: an item is posted only in the step that ends the send. */
  lemma ReceivedWasConfirmed(s: State)
    requires Reachable(s)
    ensures s.received <= s.acked
  {
    ReachableInv(s);
    assert |s.received| <= s.taken <= |s.acked|;
    assert s.received == s.sent[..|s.received|] && s.acked == s.sent[..|s.acked|];
  }

  /**
    In every run of the connection, whatever the two processes do in both directions at once, what either
    side's `recv` returned is a prefix of what the other side's `send` confirmed, and no error branch is
    taken.
   */
  lemma LinkIsReliable(l0: Link, run: seq<Move>, l: Link)
    requires Fresh(l0) && Moves(l0, run, l)
    ensures l.clientGot <= l.serverSent && l.serverGot <= l.clientSent
    ensures !l.c2s.cons.RecvTooLarge? && !l.c2s.cons.RecvReleaseError? && !l.c2s.prod.SendReleaseError?
    ensures !l.s2c.cons.RecvTooLarge? && !l.s2c.cons.RecvReleaseError? && !l.s2c.prod.SendReleaseError?
  {
    DirectionsAreIndependent(l0, run, l);
    RunIsLogged(l0, run, l);
    assert Reachable(l.c2s) && Reachable(l.s2c);
    ReceivedWasConfirmed(l.c2s);
    ReceivedWasConfirmed(l.s2c);
    ErrorBranchesUnreachable(l.c2s);
    ErrorBranchesUnreachable(l.s2c);
  }
}
