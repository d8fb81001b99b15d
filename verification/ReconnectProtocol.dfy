/**
  `ReconnectPipe`: a worker that dials, any number of `send` and `recv` calls that use what it dialled,
  and `close`. Every critical section is one step; so is every dial and every use of a connection, which
  happen outside the lock.
 */
module ReconnectProtocol {
  import opened Common

  type Thread = nat

  /** A connection is named by the position of its dial among all completed dials: names only grow. */
  type Conn = nat

  // ---- The fields under the lock, and what each critical section does to them ----

  datatype Fields = Fields(closed: bool, failed: bool, ever: bool, inner: Option<Conn>)

  const FRESH := Fields(false, false, false, None)

  /** `close`: moves the connection out; a second `close` does nothing. */
  function CloseFields(f: Fields): (Fields, Option<Conn>) {
    if f.closed then (f, None) else (f.(closed := true, inner := None), f.inner)
  }

  /** `mark_disconnected`: a stale error, or one after `close`, does nothing. */
  function MarkFields(f: Fields, which: Conn): (Fields, Option<Conn>) {
    if f.closed || f.inner != Some(which) then (f, None) else (f.(inner := None), Some(which))
  }

  function InstallFields(f: Fields, c: Conn): Fields {
    f.(inner := Some(c), ever := true)
  }

  function FailFields(f: Fields): Fields {
    f.(failed := true)
  }

  /** What `wait_connected` waits for. */
  predicate CanLeaveWait(f: Fields) {
    f.closed || f.inner.Some? || f.failed
  }

  datatype WaitResult = Connected | WaitClosed | Exhausted | WaitTimedOut

  function LeaveWait(f: Fields): WaitResult {
    if f.closed then WaitClosed else if f.failed then Exhausted
    else if f.inner.Some? then Connected else WaitTimedOut
  }

  // ---- Calls ----

  /** What using the connection reported; kClosed and kIoError are the disconnect errors. */
  datatype Outcome = Success | UseTimedOut | Disconnected | OtherError

  datatype CallResult = CallOk | CallTimeout | CallClosed | CallExhausted | CallError

  datatype CallPc =
    | Awaiting                    // in wait_connected
    | Snapping                    // about to snapshot inner_
    | Using(conn: Conn)           // in inner_snapshot->send or ->recv
    | Marking(conn: Conn)         // about to mark_disconnected
    | Returned(result: CallResult)

  /**
    One `send` or `recv`; then history: the connections it has tried, how each attempt ended, and the fields
    its last wait found when it ended.
   */
  datatype Call = Call(pc: CallPc, tried: seq<Conn>, outcomes: seq<Outcome>, left: Option<Fields>)

  const NEW_CALL := Call(Awaiting, [], [], None)

  // ---- The worker ----

  /** `attempts` counts the failed dials of the current round. */
  datatype Worker =
    | Top                         // about to test closed_ at the head of the outer loop
    | Check                       // about to look at inner_ and permanently_failed_
    | WaitLost                    // waiting until closed or disconnected
    | Setup                       // about to start a round of dials
    | Loop(attempts: nat)         // about to test closed_ at the head of the round
    | Decide(attempts: nat)       // about to compare attempts with max_attempts
    | GivingUp                    // about to set permanently_failed_
    | Dialing(attempts: nat)      // in dial_once_
    | Install(conn: Conn)         // about to set inner_
    | Record(attempts: nat)       // about to store last_error_
    | Sleep(attempts: nat)        // backing off
    | Exited

  /**
    `maxAttempts` is the policy's; then the locked fields, the worker and the calls; then history: the
    results of the completed dials, the number of dials started, the connections installed in `inner_`
    and those moved out of it.
   */
  datatype State = State(
    maxAttempts: int, f: Fields, worker: Worker, calls: map<Thread, Call>,
    dials: seq<bool>, started: nat, installed: seq<Conn>, movedOut: seq<Conn>)

  datatype Action =
    | Work(dialOk: bool)                  // one step of the worker; `dialOk` matters when a dial ends
    | Begin(t: Thread)
    | Await(t: Thread, gaveUp: bool)
    | Snap(t: Thread)
    | Use(t: Thread, outcome: Outcome)
    | Mark(t: Thread)
    | Close

  ghost predicate Init(s: State) {
    && s.f == FRESH && s.worker == Top && s.calls == map[]
    && s.dials == [] && s.started == 0 && s.installed == [] && s.movedOut == []
  }

  ghost predicate CallAt(s: State, t: Thread) {
    t in s.calls
  }

  ghost predicate Enabled(s: State, a: Action) {
    match a
    case Work(_) => s.worker != Exited && (s.worker.WaitLost? ==> s.f.closed || s.f.inner.None?)
    case Begin(t) => t !in s.calls || s.calls[t].pc.Returned?
    case Await(t, gaveUp) => CallAt(s, t) && s.calls[t].pc.Awaiting? && (CanLeaveWait(s.f) || gaveUp)
    case Snap(t) => CallAt(s, t) && s.calls[t].pc.Snapping?
    case Use(t, _) => CallAt(s, t) && s.calls[t].pc.Using?
    case Mark(t) => CallAt(s, t) && s.calls[t].pc.Marking?
    case Close => true
  }

  function Moved(out: Option<Conn>): seq<Conn> {
    if out.Some? then [out.value] else []
  }

  function WorkerNext(s: State, dialOk: bool): State
    requires s.worker != Exited
  {
    match s.worker
    case Top => s.(worker := if s.f.closed then Exited else Check)
    case Check => s.(worker := if s.f.inner.Some? then WaitLost else if s.f.failed then Exited else Setup)
    case WaitLost => s.(worker := Top)
    case Setup => s.(worker := Loop(0))
    case Loop(n) => s.(worker := if s.f.closed then Exited else Decide(n))
    case Decide(n) =>
      if s.maxAttempts != 0 && n >= s.maxAttempts then s.(worker := GivingUp)
      else s.(worker := Dialing(n), started := s.started + 1)
    case GivingUp => s.(f := FailFields(s.f), worker := Exited)
    case Dialing(n) =>
      s.(dials := s.dials + [dialOk], worker := if dialOk then Install(|s.dials|) else Record(n + 1))
    case Install(c) => s.(f := InstallFields(s.f, c), installed := s.installed + [c], worker := Top)
    case Record(n) => s.(worker := Sleep(n))
    case Sleep(n) => s.(worker := Loop(n))
  }

  function AfterUse(call: Call, outcome: Outcome): Call
    requires call.pc.Using?
  {
    call.(outcomes := call.outcomes + [outcome],
          pc := match outcome
                case Success => Returned(CallOk)
                case UseTimedOut => Returned(CallTimeout)
                case Disconnected => Marking(call.pc.conn)
                case OtherError => Returned(CallError))
  }

  function AfterWait(call: Call, f: Fields): Call {
    call.(left := Some(f),
          pc := match LeaveWait(f)
                case Connected => Snapping
                case WaitClosed => Returned(CallClosed)
                case Exhausted => Returned(CallExhausted)
                case WaitTimedOut => Returned(CallTimeout))
  }

  function AfterSnap(call: Call, f: Fields): Call {
    if f.inner.None? then call.(pc := Awaiting)
    else call.(pc := Using(f.inner.value), tried := call.tried + [f.inner.value])
  }

  function AfterMark(call: Call): Call {
    call.(pc := Awaiting)
  }

  ghost function Next(s: State, a: Action): State
    requires Enabled(s, a)
  {
    match a
    case Work(ok) => WorkerNext(s, ok)
    case Begin(t) => s.(calls := s.calls[t := NEW_CALL])
    case Await(t, _) => s.(calls := s.calls[t := AfterWait(s.calls[t], s.f)])
    case Snap(t) => s.(calls := s.calls[t := AfterSnap(s.calls[t], s.f)])
    case Use(t, outcome) => s.(calls := s.calls[t := AfterUse(s.calls[t], outcome)])
    case Mark(t) =>
      var (f', out) := MarkFields(s.f, s.calls[t].pc.conn);
      s.(f := f', movedOut := s.movedOut + Moved(out), calls := s.calls[t := AfterMark(s.calls[t])])
    case Close =>
      var (f', out) := CloseFields(s.f);
      s.(f := f', movedOut := s.movedOut + Moved(out))
  }

  ghost predicate Steps(s: State, run: seq<Action>, s': State)
    decreases |run|
  {
    if run == [] then s == s'
    else Enabled(s, run[0]) && Steps(Next(s, run[0]), run[1..], s')
  }
}
