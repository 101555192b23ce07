/** The daemon's singleton lock: the bounded retry, and what startup may do once the lock is held. */
module DaemonLock {
  import opened Wrappers

  // --- The retry loop ---

  /** Times and durations in nanoseconds. */
  const RETRY_INTERVAL: nat := 10_000_000

  datatype Attempt = Acquired | Contended | Broken

  datatype Outcome = Locked | LockFailed | AlreadyRunning

  /** A pause asked for when the clock read `at`. */
  datatype Asked = Asked(at: int, pause: nat)

  class Clock {
    var now: int
    ghost var asked: seq<Asked>

    constructor (now: int)
      ensures this.now == now && asked == []
    {
      this.now, asked := now, [];
    }

    /** A reading; time may have passed since the last one. */
    method Read() returns (t: int)
      modifies this`now
      ensures t == now >= old(now)
    {
      var elapsed: nat :| true;
      now := now + elapsed;
      return now;
    }

    /** A pause takes at least the requested time. */
    method Pause(d: nat)
      modifies this
      ensures now >= old(now) + d && asked == old(asked) + [Asked(old(now), d)]
    {
      asked := asked + [Asked(now, d)];
      var late: nat :| true;
      now := now + d + late;
    }
  }

  /** The lock file, with what each attempt on it said. */
  class LockFile {
    ghost var attempts: seq<Attempt>

    constructor ()
      ensures attempts == []
    {
      attempts := [];
    }

    method TryLock() returns (a: Attempt)
      modifies this
      ensures attempts == old(attempts) + [a]
    {
      a :| true;
      attempts := attempts + [a];
    }
  }

  function CeilDiv(a: int, b: nat): int
    requires 0 < b
  {
    (a + b - 1) / b
  }

  /** How often the lock may be tried within a window. */
  function MaxAttempts(window: int): int {
    if window <= 0 then 1 else CeilDiv(window, RETRY_INTERVAL) + 1
  }

  /** Within 750 milliseconds the lock is tried 76 times at most, and without a window once. */
  lemma AttemptsTable()
    ensures MaxAttempts(750_000_000) == 76 && MaxAttempts(10_000_000) == 2 && MaxAttempts(10_000_001) == 3
    ensures MaxAttempts(0) == 1
  {
  }

  /**
   A lock file that cannot be opened is an error. Otherwise the retry makes at most ceil(window / interval) + 1
   attempts, never asks for a pause that would end past the deadline, gives up only when the deadline has
   passed, and returns what the last attempt said.
   */
  method LockDaemonWithRetry(file: LockFile, opens: bool, clock: Clock, window: int)
    returns (r: Outcome, ghost start: int, ghost attempts: seq<Attempt>, ghost pauses: seq<Asked>)
    modifies file, clock
    ensures file.attempts == old(file.attempts) + attempts && clock.asked == old(clock.asked) + pauses
    ensures old(clock.now) <= start <= clock.now && (pauses != [] ==> start <= pauses[0].at)
    ensures !opens ==> r == LockFailed && attempts == [] && pauses == []
    ensures opens ==> 1 <= |attempts| <= MaxAttempts(window) && |attempts| == |pauses| + 1
    ensures forall i | 0 <= i < |attempts| - 1 :: attempts[i] == Contended
    ensures opens ==> r == match attempts[|attempts| - 1]
                           case Acquired => Locked
                           case Broken => LockFailed
                           case Contended => AlreadyRunning
    ensures forall i | 0 <= i < |pauses| ::
        0 < pauses[i].pause <= RETRY_INTERVAL && pauses[i].at + pauses[i].pause <= start + window
    ensures r.AlreadyRunning? ==> clock.now >= start + window
  {
    start, attempts, pauses := clock.now, [], [];
    if !opens {
      return LockFailed, start, attempts, pauses;
    }
    var began := clock.Read();
    start := began;
    var deadline := began + window;
    while true
      invariant clock.now >= began && |attempts| == |pauses|
      invariant file.attempts == old(file.attempts) + attempts && clock.asked == old(clock.asked) + pauses
      invariant forall i | 0 <= i < |attempts| :: attempts[i] == Contended
      invariant forall i | 0 <= i < |pauses| ::
          0 < pauses[i].pause <= RETRY_INTERVAL && pauses[i].at + pauses[i].pause <= deadline
      invariant pauses != [] ==> began <= pauses[0].at
      invariant clock.now >= deadline || clock.now >= began + |pauses| * RETRY_INTERVAL
      invariant |pauses| > 0 ==> (|pauses| - 1) * RETRY_INTERVAL < window
      decreases if clock.now < deadline then deadline - clock.now else 0, if clock.now < deadline then 1 else 0
    {
      var attempt := file.TryLock();
      attempts := attempts + [attempt];
      if attempt.Acquired? {
        return Locked, start, attempts, pauses;
      }
      if attempt.Broken? {
        return LockFailed, start, attempts, pauses;
      }
      var now := clock.Read();
      var remaining := deadline - now;
      if remaining <= 0 {
        return AlreadyRunning, start, attempts, pauses;
      }
      var interval := RETRY_INTERVAL;
      if interval > remaining {
        interval := remaining;
      }
      pauses := pauses + [Asked(now, interval)];
      clock.Pause(interval);
    }
  }

  // --- Startup of any number of daemons on one Runtime directory ---

  type Pid = nat

  datatype Phase =
    | Waiting
    | Restoring
    | Preparing
    | Cleaning
    | Unlinking
    | Binding
    | Serving
    | Closing     // the stop was signalled; the lock is still held
    | Returned    // the lock was released; the listener may still be open
    | Gone

  /** What a daemon does to the shared directory on its way up. */
  datatype Work = RestoreAdapter | PrepareExecutable | CleanWorkspaces | RemoveSocket | BindSocket

  /** Work done, by whom, and who held the lock at that moment. */
  datatype Entry = Entry(pid: Pid, work: Work, holder: Option<Pid>)

  datatype State = State(lock: Option<Pid>, socket: Option<Pid>, procs: map<Pid, Phase>, listening: set<Pid>,
      log: seq<Entry>)

  datatype Event =
    | Spawn(pid: Pid)
    | TakeLock(pid: Pid)
    | Work(pid: Pid)
    | Fail(pid: Pid)
    | SignalClosed(pid: Pid)
    | Return(pid: Pid)
    | CloseListener(pid: Pid)
    | Exit(pid: Pid)

  predicate Holding(phase: Phase) {
    !phase.Waiting? && !phase.Returned? && !phase.Gone?
  }

  predicate StartingUp(phase: Phase) {
    phase.Restoring? || phase.Preparing? || phase.Cleaning? || phase.Unlinking? || phase.Binding?
  }

  function Goto(s: State, p: Pid, phase: Phase): State {
    s.(procs := s.procs[p := phase])
  }

  function Did(s: State, p: Pid, work: Work): State {
    s.(log := s.log + [Entry(p, work, s.lock)])
  }

  /** The next piece of startup work. Binding fails while the socket's name is taken. */
  function WorkStep(s: State, p: Pid): State
    requires p in s.procs
  {
    match s.procs[p]
    case Restoring => Did(Goto(s, p, Preparing), p, RestoreAdapter)
    case Preparing => Did(Goto(s, p, Cleaning), p, PrepareExecutable)
    case Cleaning => Did(Goto(s, p, Unlinking), p, CleanWorkspaces)
    case Unlinking => Did(Goto(s, p, Binding), p, RemoveSocket).(socket := None)
    case Binding =>
      if s.socket.Some? then Goto(s, p, Returned).(lock := None)
      else Did(Goto(s, p, Serving), p, BindSocket).(socket := Some(p), listening := s.listening + {p})
    case _ => s
  }

  function Apply(s: State, e: Event): State {
    if e.Spawn? then if e.pid in s.procs then s else Goto(s, e.pid, Waiting)
    else if e.pid !in s.procs then s
    else
      var p, phase := e.pid, s.procs[e.pid];
      match e
      case Spawn(_) => s
      case TakeLock(_) => if phase.Waiting? && s.lock.None? then Goto(s, p, Restoring).(lock := Some(p)) else s
      case Work(_) => WorkStep(s, p)
      case Fail(_) => if StartingUp(phase) then Goto(s, p, Returned).(lock := None) else s
      case SignalClosed(_) => if phase.Serving? then Goto(s, p, Closing) else s
      case Return(_) => if phase.Closing? then Goto(s, p, Returned).(lock := None) else s
      // Closing a listener removes the socket's name, whoever bound it since.
      case CloseListener(_) =>
        if (phase.Closing? || phase.Returned?) && p in s.listening then
          s.(listening := s.listening - {p}, socket := None)
        else s
      case Exit(_) =>
        Goto(s, p, Gone).(lock := if s.lock == Some(p) then None else s.lock, listening := s.listening - {p})
  }

  function Run(s: State, events: seq<Event>): State
    decreases |events|
  {
    if events == [] then s else Run(Apply(s, events[0]), events[1..])
  }

  /** No daemon is up; a dead one may have left its socket. */
  predicate Initial(s: State) {
    s.lock.None? && s.procs == map[] && s.listening == {} && s.log == []
  }

  predicate Inv(s: State) {
    && (forall p | p in s.procs :: Holding(s.procs[p]) <==> s.lock == Some(p))
    && (s.lock.Some? ==> s.lock.value in s.procs)
    && (forall p | p in s.procs && s.procs[p].Binding? :: s.socket.None?)
    && (forall p | p in s.procs && s.procs[p].Serving? :: p in s.listening)
    && (forall i | 0 <= i < |s.log| :: s.log[i].holder == Some(s.log[i].pid))
  }

  /** The steps of startup, and those of the other phases. */
  lemma WorkKeepsInv(s: State, p: Pid)
    requires Inv(s) && p in s.procs
    ensures Inv(WorkStep(s, p))
  {
  }

  lemma StepKeepsInv(s: State, e: Event)
    requires Inv(s)
    ensures Inv(Apply(s, e))
  {
    if e.Work? && e.pid in s.procs {
      WorkKeepsInv(s, e.pid);
    } else {
      hide WorkStep;
    }
  }

  lemma {:induction false} RunKeepsInv(s: State, events: seq<Event>)
    requires Inv(s)
    ensures Inv(Run(s, events))
    decreases |events|
  {
    if events != [] {
      StepKeepsInv(s, events[0]);
      RunKeepsInv(Apply(s, events[0]), events[1..]);
    }
  }

  /**
   Over any set of starting, failing and crashing daemons: every piece of startup work was done by the
   lock holder of that moment, no two daemons are at work or serving at once, and a daemon about to bind
   finds the socket's name free.
   */
  lemma StartupIsSingleton(s: State, events: seq<Event>)
    requires Initial(s)
    ensures var t := Run(s, events);
            && (forall i | 0 <= i < |t.log| :: t.log[i].holder == Some(t.log[i].pid))
            && (forall p, q | p in t.procs && q in t.procs && Holding(t.procs[p]) && Holding(t.procs[q]) :: p == q)
            && (forall p | p in t.procs && t.procs[p].Binding? :: t.socket.None?)
  {
    RunKeepsInv(s, events);
  }

  // --- The socket after startup ---

  /** Whoever serves has its own socket in place. */
  predicate SocketInPlace(s: State) {
    forall p | p in s.procs && s.procs[p].Serving? :: s.socket == Some(p)
  }

  /** A daemon that no longer holds the lock closes its listener while another one serves. */
  predicate LateClose(s: State, e: Event) {
    && e.CloseListener? && e.pid in s.procs && s.procs[e.pid].Returned? && e.pid in s.listening
    && exists q | q in s.procs :: s.procs[q].Serving?
  }

  /**
   A step takes the socket away from the serving daemon exactly when it is a late close: teardown
   signals the stop, and so lets the lock go, before it closes the listener.
   */
  lemma SocketLostByLateClose(s: State, e: Event)
    requires Inv(s) && SocketInPlace(s)
    ensures SocketInPlace(Apply(s, e)) <==> !LateClose(s, e)
  {
  }

  ghost predicate NoLateClose(s: State, events: seq<Event>)
    decreases |events|
  {
    events == [] || (!LateClose(s, events[0]) && NoLateClose(Apply(s, events[0]), events[1..]))
  }

  /** Without late closes the serving daemon keeps its socket, in every run. */
  lemma {:induction false} SocketStays(s: State, events: seq<Event>)
    requires Inv(s) && SocketInPlace(s) && NoLateClose(s, events)
    ensures SocketInPlace(Run(s, events))
    decreases |events|
  {
    if events != [] {
      SocketLostByLateClose(s, events[0]);
      StepKeepsInv(s, events[0]);
      SocketStays(Apply(s, events[0]), events[1..]);
    }
  }

  /** A late close can happen: a successor that starts between release and close loses its socket. */
  lemma LateCloseHappens()
    ensures var s := State(None, None, map[], {}, []);
            var up := (p: Pid) => [Spawn(p), TakeLock(p), Work(p), Work(p), Work(p), Work(p), Work(p)];
            var t := Run(Run(Run(Run(s, up(1)), [SignalClosed(1), Return(1)]), up(2)), [CloseListener(1)]);
            Initial(s) && 2 in t.procs && t.procs[2] == Serving && t.socket.None?
  {
    var s := State(None, None, map[], {}, []);
    var a := ComesUp(s, 1);
    var b := StepsBack(a, 1);
    var d := ComesUp(b, 2);
    assert Run(Apply(d, CloseListener(1)), []) == Run(d, [CloseListener(1)]);
  }

  /** A daemon that is told to stop lets its lock go while it still listens. */
  lemma StepsBack(s: State, p: Pid) returns (t: State)
    requires p in s.procs && s.procs[p].Serving?
    ensures t == Run(s, [SignalClosed(p), Return(p)])
    ensures t.lock.None? && t.procs == s.procs[p := Returned] && t.listening == s.listening
  {
    RunTwo(s, [SignalClosed(p), Return(p)]);
    t := Apply(Apply(s, SignalClosed(p)), Return(p));
    assert t.procs == s.procs[p := Returned];
  }

  /** The work of one startup, in its order, done under the daemon's own lock. */
  function StartupLog(p: Pid): seq<Entry> {
    [Entry(p, RestoreAdapter, Some(p)), Entry(p, PrepareExecutable, Some(p)), Entry(p, CleanWorkspaces, Some(p)),
     Entry(p, RemoveSocket, Some(p)), Entry(p, BindSocket, Some(p))]
  }

  /** A new daemon that finds the lock free comes up serving. */
  lemma ComesUp(s: State, p: Pid) returns (t: State)
    requires p !in s.procs && s.lock.None?
    ensures t == Run(s, [Spawn(p), TakeLock(p), Work(p), Work(p), Work(p), Work(p), Work(p)])
    ensures t.lock == Some(p) && t.socket == Some(p) && t.procs == s.procs[p := Serving]
        && t.listening == s.listening + {p}
    ensures t.log == s.log + StartupLog(p)
  {
    var events := [Spawn(p), TakeLock(p), Work(p), Work(p), Work(p), Work(p), Work(p)];
    var a := Apply(Apply(s, events[0]), events[1]);
    var b := WorkStep(WorkStep(WorkStep(a, p), p), p);
    t := WorkStep(WorkStep(b, p), p);
    RunTwo(s, events);
    RunTwo(a, events[2..]);
    RunTwo(Apply(Apply(a, Work(p)), Work(p)), events[4..]);
    assert events[4..][2..] == [Work(p)];
    assert Run(Apply(WorkStep(b, p), Work(p)), []) == t;
    assert t.procs == s.procs[p := Serving];
  }

  lemma RunTwo(s: State, events: seq<Event>)
    requires |events| >= 2
    ensures Run(s, events) == Run(Apply(Apply(s, events[0]), events[1]), events[2..])
  {
    assert events[1..][1..] == events[2..];
  }
}
