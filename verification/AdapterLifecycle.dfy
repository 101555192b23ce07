/**
 The life of local capability adapters in the daemon: register, remove, child death, watchers, stop, and the
 end and restart of the daemon itself, interleaved in any order.

 Threads take steps one at a time. The lifecycle mutex is held from the stopping check of register or remove
 to the end of the operation, and by stop around its critical section; the sections under the state mutex are
 single steps. The registration file changes by the atomic changes of Registration. A step whose event is not
 enabled changes nothing.
 */
module AdapterLifecycle {
  import opened Wrappers
  import opened DaemonState
  import opened Registration

  type Tid = nat

  /** `daemon` is the number of the daemon that built it; its child runs until it has `exited`, closed or not. */
  datatype Adapter = Adapter(registration: Registration, daemon: nat, closed: bool, exited: bool)

  /**
   Where a thread stands. Only stop has let the mutex go when it closes its adapter. The startup thread counts
   as holder of the mutex during its restore: nobody asks for it before the daemon serves.
   */
  datatype Op =
    | RegisterWaiting(registration: Registration)
    | RegisterChecked(registration: Registration)
    | RegisterStarted(registration: Registration, adapter: AdapterId)
    | RegisterBuilt(registration: Registration, adapter: AdapterId)
    | RegisterTemp(registration: Registration, adapter: AdapterId, tmp: nat)
    | RegisterSaved(registration: Registration, adapter: AdapterId)
    | RegisterUndo(adapter: AdapterId)
    | RegisterAbort(adapter: AdapterId)
    | RegisterSwapped(adapter: AdapterId, previous: Option<AdapterId>)
    | RegisterWatch(adapter: AdapterId)
    | RestoreStarted(registration: Registration, adapter: AdapterId)
    | RestoreBuilt(registration: Registration, adapter: AdapterId)
    | RemoveWaiting
    | RemoveChecked
    | RemoveFileGone
    | RemoveSwapped(previous: Option<AdapterId>)
    | StopWaiting
    | StopLocked
    | StopClosing(previous: Option<AdapterId>)
    | Watching(adapter: AdapterId)
    | Finished

  /**
   `daemon` numbers the daemon that runs, or ran last, `up` is whether it runs, and `serving` whether it takes
   requests; `lifecycle` holds its mutex. `found` is what the registration file held at first. `approved` lists
   the registrations whose adapter has passed the handshake, in this daemon or an earlier one.
   */
  datatype State = State(
    coding: Coding,
    found: Option<string>,
    daemon: nat,
    up: bool,
    serving: bool,
    mem: Memory,
    lifecycle: Option<Tid>,
    adapters: map<AdapterId, Adapter>,
    dir: Dir,
    threads: map<Tid, Op>,
    approved: set<Registration>)

  /** The number of a step is a fresh adapter, thread or temporary file, or how many bytes a write takes. */
  datatype Event =
    | Spawn(tid: Tid, op: Op)
    | Step(tid: Tid, fails: bool, number: nat)
    | ChildExits(adapter: AdapterId)
    | CallFails(adapter: AdapterId)
    | Boot(id: AdapterId, main: Tid, starts: bool)
    | Serve
    | FailStartup
    | Crash

  predicate HoldsMutex(op: Op) {
    match op
    case RegisterWaiting(_) => false
    case RemoveWaiting => false
    case StopWaiting => false
    case StopClosing(_) => false
    case Watching(_) => false
    case Finished => false
    case _ => true
  }

  /** The adapter a thread still has to close or install. */
  function Debt(op: Op): Option<AdapterId> {
    match op
    case RegisterStarted(_, b) => Some(b)
    case RestoreStarted(_, b) => Some(b)
    case RestoreBuilt(_, b) => Some(b)
    case RegisterBuilt(_, b) => Some(b)
    case RegisterTemp(_, b, _) => Some(b)
    case RegisterSaved(_, b) => Some(b)
    case RegisterUndo(b) => Some(b)
    case RegisterAbort(b) => Some(b)
    case RegisterSwapped(_, previous) => previous
    case RemoveSwapped(previous) => previous
    case StopClosing(previous) => previous
    case _ => None
  }

  predicate Owes(op: Op, a: AdapterId) {
    Debt(op) == Some(a)
  }

  /** Nothing but the end of a daemon and the start of the next changes these. */
  ghost predicate SameDaemon(s: State, u: State) {
    u.coding == s.coding && u.found == s.found && u.daemon == s.daemon && u.up == s.up
  }

  /** A thread that owes `debt` leaves the daemon as it is, and every other adapter. */
  ghost predicate TouchesOnly(s: State, u: State, debt: Option<AdapterId>) {
    && SameDaemon(s, u)
    && forall a | a in s.adapters && Some(a) != debt :: a in u.adapters && u.adapters[a] == s.adapters[a]
  }

  function Goto(s: State, t: Tid, op: Op): State {
    s.(threads := s.threads[t := op])
  }

  /** Ends an operation and lets the mutex go. */
  function Unlock(s: State, t: Tid, op: Op): State {
    Goto(s, t, op).(lifecycle := None)
  }

  /** Sets the closed flag of an adapter; its child still runs. */
  function Flagged(s: State, a: AdapterId): State {
    if a in s.adapters then s.(adapters := s.adapters[a := s.adapters[a].(closed := true)]) else s
  }

  /** The child of an adapter comes to its end. */
  function Killed(s: State, a: AdapterId): State {
    if a in s.adapters then s.(adapters := s.adapters[a := s.adapters[a].(exited := true)]) else s
  }

  /**
   Closing takes two steps: the flag is set, and then the child is killed, by this close or by the failed call
   it waited for, and the thread goes on to `next`.
   */
  function CloseStep(s: State, a: Option<AdapterId>, next: State): (u: State)
    requires TouchesOnly(s, next, None)
    ensures TouchesOnly(s, u, a)
  {
    if a.None? then next
    else if a.value in s.adapters && !s.adapters[a.value].closed then Flagged(s, a.value)
    else Killed(next, a.value)
  }

  /** The last step of a registration starts the watcher. */
  function WatchStarted(s: State, t: Tid, id: Tid): State
    requires t in s.threads && s.threads[t].RegisterWatch?
  {
    Goto(Unlock(s, t, Finished), id, Watching(s.threads[t].adapter))
  }

  /** A watcher whose adapter has exited clears it. */
  function Cleared(s: State, t: Tid, a: AdapterId): State {
    Goto(s, t, Finished).(mem := ClearIf(s.mem, a))
  }

  /** The stopping check, under the mutex. */
  function Check(s: State, t: Tid, op: Op): (u: State)
    ensures TouchesOnly(s, u, None)
  {
    if s.lifecycle.Some? then s
    else if s.mem.stopping then Goto(s, t, Finished)
    else Goto(s, t, op).(lifecycle := Some(t))
  }

  /** A child just started by the running daemon. */
  function Child(s: State, r: Registration): Adapter {
    Adapter(r, s.daemon, false, false)
  }

  /** Starts the child, if the registration is valid. */
  function Build(s: State, t: Tid, r: Registration, fails: bool, id: AdapterId): (u: State)
    ensures TouchesOnly(s, u, None)
  {
    if id in s.adapters then s
    else if fails || !IsValid(r) then Unlock(s, t, Finished)
    else Goto(s, t, RegisterStarted(r, id)).(adapters := s.adapters[id := Child(s, r)])
  }

  /** Shakes hands with the child; when that fails, or one of its calls has failed, the adapter is closed. */
  function Handshake(s: State, t: Tid, r: Registration, fails: bool, a: AdapterId): (u: State)
    ensures TouchesOnly(s, u, None)
  {
    if fails || (a in s.adapters && s.adapters[a].closed) then Goto(s, t, RegisterAbort(a))
    else Goto(s, t, RegisterBuilt(r, a)).(approved := s.approved + {r})
  }

  /** The same for the adapter that is restored. */
  function HandshakeAgain(s: State, t: Tid, r: Registration, fails: bool, a: AdapterId): (u: State)
    ensures TouchesOnly(s, u, None)
  {
    if fails || (a in s.adapters && s.adapters[a].closed) then Goto(s, t, RegisterAbort(a))
    else Goto(s, t, RestoreBuilt(r, a))
  }

  /** The section that installs the adapter, or finds the daemon stopping. */
  function InstallSection(s: State, t: Tid, a: AdapterId): (u: State)
    ensures TouchesOnly(s, u, None)
  {
    if s.mem.stopping then Goto(s, t, RegisterUndo(a))
    else Goto(s, t, RegisterSwapped(a, s.mem.process)).(mem := Install(s.mem, a))
  }

  predicate IsRegister(op: Op) {
    || op.RegisterWaiting? || op.RegisterChecked? || op.RegisterStarted? || op.RegisterBuilt? || op.RegisterTemp?
    || op.RegisterSaved? || op.RegisterUndo? || op.RegisterAbort? || op.RegisterSwapped? || op.RegisterWatch?
  }

  /** One step of a registration. */
  function StepRegister(s: State, t: Tid, fails: bool, number: nat): (u: State)
    requires t in s.threads && IsRegister(s.threads[t])
    ensures TouchesOnly(s, u, Debt(s.threads[t]))
  {
    hide IsValid, Changed, Check, Build, Handshake, StartSave, SaveStep, InstallSection, CloseStep;
    match s.threads[t]
    case RegisterWaiting(r) => Check(s, t, RegisterChecked(r))
    case RegisterChecked(r) => Build(s, t, r, fails, number)
    case RegisterStarted(r, a) => Handshake(s, t, r, fails, a)
    case RegisterBuilt(r, a) => StartSave(s, t, r, a, fails, number)
    case RegisterTemp(r, a, tmp) => SaveStep(s, t, r, a, tmp, fails, number)
    case RegisterSaved(r, a) => InstallSection(s, t, a)
    case RegisterUndo(a) => Goto(s, t, RegisterAbort(a)).(dir := if fails then s.dir else Changed(s.dir, Remove))
    case RegisterAbort(a) => CloseStep(s, Some(a), Unlock(s, t, Finished))
    case RegisterSwapped(a, previous) => CloseStep(s, previous, Goto(s, t, RegisterWatch(a)))
    case RegisterWatch(a) => if number in s.threads then s else WatchStarted(s, t, number)
  }

  /** One step of a thread. */
  function StepThread(s: State, t: Tid, fails: bool, number: nat): (u: State)
    requires t in s.threads
    ensures TouchesOnly(s, u, Debt(s.threads[t]))
  {
    hide IsValid, Install, Uninstall, Stop, Changed, StepRegister, Check, HandshakeAgain, CloseStep;
    match s.threads[t]
    case RestoreStarted(r, a) => HandshakeAgain(s, t, r, fails, a)
    case RestoreBuilt(_, a) => Goto(s, t, RegisterWatch(a)).(mem := Install(s.mem, a))
    case RemoveWaiting => Check(s, t, RemoveChecked)
    case RemoveChecked =>
      if fails then Unlock(s, t, Finished) else Goto(s, t, RemoveFileGone).(dir := Changed(s.dir, Remove))
    case RemoveFileGone => Goto(s, t, RemoveSwapped(s.mem.process)).(mem := Uninstall(s.mem))
    case RemoveSwapped(previous) => CloseStep(s, previous, Unlock(s, t, Finished))
    case StopWaiting => if s.lifecycle.Some? then s else Goto(s, t, StopLocked).(lifecycle := Some(t))
    case StopLocked => Unlock(s, t, StopClosing(s.mem.process)).(mem := Stop(s.mem))
    case StopClosing(previous) => CloseStep(s, previous, Goto(s, t, Finished))
    case Watching(a) => if a in s.adapters && s.adapters[a].exited then Cleared(s, t, a) else s
    case Finished => s
    case _ => StepRegister(s, t, fails, number)
  }

  /** The save starts with its temporary file, unless the encoding is too large. */
  function StartSave(s: State, t: Tid, r: Registration, a: AdapterId, fails: bool, tmp: nat): (u: State)
    ensures TouchesOnly(s, u, None)
  {
    if fails || |s.coding.encode(r)| > MAX_ADAPTER_CONFIG then Goto(s, t, RegisterAbort(a))
    else if tmp in s.dir.temps then s
    else Goto(s, t, RegisterTemp(r, a, tmp)).(dir := Changed(s.dir, Create(tmp)))
  }

  /**
   The temporary file is written piece by piece, and renamed when it has all of the data. After a failure it
   is removed, unless that fails too.
   */
  function SaveStep(s: State, t: Tid, r: Registration, a: AdapterId, tmp: nat, fails: bool, n: nat): (u: State)
    ensures TouchesOnly(s, u, None)
  {
    var data := s.coding.encode(r);
    if fails || tmp !in s.dir.temps then
      Goto(s, t, RegisterAbort(a)).(dir := if n == 0 then s.dir else Changed(s.dir, Discard(tmp)))
    else
      var done := |s.dir.temps[tmp]|;
      if done >= |data| then Goto(s, t, RegisterSaved(r, a)).(dir := Changed(s.dir, Rename(tmp)))
      else if done + n <= |data| then s.(dir := Changed(s.dir, Write(tmp, data[done..done + n])))
      else s
  }

  /** What loading the registration file yields. */
  function Loads(s: State): Loaded {
    LoadOf(s.coding, s.dir.file)
  }

  /** A new daemon first starts the child of the registration file, if that loads. */
  function BootStep(s: State, id: AdapterId, main: Tid, starts: bool): State {
    if s.up || id in s.adapters then s
    else
      var b := s.(up := true, serving := false, daemon := s.daemon + 1);
      if !Loads(s).Registered? || !starts then b
      else
        b.(
          adapters := s.adapters[id := Child(b, Loads(s).registration)],
          threads := map[main := RestoreStarted(Loads(s).registration, id)],
          lifecycle := Some(main))
  }

  /** No operation is under way. */
  predicate Quiet(s: State) {
    forall t | t in s.threads :: s.threads[t].Watching? || s.threads[t].Finished?
  }

  /** The end of a daemon, whatever it was doing. Its children have process groups of their own and are left alone. */
  function Ended(s: State): State {
    s.(up := false, mem := EMPTY, lifecycle := None, threads := map[])
  }

  /** Requests are decoded from JSON, so what they register survives its encoding. */
  predicate IsRequest(c: Coding, op: Op) {
    op.RemoveWaiting? || op.StopWaiting? || (op.RegisterWaiting? && RoundTrips(c, op.registration))
  }

  function Apply(s: State, e: Event): State {
    match e
    case Spawn(t, op) =>
      if s.up && s.serving && t !in s.threads && IsRequest(s.coding, op) then Goto(s, t, op) else s
    case Step(t, fails, number) => if t in s.threads then StepThread(s, t, fails, number) else s
    case ChildExits(a) => Killed(s, a)
    // A failing call of the running daemon sets the flag of its adapter; then it kills the child.
    case CallFails(a) => if Mine(s, a) then Flagged(s, a) else s
    case Boot(id, main, starts) => BootStep(s, id, main, starts)
    case Serve => if s.up && Quiet(s) then s.(serving := true) else s
    // A startup step after the restore fails, and the daemon returns without closing the adapter.
    case FailStartup => if s.up && !s.serving && Quiet(s) then Ended(s) else s
    // A crash, or the exit after a stop.
    case Crash => Ended(s)
  }

  function Run(s: State, events: seq<Event>): State
    decreases |events|
  {
    if events == [] then s else Run(Apply(s, events[0]), events[1..])
  }

  /** Nothing runs. The registration file may hold anything, but a registration that loads was once approved. */
  ghost predicate Initial(s: State) {
    && !s.up && s.mem == EMPTY && s.lifecycle.None? && s.adapters == map[] && s.threads == map[]
    && s.found == s.dir.file && FileInv(s)
  }

  /** The child has not exited. */
  predicate Running(s: State, a: AdapterId) {
    a in s.adapters && !s.adapters[a].exited
  }

  predicate Installed(s: State, a: AdapterId) {
    s.mem.process == Some(a)
  }

  /** The adapter belongs to the daemon that is running. */
  predicate Mine(s: State, a: AdapterId) {
    s.up && a in s.adapters && s.adapters[a].daemon == s.daemon
  }

  // --- The invariant ---

  predicate MutexInv(s: State) {
    && (forall t | t in s.threads :: HoldsMutex(s.threads[t]) <==> s.lifecycle == Some(t))
    && (s.lifecycle.Some? ==> s.lifecycle.value in s.threads)
    && (!s.up ==> s.threads == map[] && s.mem == EMPTY)
    && (forall a | a in s.adapters :: s.adapters[a].daemon <= s.daemon)
  }

  predicate MemoryInv(s: State) {
    && s.mem.process == s.mem.controller
    && (s.mem.stopping ==> s.mem.process.None?)
    && (s.mem.process.Some? ==> Mine(s, s.mem.process.value))
  }

  /** What the thread at `op` relies on. */
  predicate OpInv(s: State, op: Op) {
    && (HoldsMutex(op) && !op.StopLocked? ==> !s.mem.stopping)
    && !op.RegisterUndo?
    && (Debt(op).Some? ==> Mine(s, Debt(op).value))
    && match op
       case RegisterWaiting(r) => RoundTrips(s.coding, r)
       case RegisterChecked(r) => RoundTrips(s.coding, r)
       case RegisterStarted(r, a) => s.adapters[a].registration == r && IsValid(r) && RoundTrips(s.coding, r)
       case RestoreStarted(r, a) =>
         s.adapters[a].registration == r && Loads(s) == Registered(r) && s.mem.process.None?
       case RestoreBuilt(r, a) => s.adapters[a].registration == r && Loads(s) == Registered(r) && s.mem.process.None?
       case RegisterBuilt(r, a) => s.adapters[a].registration == r && r in s.approved && RoundTrips(s.coding, r)
       case RegisterTemp(r, a, tmp) =>
         && s.adapters[a].registration == r && r in s.approved && RoundTrips(s.coding, r)
         && tmp in s.dir.temps && s.dir.temps[tmp] <= s.coding.encode(r) && |s.coding.encode(r)| <= MAX_ADAPTER_CONFIG
       case RegisterSaved(r, a) => s.adapters[a].registration == r && Loads(s) == Registered(r)
       case RegisterSwapped(a, _) => a in s.adapters
       case RegisterWatch(a) => a in s.adapters
       case Watching(a) => a in s.adapters
       case _ => true
  }

  predicate OpsInv(s: State) {
    forall t | t in s.threads :: OpInv(s, s.threads[t])
  }

  /** Every child of the running daemon that has not exited is installed, or some thread still has to deal with it. */
  ghost predicate NoLeak(s: State) {
    forall a | Running(s, a) && Mine(s, a) :: Installed(s, a) || exists t | t in s.threads :: Owes(s.threads[t], a)
  }

  ghost predicate FileInv(s: State) {
    && (Loads(s).Registered? ==> Loads(s).registration in s.approved)
    && (Loads(s).Broken? ==> s.dir.file == s.found)
    && (forall r | r in s.approved :: IsValid(r))
  }

  predicate FileTrails(op: Op) {
    op.RegisterSaved? || op.RemoveFileGone?
  }

  /**
   An installed adapter is the one registered, but for the moment between the change of the file and that of
   the memory.
   */
  predicate FileMatches(s: State) {
    s.mem.process.Some? && s.mem.process.value in s.adapters
    && (s.lifecycle.Some? && s.lifecycle.value in s.threads ==> !FileTrails(s.threads[s.lifecycle.value]))
    ==> Loads(s) == Registered(s.adapters[s.mem.process.value].registration)
  }

  predicate WatchedBy(op: Op, a: AdapterId) {
    op == Watching(a) || op == RegisterWatch(a) || (op.RegisterSwapped? && op.adapter == a)
  }

  /** The installed adapter has a watcher, or is about to get one. */
  ghost predicate WatchInv(s: State) {
    forall a | Installed(s, a) :: exists t | t in s.threads :: WatchedBy(s.threads[t], a)
  }

  ghost predicate Inv(s: State) {
    MutexInv(s) && MemoryInv(s) && OpsInv(s) && NoLeak(s) && FileInv(s) && FileMatches(s) && WatchInv(s)
  }

  lemma InitialInv(s: State)
    requires Initial(s)
    ensures Inv(s)
  {
  }

  /** A step of thread `t` leaves the other threads where they are. */
  predicate OthersStay(s: State, u: State, t: Tid) {
    && t in s.threads && t in u.threads
    && forall x | x in s.threads && x != t :: x in u.threads && u.threads[x] == s.threads[x]
  }

  lemma NoLeakStep(s: State, u: State, t: Tid)
    requires NoLeak(s) && OthersStay(s, u, t)
    requires forall a | Running(u, a) && Mine(u, a) ::
        (Running(s, a) && Mine(s, a)) || Installed(u, a) || Owes(u.threads[t], a)
    requires forall a | Running(u, a) && (Owes(s.threads[t], a) || Installed(s, a)) ::
        Installed(u, a) || Owes(u.threads[t], a)
    ensures NoLeak(u)
  {
    forall a | Running(u, a) && Mine(u, a) && !Installed(u, a)
      ensures exists x | x in u.threads :: Owes(u.threads[x], a)
    {
      if !Owes(u.threads[t], a) {
        var x :| x in s.threads && Owes(s.threads[x], a);
        assert x != t;
        assert Owes(u.threads[x], a);
      }
    }
  }

  lemma WatchStep(s: State, u: State, t: Tid)
    requires WatchInv(s) && OthersStay(s, u, t)
    requires forall a | Installed(u, a) ::
               || WatchedBy(u.threads[t], a)
               || (Installed(s, a) && !WatchedBy(s.threads[t], a))
               || exists x | x in u.threads :: WatchedBy(u.threads[x], a)
    ensures WatchInv(u)
  {
    forall a | Installed(u, a)
      ensures exists x | x in u.threads :: WatchedBy(u.threads[x], a)
    {
      if Installed(s, a) && !WatchedBy(s.threads[t], a) && !WatchedBy(u.threads[t], a) {
        var x :| x in s.threads && WatchedBy(s.threads[x], a);
        assert x != t;
      }
    }
  }

  /**
   Adapters keep their registrations and daemons, and only come to an end; a new one belongs to the running
   daemon.
   */
  predicate AdaptersGrow(s: State, u: State) {
    && (forall a | a in s.adapters ::
          && a in u.adapters && u.adapters[a].registration == s.adapters[a].registration
          && u.adapters[a].daemon == s.adapters[a].daemon)
    && (forall a | a in u.adapters && a !in s.adapters :: u.adapters[a].daemon == u.daemon)
    && (forall a | a in s.adapters && Running(u, a) :: Running(s, a))
    && s.approved <= u.approved
  }

  /** A step that leaves the file, its temporary files and the flag alone leaves every thread what it relies on. */
  lemma OpStays(s: State, u: State, op: Op)
    requires OpInv(s, op) && SameDaemon(s, u) && AdaptersGrow(s, u)
    requires u.dir.file == s.dir.file && u.mem.stopping == s.mem.stopping
    requires u.mem.process == s.mem.process || u.mem.process.None?
    requires u.dir == s.dir || !op.RegisterTemp?
    ensures OpInv(u, op)
  {
    hide LoadOf;
  }

  lemma OpsStay(s: State, u: State)
    requires OpsInv(s) && SameDaemon(s, u) && AdaptersGrow(s, u) && u.dir == s.dir && u.mem.stopping == s.mem.stopping
    requires u.mem.process == s.mem.process || u.mem.process.None?
    requires forall x | x in u.threads :: (x in s.threads && u.threads[x] == s.threads[x]) || OpInv(u, u.threads[x])
    ensures OpsInv(u)
  {
    forall x | x in u.threads
      ensures OpInv(u, u.threads[x])
    {
      if x in s.threads && u.threads[x] == s.threads[x] {
        OpStays(s, u, s.threads[x]);
      }
    }
  }

  /** A step that leaves the file alone and keeps all adapters that are not dealt with. */
  lemma StepKeepsParts(s: State, u: State, t: Tid)
    requires Inv(s) && OthersStay(s, u, t) && SameDaemon(s, u) && AdaptersGrow(s, u)
    requires u.dir.file == s.dir.file && u.mem.stopping == s.mem.stopping && (u.dir == s.dir || s.lifecycle == Some(t))
    requires u.mem.process == s.mem.process || u.mem.process.None?
    requires forall x | x in u.threads && x !in s.threads :: OpInv(u, u.threads[x])
    requires OpInv(u, u.threads[t]) && (forall r | r in u.approved :: IsValid(r))
    requires forall a | Running(u, a) && Mine(u, a) ::
        (Running(s, a) && Mine(s, a)) || Installed(u, a) || Owes(u.threads[t], a)
    requires forall a | Running(u, a) && (Owes(s.threads[t], a) || Installed(s, a)) ::
        Installed(u, a) || Owes(u.threads[t], a)
    ensures NoLeak(u) && FileInv(u) && OpsInv(u)
  {
    hide LoadOf, IsValid, Running, Mine;
    assert Loads(u) == Loads(s);
    NoLeakStep(s, u, t);
    forall x | x in u.threads
      ensures OpInv(u, u.threads[x])
    {
      if x in s.threads && x != t {
        assert OpInv(s, s.threads[x]);
        OpStays(s, u, s.threads[x]);
      }
    }
  }

  /** A thread takes the mutex when it is free, lets it go, or leaves it as it is. */
  predicate MutexMoves(s: State, u: State, t: Tid) {
    && t in u.threads && (HoldsMutex(u.threads[t]) <==> u.lifecycle == Some(t))
    && (|| u.lifecycle == s.lifecycle
        || (s.lifecycle.None? && u.lifecycle == Some(t))
        || (s.lifecycle == Some(t) && u.lifecycle.None?))
  }

  lemma MoveKeepsRest(s: State, u: State, t: Tid)
    requires MutexInv(s) && MemoryInv(s) && FileMatches(s) && Loads(u) == Loads(s)
    requires OthersStay(s, u, t) && u.threads.Keys == s.threads.Keys && AdaptersGrow(s, u)
    requires SameDaemon(s, u) && u.mem == s.mem && MutexMoves(s, u, t) && s.up
    requires FileTrails(s.threads[t]) ==> u.threads[t] == s.threads[t]
    ensures MutexInv(u) && MemoryInv(u) && FileMatches(u)
  {
    hide LoadOf, IsValid, Loads, Running;
  }

  /** A step that changes neither the memory nor the file. */
  lemma MoveKeepsInv(s: State, u: State, t: Tid)
    requires Inv(s) && OthersStay(s, u, t) && u.threads.Keys == s.threads.Keys && AdaptersGrow(s, u)
    requires SameDaemon(s, u) && u.mem == s.mem && u.dir.file == s.dir.file
    requires u.dir == s.dir || s.lifecycle == Some(t)
    requires MutexMoves(s, u, t)
    requires OpInv(u, u.threads[t]) && (forall r | r in u.approved :: IsValid(r))
    requires forall a | Running(u, a) && Mine(u, a) :: (Running(s, a) && Mine(s, a)) || Owes(u.threads[t], a)
    requires forall a | Running(u, a) && Owes(s.threads[t], a) :: Owes(u.threads[t], a)
    requires forall a | Installed(s, a) && WatchedBy(s.threads[t], a) ::
        exists x | x in u.threads :: WatchedBy(u.threads[x], a)
    requires FileTrails(s.threads[t]) ==> u.threads[t] == s.threads[t]
    ensures Inv(u)
  {
    assert Loads(u) == Loads(s) && s.up;
    WatchStep(s, u, t);
    hide LoadOf, IsValid, WatchInv, NoLeak, WatchedBy, OpInv, MutexInv, MemoryInv, FileMatches, Loads, HoldsMutex,
        MutexMoves, AdaptersGrow, SameDaemon;
    StepKeepsParts(s, u, t);
    MoveKeepsRest(s, u, t);
  }

  /** The holder of the mutex is the one thread that relies on the file. */
  lemma HolderIsAlone(s: State, t: Tid)
    requires Inv(s) && t in s.threads && s.lifecycle == Some(t)
    ensures forall x | x in s.threads && x != t :: !HoldsMutex(s.threads[x]) && OpInv(s, s.threads[x])
  {
  }

  /** A step of the mutex holder that changes the memory or the file. */
  lemma SectionKeepsInv(s: State, u: State, t: Tid)
    requires Inv(s) && OthersStay(s, u, t) && u.threads.Keys == s.threads.Keys && s.lifecycle == Some(t)
        && HoldsMutex(s.threads[t])
    requires SameDaemon(s, u) && u.adapters == s.adapters && u.approved == s.approved
    requires u.lifecycle == if HoldsMutex(u.threads[t]) then Some(t) else None
    requires MemoryInv(u) && OpInv(u, u.threads[t]) && FileInv(u) && FileMatches(u)
    requires forall a | Running(u, a) && (Owes(s.threads[t], a) || Installed(s, a)) ::
        Installed(u, a) || Owes(u.threads[t], a)
    requires forall a | Installed(u, a) ::
        WatchedBy(u.threads[t], a) || (Installed(s, a) && !WatchedBy(s.threads[t], a))
    ensures Inv(u)
  {
    hide LoadOf, IsValid;
    NoLeakStep(s, u, t);
    WatchStep(s, u, t);
    HolderIsAlone(s, t);
    forall x | x in u.threads
      ensures OpInv(u, u.threads[x])
    {
      assert x != t ==> OpInv(s, s.threads[x]);
    }
  }

  /** What a thread relies on, and what it and the mutex have to do with each other. */
  lemma ThreadOk(s: State, t: Tid)
    requires Inv(s) && t in s.threads
    ensures OpInv(s, s.threads[t]) && forall r | r in s.approved :: IsValid(r)
    ensures HoldsMutex(s.threads[t]) <==> s.lifecycle == Some(t)
    ensures s.mem.stopping ==> s.mem.process.None?
    ensures s.up && forall a | a in s.adapters :: s.adapters[a].daemon <= s.daemon
  {
  }

  lemma EnterKeepsInv(s: State, t: Tid, op: Op)
    requires Inv(s) && t in s.threads && s.lifecycle.None? && (op.StopLocked? || !s.mem.stopping)
    requires s.threads[t].RegisterWaiting? || s.threads[t].RemoveWaiting? || s.threads[t].StopWaiting?
    requires op.RegisterChecked? || op.RemoveChecked? || op.StopLocked?
    requires op.RegisterChecked? ==> s.threads[t] == RegisterWaiting(op.registration)
    ensures Inv(Goto(s, t, op).(lifecycle := Some(t)))
  {
    hide IsValid, Inv;
    ThreadOk(s, t);
    MoveKeepsInv(s, Goto(s, t, op).(lifecycle := Some(t)), t);
  }

  lemma CheckKeepsInv(s: State, t: Tid, op: Op)
    requires Inv(s) && t in s.threads && (s.threads[t].RegisterWaiting? || s.threads[t].RemoveWaiting?)
    requires op.RemoveChecked? || (op.RegisterChecked? && s.threads[t] == RegisterWaiting(op.registration))
    ensures Inv(Check(s, t, op))
  {
    hide Inv;
    if s.lifecycle.None? {
      if s.mem.stopping {
        HolderLocks(s, t);
        CloseKeepsInv(s, t, Finished, None);
      } else {
        EnterKeepsInv(s, t, op);
      }
    }
  }

  lemma BuildKeepsInv(s: State, t: Tid, r: Registration, fails: bool, id: AdapterId)
    requires Inv(s) && t in s.threads && s.threads[t] == RegisterChecked(r)
    ensures Inv(Build(s, t, r, fails, id))
  {
    hide Inv;
    if id !in s.adapters {
      if fails || !IsValid(r) {
        CloseNothing(s, t);
      } else {
        hide IsValid;
        ThreadOk(s, t);
        MoveKeepsInv(s, Build(s, t, r, fails, id), t);
      }
    }
  }

  lemma HandshakeKeepsInv(s: State, t: Tid, r: Registration, fails: bool, a: AdapterId)
    requires Inv(s) && t in s.threads && s.threads[t] == RegisterStarted(r, a)
    ensures Inv(Handshake(s, t, r, fails, a))
  {
    hide IsValid, Inv;
    ThreadOk(s, t);
    MoveKeepsInv(s, Handshake(s, t, r, fails, a), t);
  }

  lemma HandshakeAgainKeepsInv(s: State, t: Tid, r: Registration, fails: bool, a: AdapterId)
    requires Inv(s) && t in s.threads && s.threads[t] == RestoreStarted(r, a)
    ensures Inv(HandshakeAgain(s, t, r, fails, a))
  {
    hide IsValid, Inv;
    ThreadOk(s, t);
    MoveKeepsInv(s, HandshakeAgain(s, t, r, fails, a), t);
  }

  lemma RestoreKeepsInv(s: State, t: Tid, r: Registration, a: AdapterId)
    requires Inv(s) && t in s.threads && s.threads[t] == RestoreBuilt(r, a)
    ensures Inv(Goto(s, t, RegisterWatch(a)).(mem := Install(s.mem, a)))
  {
    ThreadOk(s, t);
    hide IsValid, LoadOf;
    SectionKeepsInv(s, Goto(s, t, RegisterWatch(a)).(mem := Install(s.mem, a)), t);
  }

  lemma StartSaveKeepsInv(s: State, t: Tid, r: Registration, a: AdapterId, fails: bool, tmp: nat)
    requires Inv(s) && t in s.threads && s.threads[t] == RegisterBuilt(r, a)
    ensures Inv(StartSave(s, t, r, a, fails, tmp))
  {
    hide IsValid, Inv;
    ThreadOk(s, t);
    if StartSave(s, t, r, a, fails, tmp) != s {
      MoveKeepsInv(s, StartSave(s, t, r, a, fails, tmp), t);
    }
  }

  lemma WriteKeepsInv(s: State, t: Tid, r: Registration, a: AdapterId, tmp: nat, n: nat)
    requires Inv(s) && t in s.threads && s.threads[t] == RegisterTemp(r, a, tmp) && tmp in s.dir.temps
    requires |s.dir.temps[tmp]| + n <= |s.coding.encode(r)|
    ensures var done := |s.dir.temps[tmp]|;
            Inv(s.(dir := Changed(s.dir, Write(tmp, s.coding.encode(r)[done..done + n]))))
  {
    hide IsValid, Inv;
    ThreadOk(s, t);
    var data, done := s.coding.encode(r), |s.dir.temps[tmp]|;
    assert s.dir.temps[tmp] + data[done..done + n] == data[..done + n];
    MoveKeepsInv(s, s.(dir := Changed(s.dir, Write(tmp, data[done..done + n]))), t);
  }

  lemma AbortKeepsInv(s: State, t: Tid, dir: Dir)
    requires Inv(s) && t in s.threads && s.threads[t].RegisterTemp? && dir.file == s.dir.file
    ensures Inv(Goto(s, t, RegisterAbort(s.threads[t].adapter)).(dir := dir))
  {
    hide IsValid, Inv;
    ThreadOk(s, t);
    MoveKeepsInv(s, Goto(s, t, RegisterAbort(s.threads[t].adapter)).(dir := dir), t);
  }

  /** The rename publishes the whole encoding of a registration that was approved. */
  lemma RenameKeepsInv(s: State, t: Tid, r: Registration, a: AdapterId, tmp: nat)
    requires Inv(s) && t in s.threads && s.threads[t] == RegisterTemp(r, a, tmp) && tmp in s.dir.temps
    requires |s.dir.temps[tmp]| >= |s.coding.encode(r)|
    ensures Inv(Goto(s, t, RegisterSaved(r, a)).(dir := Changed(s.dir, Rename(tmp))))
  {
    ThreadOk(s, t);
    assert s.dir.temps[tmp] == s.coding.encode(r);
    assert RoundTrips(s.coding, r);
    SavedLoads(s.coding, r);
    hide IsValid, LoadOf;
    SectionKeepsInv(s, Goto(s, t, RegisterSaved(r, a)).(dir := Changed(s.dir, Rename(tmp))), t);
  }

  lemma SaveKeepsInv(s: State, t: Tid, r: Registration, a: AdapterId, tmp: nat, fails: bool, n: nat)
    requires Inv(s) && t in s.threads && s.threads[t] == RegisterTemp(r, a, tmp)
    ensures Inv(SaveStep(s, t, r, a, tmp, fails, n))
  {
    hide Inv;
    if fails || tmp !in s.dir.temps {
      AbortKeepsInv(s, t, if n == 0 then s.dir else Changed(s.dir, Discard(tmp)));
    } else if |s.dir.temps[tmp]| >= |s.coding.encode(r)| {
      RenameKeepsInv(s, t, r, a, tmp);
    } else if |s.dir.temps[tmp]| + n <= |s.coding.encode(r)| {
      WriteKeepsInv(s, t, r, a, tmp, n);
    }
  }

  lemma FlagKeepsInv(s: State, a: AdapterId)
    requires Inv(s)
    ensures Inv(Flagged(s, a))
  {
    hide Inv, OpInv;
    OthersKeepInv(s, Flagged(s, a));
  }

  /** A thread whose debt is settled goes on without it. */
  lemma SettleKeepsInv(s: State, t: Tid, op: Op, lifecycle: Option<Tid>)
    requires Inv(s) && t in s.threads && !s.threads[t].RegisterSaved? && !s.threads[t].RemoveFileGone?
    requires Debt(s.threads[t]).Some? ==> !Running(s, Debt(s.threads[t]).value)
    requires op.Finished? || (s.threads[t].RegisterSwapped? && op == RegisterWatch(s.threads[t].adapter))
    requires op.Finished? ==> !s.threads[t].RegisterSwapped? && !s.threads[t].RegisterWatch? && !s.threads[t].Watching?
    requires lifecycle == if s.lifecycle == Some(t) && !HoldsMutex(op) then None else s.lifecycle
    ensures Inv(Goto(s, t, op).(lifecycle := lifecycle))
  {
    hide IsValid, Inv;
    ThreadOk(s, t);
    var u := Goto(s, t, op).(lifecycle := lifecycle);
    assert op.RegisterWatch? ==> WatchedBy(u.threads[t], op.adapter);
    MoveKeepsInv(s, u, t);
  }

  /** A thread closes the adapter it owes, and once that is done owes nothing more. */
  lemma CloseKeepsInv(s: State, t: Tid, op: Op, lifecycle: Option<Tid>)
    requires Inv(s) && t in s.threads && !s.threads[t].RegisterSaved? && !s.threads[t].RemoveFileGone?
    requires op.Finished? || (s.threads[t].RegisterSwapped? && op == RegisterWatch(s.threads[t].adapter))
    requires op.Finished? ==> !s.threads[t].RegisterSwapped? && !s.threads[t].RegisterWatch? && !s.threads[t].Watching?
    requires lifecycle == if s.lifecycle == Some(t) && !HoldsMutex(op) then None else s.lifecycle
    ensures Inv(CloseStep(s, Debt(s.threads[t]), Goto(s, t, op).(lifecycle := lifecycle)))
  {
    hide Inv;
    var debt := Debt(s.threads[t]);
    if debt.None? {
      SettleKeepsInv(s, t, op, lifecycle);
    } else {
      FlagKeepsInv(s, debt.value);
      ExitKeepsInv(s, debt.value);
      SettleKeepsInv(Killed(s, debt.value), t, op, lifecycle);
    }
  }

  lemma InstallKeepsInv(s: State, t: Tid)
    requires Inv(s) && t in s.threads && s.threads[t].RegisterSaved?
    ensures Inv(InstallSection(s, t, s.threads[t].adapter))
  {
    ThreadOk(s, t);
    hide IsValid, LoadOf;
    var u := InstallSection(s, t, s.threads[t].adapter);
    assert MemoryInv(u) && OpInv(u, u.threads[t]);
    hide OpInv;
    SectionKeepsInv(s, u, t);
  }

  lemma UninstallKeepsInv(s: State, t: Tid)
    requires Inv(s) && t in s.threads && s.threads[t].RemoveFileGone?
    ensures Inv(Goto(s, t, RemoveSwapped(s.mem.process)).(mem := Uninstall(s.mem)))
  {
    ThreadOk(s, t);
    hide IsValid, LoadOf;
    SectionKeepsInv(s, Goto(s, t, RemoveSwapped(s.mem.process)).(mem := Uninstall(s.mem)), t);
  }

  lemma UnregisterKeepsInv(s: State, t: Tid)
    requires Inv(s) && t in s.threads && s.threads[t].RemoveChecked?
    ensures Inv(Goto(s, t, RemoveFileGone).(dir := Changed(s.dir, Remove)))
  {
    ThreadOk(s, t);
    assert LoadOf(s.coding, None) == Unregistered;
    hide IsValid, LoadOf;
    SectionKeepsInv(s, Goto(s, t, RemoveFileGone).(dir := Changed(s.dir, Remove)), t);
  }

  lemma StopKeepsInv(s: State, t: Tid)
    requires Inv(s) && t in s.threads && s.threads[t].StopLocked?
    ensures Inv(Unlock(s, t, StopClosing(s.mem.process)).(mem := Stop(s.mem)))
  {
    ThreadOk(s, t);
    hide IsValid, LoadOf;
    SectionKeepsInv(s, Unlock(s, t, StopClosing(s.mem.process)).(mem := Stop(s.mem)), t);
  }

  lemma WatchKeepsInv(s: State, t: Tid, id: Tid)
    requires Inv(s) && t in s.threads && s.threads[t].RegisterWatch? && id !in s.threads
    ensures Inv(WatchStarted(s, t, id))
  {
    hide Inv, IsValid;
    ThreadOk(s, t);
    var a := s.threads[t].adapter;
    var w := Goto(s, id, Watching(a));
    assert OpInv(w, w.threads[id]);
    hide OpInv;
    OthersKeepInv(s, w);
    UnwatchKeepsInv(w, t, id);
    GotoCommutes(s.threads, id, Watching(a), t, Finished);
  }

  lemma GotoCommutes(threads: map<Tid, Op>, x: Tid, opX: Op, y: Tid, opY: Op)
    requires x != y
    ensures threads[x := opX][y := opY] == threads[y := opY][x := opX]
  {
  }

  /** The registration ends once the watcher is there. */
  lemma UnwatchKeepsInv(s: State, t: Tid, watcher: Tid)
    requires Inv(s) && t in s.threads && s.threads[t].RegisterWatch?
    requires watcher in s.threads && s.threads[watcher] == Watching(s.threads[t].adapter)
    ensures Inv(Unlock(s, t, Finished))
  {
    hide Inv, IsValid;
    ThreadOk(s, t);
    var u := Unlock(s, t, Finished);
    assert WatchedBy(u.threads[watcher], s.threads[t].adapter);
    assert OpInv(u, Finished);
    hide OpInv;
    MoveKeepsInv(s, u, t);
  }

  /** Clearing an adapter that has exited. */
  lemma ClearKeepsInv(s: State, a: AdapterId)
    requires Inv(s) && a in s.adapters && s.adapters[a].exited
    ensures Inv(s.(mem := ClearIf(s.mem, a)))
  {
    hide IsValid, LoadOf;
    var u := s.(mem := ClearIf(s.mem, a));
    assert Loads(u) == Loads(s);
    assert NoLeak(u) by {
      assert forall b | Running(u, b) && Mine(u, b) ::
          Running(s, b) && Mine(s, b) && (Installed(s, b) ==> Installed(u, b));
    }
    hide NoLeak, OpInv;
    OpsStay(s, u);
  }

  /** A watcher whose adapter is not installed may end. */
  lemma UnneededKeepsInv(s: State, t: Tid, a: AdapterId)
    requires Inv(s) && t in s.threads && s.threads[t] == Watching(a) && !Installed(s, a)
    ensures Inv(Goto(s, t, Finished))
  {
    hide Inv, IsValid;
    ThreadOk(s, t);
    var u := Goto(s, t, Finished);
    MoveKeepsInv(s, u, t);
  }

  /** A watcher that fires clears its own adapter, which has exited. */
  lemma WatcherKeepsInv(s: State, t: Tid, a: AdapterId)
    requires Inv(s) && t in s.threads && s.threads[t] == Watching(a) && a in s.adapters && s.adapters[a].exited
    ensures Inv(Cleared(s, t, a))
  {
    hide Inv, OpInv;
    ThreadOk(s, t);
    ClearKeepsInv(s, a);
    UnneededKeepsInv(s.(mem := ClearIf(s.mem, a)), t, a);
  }

  lemma RegisterKeepsInv(s: State, t: Tid, fails: bool, number: nat)
    requires Inv(s) && t in s.threads && IsRegister(s.threads[t])
    ensures Inv(StepRegister(s, t, fails, number))
  {
    ThreadOk(s, t);
    assert !s.threads[t].RegisterUndo?;
    hide Inv, OpInv, MutexInv, MemoryInv, IsValid, Check, Build, StartSave, SaveStep, InstallSection, CloseStep,
        Changed, Handshake, HandshakeAgain;
    match s.threads[t]
    case RegisterWaiting(r) => CheckKeepsInv(s, t, RegisterChecked(r));
    case RegisterChecked(r) => BuildKeepsInv(s, t, r, fails, number);
    case RegisterStarted(r, a) => HandshakeKeepsInv(s, t, r, fails, a);
    case RegisterBuilt(r, a) => StartSaveKeepsInv(s, t, r, a, fails, number);
    case RegisterTemp(r, a, tmp) => SaveKeepsInv(s, t, r, a, tmp, fails, number);
    case RegisterSaved(_, _) => InstallKeepsInv(s, t);
    case RegisterAbort(a) => HolderLocks(s, t); CloseKeepsInv(s, t, Finished, None);
    case RegisterSwapped(a, _) => CloseKeepsInv(s, t, RegisterWatch(a), s.lifecycle);
    case RegisterWatch(_) => if number !in s.threads { WatchKeepsInv(s, t, number); }
  }

  lemma HolderLocks(s: State, t: Tid)
    requires Inv(s) && t in s.threads
    ensures HoldsMutex(s.threads[t]) <==> s.lifecycle == Some(t)
  {
  }

  lemma ThreadKeepsInv(s: State, t: Tid, fails: bool, number: nat)
    requires Inv(s) && t in s.threads
    ensures Inv(StepThread(s, t, fails, number))
  {
    ThreadOk(s, t);
    HolderLocks(s, t);
    assert !s.threads[t].RegisterUndo?;
    hide Inv, OpInv, MutexInv, MemoryInv, IsValid, Check, Build, StartSave, SaveStep, InstallSection, CloseStep,
        Changed, HandshakeAgain, ClearIf, StepRegister;
    match s.threads[t]
    case RestoreStarted(r, a) => HandshakeAgainKeepsInv(s, t, r, fails, a);
    case RestoreBuilt(r, a) => RestoreKeepsInv(s, t, r, a);
    case RemoveWaiting => CheckKeepsInv(s, t, RemoveChecked);
    case RemoveChecked => if fails { CloseNothing(s, t); } else { UnregisterKeepsInv(s, t); }
    case RemoveFileGone => UninstallKeepsInv(s, t);
    case RemoveSwapped(_) => CloseKeepsInv(s, t, Finished, None);
    case StopWaiting => if s.lifecycle.None? { EnterKeepsInv(s, t, StopLocked); }
    case StopLocked => StopKeepsInv(s, t);
    case StopClosing(_) => CloseKeepsInv(s, t, Finished, s.lifecycle);
    case Watching(a) => if a in s.adapters && s.adapters[a].exited { WatcherKeepsInv(s, t, a); }
    case Finished =>
    case _ => RegisterKeepsInv(s, t, fails, number);
  }

  lemma CloseNothing(s: State, t: Tid)
    requires Inv(s) && t in s.threads && (s.threads[t].RemoveChecked? || s.threads[t].RegisterChecked?)
    ensures Inv(Unlock(s, t, Finished))
  {
    HolderLocks(s, t);
    hide Inv;
    SettleKeepsInv(s, t, Finished, None);
  }

  lemma WatchersStay(s: State, u: State)
    requires WatchInv(s) && u.mem == s.mem
    requires forall x | x in s.threads :: x in u.threads && u.threads[x] == s.threads[x]
    ensures WatchInv(u)
  {
    forall a | Installed(u, a)
      ensures exists x | x in u.threads :: WatchedBy(u.threads[x], a)
    {
      assert Installed(s, a);
      var x :| x in s.threads && WatchedBy(s.threads[x], a);
      assert WatchedBy(u.threads[x], a);
    }
  }

  lemma DebtorsStay(s: State, u: State)
    requires NoLeak(s) && u.mem == s.mem
    requires forall x | x in s.threads :: x in u.threads && u.threads[x] == s.threads[x]
    requires forall a | Running(u, a) && Mine(u, a) :: Running(s, a) && Mine(s, a)
    ensures NoLeak(u)
  {
    forall a | Running(u, a) && Mine(u, a) && !Installed(u, a)
      ensures exists x | x in u.threads :: Owes(u.threads[x], a)
    {
      assert Running(s, a) && Mine(s, a);
      var x :| x in s.threads && Owes(s.threads[x], a);
      assert Owes(u.threads[x], a);
    }
  }

  /** A step of no thread: whoever relies on something still can. */
  lemma OthersKeepInv(s: State, u: State)
    requires Inv(s) && SameDaemon(s, u) && AdaptersGrow(s, u) && u.approved == s.approved
    requires u.mem == s.mem && u.dir == s.dir && u.lifecycle == s.lifecycle
    requires forall x | x in s.threads :: x in u.threads && u.threads[x] == s.threads[x]
    requires forall x | x in u.threads && x !in s.threads :: s.up && !HoldsMutex(u.threads[x]) && OpInv(u, u.threads[x])
    requires forall a | Running(u, a) && Mine(u, a) :: Running(s, a) && Mine(s, a)
    ensures Inv(u)
  {
    hide IsValid, LoadOf;
    assert Loads(u) == Loads(s);
    DebtorsStay(s, u);
    WatchersStay(s, u);
    hide NoLeak, WatchInv, OpInv;
    OpsStay(s, u);
  }

  lemma ExitKeepsInv(s: State, a: AdapterId)
    requires Inv(s)
    ensures Inv(Killed(s, a))
  {
    hide Inv, OpInv;
    OthersKeepInv(s, Killed(s, a));
  }

  lemma SpawnKeepsInv(s: State, t: Tid, op: Op)
    requires Inv(s)
    ensures Inv(Apply(s, Spawn(t, op)))
  {
    hide Inv;
    OthersKeepInv(s, Apply(s, Spawn(t, op)));
  }

  lemma BootKeepsInv(s: State, id: AdapterId, main: Tid, starts: bool)
    requires Inv(s)
    ensures Inv(BootStep(s, id, main, starts))
  {
    hide IsValid, LoadOf;
    var u := BootStep(s, id, main, starts);
    if u != s {
      assert Loads(u) == Loads(s);
      assert forall a | Mine(u, a) :: a == id;
      assert id in u.adapters ==> Owes(u.threads[main], id);
    }
  }

  lemma EndKeepsInv(s: State)
    requires Inv(s)
    ensures Inv(Ended(s))
  {
    hide IsValid, LoadOf;
    assert Loads(Ended(s)) == Loads(s);
  }

  lemma ServeKeepsInv(s: State)
    requires Inv(s)
    ensures Inv(s.(serving := true))
  {
    hide Inv, OpInv;
    OthersKeepInv(s, s.(serving := true));
  }

  lemma StepKeepsInv(s: State, e: Event)
    requires Inv(s)
    ensures Inv(Apply(s, e))
  {
    hide Inv;
    match e
    case Spawn(t, op) => SpawnKeepsInv(s, t, op);
    case Step(t, fails, number) => if t in s.threads { ThreadKeepsInv(s, t, fails, number); }
    case ChildExits(a) => ExitKeepsInv(s, a);
    case CallFails(a) => FlagKeepsInv(s, a);
    case Boot(id, main, starts) => BootKeepsInv(s, id, main, starts);
    case Serve => ServeKeepsInv(s);
    case FailStartup => EndKeepsInv(s);
    case Crash => EndKeepsInv(s);
  }

  lemma {:induction false} RunKeepsInv(s: State, events: seq<Event>)
    requires Inv(s)
    ensures Inv(Run(s, events))
    decreases |events|
  {
    if events != [] {
      StepKeepsInv(s, events[0]);
      RunKeepsInv(Apply(s, events[0]), events[1..]);
    }
  }

  // --- Main results, for every run from any initial state ---

  ghost predicate Reachable(s: State) {
    exists start, events :: Initial(start) && Run(start, events) == s
  }

  lemma ReachableInv(s: State)
    requires Reachable(s)
    ensures Inv(s)
  {
    var start, events :| Initial(start) && Run(start, events) == s;
    InitialInv(start);
    RunKeepsInv(start, events);
  }

  /**
   No daemon leaks a child while it runs: a child it started belongs to the installed adapter, or has exited,
   or some operation still under way is going to close or install it. The controller always belongs to the
   installed process.
   */
  lemma NoAdapterLeak(s: State, a: AdapterId)
    requires Reachable(s) && Mine(s, a)
    ensures s.mem.controller == s.mem.process
    ensures Installed(s, a) || s.adapters[a].exited || exists t | t in s.threads :: Owes(s.threads[t], a)
  {
    ReachableInv(s);
    assert Running(s, a) || s.adapters[a].exited;
  }

  /**
   Once every operation has ended and only watchers wait, the child of the installed adapter is the only one
   of the daemon that can be running.
   */
  lemma QuietDaemonHasOneAdapter(s: State, a: AdapterId)
    requires Reachable(s) && Running(s, a) && Mine(s, a) && Quiet(s)
    ensures Installed(s, a) && Loads(s) == Registered(s.adapters[a].registration)
    ensures exists t | t in s.threads :: s.threads[t] == Watching(a)
  {
    ReachableInv(s);
    assert Installed(s, a);
    var t :| t in s.threads && WatchedBy(s.threads[t], a);
    assert s.threads[t] == Watching(a);
  }

  // --- Children that outlive their daemon ---

  predicate Orphan(s: State, a: AdapterId) {
    a in s.adapters && !Mine(s, a)
  }

  /** Nobody kills a child of an earlier daemon: it runs on until it exits by itself. */
  lemma OrphanStep(s: State, e: Event, a: AdapterId)
    requires Inv(s) && Orphan(s, a)
    ensures Orphan(Apply(s, e), a)
    ensures Running(Apply(s, e), a) <==> Running(s, a) && e != ChildExits(a)
  {
    if e.Step? && e.tid in s.threads {
      ThreadOk(s, e.tid);
    }
    assert s.adapters[a].daemon <= s.daemon;
    hide IsValid, LoadOf, Inv, OpInv, StepThread;
  }

  lemma {:induction false} OrphanRun(s: State, events: seq<Event>, a: AdapterId)
    requires Inv(s) && Orphan(s, a)
    ensures Orphan(Run(s, events), a)
    ensures Running(Run(s, events), a) <==> Running(s, a) && ChildExits(a) !in events
    decreases |events|
  {
    hide Inv, Orphan, Apply;
    if events != [] {
      OrphanStep(s, events[0], a);
      StepKeepsInv(s, events[0]);
      OrphanRun(Apply(s, events[0]), events[1..], a);
      assert events == [events[0]] + events[1..];
    }
  }

  /** The step ends the running daemon. */
  predicate Ends(s: State, e: Event) {
    s.up && !Apply(s, e).up
  }

  lemma EndsIsEnded(s: State, e: Event)
    requires Ends(s, e)
    ensures Apply(s, e) == Ended(s)
  {
    hide IsValid, LoadOf, StepThread;
  }

  /**
   Exactly when the child of an adapter outlives its daemon: it was running when the daemon ended, closed or
   not and handshake or not, and it has not exited since. Whatever later daemons do, restart included, neither
   installs nor kills it.
   */
  lemma AdapterOutlivesDaemon(s: State, e: Event, a: AdapterId, after: seq<Event>)
    requires Reachable(s) && Mine(s, a) && Ends(s, e)
    ensures var u := Run(Apply(s, e), after);
            && Orphan(u, a) && !Installed(u, a)
            && (Running(u, a) <==> Running(s, a) && ChildExits(a) !in after)
  {
    ReachableInv(s);
    EndsIsEnded(s, e);
    EndKeepsInv(s);
    OrphanRun(Ended(s), after, a);
    RunKeepsInv(Ended(s), after);
  }

  /**
   When startup fails after the restore, exactly the child of the restored adapter stays behind, if it has
   not exited: a child whose handshake failed has been closed by then.
   */
  lemma FailedStartupLeavesAdapter(s: State, a: AdapterId)
    requires Reachable(s) && Mine(s, a) && Ends(s, FailStartup)
    ensures Running(Apply(s, FailStartup), a) <==> Installed(s, a) && !s.adapters[a].exited
  {
    ReachableInv(s);
    if Running(s, a) {
      QuietDaemonHasOneAdapter(s, a);
    }
  }

  /** A daemon that has stopped, all of its operations ended, leaves none behind. */
  lemma StoppedDaemonLeavesNone(s: State, e: Event, a: AdapterId, after: seq<Event>)
    requires Reachable(s) && Mine(s, a) && s.mem.stopping && Quiet(s) && Ends(s, e)
    ensures !Running(s, a) && !Running(Run(Apply(s, e), after), a)
  {
    ReachableInv(s);
    AdapterOutlivesDaemon(s, e, a, after);
  }

  /** The watcher of one adapter never clears another: its step either changes no memory or uninstalls its own. */
  lemma WatcherClearsOnlyItsOwn(s: State, t: Tid, a: AdapterId, fails: bool, id: nat)
    requires Reachable(s) && t in s.threads && s.threads[t] == Watching(a)
    ensures var u := Apply(s, Step(t, fails, id));
            && u.mem == (if Installed(s, a) && a in s.adapters && s.adapters[a].exited
                         then Memory(false, None, None, s.mem.instances) else s.mem)
            && (u.mem != s.mem ==> s.mem.process == Some(a) && !Running(s, a))
  {
    ReachableInv(s);
    assert OpInv(s, s.threads[t]);
  }

  /** An adapter that died while installed is cleared: some thread watches it, or will. */
  lemma DeadAdapterIsWatched(s: State, a: AdapterId)
    requires Reachable(s) && Installed(s, a)
    ensures exists t | t in s.threads :: WatchedBy(s.threads[t], a)
  {
    ReachableInv(s);
  }

  /** The daemon with this number has ended. */
  predicate HasEnded(s: State, daemon: nat) {
    s.daemon > daemon || (s.daemon == daemon && !s.up)
  }

  lemma StepAfterEnd(s: State, e: Event, daemon: nat)
    requires HasEnded(s, daemon)
    ensures HasEnded(Apply(s, e), daemon)
  {
    hide IsValid, LoadOf, StepThread;
  }

  lemma {:induction false} RunAfterEnd(s: State, events: seq<Event>, daemon: nat)
    requires HasEnded(s, daemon)
    ensures HasEnded(Run(s, events), daemon)
    decreases |events|
  {
    hide Apply;
    if events != [] {
      StepAfterEnd(s, events[0], daemon);
      RunAfterEnd(Apply(s, events[0]), events[1..], daemon);
    }
  }

  /** Once stopping, both stay empty for as long as this daemon lives. */
  lemma {:induction false} StoppedStaysEmpty(s: State, events: seq<Event>)
    requires Inv(s) && s.mem.stopping
    ensures var u := Run(s, events);
            HasEnded(u, s.daemon) || (u.mem.stopping && u.mem.process.None? && u.mem.controller.None?)
    decreases |events|
  {
    if events != [] {
      var v := Apply(s, events[0]);
      StepKeepsInv(s, events[0]);
      StepKeepsStopping(s, events[0]);
      if HasEnded(v, s.daemon) {
        RunAfterEnd(v, events[1..], s.daemon);
      } else {
        StoppedStaysEmpty(v, events[1..]);
      }
    }
  }

  lemma StepKeepsStopping(s: State, e: Event)
    requires Inv(s) && s.mem.stopping
    ensures var u := Apply(s, e); HasEnded(u, s.daemon) || (u.mem.stopping && u.daemon == s.daemon)
  {
  }

  /** Stop takes the lifecycle mutex, so the branch of register that undoes a saved registration is never reached. */
  lemma UndoIsUnreachable(s: State, t: Tid)
    requires Reachable(s) && t in s.threads
    ensures !s.threads[t].RegisterUndo?
  {
    ReachableInv(s);
    assert OpInv(s, s.threads[t]);
  }

  /**
   At every point of every run, crashes included, the registration file holds nothing, or a complete valid
   registration whose adapter had shaken hands, or still what was found at first, which does not load.
   */
  lemma RegistrationIsCrashConsistent(s: State, events: seq<Event>)
    requires Initial(s)
    ensures var u := Run(s, events);
            match LoadOf(s.coding, u.dir.file)
            case Unregistered => u.dir.file.None?
            case Registered(r) => IsValid(r) && r in u.approved
            case Broken => u.dir.file == s.dir.file
  {
    InitialInv(s);
    RunKeepsInv(s, events);
    RunKeepsOrigin(s, events);
  }

  lemma {:induction false} RunKeepsOrigin(s: State, events: seq<Event>)
    ensures Run(s, events).coding == s.coding && Run(s, events).found == s.found
    decreases |events|
  {
    if events != [] {
      StepKeepsOrigin(s, events[0]);
      RunKeepsOrigin(Apply(s, events[0]), events[1..]);
    }
  }

  lemma StepKeepsOrigin(s: State, e: Event)
    ensures Apply(s, e).coding == s.coding && Apply(s, e).found == s.found
  {
    hide IsValid, LoadOf, StepThread;
  }

  /** Whenever the lifecycle mutex is free, the installed adapter is the one registered on disk. */
  lemma InstalledIsRegistered(s: State, a: AdapterId)
    requires Reachable(s) && s.lifecycle.None? && Installed(s, a)
    ensures Mine(s, a) && Loads(s) == Registered(s.adapters[a].registration)
  {
    ReachableInv(s);
  }
}
