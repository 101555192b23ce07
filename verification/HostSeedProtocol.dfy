/**
 Initialization of the Runtime host seed by any number of processes.

 Each step is one file-system or lock operation of one caller, chosen by an event; an event whose
 step is not enabled changes nothing. A run is any sequence of events from an initial state, so it
 covers every interleaving, and a crash may strike before every step.

 Assumed of the operating system: the lock is exclusive and dies with its holder; link and remove
 are atomic; a removed file's contents stay readable through an open handle.
 */
module HostSeedProtocol {
  import opened Wrappers
  import opened SeedText

  type Pid = nat
  type Inode = nat

  datatype Outcome = Success(seed: string) | Failure

  datatype Pc =
    | Start
    | FastOpened(file: Inode)
    | WantLock
    | Locked
    | LockedOpened(file: Inode)
    | Generating
    | Removing(seed: string)
    | Creating(seed: string)
    | Writing(seed: string, tmp: string, file: Inode)
    | Unlinking(seed: string, tmp: string, linked: bool)
    | Releasing(outcome: Outcome)
    | Done(outcome: Outcome)
    | Crashed

  /** `path` is the published name, `temps` the other names in the directory, `disk` every file ever created. */
  datatype State = State(
    path: Option<Inode>,
    temps: map<string, Inode>,
    disk: map<Inode, string>,
    lock: Option<Pid>,
    procs: map<Pid, Pc>)

  /** One step of one process. A flag `fails` is an operating-system error; `node` is the file a create allocates. */
  datatype Action =
    | Spawn
    | FastOpen(fails: bool)
    | FastRead(fails: bool)
    | Prepare
    | TakeLock
    | LockedOpen(fails: bool)
    | LockedRead(fails: bool)
    | Generate(random: Octets)
    | GenerateFails
    | Remove(fails: bool)
    | CreateTemp(name: string, node: Inode)
    | CreateFails
    | Write(count: nat)
    | WriteFails
    | Link(fails: bool)
    | Unlink(fails: bool)
    | Release
    | Crash

  datatype Event = Event(pid: Pid, action: Action)

  /** The process holds the lock. */
  predicate Critical(pc: Pc) {
    || pc.Locked? || pc.LockedOpened? || pc.Generating? || pc.Removing?
    || pc.Creating? || pc.Writing? || pc.Unlinking? || pc.Releasing?
  }

  function Goto(s: State, p: Pid, pc: Pc): State {
    s.(procs := s.procs[p := pc])
  }

  function Content(s: State, file: Inode): string {
    if file in s.disk then s.disk[file] else ""
  }

  /** The seed that the published file holds, if it is one. */
  function Published(s: State): Option<string> {
    if s.path.Some? then ReadSeed(Content(s, s.path.value)) else None
  }

  function Apply(s: State, e: Event): State {
    var Event(p, a) := e;
    if p !in s.procs then if a.Spawn? then Goto(s, p, Start) else s
    else
      match a
      case Spawn => s
      case FastOpen(fails) => FastOpenStep(s, p, fails)
      case FastRead(fails) => FastReadStep(s, p, fails)
      case Prepare => if s.procs[p].WantLock? then Goto(s, p, Done(Failure)) else s
      case TakeLock => TakeLockStep(s, p)
      case LockedOpen(fails) => LockedOpenStep(s, p, fails)
      case LockedRead(fails) => LockedReadStep(s, p, fails)
      case Generate(random) => if s.procs[p].Generating? then Goto(s, p, Removing(Render(random))) else s
      case GenerateFails => if s.procs[p].Generating? then Goto(s, p, Releasing(Failure)) else s
      case Remove(fails) => RemoveStep(s, p, fails)
      case CreateTemp(name, node) => CreateTempStep(s, p, name, node)
      case CreateFails => if s.procs[p].Creating? then Goto(s, p, Releasing(Failure)) else s
      case Write(count) => WriteStep(s, p, count)
      case WriteFails => if s.procs[p].Writing? then Goto(s, p, Releasing(Failure)) else s
      case Link(fails) => LinkStep(s, p, fails)
      case Unlink(fails) => UnlinkStep(s, p, fails)
      case Release => ReleaseStep(s, p)
      case Crash => CrashStep(s, p)
  }

  /** The unlocked fast path: any failure to read a valid seed moves on to the lock. */
  function FastOpenStep(s: State, p: Pid, fails: bool): State
    requires p in s.procs
  {
    if !s.procs[p].Start? then s
    else Goto(s, p, if fails || s.path.None? then WantLock else FastOpened(s.path.value))
  }

  function FastReadStep(s: State, p: Pid, fails: bool): State
    requires p in s.procs
  {
    if !s.procs[p].FastOpened? then s
    else
      var seed := ReadSeed(Content(s, s.procs[p].file));
      Goto(s, p, if !fails && seed.Some? then Done(Success(seed.value)) else WantLock)
  }

  function TakeLockStep(s: State, p: Pid): State
    requires p in s.procs
  {
    if s.procs[p].WantLock? && s.lock.None? then Goto(s, p, Locked).(lock := Some(p)) else s
  }

  /** The read under the lock. */
  function LockedOpenStep(s: State, p: Pid, fails: bool): State
    requires p in s.procs
  {
    if !s.procs[p].Locked? then s
    else Goto(s, p, if fails || s.path.None? then Generating else LockedOpened(s.path.value))
  }

  function LockedReadStep(s: State, p: Pid, fails: bool): State
    requires p in s.procs
  {
    if !s.procs[p].LockedOpened? then s
    else
      var seed := ReadSeed(Content(s, s.procs[p].file));
      Goto(s, p, if !fails && seed.Some? then Releasing(Success(seed.value)) else Generating)
  }

  /** The serialized replacement starts by removing a malformed file. */
  function RemoveStep(s: State, p: Pid, fails: bool): State
    requires p in s.procs
  {
    if !s.procs[p].Removing? then s
    else if fails then Goto(s, p, Releasing(Failure))
    else Goto(s, p, Creating(s.procs[p].seed)).(path := None)
  }

  /** Creating the temporary file truncates a leftover of the same name in place. */
  function CreateTempStep(s: State, p: Pid, name: string, node: Inode): State
    requires p in s.procs
  {
    if !s.procs[p].Creating? then s
    else if name in s.temps then
      Goto(s, p, Writing(s.procs[p].seed, name, s.temps[name])).(disk := s.disk[s.temps[name] := ""])
    else if node in s.disk then s
    else Goto(s, p, Writing(s.procs[p].seed, name, node)).(disk := s.disk[node := ""], temps := s.temps[name := node])
  }

  function WriteStep(s: State, p: Pid, count: nat): State
    requires p in s.procs
  {
    if !s.procs[p].Writing? then s
    else
      var Writing(seed, _, file) := s.procs[p];
      var n := |Content(s, file)| + count;
      if n <= |seed + "\n"| then s.(disk := s.disk[file := (seed + "\n")[..n]]) else s
  }

  /** Only a complete file is linked, and never over an existing name. */
  function LinkStep(s: State, p: Pid, fails: bool): State
    requires p in s.procs
  {
    if !s.procs[p].Writing? then s
    else
      var Writing(seed, tmp, file) := s.procs[p];
      if Content(s, file) != seed + "\n" then s
      else if fails || s.path.Some? then Goto(s, p, Unlinking(seed, tmp, false))
      else Goto(s, p, Unlinking(seed, tmp, true)).(path := Some(file))
  }

  function UnlinkStep(s: State, p: Pid, fails: bool): State
    requires p in s.procs
  {
    if !s.procs[p].Unlinking? then s
    else
      var Unlinking(seed, tmp, linked) := s.procs[p];
      if fails then Goto(s, p, Releasing(Failure))
      else Goto(s, p, Releasing(if linked then Success(seed) else Failure)).(temps := s.temps - {tmp})
  }

  function ReleaseStep(s: State, p: Pid): State
    requires p in s.procs
  {
    if s.procs[p].Releasing? then Goto(s, p, Done(s.procs[p].outcome)).(lock := None) else s
  }

  /** A crash at any point; the lock dies with its holder. */
  function CrashStep(s: State, p: Pid): State
    requires p in s.procs
  {
    if s.procs[p].Done? then s
    else Goto(s, p, Crashed).(lock := if s.lock == Some(p) then None else s.lock)
  }

  function Run(s: State, events: seq<Event>): State
    decreases |events|
  {
    if events == [] then s else Run(Apply(s, events[0]), events[1..])
  }

  lemma {:induction false} RunSplits(s: State, a: seq<Event>, b: seq<Event>)
    ensures Run(s, a + b) == Run(Run(s, a), b)
    decreases |a|
  {
    if a == [] {
      assert a + b == b;
    } else {
      assert (a + b)[1..] == a[1..] + b;
      RunSplits(Apply(s, a[0]), a[1..], b);
    }
  }

  /** Nobody has started; the published file and the leftovers are arbitrary. */
  predicate Begins(s: State) {
    && s.procs == map[] && s.lock.None?
    && s.temps.Values <= s.disk.Keys
    && (s.path.Some? ==> s.path.value in s.disk)
  }

  /** Some leftover is a second name of a malformed published file. */
  predicate HasTwin(s: State) {
    s.path.Some? && Published(s).None? && s.path.value in s.temps.Values
  }

  predicate Initial(s: State) {
    Begins(s) && !HasTwin(s)
  }

  /** A read under the lock fails although a valid seed is published. */
  predicate Spurious(s: State, e: Event) {
    && e.pid in s.procs && Published(s).Some?
    && (|| (e.action == LockedOpen(true) && s.procs[e.pid].Locked?)
        || (e.action == LockedRead(true) && s.procs[e.pid].LockedOpened?))
  }

  /** No read of the run fails in that way. Every other failure may occur at any time. */
  predicate NoSpurious(s: State, events: seq<Event>)
    decreases |events|
  {
    events == [] || (!Spurious(s, events[0]) && NoSpurious(Apply(s, events[0]), events[1..]))
  }

  lemma {:induction false} NoSpuriousSplits(s: State, a: seq<Event>, b: seq<Event>)
    ensures NoSpurious(s, a + b) <==> NoSpurious(s, a) && NoSpurious(Run(s, a), b)
    decreases |a|
  {
    hide Apply, Spurious;
    if a == [] {
      assert a + b == b;
    } else {
      assert (a + b)[1..] == a[1..] + b;
      NoSpuriousSplits(Apply(s, a[0]), a[1..], b);
    }
  }

  // --- The invariant ---

  /** The lock holder is the one process inside the critical section. */
  predicate LockInv(s: State) {
    && (forall p | p in s.procs :: Critical(s.procs[p]) <==> s.lock == Some(p))
    && (s.lock.Some? ==> s.lock.value in s.procs)
  }

  function OpenedBy(pc: Pc): Option<Inode> {
    match pc
    case FastOpened(file) => Some(file)
    case LockedOpened(file) => Some(file)
    case _ => None
  }

  /** A file that somebody may read: valid means published for good, malformed means never written again. */
  predicate Settled(s: State, file: Inode) {
    && file in s.disk
    && (ReadSeed(s.disk[file]).Some? ==> s.path == Some(file))
    && (ReadSeed(s.disk[file]).None? ==> file !in s.temps.Values)
  }

  predicate FileInv(s: State) {
    && s.temps.Values <= s.disk.Keys
    && (s.path.Some? ==> Settled(s, s.path.value))
    && (forall p | p in s.procs && OpenedBy(s.procs[p]).Some? :: Settled(s, OpenedBy(s.procs[p]).value))
  }

  /** What a process that may still replace the file relies on, and what a decided process knows. */
  predicate PcInv(s: State, pc: Pc) {
    match pc
    case LockedOpened(file) => s.path == Some(file)
    case Generating => Published(s).None?
    case Removing(seed) => Published(s).None? && IsUuidV4(seed) && ReadSeed(seed + "\n") == Some(seed)
    case Creating(seed) => s.path.None? && IsUuidV4(seed) && ReadSeed(seed + "\n") == Some(seed)
    case Writing(seed, tmp, file) =>
      && s.path.None? && IsUuidV4(seed) && ReadSeed(seed + "\n") == Some(seed)
      && tmp in s.temps && s.temps[tmp] == file
      && Content(s, file) <= seed + "\n"
    case Unlinking(seed, _, linked) => if linked then Published(s) == Some(seed) else Published(s).None?
    case Releasing(Success(seed)) => Published(s) == Some(seed)
    case Done(Success(seed)) => Published(s) == Some(seed)
    case _ => true
  }

  predicate Inv(s: State) {
    LockInv(s) && FileInv(s) && forall p | p in s.procs :: PcInv(s, s.procs[p])
  }

  /** The published file once valid stays, with the same contents. */
  predicate Kept(s: State, t: State) {
    Published(s).Some? ==> t.path == s.path && Content(t, t.path.value) == Content(s, s.path.value)
  }

  lemma InitialInv(s: State)
    requires Initial(s)
    ensures Inv(s)
  {
  }

  /** A step that only moves one process on. */
  lemma MoveKeepsInv(s: State, p: Pid, pc: Pc, lock: Option<Pid>)
    requires Inv(s)
    requires p in s.procs ==> (Critical(s.procs[p]) <==> s.lock == Some(p))
    requires lock == s.lock || (s.lock.None? && lock == Some(p)) || (s.lock == Some(p) && lock.None?)
    requires Critical(pc) <==> lock == Some(p)
    requires OpenedBy(pc).Some? ==> Settled(s, OpenedBy(pc).value)
    requires PcInv(s, pc)
    ensures Inv(Goto(s, p, pc).(lock := lock))
  {
    hide ReadSeed, Render;
    var t := Goto(s, p, pc).(lock := lock);
    assert LockInv(t);
    assert FileInv(t);
    forall q | q in t.procs
      ensures PcInv(t, t.procs[q])
    {
      SameFilesSamePc(s, t, t.procs[q]);
    }
  }

  /** What a process relies on depends on the files alone. */
  lemma SameFilesSamePc(s: State, t: State, pc: Pc)
    requires PcInv(s, pc) && t.path == s.path && t.temps == s.temps && t.disk == s.disk
    ensures PcInv(t, pc)
  {
    hide ReadSeed, Render;
  }

  /** A process about to replace the file is the only one that knows anything of it. */
  lemma WriterIsAlone(s: State, p: Pid, t: State)
    requires Inv(s) && p in s.procs && s.lock == Some(p) && Published(s).None?
    ensures forall q | q in s.procs && q != p :: PcInv(t, s.procs[q])
  {
    hide ReadSeed, Render;
    forall q | q in s.procs && q != p
      ensures PcInv(t, s.procs[q])
    {
      assert !Critical(s.procs[q]) && PcInv(s, s.procs[q]);
    }
  }

  /** A step of the writer that changes files. */
  lemma WriterStepKeepsInv(s: State, p: Pid, t: State)
    requires Inv(s) && p in s.procs && s.lock == Some(p) && Published(s).None?
    requires p in t.procs && t.procs == s.procs[p := t.procs[p]] && t.lock == s.lock && Critical(t.procs[p])
        && OpenedBy(t.procs[p]).None?
    requires FileInv(t) && PcInv(t, t.procs[p])
    ensures Inv(t) && Kept(s, t)
  {
    hide ReadSeed, Render;
    WriterIsAlone(s, p, t);
    assert LockInv(t);
    assert forall q | q in t.procs && q != p :: t.procs[q] == s.procs[q];
  }

  /** Files that are open or published keep their contents and standing while others change. */
  lemma SettledStays(s: State, t: State)
    requires FileInv(s) && t.procs.Keys == s.procs.Keys && t.temps.Values <= t.disk.Keys
    requires forall p | p in s.procs :: OpenedBy(t.procs[p]) == OpenedBy(s.procs[p]) || OpenedBy(t.procs[p]).None?
    requires forall f | f in s.disk && Settled(s, f) :: Settled(t, f)
    requires t.path.Some? ==> Settled(t, t.path.value)
    ensures FileInv(t)
  {
    hide ReadSeed, Render;
  }

  lemma SpawnKeepsInv(s: State, p: Pid)
    requires Inv(s) && p !in s.procs
    ensures Inv(Goto(s, p, Start))
  {
    MoveKeepsInv(s, p, Start, s.lock);
    assert Goto(s, p, Start).(lock := s.lock) == Goto(s, p, Start);
  }

  lemma RemoveKeepsInv(s: State, p: Pid, fails: bool)
    requires Inv(s) && p in s.procs
    ensures Inv(RemoveStep(s, p, fails))
  {
    hide ReadSeed, Render;
    var t := RemoveStep(s, p, fails);
    if t != s {
      if fails {
        MoveKeepsInv(s, p, Releasing(Failure), s.lock);
      } else {
        SettledStays(s, t);
        WriterStepKeepsInv(s, p, t);
      }
    }
  }

  lemma CreateKeepsInv(s: State, p: Pid, name: string, node: Inode)
    requires Inv(s) && p in s.procs
    ensures Inv(CreateTempStep(s, p, name, node))
  {
    hide ReadSeed, Render;
    var t := CreateTempStep(s, p, name, node);
    if t != s {
      SettledStays(s, t);
      WriterStepKeepsInv(s, p, t);
    }
  }

  lemma WriteKeepsInv(s: State, p: Pid, count: nat)
    requires Inv(s) && p in s.procs
    ensures Inv(WriteStep(s, p, count))
  {
    hide ReadSeed, Render;
    var t := WriteStep(s, p, count);
    if t != s {
      SettledStays(s, t);
      WriterStepKeepsInv(s, p, t);
    }
  }

  lemma LinkKeepsInv(s: State, p: Pid, fails: bool)
    requires Inv(s) && p in s.procs
    ensures Inv(LinkStep(s, p, fails))
  {
    hide ReadSeed, Render;
    var t := LinkStep(s, p, fails);
    if t != s {
      SettledStays(s, t);
      WriterStepKeepsInv(s, p, t);
    }
  }

  /** Removing the temporary name leaves every file as it was. */
  lemma UnlinkKeepsInv(s: State, p: Pid, fails: bool)
    requires Inv(s) && p in s.procs
    ensures Inv(UnlinkStep(s, p, fails))
  {
    hide ReadSeed, Render;
    if !s.procs[p].Unlinking? {
    } else if fails {
      MoveKeepsInv(s, p, Releasing(Failure), s.lock);
    } else {
      var pc := s.procs[p];
      var t := s.(temps := s.temps - {pc.tmp});
      assert Published(t) == Published(s);
      forall q | q in s.procs
        ensures q == p || PcInv(t, s.procs[q])
      {
        assert PcInv(s, s.procs[q]) && (s.procs[q].Writing? ==> q == p);
      }
      MoveKeepsInv(t, p, Releasing(if pc.linked then Success(pc.seed) else Failure), s.lock);
    }
  }

  lemma GenerateKeepsInv(s: State, p: Pid, random: Octets)
    requires Inv(s) && p in s.procs
    ensures s.procs[p].Generating? ==> Inv(Goto(s, p, Removing(Render(random))))
  {
    hide ReadSeed, Render;
    PublishedSeedReadsBack(random);
    RenderIsUuidV4(random);
    if s.procs[p].Generating? {
      MoveKeepsInv(s, p, Removing(Render(random)), s.lock);
    }
  }

  lemma ReadsKeepInv(s: State, p: Pid, a: Action)
    requires Inv(s) && p in s.procs && !Spurious(s, Event(p, a))
    requires a.FastOpen? || a.FastRead? || a.LockedOpen? || a.LockedRead?
    ensures Inv(Apply(s, Event(p, a)))
  {
    hide ReadSeed, Render;
    var t := Apply(s, Event(p, a));
    if t != s {
      MoveKeepsInv(s, p, t.procs[p], s.lock);
    }
  }

  lemma FailuresKeepInv(s: State, p: Pid, a: Action)
    requires Inv(s) && p in s.procs
    requires a.Prepare? || a.GenerateFails? || a.CreateFails? || a.WriteFails?
    ensures Inv(Apply(s, Event(p, a)))
  {
    hide ReadSeed, Render;
    var t := Apply(s, Event(p, a));
    if t != s {
      MoveKeepsInv(s, p, t.procs[p], s.lock);
    }
  }

  lemma LockingKeepsInv(s: State, p: Pid)
    requires Inv(s) && p in s.procs
    ensures Inv(TakeLockStep(s, p)) && Inv(ReleaseStep(s, p)) && Inv(CrashStep(s, p))
  {
    hide ReadSeed, Render;
    if TakeLockStep(s, p) != s {
      MoveKeepsInv(s, p, Locked, Some(p));
    }
    if ReleaseStep(s, p) != s {
      MoveKeepsInv(s, p, Done(s.procs[p].outcome), None);
    }
    if CrashStep(s, p) != s {
      MoveKeepsInv(s, p, Crashed, if s.lock == Some(p) then None else s.lock);
    }
  }

  lemma StepKeepsInv(s: State, e: Event)
    requires Inv(s) && !Spurious(s, e)
    ensures Inv(Apply(s, e))
  {
    hide Inv, Spurious;
    var Event(p, a) := e;
    if p !in s.procs {
      SpawnKeepsInv(s, p);
    } else {
      match a
      case Spawn =>
      case Generate(random) => GenerateKeepsInv(s, p, random);
      case Remove(fails) => RemoveKeepsInv(s, p, fails);
      case CreateTemp(name, node) => CreateKeepsInv(s, p, name, node);
      case Write(count) => WriteKeepsInv(s, p, count);
      case Link(fails) => LinkKeepsInv(s, p, fails);
      case Unlink(fails) => UnlinkKeepsInv(s, p, fails);
      case TakeLock => LockingKeepsInv(s, p);
      case Release => LockingKeepsInv(s, p);
      case Crash => LockingKeepsInv(s, p);
      case Prepare => FailuresKeepInv(s, p, a);
      case GenerateFails => FailuresKeepInv(s, p, a);
      case CreateFails => FailuresKeepInv(s, p, a);
      case WriteFails => FailuresKeepInv(s, p, a);
      case _ => ReadsKeepInv(s, p, a);
    }
  }

  /** Exactly the spurious reads break the invariant. */
  lemma StepKeepsInvIff(s: State, e: Event)
    requires Inv(s)
    ensures Inv(Apply(s, e)) <==> !Spurious(s, e)
  {
    if Spurious(s, e) {
      SpuriousGenerates(s, e);
      assert !PcInv(Apply(s, e), Generating);
    } else {
      StepKeepsInv(s, e);
    }
  }

  /** After a spurious read the process goes on to replace the seed. */
  lemma SpuriousGenerates(s: State, e: Event)
    requires Spurious(s, e)
    ensures Apply(s, e) == Goto(s, e.pid, Generating) && Published(Apply(s, e)) == Published(s)
  {
    hide ReadSeed, Render;
  }

  /** A valid published seed is never replaced by a step. */
  lemma StepKeepsPublished(s: State, e: Event)
    requires Inv(s)
    ensures Kept(s, Apply(s, e))
  {
    hide ReadSeed, Render;
    if e.pid in s.procs {
      assert PcInv(s, s.procs[e.pid]);
    }
  }

  lemma {:induction false} RunKeepsInv(s: State, events: seq<Event>)
    requires Inv(s) && NoSpurious(s, events)
    ensures Inv(Run(s, events)) && Kept(s, Run(s, events))
    decreases |events|
  {
    hide Inv, Apply, Spurious;
    if events != [] {
      StepKeepsInv(s, events[0]);
      StepKeepsPublished(s, events[0]);
      RunKeepsInv(Apply(s, events[0]), events[1..]);
    }
  }

  // --- Main results ---

  predicate Returned(s: State, p: Pid, seed: string) {
    p in s.procs && s.procs[p] == Done(Success(seed))
  }

  /**
   All successful callers, of any number, in any run from any initial file, return the same seed: the
   published one.
   */
  lemma SeedAgreement(s: State, events: seq<Event>, p: Pid, q: Pid, x: string, y: string)
    requires Initial(s) && NoSpurious(s, events)
    requires Returned(Run(s, events), p, x) && Returned(Run(s, events), q, y)
    ensures x == y && Published(Run(s, events)) == Some(x)
  {
    InitialInv(s);
    RunKeepsInv(s, events);
    var t := Run(s, events);
    assert PcInv(t, t.procs[p]) && PcInv(t, t.procs[q]);
  }

  /** Once a valid seed is at the path, no later step of anybody replaces the file or its contents. */
  lemma ValidSeedIsNeverReplaced(s: State, before: seq<Event>, after: seq<Event>)
    requires Initial(s) && NoSpurious(s, before + after)
    requires Published(Run(s, before)).Some?
    ensures var t, u := Run(s, before), Run(s, before + after);
            u.path == t.path && Content(u, u.path.value) == Content(t, t.path.value)
  {
    NoSpuriousSplits(s, before, after);
    InitialInv(s);
    RunKeepsInv(s, before);
    RunKeepsInv(Run(s, before), after);
    RunSplits(s, before, after);
  }

  /** A version 4 UUID and a line feed, nothing missing. */
  predicate IsCompleteSeedFile(content: string) {
    |content| == 37 && IsUuidV4(content[..36]) && content[36] == '\n'
  }

  /** The file is untouched since the start of the run, or holds one complete fresh seed. */
  predicate Whole(start: State, s: State, file: Inode) {
    || (start.path == Some(file) && Content(s, file) == Content(start, file))
    || IsCompleteSeedFile(Content(s, file))
  }

  predicate WholeInv(start: State, s: State) {
    && (s.path.Some? ==> Whole(start, s, s.path.value))
    && (forall p | p in s.procs && OpenedBy(s.procs[p]).Some? :: Whole(start, s, OpenedBy(s.procs[p]).value))
  }

  /** Only creating and writing a temporary file change contents. */
  lemma DiskStays(s: State, e: Event)
    requires !e.action.CreateTemp? && !e.action.Write?
    ensures Apply(s, e).disk == s.disk
  {
    hide ReadSeed, Render, CreateTempStep, WriteStep, Content;
  }

  /** Only removal and link change the published name. */
  lemma PathStays(s: State, e: Event)
    requires !e.action.Remove? && !e.action.Link?
    ensures Apply(s, e).path == s.path
  {
    hide ReadSeed, Render, RemoveStep, LinkStep, Content;
  }

  /** The writer of a temporary file leaves alone what somebody may be reading. */
  lemma WriterAvoids(s: State, p: Pid, f: Inode)
    requires Inv(s) && Settled(s, f) && p in s.procs && (s.procs[p].Creating? || s.procs[p].Writing?)
    ensures f in s.disk && f !in s.temps.Values
    ensures s.procs[p].Writing? ==> s.procs[p].file in s.temps.Values
  {
    hide ReadSeed, Render;
    assert PcInv(s, s.procs[p]);
  }

  /** No step writes to a file somebody may be reading. */
  lemma StepKeepsSettled(s: State, e: Event, f: Inode)
    requires Inv(s) && Settled(s, f)
    ensures Content(Apply(s, e), f) == Content(s, f)
  {
    hide Inv, Settled, ReadSeed, Render;
    if e.pid in s.procs && (s.procs[e.pid].Creating? || s.procs[e.pid].Writing?) {
      WriterAvoids(s, e.pid, f);
    }
    if !e.action.CreateTemp? && !e.action.Write? {
      DiskStays(s, e);
    } else {
      hide FastOpenStep, FastReadStep, TakeLockStep, LockedOpenStep, LockedReadStep, RemoveStep, LinkStep,
          UnlinkStep, ReleaseStep, CrashStep;
      assert Content(Apply(s, e), f) == Content(s, f);
    }
  }

  /** A file gets the published name by a link to a complete temporary file. */
  lemma StepPublishes(s: State, e: Event)
    requires Inv(s)
    ensures var t := Apply(s, e); t.path.Some? ==> t.path == s.path || IsCompleteSeedFile(Content(t, t.path.value))
  {
    if e.pid in s.procs {
      assert PcInv(s, s.procs[e.pid]);
    }
    hide Inv, ReadSeed, Render;
    if e.action.Link? {
      LinkPublishes(s, e);
    } else if e.action.Remove? {
      RemovePublishesNothing(s, e);
    } else {
      PathStays(s, e);
    }
  }

  lemma RemovePublishesNothing(s: State, e: Event)
    requires e.action.Remove?
    ensures Apply(s, e).path == s.path || Apply(s, e).path.None?
  {
    hide ReadSeed, Render;
  }

  lemma LinkPublishes(s: State, e: Event)
    requires e.action.Link? && (e.pid in s.procs ==> PcInv(s, s.procs[e.pid]))
    ensures var t := Apply(s, e); t.path == s.path || (t.path.Some? && IsCompleteSeedFile(Content(t, t.path.value)))
  {
    hide ReadSeed, Render;
    if Apply(s, e) != s {
      var seed := s.procs[e.pid].seed;
      assert (seed + "\n")[..36] == seed;
    }
  }

  /** Only an open opens a file. */
  lemma OpensNothing(s: State, e: Event)
    requires !e.action.FastOpen? && !e.action.LockedOpen? && e.pid in Apply(s, e).procs
    requires OpenedBy(Apply(s, e).procs[e.pid]).Some?
    ensures e.pid in s.procs && Apply(s, e).procs[e.pid] == s.procs[e.pid]
  {
    hide ReadSeed, Render, Content, FastOpenStep, LockedOpenStep;
  }

  predicate ChangesFiles(a: Action) {
    a.Remove? || a.CreateTemp? || a.Write? || a.Link? || a.Unlink?
  }

  /** A step moves its own process and no other. */
  predicate MovesOnly(s: State, t: State, p: Pid) {
    t.procs == s.procs || (p in t.procs && t.procs == s.procs[p := t.procs[p]])
  }

  lemma FileStepMovesOnly(s: State, e: Event)
    requires ChangesFiles(e.action)
    ensures MovesOnly(s, Apply(s, e), e.pid)
  {
    hide ReadSeed, Render, Content;
  }

  lemma StepMovesOnly(s: State, e: Event)
    ensures MovesOnly(s, Apply(s, e), e.pid)
  {
    hide ReadSeed, Render, Content, RemoveStep, CreateTempStep, WriteStep, LinkStep, UnlinkStep;
    if ChangesFiles(e.action) {
      FileStepMovesOnly(s, e);
    }
  }

  /** A file is opened by its published name. */
  lemma StepOpens(s: State, e: Event, p: Pid)
    requires p in Apply(s, e).procs && OpenedBy(Apply(s, e).procs[p]).Some?
    ensures var file := OpenedBy(Apply(s, e).procs[p]); file == s.path || (p in s.procs && file == OpenedBy(s.procs[p]))
  {
    if p != e.pid {
      StepMovesOnly(s, e);
      hide Apply;
    } else if !e.action.FastOpen? && !e.action.LockedOpen? {
      OpensNothing(s, e);
    } else {
      OpenOpens(s, e);
    }
  }

  lemma OpenOpens(s: State, e: Event)
    requires e.action.FastOpen? || e.action.LockedOpen?
    requires e.pid in Apply(s, e).procs && OpenedBy(Apply(s, e).procs[e.pid]).Some?
    ensures var file := OpenedBy(Apply(s, e).procs[e.pid]);
            file == s.path || (e.pid in s.procs && file == OpenedBy(s.procs[e.pid]))
  {
  }

  lemma StepKeepsWhole(start: State, s: State, e: Event)
    requires Inv(s) && WholeInv(start, s)
    ensures WholeInv(start, Apply(s, e))
  {
    var t := Apply(s, e);
    StepPublishes(s, e);
    hide Apply;
    if s.path.Some? {
      StepKeepsSettled(s, e, s.path.value);
    }
    forall p | p in t.procs && OpenedBy(t.procs[p]).Some?
      ensures Whole(start, t, OpenedBy(t.procs[p]).value)
    {
      StepOpens(s, e, p);
      if p in s.procs && OpenedBy(s.procs[p]).Some? {
        StepKeepsSettled(s, e, OpenedBy(s.procs[p]).value);
      }
    }
  }

  lemma {:induction false} RunKeepsWhole(start: State, s: State, events: seq<Event>)
    requires Inv(s) && WholeInv(start, s) && NoSpurious(s, events)
    ensures WholeInv(start, Run(s, events))
    decreases |events|
  {
    if events != [] {
      StepKeepsInv(s, events[0]);
      StepKeepsWhole(start, s, events[0]);
      RunKeepsWhole(start, Apply(s, events[0]), events[1..]);
    }
  }

  /** No reader, locked or not, ever has a partly written seed open: only the initial file or a complete fresh one. */
  lemma ReadersSeeWholeFiles(s: State, events: seq<Event>, p: Pid)
    requires Initial(s) && NoSpurious(s, events)
    requires p in Run(s, events).procs && OpenedBy(Run(s, events).procs[p]).Some?
    ensures Whole(s, Run(s, events), OpenedBy(Run(s, events).procs[p]).value)
  {
    InitialInv(s);
    RunKeepsWhole(s, s, events);
  }

  // --- What can go wrong otherwise ---

  /** Some run without spurious reads leads from one state to the other. */
  ghost predicate Reaches(s: State, t: State) {
    exists events :: NoSpurious(s, events) && Run(s, events) == t
  }

  lemma ReachesItself(s: State)
    ensures Reaches(s, s)
  {
    assert NoSpurious(s, []) && Run(s, []) == s;
  }

  lemma ReachesOn(s: State, t: State, u: State)
    requires Reaches(s, t) && Reaches(t, u)
    ensures Reaches(s, u)
  {
    var a :| NoSpurious(s, a) && Run(s, a) == t;
    var b :| NoSpurious(t, b) && Run(t, b) == u;
    RunSplits(s, a, b);
    NoSpuriousSplits(s, a, b);
    assert NoSpurious(s, a + b) && Run(s, a + b) == u;
  }

  lemma ReachesStep(s: State, t: State, e: Event)
    requires Reaches(s, t) && !Spurious(t, e)
    ensures Reaches(s, Apply(t, e))
  {
    hide Apply, Spurious;
    var u := Apply(t, e);
    assert [e][1..] == [];
    assert NoSpurious(u, []) && Run(u, []) == u;
    assert NoSpurious(t, [e]) && Run(t, [e]) == u;
    ReachesOn(s, t, u);
  }

  /** The same state with process `p` elsewhere. */
  function At(s: State, p: Pid, pc: Pc): State {
    s.(procs := s.procs[p := pc])
  }

  lemma AtAgain(s: State, p: Pid, a: Pc, b: Pc)
    ensures At(At(s, p, a), p, b) == At(s, p, b)
  {
    assert s.procs[p := a][p := b] == s.procs[p := b];
  }

  /** The file that a create opens. */
  function Opened(s: State, name: string, node: Inode): Inode {
    if name in s.temps then s.temps[name] else node
  }

  /** What a writer has done once its temporary file is open. */
  function Created(s: State, p: Pid, seed: string, name: string, node: Inode): State {
    var file := Opened(s, name, node);
    At(s.(path := None, disk := s.disk[file := ""], temps := s.temps[name := file]), p, Writing(seed, name, file))
  }

  /** A process about to replace the seed can remove the published file and create its own. */
  lemma CanCreate(s: State, p: Pid, random: Octets, name: string, node: Inode)
    requires p in s.procs && s.procs[p].Generating? && (name in s.temps || node !in s.disk)
    ensures Reaches(s, Created(s, p, Render(random), name, node))
  {
    hide ReadSeed, Render, Reaches;
    var seed, n := Render(random), s.(path := None);
    ReachesItself(s);
    ReachesStep(s, s, Event(p, Generate(random)));
    ReachesStep(s, At(s, p, Removing(seed)), Event(p, Remove(false)));
    AtAgain(n, p, Removing(seed), Creating(seed));
    ReachesStep(s, At(n, p, Creating(seed)), Event(p, CreateTemp(name, node)));
    CreateFromAt(n, p, seed, name, node);
  }

  lemma CreateFromAt(s: State, p: Pid, seed: string, name: string, node: Inode)
    requires s.path.None? && (name in s.temps || node !in s.disk)
    ensures Apply(At(s, p, Creating(seed)), Event(p, CreateTemp(name, node))) == Created(s, p, seed, name, node)
  {
    var file := Opened(s, name, node);
    AtAgain(s, p, Creating(seed), Writing(seed, name, file));
    assert name in s.temps ==> s.temps[name := file] == s.temps;
  }

  /** A writer can write more of its line. */
  lemma CanWrite(s: State, p: Pid, seed: string, name: string, file: Inode, n: nat)
    requires p in s.procs && s.procs[p] == Writing(seed, name, file)
    requires Content(s, file) <= seed + "\n" && |Content(s, file)| + n <= |seed| + 1
    ensures Reaches(s, s.(disk := s.disk[file := (seed + "\n")[..|Content(s, file)| + n]]))
  {
    hide ReadSeed, Reaches;
    ReachesItself(s);
    ReachesStep(s, s, Event(p, Write(n)));
  }

  /** A writer whose line is complete can publish it and return. */
  lemma CanPublish(s: State, p: Pid, seed: string, name: string, file: Inode)
    requires p in s.procs && s.procs[p] == Writing(seed, name, file) && s.path.None? && Content(s, file) == seed + "\n"
    ensures Reaches(s, At(s.(path := Some(file), temps := s.temps - {name}, lock := None), p, Done(Success(seed))))
  {
    hide ReadSeed, Reaches;
    var l := s.(path := Some(file));
    var u := l.(temps := s.temps - {name});
    ReachesItself(s);
    ReachesStep(s, s, Event(p, Link(false)));
    ReachesStep(s, At(l, p, Unlinking(seed, name, true)), Event(p, Unlink(false)));
    AtAgain(u, p, Unlinking(seed, name, true), Releasing(Success(seed)));
    ReachesStep(s, At(u, p, Releasing(Success(seed))), Event(p, Release));
    AtAgain(u.(lock := None), p, Releasing(Success(seed)), Done(Success(seed)));
  }

  /** What a whole replacement comes to. */
  function Replaced(s: State, p: Pid, seed: string, name: string, node: Inode): State {
    var file := Opened(s, name, node);
    At(s.(path := Some(file), disk := s.disk[file := seed + "\n"], temps := s.temps - {name}, lock := None), p,
        Done(Success(seed)))
  }

  lemma CanReplace(s: State, p: Pid, random: Octets, name: string, node: Inode)
    requires p in s.procs && s.procs[p].Generating? && (name in s.temps || node !in s.disk)
    ensures Reaches(s, Replaced(s, p, Render(random), name, node))
  {
    hide ReadSeed, Render, Reaches;
    var seed, file := Render(random), Opened(s, name, node);
    var c := Created(s, p, seed, name, node);
    CanCreate(s, p, random, name, node);
    var w := c.(disk := c.disk[file := seed + "\n"]);
    assert (seed + "\n")[..|seed| + 1] == seed + "\n";
    CanWrite(c, p, seed, name, file, |seed| + 1);
    CanPublish(w, p, seed, name, file);
    ReachesOn(s, c, w);
    var t := At(w.(path := Some(file), temps := w.temps - {name}, lock := None), p, Done(Success(seed)));
    ReachesOn(s, w, t);
    assert t == Replaced(s, p, seed, name, node) by {
      assert s.disk[file := ""][file := seed + "\n"] == s.disk[file := seed + "\n"];
      assert s.temps[name := file] - {name} == s.temps - {name};
      assert s.procs[p := Writing(seed, name, file)][p := Done(Success(seed))] == s.procs[p := Done(Success(seed))];
    }
  }

  /** A spurious read lets its caller go on to replace the valid seed by its own, and return that. */
  lemma SpuriousReadReplacesSeed(s: State, e: Event, random: Octets, name: string, node: Inode)
    requires Spurious(s, e) && (name in s.temps || node !in s.disk)
    ensures var t := Replaced(Apply(s, e), e.pid, Render(random), name, node);
            && Reaches(Apply(s, e), t)
            && Published(t) == Some(Render(random)) && Returned(t, e.pid, Render(random))
            && forall q | q in s.procs && q != e.pid :: q in t.procs && t.procs[q] == s.procs[q]
  {
    hide ReadSeed, Render, Reaches, Apply;
    SpuriousGenerates(s, e);
    CanReplace(Apply(s, e), e.pid, random, name, node);
    PublishedSeedReadsBack(random);
  }

  /** There is always a seed other than this one. */
  lemma OtherSeed(x: string) returns (random: Octets)
    ensures Render(random) != x
  {
    var a: Octets := seq(16, _ => 0);
    var b: Octets := a[0 := 1];
    assert !AgreeAt(0, a[0], b[0]);
    RenderCollides(a, b);
    random := if Render(a) != x then a else b;
  }

  lemma FreshNode(disk: map<Inode, string>) returns (node: Inode)
    ensures node !in disk
  {
    node := AboveAll(disk.Keys);
  }

  lemma {:induction false} AboveAll(nodes: set<Inode>) returns (node: Inode)
    ensures forall x | x in nodes :: x < node
    decreases |nodes|
  {
    node := 0;
    if nodes != {} {
      var one :| one in nodes;
      var m := AboveAll(nodes - {one});
      node := if one < m then m else one + 1;
      assert forall x | x in nodes :: x == one || x in nodes - {one};
    }
  }

  /**
   Exactly when a step is safe for a published seed: whatever may follow without spurious reads, the seed
   stays, if and only if the step itself is no spurious read.
   */
  lemma SeedIsSafeIff(s: State, e: Event)
    requires Inv(s) && Published(s).Some?
    ensures (forall t | Reaches(Apply(s, e), t) :: Published(t) == Published(s)) <==> !Spurious(s, e)
  {
    if Spurious(s, e) {
      var random := OtherSeed(Published(s).value);
      var node := FreshNode(s.disk);
      SpuriousReadReplacesSeed(s, e, random, "", node);
    } else {
      StepKeepsInv(s, e);
      StepKeepsPublished(s, e);
      forall t | Reaches(Apply(s, e), t)
        ensures Published(t) == Published(s)
      {
        var events :| NoSpurious(Apply(s, e), events) && Run(Apply(s, e), events) == t;
        RunKeepsInv(Apply(s, e), events);
      }
    }
  }

  /** With such a read two successful callers can end up with different seeds. */
  lemma SpuriousReadBreaksAgreement(s: State, e: Event, q: Pid, x: string) returns (t: State, y: string)
    requires Spurious(s, e) && Returned(s, q, x)
    ensures Reaches(Apply(s, e), t) && Returned(t, q, x) && Returned(t, e.pid, y) && x != y
  {
    hide ReadSeed, Render, Reaches, Apply;
    var random := OtherSeed(x);
    var node := FreshNode(s.disk);
    SpuriousReadReplacesSeed(s, e, random, "", node);
    t, y := Replaced(Apply(s, e), e.pid, Render(random), "", node), Render(random);
  }

  // --- Calls that nothing disturbs succeed ---

  /** A caller that finds a valid seed published can return it without the lock. */
  lemma PublishedSeedIsReturned(s: State, p: Pid)
    requires p !in s.procs && Published(s).Some?
    ensures Reaches(s, At(s, p, Done(Success(Published(s).value))))
  {
    hide ReadSeed, Reaches;
    var file := s.path.value;
    ReachesItself(s);
    ReachesStep(s, s, Event(p, Spawn));
    ReachesStep(s, At(s, p, Start), Event(p, FastOpen(false)));
    AtAgain(s, p, Start, FastOpened(file));
    ReachesStep(s, At(s, p, FastOpened(file)), Event(p, FastRead(false)));
    AtAgain(s, p, FastOpened(file), Done(Success(Published(s).value)));
  }

  /** One that finds nothing published and the lock free can publish a fresh seed, and return that. */
  lemma FreshSeedIsPublished(s: State, p: Pid, random: Octets, name: string, node: Inode)
    requires p !in s.procs && s.path.None? && s.lock.None? && (name in s.temps || node !in s.disk)
    ensures var t := Replaced(At(s.(lock := Some(p)), p, Generating), p, Render(random), name, node);
            Reaches(s, t) && Returned(t, p, Render(random)) && Published(t) == Some(Render(random))
  {
    hide ReadSeed, Render, Reaches;
    var l := s.(lock := Some(p));
    ReachesItself(s);
    ReachesStep(s, s, Event(p, Spawn));
    ReachesStep(s, At(s, p, Start), Event(p, FastOpen(false)));
    AtAgain(s, p, Start, WantLock);
    ReachesStep(s, At(s, p, WantLock), Event(p, TakeLock));
    AtAgain(l, p, WantLock, Locked);
    FreshFromLocked(s, l, p);
    CanReplace(At(l, p, Generating), p, random, name, node);
    ReachesOn(s, At(l, p, Generating), Replaced(At(l, p, Generating), p, Render(random), name, node));
    PublishedSeedReadsBack(random);
  }

  lemma FreshFromLocked(s: State, l: State, p: Pid)
    requires Reaches(s, At(l, p, Locked)) && l.path.None?
    ensures Reaches(s, At(l, p, Generating))
  {
    hide ReadSeed, Reaches;
    ReachesStep(s, At(l, p, Locked), Event(p, LockedOpen(false)));
    AtAgain(l, p, Locked, Generating);
  }

  // --- Why the initial state excludes a second name of a malformed file ---

  /** A reader has the malformed file open. */
  function ReaderIn(s: State, file: Inode): State {
    At(s, 0, FastOpened(file))
  }

  lemma ReaderOpens(s: State)
    requires Begins(s) && s.path.Some?
    ensures Reaches(s, ReaderIn(s, s.path.value))
  {
    hide ReadSeed, Reaches;
    ReachesItself(s);
    ReachesStep(s, s, Event(0, Spawn));
    ReachesStep(s, At(s, 0, Start), Event(0, FastOpen(false)));
    AtAgain(s, 0, Start, FastOpened(s.path.value));
  }

  /** Another caller comes to replace it. */
  lemma WriterComes(s: State)
    requires 1 !in s.procs && s.lock.None? && s.path.Some? && Published(s).None?
    ensures Reaches(s, At(s.(lock := Some(1)), 1, Generating))
  {
    hide ReadSeed, Reaches;
    var l := s.(lock := Some(1));
    ReachesItself(s);
    ReachesStep(s, s, Event(1, Spawn));
    ReachesStep(s, At(s, 1, Start), Event(1, FastOpen(true)));
    AtAgain(s, 1, Start, WantLock);
    ReachesStep(s, At(s, 1, WantLock), Event(1, TakeLock));
    AtAgain(l, 1, WantLock, Locked);
    WriterReads(s, l);
  }

  lemma WriterReads(s: State, l: State)
    requires Reaches(s, At(l, 1, Locked)) && l.path.Some? && Published(l).None?
    ensures Reaches(s, At(l, 1, Generating))
  {
    hide ReadSeed, Reaches;
    ReachesStep(s, At(l, 1, Locked), Event(1, LockedOpen(false)));
    AtAgain(l, 1, Locked, LockedOpened(l.path.value));
    ReachesStep(s, At(l, 1, LockedOpened(l.path.value)), Event(1, LockedRead(false)));
    AtAgain(l, 1, LockedOpened(l.path.value), Generating);
  }

  /** The reader finds the first eight characters of the seed being written, and takes them for a seed. */
  lemma ReaderReadsTorn(s: State, random: Octets, file: Inode)
    requires 0 in s.procs && s.procs[0] == FastOpened(file) && Content(s, file) == Render(random)[..8]
    ensures |Render(random)| == 36 && Reaches(s, At(s, 0, Done(Success(Render(random)[..8]))))
  {
    RenderIsUuidV4(random);
    TornSeedWouldBeAccepted(random, 8);
    FastReadAccepts(s, file, Render(random)[..8]);
  }

  lemma FastReadAccepts(s: State, file: Inode, seed: string)
    requires 0 in s.procs && s.procs[0] == FastOpened(file) && ReadSeed(Content(s, file)) == Some(seed)
    ensures Reaches(s, At(s, 0, Done(Success(seed))))
  {
    hide ReadSeed, Reaches;
    ReachesItself(s);
    ReachesStep(s, s, Event(0, FastRead(false)));
  }

  /**
   If a leftover is a second name of a malformed published file, a caller that picks this name writes into
   a file that a reader may have open; the reader then returns a torn seed, the caller the whole one.
   */
  lemma TwinBreaksAgreement(s: State, random: Octets) returns (t: State)
    requires Begins(s) && HasTwin(s)
    ensures Reaches(s, t) && Returned(t, 0, Render(random)[..8]) && Returned(t, 1, Render(random))
    ensures |Render(random)| == 36
  {
    RenderIsUuidV4(random);
    hide ReadSeed, Render, Reaches, IsUuidV4;
    var file, seed := s.path.value, Render(random);
    var name :| name in s.temps && s.temps[name] == file;
    ReaderOpens(s);
    var a := ReaderIn(s, file);
    assert Published(a) == Published(s);
    WriterComes(a);
    var b := At(a.(lock := Some(1)), 1, Generating);
    CanCreate(b, 1, random, name, 0);
    var c := Created(b, 1, seed, name, 0);
    assert Opened(b, name, 0) == file;
    CanWrite(c, 1, seed, name, file, 8);
    var d := c.(disk := c.disk[file := (seed + "\n")[..8]]);
    assert (seed + "\n")[..8] == seed[..8];
    ReaderReadsTorn(d, random, file);
    var f := At(d, 0, Done(Success(seed[..8])));
    ReachesOn(s, a, b);
    ReachesOn(s, b, c);
    ReachesOn(s, c, d);
    ReachesOn(s, d, f);
    t := TwinFinishes(s, f, seed, name, file);
  }

  lemma TwinFinishes(s: State, f: State, seed: string, name: string, file: Inode) returns (t: State)
    requires Reaches(s, f) && |seed| == 36 && 1 in f.procs && f.procs[1] == Writing(seed, name, file)
    requires f.path.None? && Content(f, file) == seed[..8] && Returned(f, 0, seed[..8])
    ensures Reaches(s, t) && Returned(t, 0, seed[..8]) && Returned(t, 1, seed)
  {
    hide ReadSeed, Reaches;
    assert seed[..8] <= seed + "\n" && (seed + "\n")[..37] == seed + "\n";
    CanWrite(f, 1, seed, name, file, 29);
    var g := f.(disk := f.disk[file := seed + "\n"]);
    CanPublish(g, 1, seed, name, file);
    t := At(g.(path := Some(file), temps := g.temps - {name}, lock := None), 1, Done(Success(seed)));
    ReachesOn(s, f, g);
    ReachesOn(s, g, t);
  }

  /** All successful callers agree, in every run without spurious reads. */
  ghost predicate AlwaysAgrees(s: State) {
    forall t, p, q, x, y | Reaches(s, t) && Returned(t, p, x) && Returned(t, q, y) :: x == y
  }

  /** Exactly the initial states without such a second name guarantee agreement. */
  lemma AgreementIff(s: State)
    requires Begins(s)
    ensures AlwaysAgrees(s) <==> Initial(s)
  {
    if HasTwin(s) {
      var random: Octets := seq(16, _ => 0);
      var t := TwinBreaksAgreement(s, random);
      assert Render(random)[..8] != Render(random);
    } else {
      forall t, p, q, x, y | Reaches(s, t) && Returned(t, p, x) && Returned(t, q, y)
        ensures x == y
      {
        var events :| NoSpurious(s, events) && Run(s, events) == t;
        SeedAgreement(s, events, p, q, x, y);
      }
    }
  }
}
