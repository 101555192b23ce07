/**
 Runs of the adapter lifecycle: how a child comes to outlive its daemon, and that registration, removal and stop
 complete when nothing disturbs them.
 */
module AdapterRuns {
  import opened Wrappers
  import opened DaemonState
  import opened Registration
  import opened AdapterLifecycle

  /** How a run goes on from a state. */
  ghost predicate Leads(s: State, u: State) {
    exists events :: Run(s, events) == u
  }

  lemma {:induction false} RunLast(s: State, events: seq<Event>, e: Event)
    ensures Run(s, events + [e]) == Apply(Run(s, events), e)
    decreases |events|
  {
    hide Apply;
    if events == [] {
      assert events + [e] == [e] && [e][1..] == [];
      assert Run(s, [e]) == Run(Apply(s, e), []);
    } else {
      assert (events + [e])[1..] == events[1..] + [e];
      RunLast(Apply(s, events[0]), events[1..], e);
    }
  }

  lemma LeadsStep(s: State, u: State, e: Event)
    requires Leads(s, u)
    ensures Leads(s, Apply(u, e))
  {
    hide Apply;
    var events :| Run(s, events) == u;
    RunLast(s, events, e);
  }

  lemma LeadsNowhere(s: State)
    ensures Leads(s, s)
  {
    assert Run(s, []) == s;
  }

  /** A daemon that has started the child of the registration file. */
  function Booted(s: State, id: AdapterId, main: Tid, r: Registration): State {
    s.(up := true, serving := false, daemon := s.daemon + 1,
       adapters := s.adapters[id := Adapter(r, s.daemon + 1, false, false)],
       threads := map[main := RestoreStarted(r, id)], lifecycle := Some(main))
  }

  /** A daemon that has restored it. */
  function Restored(s: State, id: AdapterId, main: Tid, watcher: Tid, r: Registration): State {
    Booted(s, id, main, r).(
      mem := Install(EMPTY, id), threads := map[main := Finished, watcher := Watching(id)], lifecycle := None)
  }

  lemma BootLeads(s: State, id: AdapterId, main: Tid)
    requires Initial(s) && Loads(s).Registered?
    ensures Leads(s, Booted(s, id, main, Loads(s).registration))
  {
    hide IsValid, LoadOf, Leads;
    LeadsNowhere(s);
    LeadsStep(s, s, Boot(id, main, true));
  }

  lemma RestoreLeads(s: State, id: AdapterId, main: Tid, watcher: Tid)
    requires Initial(s) && Loads(s).Registered? && main != watcher
    ensures Leads(s, Restored(s, id, main, watcher, Loads(s).registration))
  {
    hide IsValid, LoadOf, Leads;
    var r := Loads(s).registration;
    var b := Booted(s, id, main, r);
    BootLeads(s, id, main);
    LeadsStep(s, b, Step(main, false, 0));
    OneThread(main, RestoreStarted(r, id), RestoreBuilt(r, id));
    var h := b.(threads := map[main := RestoreBuilt(r, id)]);
    LeadsStep(s, h, Step(main, false, 0));
    OneThread(main, RestoreBuilt(r, id), RegisterWatch(id));
    var w := h.(mem := Install(EMPTY, id), threads := map[main := RegisterWatch(id)]);
    LeadsStep(s, w, Step(main, false, watcher));
    OneThread(main, RegisterWatch(id), Finished);
    assert map[main := Finished][watcher := Watching(id)] == map[main := Finished, watcher := Watching(id)];
  }

  lemma OneThread(t: Tid, before: Op, after: Op)
    ensures map[t := before][t := after] == map[t := after]
  {
  }

  /** A daemon that dies with an adapter installed leaves its child running, not installed, and owed by nobody. */
  lemma OutlivingHappens(s: State, id: AdapterId, main: Tid, watcher: Tid)
    requires Initial(s) && Loads(s).Registered? && main != watcher
    ensures var b := Restored(s, id, main, watcher, Loads(s).registration);
            && Leads(s, b) && Installed(b, id)
            && Running(Apply(b, Crash), id) && !Installed(Apply(b, Crash), id)
            && !exists t | t in Apply(b, Crash).threads :: Owes(Apply(b, Crash).threads[t], id)
  {
    RestoreLeads(s, id, main, watcher);
  }

  /** So does one that dies during the handshake, before there is an adapter to install. */
  lemma CrashDuringHandshake(s: State, id: AdapterId, main: Tid)
    requires Initial(s) && Loads(s).Registered?
    ensures var b := Booted(s, id, main, Loads(s).registration);
            Leads(s, b) && b.mem.process.None? && Running(Apply(b, Crash), id)
  {
    BootLeads(s, id, main);
  }

  /** And one that dies while a close has set the flag and not yet killed the child. */
  lemma CrashDuringClose(s: State, t: Tid, a: AdapterId, number: nat)
    requires t in s.threads && s.threads[t] == RemoveSwapped(Some(a)) && Running(s, a) && !s.adapters[a].closed
    ensures var f := Apply(s, Step(t, false, number));
            && f.adapters[a].closed && Owes(f.threads[t], a)
            && Running(Apply(f, Crash), a) && Apply(f, Crash).threads == map[]
  {
  }

  /** Such a moment comes in some run. */
  lemma CloseIsReachable(s: State, id: AdapterId, main: Tid, watcher: Tid, t: Tid) returns (u: State)
    requires Initial(s) && Loads(s).Registered? && main != watcher && t != main && t != watcher
    ensures Reachable(u) && t in u.threads && u.threads[t] == RemoveSwapped(Some(id))
    ensures Running(u, id) && !u.adapters[id].closed
  {
    hide IsValid, LoadOf, Leads, Initial;
    var b := Restored(s, id, main, watcher, Loads(s).registration);
    RestoreLeads(s, id, main, watcher);
    LeadsStep(s, b, Serve);
    var v := b.(serving := true);
    LeadsStep(s, v, Spawn(t, RemoveWaiting));
    var w := Goto(v, t, RemoveWaiting);
    LeadsStep(s, w, Step(t, false, 0));
    var c := Goto(w, t, RemoveChecked).(lifecycle := Some(t));
    LeadsStep(s, c, Step(t, false, 0));
    var d := Goto(c, t, RemoveFileGone).(dir := Changed(c.dir, Remove));
    LeadsStep(s, d, Step(t, false, 0));
    u := Goto(d, t, RemoveSwapped(Some(id))).(mem := Uninstall(d.mem));
    LeadsIsReachable(s, u);
  }

  lemma LeadsIsReachable(s: State, u: State)
    requires Initial(s) && Leads(s, u)
    ensures Reachable(u)
  {
  }

  // --- Operations that nothing disturbs complete ---

  lemma LeadsBy(s: State, u: State, e: Event, v: State)
    requires Leads(s, u) && Apply(u, e) == v
    ensures Leads(s, v)
  {
    LeadsStep(s, u, e);
  }

  /** A thread moved twice is where it was moved last. */
  lemma ThreadMoves(threads: map<Tid, Op>, t: Tid, a: Op, b: Op)
    ensures threads[t := a][t := b] == threads[t := b]
  {
  }

  lemma InstalledIsKnown(s: State)
    requires Reachable(s)
    ensures s.mem.process.Some? ==> s.mem.process.value in s.adapters
  {
    ReachableInv(s);
  }

  /** A daemon that takes requests, with no operation holding the mutex. */
  predicate Idle(s: State) {
    s.up && s.serving && !s.mem.stopping && s.lifecycle.None?
  }

  /** A new request gets the mutex when it is free. */
  lemma RequestEnters(s: State, u: State, t: Tid, waiting: Op, checked: Op)
    requires Leads(s, u) && Idle(u) && t !in u.threads && IsRequest(u.coding, waiting)
    requires (waiting.RegisterWaiting? && checked == RegisterChecked(waiting.registration))
        || (waiting.RemoveWaiting? && checked.RemoveChecked?)
    ensures Leads(s, Goto(u, t, checked).(lifecycle := Some(t)))
  {
    hide IsValid, Leads, RoundTrips;
    LeadsBy(s, u, Spawn(t, waiting), Goto(u, t, waiting));
    ThreadMoves(u.threads, t, waiting, checked);
    LeadsBy(s, Goto(u, t, waiting), Step(t, false, 0), Goto(u, t, checked).(lifecycle := Some(t)));
  }

  /** Its child is started, and shakes hands. */
  function Shaken(u: State, t: Tid, r: Registration, a: AdapterId): State {
    Goto(u, t, RegisterBuilt(r, a)).(
      adapters := u.adapters[a := Adapter(r, u.daemon, false, false)],
      approved := u.approved + {r})
  }

  lemma RegisterShakes(s: State, u: State, t: Tid, r: Registration, a: AdapterId)
    requires Leads(s, u) && t in u.threads && u.threads[t] == RegisterChecked(r) && IsValid(r) && a !in u.adapters
    ensures Leads(s, Shaken(u, t, r, a))
  {
    hide Leads;
    var v := Goto(u, t, RegisterStarted(r, a)).(adapters := u.adapters[a := Adapter(r, u.daemon, false, false)]);
    LeadsBy(s, u, Step(t, false, a), v);
    hide IsValid;
    ThreadMoves(u.threads, t, RegisterStarted(r, a), RegisterBuilt(r, a));
    LeadsBy(s, v, Step(t, false, 0), Shaken(u, t, r, a));
  }

  /** The registration is saved: created, written in one piece, renamed. */
  lemma RegisterSaves(s: State, u: State, t: Tid, r: Registration, a: AdapterId, tmp: nat)
    requires Leads(s, u) && t in u.threads && u.threads[t] == RegisterBuilt(r, a) && tmp !in u.dir.temps
    requires |u.coding.encode(r)| <= 16384
    ensures Leads(s, Goto(u, t, RegisterSaved(r, a)).(dir := Dir(Some(u.coding.encode(r)), u.dir.temps)))
  {
    hide Leads, IsValid, LoadOf;
    var data := u.coding.encode(r);
    var c := Goto(u, t, RegisterTemp(r, a, tmp)).(dir := u.dir.(temps := u.dir.temps[tmp := ""]));
    LeadsBy(s, u, Step(t, false, tmp), c);
    var w := c.(dir := u.dir.(temps := u.dir.temps[tmp := data]));
    if data == "" {
      assert w == c;
    } else {
      WriteAllAtOnce(c, t, r, a, tmp, data);
      LeadsBy(s, c, Step(t, false, |data|), w);
    }
    ThreadMoves(u.threads, t, RegisterTemp(r, a, tmp), RegisterSaved(r, a));
    assert u.dir.temps[tmp := data] - {tmp} == u.dir.temps;
    LeadsBy(s, w, Step(t, false, 0), Goto(u, t, RegisterSaved(r, a)).(dir := Dir(Some(data), u.dir.temps)));
  }

  lemma WriteAllAtOnce(c: State, t: Tid, r: Registration, a: AdapterId, tmp: nat, data: string)
    requires t in c.threads && c.threads[t] == RegisterTemp(r, a, tmp) && data == c.coding.encode(r) && data != ""
    requires tmp in c.dir.temps && c.dir.temps[tmp] == ""
    ensures Apply(c, Step(t, false, |data|)) == c.(dir := c.dir.(temps := c.dir.temps[tmp := data]))
  {
    hide IsValid, LoadOf;
    assert data[0..0 + |data|] == data && "" + data == data;
  }

  /** The end of an adapter's child, closed by the daemon. */
  function Gone(adapters: map<AdapterId, Adapter>, a: Option<AdapterId>): map<AdapterId, Adapter> {
    if a.Some? && a.value in adapters then adapters[a.value := adapters[a.value].(closed := true, exited := true)]
    else adapters
  }

  /** A thread that owes an adapter closes it, and goes on. */
  lemma CloseCompletes(s: State, u: State, t: Tid, next: Op, lifecycle: Option<Tid>)
    requires Leads(s, u) && t in u.threads
    requires (u.threads[t].RegisterSwapped? && next == RegisterWatch(u.threads[t].adapter) && lifecycle == u.lifecycle)
        || ((u.threads[t].RemoveSwapped? || u.threads[t].RegisterAbort?) && next.Finished? && lifecycle.None?)
        || (u.threads[t].StopClosing? && next.Finished? && lifecycle == u.lifecycle)
    ensures Leads(s, Goto(u, t, next).(lifecycle := lifecycle, adapters := Gone(u.adapters, Debt(u.threads[t]))))
  {
    hide Leads, IsValid, LoadOf;
    var debt := Debt(u.threads[t]);
    var goal := Goto(u, t, next).(lifecycle := lifecycle, adapters := Gone(u.adapters, debt));
    if debt.None? || debt.value !in u.adapters || u.adapters[debt.value].closed {
      LeadsBy(s, u, Step(t, false, 0), goal);
    } else {
      var f := Flagged(u, debt.value);
      LeadsBy(s, u, Step(t, false, 0), f);
      FlaggedThenGone(u.adapters, debt.value);
      LeadsBy(s, f, Step(t, false, 0), goal);
    }
  }

  lemma FlaggedThenGone(adapters: map<AdapterId, Adapter>, a: AdapterId)
    requires a in adapters
    ensures var f := adapters[a := adapters[a].(closed := true)];
            f[a := f[a].(exited := true)] == Gone(adapters, Some(a))
  {
  }

  /**
   A registration that nothing disturbs completes: from a serving daemon with the mutex free some run leads to
   the new adapter installed, running, watched and on disk, the mutex free, and the previous child gone.
   */
  lemma RegistrationCompletes(s: State, r: Registration, a: AdapterId, t: Tid, watcher: Tid, tmp: nat)
    returns (u: State)
    requires Reachable(s) && Idle(s) && IsValid(r) && RoundTrips(s.coding, r) && |s.coding.encode(r)| <= 16384
    requires a !in s.adapters && t !in s.threads && watcher !in s.threads && t != watcher && tmp !in s.dir.temps
    ensures Leads(s, u) && Idle(u) && Loads(u) == Registered(r)
    ensures u.mem.process == Some(a) && u.mem.controller == Some(a) && u.mem.instances == s.mem.instances
    ensures a in u.adapters && u.adapters[a] == Adapter(r, s.daemon, false, false)
    ensures watcher in u.threads && u.threads[watcher] == Watching(a)
    ensures s.mem.process.Some? ==> s.mem.process.value in u.adapters && u.adapters[s.mem.process.value].exited
    ensures forall p | p in s.adapters && s.mem.process != Some(p) :: p in u.adapters && u.adapters[p] == s.adapters[p]
  {
    InstalledIsKnown(s);
    SavedLoads(s.coding, r);
    hide Leads, IsValid, LoadOf, RoundTrips, Reachable;
    var v := RegisterReachesDisk(s, r, a, t, tmp);
    u := RegisterInstalls(s, v, t, r, a, watcher);
  }

  lemma RegisterReachesDisk(s: State, r: Registration, a: AdapterId, t: Tid, tmp: nat) returns (v: State)
    requires Idle(s) && IsValid(r) && RoundTrips(s.coding, r) && |s.coding.encode(r)| <= 16384
    requires a !in s.adapters && t !in s.threads && tmp !in s.dir.temps
    ensures Leads(s, v) && v.threads == s.threads[t := RegisterSaved(r, a)] && v.lifecycle == Some(t)
    ensures v.up && v.serving && v.mem == s.mem && v.coding == s.coding
    ensures v.dir == Dir(Some(s.coding.encode(r)), s.dir.temps)
    ensures v.adapters == s.adapters[a := Adapter(r, s.daemon, false, false)]
  {
    hide Leads, IsValid, LoadOf, RoundTrips;
    var checked := RegisterChecked(r);
    LeadsNowhere(s);
    RequestEnters(s, s, t, RegisterWaiting(r), checked);
    var c := Goto(s, t, checked).(lifecycle := Some(t));
    RegisterShakes(s, c, t, r, a);
    var b := Shaken(c, t, r, a);
    RegisterSaves(s, b, t, r, a, tmp);
    v := Goto(b, t, RegisterSaved(r, a)).(dir := Dir(Some(s.coding.encode(r)), b.dir.temps));
  }

  /** From the saved registration on. */
  lemma RegisterInstalls(s: State, v: State, t: Tid, r: Registration, a: AdapterId, watcher: Tid) returns (u: State)
    requires Leads(s, v) && t in v.threads && v.threads[t] == RegisterSaved(r, a) && v.lifecycle == Some(t)
    requires v.up && v.serving && !v.mem.stopping && watcher !in v.threads
    ensures Leads(s, u) && Idle(u) && u.dir == v.dir && u.coding == v.coding
    ensures u.mem.process == Some(a) && u.mem.controller == Some(a) && u.mem.instances == v.mem.instances
    ensures watcher in u.threads && u.threads[watcher] == Watching(a)
    ensures u.adapters == Gone(v.adapters, v.mem.process)
  {
    hide Leads, IsValid, LoadOf;
    var previous := v.mem.process;
    var w := Goto(v, t, RegisterSwapped(a, previous)).(mem := Memory(false, Some(a), Some(a), v.mem.instances));
    LeadsBy(s, v, Step(t, false, 0), w);
    CloseCompletes(s, w, t, RegisterWatch(a), w.lifecycle);
    var x := Goto(w, t, RegisterWatch(a)).(lifecycle := w.lifecycle, adapters := Gone(w.adapters, previous));
    u := Goto(Goto(x, t, Finished).(lifecycle := None), watcher, Watching(a));
    LeadsBy(s, x, Step(t, false, watcher), u);
  }

  /** So does a removal: nothing is installed or on disk any more, and the child is gone. */
  lemma RemovalCompletes(s: State, t: Tid) returns (u: State)
    requires Reachable(s) && Idle(s) && t !in s.threads
    ensures Leads(s, u) && Idle(u) && u.dir.file.None?
    ensures u.mem.process.None? && u.mem.controller.None? && u.mem.instances == s.mem.instances
    ensures s.mem.process.Some? ==> s.mem.process.value in u.adapters && u.adapters[s.mem.process.value].exited
    ensures forall p | p in s.adapters && s.mem.process != Some(p) :: p in u.adapters && u.adapters[p] == s.adapters[p]
  {
    InstalledIsKnown(s);
    var w := RemovalEmpties(s, t);
    hide Leads, IsValid, LoadOf, Reachable;
    CloseCompletes(s, w, t, Finished, None);
    u := Goto(w, t, Finished).(lifecycle := None, adapters := Gone(w.adapters, s.mem.process));
  }

  lemma RemovalEmpties(s: State, t: Tid) returns (w: State)
    requires Idle(s) && t !in s.threads
    ensures Leads(s, w) && w.threads == s.threads[t := RemoveSwapped(s.mem.process)] && w.adapters == s.adapters
    ensures w.mem == Memory(false, None, None, s.mem.instances) && w.dir.file.None? && w.up && w.serving
  {
    hide Leads, IsValid, LoadOf;
    LeadsNowhere(s);
    RequestEnters(s, s, t, RemoveWaiting, RemoveChecked);
    var c := Goto(s, t, RemoveChecked).(lifecycle := Some(t));
    ThreadMoves(s.threads, t, RemoveChecked, RemoveFileGone);
    var d := Goto(s, t, RemoveFileGone).(lifecycle := Some(t), dir := Dir(None, s.dir.temps));
    LeadsBy(s, c, Step(t, false, 0), d);
    ThreadMoves(s.threads, t, RemoveFileGone, RemoveSwapped(s.mem.process));
    w := Goto(d, t, RemoveSwapped(s.mem.process)).(mem := Memory(false, None, None, s.mem.instances));
    LeadsBy(s, d, Step(t, false, 0), w);
  }

  /** And a stop: it empties the memory for good, and the child is gone. */
  lemma StopCompletes(s: State, t: Tid) returns (u: State)
    requires Reachable(s) && Idle(s) && t !in s.threads
    ensures Leads(s, u) && u.mem == Memory(true, None, None, map[]) && u.lifecycle.None? && u.dir == s.dir
    ensures s.mem.process.Some? ==> s.mem.process.value in u.adapters && u.adapters[s.mem.process.value].exited
  {
    InstalledIsKnown(s);
    var w := StopEmpties(s, t);
    hide Leads, IsValid, LoadOf, Reachable;
    CloseCompletes(s, w, t, Finished, None);
    u := Goto(w, t, Finished).(lifecycle := None, adapters := Gone(w.adapters, s.mem.process));
  }

  lemma StopEmpties(s: State, t: Tid) returns (w: State)
    requires Idle(s) && t !in s.threads
    ensures Leads(s, w) && w.threads == s.threads[t := StopClosing(s.mem.process)] && w.adapters == s.adapters
    ensures w.mem == Memory(true, None, None, map[]) && w.dir == s.dir && w.lifecycle.None?
  {
    hide Leads, IsValid, LoadOf;
    LeadsNowhere(s);
    LeadsBy(s, s, Spawn(t, StopWaiting), Goto(s, t, StopWaiting));
    ThreadMoves(s.threads, t, StopWaiting, StopLocked);
    var c := Goto(s, t, StopLocked).(lifecycle := Some(t));
    LeadsBy(s, Goto(s, t, StopWaiting), Step(t, false, 0), c);
    ThreadMoves(s.threads, t, StopLocked, StopClosing(s.mem.process));
    w := Goto(s, t, StopClosing(s.mem.process)).(mem := Memory(true, None, None, map[]));
    LeadsBy(s, c, Step(t, false, 0), w);
  }

  /**
   The handshake of a registration decides: without a failure, and no failed call, the registration goes on,
   and otherwise it is abandoned.
   */
  lemma HandshakeDecides(s: State, t: Tid, r: Registration, a: AdapterId, fails: bool, number: nat)
    requires t in s.threads && s.threads[t] == RegisterStarted(r, a) && a in s.adapters
    ensures var u := Apply(s, Step(t, fails, number));
            && u.threads[t] == (if fails || s.adapters[a].closed then RegisterAbort(a) else RegisterBuilt(r, a))
            && u.adapters == s.adapters && u.dir == s.dir && u.mem == s.mem
  {
    hide IsValid, LoadOf;
  }

  /** A failure before the rename abandons the registration; the file and the memory stay as they were. */
  lemma FailureAbandons(s: State, t: Tid, number: nat)
    requires t in s.threads
    requires s.threads[t].RegisterStarted? || s.threads[t].RegisterBuilt? || s.threads[t].RegisterTemp?
    ensures var u := Apply(s, Step(t, true, number));
            u.threads[t] == RegisterAbort(s.threads[t].adapter) && u.dir.file == s.dir.file && u.mem == s.mem
  {
    hide IsValid, LoadOf;
  }

  /** An abandoned registration lets the mutex go, and its child is gone. */
  lemma AbandonedEnds(s: State, t: Tid, a: AdapterId) returns (u: State)
    requires t in s.threads && s.threads[t] == RegisterAbort(a) && a in s.adapters
    ensures Leads(s, u) && u.lifecycle.None? && a in u.adapters && u.adapters[a].exited
    ensures t in u.threads && u.threads[t].Finished?
    ensures u.mem == s.mem && u.dir == s.dir
  {
    LeadsNowhere(s);
    CloseCompletes(s, s, t, Finished, None);
    u := Goto(s, t, Finished).(lifecycle := None, adapters := Gone(s.adapters, Some(a)));
  }
}
