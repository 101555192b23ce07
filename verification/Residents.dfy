/**
 Resident instances in the daemon: admission by join or create, leave, self-leave, room expiry and stop,
 interleaved in any order. Critical sections under the state mutex are single steps; the callbacks of a
 runtime can only fire once its wait loop runs. A step whose event is not enabled changes nothing.
 */
module Residents {
  import opened Wrappers
  import opened DaemonState

  type Tid = nat

  /** Where an admission stands. An instance id is fresh when its runtime is prepared. */
  datatype Admission =
    | Checked(create: bool)
    | Prepared(create: bool, id: InstanceId)
    | Adopted(id: InstanceId)
    | Registered(create: bool, id: InstanceId)
    | Undoing(id: InstanceId)
    | Ended

  datatype Taker = Leave | SelfLeave | StopAll

  /** A record taken out of the registry by one of the three operations that then stop its runtime. */
  datatype Taken = Taken(id: InstanceId, taker: Taker)

  /** `entered` are the ids ever registered, `undone` those of joins whose start failed afterwards. */
  datatype State = State(
    mem: Memory,
    admissions: map<Tid, Admission>,
    prepared: set<InstanceId>,
    looping: set<InstanceId>,
    expired: set<InstanceId>,
    taken: seq<Taken>,
    entered: set<InstanceId>,
    undone: set<InstanceId>)

  datatype Event =
    | Request(tid: Tid, create: bool)
    | Advance(tid: Tid, id: InstanceId, fails: bool)
    | Expire(id: InstanceId)
    | Claim(id: InstanceId, taker: Taker)
    | BeginStop(order: seq<InstanceId>)

  const RECORD := Resident("", "")

  function Goto(s: State, t: Tid, a: Admission): State {
    s.(admissions := s.admissions[t := a])
  }

  /** The id an admission has not yet entered into the registry. */
  function PendingId(a: Admission): Option<InstanceId> {
    match a
    case Prepared(_, id) => Some(id)
    case Adopted(id) => Some(id)
    case _ => None
  }

  /** The admission enters its record into the registry. */
  function Enter(s: State, t: Tid, create: bool, id: InstanceId): State {
    Goto(s, t, Registered(create, id)).(mem := Admit(s.mem, id, RECORD), entered := s.entered + {id})
  }

  /** A join whose start failed discards its record. */
  function Undo(s: State, t: Tid, id: InstanceId): State {
    Goto(s, t, Undoing(id)).(mem := Discard(s.mem, id), undone := s.undone + {id})
  }

  /**
   One step of an admission. A join registers its record and then starts the runtime, whose loop starts
   last; a create adopts the new room, registers, and only then starts the loop.
   */
  function AdvanceStep(s: State, t: Tid, newId: InstanceId, fails: bool): State
    requires t in s.admissions
  {
    match s.admissions[t]
    case Checked(create) =>
      if fails then Goto(s, t, Ended)
      else if newId in s.prepared then s
      else Goto(s, t, Prepared(create, newId)).(prepared := s.prepared + {newId})
    case Prepared(create, id) =>
      if !create then Enter(s, t, create, id)
      else if fails then Goto(s, t, Ended)
      else Goto(s, t, Adopted(id))
    case Adopted(id) => Enter(s, t, true, id)
    case Registered(create, id) =>
      if !create && fails then Undo(s, t, id)
      else Goto(s, t, Ended).(looping := s.looping + {id})
    case Undoing(id) => Goto(s, t, Ended)
    case Ended => s
  }

  /** Leave and self-leave take the record if it is there. */
  function ClaimStep(s: State, id: InstanceId, taker: Taker): State {
    if id in s.mem.instances then s.(mem := Discard(s.mem, id), taken := s.taken + [Taken(id, taker)]) else s
  }

  function TakenBy(ids: seq<InstanceId>, taker: Taker): seq<Taken> {
    seq(|ids|, i requires 0 <= i < |ids| => Taken(ids[i], taker))
  }

  predicate Distinct(ids: seq<InstanceId>) {
    forall i, j | 0 <= i < j < |ids| :: ids[i] != ids[j]
  }

  /** `order` lists the map's keys, each once, in some order. */
  predicate Enumerates(order: seq<InstanceId>, instances: map<InstanceId, Resident>) {
    Distinct(order) && (forall id | id in order :: id in instances) && (forall id | id in instances :: id in order)
  }

  function Apply(s: State, e: Event): State {
    match e
    case Request(t, create) => if t in s.admissions || s.mem.stopping then s else Goto(s, t, Checked(create))
    case Advance(t, id, fails) => if t in s.admissions then AdvanceStep(s, t, id, fails) else s
    // The expiry callback of a running runtime unregisters the instance.
    case Expire(id) => if id in s.looping then s.(mem := Discard(s.mem, id), expired := s.expired + {id}) else s
    case Claim(id, taker) =>
      if taker.StopAll? || (taker.SelfLeave? && id !in s.looping) then s else ClaimStep(s, id, taker)
    case BeginStop(order) =>
      if Enumerates(order, s.mem.instances) then s.(mem := Stop(s.mem), taken := s.taken + TakenBy(order, StopAll))
      else s
  }

  function Run(s: State, events: seq<Event>): State
    decreases |events|
  {
    if events == [] then s else Run(Apply(s, events[0]), events[1..])
  }

  const START := State(EMPTY, map[], {}, {}, {}, [], {}, {})

  /** An instance that can never enter the registry again. */
  predicate Past(s: State, id: InstanceId) {
    && id in s.prepared && id !in s.mem.instances
    && forall t | t in s.admissions :: PendingId(s.admissions[t]) != Some(id)
  }

  predicate Inv(s: State) {
    && (forall id | id in s.mem.instances :: id in s.prepared)
    && (forall t | t in s.admissions && PendingId(s.admissions[t]).Some? ::
          PendingId(s.admissions[t]).value in s.prepared && PendingId(s.admissions[t]).value !in s.mem.instances)
    && (forall t, u | t in s.admissions && u in s.admissions && t != u && PendingId(s.admissions[t]).Some? ::
          PendingId(s.admissions[t]) != PendingId(s.admissions[u]))
    && (forall t | t in s.admissions && s.admissions[t].Registered? :: Entered(s, s.admissions[t].id))
    && (forall id | id in s.looping :: Entered(s, id))
    && (forall id | id in s.expired :: Past(s, id))
    && (forall i | 0 <= i < |s.taken| :: Past(s, s.taken[i].id))
    && (forall i, j | 0 <= i < j < |s.taken| :: s.taken[i].id != s.taken[j].id)
  }

  /** The instance was registered: it is in the registry, or gone from it for good. */
  predicate Entered(s: State, id: InstanceId) {
    id in s.mem.instances || Past(s, id)
  }

  lemma PastStays(s: State, e: Event, id: InstanceId)
    requires Inv(s) && Past(s, id)
    ensures Past(Apply(s, e), id)
  {
  }

  /** An admission that enters its record into the registry. */
  lemma AdmitKeepsInv(s: State, t: Tid, create: bool, id: InstanceId)
    requires Inv(s) && t in s.admissions && PendingId(s.admissions[t]) == Some(id)
    ensures Inv(Enter(s, t, create, id))
  {
    var u := Enter(s, t, create, id);
    assert forall i | Past(s, i) :: Past(u, i);
    assert forall i | Entered(s, i) :: Entered(u, i);
    assert Entered(u, id);
  }

  /** A join whose start failed discards its record. */
  lemma UndoKeepsInv(s: State, t: Tid, id: InstanceId)
    requires Inv(s) && t in s.admissions && s.admissions[t].Registered? && s.admissions[t].id == id
    ensures Inv(Undo(s, t, id))
  {
    var u := Undo(s, t, id);
    assert forall i | Past(s, i) :: Past(u, i);
    assert forall i | Entered(s, i) :: Entered(u, i);
  }

  lemma PrepareKeepsInv(s: State, t: Tid, create: bool, id: InstanceId)
    requires Inv(s) && t in s.admissions && s.admissions[t].Checked? && id !in s.prepared
    ensures Inv(Goto(s, t, Prepared(create, id)).(prepared := s.prepared + {id}))
  {
    var u := Goto(s, t, Prepared(create, id)).(prepared := s.prepared + {id});
    assert forall i | Past(s, i) :: Past(u, i);
    assert forall i | Entered(s, i) :: Entered(u, i);
  }

  /** A step that leaves registry and ids alone; `more` is an instance whose loop starts. */
  lemma MoveKeepsInv(s: State, t: Tid, a: Admission, more: set<InstanceId>)
    requires Inv(s) && t in s.admissions && !a.Registered?
    requires PendingId(a).Some? ==> PendingId(a) == PendingId(s.admissions[t])
    requires forall id | id in more :: s.admissions[t].Registered? && s.admissions[t].id == id
    ensures Inv(Goto(s, t, a).(looping := s.looping + more))
  {
    var u := Goto(s, t, a).(looping := s.looping + more);
    assert forall i | Past(s, i) :: Past(u, i);
    assert forall i | Entered(s, i) :: Entered(u, i);
  }

  lemma AdvanceKeepsInv(s: State, t: Tid, id: InstanceId, fails: bool)
    requires Inv(s)
    ensures Inv(Apply(s, Advance(t, id, fails)))
  {
    hide Inv;
    if t in s.admissions {
      assert s.looping + {} == s.looping;
      match s.admissions[t]
      case Checked(create) =>
        MoveKeepsInv(s, t, Ended, {});
        if id !in s.prepared { PrepareKeepsInv(s, t, create, id); }
      case Prepared(create, own) =>
        AdmitKeepsInv(s, t, create, own);
        MoveKeepsInv(s, t, Ended, {});
        MoveKeepsInv(s, t, Adopted(own), {});
      case Adopted(own) => AdmitKeepsInv(s, t, true, own);
      case Registered(_, own) =>
        UndoKeepsInv(s, t, own);
        MoveKeepsInv(s, t, Ended, {own});
      case Undoing(_) => MoveKeepsInv(s, t, Ended, {});
      case Ended =>
    }
  }

  lemma ClaimKeepsInv(s: State, id: InstanceId, taker: Taker)
    requires Inv(s)
    ensures Inv(ClaimStep(s, id, taker))
  {
    var u := ClaimStep(s, id, taker);
    if id in s.mem.instances {
      assert Past(u, id);
      assert forall i | 0 <= i < |s.taken| :: Past(s, s.taken[i].id) && Past(u, s.taken[i].id);
      assert forall i | Entered(s, i) :: Entered(u, i);
      assert forall i | Past(s, i) :: Past(u, i);
    }
  }

  lemma ExpireKeepsInv(s: State, id: InstanceId)
    requires Inv(s)
    ensures Inv(Apply(s, Expire(id)))
  {
    var u := Apply(s, Expire(id));
    assert forall i | Entered(s, i) :: Entered(u, i);
    assert forall i | Past(s, i) :: Past(u, i);
    if id in s.looping {
      assert Entered(s, id);
      assert Past(u, id);
    }
  }

  lemma StopKeepsInv(s: State, order: seq<InstanceId>)
    requires Inv(s)
    ensures Inv(Apply(s, BeginStop(order)))
  {
    var u := Apply(s, BeginStop(order));
    if u != s {
      var more := TakenBy(order, StopAll);
      assert forall i | Past(s, i) :: Past(u, i);
      forall i | 0 <= i < |order|
        ensures Past(u, more[i].id) && order[i] in s.mem.instances
      {
        assert order[i] in order;
      }
      assert forall i | Entered(s, i) :: Past(u, i);
      assert forall i | 0 <= i < |s.taken| :: Past(s, s.taken[i].id);
    }
  }

  lemma StepKeepsInv(s: State, e: Event)
    requires Inv(s)
    ensures Inv(Apply(s, e))
  {
    match e
    case Request(t, create) =>
      var u := Apply(s, e);
      assert forall i | Past(s, i) :: Past(u, i);
    case Advance(t, id, fails) => AdvanceKeepsInv(s, t, id, fails);
    case Expire(id) => ExpireKeepsInv(s, id);
    case Claim(id, taker) => ClaimKeepsInv(s, id, taker);
    case BeginStop(order) => StopKeepsInv(s, order);
  }

  lemma {:induction false} RunKeepsInv(s: State, events: seq<Event>)
    requires Inv(s)
    ensures Inv(Run(s, events))
    decreases |events|
  {
    if events != [] {
      StepKeepsInv(s, events[0]);
      RunKeepsInv(Apply(s, events[0]), events[1..]);
    }
  }

  // --- Main results ---

  /** Across all interleavings each record is taken at most once by leave, self-leave and stop together. */
  lemma RecordIsTakenOnce(events: seq<Event>, i: nat, j: nat)
    requires i < |Run(START, events).taken| && j < |Run(START, events).taken|
    requires Run(START, events).taken[i].id == Run(START, events).taken[j].id
    ensures i == j
  {
    RunKeepsInv(START, events);
  }

  /** An instance whose expiry callback has run, or whose record was taken, is not listed, and never will be. */
  lemma {:induction false} PastIsForGood(s: State, events: seq<Event>, id: InstanceId)
    requires Inv(s) && Past(s, id)
    ensures id !in Run(s, events).mem.instances
    decreases |events|
  {
    if events != [] {
      StepKeepsInv(s, events[0]);
      PastStays(s, events[0], id);
      PastIsForGood(Apply(s, events[0]), events[1..], id);
    }
  }

  lemma ExpiredIsNeverListedAgain(before: seq<Event>, after: seq<Event>, id: InstanceId)
    requires var s := Run(START, before); id in s.expired || exists i | 0 <= i < |s.taken| :: s.taken[i].id == id
    ensures id !in Run(Run(START, before), after).mem.instances
  {
    RunKeepsInv(START, before);
    PastIsForGood(Run(START, before), after, id);
  }

  // --- A record stays until it is its turn ---

  /** The step removes this very record: its expiry, its claim, the undoing of its join, or a stop. */
  predicate Removes(s: State, e: Event, id: InstanceId) {
    || (e == Expire(id) && id in s.looping)
    || (e.Claim? && e.id == id && !e.taker.StopAll? && (e.taker.SelfLeave? ==> id in s.looping))
    || (e.Advance? && e.fails && e.tid in s.admissions && s.admissions[e.tid] == Registered(false, id))
    || (e.BeginStop? && Enumerates(e.order, s.mem.instances))
  }

  /** A listed instance leaves the registry by exactly those steps; by any other it keeps its record. */
  lemma RecordLeavesIff(s: State, e: Event, id: InstanceId)
    requires Inv(s) && id in s.mem.instances
    ensures var u := Apply(s, e);
            && (id in u.mem.instances <==> !Removes(s, e, id))
            && (id in u.mem.instances ==> u.mem.instances[id] == s.mem.instances[id])
  {
    if e.Advance? && e.tid in s.admissions {
      AdvanceKeepsOthers(s, e.tid, e.id, e.fails, id);
    }
  }

  lemma AdvanceKeepsOthers(s: State, t: Tid, newId: InstanceId, fails: bool, id: InstanceId)
    requires Inv(s) && id in s.mem.instances && t in s.admissions
    ensures var u := AdvanceStep(s, t, newId, fails);
            && (id in u.mem.instances <==> !(fails && s.admissions[t] == Registered(false, id)))
            && (id in u.mem.instances ==> u.mem.instances[id] == s.mem.instances[id])
  {
    assert PendingId(s.admissions[t]) != Some(id);
  }

  predicate TakenAmong(s: State, id: InstanceId) {
    exists i | 0 <= i < |s.taken| :: s.taken[i].id == id
  }

  /** Whoever was registered is listed, or has expired, was taken, or was undone. */
  predicate Accounted(s: State) {
    forall id | id in s.entered :: id in s.mem.instances || id in s.expired || id in s.undone || TakenAmong(s, id)
  }

  lemma TakenStays(s: State, e: Event, id: InstanceId)
    requires TakenAmong(s, id)
    ensures TakenAmong(Apply(s, e), id)
  {
    var i :| 0 <= i < |s.taken| && s.taken[i].id == id;
    assert Apply(s, e).taken[i] == s.taken[i];
  }

  /** A record that a step removes is accounted for by that step. */
  lemma RemovedIsAccounted(s: State, e: Event, id: InstanceId)
    requires id in s.mem.instances && Removes(s, e, id)
    ensures var u := Apply(s, e); id in u.expired || id in u.undone || TakenAmong(u, id)
  {
    var u := Apply(s, e);
    if e.Claim? {
      assert u.taken[|s.taken|].id == id;
    } else if e.BeginStop? {
      var i :| 0 <= i < |e.order| && e.order[i] == id;
      assert u.taken[|s.taken| + i].id == id;
    }
  }

  lemma StepKeepsAccounted(s: State, e: Event)
    requires Inv(s) && Accounted(s) && (forall id | id in s.mem.instances :: id in s.entered)
    ensures var u := Apply(s, e); Accounted(u) && forall id | id in u.mem.instances :: id in u.entered
  {
    var u := Apply(s, e);
    forall id | id in u.entered
      ensures id in u.mem.instances || id in u.expired || id in u.undone || TakenAmong(u, id)
    {
      if id in s.mem.instances {
        RecordLeavesIff(s, e, id);
        if Removes(s, e, id) {
          RemovedIsAccounted(s, e, id);
        }
      } else if TakenAmong(s, id) {
        TakenStays(s, e, id);
      }
    }
  }

  lemma {:induction false} RunKeepsAccounted(s: State, events: seq<Event>)
    requires Inv(s) && Accounted(s) && (forall id | id in s.mem.instances :: id in s.entered)
    ensures Accounted(Run(s, events))
    decreases |events|
  {
    hide Inv, Accounted, Apply;
    if events != [] {
      StepKeepsInv(s, events[0]);
      StepKeepsAccounted(s, events[0]);
      RunKeepsAccounted(Apply(s, events[0]), events[1..]);
    }
  }

  /** No record is lost: in every run, each id ever registered is listed, expired, taken, or undone. */
  lemma NoRecordIsLost(events: seq<Event>, id: InstanceId)
    requires id in Run(START, events).entered
    ensures var u := Run(START, events);
            || id in u.mem.instances || id in u.expired || id in u.undone
            || exists i | 0 <= i < |u.taken| :: u.taken[i].id == id
  {
    RunKeepsAccounted(START, events);
  }

  /** A leave takes the record of a listed instance, for itself alone. */
  lemma LeaveTakes(s: State, id: InstanceId)
    requires id in s.mem.instances
    ensures var u := Apply(s, Claim(id, Leave));
            && u.taken == s.taken + [Taken(id, Leave)] && u.mem.instances.Keys == s.mem.instances.Keys - {id}
            && forall other | other in u.mem.instances :: u.mem.instances[other] == s.mem.instances[other]
  {
  }

  /** A stop takes everybody, in whatever order. */
  lemma StopTakesEverybody(s: State, order: seq<InstanceId>)
    requires forall i, j | 0 <= i < j < |order| :: order[i] != order[j]
    requires forall id :: id in order <==> id in s.mem.instances
    ensures var u := Apply(s, BeginStop(order));
            && u.mem.stopping && u.mem.instances == map[] && |u.taken| == |s.taken| + |order|
            && forall i | 0 <= i < |order| :: u.taken[|s.taken| + i] == Taken(order[i], StopAll)
  {
  }

  /** The expiry of a running instance is noted and removes its record. */
  lemma ExpiryRemoves(s: State, id: InstanceId)
    requires id in s.looping
    ensures var u := Apply(s, Expire(id)); id in u.expired && id !in u.mem.instances && u.taken == s.taken
  {
  }

  /** The steps of an admission that nothing disturbs; a create adopts its room first. */
  function AdmissionEvents(t: Tid, create: bool, id: InstanceId): seq<Event> {
    [Request(t, create), Advance(t, id, false), Advance(t, id, false)]
    + (if create then [Advance(t, id, false)] else []) + [Advance(t, id, false)]
  }

  /** An undisturbed join or create ends with its instance listed and its loop running, and nobody else touched. */
  lemma AdmissionCompletes(s: State, t: Tid, create: bool, id: InstanceId)
    requires !s.mem.stopping && t !in s.admissions && id !in s.prepared
    ensures var u := Run(s, AdmissionEvents(t, create, id));
            && u.mem.instances == s.mem.instances[id := RECORD] && id in u.looping && id in u.entered
            && t in u.admissions && u.admissions[t] == Ended && u.taken == s.taken && u.expired == s.expired
  {
    var a := Apply(s, Request(t, create));
    var b := Apply(a, Advance(t, id, false));
    var c := Apply(b, Advance(t, id, false));
    var es := AdmissionEvents(t, create, id);
    var last := [Advance(t, id, false)];
    assert es[1..][0] == Advance(t, id, false) && es[1..][1..][0] == Advance(t, id, false);
    assert Run(s, es) == Run(a, es[1..]) == Run(b, es[1..][1..]) == Run(c, es[1..][1..][1..]);
    if create {
      assert es[1..][1..][1..] == [Advance(t, id, false)] + last;
      RunTwo(c, Advance(t, id, false));
    } else {
      assert es[1..][1..][1..] == last;
      assert Run(c, last) == Run(Apply(c, last[0]), []);
    }
  }

  lemma RunTwo(s: State, e: Event)
    ensures Run(s, [e] + [e]) == Apply(Apply(s, e), e)
  {
    assert ([e] + [e])[1..] == [e];
    assert Run(Apply(s, e), [e]) == Run(Apply(Apply(s, e), e), []);
  }

  // --- What stop does not promise ---

  /** An admission that passed its stopping check and has yet to register. */
  predicate InFlight(a: Admission) {
    a.Checked? || a.Prepared? || a.Adopted?
  }

  predicate AnyInFlight(s: State) {
    exists t | t in s.admissions :: InFlight(s.admissions[t])
  }

  lemma {:induction false} StoppedAdmitsNobody(s: State, events: seq<Event>)
    requires s.mem.stopping && s.mem.instances == map[] && !AnyInFlight(s)
    ensures Run(s, events).mem.instances == map[]
    decreases |events|
  {
    if events != [] {
      StoppedAdmitsNobody(Apply(s, events[0]), events[1..]);
    }
  }

  /** A string that is not in a finite set: one longer than all of them. */
  lemma {:induction false} LengthBound(ids: set<InstanceId>) returns (n: nat)
    ensures forall id | id in ids :: |id| < n
    decreases |ids|
  {
    n := 0;
    if ids != {} {
      var one :| one in ids;
      var m := LengthBound(ids - {one});
      n := if |one| < m then m else |one| + 1;
      assert forall id | id in ids :: id == one || id in ids - {one};
    }
  }

  /** An admission in flight can still register, whatever happened to the daemon. */
  lemma InFlightRegisters(s: State, t: Tid) returns (events: seq<Event>)
    requires t in s.admissions && InFlight(s.admissions[t])
    ensures Run(s, events).mem.instances != map[]
    decreases if s.admissions[t].Checked? then 2 else if s.admissions[t].Prepared? then 1 else 0
  {
    var n := LengthBound(s.prepared);
    var e := Advance(t, seq(n, i => 'x'), false);
    var u := Apply(s, e);
    if InFlight(u.admissions[t]) {
      var more := InFlightRegisters(u, t);
      events := [e] + more;
      assert events[1..] == more;
    } else {
      events := [e];
      assert Run(u, events[1..]) == u;
      assert s.admissions[t].id in u.mem.instances;
    }
  }

  /**
   After a stop the registry can fill again exactly when some admission was in flight: registering does
   not look at the stopping flag a second time.
   */
  lemma StopLeavesRegistryEmptyIff(s: State)
    requires s.mem.stopping && s.mem.instances == map[]
    ensures (forall events :: Run(s, events).mem.instances == map[]) <==> !AnyInFlight(s)
  {
    if AnyInFlight(s) {
      var t :| t in s.admissions && InFlight(s.admissions[t]);
      var events := InFlightRegisters(s, t);
      assert Run(s, events).mem.instances != map[];
    } else {
      forall events
        ensures Run(s, events).mem.instances == map[]
      {
        StoppedAdmitsNobody(s, events);
      }
    }
  }
}
