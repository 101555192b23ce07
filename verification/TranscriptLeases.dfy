/**
 The daemon-local ledger of Live Transcript producers: one lease per Room and Runtime Host, scoped to an
 epoch, stored under one concatenated key.
 */
module TranscriptLeases {
  datatype Lease = Lease(epoch: int, instance: string)

  function Key(room: string, host: string): string {
    room + "\0" + host
  }

  predicate NulFree(s: string) {
    '\0' !in s
  }

  /** `s` is `suffix` after a NUL and whatever precedes it. */
  predicate EndsAfterNul(s: string, suffix: string) {
    |suffix| < |s| && s[|s| - |suffix|..] == suffix && s[|s| - |suffix| - 1] == '\0'
  }

  /**
   Two hosts can share a key, with suitable rooms, exactly when they are equal or one is the other after a
   NUL. So among host ids without NUL the key determines both the room and the host.
   */
  lemma KeyCollision(host: string, other: string)
    ensures (exists room, room' :: Key(room, host) == Key(room', other) && host != other)
            <==> EndsAfterNul(host, other) || EndsAfterNul(other, host)
  {
    if EndsAfterNul(host, other) {
      CollisionExists(host, other);
    }
    if EndsAfterNul(other, host) {
      CollisionExists(other, host);
    }
    forall room, room' | Key(room, host) == Key(room', other) && host != other
      ensures EndsAfterNul(host, other) || EndsAfterNul(other, host)
    {
      SharedKey(room, host, room', other);
    }
  }

  lemma CollisionExists(host: string, other: string)
    requires EndsAfterNul(host, other)
    ensures Key("", host) == Key("\0" + host[..|host| - |other| - 1], other) && host != other
  {
    assert host == host[..|host| - |other| - 1] + "\0" + other;
  }

  lemma SharedKey(room: string, host: string, room': string, other: string)
    requires Key(room, host) == Key(room', other)
    ensures (room == room' && host == other) || EndsAfterNul(host, other) || EndsAfterNul(other, host)
  {
    var k := Key(room, host);
    if |host| == |other| {
      assert host == k[|k| - |host|..] && other == k[|k| - |host|..];
      assert room == k[..|room|] && room' == k[..|room|];
    } else if |host| > |other| {
      assert other == k[|k| - |other|..] == host[|host| - |other|..];
      assert k[|k| - |other| - 1] == '\0' == host[|host| - |other| - 1];
    } else {
      assert host == k[|k| - |host|..] == other[|other| - |host|..];
      assert k[|k| - |host| - 1] == '\0' == other[|other| - |host| - 1];
    }
  }

  /** NUL-free host ids make the key injective. */
  lemma KeyInjective(room: string, host: string, room': string, other: string)
    requires NulFree(host) && NulFree(other) && Key(room, host) == Key(room', other)
    ensures room == room' && host == other
  {
    SharedKey(room, host, room', other);
  }

  type Table = map<string, Lease>

  predicate WellFormed(room: string, host: string, epoch: int, instance: string) {
    room != "" && host != "" && epoch > 0 && instance != ""
  }

  datatype Event =
    | Acquire(room: string, host: string, epoch: int, instance: string)
    | Release(room: string, host: string, epoch: int, instance: string)
    | ReleaseInstance(instance: string)

  function Without(t: Table, instance: string): Table {
    map k | k in t && t[k].instance != instance :: t[k]
  }

  function Apply(t: Table, e: Event): Table {
    match e
    case Acquire(room, host, epoch, instance) =>
      var k := Key(room, host);
      if WellFormed(room, host, epoch, instance) && (k !in t || t[k].epoch != epoch) then t[k := Lease(epoch, instance)]
      else t
    case Release(room, host, epoch, instance) =>
      var k := Key(room, host);
      if k in t && t[k] == Lease(epoch, instance) then t - {k} else t
    case ReleaseInstance(instance) => if instance == "" then t else Without(t, instance)
  }

  /** Whether an acquisition is granted. */
  predicate Granted(t: Table, room: string, host: string, epoch: int, instance: string) {
    && WellFormed(room, host, epoch, instance)
    && var k := Key(room, host); k !in t || t[k].epoch != epoch || t[k].instance == instance
  }

  class TranscriptProducerCoordinator {
    var leases: Table

    constructor ()
      ensures leases == map[]
    {
      leases := map[];
    }

    method AcquireLease(room: string, host: string, epoch: int, instance: string) returns (granted: bool)
      modifies this
      ensures leases == Apply(old(leases), Acquire(room, host, epoch, instance))
      ensures granted == Granted(old(leases), room, host, epoch, instance)
      ensures granted ==> Key(room, host) in leases && leases[Key(room, host)] == Lease(epoch, instance)
    {
      if room == "" || host == "" || epoch <= 0 || instance == "" {
        return false;
      }
      var key := Key(room, host);
      if key !in leases || leases[key].epoch != epoch {
        leases := leases[key := Lease(epoch, instance)];
        return true;
      }
      return leases[key].instance == instance;
    }

    method ReleaseLease(room: string, host: string, epoch: int, instance: string)
      modifies this
      ensures leases == Apply(old(leases), Release(room, host, epoch, instance))
    {
      var key := Key(room, host);
      if key in leases && leases[key].epoch == epoch && leases[key].instance == instance {
        leases := leases - {key};
      }
    }

    /** The loop visits the keys in any order and deletes while it iterates. */
    method ReleaseAllOf(instance: string)
      modifies this
      ensures leases == Apply(old(leases), ReleaseInstance(instance))
    {
      if instance == "" {
        return;
      }
      var left := leases.Keys;
      while left != {}
        invariant left <= leases.Keys <= old(leases).Keys
        invariant forall k | k in leases :: leases[k] == old(leases)[k]
        invariant forall k | k in old(leases) && (k !in leases || k !in left) ::
            k in leases <==> old(leases)[k].instance != instance
        decreases left
      {
        var key :| key in left;
        if leases[key].instance == instance {
          leases := leases - {key};
        }
        left := left - {key};
      }
    }
  }

  /** Who is granted what, in plain terms: a free pair, another epoch, or one's own lease; nothing malformed. */
  lemma GrantTable(t: Table, room: string, host: string, epoch: int, instance: string)
    ensures room == "" || host == "" || epoch <= 0 || instance == "" ==> !Granted(t, room, host, epoch, instance)
    ensures room != "" && host != "" && epoch >= 1 && instance != "" ==>
              var k := room + "\0" + host;
              && (k !in t ==> Granted(t, room, host, epoch, instance))
              && (k in t && t[k].epoch != epoch ==> Granted(t, room, host, epoch, instance))
              && (k in t && t[k].epoch == epoch ==>
                  (Granted(t, room, host, epoch, instance) <==> t[k].instance == instance))
  {
  }

  // --- Refinement: a table keyed by pairs ---

  type PairTable = map<(string, string), Lease>

  function ApplyToPairs(t: PairTable, e: Event): PairTable {
    match e
    case Acquire(room, host, epoch, instance) =>
      if WellFormed(room, host, epoch, instance) && ((room, host) !in t || t[(room, host)].epoch != epoch)
      then t[(room, host) := Lease(epoch, instance)] else t
    case Release(room, host, epoch, instance) =>
      if (room, host) in t && t[(room, host)] == Lease(epoch, instance) then t - {(room, host)} else t
    case ReleaseInstance(instance) =>
      if instance == "" then t else map p | p in t && t[p].instance != instance :: t[p]
  }

  /** The hosts an event names are free of NUL. */
  predicate NulFreeHost(e: Event) {
    !e.ReleaseInstance? ==> NulFree(e.host)
  }

  /** The concatenated table stores exactly the pair table. */
  ghost predicate Represents(t: Table, p: PairTable) {
    && (forall k | k in p :: NulFree(k.1) && Key(k.0, k.1) in t && t[Key(k.0, k.1)] == p[k])
    && (forall k | k in t :: exists room, host :: (room, host) in p && Key(room, host) == k)
  }

  /** Looking up an event's pair gives the same lease in both tables. */
  lemma SameLookup(t: Table, p: PairTable, room: string, host: string)
    requires Represents(t, p) && NulFree(host)
    ensures Key(room, host) in t <==> (room, host) in p
    ensures (room, host) in p ==> t[Key(room, host)] == p[(room, host)]
    ensures forall k | k in p && Key(k.0, k.1) == Key(room, host) :: k == (room, host)
  {
    forall k | k in p && Key(k.0, k.1) == Key(room, host)
      ensures k == (room, host)
    {
      KeyInjective(k.0, k.1, room, host);
    }
    if Key(room, host) in t {
      var r, h :| (r, h) in p && Key(r, h) == Key(room, host);
    }
  }

  lemma StepRefines(t: Table, p: PairTable, e: Event)
    requires Represents(t, p) && NulFreeHost(e)
    ensures Represents(Apply(t, e), ApplyToPairs(p, e))
  {
    hide Key, NulFree;
    var t', p' := Apply(t, e), ApplyToPairs(p, e);
    if !e.ReleaseInstance? {
      SameLookup(t, p, e.room, e.host);
    }
    forall k | k in t'
      ensures exists room, host :: (room, host) in p' && Key(room, host) == k
    {
      if k in t {
        var room, host :| (room, host) in p && Key(room, host) == k;
        assert t[k] == p[(room, host)];
        assert (room, host) in p';
      } else {
        assert (e.room, e.host) in p';
      }
    }
  }

  function Run(t: Table, events: seq<Event>): Table
    decreases |events|
  {
    if events == [] then t else Run(Apply(t, events[0]), events[1..])
  }

  function RunPairs(t: PairTable, events: seq<Event>): PairTable
    decreases |events|
  {
    if events == [] then t else RunPairs(ApplyToPairs(t, events[0]), events[1..])
  }

  /** With NUL-free host ids the concatenated table behaves, over any run, as one keyed by pairs. */
  lemma {:induction false} RunRefines(t: Table, p: PairTable, events: seq<Event>)
    requires Represents(t, p) && forall i | 0 <= i < |events| :: NulFreeHost(events[i])
    ensures Represents(Run(t, events), RunPairs(p, events))
    decreases |events|
  {
    if events != [] {
      StepRefines(t, p, events[0]);
      RunRefines(Apply(t, events[0]), ApplyToPairs(p, events[0]), events[1..]);
    }
  }

  // --- Exclusivity over runs ---

  /** The events that may end a lease: its holder's own release, and an acquisition of the pair at another epoch. */
  predicate MayEnd(e: Event, room: string, host: string, l: Lease) {
    match e
    case Acquire(r, h, epoch, instance) =>
      r == room && h == host && epoch != l.epoch && WellFormed(r, h, epoch, instance)
    case Release(r, h, epoch, instance) => r == room && h == host && Lease(epoch, instance) == l
    case ReleaseInstance(instance) => instance == l.instance
  }

  /** A lease ends by exactly those events and by no other: in particular a stale release changes nothing. */
  lemma LeaseEnds(t: Table, e: Event, room: string, host: string)
    requires NulFree(host) && NulFreeHost(e) && Key(room, host) in t && t[Key(room, host)].instance != ""
    ensures var k, l, t' := Key(room, host), t[Key(room, host)], Apply(t, e);
            (k in t' && t'[k] == l) <==> !MayEnd(e, room, host, l)
  {
    if !e.ReleaseInstance? && Key(e.room, e.host) == Key(room, host) {
      KeyInjective(e.room, e.host, room, host);
    }
  }

  /** A grant hands the lease to the acquiring instance, and nothing else does. */
  lemma GrantStartsLease(t: Table, room: string, host: string, epoch: int, instance: string)
    ensures var u, k := Apply(t, Acquire(room, host, epoch, instance)), Key(room, host);
            Granted(t, room, host, epoch, instance) <==>
            WellFormed(room, host, epoch, instance) && k in u && u[k] == Lease(epoch, instance)
  {
  }

  /** Through any run of events none of which may end a lease, its holder keeps it. */
  lemma {:induction false} LeaseStays(t: Table, room: string, host: string, l: Lease, events: seq<Event>)
    requires NulFree(host) && (forall i | 0 <= i < |events| :: NulFreeHost(events[i]))
    requires Key(room, host) in t && t[Key(room, host)] == l && l.instance != ""
    requires forall i | 0 <= i < |events| :: !MayEnd(events[i], room, host, l)
    ensures var u := Run(t, events); Key(room, host) in u && u[Key(room, host)] == l
    decreases |events|
  {
    if events != [] {
      LeaseEnds(t, events[0], room, host);
      LeaseStays(Apply(t, events[0]), room, host, l, events[1..]);
    }
  }

  /**
   After a grant, through any run of events none of which may end the lease, every other instance is refused
   at that epoch, and the holder's own acquisition is granted again.
   */
  lemma LeaseIsExclusive(t: Table, room: string, host: string, epoch: int, holder: string, events: seq<Event>)
    requires NulFree(host) && (forall i | 0 <= i < |events| :: NulFreeHost(events[i]))
    requires Granted(t, room, host, epoch, holder)
    requires forall i | 0 <= i < |events| :: !MayEnd(events[i], room, host, Lease(epoch, holder))
    ensures var u := Run(Apply(t, Acquire(room, host, epoch, holder)), events);
            && Key(room, host) in u && u[Key(room, host)] == Lease(epoch, holder)
            && forall other :: Granted(u, room, host, epoch, other) <==> other == holder
  {
    GrantStartsLease(t, room, host, epoch, holder);
    LeaseStays(Apply(t, Acquire(room, host, epoch, holder)), room, host, Lease(epoch, holder), events);
  }

  /** Without NUL-free hosts exclusivity fails: an acquisition for one pair takes away another pair's lease. */
  lemma NulHostStealsLease(room: string, host: string, other: string, epoch: int, holder: string, thief: string)
      returns (room': string)
    requires EndsAfterNul(host, other) && WellFormed(room, host, epoch, holder) && other != "" && thief != ""
    ensures room' != "" && other != host
    ensures var t := Apply(map[], Acquire(room, host, epoch, holder));
            && t == map[Key(room, host) := Lease(epoch, holder)]
            && Apply(t, Acquire(room', other, epoch + 1, thief)) == map[Key(room, host) := Lease(epoch + 1, thief)]
  {
    room' := room + "\0" + host[..|host| - |other| - 1];
    assert host == host[..|host| - |other| - 1] + "\0" + other;
    assert Key(room', other) == Key(room, host);
  }
}
