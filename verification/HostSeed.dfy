/**
 The seed call itself: reading, locking, replacing and publishing, in the order of the code, on the Runtime
 directory. What a call does is a run of the protocol of HostSeedProtocol by one process, so what is proved
 there of all interleavings is about these steps.
 */
module HostSeed {
  import opened Wrappers
  import opened SeedText
  import opened HostSeedProtocol

  lemma RunGrows(s: State, events: seq<Event>, e: Event)
    ensures Run(s, events + [e]) == Apply(Run(s, events), e)
  {
    hide Apply;
    RunSplits(s, events, [e]);
    var t := Run(s, events);
    assert [e][1..] == [];
    assert Run(t, [e]) == Run(Apply(t, e), []);
  }

  /** What the operating system refuses in one call. */
  datatype Faults = Faults(
    fastOpen: bool, fastRead: bool, prepare: bool, lockedOpen: bool, lockedRead: bool,
    generate: bool, remove: bool, create: bool, write: bool, link: bool, unlink: bool)

  predicate PublishFault(f: Faults) {
    f.create || f.write || f.link || f.unlink
  }

  /** Whether the read under the lock finds the published seed, if there is one. */
  predicate FindsSeed(published: Option<string>, f: Faults) {
    published.Some? && !f.lockedOpen && !f.lockedRead
  }

  /** What a call comes to once it holds the lock, by the seed published before it. */
  function ExpectedLocked(published: Option<string>, random: Octets, f: Faults): Outcome {
    if FindsSeed(published, f) then Success(published.value)
    else if f.generate || f.remove || PublishFault(f) then Failure
    else Success(Render(random))
  }

  /** The seed published after that; also one whose caller fails because its temporary name stays. */
  function PublishedLocked(published: Option<string>, random: Octets, f: Faults): Option<string> {
    if FindsSeed(published, f) || f.generate || f.remove then published
    else if f.create || f.write || f.link then None
    else Some(Render(random))
  }

  /** The unlocked read finds the seed, or the call never gets the lock. */
  predicate EndsEarly(published: Option<string>, f: Faults) {
    f.prepare || (published.Some? && !f.fastOpen && !f.fastRead)
  }

  /** What an undisturbed call comes to. */
  function Expected(published: Option<string>, random: Octets, f: Faults): Outcome {
    if published.Some? && !f.fastOpen && !f.fastRead then Success(published.value)
    else if f.prepare then Failure
    else ExpectedLocked(published, random, f)
  }

  /** The seed published after an undisturbed call. */
  function PublishedAfter(published: Option<string>, random: Octets, f: Faults): Option<string> {
    if EndsEarly(published, f) then published else PublishedLocked(published, random, f)
  }

  /**
   Whatever fails, a success is the seed published after the call; and exactly a spurious read under the
   lock, in a call that comes that far and can remove the file, loses a published seed.
   */
  lemma SuccessIsPublished(published: Option<string>, random: Octets, f: Faults)
    ensures Expected(published, random, f).Success? ==>
              PublishedAfter(published, random, f) == Some(Expected(published, random, f).seed)
    ensures published.Some? && published != Some(Render(random)) ==>
              (PublishedAfter(published, random, f) != published <==>
               !EndsEarly(published, f) && (f.lockedOpen || f.lockedRead) && !f.generate && !f.remove)
  {
    hide Render;
  }

  /** A call that meets no fault returns the seed there is, or a fresh one. */
  lemma FaultlessSucceeds(published: Option<string>, random: Octets)
    ensures var f := Faults(false, false, false, false, false, false, false, false, false, false, false);
            Expected(published, random, f) == Success(if published.Some? then published.value else Render(random))
  {
  }

  /** So does one whose unlocked read alone fails, at whichever operation. */
  lemma LockedReadSuffices(published: Option<string>, random: Octets, open: bool, read: bool)
    ensures var f := Faults(open, read, false, false, false, false, false, false, false, false, false);
            Expected(published, random, f) == Success(if published.Some? then published.value else Render(random))
  {
  }

  /** A published seed is 8 to 64 characters of the charset. */
  lemma PublishedIsId(s: State)
    ensures Published(s).Some? ==>
              8 <= |Published(s).value| <= 64 && forall c | c in Published(s).value :: IsListed(c)
  {
    hide ReadSeed, IsListed;
    if Published(s).Some? {
      var content := Content(s, s.path.value);
      ReadSeedIsLong(content);
      forall c | c in Published(s).value
        ensures IsListed(c)
      {
        var i :| 0 <= i < |Published(s).value| && Published(s).value[i] == c;
        ReadSeedIsId(content, i);
      }
    }
  }

  lemma ReadSeedIsLong(content: string)
    ensures ReadSeed(content).Some? ==> 8 <= |ReadSeed(content).value| <= 64
  {
  }

  class RuntimeRoot {
    var path: Option<Inode>
    var temps: map<string, Inode>
    var disk: map<Inode, string>
    var lock: Option<Pid>
    ghost var procs: map<Pid, Pc>
    ghost const start: State
    ghost var history: seq<Event>

    ghost function View(): State reads this {
      State(path, temps, disk, lock, procs)
    }

    /** The directory is where the history of protocol steps has brought it. */
    ghost predicate Valid() reads this {
      View() == Run(start, history)
    }

    ghost predicate Stands(p: Pid, pc: Pc) reads this {
      p in procs && procs[p] == pc
    }

    constructor (path: Option<Inode>, temps: map<string, Inode>, disk: map<Inode, string>)
      ensures Valid() && View() == State(path, temps, disk, None, map[]) && history == []
    {
      this.path, this.temps, this.disk, lock, procs := path, temps, disk, None, map[];
      start, history := State(path, temps, disk, None, map[]), [];
    }

    /** The change just made to the directory was this step of the protocol. */
    ghost method Step(before: State, e: Event)
      requires before == Run(start, history)
      requires View() == Apply(before, e).(procs := procs)
      modifies this`procs, this`history
      ensures Valid() && history == old(history) + [e]
      ensures procs == Apply(before, e).procs
    {
      hide Apply;
      RunGrows(start, history, e);
      procs, history := Apply(before, e).procs, history + [e];
    }

    /** One open and one read of the published file. */
    method ReadHostSeed(p: Pid, locked: bool, openFails: bool, readFails: bool) returns (seed: Option<string>)
      requires Valid() && Stands(p, if locked then Locked else Start)
      modifies this`procs, this`history
      ensures Valid() && old(history) <= history
      ensures seed.Some? ==> Stands(p, if locked then Releasing(Success(seed.value)) else Done(Success(seed.value)))
      ensures seed.None? ==> Stands(p, if locked then Generating else WantLock)
      ensures seed == if openFails || readFails then None else old(Published(View()))
      ensures Published(View()) == old(Published(View()))
    {
      hide ReadSeed, Run;
      ghost var before := View();
      Step(before, Event(p, if locked then LockedOpen(openFails) else FastOpen(openFails)));
      if openFails || path.None? {
        return None;
      }
      before := View();
      seed := if readFails then None else ReadSeed(if path.value in disk then disk[path.value] else "");
      Step(before, Event(p, if locked then LockedRead(readFails) else FastRead(readFails)));
    }

    /** A failed operation of the critical section ends the call with an error. */
    ghost method Fails(p: Pid, a: Action)
      requires Valid() && p in procs
      requires (procs[p].Generating? && a == GenerateFails) || (procs[p].Creating? && a == CreateFails)
          || (procs[p].Writing? && a == WriteFails)
      modifies this`procs, this`history
      ensures Valid() && Stands(p, Releasing(Failure)) && old(history) <= history
      ensures Published(View()) == old(Published(View()))
    {
      Step(View(), Event(p, a));
    }

    /** Writes the temporary file, links it into place unless the name is taken, and removes the temporary name. */
    method PublishSeedFile(p: Pid, seed: string, tmp: string, node: Inode, f: Faults) returns (ok: bool)
      requires Valid() && Stands(p, Creating(seed)) && node !in disk
      modifies this
      ensures Valid() && Stands(p, Releasing(if ok then Success(seed) else Failure)) && old(history) <= history
      ensures ok <==> !PublishFault(f) && old(path).None?
      ensures old(path).None? ==>
          Published(View()) == if f.create || f.write || f.link then None else ReadSeed(seed + "\n")
      ensures lock == old(lock)
    {
      hide ReadSeed, Run, Apply;
      if f.create {
        Fails(p, CreateFails);
        return false;
      }
      var file := CreateFile(p, seed, tmp, node);
      ok := WriteFile(p, seed, tmp, file, f.write);
      if !ok {
        return false;
      }
      ok := LinkAndUnlink(p, seed, tmp, file, f);
    }

    /** A leftover of the same name is truncated in place. */
    method CreateFile(p: Pid, ghost seed: string, tmp: string, node: Inode) returns (file: Inode)
      requires Valid() && Stands(p, Creating(seed)) && node !in disk
      modifies this
      ensures Valid() && Stands(p, Writing(seed, tmp, file)) && old(history) <= history
      ensures disk == old(disk)[file := ""] && file == if tmp in old(temps) then old(temps[tmp]) else node
      ensures path == old(path) && lock == old(lock)
    {
      hide ReadSeed, Run;
      ghost var before := View();
      file := if tmp in temps then temps[tmp] else node;
      disk := disk[file := ""];
      if tmp !in temps {
        temps := temps[tmp := node];
      }
      Step(before, Event(p, CreateTemp(tmp, node)));
    }

    /** Any number of partial writes. A failure may strike at any of them, and at the latest when the file is closed. */
    method WriteFile(p: Pid, seed: string, ghost tmp: string, file: Inode, fails: bool) returns (ok: bool)
      requires Valid() && Stands(p, Writing(seed, tmp, file)) && file in disk && disk[file] == ""
      modifies this
      ensures Valid() && old(history) <= history
      ensures ok <==> !fails
      ensures ok ==> Stands(p, Writing(seed, tmp, file)) && file in disk && disk[file] == seed + "\n"
      ensures !ok ==> Stands(p, Releasing(Failure))
      ensures path == old(path) && lock == old(lock)
    {
      hide ReadSeed, Run;
      var data := seed + "\n";
      var done: nat := 0;
      while done < |data|
        invariant done <= |data| && Valid() && old(history) <= history
        invariant Stands(p, Writing(seed, tmp, file)) && file in disk && disk[file] == data[..done]
        invariant path == old(path) && lock == old(lock)
      {
        var strikes: bool :| strikes ==> fails;
        if strikes {
          Fails(p, WriteFails);
          return false;
        }
        var n: nat :| 0 < n <= |data| - done;
        ghost var before := View();
        done := done + n;
        disk := disk[file := data[..done]];
        Step(before, Event(p, Write(n)));
      }
      assert data[..done] == data;
      ok := !fails;
      if fails {
        Fails(p, WriteFails);
      }
    }

    method LinkAndUnlink(p: Pid, seed: string, tmp: string, file: Inode, f: Faults) returns (ok: bool)
      requires Valid() && Stands(p, Writing(seed, tmp, file)) && file in disk && disk[file] == seed + "\n"
      modifies this
      ensures Valid() && Stands(p, Releasing(if ok then Success(seed) else Failure)) && old(history) <= history
      ensures ok <==> !f.link && !f.unlink && old(path).None?
      ensures old(path).None? ==> Published(View()) == if f.link then None else ReadSeed(seed + "\n")
      ensures lock == old(lock)
    {
      hide ReadSeed, Run, Apply;
      var linked := LinkTemp(p, seed, tmp, file, f.link);
      UnlinkTemp(p, seed, tmp, linked, f.unlink);
      ok := linked && !f.unlink;
    }

    /** A link never goes over an existing name. */
    method LinkTemp(p: Pid, ghost seed: string, ghost tmp: string, file: Inode, fails: bool) returns (linked: bool)
      requires Valid() && Stands(p, Writing(seed, tmp, file)) && file in disk && disk[file] == seed + "\n"
      modifies this`path, this`procs, this`history
      ensures Valid() && Stands(p, Unlinking(seed, tmp, linked)) && old(history) <= history
      ensures linked <==> !fails && old(path).None?
      ensures path == if linked then Some(file) else old(path)
    {
      hide ReadSeed, Run;
      ghost var before := View();
      linked := !fails && path.None?;
      if linked {
        path := Some(file);
      }
      Step(before, Event(p, Link(fails)));
    }

    method UnlinkTemp(p: Pid, ghost seed: string, tmp: string, ghost linked: bool, fails: bool)
      requires Valid() && Stands(p, Unlinking(seed, tmp, linked))
      modifies this`temps, this`procs, this`history
      ensures Valid() && Stands(p, Releasing(if linked && !fails then Success(seed) else Failure))
          && old(history) <= history
      ensures temps == if fails then old(temps) else old(temps) - {tmp}
    {
      hide ReadSeed, Run;
      ghost var before := View();
      if !fails {
        temps := temps - {tmp};
      }
      Step(before, Event(p, Unlink(fails)));
    }

    /** The replacement under the lock, from the generation of a seed to its publication. */
    method ReplaceSeed(p: Pid, random: array<bv8>, tmp: string, node: Inode, f: Faults) returns (outcome: Outcome)
      requires Valid() && Stands(p, Generating) && node !in disk && random.Length == 16
      modifies this, random
      ensures Valid() && Stands(p, Releasing(outcome)) && old(history) <= history
      ensures outcome == if f.generate || f.remove || PublishFault(f) then Failure else Success(Render(old(random[..])))
      ensures Published(View()) == if f.generate || f.remove then old(Published(View()))
                                   else if f.create || f.write || f.link then None
                                   else Some(Render(old(random[..])))
      ensures lock == old(lock)
    {
      hide ReadSeed, Render, Run, Apply, View, Published;
      PublishedSeedReadsBack(random[..]);
      if f.generate {
        Fails(p, GenerateFails);
        return Failure;
      }
      var seed := GenerateSeed(p, random);
      RemoveSeed(p, seed, f.remove);
      if f.remove {
        return Failure;
      }
      var ok := PublishSeedFile(p, seed, tmp, node, f);
      outcome := if ok then Success(seed) else Failure;
    }

    method GenerateSeed(p: Pid, random: array<bv8>) returns (seed: string)
      requires Valid() && Stands(p, Generating) && random.Length == 16
      modifies random, this`procs, this`history
      ensures Valid() && Stands(p, Removing(seed)) && old(history) <= history
      ensures seed == Render(old(random[..])) && Published(View()) == old(Published(View()))
    {
      hide ReadSeed, Render, Run;
      ghost var bytes: Octets := random[..];
      seed := NewHostSeed(random);
      Step(View(), Event(p, Generate(bytes)));
    }

    method RemoveSeed(p: Pid, ghost seed: string, fails: bool)
      requires Valid() && Stands(p, Removing(seed))
      modifies this`path, this`procs, this`history
      ensures Valid() && Stands(p, if fails then Releasing(Failure) else Creating(seed)) && old(history) <= history
      ensures path == if fails then old(path) else None
      ensures fails ==> Published(View()) == old(Published(View()))
    {
      hide ReadSeed, Run;
      ghost var before := View();
      if !fails {
        path := None;
      }
      Step(before, Event(p, Remove(fails)));
    }

    /** The call from the lock on. */
    method LockedCall(p: Pid, random: array<bv8>, tmp: string, node: Inode, f: Faults) returns (outcome: Outcome)
      requires Valid() && Stands(p, WantLock) && lock.None? && node !in disk && random.Length == 16
      modifies this, random
      ensures Valid() && Stands(p, Done(outcome)) && lock.None? && old(history) <= history
      ensures outcome == if f.prepare then Failure else ExpectedLocked(old(Published(View())), old(random[..]), f)
      ensures Published(View()) == if f.prepare then old(Published(View()))
                                   else PublishedLocked(old(Published(View())), old(random[..]), f)
    {
      hide *;
      AcquireSeedLock(p, f.prepare);
      if f.prepare {
        return Failure;
      }
      outcome := UnderLock(p, random, tmp, node, f);
      ReleaseSeedLock(p, outcome);
    }

    /** A competing caller may have published a seed before the lock was had; otherwise there is one to publish. */
    method UnderLock(p: Pid, random: array<bv8>, tmp: string, node: Inode, f: Faults) returns (outcome: Outcome)
      requires Valid() && Stands(p, Locked) && node !in disk && random.Length == 16
      modifies this, random
      ensures Valid() && Stands(p, Releasing(outcome)) && old(history) <= history
      ensures lock == old(lock)
      ensures outcome == ExpectedLocked(old(Published(View())), old(random[..]), f)
      ensures Published(View()) == PublishedLocked(old(Published(View())), old(random[..]), f)
    {
      hide ReadSeed, Run, Render, Apply, View, Published;
      var seed := ReadHostSeed(p, true, f.lockedOpen, f.lockedRead);
      if seed.Some? {
        return Success(seed.value);
      }
      outcome := ReplaceSeed(p, random, tmp, node, f);
    }

    /** The directory or the lock file may not be had; otherwise a free lock is granted. */
    method AcquireSeedLock(p: Pid, fails: bool)
      requires Valid() && Stands(p, WantLock) && lock.None?
      modifies this`lock, this`procs, this`history
      ensures Valid() && Stands(p, if fails then Done(Failure) else Locked) && old(history) <= history
      ensures lock == (if fails then None else Some(p)) && Published(View()) == old(Published(View()))
    {
      hide ReadSeed, Run;
      ghost var before := View();
      if fails {
        Step(before, Event(p, Prepare));
        return;
      }
      lock := Some(p);
      Step(before, Event(p, TakeLock));
    }

    method ReleaseSeedLock(p: Pid, ghost outcome: Outcome)
      requires Valid() && Stands(p, Releasing(outcome))
      modifies this`lock, this`procs, this`history
      ensures Valid() && Stands(p, Done(outcome)) && old(history) <= history
      ensures Published(View()) == old(Published(View()))
      ensures lock.None?
    {
      hide ReadSeed, Run;
      ghost var before := View();
      lock := None;
      Step(before, Event(p, Release));
    }

    /**
     An undisturbed call is a run of the protocol that ends with the lock free. Its outcome and the seed
     published afterwards are those expected by the faults it meets.
     */
    method RuntimeHostSeed(p: Pid, random: array<bv8>, tmp: string, node: Inode, f: Faults) returns (outcome: Outcome)
      requires Valid() && Stands(p, Start) && lock.None? && node !in disk && random.Length == 16
      modifies this, random
      ensures Valid() && Stands(p, Done(outcome)) && lock.None? && old(history) <= history
      ensures outcome == Expected(old(Published(View())), old(random[..]), f)
      ensures Published(View()) == PublishedAfter(old(Published(View())), old(random[..]), f)
      ensures outcome.Success? ==> Published(View()) == Some(outcome.seed)
      ensures outcome.Success? ==> 8 <= |outcome.seed| <= 64 && forall c | c in outcome.seed :: IsListed(c)
    {
      SuccessIsPublished(Published(View()), random[..], f);
      hide ReadSeed, Run, Render;
      var seed := ReadHostSeed(p, false, f.fastOpen, f.fastRead);
      if seed.Some? {
        outcome := Success(seed.value);
      } else {
        outcome := LockedCall(p, random, tmp, node, f);
      }
      PublishedIsId(View());
    }
  }
}
