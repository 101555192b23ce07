/**
 The private copies of the daemon executable: their names, and the bounded scan that removes those of dead
 daemons.
 */
module RuntimeExecutables {
  import opened Wrappers
  import opened Text

  const PREFIX := "free4chat-agent-"
  const TEMP_PREFIX := "runtime-executable-tmp-"
  const MAX_SCAN: nat := 64
  const MAX_INT: nat := 0x7fff_ffff_ffff_ffff

  /** Decimal conversion with an optional sign, within 64 bits. */
  function Atoi(s: string): Option<int> {
    var signed := s != "" && (s[0] == '-' || s[0] == '+');
    var digits := if signed then s[1..] else s;
    if digits == "" || !AllDigits(digits) then None
    else
      var n: int := DigitsValue(digits);
      if signed && s[0] == '-' then if n <= MAX_INT + 1 then Some(-n) else None
      else if n <= MAX_INT then Some(n) else None
  }

  function TrimPrefix(s: string, prefix: string): string {
    if HasPrefix(s, prefix) then s[|prefix|..] else s
  }

  /** The process id in a copy's name, if there is one. */
  function RuntimeExecutablePid(name: string): Option<int> {
    var rest := TrimPrefix(name, PREFIX);
    var separator := IndexOf(rest, '-');
    if separator == |rest| || separator == 0 then None
    else
      var pid := Atoi(rest[..separator]);
      if pid.Some? && pid.value > 0 then pid else None
  }

  /** The name of the copy that daemon `pid` publishes. */
  function StableName(pid: nat, id: string): string {
    PREFIX + Decimal(pid) + "-" + id
  }

  /** Parsing a published name gives back the process id, whatever the id behind it. */
  lemma NameRoundTrip(pid: nat, id: string)
    requires 0 < pid <= MAX_INT
    ensures HasPrefix(StableName(pid, id), PREFIX)
    ensures RuntimeExecutablePid(StableName(pid, id)) == Some(pid)
  {
    var digits := Decimal(pid);
    var name, rest := StableName(pid, id), digits + "-" + id;
    assert name == PREFIX + rest;
    assert name[..|PREFIX|] == PREFIX && name[|PREFIX|..] == rest;
    assert forall i | 0 <= i < |digits| :: rest[i] == digits[i] && IsDigit(digits[i]);
    assert rest[|digits|] == '-';
    FirstDash(rest, |digits|);
    assert rest[..|digits|] == digits;
    assert IsDigit(digits[0]);
  }

  lemma FirstDash(s: string, k: nat)
    requires k < |s| && s[k] == '-' && forall i | 0 <= i < k :: IsDigit(s[i])
    ensures IndexOf(s, '-') == k
  {
  }

  /** Names of different processes differ. */
  lemma NamesIdentifyProcesses(pid: nat, id: string, pid': nat, id': string)
    requires 0 < pid <= MAX_INT && 0 < pid' <= MAX_INT
    requires StableName(pid, id) == StableName(pid', id')
    ensures pid == pid'
  {
    NameRoundTrip(pid, id);
    NameRoundTrip(pid', id');
  }

  datatype Kind = Regular | Symlink | Other

  /** What the scan removes: a regular file that is a temporary leftover, or the copy of a process that is not alive. */
  predicate Removable(name: string, kind: Kind, alive: int -> bool) {
    && kind.Regular?
    && (|| HasPrefix(name, TEMP_PREFIX)
        || (HasPrefix(name, PREFIX) && RuntimeExecutablePid(name).Some? && !alive(RuntimeExecutablePid(name).value)))
  }

  lemma PrefixStarts(s: string, prefix: string)
    requires prefix != ""
    ensures HasPrefix(s, prefix) ==> s != "" && s[0] == prefix[0]
  {
  }

  /** A daemon's own copy goes exactly when the daemon is dead. */
  lemma CopyGoesWithItsDaemon(pid: nat, id: string, alive: int -> bool)
    requires 0 < pid <= MAX_INT
    ensures Removable(StableName(pid, id), Regular, alive) <==> !alive(pid)
  {
    NameRoundTrip(pid, id);
    assert StableName(pid, id)[0] == 'f' && TEMP_PREFIX[0] == 'r';
    PrefixStarts(StableName(pid, id), TEMP_PREFIX);
  }

  /** What is removable, in plain names: regular temporary leftovers, and copies of processes that are dead. */
  lemma RemovableTable(name: string, alive: int -> bool)
    ensures !Removable(name, Symlink, alive) && !Removable(name, Other, alive)
    ensures HasPrefix(name, "runtime-executable-tmp-") ==> Removable(name, Regular, alive)
    ensures !HasPrefix(name, "runtime-executable-tmp-") && !HasPrefix(name, "free4chat-agent-") ==>
            !Removable(name, Regular, alive)
    ensures HasPrefix(name, "free4chat-agent-") ==>
              match RuntimeExecutablePid(name)
              case None => !Removable(name, Regular, alive)
              case Some(pid) => Removable(name, Regular, alive) <==> !alive(pid)
  {
    PrefixStarts(name, PREFIX);
    PrefixStarts(name, TEMP_PREFIX);
    assert PREFIX[0] == 'f' && TEMP_PREFIX[0] == 'r';
  }

  /** A pid is read only from a decimal number above 0, up to a dash. */
  lemma PidIff(word: string, rest: string)
    requires '-' !in word && word != "" && word[0] != '+'
    ensures var pid := RuntimeExecutablePid("free4chat-agent-" + word + "-" + rest);
            if AllDigits(word) && 0 < DigitsValue(word) <= 0x7fff_ffff_ffff_ffff then pid == Some(DigitsValue(word))
            else pid.None?
  {
    var name, tail := "free4chat-agent-" + word + "-" + rest, word + "-" + rest;
    assert name == PREFIX + tail;
    assert name[..|PREFIX|] == PREFIX && name[|PREFIX|..] == tail;
    assert tail[|word|] == '-' && tail[..|word|] == word;
    assert forall i | 0 <= i < |word| :: tail[i] == word[i];
    assert word[0] in word;
    DashAfter(tail, |word|);
  }

  lemma DashAfter(s: string, k: nat)
    requires k < |s| && s[k] == '-' && forall i | 0 <= i < k :: s[i] != '-'
    ensures IndexOf(s, '-') == k
  {
  }

  /** `stuck` are the names whose removal fails. */
  class ExecutableDirectory {
    var files: map<string, Kind>
    const stuck: set<string>

    constructor (files: map<string, Kind>, stuck: set<string>)
      ensures this.files == files && this.stuck == stuck
    {
      this.files, this.stuck := files, stuck;
    }

    /** The first part of a directory listing, in any order. */
    method ReadDir(max: nat) returns (names: seq<string>)
      ensures |names| == if |files| < max then |files| else max
      ensures forall i | 0 <= i < |names| :: names[i] in files
      ensures forall i, j | 0 <= i < j < |names| :: names[i] != names[j]
    {
      names := [];
      var left := files.Keys;
      while |names| < max && left != {}
        invariant |names| <= max && left <= files.Keys && |names| + |left| == |files.Keys|
        invariant forall i | 0 <= i < |names| :: names[i] in files && names[i] !in left
        invariant forall i, j | 0 <= i < j < |names| :: names[i] != names[j]
        decreases left
      {
        var name :| name in left;
        names, left := names + [name], left - {name};
      }
    }

    method Remove(name: string) returns (ok: bool)
      modifies this`files
      ensures ok <==> name !in stuck
      ensures files == if ok then old(files) - {name} else old(files)
    {
      ok := name !in stuck;
      if ok {
        files := files - {name};
      }
    }

    /**
     One scan looks at 64 entries, or at all if there are fewer. It removes only removable ones among
     them, and succeeds exactly when it has removed all of those.
     */
    method RemoveStaleRuntimeExecutables(alive: int -> bool) returns (ok: bool, ghost examined: seq<string>)
      modifies this`files
      ensures |examined| == if |old(files)| < MAX_SCAN then |old(files)| else MAX_SCAN
      ensures forall i | 0 <= i < |examined| :: examined[i] in old(files)
      ensures forall i, j | 0 <= i < j < |examined| :: examined[i] != examined[j]
      ensures forall name | name in files :: name in old(files) && files[name] == old(files)[name]
      ensures forall name | name in old(files) && name !in files ::
          name in examined && Removable(name, old(files)[name], alive)
      ensures ok ==> forall name | name in examined && Removable(name, old(files)[name], alive) :: name !in files
      ensures forall name | name in old(files) && !old(files)[name].Regular? :: name in files
      ensures forall name | name in old(files) && name !in files ::
          || HasPrefix(name, "runtime-executable-tmp-")
          || (HasPrefix(name, "free4chat-agent-") && RuntimeExecutablePid(name).Some?
              && !alive(RuntimeExecutablePid(name).value))
      ensures ok ==> forall name | name in examined && old(files)[name].Regular? ::
          && (HasPrefix(name, "runtime-executable-tmp-") ==> name !in files)
          && (HasPrefix(name, "free4chat-agent-") ==>
              match RuntimeExecutablePid(name) case None => true case Some(pid) => alive(pid) || name !in files)
      ensures ok <==> forall name | name in examined && Removable(name, old(files)[name], alive) :: name !in stuck
    {
      var entries := ReadDir(MAX_SCAN);
      examined := entries;
      for i := 0 to |entries|
        invariant forall name | name in files :: name in old(files) && files[name] == old(files)[name]
        invariant forall name | name in old(files) && name !in files ::
            name in entries[..i] && Removable(name, old(files)[name], alive)
        invariant forall name | name in entries[..i] && Removable(name, old(files)[name], alive) ::
            name !in files && name !in stuck
      {
        var name := entries[i];
        assert entries[..i + 1] == entries[..i] + [name];
        var kind := files[name];
        if kind.Symlink? || !kind.Regular? {
          continue;
        }
        if HasPrefix(name, TEMP_PREFIX) {
          var removed := Remove(name);
          if !removed {
            return false, examined;
          }
          continue;
        }
        if !HasPrefix(name, PREFIX) {
          continue;
        }
        var pid := RuntimeExecutablePid(name);
        if pid.None? || alive(pid.value) {
          continue;
        }
        var removed := Remove(name);
        if !removed {
          return false, examined;
        }
      }
      assert entries[..|entries|] == entries;
      return true, examined;
    }
  }
}
