/**
 The local Adapter registration and its file. A save writes a private temporary file and renames it
 over the registration; every step may fail, and the process may die between any two of them.
 */
module Registration {
  import opened Wrappers
  import Text

  const MAX_ADAPTER_ARGS: nat := 16
  const MAX_ADAPTER_ARG_LEN: nat := 1024
  const MAX_ADAPTER_CONFIG: nat := 16384

  datatype Registration = Registration(command: string, args: seq<string>)

  function TotalLength(args: seq<string>): nat {
    if args == [] then 0 else TotalLength(args[..|args| - 1]) + |args[|args| - 1]|
  }

  /** Executable identity and bounded arguments, without NUL bytes. */
  predicate IsValid(r: Registration) {
    && Text.TrimSpace(r.command) != ""
    && |r.command| <= MAX_ADAPTER_ARG_LEN && '\0' !in r.command
    && |r.args| <= MAX_ADAPTER_ARGS
    && (forall i | 0 <= i < |r.args| :: |r.args[i]| <= MAX_ADAPTER_ARG_LEN && '\0' !in r.args[i])
    && |r.command| + TotalLength(r.args) <= MAX_ADAPTER_CONFIG
  }

  /** The validity check runs through the arguments once, adding up their lengths. */
  method Valid(r: Registration) returns (ok: bool)
    ensures ok <==> IsValid(r)
  {
    if Text.TrimSpace(r.command) == "" || |r.command| > MAX_ADAPTER_ARG_LEN || '\0' in r.command
        || |r.args| > MAX_ADAPTER_ARGS {
      return false;
    }
    var total := |r.command|;
    for i := 0 to |r.args|
      invariant total == |r.command| + TotalLength(r.args[..i])
      invariant forall j | 0 <= j < i :: |r.args[j]| <= MAX_ADAPTER_ARG_LEN && '\0' !in r.args[j]
    {
      if |r.args[i]| > MAX_ADAPTER_ARG_LEN || '\0' in r.args[i] {
        return false;
      }
      assert r.args[..i + 1][..i] == r.args[..i];
      total := total + |r.args[i]|;
    }
    assert r.args[..|r.args|] == r.args;
    return total <= MAX_ADAPTER_CONFIG;
  }

  /** The total is a sum over all arguments. */
  lemma {:induction false} TotalAdds(a: seq<string>, b: seq<string>)
    ensures TotalLength(a + b) == TotalLength(a) + TotalLength(b)
    ensures TotalLength([]) == 0 && (|a| == 1 ==> TotalLength(a) == |a[0]|)
  {
    assert |a| == 1 ==> a[..0] == [];
    if b == [] {
      assert a + b == a;
    } else {
      assert (a + b)[..|a + b| - 1] == a + b[..|b| - 1];
      TotalAdds(a, b[..|b| - 1]);
    }
  }

  /** A visible command with few, short arguments is valid; the bounds, in numbers. */
  lemma ValidIff(r: Registration)
    requires Text.HasGraph(r.command)
    ensures IsValid(r) <==>
            && |r.command| <= 1024 && '\0' !in r.command && |r.args| <= 16
            && (forall arg | arg in r.args :: |arg| <= 1024 && '\0' !in arg)
            && |r.command| + TotalLength(r.args) <= 16384
  {
    Text.GraphIsNotBlank(r.command);
    assert forall arg | arg in r.args :: exists i | 0 <= i < |r.args| :: r.args[i] == arg;
  }

  /** A blank command is not. */
  lemma BlankIsInvalid(args: seq<string>)
    ensures !IsValid(Registration("", args)) && !IsValid(Registration(" ", args))
  {
    Text.SpaceIsBlank();
  }

  /** JSON encoding and decoding of a registration, as functions of the file's bytes. */
  datatype Coding = Coding(encode: Registration -> string, decode: string -> Option<Registration>)

  /** What loading a registration file with this content yields. */
  datatype Loaded = Unregistered | Registered(registration: Registration) | Broken

  function LoadOf(c: Coding, file: Option<string>): Loaded {
    if file.None? then Unregistered
    else if |file.value| > MAX_ADAPTER_CONFIG then Broken
    else
      var r := c.decode(file.value);
      if r.Some? && IsValid(r.value) then Registered(r.value) else Broken
  }

  /** A file of at most 16384 bytes that decodes to a valid registration loads; what else is there is broken. */
  lemma LoadTable(c: Coding, content: string)
    ensures LoadOf(c, None) == Unregistered
    ensures |content| > 16384 ==> LoadOf(c, Some(content)) == Broken
    ensures |content| <= 16384 ==>
              match c.decode(content)
              case None => LoadOf(c, Some(content)) == Broken
              case Some(r) => LoadOf(c, Some(content)) == if IsValid(r) then Registered(r) else Broken
  {
  }

  /** A registration survives its own encoding. */
  predicate RoundTrips(c: Coding, r: Registration) {
    c.decode(c.encode(r)) == Some(r)
  }

  /** What a save leaves loads back. */
  lemma SavedLoads(c: Coding, r: Registration)
    ensures IsValid(r) && RoundTrips(c, r) && |c.encode(r)| <= MAX_ADAPTER_CONFIG ==>
        LoadOf(c, Some(c.encode(r))) == Registered(r)
  {
  }

  // --- The Runtime directory, as far as the registration goes ---

  /** The registration file, and the temporary files beside it. */
  datatype Dir = Dir(file: Option<string>, temps: map<nat, string>)

  /** The atomic changes. A crash may strike between any two. */
  datatype Change = Create(tmp: nat) | Write(tmp: nat, part: string) | Rename(tmp: nat) | Discard(tmp: nat) | Remove

  function Changed(d: Dir, c: Change): Dir {
    match c
    case Create(tmp) => d.(temps := d.temps[tmp := ""])
    case Write(tmp, part) => if tmp in d.temps then d.(temps := d.temps[tmp := d.temps[tmp] + part]) else d
    case Rename(tmp) => if tmp in d.temps then Dir(Some(d.temps[tmp]), d.temps - {tmp}) else d
    case Discard(tmp) => d.(temps := d.temps - {tmp})
    case Remove => d.(file := None)
  }

  /** `trail` lists the directory as it was at first and after every change. */
  predicate Follows(trail: seq<Dir>, changes: seq<Change>) {
    |trail| == |changes| + 1 && forall k | 0 <= k < |changes| :: trail[k + 1] == Changed(trail[k], changes[k])
  }

  /** The directory with its operations; no file changes but by one of them. */
  class RuntimeDirectory {
    var file: Option<string>
    var temps: map<nat, string>
    ghost var trail: seq<Dir>
    ghost var changes: seq<Change>

    ghost function View(): Dir reads this {
      Dir(file, temps)
    }

    ghost predicate Valid() reads this {
      Follows(trail, changes) && View() == trail[|trail| - 1]
    }

    constructor (file: Option<string>)
      ensures Valid() && View() == Dir(file, map[]) && changes == []
    {
      this.file, temps, trail, changes := file, map[], [Dir(file, map[])], [];
    }

    /** What every operation does: one change, entered into the history. */
    twostate predicate Did(c: Change) reads this {
      && Valid() && View() == Changed(old(View()), c)
      && trail == old(trail) + [View()] && changes == old(changes) + [c]
    }

    method CreateTemp(tmp: nat)
      requires Valid()
      modifies this
      ensures Did(Create(tmp))
    {
      temps := temps[tmp := ""];
      trail, changes := trail + [View()], changes + [Create(tmp)];
    }

    method WriteTemp(tmp: nat, part: string)
      requires Valid() && tmp in temps
      modifies this
      ensures Did(Write(tmp, part))
    {
      temps := temps[tmp := temps[tmp] + part];
      trail, changes := trail + [View()], changes + [Write(tmp, part)];
    }

    method RenameTemp(tmp: nat)
      requires Valid() && tmp in temps
      modifies this
      ensures Did(Rename(tmp))
    {
      file, temps := Some(temps[tmp]), temps - {tmp};
      trail, changes := trail + [View()], changes + [Rename(tmp)];
    }

    method DiscardTemp(tmp: nat)
      requires Valid()
      modifies this
      ensures Did(Discard(tmp))
    {
      temps := temps - {tmp};
      trail, changes := trail + [View()], changes + [Discard(tmp)];
    }

    method RemoveFile()
      requires Valid()
      modifies this
      ensures Did(Remove)
    {
      file := None;
      trail, changes := trail + [View()], changes + [Remove];
    }
  }

  /**
   From index `from` on, the file was one of these two at every point, and every change was made for temporary
   file `tmp`.
   */
  predicate OnlySaves(trail: seq<Dir>, changes: seq<Change>, from: nat, tmp: nat, before: Option<string>,
      after: string) {
    && (forall k | from <= k < |trail| :: trail[k].file == before || trail[k].file == Some(after))
    && (forall k | from <= k < |changes| :: !changes[k].Remove? && changes[k].tmp == tmp)
  }

  /** What the file system does in one save. */
  datatype SaveFaults = SaveFaults(create: bool, chmod: bool, write: bool, close: bool, rename: bool, discard: bool)

  /** Nothing fails that the save depends on. */
  predicate NoFault(f: SaveFaults) {
    !f.create && !f.chmod && !f.write && !f.close && !f.rename
  }

  /** What stays of the temporary files: all others, and this one if the save failed and could not remove it. */
  predicate Cleaned(before: map<nat, string>, after: map<nat, string>, tmp: nat, stays: bool) {
    after - {tmp} == before && (tmp in after <==> stays)
  }

  /**
   Saves a registration. At every point of the save, and so wherever a crash may strike, the file is
   either as before or the complete new one. It is replaced exactly when the save succeeds, which is
   when the registration is valid, its encoding in bounds and no operation fails; and a failed save
   leaves no temporary file behind that it can remove.
   */
  method SaveRegistration(dir: RuntimeDirectory, c: Coding, r: Registration, tmp: nat, f: SaveFaults) returns (ok: bool)
    requires dir.Valid() && tmp !in dir.temps
    modifies dir
    ensures dir.Valid() && old(dir.trail) <= dir.trail && old(dir.changes) <= dir.changes
    ensures OnlySaves(dir.trail, dir.changes, |old(dir.changes)|, tmp, old(dir.file), c.encode(r))
    ensures dir.file == if ok then Some(c.encode(r)) else old(dir.file)
    ensures var started := IsValid(r) && |c.encode(r)| <= MAX_ADAPTER_CONFIG && !f.create;
            Cleaned(old(dir.temps), dir.temps, tmp, started && !ok && f.discard)
    ensures ok <==> IsValid(r) && |c.encode(r)| <= MAX_ADAPTER_CONFIG && NoFault(f)
    ensures ok && RoundTrips(c, r) ==> LoadOf(c, dir.file) == Registered(r)
  {
    SavedLoads(c, r);
    hide IsValid, LoadOf, RoundTrips;
    var valid := Valid(r);
    if !valid {
      return false;
    }
    var data := c.encode(r);
    if |data| > MAX_ADAPTER_CONFIG || f.create {
      return false;
    }
    ok := SaveData(dir, tmp, data, f);
  }

  /** The file operations of a save. */
  method SaveData(dir: RuntimeDirectory, tmp: nat, data: string, f: SaveFaults) returns (ok: bool)
    requires dir.Valid() && tmp !in dir.temps && !f.create
    modifies dir
    ensures dir.Valid() && old(dir.trail) <= dir.trail && old(dir.changes) <= dir.changes
    ensures OnlySaves(dir.trail, dir.changes, |old(dir.changes)|, tmp, old(dir.file), data)
    ensures dir.file == if ok then Some(data) else old(dir.file)
    ensures Cleaned(old(dir.temps), dir.temps, tmp, !ok && f.discard)
    ensures ok <==> NoFault(f)
  {
    dir.CreateTemp(tmp);
    var written := false;
    if !f.chmod {
      written := WriteTempFile(dir, tmp, data, f.write);
    }
    ok := written && !f.close && !f.rename;
    if ok {
      dir.RenameTemp(tmp);
    } else if !f.discard {
      dir.DiscardTemp(tmp);
    }
    assert dir.temps - {tmp} == old(dir.temps);
  }

  /** Writes the temporary file in pieces; a failing write may leave any part of the data. */
  method WriteTempFile(dir: RuntimeDirectory, tmp: nat, data: string, fails: bool) returns (ok: bool)
    requires dir.Valid() && tmp in dir.temps && dir.temps[tmp] == ""
    modifies dir
    ensures dir.Valid() && old(dir.trail) <= dir.trail && old(dir.changes) <= dir.changes
    ensures OnlySaves(dir.trail, dir.changes, |old(dir.changes)|, tmp, old(dir.file), data)
    ensures dir.file == old(dir.file) && tmp in dir.temps && dir.temps == old(dir.temps)[tmp := dir.temps[tmp]]
    ensures ok <==> !fails
    ensures ok ==> dir.temps[tmp] == data
  {
    var done: nat := 0;
    while done < |data|
      invariant done <= |data| && tmp in dir.temps && dir.temps[tmp] == data[..done]
      invariant dir.Valid() && old(dir.trail) <= dir.trail && old(dir.changes) <= dir.changes
      invariant OnlySaves(dir.trail, dir.changes, |old(dir.changes)|, tmp, old(dir.file), data)
      invariant dir.file == old(dir.file) && dir.temps == old(dir.temps)[tmp := dir.temps[tmp]]
    {
      var stops: bool :| stops ==> fails;
      if stops {
        return false;
      }
      var n: nat :| 0 < n <= |data| - done;
      assert data[..done] + data[done..done + n] == data[..done + n];
      dir.WriteTemp(tmp, data[done..done + n]);
      done := done + n;
    }
    assert data[..done] == data;
    return !fails;
  }

  /** Loading fails closed on an oversized, malformed or invalid file. */
  method LoadRegistration(dir: RuntimeDirectory, c: Coding) returns (r: Loaded)
    ensures r == LoadOf(c, dir.file)
    ensures r.Registered? ==> IsValid(r.registration)
  {
    if dir.file.None? {
      return Unregistered;
    }
    if |dir.file.value| > MAX_ADAPTER_CONFIG {
      return Broken;
    }
    var decoded := c.decode(dir.file.value);
    if decoded.None? {
      return Broken;
    }
    var valid := Valid(decoded.value);
    return if valid then Registered(decoded.value) else Broken;
  }

  /** Removing an absent registration succeeds; a failed removal leaves the file alone. */
  method RemoveRegistration(dir: RuntimeDirectory, fails: bool) returns (ok: bool)
    requires dir.Valid()
    modifies dir
    ensures dir.Valid() && dir.View() == if ok then Changed(old(dir.View()), Remove) else old(dir.View())
    ensures ok <==> old(dir.file).None? || !fails
  {
    if dir.file.None? {
      return true;
    }
    if fails {
      return false;
    }
    dir.RemoveFile();
    return true;
  }
}
