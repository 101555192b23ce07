/**
 The bounded daemon log: an active file and one previous generation. Appending rotates a full active
 file first; every file operation may fail silently. Reading returns the last lines of both files.
 */
module HostLog {
  import opened Wrappers
  import Text

  const MAX_LOG_BYTES: nat := 1048576
  const DEFAULT_TAIL: nat := 200

  function TrimNewlines(s: string): (t: string)
    ensures |t| <= |s|
  {
    if s != "" && s[|s| - 1] == '\n' then TrimNewlines(s[..|s| - 1]) else s
  }

  /** What one append adds to the file. */
  function Record(line: string): (r: string)
    ensures r != "" && r[|r| - 1] == '\n'
  {
    TrimNewlines(line) + "\n"
  }

  function Concat(records: seq<string>): string {
    if records == [] then "" else Concat(records[..|records| - 1]) + records[|records| - 1]
  }

  lemma {:induction false} ConcatSplits(a: seq<string>, b: seq<string>)
    ensures Concat(a + b) == Concat(a) + Concat(b)
  {
    if b == [] {
      assert a + b == a;
    } else {
      var init := b[..|b| - 1];
      assert (a + b)[..|a + b| - 1] == a + init;
      ConcatSplits(a, init);
      assert Concat(a + b) == Concat(a + init) + b[|b| - 1];
    }
  }

  function TextOf(file: Option<string>): string {
    if file.Some? then file.value else ""
  }

  /**
   The two files, and the history they are judged by: what each append wrote, and where in that history
   the old and the active file start.
   */
  datatype Log = Log(previous: Option<string>, active: Option<string>, records: seq<string>, first: nat, split: nat)

  /**
   What the file system does in one append. The rotation of a full file fails with its size check or with its
   rename; a write that fails may take any number of the bytes.
   */
  datatype Faults = Faults(mkdirFails: bool, rotationFails: bool, openFails: bool, taken: Option<nat>)

  /** The part of a record that is written. */
  function Chunk(line: string, f: Faults): (c: string)
    ensures |c| <= |Record(line)|
  {
    if f.taken.Some? && f.taken.value < |Record(line)| then Record(line)[..f.taken.value] else Record(line)
  }

  const NO_LOG := Log(None, None, [], 0, 0)

  predicate Full(file: Option<string>) {
    file.Some? && |file.value| >= MAX_LOG_BYTES
  }

  function Rotated(l: Log): Log {
    l.(previous := l.active, active := None, first := l.split, split := |l.records|)
  }

  function Written(l: Log, chunk: string): Log {
    l.(active := Some(TextOf(l.active) + chunk), records := l.records + [chunk])
  }

  function Appended(l: Log, line: string, f: Faults): Log {
    if f.mkdirFails then l
    else
      var m := if Full(l.active) && !f.rotationFails then Rotated(l) else l;
      if f.openFails then m else Written(m, Chunk(line, f))
  }

  /** The old file followed by the active one. */
  function Retained(l: Log): string {
    TextOf(l.previous) + TextOf(l.active)
  }

  predicate IsWhole(chunk: string) {
    chunk != "" && chunk[|chunk| - 1] == '\n'
  }

  predicate AllRecords(records: seq<string>) {
    forall i | 0 <= i < |records| :: IsWhole(records[i])
  }

  /**
   The files are what was written from `first` on, cut at `split`; what was dropped was dropped for a full old
   file.
   */
  predicate Inv(l: Log) {
    && l.first <= l.split <= |l.records|
    && TextOf(l.previous) == Concat(l.records[l.first..l.split])
    && TextOf(l.active) == Concat(l.records[l.split..])
    && (l.first > 0 ==> |TextOf(l.previous)| >= MAX_LOG_BYTES)
  }

  lemma RotateKeepsInv(l: Log)
    requires Inv(l) && Full(l.active)
    ensures Inv(Rotated(l))
  {
    assert l.records[l.split..|l.records|] == l.records[l.split..];
    assert l.records[|l.records|..] == [];
  }

  lemma WriteKeepsInv(l: Log, chunk: string)
    requires Inv(l)
    ensures Inv(Written(l, chunk))
  {
    var n := l.records + [chunk];
    assert n[l.first..l.split] == l.records[l.first..l.split];
    var tail := n[l.split..];
    assert tail[..|tail| - 1] == l.records[l.split..];
  }

  lemma AppendKeepsInv(l: Log, line: string, f: Faults)
    requires Inv(l)
    ensures Inv(Appended(l, line, f))
  {
    hide Inv;
    var m := if Full(l.active) && !f.rotationFails then Rotated(l) else l;
    if Full(l.active) && !f.rotationFails {
      RotateKeepsInv(l);
    }
    WriteKeepsInv(m, Chunk(line, f));
  }

  datatype Event = Append(line: string, faults: Faults)

  function Run(l: Log, events: seq<Event>): Log
    decreases |events|
  {
    if events == [] then l else Run(Appended(l, events[0].line, events[0].faults), events[1..])
  }

  lemma {:induction false} RunKeepsInv(l: Log, events: seq<Event>)
    requires Inv(l)
    ensures Inv(Run(l, events))
    decreases |events|
  {
    if events != [] {
      AppendKeepsInv(l, events[0].line, events[0].faults);
      RunKeepsInv(Appended(l, events[0].line, events[0].faults), events[1..]);
    }
  }

  function Min(a: nat, b: nat): nat {
    if a < b then a else b
  }

  lemma RetainedIsSuffix(l: Log)
    requires Inv(l)
    ensures Retained(l) == Concat(l.records[l.first..])
    ensures Concat(l.records) == Concat(l.records[..l.first]) + Retained(l)
  {
    assert l.records[l.first..] == l.records[l.first..l.split] + l.records[l.split..];
    ConcatSplits(l.records[l.first..l.split], l.records[l.split..]);
    assert l.records == l.records[..l.first] + l.records[l.first..];
    ConcatSplits(l.records[..l.first], l.records[l.first..]);
  }

  /** No write of the run was cut short. */
  predicate NoCut(events: seq<Event>) {
    forall i | 0 <= i < |events| :: events[i].faults.taken.None?
  }

  lemma {:induction false} RunKeepsRecords(l: Log, events: seq<Event>)
    requires AllRecords(l.records) && NoCut(events)
    ensures AllRecords(Run(l, events).records)
    decreases |events|
  {
    if events != [] {
      assert events[0].faults.taken.None?;
      RunKeepsRecords(Appended(l, events[0].line, events[0].faults), events[1..]);
    }
  }

  /**
   After any appends, with any failures, the two files together are a suffix of all that was ever written,
   cut between two writes, and hold at least its last MiB. Unless a write was cut short, they are whole records.
   */
  lemma LogRetention(events: seq<Event>)
    ensures var l := Run(NO_LOG, events);
            && l.first <= |l.records|
            && Retained(l) == Concat(l.records[l.first..])
            && Concat(l.records) == Concat(l.records[..l.first]) + Retained(l)
            && |Retained(l)| >= Min(|Concat(l.records)|, MAX_LOG_BYTES)
            && (NoCut(events) ==> AllRecords(l.records))
  {
    RunKeepsInv(NO_LOG, events);
    RetainedIsSuffix(Run(NO_LOG, events));
    EnoughIsRetained(Run(NO_LOG, events));
    if NoCut(events) {
      RunKeepsRecords(NO_LOG, events);
    }
  }

  lemma EnoughIsRetained(l: Log)
    requires Inv(l)
    ensures |Retained(l)| >= Min(|Concat(l.records)|, MAX_LOG_BYTES)
  {
    RetainedIsSuffix(l);
    assert l.first == 0 ==> l.records[..l.first] == [];
  }

  // --- Size ---

  /** Each file is smaller than the limit plus the longest record. */
  predicate Bounded(l: Log, longest: nat) {
    |TextOf(l.previous)| < MAX_LOG_BYTES + longest && |TextOf(l.active)| < MAX_LOG_BYTES + longest
  }

  predicate Short(e: Event, longest: nat) {
    |Record(e.line)| <= longest
  }

  /** An append to a full file that a failed rotation leaves in place, long enough to break the bound. */
  predicate Overruns(l: Log, e: Event, longest: nat) {
    var f := e.faults;
    && Full(l.active) && f.rotationFails && !f.mkdirFails && !f.openFails
    && |TextOf(l.active)| + |Chunk(e.line, f)| >= MAX_LOG_BYTES + longest
  }

  lemma StepStaysBoundedIff(l: Log, e: Event, longest: nat)
    requires Bounded(l, longest) && Short(e, longest)
    ensures Bounded(Appended(l, e.line, e.faults), longest) <==> !Overruns(l, e, longest)
  {
    hide Record;
  }

  lemma {:induction false} RunLast(l: Log, events: seq<Event>, e: Event)
    ensures Run(l, events + [e]) == Appended(Run(l, events), e.line, e.faults)
    decreases |events|
  {
    hide Appended;
    if events == [] {
      assert events + [e] == [e];
      assert Run(l, [e]) == Run(Appended(l, e.line, e.faults), [e][1..]);
    } else {
      assert (events + [e])[1..] == events[1..] + [e];
      RunLast(Appended(l, events[0].line, events[0].faults), events[1..], e);
    }
  }

  /** Neither file is ever too large in the course of a run. */
  predicate AlwaysBounded(l: Log, events: seq<Event>, longest: nat) {
    forall k | 0 <= k <= |events| :: Bounded(Run(l, events[..k]), longest)
  }

  predicate NeverOverruns(l: Log, events: seq<Event>, longest: nat) {
    forall k | 0 <= k < |events| :: !Overruns(Run(l, events[..k]), events[k], longest)
  }

  /**
   Exactly when the size bound holds throughout a run: no append of it overruns, that is, writes past the
   bound into a full file whose rotation has failed.
   */
  lemma {:induction false} LogStaysBoundedIff(l: Log, events: seq<Event>, longest: nat)
    requires Bounded(l, longest) && forall i | 0 <= i < |events| :: Short(events[i], longest)
    ensures AlwaysBounded(l, events, longest) <==> NeverOverruns(l, events, longest)
    decreases |events|
  {
    hide Appended, Overruns, Bounded, Short;
    if events == [] {
      assert events[..0] == events;
    } else {
      var n := |events| - 1;
      var before, e := events[..n], events[n];
      assert before + [e] == events;
      assert forall k | 0 <= k <= n :: events[..k] == before[..k];
      assert events[..n + 1] == events;
      LogStaysBoundedIff(l, before, longest);
      RunLast(l, before, e);
      assert before[..n] == before;
      if Bounded(Run(l, before), longest) {
        StepStaysBoundedIff(Run(l, before), e, longest);
      }
    }
  }

  /** As long as rotations succeed, both files stay bounded, whatever else fails. */
  lemma LogStaysBounded(l: Log, events: seq<Event>, longest: nat)
    requires Bounded(l, longest)
    requires forall i | 0 <= i < |events| :: Short(events[i], longest) && !events[i].faults.rotationFails
    ensures AlwaysBounded(l, events, longest)
  {
    LogStaysBoundedIff(l, events, longest);
  }

  const ROTATION_FAILS := Faults(false, true, false, None)

  lemma GrowsByRecord(l: Log, line: string)
    requires Full(l.active)
    ensures var u := Appended(l, line, ROTATION_FAILS);
            Full(u.active) && |TextOf(u.active)| == |TextOf(l.active)| + |Record(line)|
  {
    hide Record;
  }

  /** A failing rotation is all it takes to lose the bound: the full file goes on growing by every record. */
  lemma {:induction false} FailedRotationsUnboundLog(l: Log, line: string, n: nat)
    requires Full(l.active)
    ensures var u := Run(l, seq(n, i => Append(line, ROTATION_FAILS)));
            Full(u.active) && |TextOf(u.active)| == |TextOf(l.active)| + n * |Record(line)|
    decreases n
  {
    hide Appended, Record, Full;
    var events := seq(n, i => Append(line, ROTATION_FAILS));
    if n > 0 {
      assert events[1..] == seq(n - 1, i => Append(line, ROTATION_FAILS));
      GrowsByRecord(l, line);
      FailedRotationsUnboundLog(Appended(l, line, ROTATION_FAILS), line, n - 1);
    }
  }

  // --- Reading ---

  /** The pieces between line feeds. */
  function Lines(s: string): seq<string>
    decreases |s|
  {
    var k := Text.IndexOf(s, '\n');
    if k == |s| then [s] else [s[..k]] + Lines(s[k + 1..])
  }

  predicate Blank(line: string) {
    Text.TrimSpace(line) == ""
  }

  function Filter(lines: seq<string>, keep: string -> bool): seq<string> {
    if lines == [] then []
    else Filter(lines[..|lines| - 1], keep) + if keep(lines[|lines| - 1]) then [lines[|lines| - 1]] else []
  }

  lemma {:induction false} FilterSplits(a: seq<string>, b: seq<string>, keep: string -> bool)
    ensures Filter(a + b, keep) == Filter(a, keep) + Filter(b, keep)
  {
    if b == [] {
      assert a + b == a;
    } else {
      assert (a + b)[..|a + b| - 1] == a + b[..|b| - 1];
      FilterSplits(a, b[..|b| - 1], keep);
    }
  }

  const NOT_BLANK: string -> bool := line => !Blank(line)

  function Containing(part: string): string -> bool {
    line => Text.Contains(line, part)
  }

  /** The lines of a text that are not blank. */
  function Visible(s: string): seq<string> {
    Filter(Lines(s), NOT_BLANK)
  }

  /** `s` is `a`, a line feed, and `b`. */
  predicate Parted(s: string, a: string, b: string) {
    |s| == |a| + 1 + |b| && s[..|a|] == a && s[|a|] == '\n' && s[|a| + 1..] == b
  }

  /** Text that ends in a line feed only adds its lines in front. */
  lemma {:induction false} LinesSplit(s: string, a: string, b: string)
    requires Parted(s, a, b)
    ensures Lines(s) == Lines(a) + Lines(b)
    decreases |a|
  {
    hide Lines, Parted, Text.IndexOf;
    var k := Text.IndexOf(a, '\n');
    NothingLeft(s, a, b);
    FirstIndex(s, a, b, k);
    SameStart(s, a, b, k);
    LinesStep(s);
    LinesStep(a);
    if k < |a| {
      PartedLater(s, a, b, k + 1);
      LinesSplit(s[k + 1..], a[k + 1..], b);
    }
  }

  lemma FirstIndex(s: string, a: string, b: string, k: nat)
    requires Parted(s, a, b) && k == Text.IndexOf(a, '\n')
    ensures Text.IndexOf(s, '\n') == k
  {
    forall i | 0 <= i < k
      ensures s[i] != '\n'
    {
      assert s[i] == s[..|a|][i];
    }
    if k < |a| {
      assert s[k] == s[..|a|][k];
    }
    IndexOfUnique(s, k);
  }

  lemma SameStart(s: string, a: string, b: string, k: nat)
    requires Parted(s, a, b) && k <= |a|
    ensures s[..k] == a[..k]
  {
    assert s[..k] == s[..|a|][..k];
  }

  lemma NothingLeft(s: string, a: string, b: string)
    requires Parted(s, a, b)
    ensures |a| < |s| && s[|a| + 1..] == b && a[..|a|] == a
  {
  }

  lemma PartedLater(s: string, a: string, b: string, k: nat)
    requires Parted(s, a, b) && k <= |a|
    ensures Parted(s[k..], a[k..], b)
  {
    assert s[k..][..|a| - k] == s[..|a|][k..];
    assert s[k..][|a| - k + 1..] == s[|a| + 1..];
  }

  lemma LinesStep(s: string)
    ensures var k := Text.IndexOf(s, '\n');
            Lines(s) == if k == |s| then [s] else [s[..k]] + Lines(s[k + 1..])
  {
    hide Filter, Blank, Visible, Record, TrimNewlines, Chunk, Concat, Text.TrimSpace, Text.TrimLeft, Text.TrimRight,
        Text.IndexOf;
  }

  lemma IndexOfUnique(s: string, k: nat)
    requires k < |s| && s[k] == '\n' && forall i | 0 <= i < k :: s[i] != '\n'
    ensures Text.IndexOf(s, '\n') == k
  {
  }

  lemma EmptyIsBlank()
    ensures Visible("") == []
  {
    assert Blank("");
    assert Lines("") == [""];
    assert Filter([""], NOT_BLANK) == Filter([""][..0], NOT_BLANK) + [];
  }

  /**
   The visible lines of two texts, the first ending in a line feed, are those of the first and then those of
   the second.
   */
  lemma VisibleSplits(a: string, b: string)
    requires a != "" ==> a[|a| - 1] == '\n'
    ensures Visible(a + b) == Visible(a) + Visible(b)
  {
    EmptyIsBlank();
    hide Lines, Filter, Blank;
    if a == "" {
      assert a + b == b;
    } else {
      var c := a[..|a| - 1];
      LinesSplit(a + b, c, b);
      LinesSplit(a, c, "");
      FilterSplits(Lines(c), Lines(b), NOT_BLANK);
      FilterSplits(Lines(c), Lines(""), NOT_BLANK);
    }
  }

  /** Trailing line feeds show no lines. */
  lemma {:induction false} TrimNewlinesVisible(s: string)
    ensures Visible(TrimNewlines(s)) == Visible(s)
    decreases |s|
  {
    if s != "" && s[|s| - 1] == '\n' {
      var c := s[..|s| - 1];
      LinesSplit(s, c, "");
      FilterSplits(Lines(c), Lines(""), NOT_BLANK);
      EmptyIsBlank();
      TrimNewlinesVisible(c);
    }
  }

  method SplitLogLines(data: string) returns (out: seq<string>)
    ensures out == Visible(data)
  {
    var parts := Lines(TrimNewlines(data));
    out := [];
    for i := 0 to |parts|
      invariant out == Filter(parts[..i], NOT_BLANK)
    {
      assert parts[..i + 1][..i] == parts[..i];
      if Text.TrimSpace(parts[i]) != "" {
        out := out + [parts[i]];
      }
    }
    assert parts[..|parts|] == parts;
    TrimNewlinesVisible(data);
  }

  function Last(lines: seq<string>, n: nat): seq<string> {
    if |lines| > n then lines[|lines| - n..] else lines
  }

  /** The last `n` lines that contain `part`. */
  function TailOf(lines: seq<string>, n: nat, part: string): seq<string> {
    Last(Filter(lines, Containing(part)), n)
  }

  lemma {:induction false} FilterOfLast(lines: seq<string>, n: nat, keep: string -> bool)
    ensures var after, before := Filter(Last(lines, n), keep), Last(Filter(lines, keep), n);
            |after| <= |before| && after == before[|before| - |after|..]
  {
    var dropped := lines[..|lines| - |Last(lines, n)|];
    assert lines == dropped + Last(lines, n);
    FilterSplits(dropped, Last(lines, n), keep);
    FilterShrinks(Last(lines, n), keep);
  }

  /** An empty filter keeps every line. */
  lemma {:induction false} EmptyFilterKeepsAll(lines: seq<string>)
    ensures Filter(lines, Containing("")) == lines
  {
    if lines != [] {
      var last := lines[|lines| - 1];
      assert Text.HasPrefix(last[0..], "");
      EmptyFilterKeepsAll(lines[..|lines| - 1]);
    }
  }

  /** The visible lines of the old and then the active file. */
  function VisibleLines(l: Log): seq<string> {
    Visible(TextOf(l.previous)) + Visible(TextOf(l.active))
  }

  /** What reading the tail of a log yields. */
  function TailLines(l: Log, n: int, filter: string): seq<string> {
    TailOf(VisibleLines(l), if n <= 0 then DEFAULT_TAIL else n, filter)
  }

  /**
   The two log views agree: for the same log, the tagged lines of an unfiltered tail, which the logs command
   shows, are a suffix of the tail filtered by the tag, which diagnostics show.
   */
  lemma LogViewsAgree(l: Log, n: int, tag: string)
    ensures var logs, diagnostics := Filter(TailLines(l, n, ""), Containing(tag)), TailLines(l, n, tag);
            |logs| <= |diagnostics| && logs == diagnostics[|diagnostics| - |logs|..]
  {
    hide Visible;
    EmptyFilterKeepsAll(VisibleLines(l));
    FilterOfLast(VisibleLines(l), if n <= 0 then DEFAULT_TAIL else n, Containing(tag));
  }

  lemma {:induction false} FilterShrinks(lines: seq<string>, keep: string -> bool)
    ensures |Filter(lines, keep)| <= |lines|
  {
    if lines != [] {
      FilterShrinks(lines[..|lines| - 1], keep);
    }
  }

  // --- What an append does to the text, and to the tail ---

  const NO_FAULTS := Faults(false, false, false, None)

  /** Trailing line feeds of a line are dropped, and one is written. */
  lemma RecordText(line: string)
    ensures line == "" || line[|line| - 1] != '\n' ==> Record(line) == line + "\n"
    ensures Record(line + "\n") == Record(line)
  {
    assert (line + "\n")[..|line|] == line;
  }

  /** An append without faults adds the line and a line feed to the file, or starts a new file once it has 1 MiB. */
  lemma AppendWrites(l: Log, line: string)
    requires line == "" || line[|line| - 1] != '\n'
    ensures var u := Appended(l, line, NO_FAULTS);
            if l.active.Some? && |l.active.value| >= 1048576 then
              u.active == Some(line + "\n") && u.previous == l.active
            else
              u.active == Some(TextOf(l.active) + line + "\n") && u.previous == l.previous
  {
    RecordText(line);
    assert "" + (line + "\n") == line + "\n";
    assert TextOf(l.active) + (line + "\n") == TextOf(l.active) + line + "\n";
  }

  lemma FilterOne(line: string, keep: string -> bool)
    ensures Filter([line], keep) == if keep(line) then [line] else []
  {
    assert [line][..0] == [];
    assert Filter([], keep) == [];
  }

  /** A single line is one line, and its line feed starts an empty one. */
  lemma LinesOfOne(line: string)
    requires '\n' !in line
    ensures Lines(line + "\n") == [line, ""]
  {
    LinesSplit(line + "\n", line, "");
    LinesStep(line);
    LinesStep("");
    assert Text.IndexOf(line, '\n') == |line| && Text.IndexOf("", '\n') == 0;
    hide Lines;
    assert [line] + [""] == [line, ""];
  }

  /** A line with a graphic character is seen, and one of nothing but space is not. */
  lemma OneLineIsSeen(line: string)
    requires '\n' !in line
    ensures Text.HasGraph(line) ==> Visible(line + "\n") == [line]
    ensures Text.TrimSpace(line) == "" ==> Visible(line + "\n") == []
  {
    if Text.HasGraph(line) {
      Text.GraphIsNotBlank(line);
    }
    Text.SpaceIsBlank();
    assert NOT_BLANK(line) <==> Text.TrimSpace(line) != "";
    assert !NOT_BLANK("");
    hide Lines, Filter, Blank, Text.HasGraph, Text.TrimSpace;
    LinesOfOne(line);
    assert [line, ""] == [line] + [""];
    FilterSplits([line], [""], NOT_BLANK);
    FilterOne(line, NOT_BLANK);
    FilterOne("", NOT_BLANK);
  }

  /** The text ends with a line feed, or is empty. */
  predicate EndsLine(text: string) {
    text == "" || text[|text| - 1] == '\n'
  }

  lemma VisibleGrows(text: string, line: string)
    requires '\n' !in line && Text.HasGraph(line) && EndsLine(text)
    ensures Visible(text + line + "\n") == Visible(text) + [line]
  {
    OneLineIsSeen(line);
    VisibleSplits(text, line + "\n");
    hide Visible;
    assert text + line + "\n" == text + (line + "\n");
  }

  /** An appended line is the last that is seen, after those of the file that it goes to and of the one before. */
  lemma AppendIsSeen(l: Log, line: string)
    requires '\n' !in line && Text.HasGraph(line) && EndsLine(TextOf(l.active))
    ensures VisibleLines(Appended(l, line, NO_FAULTS)) ==
            (if Full(l.active) then Visible(TextOf(l.active)) else VisibleLines(l)) + [line]
  {
    assert line != "" ==> line[|line| - 1] in line;
    AppendWrites(l, line);
    hide *;
    NewFileIsSeen(l, Appended(l, line, NO_FAULTS), line);
    SameFileIsSeen(l, Appended(l, line, NO_FAULTS), line);
    FullIff(l);
  }

  lemma FullIff(l: Log)
    ensures Full(l.active) <==> l.active.Some? && |l.active.value| >= 1048576
  {
  }

  lemma NewFileIsSeen(l: Log, u: Log, line: string)
    requires '\n' !in line && Text.HasGraph(line)
    ensures u.active == Some(line + "\n") && u.previous == l.active ==>
            VisibleLines(u) == Visible(TextOf(l.active)) + [line]
  {
    hide Visible;
    OneLineIsSeen(line);
  }

  lemma SameFileIsSeen(l: Log, u: Log, line: string)
    requires '\n' !in line && Text.HasGraph(line) && EndsLine(TextOf(l.active))
    ensures u.active == Some(TextOf(l.active) + line + "\n") && u.previous == l.previous ==>
            VisibleLines(u) == VisibleLines(l) + [line]
  {
    hide Visible;
    VisibleGrows(TextOf(l.active), line);
  }

  /** So it is what the tail of length one shows. */
  lemma AppendIsTailed(l: Log, line: string)
    requires '\n' !in line && Text.HasGraph(line) && EndsLine(TextOf(l.active))
    ensures TailLines(Appended(l, line, NO_FAULTS), 1, "") == [line]
  {
    AppendIsSeen(l, line);
    var u := Appended(l, line, NO_FAULTS);
    hide Visible, Appended, VisibleLines, Text.HasGraph, Full;
    EmptyFilterKeepsAll(VisibleLines(u));
    LastOne(VisibleLines(u), line);
  }

  lemma LastOne(lines: seq<string>, line: string)
    ensures lines != [] && lines[|lines| - 1] == line ==> Last(lines, 1) == [line]
  {
  }

  /** A filter keeps exactly the lines it accepts. */
  lemma {:induction false} FilterIff(lines: seq<string>, keep: string -> bool, line: string)
    ensures line in Filter(lines, keep) <==> line in lines && keep(line)
  {
    if lines != [] {
      FilterIff(lines[..|lines| - 1], keep, line);
      assert lines == lines[..|lines| - 1] + [lines[|lines| - 1]];
    }
  }

  /** The unfiltered tail is the last n lines seen, or all of them, or the last 200 where no number is given. */
  lemma TailIsLast(l: Log, n: nat)
    ensures 0 < n <= |VisibleLines(l)| ==> TailLines(l, n, "") == VisibleLines(l)[|VisibleLines(l)| - n..]
    ensures n > |VisibleLines(l)| ==> TailLines(l, n, "") == VisibleLines(l)
    ensures TailLines(l, 0, "") == TailLines(l, 200, "")
  {
    hide Visible;
    EmptyFilterKeepsAll(VisibleLines(l));
    if n == |VisibleLines(l)| {
      assert VisibleLines(l)[0..] == VisibleLines(l);
    }
  }

  class BoundedLog {
    var previous: Option<string>
    var active: Option<string>
    ghost var records: seq<string>
    ghost var first: nat
    ghost var split: nat

    ghost function View(): Log reads this {
      Log(previous, active, records, first, split)
    }

    ghost predicate Valid() reads this {
      Inv(View())
    }

    constructor ()
      ensures Valid() && View() == NO_LOG
    {
      previous, active, records, first, split := None, None, [], 0, 0;
    }

    /** `faults` is what the file system does in this call. */
    method Append(line: string, faults: Faults)
      requires Valid()
      modifies this
      ensures Valid() && View() == Appended(old(View()), line, faults)
    {
      hide Inv, TrimNewlines;
      AppendKeepsInv(View(), line, faults);
      if faults.mkdirFails {
        return;
      }
      if active.Some? && |active.value| >= MAX_LOG_BYTES {
        if !faults.rotationFails {
          previous, active := active, None;
          first, split := split, |records|;
        }
      }
      if faults.openFails {
        return;
      }
      var record := TrimNewlines(line) + "\n";
      var chunk := if faults.taken.Some? && faults.taken.value < |record| then record[..faults.taken.value] else record;
      active := Some((if active.Some? then active.value else "") + chunk);
      records := records + [chunk];
    }

    /**
     Reading the tail returns the last lines, of the old and then the active file, that contain the filter.
     */
    method Tail(n: int, filter: string) returns (lines: seq<string>)
      requires Valid()
      ensures lines == TailLines(View(), n, filter)
    {
      hide *;
      var count: nat := if n <= 0 then 200 else n;
      var all := ReadLines();
      var filtered := LinesContaining(all, filter);
      lines := if |filtered| > count then filtered[|filtered| - count..] else filtered;
      TailLinesAre(View(), n, filter, filtered);
    }

    /** The lines of the old and then the active file, as far as they are there. */
    method ReadLines() returns (all: seq<string>)
      ensures all == VisibleLines(View())
    {
      EmptyIsBlank();
      hide Visible;
      all := [];
      if previous.Some? {
        all := SplitLogLines(previous.value);
      }
      if active.Some? {
        var more := SplitLogLines(active.value);
        all := all + more;
      }
    }
  }

  lemma TailLinesAre(l: Log, n: int, filter: string, filtered: seq<string>)
    requires filtered == Filter(VisibleLines(l), Containing(filter))
    ensures var count: nat := if n <= 0 then 200 else n;
            TailLines(l, n, filter) == if |filtered| > count then filtered[|filtered| - count..] else filtered
  {
    hide VisibleLines, Filter;
  }

  /** The filter loop; an empty filter keeps every line. */
  method LinesContaining(all: seq<string>, filter: string) returns (lines: seq<string>)
    ensures lines == Filter(all, Containing(filter))
  {
    lines := [];
    for i := 0 to |all|
      invariant lines == Filter(all[..i], Containing(filter))
    {
      assert all[..i + 1][..i] == all[..i];
      assert filter == "" ==> Text.HasPrefix(all[i][0..], filter);
      if filter == "" || Text.Contains(all[i], filter) {
        lines := lines + [all[i]];
      }
    }
    assert all[..|all|] == all;
  }

  /** Unless a record was cut short, the lines of the two files are those of the retained text. */
  lemma VisibleRetained(l: Log)
    requires Inv(l) && AllRecords(l.records)
    ensures Visible(Retained(l)) == VisibleLines(l)
  {
    OldEndsInNewline(l);
    VisibleSplits(TextOf(l.previous), TextOf(l.active));
  }

  lemma OldEndsInNewline(l: Log)
    requires Inv(l) && AllRecords(l.records)
    ensures var s := TextOf(l.previous); s != "" ==> s[|s| - 1] == '\n'
  {
    var part := l.records[l.first..l.split];
    if part != [] {
      assert part[|part| - 1] == l.records[l.split - 1];
    }
  }
}
