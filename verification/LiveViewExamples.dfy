/**
 The Live View rules once more, type by type and in plain values, without the field tables; and the examples
 that the contract publishes, which the preflight accepts.
 */
module LiveViewExamples {
  import opened Wrappers
  import opened Json
  import opened LiveView
  import Text

  // --- Text ---

  /** Text of the basic plane has as many units as characters; others take two units each. */
  lemma {:induction false} UnitsOfText(s: string)
    ensures |s| <= |Utf16(s)| <= 2 * |s|
    ensures (forall c | c in s :: c as int <= 0xffff) ==> |Utf16(s)| == |s|
    ensures (forall c | c in s :: c as int > 0xffff) ==> |Utf16(s)| == 2 * |s|
  {
    if s != "" {
      var init := s[..|s| - 1];
      UnitsOfText(init);
      assert forall c | c in init :: c in s;
      assert s[|s| - 1] in s;
    }
  }

  lemma LowerJoins(a: string, b: string)
    ensures Lower(a + b) == Lower(a) + Lower(b)
  {
  }

  /** A link or a script scheme anywhere, in any case, makes text unsafe; and so does markup. */
  lemma LinkIsUnsafe(a: string, link: string, b: string, max: nat)
    requires Lower(link) in {"javascript:", "http://", "https://", "data:"}
    ensures !SafeText(a + link + b, max)
  {
    LowerJoins(a + link, b);
    LowerJoins(a, link);
    Text.ContainsMiddle(Lower(a), Lower(link), Lower(b));
  }

  lemma SchemesInCapitals()
    ensures Lower("JavaScript:") == "javascript:" && Lower("HTTP://") == "http://"
    ensures Lower("Https://") == "https://" && Lower("DATA:") == "data:"
  {
  }

  lemma MarkupIsUnsafe(s: string, max: nat)
    requires '<' in s || '>' in s
    ensures !SafeText(s, max)
  {
  }

  /** Text without markup and colons is safe within its length. */
  lemma PlainIsSafe(s: string, max: nat)
    requires 1 <= |Utf16(s)| <= max && '<' !in s && '>' !in s && ':' !in s
    ensures SafeText(s, max)
  {
    ColonIn(s, "javascript:", 10);
    ColonIn(s, "http://", 4);
    ColonIn(s, "https://", 5);
    ColonIn(s, "data:", 4);
  }

  lemma ColonIn(s: string, part: string, at: nat)
    requires at < |part| && part[at] == ':'
    ensures Text.Contains(Lower(s), part) ==> ':' in s
  {
    if Text.Contains(Lower(s), part) {
      var i :| 0 <= i <= |s| && Text.HasPrefix(Lower(s)[i..], part);
      assert Lower(s)[i..][..|part|][at] == ':';
      assert LowerChar(s[i + at]) == ':';
      assert s[i + at] == ':';
    }
  }

  // --- Keys ---

  predicate IsLetterListed(c: char) {
    c in Text.UPPER || c in Text.LOWER
  }

  lemma LetterIff(c: char)
    ensures IsLetter(c) <==> IsLetterListed(c)
    ensures Text.IsDigit(c) <==> c in Text.DECIMALS
  {
    Text.AlphabetsAreConsecutive();
    hide Text.UPPER, Text.LOWER, Text.DECIMALS;
    Text.ConsecutiveIff(Text.UPPER, c);
    Text.ConsecutiveIff(Text.LOWER, c);
    Text.ConsecutiveIff(Text.DECIMALS, c);
  }

  /** A data key is 1 to 32 letters, digits and underscores, a letter first. */
  lemma DataKeyIff(s: string)
    ensures IsDataKey(s) <==>
            && 1 <= |s| <= 32 && IsLetterListed(s[0])
            && forall i | 0 < i < |s| :: IsLetterListed(s[i]) || s[i] in Text.DECIMALS || s[i] == '_'
  {
    hide IsLetter, IsLetterListed, Text.IsDigit, Text.DECIMALS;
    forall i | 0 <= i < |s|
      ensures IsLetter(s[i]) <==> IsLetterListed(s[i])
      ensures Text.IsDigit(s[i]) <==> s[i] in Text.DECIMALS
    {
      LetterIff(s[i]);
    }
  }

  /** An identifier is 1 to 64 letters, digits and marks, no mark first. */
  lemma IdentifierIff(s: string)
    ensures IsIdentifier(s) <==>
            && 1 <= |s| <= 64 && (IsLetterListed(s[0]) || s[0] in Text.DECIMALS)
            && forall i | 0 < i < |s| :: IsLetterListed(s[i]) || s[i] in Text.DECIMALS || s[i] in "._:-"
  {
    hide IsLetter, IsLetterListed, Text.IsDigit, Text.DECIMALS;
    forall i | 0 <= i < |s|
      ensures IsLetter(s[i]) <==> IsLetterListed(s[i])
      ensures Text.IsDigit(s[i]) <==> s[i] in Text.DECIMALS
    {
      LetterIff(s[i]);
    }
  }

  // --- Components, type by type ---

  /** An object of this type. */
  predicate Is(v: Json, t: string) {
    v.Object? && "type" in v.fields && v.fields["type"] == String(t)
  }

  /** A field that holds text of at most `max` units. */
  predicate TextIn(fields: Data, key: string, max: nat) {
    key in fields && fields[key].String? && SafeText(fields[key].s, max)
  }

  predicate KeyIn(fields: Data, key: string) {
    key in fields && fields[key].String? && IsDataKey(fields[key].s)
  }

  lemma TextIff(v: Json, data: Data)
    requires Is(v, "Text")
    ensures NodeOk(v, data) <==> v.fields.Keys == {"type", "text"} && TextIn(v.fields, "text", 400)
  {
    hide SafeText, ActionOk, IsDataKey;
  }

  lemma ValueIff(v: Json, data: Data)
    requires Is(v, "Value")
    ensures NodeOk(v, data) <==> v.fields.Keys == {"type", "path"} && KeyIn(v.fields, "path")
  {
    hide SafeText, ActionOk, IsDataKey;
  }

  lemma InputIff(v: Json, data: Data)
    requires Is(v, "Input")
    ensures NodeOk(v, data) <==>
            && {"type", "path"} <= v.fields.Keys <= {"type", "path", "placeholder"}
            && KeyIn(v.fields, "path") && TextIn(data, v.fields["path"].s, 400)
            && ("placeholder" in v.fields ==> TextIn(v.fields, "placeholder", 80))
  {
    hide SafeText, ActionOk, IsDataKey;
  }

  lemma ButtonIff(v: Json, data: Data)
    requires Is(v, "Button")
    ensures NodeOk(v, data) <==>
            && v.fields.Keys == {"type", "label", "action"}
            && TextIn(v.fields, "label", 80) && ActionOk(LIMITS, v.fields["action"], data)
  {
    hide SafeText, ActionOk, IsDataKey;
  }

  lemma ContainerIff(v: Json, t: string, data: Data)
    requires t in {"Row", "Column", "Card"} && Is(v, t)
    ensures NodeOk(v, data) <==>
            && v.fields.Keys == {"type", "children"}
            && v.fields["children"].Array? && 1 <= |v.fields["children"].elements| <= 64
  {
    hide SafeText, ActionOk, IsDataKey;
  }

  lemma NoOtherIsOk(v: Json, data: Data)
    ensures NodeOk(v, data) ==>
            || Is(v, "Text") || Is(v, "Value") || Is(v, "Input") || Is(v, "Button")
            || Is(v, "Row") || Is(v, "Column") || Is(v, "Card")
  {
    hide FieldOk;
  }

  lemma IncrementIff(v: Json, data: Data)
    requires Is(v, "increment")
    ensures ActionOk(LIMITS, v, data) <==>
            && v.fields.Keys == {"type", "path", "amount"}
            && KeyIn(v.fields, "path") && v.fields["path"].s in data && data[v.fields["path"].s].Number?
            && v.fields["amount"].Number? && v.fields["amount"].n != 0.0
            && IsInteger(v.fields["amount"].n) && -1000.0 <= v.fields["amount"].n <= 1000.0
  {
    hide SafeText, IsDataKey, IsInteger;
  }

  lemma SetIff(v: Json, data: Data)
    requires Is(v, "set")
    ensures ActionOk(LIMITS, v, data) <==>
            && v.fields.Keys == {"type", "path", "value"} && KeyIn(v.fields, "path")
            && match v.fields["value"]
               case Bool(_) => true
               case Number(_) => true
               case String(s) => SafeText(s, 400)
               case _ => false
  {
    hide SafeText, IsDataKey;
  }

  lemma NoOtherActionIsOk(v: Json, data: Data)
    ensures ActionOk(LIMITS, v, data) ==> Is(v, "increment") || Is(v, "set")
  {
    hide ActionFieldOk;
  }

  // --- Trees, in plain numbers ---

  /** A component that is no container is acceptable where it is well formed, at depth 8 and as the 64th at most. */
  lemma LeafIff(v: Json, depth: nat, count: nat, data: Data)
    requires !HasChildren(v)
    ensures Acceptable(v, depth, count, data) <==> NodeOk(v, data) && depth <= 8 && count + 1 <= 64
  {
    hide NodeOk;
  }

  /** A container is acceptable with its 1 to 64 children, in turn, one level below. */
  lemma TreeIff(t: string, children: seq<Json>, depth: nat, count: nat, data: Data)
    requires t in {"Row", "Column", "Card"} && 1 <= |children| <= 64
    ensures var v := Object(map["type" := String(t), "children" := Array(children)]);
            Acceptable(v, depth, count, data) <==> AcceptableInTurn(children, depth + 1, count + 1, data)
  {
    var v := Object(map["type" := String(t), "children" := Array(children)]);
    assert v.fields.Keys == {"type", "children"};
    ContainerIff(v, t, data);
    ContainerAcceptable(v, depth, count, data);
  }

  /** Whole numbers from 1 on are revisions, within 64 bits; fractions and what is below 1 are not. */
  lemma RevisionTable(i: int, f: real, wide: real -> bool)
    requires i < 9223372036854775808 && 0.0 < f < 1.0
    ensures RevisionOk(MIN_REVISION, i as real, wide) <==> i >= 1
    ensures i < 9223372036854775807 ==> !RevisionOk(MIN_REVISION, i as real + f, wide)
  {
    assert (i as real).Floor == i && (i as real + f).Floor == i;
  }

  /** Data is at most 32 keys with scalar values. */
  lemma DataIff(data: Data)
    ensures DataOk(LIMITS, data) <==>
            && |data| <= 32
            && forall k | k in data ::
                 IsDataKey(k) && match data[k]
                                 case Bool(_) => true
                                 case Number(_) => true
                                 case String(s) => SafeText(s, 400)
                                 case _ => false
  {
    hide IsDataKey, SafeText;
  }

  // --- The published examples ---

  function ValueOf(path: string): Json {
    Object(map["type" := String("Value"), "path" := String(path)])
  }

  function TextOf(text: string): Json {
    Object(map["type" := String("Text"), "text" := String(text)])
  }

  function InputOf(path: string, placeholder: string): Json {
    Object(map["type" := String("Input"), "path" := String(path), "placeholder" := String(placeholder)])
  }

  function ButtonOf(caption: string, action: Json): Json {
    Object(map["type" := String("Button"), "label" := String(caption), "action" := action])
  }

  function IncrementOf(path: string, amount: real): Json {
    Object(map["type" := String("increment"), "path" := String(path), "amount" := Number(amount)])
  }

  function SetOf(path: string, value: Json): Json {
    Object(map["type" := String("set"), "path" := String(path), "value" := value])
  }

  function Container(t: string, children: seq<Json>): Json {
    Object(map["type" := String(t), "children" := Array(children)])
  }

  function Snapshot(surface: string, root: Json, data: Data): Json {
    Object(map["surfaceId" := String(surface), "revision" := Number(1.0), "root" := root, "data" := Object(data)])
  }

  lemma ValueAccepted(path: string, data: Data)
    requires IsDataKey(path)
    ensures NodeOk(ValueOf(path), data) && !HasChildren(ValueOf(path))
  {
    hide IsDataKey, NodeOk;
    ValueIff(ValueOf(path), data);
  }

  lemma TextAccepted(text: string, data: Data)
    requires SafeText(text, 400)
    ensures NodeOk(TextOf(text), data) && !HasChildren(TextOf(text))
  {
    hide SafeText, NodeOk;
    TextIff(TextOf(text), data);
  }

  lemma InputAccepted(path: string, placeholder: string, data: Data)
    requires IsDataKey(path) && TextIn(data, path, 400) && SafeText(placeholder, 80)
    ensures NodeOk(InputOf(path, placeholder), data) && !HasChildren(InputOf(path, placeholder))
  {
    hide SafeText, IsDataKey, NodeOk;
    InputIff(InputOf(path, placeholder), data);
  }

  lemma IncrementAccepted(caption: string, path: string, amount: real, data: Data)
    requires SafeText(caption, 80) && IsDataKey(path) && path in data && data[path].Number?
    requires amount != 0.0 && IsInteger(amount) && -1000.0 <= amount <= 1000.0
    ensures var v := ButtonOf(caption, IncrementOf(path, amount)); NodeOk(v, data) && !HasChildren(v)
  {
    hide SafeText, IsDataKey, NodeOk, ActionOk, IsInteger;
    IncrementIff(IncrementOf(path, amount), data);
    ButtonIff(ButtonOf(caption, IncrementOf(path, amount)), data);
  }

  lemma SetAccepted(caption: string, path: string, value: Json, data: Data)
    requires SafeText(caption, 80) && IsDataKey(path)
    requires value.Bool? || value.Number? || (value.String? && SafeText(value.s, 400))
    ensures var v := ButtonOf(caption, SetOf(path, value)); NodeOk(v, data) && !HasChildren(v)
  {
    hide SafeText, IsDataKey, NodeOk, ActionOk;
    SetIff(SetOf(path, value), data);
    ButtonIff(ButtonOf(caption, SetOf(path, value)), data);
  }

  lemma SnapshotAccepted(surface: string, root: Json, data: Data, wide: real -> bool)
    requires IsIdentifier(surface) && DataOk(LIMITS, data) && Acceptable(root, 1, 0, data)
    ensures DocumentOk(Snapshot(surface, root, data), wide)
  {
    hide IsIdentifier, DataOk, Acceptable;
    SnapshotKeys();
  }

  lemma PlainText(s: string, max: nat)
    requires 1 <= |s| <= max && forall c | c in s :: ' ' <= c <= '~' && c != '<' && c != '>' && c != ':'
    ensures SafeText(s, max)
  {
    UnitsOfText(s);
    PlainIsSafe(s, max);
  }

  lemma OneInTurn(v: Json, more: seq<Json>, depth: nat, count: nat, data: Data)
    ensures AcceptableInTurn([v] + more, depth, count, data) <==>
            Acceptable(v, depth, count, data) && AcceptableInTurn(more, depth, count + Nodes(v), data)
  {
    hide Acceptable, Nodes;
    var vs := [v] + more;
    assert vs[0] == v && vs[1..] == more;
  }

  lemma PairInTurn(a: Json, b: Json, depth: nat, count: nat, data: Data)
    requires Acceptable(a, depth, count, data) && Acceptable(b, depth, count + Nodes(a), data)
    ensures AcceptableInTurn([a, b], depth, count, data)
  {
    hide Acceptable, Nodes;
    OneInTurn(a, [b], depth, count, data);
    OneInTurn(b, [], depth, count + Nodes(a), data);
    assert [a] + [b] == [a, b] && [b] + [] == [b];
  }

  lemma ThreeInTurn(a: Json, b: Json, c: Json, depth: nat, count: nat, data: Data)
    requires Acceptable(a, depth, count, data) && Acceptable(b, depth, count + Nodes(a), data)
    requires Acceptable(c, depth, count + Nodes(a) + Nodes(b), data)
    ensures AcceptableInTurn([a, b, c], depth, count, data)
  {
    hide Acceptable, Nodes;
    OneInTurn(a, [b, c], depth, count, data);
    PairInTurn(b, c, depth, count + Nodes(a), data);
    assert [a] + [b, c] == [a, b, c];
  }

  /** A well-formed leaf, wherever there is room. */
  lemma LeafAccepted(v: Json, depth: nat, count: nat, data: Data)
    requires NodeOk(v, data) && !HasChildren(v) && depth <= 8 && count + 1 <= 64
    ensures Acceptable(v, depth, count, data) && Nodes(v) == 1
  {
    LeafIff(v, depth, count, data);
  }

  const COUNTER_DATA: Data := map["count" := Number(0.0)]
  const COUNTER_ROOT := Container("Card", [ValueOf("count"), ButtonOf("+1", IncrementOf("count", 1.0))])

  lemma CounterWords()
    ensures IsDataKey("count") && IsIdentifier("counter") && SafeText("+1", 80) && IsInteger(1.0)
    ensures DataOk(LIMITS, COUNTER_DATA) && "count" in COUNTER_DATA && COUNTER_DATA["count"].Number?
  {
    PlainText("+1", 80);
    hide SafeText;
  }

  /** The counter example of the contract is accepted. */
  lemma CounterAccepted(wide: real -> bool)
    ensures DocumentOk(Snapshot("counter", COUNTER_ROOT, COUNTER_DATA), wide)
  {
    CounterWords();
    hide NodeOk, SafeText, DataOk, IsIdentifier, IsDataKey, IsInteger, Acceptable, AcceptableInTurn, HasChildren, Nodes,
        COUNTER_DATA, DocumentOk;
    var data := COUNTER_DATA;
    var value, button := ValueOf("count"), ButtonOf("+1", IncrementOf("count", 1.0));
    ValueAccepted("count", data);
    IncrementAccepted("+1", "count", 1.0, data);
    hide ValueOf, ButtonOf, IncrementOf, Snapshot;
    LeafAccepted(value, 2, 1, data);
    LeafAccepted(button, 2, 2, data);
    PairInTurn(value, button, 2, 1, data);
    TreeIff("Card", [value, button], 1, 0, data);
    SnapshotAccepted("counter", COUNTER_ROOT, data, wide);
  }

  const BOARD_DATA: Data := map["note" := String("todo"), "votes" := Number(0.0), "reviewed" := Bool(false)]

  const APPROVE := ButtonOf("Approve", IncrementOf("votes", 1.0))
  const RESET := ButtonOf("Reset note", SetOf("note", String("todo")))
  const BOARD_ROW := Container("Row", [ValueOf("votes"), APPROVE, RESET])
  const BOARD_ROOT := Container("Column", [TextOf("Review status"), InputOf("note", "Short note"), BOARD_ROW])

  lemma BoardWords()
    ensures SafeText("Review status", 400) && SafeText("Short note", 80) && SafeText("Approve", 80)
    ensures SafeText("Reset note", 80) && SafeText("todo", 400)
  {
    PlainText("Review status", 400);
    PlainText("Short note", 80);
    hide SafeText;
    MoreBoardWords();
  }

  lemma MoreBoardWords()
    ensures SafeText("Approve", 80) && SafeText("Reset note", 80) && SafeText("todo", 400)
  {
    PlainText("Approve", 80);
    PlainText("Reset note", 80);
    PlainText("todo", 400);
  }

  lemma BoardKeys()
    ensures IsDataKey("note") && IsDataKey("votes") && IsDataKey("reviewed") && IsIdentifier("task-board")
  {
  }

  lemma BoardDataOk()
    ensures DataOk(LIMITS, BOARD_DATA) && TextIn(BOARD_DATA, "note", 400)
    ensures "votes" in BOARD_DATA && BOARD_DATA["votes"].Number? && IsInteger(1.0)
  {
    BoardWords();
    BoardKeys();
    hide SafeText, IsDataKey;
  }

  lemma BoardRowAccepted()
    ensures Acceptable(BOARD_ROW, 2, 3, BOARD_DATA)
  {
    BoardWords();
    BoardKeys();
    BoardDataOk();
    hide NodeOk, SafeText, DataOk, IsIdentifier, IsDataKey, IsInteger, Acceptable, AcceptableInTurn, HasChildren, Nodes,
        BOARD_DATA, TextIn;
    var data, value := BOARD_DATA, ValueOf("votes");
    ValueAccepted("votes", data);
    IncrementAccepted("Approve", "votes", 1.0, data);
    SetAccepted("Reset note", "note", String("todo"), data);
    hide ValueOf, ButtonOf, IncrementOf, SetOf;
    LeafAccepted(value, 3, 4, data);
    LeafAccepted(APPROVE, 3, 5, data);
    LeafAccepted(RESET, 3, 6, data);
    ThreeInTurn(value, APPROVE, RESET, 3, 4, data);
    TreeIff("Row", [value, APPROVE, RESET], 2, 3, data);
  }

  /** The board example of the contract is accepted, its Input with a placeholder included. */
  lemma BoardAccepted(wide: real -> bool)
    ensures DocumentOk(Snapshot("task-board", BOARD_ROOT, BOARD_DATA), wide)
  {
    BoardWords();
    BoardKeys();
    BoardDataOk();
    BoardRowAccepted();
    hide NodeOk, SafeText, DataOk, IsIdentifier, IsDataKey, IsInteger, Acceptable, AcceptableInTurn, HasChildren, Nodes,
        BOARD_DATA, TextIn, BOARD_ROW, DocumentOk;
    var data, text, input := BOARD_DATA, TextOf("Review status"), InputOf("note", "Short note");
    TextAccepted("Review status", data);
    InputAccepted("note", "Short note", data);
    hide TextOf, InputOf, Snapshot;
    LeafAccepted(text, 2, 1, data);
    LeafAccepted(input, 2, 2, data);
    ThreeInTurn(text, input, BOARD_ROW, 2, 1, data);
    TreeIff("Column", [text, input, BOARD_ROW], 1, 0, data);
    SnapshotAccepted("task-board", BOARD_ROOT, data, wide);
  }
}
