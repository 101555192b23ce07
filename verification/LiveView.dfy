/**
 The Live View authoring preflight: the canonical field tables, the recursive checker with its shared counter
 and early exits, and what it accepts. A string here is a sequence of Unicode code points.
 */
module LiveView {
  import opened Wrappers
  import opened Json
  import Text

  const MAX_COMPONENTS: nat := 64
  const MAX_DEPTH: nat := 8
  const MAX_DATA_KEYS: nat := 32
  const MAX_TEXT: nat := 400
  const MAX_LABEL: nat := 80
  const MAX_JSON_BYTES: nat := 32768
  const MIN_REVISION: real := 1.0
  const INCREMENT_BOUND: real := 1000.0

  /** The limits, as they are also published. */
  datatype Limits = Limits(
    jsonBytes: nat, components: nat, depth: nat, dataKeys: nat,
    text: nat, labels: nat, children: nat, incrementMin: real, incrementMax: real)

  const LIMITS := Limits(
    MAX_JSON_BYTES, MAX_COMPONENTS, MAX_DEPTH, MAX_DATA_KEYS,
    MAX_TEXT, MAX_LABEL, MAX_COMPONENTS, -INCREMENT_BOUND, INCREMENT_BOUND)

  type Data = map<string, Json>

  // --- Text ---

  /** The UTF-16 code units of a text. */
  function Utf16(s: string): seq<int> {
    if s == "" then []
    else
      var c := s[|s| - 1] as int;
      Utf16(s[..|s| - 1]) + if c > 0xffff then [0xd800 + (c - 0x10000) / 0x400, 0xdc00 + (c - 0x10000) % 0x400] else [c]
  }

  method JavascriptStringLength(s: string) returns (length: nat)
    ensures length == |Utf16(s)|
  {
    length := 0;
    for i := 0 to |s|
      invariant length == |Utf16(s[..i])|
    {
      assert s[..i + 1][..i] == s[..i];
      if s[i] as int > 0xffff {
        length := length + 2;
      } else {
        length := length + 1;
      }
    }
    assert s[..|s|] == s;
  }

  /** Lower case, exact for every character whose lower case is ASCII. */
  function LowerChar(c: char): char {
    if 'A' <= c <= 'Z' then (c as int + 32) as char
    else if c == '\U{130}' then 'i'
    else if c == '\U{212A}' then 'k'
    else c
  }

  function Lower(s: string): string {
    seq(|s|, i requires 0 <= i < |s| => LowerChar(s[i]))
  }

  /** No markup and no link, whatever the case of its scheme. */
  predicate Harmless(s: string) {
    && '<' !in s && '>' !in s
    && !Text.Contains(Lower(s), "javascript:")
    && !Text.Contains(Lower(s), "http://")
    && !Text.Contains(Lower(s), "https://")
    && !Text.Contains(Lower(s), "data:")
  }

  predicate SafeText(s: string, max: nat) {
    0 < |Utf16(s)| <= max && Harmless(s)
  }

  method SafeLiveViewText(s: string, max: nat) returns (ok: bool)
    ensures ok <==> SafeText(s, max)
  {
    var n := JavascriptStringLength(s);
    return 0 < n <= max && Harmless(s);
  }

  predicate IsLetter(c: char) {
    'A' <= c <= 'Z' || 'a' <= c <= 'z'
  }

  /** A letter, then at most 31 letters, digits or underscores. */
  predicate IsDataKey(s: string) {
    && 0 < |s| <= 32 && IsLetter(s[0])
    && forall i | 0 < i < |s| :: IsLetter(s[i]) || Text.IsDigit(s[i]) || s[i] == '_'
  }

  /** A letter or digit, then at most 63 letters, digits or one of . _ : - */
  predicate IsIdentifier(s: string) {
    && 0 < |s| <= 64 && (IsLetter(s[0]) || Text.IsDigit(s[0]))
    && forall i | 0 < i < |s| ::
        IsLetter(s[i]) || Text.IsDigit(s[i]) || s[i] == '.' || s[i] == '_' || s[i] == ':' || s[i] == '-'
  }

  predicate IsScalar(l: Limits, v: Json) {
    v.Bool? || v.Number? || (v.String? && SafeText(v.s, l.text))
  }

  method ValidLiveViewScalar(v: Json) returns (ok: bool)
    ensures ok <==> IsScalar(LIMITS, v)
  {
    match v
    case Bool(_) => return true;
    case Number(_) => return true;
    case String(s) => ok := SafeLiveViewText(s, MAX_TEXT);
    case _ => return false;
  }

  predicate IsInteger(n: real) {
    n == n.Floor as real
  }

  // --- The canonical tables ---

  const COMPONENT_TYPES: seq<string> := ["Text", "Value", "Button", "Input", "Row", "Column", "Card"]

  function ComponentFields(t: string): Option<seq<string>> {
    if t == "Text" then Some(["type", "text"])
    else if t == "Value" then Some(["type", "path"])
    else if t == "Button" then Some(["type", "label", "action"])
    else if t == "Input" then Some(["type", "path", "placeholder"])
    else if IsContainerType(t) then Some(["type", "children"])
    else None
  }

  /** Read only when the contract is rendered: the checker does not look at this table. */
  function ComponentRequiredFields(t: string): seq<string> {
    if t == "Text" then ["type", "text"]
    else if t == "Value" then ["type", "path"]
    else if t == "Button" then ["type", "label", "action"]
    else if t == "Input" then ["type", "path"]
    else if IsContainerType(t) then ["type", "children"]
    else []
  }

  const ACTION_TYPES: seq<string> := ["increment", "set"]

  function ActionFields(t: string): Option<seq<string>> {
    if t == "increment" then Some(["type", "path", "amount"])
    else if t == "set" then Some(["type", "path", "value"])
    else None
  }

  predicate IsContainerType(t: string) {
    t == "Row" || t == "Column" || t == "Card"
  }

  // --- What a tree means ---

  predicate HasType(v: Json) {
    v.Object? && "type" in v.fields && v.fields["type"].String?
  }

  function TypeOf(v: Json): string
    requires HasType(v)
  {
    v.fields["type"].s
  }

  /** A container with children; every other value is a leaf. */
  predicate HasChildren(v: Json) {
    HasType(v) && IsContainerType(TypeOf(v)) && "children" in v.fields && v.fields["children"].Array?
  }

  /** The number of components of a tree. */
  function Nodes(v: Json): nat
    decreases v, 1
  {
    if HasChildren(v) then 1 + NodesOf(v.fields["children"].elements) else 1
  }

  function NodesOf(vs: seq<Json>): nat
    decreases vs, 0
  {
    if vs == [] then 0 else Nodes(vs[0]) + NodesOf(vs[1..])
  }

  /** The number of levels of a tree. */
  function Height(v: Json): nat
    decreases v, 1
  {
    if HasChildren(v) then 1 + HeightOf(v.fields["children"].elements) else 1
  }

  function HeightOf(vs: seq<Json>): nat
    decreases vs, 0
  {
    if vs == [] then 0
    else
      var h, more := Height(vs[0]), HeightOf(vs[1..]);
      if h > more then h else more
  }

  /** A predicate holds of every component of a tree. */
  predicate Everywhere(v: Json, data: Data)
    decreases v
  {
    && NodeOk(v, data)
    && (HasChildren(v) ==> forall c | c in v.fields["children"].elements :: Everywhere(c, data))
  }

  /** The rule of one action field. */
  predicate ActionFieldOk(l: Limits, t: string, field: string, value: Json, action: Data, data: Data) {
    if field == "type" then value == String(t)
    else if field == "path" then
      && value.String? && IsDataKey(value.s)
      && (t == "increment" ==> value.s in data && data[value.s].Number?)
    else if field == "amount" then
      value.Number? && value.n != 0.0 && IsInteger(value.n) && l.incrementMin <= value.n <= l.incrementMax
    else
      IsScalar(l, value)
  }

  /** An action: a supported type, exactly the fields of that type, each by its rule. */
  predicate ActionOk(l: Limits, v: Json, data: Data) {
    && HasType(v) && ActionFields(TypeOf(v)).Some?
    && var fields := ActionFields(TypeOf(v)).value;
    && (forall f | f in v.fields :: f in fields)
    && (forall f | f in fields :: f in v.fields)
    && (forall f | f in v.fields :: ActionFieldOk(l, TypeOf(v), f, v.fields[f], v.fields, data))
  }

  /** The rule of one component field. */
  predicate FieldOk(l: Limits, t: string, field: string, value: Json, data: Data) {
    if field == "type" then value == String(t)
    else if field == "text" then value.String? && SafeText(value.s, l.text)
    else if field == "path" then
      && value.String? && IsDataKey(value.s)
      && (t == "Input" ==> value.s in data && data[value.s].String? && SafeText(data[value.s].s, l.text))
    else if field == "placeholder" || field == "label" then value.String? && SafeText(value.s, l.labels)
    else if field == "action" then ActionOk(l, value, data)
    else value.Array? && 0 < |value.elements| <= l.children
  }

  /** A component on its own: a known type, all required fields, only allowed fields, each by its rule. */
  predicate NodeOk(v: Json, data: Data) {
    && HasType(v) && ComponentFields(TypeOf(v)).Some?
    && (forall f | f in v.fields :: f in ComponentFields(TypeOf(v)).value)
    && (forall f | f in ComponentRequiredFields(TypeOf(v)) :: f in v.fields)
    && (forall f | f in v.fields :: FieldOk(LIMITS, TypeOf(v), f, v.fields[f], data))
  }

  /** A tree under `depth` and after `count` components: well formed everywhere, within both limits. */
  predicate Acceptable(v: Json, depth: nat, count: nat, data: Data) {
    && Everywhere(v, data)
    && depth + Height(v) <= MAX_DEPTH + 1
    && count + Nodes(v) <= MAX_COMPONENTS
  }

  // --- The checker ---

  class Counter {
    var n: nat

    constructor ()
      ensures n == 0
    {
      n := 0;
    }
  }

  /** The key check visits the keys in any order. */
  method LiveViewOnlyKeys(fields: Data, allowed: seq<string>) returns (ok: bool)
    ensures ok <==> forall f | f in fields :: f in allowed
  {
    var left := fields.Keys;
    while left != {}
      invariant left <= fields.Keys
      invariant forall f | f in fields && f !in left :: f in allowed
      decreases left
    {
      var key :| key in left;
      if key !in allowed {
        return false;
      }
      left := left - {key};
    }
    return true;
  }

  method LiveViewPath(fields: Data) returns (path: Option<string>)
    ensures path.Some? <==> HasPath(fields)
    ensures path.Some? ==> path.value == fields["path"].s
  {
    if "path" in fields && fields["path"].String? && IsDataKey(fields["path"].s) {
      return Some(fields["path"].s);
    }
    return None;
  }

  method TextField(fields: Data, key: string, max: nat) returns (ok: bool)
    ensures ok <==> HasText(fields, key, max)
  {
    if key !in fields || !fields[key].String? {
      return false;
    }
    ok := SafeLiveViewText(fields[key].s, max);
  }

  method ValidateAction(v: Json, data: Data) returns (ok: bool)
    ensures ok <==> ActionOk(LIMITS, v, data)
  {
    if !v.Object? || "type" !in v.fields || !v.fields["type"].String? || ActionFields(v.fields["type"].s).None? {
      return false;
    }
    var t := v.fields["type"].s;
    var path := LiveViewPath(v.fields);
    if path.None? {
      return false;
    }
    var only := LiveViewOnlyKeys(v.fields, ActionFields(t).value);
    if !only {
      return false;
    }
    if t == "increment" {
      if "amount" !in v.fields || !v.fields["amount"].Number? {
        return false;
      }
      var amount := v.fields["amount"].n;
      if amount == 0.0 || !IsInteger(amount) || amount < -INCREMENT_BOUND || amount > INCREMENT_BOUND {
        return false;
      }
      return path.value in data && data[path.value].Number?;
    } else {
      if "value" !in v.fields {
        return false;
      }
      ok := ValidLiveViewScalar(v.fields["value"]);
    }
  }

  /** A field that holds text of at most `max` units. */
  predicate HasText(fields: Data, key: string, max: nat) {
    key in fields && fields[key].String? && SafeText(fields[key].s, max)
  }

  /** A field "path" that holds a data key. */
  predicate HasPath(fields: Data) {
    "path" in fields && fields["path"].String? && IsDataKey(fields["path"].s)
  }

  /** The type is known, and no field is beyond those allowed. */
  predicate KeysChecked(v: Json, t: string) {
    && HasType(v) && TypeOf(v) == t && ComponentFields(t).Some?
    && forall f | f in v.fields :: f in ComponentFields(t).value
  }

  lemma TextNodeOk(v: Json, data: Data)
    requires KeysChecked(v, "Text")
    ensures NodeOk(v, data) <==> HasText(v.fields, "text", MAX_TEXT)
  {
    hide SafeText, ActionOk, IsDataKey;
  }

  lemma ValueNodeOk(v: Json, data: Data)
    requires KeysChecked(v, "Value")
    ensures NodeOk(v, data) <==> HasPath(v.fields)
  {
    hide SafeText, ActionOk, IsDataKey;
  }

  lemma InputNodeOk(v: Json, data: Data)
    requires KeysChecked(v, "Input")
    ensures NodeOk(v, data) <==>
            && HasPath(v.fields) && HasText(data, v.fields["path"].s, MAX_TEXT)
            && ("placeholder" in v.fields ==> HasText(v.fields, "placeholder", MAX_LABEL))
  {
    hide SafeText, ActionOk, IsDataKey;
  }

  lemma ButtonNodeOk(v: Json, data: Data)
    requires KeysChecked(v, "Button")
    ensures NodeOk(v, data) <==>
            HasText(v.fields, "label", MAX_LABEL) && "action" in v.fields && ActionOk(LIMITS, v.fields["action"], data)
  {
    hide SafeText, ActionOk, IsDataKey;
  }

  /** The per-type rules of a component whose keys have been checked. */
  method ValidateLeaf(v: Json, data: Data) returns (ok: bool)
    requires HasType(v) && !IsContainerType(TypeOf(v)) && KeysChecked(v, TypeOf(v))
    ensures ok <==> NodeOk(v, data)
  {
    hide NodeOk, SafeText, IsDataKey;
    var t := TypeOf(v);
    if t == "Text" {
      TextNodeOk(v, data);
      ok := TextField(v.fields, "text", MAX_TEXT);
    } else if t == "Value" {
      ValueNodeOk(v, data);
      var path := LiveViewPath(v.fields);
      ok := path.Some?;
    } else if t == "Input" {
      InputNodeOk(v, data);
      var path := LiveViewPath(v.fields);
      if path.None? {
        return false;
      }
      var bound := TextField(data, path.value, MAX_TEXT);
      if !bound {
        return false;
      }
      if "placeholder" in v.fields {
        ok := TextField(v.fields, "placeholder", MAX_LABEL);
      } else {
        ok := true;
      }
    } else {
      ButtonNodeOk(v, data);
      var labelled := TextField(v.fields, "label", MAX_LABEL);
      if !labelled {
        return false;
      }
      if "action" !in v.fields || !v.fields["action"].Object? {
        return false;
      }
      ok := ValidateAction(v.fields["action"], data);
    }
  }

  /** Siblings are checked one after the other, each counting on from the one before. */
  predicate AcceptableInTurn(vs: seq<Json>, depth: nat, count: nat, data: Data)
    decreases |vs|
  {
    vs == [] || (Acceptable(vs[0], depth, count, data) && AcceptableInTurn(vs[1..], depth, count + Nodes(vs[0]), data))
  }

  /** Checking siblings in turn amounts to checking all of them against the limits of the whole. */
  lemma {:induction false} InTurnIsTogether(vs: seq<Json>, depth: nat, count: nat, data: Data)
    requires vs != []
    ensures AcceptableInTurn(vs, depth, count, data) <==>
            && (forall v | v in vs :: Everywhere(v, data))
            && depth + HeightOf(vs) <= MAX_DEPTH + 1
            && count + NodesOf(vs) <= MAX_COMPONENTS
    decreases |vs|
  {
    hide Everywhere, Nodes, Height;
    assert (forall v | v in vs :: Everywhere(v, data)) <==>
           Everywhere(vs[0], data) && forall v | v in vs[1..] :: Everywhere(v, data) by {
      assert forall v | v in vs :: v == vs[0] || v in vs[1..];
      assert vs[0] in vs && forall v | v in vs[1..] :: v in vs;
    }
    if |vs| == 1 {
      assert vs[1..] == [];
    } else {
      InTurnIsTogether(vs[1..], depth, count + Nodes(vs[0]), data);
    }
  }

  /** A container is acceptable exactly when it is well formed itself and its children are, in turn, one level down. */
  lemma ContainerAcceptable(v: Json, depth: nat, count: nat, data: Data)
    requires HasChildren(v) && v.fields["children"].elements != []
    ensures Acceptable(v, depth, count, data) <==>
            NodeOk(v, data) && AcceptableInTurn(v.fields["children"].elements, depth + 1, count + 1, data)
  {
    hide NodeOk;
    InTurnIsTogether(v.fields["children"].elements, depth + 1, count + 1, data);
  }

  /** The key and child-count checks are all there is to a container itself. */
  lemma ContainerNodeOk(v: Json, data: Data)
    requires HasType(v) && IsContainerType(TypeOf(v))
    requires forall f | f in v.fields :: f in ComponentFields(TypeOf(v)).value
    ensures NodeOk(v, data) <==> HasChildren(v) && 0 < |v.fields["children"].elements| <= MAX_COMPONENTS
  {
  }

  /**
   The recursive checker, with its shared counter and its early exits, accepts a component exactly when
   its tree is acceptable; it then has counted the components of the tree.
   */
  method ValidateComponent(v: Json, depth: nat, count: Counter, data: Data) returns (ok: bool)
    modifies count
    ensures ok <==> Acceptable(v, depth, old(count.n), data)
    ensures ok ==> count.n == old(count.n) + Nodes(v)
    decreases MAX_DEPTH + 1 - depth
  {
    hide NodeOk, Everywhere, Height, IsContainerType, ComponentFields;
    AcceptableNeeds(v, depth, count.n, data);
    if depth > MAX_DEPTH {
      return false;
    }
    if !v.Object? {
      return false;
    }
    count.n := count.n + 1;
    if count.n > MAX_COMPONENTS {
      return false;
    }
    if "type" !in v.fields || !v.fields["type"].String? {
      return false;
    }
    var t := v.fields["type"].s;
    var fields := ComponentFields(t);
    if fields.None? {
      return false;
    }
    var only := LiveViewOnlyKeys(v.fields, fields.value);
    if !only {
      return false;
    }
    if !IsContainerType(t) {
      ok := ValidateLeaf(v, data);
      LeafAcceptable(v, data);
      return;
    }
    ContainerNodeOk(v, data);
    if "children" !in v.fields || !v.fields["children"].Array? {
      return false;
    }
    var children := v.fields["children"].elements;
    if |children| == 0 || |children| > MAX_COMPONENTS {
      return false;
    }
    ContainerAcceptable(v, depth, old(count.n), data);
    for i := 0 to |children|
      invariant AcceptableInTurn(children, depth + 1, old(count.n) + 1, data) <==>
          AcceptableInTurn(children[i..], depth + 1, count.n, data)
      invariant count.n + NodesOf(children[i..]) == old(count.n) + Nodes(v)
    {
      assert children[i..][0] == children[i] && children[i..][1..] == children[i + 1..];
      var fine := ValidateComponent(children[i], depth + 1, count, data);
      if !fine {
        return false;
      }
    }
    assert children[|children|..] == [];
    return true;
  }

  /** What an acceptable tree has at its root, before any rule of its type. */
  lemma AcceptableNeeds(v: Json, depth: nat, count: nat, data: Data)
    ensures Acceptable(v, depth, count, data) ==>
              && depth <= MAX_DEPTH && count < MAX_COMPONENTS && NodeOk(v, data)
    ensures NodeOk(v, data) ==>
              && HasType(v) && ComponentFields(TypeOf(v)).Some?
              && forall f | f in v.fields :: f in ComponentFields(TypeOf(v)).value
  {
  }

  lemma LeafAcceptable(v: Json, data: Data)
    requires !HasChildren(v)
    ensures Everywhere(v, data) == NodeOk(v, data) && Nodes(v) == 1 && Height(v) == 1
  {
  }

  // --- The whole document ---

  const SNAPSHOT_REQUIRED: seq<string> := ["surfaceId", "revision", "root", "data"]
  const SNAPSHOT_OPTIONAL: seq<string> := ["taskRequestId", "authorityAgentId"]

  /**
   Converting to a 64-bit integer and back is exact for integers in range; `wide` is what the platform makes
   of others.
   */
  predicate RevisionOk(min: real, n: real, wide: real -> bool) {
    n >= min && if n < 9223372036854775808.0 then IsInteger(n) else wide(n)
  }

  predicate DataOk(l: Limits, data: Data) {
    |data| <= l.dataKeys && forall k | k in data :: IsDataKey(k) && IsScalar(l, data[k])
  }

  predicate IsIdentifierText(v: Json) {
    v.String? && IsIdentifier(v.s)
  }

  /** The fields of a snapshot around its root and data. */
  predicate HeaderOk(fields: Data, wide: real -> bool) {
    && (forall k | k in fields :: k in SNAPSHOT_REQUIRED + SNAPSHOT_OPTIONAL)
    && "surfaceId" in fields && IsIdentifierText(fields["surfaceId"])
    && "revision" in fields && fields["revision"].Number? && RevisionOk(MIN_REVISION, fields["revision"].n, wide)
    && (forall k | k in SNAPSHOT_OPTIONAL && k in fields :: IsIdentifierText(fields[k]))
  }

  /** An acceptable document: the snapshot fields, flat data, and a root component acceptable at depth 1. */
  predicate DocumentOk(v: Json, wide: real -> bool) {
    && v.Object? && HeaderOk(v.fields, wide)
    && "data" in v.fields && v.fields["data"].Object? && DataOk(LIMITS, v.fields["data"].fields)
    && "root" in v.fields && Acceptable(v.fields["root"], 1, 0, v.fields["data"].fields)
  }

  method ValidateData(data: Data) returns (ok: bool)
    ensures ok <==> DataOk(LIMITS, data)
  {
    if |data| > MAX_DATA_KEYS {
      return false;
    }
    var left := data.Keys;
    while left != {}
      invariant left <= data.Keys
      invariant forall k | k in data && k !in left :: IsDataKey(k) && IsScalar(LIMITS, data[k])
      decreases left
    {
      var key :| key in left;
      var scalar := ValidLiveViewScalar(data[key]);
      if !IsDataKey(key) || !scalar {
        return false;
      }
      left := left - {key};
    }
    return true;
  }

  method IdentifierField(fields: Data, key: string, required: bool) returns (ok: bool)
    ensures ok <==> if key in fields then IsIdentifierText(fields[key]) else !required
  {
    if key !in fields {
      return !required;
    }
    return IsIdentifierText(fields[key]);
  }

  method ValidateHeader(fields: Data, wide: real -> bool) returns (ok: bool)
    ensures ok <==> HeaderOk(fields, wide)
  {
    hide IsIdentifierText, RevisionOk;
    SnapshotKeys();
    var only := LiveViewOnlyKeys(fields,
        ["surfaceId", "revision", "root", "data", "taskRequestId", "authorityAgentId"]);
    if !only {
      return false;
    }
    var surface := IdentifierField(fields, "surfaceId", true);
    if !surface {
      return false;
    }
    if "revision" !in fields || !fields["revision"].Number? || !RevisionOk(MIN_REVISION, fields["revision"].n, wide) {
      return false;
    }
    var task := IdentifierField(fields, "taskRequestId", false);
    if !task {
      return false;
    }
    ok := IdentifierField(fields, "authorityAgentId", false);
  }

  /**
   The preflight accepts exactly the acceptable documents of at most 32 KiB; `doc` is none when the bytes are
   not one JSON value.
   */
  method ValidateTaskLiveView(size: nat, doc: Option<Json>, wide: real -> bool) returns (ok: bool)
    ensures ok <==> size <= MAX_JSON_BYTES && doc.Some? && DocumentOk(doc.value, wide)
  {
    if size > MAX_JSON_BYTES || doc.None? {
      return false;
    }
    hide Acceptable, DataOk;
    if !doc.value.Object? || |doc.value.fields| == 0 {
      return false;
    }
    hide HeaderOk;
    var fields := doc.value.fields;
    var header := ValidateHeader(fields, wide);
    if !header || "data" !in fields || !fields["data"].Object? {
      return false;
    }
    var data := fields["data"].fields;
    var dataOk := ValidateData(data);
    if !dataOk || "root" !in fields {
      return false;
    }
    var count := new Counter();
    ok := ValidateComponent(fields["root"], 1, count, data);
  }

  lemma SnapshotKeys()
    ensures SNAPSHOT_REQUIRED + SNAPSHOT_OPTIONAL ==
            ["surfaceId", "revision", "root", "data", "taskRequestId", "authorityAgentId"]
    ensures forall k :: k in SNAPSHOT_REQUIRED <==> k == "surfaceId" || k == "revision" || k == "root" || k == "data"
    ensures forall k :: k in SNAPSHOT_OPTIONAL <==> k == "taskRequestId" || k == "authorityAgentId"
  {
  }
}
