/** The machine-readable authoring contract, and what it has to do with what the preflight enforces. */
module LiveViewDescriptor {
  import opened Wrappers
  import opened Json
  import opened LiveView

  datatype TypeRule = TypeRule(type_: string, required: seq<string>, optional: seq<string>)

  datatype Descriptor = Descriptor(
    snapshot: TypeRule,
    revisionMin: real,
    limits: Limits,
    components: seq<TypeRule>,
    actions: seq<TypeRule>)

  /** The allowed fields that are not required, in their order. */
  function Minus(allowed: seq<string>, required: seq<string>): (r: seq<string>)
    ensures forall f :: f in r <==> f in allowed && f !in required
  {
    if allowed == [] then []
    else
      var last := allowed[|allowed| - 1];
      assert forall f | f in allowed :: f == last || f in allowed[..|allowed| - 1];
      Minus(allowed[..|allowed| - 1], required) + if last in required then [] else [last]
  }

  method LiveViewOptionalFields(required: seq<string>, allowed: seq<string>) returns (optional: seq<string>)
    ensures optional == Minus(allowed, required)
  {
    optional := [];
    for i := 0 to |allowed|
      invariant optional == Minus(allowed[..i], required)
    {
      assert allowed[..i + 1][..i] == allowed[..i];
      var present := false;
      for j := 0 to |required|
        invariant !present && forall k | 0 <= k < j :: required[k] != allowed[i]
      {
        if allowed[i] == required[j] {
          present := true;
          break;
        }
      }
      if !present {
        optional := optional + [allowed[i]];
      }
    }
    assert allowed[..|allowed|] == allowed;
  }

  function Allowed(t: string): seq<string> {
    if ComponentFields(t).Some? then ComponentFields(t).value else []
  }

  function ComponentRule(t: string): TypeRule {
    TypeRule(t, ComponentRequiredFields(t), Minus(Allowed(t), ComponentRequiredFields(t)))
  }

  function ActionRule(t: string): TypeRule {
    TypeRule(t, if ActionFields(t).Some? then ActionFields(t).value else [], [])
  }

  function Rules(types: seq<string>, rule: string -> TypeRule): seq<TypeRule> {
    seq(|types|, i requires 0 <= i < |types| => rule(types[i]))
  }

  lemma RulesGrow(types: seq<string>, i: nat, rule: string -> TypeRule)
    requires i < |types|
    ensures Rules(types[..i + 1], rule) == Rules(types[..i], rule) + [rule(types[i])]
  {
  }

  const CONTRACT := Descriptor(
    TypeRule("", SNAPSHOT_REQUIRED, SNAPSHOT_OPTIONAL),
    MIN_REVISION,
    LIMITS,
    Rules(COMPONENT_TYPES, ComponentRule),
    Rules(ACTION_TYPES, ActionRule))

  /** The contract is rendered from the tables in two loops. */
  method DescribeTaskLiveView() returns (d: Descriptor)
    ensures d == CONTRACT
  {
    var components := [];
    for i := 0 to |COMPONENT_TYPES|
      invariant components == Rules(COMPONENT_TYPES[..i], ComponentRule)
    {
      RulesGrow(COMPONENT_TYPES, i, ComponentRule);
      var t := COMPONENT_TYPES[i];
      var optional := LiveViewOptionalFields(ComponentRequiredFields(t), Allowed(t));
      components := components + [TypeRule(t, ComponentRequiredFields(t), optional)];
    }
    var actions := [];
    for i := 0 to |ACTION_TYPES|
      invariant actions == Rules(ACTION_TYPES[..i], ActionRule)
    {
      RulesGrow(ACTION_TYPES, i, ActionRule);
      var t := ACTION_TYPES[i];
      var fields := ActionFields(t);
      actions := actions + [TypeRule(t, if fields.Some? then fields.value else [], [])];
    }
    assert COMPONENT_TYPES[..|COMPONENT_TYPES|] == COMPONENT_TYPES && ACTION_TYPES[..|ACTION_TYPES|] == ACTION_TYPES;
    d := Descriptor(
      TypeRule("", SNAPSHOT_REQUIRED, SNAPSHOT_OPTIONAL),
      MIN_REVISION,
      LIMITS,
      components,
      actions);
  }

  // --- Reading the contract ---

  /** An object has every required field of a rule and none beyond its required and optional ones. */
  predicate FollowsFields(r: TypeRule, fields: Data) {
    && (forall f | f in r.required :: f in fields)
    && (forall f | f in fields :: f in r.required || f in r.optional)
  }

  /** Some rule of the list is for this object's type, and the object follows it. */
  predicate FollowsSome(rules: seq<TypeRule>, v: Json) {
    HasType(v) && exists i | 0 <= i < |rules| :: rules[i].type_ == TypeOf(v) && FollowsFields(rules[i], v.fields)
  }

  predicate ActionFollows(d: Descriptor, v: Json, data: Data) {
    FollowsSome(d.actions, v) && forall f | f in v.fields ::
        ActionFieldOk(d.limits, TypeOf(v), f, v.fields[f], v.fields, data)
  }

  /** A component by the contract: its type's rule for the fields, and for each field the rule of its values. */
  predicate NodeFollows(d: Descriptor, v: Json, data: Data) {
    && FollowsSome(d.components, v)
    && forall f | f in v.fields ::
         if f == "action" then ActionFollows(d, v.fields[f], data)
         else FieldOk(d.limits, TypeOf(v), f, v.fields[f], data)
  }

  predicate FollowsEverywhere(d: Descriptor, v: Json, data: Data)
    decreases v
  {
    && NodeFollows(d, v, data)
    && (HasChildren(v) ==> forall c | c in v.fields["children"].elements :: FollowsEverywhere(d, c, data))
  }

  /** A root component by the contract alone: every component by its rule, within the published limits. */
  predicate Follows(d: Descriptor, root: Json, data: Data) {
    FollowsEverywhere(d, root, data) && Height(root) <= d.limits.depth && Nodes(root) <= d.limits.components
  }

  // --- Fidelity ---

  /** The published component types are those the field table knows, each with its own rule. */
  lemma ComponentRuleFor(v: Json)
    requires HasType(v)
    ensures FollowsSome(CONTRACT.components, v) <==>
            ComponentFields(TypeOf(v)).Some? && FollowsFields(ComponentRule(TypeOf(v)), v.fields)
  {
    hide FollowsFields, Minus, ComponentRequiredFields;
    var t := TypeOf(v);
    if ComponentFields(t).Some? && FollowsFields(ComponentRule(t), v.fields) {
      var i := if t == "Text" then 0 else if t == "Value" then 1 else if t == "Button" then 2
          else if t == "Input" then 3
               else if t == "Row" then 4 else if t == "Column" then 5 else 6;
      assert COMPONENT_TYPES[i] == t;
      assert CONTRACT.components[i] == ComponentRule(t);
    }
    if FollowsSome(CONTRACT.components, v) {
      var i :| 0 <= i < |CONTRACT.components| && CONTRACT.components[i].type_ == t
          && FollowsFields(CONTRACT.components[i], v.fields);
      assert CONTRACT.components[i] == ComponentRule(COMPONENT_TYPES[i]);
    }
  }

  lemma ActionRuleFor(v: Json)
    requires HasType(v)
    ensures FollowsSome(CONTRACT.actions, v) <==>
        ActionFields(TypeOf(v)).Some? && FollowsFields(ActionRule(TypeOf(v)), v.fields)
  {
    hide FollowsFields;
    var t := TypeOf(v);
    if ActionFields(t).Some? && FollowsFields(ActionRule(t), v.fields) {
      var i := if t == "increment" then 0 else 1;
      assert ACTION_TYPES[i] == t;
      assert CONTRACT.actions[i] == ActionRule(t);
    }
    if FollowsSome(CONTRACT.actions, v) {
      var i :| 0 <= i < |CONTRACT.actions| && CONTRACT.actions[i].type_ == t
          && FollowsFields(CONTRACT.actions[i], v.fields);
      assert CONTRACT.actions[i] == ActionRule(ACTION_TYPES[i]);
    }
  }

  lemma ActionFidelity(v: Json, data: Data)
    ensures ActionFollows(CONTRACT, v, data) <==> ActionOk(LIMITS, v, data)
  {
    hide ActionFieldOk;
    if HasType(v) {
      ActionRuleFor(v);
    }
  }

  /** Required fields are allowed, so required plus optional is all that is allowed. */
  lemma RuleCoversTable(t: string)
    requires ComponentFields(t).Some?
    ensures forall f :: f in ComponentFields(t).value <==>
        f in ComponentRule(t).required || f in ComponentRule(t).optional
  {
    var required := ComponentRequiredFields(t);
    assert forall f | f in required :: f in ComponentFields(t).value;
  }

  lemma NodeFidelity(v: Json, data: Data)
    ensures NodeFollows(CONTRACT, v, data) <==> NodeOk(v, data)
  {
    hide Minus, ComponentFields, ComponentRequiredFields, SafeText, IsDataKey;
    if HasType(v) {
      ComponentRuleFor(v);
      if ComponentFields(TypeOf(v)).Some? {
        RuleCoversTable(TypeOf(v));
      }
      if "action" in v.fields {
        ActionFidelity(v.fields["action"], data);
      }
    }
  }

  lemma {:induction false} TreeFidelity(v: Json, data: Data)
    ensures FollowsEverywhere(CONTRACT, v, data) <==> Everywhere(v, data)
    decreases v
  {
    NodeFidelity(v, data);
    if HasChildren(v) {
      forall c | c in v.fields["children"].elements
        ensures FollowsEverywhere(CONTRACT, c, data) <==> Everywhere(c, data)
      {
        TreeFidelity(c, data);
      }
    }
  }

  /**
   The published contract describes exactly what the checker enforces: a root component follows it if and
   only if the checker accepts that component.
   */
  lemma DescriptorFidelity(root: Json, data: Data)
    ensures Follows(CONTRACT, root, data) <==> Acceptable(root, 1, 0, data)
  {
    TreeFidelity(root, data);
  }

  /** A document of `size` bytes by the contract alone. */
  predicate DocumentFollows(d: Descriptor, size: nat, v: Json, wide: real -> bool) {
    && size <= d.limits.jsonBytes
    && v.Object? && FollowsFields(d.snapshot, v.fields)
    && "surfaceId" in v.fields && IsIdentifierText(v.fields["surfaceId"])
    && (forall f | f in d.snapshot.optional && f in v.fields :: IsIdentifierText(v.fields[f]))
    && "revision" in v.fields && v.fields["revision"].Number? && RevisionOk(d.revisionMin, v.fields["revision"].n, wide)
    && "data" in v.fields && v.fields["data"].Object? && DataOk(d.limits, v.fields["data"].fields)
    && "root" in v.fields && Follows(d, v.fields["root"], v.fields["data"].fields)
  }

  /** The same for whole documents: one follows the published contract if and only if the preflight accepts it. */
  lemma DocumentFidelity(size: nat, v: Json, wide: real -> bool)
    ensures DocumentFollows(CONTRACT, size, v, wide) <==> size <= MAX_JSON_BYTES && DocumentOk(v, wide)
  {
    hide Acceptable, IsIdentifierText, DataOk, RevisionOk, Follows;
    if v.Object? && "root" in v.fields && "data" in v.fields && v.fields["data"].Object? {
      DescriptorFidelity(v.fields["root"], v.fields["data"].fields);
      SnapshotFidelity(v.fields, wide);
    }
  }

  /** The snapshot rule asks for the fields the preflight asks for. */
  lemma SnapshotFidelity(fields: Data, wide: real -> bool)
    ensures HeaderOk(fields, wide) && "root" in fields && "data" in fields <==>
            && FollowsFields(CONTRACT.snapshot, fields)
            && "surfaceId" in fields && IsIdentifierText(fields["surfaceId"])
            && (forall f | f in CONTRACT.snapshot.optional && f in fields :: IsIdentifierText(fields[f]))
            && "revision" in fields && fields["revision"].Number?
            && RevisionOk(CONTRACT.revisionMin, fields["revision"].n, wide)
  {
    hide IsIdentifierText, RevisionOk;
    SnapshotKeys();
  }

  // --- The published rules, written out ---

  lemma LeafRules()
    ensures ComponentRule("Text") == TypeRule("Text", ["type", "text"], [])
    ensures ComponentRule("Value") == TypeRule("Value", ["type", "path"], [])
    ensures ComponentRule("Button") == TypeRule("Button", ["type", "label", "action"], [])
    ensures ComponentRule("Input") == TypeRule("Input", ["type", "path"], ["placeholder"])
  {
    NothingOptional(["type", "text"]);
    NothingOptional(["type", "path"]);
    NothingOptional(["type", "label", "action"]);
    assert ["type", "path", "placeholder"][..2] == ["type", "path"];
  }

  lemma {:induction false} NothingOptional(fields: seq<string>)
    ensures Minus(fields, fields) == []
  {
    NoneOptional(fields, fields);
  }

  lemma {:induction false} NoneOptional(allowed: seq<string>, required: seq<string>)
    requires forall f | f in allowed :: f in required
    ensures Minus(allowed, required) == []
  {
    if allowed != [] {
      assert allowed[|allowed| - 1] in allowed;
      assert forall f | f in allowed[..|allowed| - 1] :: f in allowed;
      NoneOptional(allowed[..|allowed| - 1], required);
    }
  }

  lemma ContainerRules(t: string)
    requires t in {"Row", "Column", "Card"}
    ensures ComponentRule(t) == TypeRule(t, ["type", "children"], [])
  {
    NothingOptional(["type", "children"]);
  }

  lemma ComponentAt(i: nat, t: string)
    requires i < 7 && COMPONENT_TYPES[i] == t
    ensures |CONTRACT.components| == 7 && CONTRACT.components[i] == ComponentRule(t)
  {
    hide ComponentRule;
  }

  /** The seven published components. */
  lemma ComponentsInPlain()
    ensures |CONTRACT.components| == 7
    ensures CONTRACT.components[0] == TypeRule("Text", ["type", "text"], [])
    ensures CONTRACT.components[1] == TypeRule("Value", ["type", "path"], [])
    ensures CONTRACT.components[2] == TypeRule("Button", ["type", "label", "action"], [])
    ensures CONTRACT.components[3] == TypeRule("Input", ["type", "path"], ["placeholder"])
    ensures CONTRACT.components[4] == TypeRule("Row", ["type", "children"], [])
    ensures CONTRACT.components[5] == TypeRule("Column", ["type", "children"], [])
    ensures CONTRACT.components[6] == TypeRule("Card", ["type", "children"], [])
  {
    hide ComponentRule, CONTRACT;
    LeafRules();
    ContainerRules("Row");
    ContainerRules("Column");
    ContainerRules("Card");
    ComponentAt(0, "Text");
    ComponentAt(1, "Value");
    ComponentAt(2, "Button");
    ComponentAt(3, "Input");
    ComponentAt(4, "Row");
    ComponentAt(5, "Column");
    ComponentAt(6, "Card");
  }

  /** The two published actions. */
  lemma ActionsInPlain()
    ensures |CONTRACT.actions| == 2
    ensures CONTRACT.actions[0] == TypeRule("increment", ["type", "path", "amount"], [])
    ensures CONTRACT.actions[1] == TypeRule("set", ["type", "path", "value"], [])
  {
    assert ACTION_TYPES[0] == "increment" && ACTION_TYPES[1] == "set";
    assert CONTRACT.actions[0] == ActionRule(ACTION_TYPES[0]) && CONTRACT.actions[1] == ActionRule(ACTION_TYPES[1]);
  }

  /** The published limits, in numbers, and the snapshot fields. */
  lemma LimitsInPlain()
    ensures CONTRACT.limits == Limits(32768, 64, 8, 32, 400, 80, 64, -1000.0, 1000.0)
    ensures CONTRACT.revisionMin == 1.0
    ensures CONTRACT.snapshot.required == ["surfaceId", "revision", "root", "data"]
    ensures CONTRACT.snapshot.optional == ["taskRequestId", "authorityAgentId"]
  {
  }
}
