/**
 Bounded semantic calls on the local capability: what is checked before the Adapter is asked, and what is let
 through after.
 */
module Controller {
  import opened Wrappers
  import opened Framing
  import opened Json
  import opened AdapterProtocol
  import opened ProcessAdapter
  import Text

  const MAX_ACTION_BYTES: nat := 32
  const MAX_ARGS_BYTES: nat := 1024

  /** Call arguments: their text, and their value when the text is valid JSON. */
  datatype Args = Args(text: Bytes, value: Option<Json>)

  /** The request context when the Adapter has answered. */
  datatype Context = Live | DeadlineExceeded | Canceled

  predicate HasKind(value: Json, kind: string) {
    || (kind == "string" && value.String?)
    || (kind == "number" && value.Number?)
    || (kind == "boolean" && value.Bool?)
  }

  /** Arguments conform: an object with all required keys, only declared keys, every value of its declared kind. */
  predicate Conforms(schema: ActionSchema, args: Json) {
    && args.Object?
    && (forall name | name in schema.required :: name in args.fields)
    && (forall name | name in args.fields ::
        name in schema.properties && HasKind(args.fields[name], schema.properties[name]))
  }

  /** The argument check visits the object's keys in any order, and stops at the first bad one. */
  method ValidActionArgs(schema: ActionSchema, args: Json) returns (ok: bool)
    ensures ok <==> Conforms(schema, args)
  {
    if !args.Object? {
      return false;
    }
    var values := args.fields;
    for i := 0 to |schema.required|
      invariant forall j | 0 <= j < i :: schema.required[j] in values
    {
      if schema.required[i] !in values {
        return false;
      }
    }
    var left := values.Keys;
    while left != {}
      invariant left <= values.Keys
      invariant forall name | name in values && name !in left ::
          name in schema.properties && HasKind(values[name], schema.properties[name])
      decreases left
    {
      var name :| name in left;
      if name !in schema.properties || !HasKind(values[name], schema.properties[name]) {
        return false;
      }
      left := left - {name};
    }
    return true;
  }

  predicate Declares(actions: seq<ActionSchema>, action: string) {
    exists i | 0 <= i < |actions| :: actions[i].name == action
  }

  /** The first schema of that name. */
  function SchemaOf(actions: seq<ActionSchema>, action: string): (s: ActionSchema)
    requires Declares(actions, action)
    ensures s in actions && s.name == action
  {
    if actions[0].name == action then actions[0] else SchemaOf(actions[1..], action)
  }

  predicate WellNamed(action: string) {
    0 < |action| <= MAX_ACTION_BYTES && Text.TrimSpace(action) == action
  }

  /** Why a call is refused without asking the Adapter, in the order of the checks. */
  function Refused(d: Descriptor, id: string, action: string, args: Args): Option<Error> {
    if d.id == "" then Some(Unavailable)
    else if id != d.id then Some(UnknownCapability)
    else if !WellNamed(action) || !Declares(d.actions, action) then Some(UnsupportedAction)
    else if |args.text| > MAX_ARGS_BYTES then Some(PayloadTooLarge)
    else if args.text == [] || args.value.None? then Some(InvalidArgs)
    else if !Conforms(SchemaOf(d.actions, action), args.value.value) then Some(InvalidArgs)
    else None
  }

  /** Errors that reach the caller as they are; every other one is unavailable, unless the deadline passed. */
  function SafeError(ctx: Context, e: Error): Error {
    if ctx.DeadlineExceeded? then Timeout
    else if ctx.Canceled? then Unavailable
    else if e in {UnsupportedAction, InvalidArgs, Unavailable, PayloadTooLarge, MalformedResponse} then e
    else Unavailable
  }

  function PassedOn(ctx: Context, valid: Bytes -> bool, outcome: Result<Bytes, Error>): Result<Bytes, Error> {
    match outcome
    case Err(e) => Err(SafeError(ctx, e))
    case Ok(result) =>
      if |result| > MAX_RESULT_BYTES then Err(PayloadTooLarge)
      else if result == [] || !valid(result) then Err(MalformedResponse)
      else Ok(result)
  }

  /** What a well-formed call is, in plain terms: the bounds of the protocol, and conforming arguments. */
  predicate IsGoodCall(d: Descriptor, id: string, action: string, args: Args) {
    && d.id != "" && id == d.id
    && 1 <= |action| <= 32 && Text.TrimSpace(action) == action
    && Declares(d.actions, action)
    && 1 <= |args.text| <= 1024 && args.value.Some? && args.value.value.Object?
    && var schema, fields := SchemaOf(d.actions, action), args.value.value.fields;
       && (forall name | name in schema.required :: name in fields)
       && forall name | name in fields ::
            && name in schema.properties
            && match fields[name]
               case String(_) => schema.properties[name] == "string"
               case Number(_) => schema.properties[name] == "number"
               case Bool(_) => schema.properties[name] == "boolean"
               case _ => false
  }

  /** Exactly the good calls are not refused. */
  lemma RefusedIff(d: Descriptor, id: string, action: string, args: Args)
    ensures Refused(d, id, action, args).None? <==> IsGoodCall(d, id, action, args)
  {
  }

  /** The errors of the others, by the first check that fails. */
  lemma RefusalTable(d: Descriptor, id: string, action: string, args: Args)
    ensures Refused(d, id, action, args) == Some(Unavailable) <==> d.id == ""
    ensures Refused(d, id, action, args) == Some(UnknownCapability) <==> d.id != "" && id != d.id
    ensures Refused(d, id, action, args) == Some(UnsupportedAction) <==>
            && d.id != "" && id == d.id
            && (action == "" || |action| > 32 || Text.TrimSpace(action) != action || !Declares(d.actions, action))
    ensures d.id != "" && id == d.id && 1 <= |action| <= 32 && Text.TrimSpace(action) == action
            && Declares(d.actions, action) ==>
              && (|args.text| > 1024 ==> Refused(d, id, action, args) == Some(PayloadTooLarge))
              && (args.text == [] || (|args.text| <= 1024 && args.value.None?) ==>
                  Refused(d, id, action, args) == Some(InvalidArgs))
  {
  }

  /** What a call delivers for an outcome of the Adapter, in plain terms. */
  lemma DeliveryTable(ctx: Context, valid: Bytes -> bool, result: Bytes, e: Error)
    ensures 1 <= |result| <= 4096 && valid(result) ==> PassedOn(ctx, valid, Ok(result)) == Ok(result)
    ensures |result| > 4096 ==> PassedOn(ctx, valid, Ok(result)) == Err(PayloadTooLarge)
    ensures |result| <= 4096 && (result == [] || !valid(result)) ==>
            PassedOn(ctx, valid, Ok(result)) == Err(MalformedResponse)
    ensures PassedOn(DeadlineExceeded, valid, Err(e)) == Err(Timeout)
    ensures PassedOn(Canceled, valid, Err(e)) == Err(Unavailable)
    ensures PassedOn(Live, valid, Err(UnsupportedAction)) == Err(UnsupportedAction)
    ensures PassedOn(Live, valid, Err(InvalidArgs)) == Err(InvalidArgs)
    ensures PassedOn(Live, valid, Err(PayloadTooLarge)) == Err(PayloadTooLarge)
    ensures PassedOn(Live, valid, Err(MalformedResponse)) == Err(MalformedResponse)
    ensures PassedOn(Live, valid, Err(Unavailable)) == Err(Unavailable)
    ensures PassedOn(Live, valid, Err(Timeout)) == Err(Unavailable)
    ensures PassedOn(Live, valid, Err(UnknownCapability)) == Err(Unavailable)
  {
  }

  class Controller {
    const adapter: ProcessAdapter?
    const validJson: Bytes -> bool

    constructor (adapter: ProcessAdapter?, validJson: Bytes -> bool)
      ensures this.adapter == adapter && this.validJson == validJson
    {
      this.adapter, this.validJson := adapter, validJson;
    }

    /**
     A result of a declared action with conforming arguments, bounded, out of the frame paired with this very
     call.
     */
    twostate predicate ComesFromOwnFrame(new action: string, new args: Args, new result: Bytes)
      requires adapter != null
      reads this, adapter, adapter.stdin, adapter.stdout
    {
      && Declares(old(adapter.descriptor).actions, action) && args.value.Some?
      && Conforms(SchemaOf(old(adapter.descriptor).actions, action), args.value.value)
      && 0 < |result| <= MAX_RESULT_BYTES && validJson(result)
      && FrameOf(old(adapter.stdout.Stream())).Frame?
      && DecodeResponse(adapter.codec.fields(FrameOf(old(adapter.stdout.Stream())).body),
                        Text.Decimal(NextId(old(adapter.request)))) == Some(Answer(result))
    }

    /** The Adapter was left alone. */
    twostate predicate Untouched()
      requires adapter != null
      reads this, adapter, adapter.stdin, adapter.stdout
    {
      adapter.View() == old(adapter.View()) && adapter.stdin.sink == old(adapter.stdin.sink)
    }

    /** The request was exchanged with the Adapter, and the outcome passed on. */
    twostate predicate Performed(
        new request: Request, new ctx: Context, new arm: Arm, new fate: Fate, new r: Result<Bytes, Error>)
      requires adapter != null
      reads this, adapter, adapter.stdin, adapter.stdout
    {
      && |adapter.calls| == |old(adapter.calls)| + 1
      && r == PassedOn(ctx, validJson, adapter.calls[|old(adapter.calls)|].outcome)
      && adapter.Befell(request, arm, fate)
      && adapter.View() == Exchange(adapter.codec, old(adapter.View()), request, fate)
    }

    /** The request was exchanged with the Adapter, and a result of 1 to 4096 valid bytes delivered as it is. */
    twostate predicate Delivers(new request: Request, new arm: Arm, new fate: Fate, new r: Result<Bytes, Error>)
      requires adapter != null
      reads this, adapter, adapter.stdin, adapter.stdout
    {
      && |adapter.calls| == |old(adapter.calls)| + 1
      && adapter.Befell(request, arm, fate)
      && adapter.View() == Exchange(adapter.codec, old(adapter.View()), request, fate)
      && var outcome := adapter.calls[|old(adapter.calls)|].outcome;
         && (outcome.Ok? && 1 <= |outcome.value| <= 4096 && validJson(outcome.value) ==> r == outcome)
         && (r.Ok? ==> r == outcome)
    }

    /**
     An invocation either is refused, leaving the Adapter alone, or performs exactly one exchange and
     delivers its outcome. `arm` is what that exchange meets. A success is a declared action with conforming
     arguments, and its result is the bounded answer in the frame paired with this very call.
     */
    method Invoke(id: string, action: string, args: Args, ctx: Context, arm: Arm)
        returns (r: Result<Bytes, Error>, ghost fate: Fate)
      requires adapter != null ==> adapter.Valid()
      modifies adapter
      modifies if adapter == null then {} else {adapter.stdin}
      modifies if adapter == null then {} else {adapter.stdout}
      ensures adapter == null ==> r == Err(Unavailable)
      ensures adapter != null ==> adapter.Valid()
      ensures adapter != null ==>
                var d := old(adapter.Describe());
                var refused := Refused(d, id, action, args);
                if refused.Some? then r == Err(refused.value) && Untouched()
                else Performed(Request("", "invoke", d.id, action, args.text), ctx, arm, fate, r)
      ensures adapter != null && IsGoodCall(old(adapter.Describe()), id, action, args) ==>
                Delivers(Request("", "invoke", id, action, args.text), arm, fate, r)
      ensures r.Ok? ==> adapter != null && ComesFromOwnFrame(action, args, r.value)
    {
      hide Exchange, DecodeResponse;
      fate := WriteFails;
      if adapter == null {
        return Err(Unavailable), fate;
      }
      var d := adapter.Describe();
      RefusedIff(d, id, action, args);
      hide IsGoodCall;
      var refusal := CheckCall(d, id, action, args);
      if refusal.Some? {
        return Err(refusal.value), fate;
      }
      RefusedUnless(d, id, action, args);
      hide Refused, Conforms, FrameOf, Declares;
      var outcome: Result<Bytes, Error>;
      ghost var before := adapter.View();
      outcome, fate := adapter.ExchangeCall(Request("", "invoke", d.id, action, args.text), arm);
      ExchangeAddsCall(adapter.codec, before, Request("", "invoke", d.id, action, args.text), fate);
      if outcome.Err? {
        return Err(SafeError(ctx, outcome.error)), fate;
      }
      AnswerOfSuccess(adapter.codec, before, Request("", "invoke", d.id, action, args.text), fate);
      if |outcome.value| > MAX_RESULT_BYTES {
        return Err(PayloadTooLarge), fate;
      }
      if outcome.value == [] || !validJson(outcome.value) {
        return Err(MalformedResponse), fate;
      }
      return outcome, fate;
    }

    /** An observation checks the capability id and the result, and nothing of the descriptor's actions. */
    method Observe(id: string, ctx: Context, arm: Arm) returns (r: Result<Bytes, Error>, ghost fate: Fate)
      requires adapter != null ==> adapter.Valid()
      modifies adapter
      modifies if adapter == null then {} else {adapter.stdin}
      modifies if adapter == null then {} else {adapter.stdout}
      ensures adapter == null ==> r == Err(Unavailable)
      ensures adapter != null ==> adapter.Valid()
      ensures adapter != null ==>
                var d := old(adapter.Describe());
                if d.id == "" then r == Err(Unavailable) && Untouched()
                else if id != d.id then r == Err(UnknownCapability) && Untouched()
                else Performed(Request("", "observe", d.id, "", []), ctx, arm, fate, r)
      ensures adapter != null && id != "" && old(adapter.Describe()).id == id ==>
                Delivers(Request("", "observe", id, "", []), arm, fate, r)
    {
      hide Exchange, DecodeResponse;
      fate := WriteFails;
      if adapter == null {
        return Err(Unavailable), fate;
      }
      var d := adapter.Describe();
      if d.id == "" {
        return Err(Unavailable), fate;
      }
      if id != d.id {
        return Err(UnknownCapability), fate;
      }
      var outcome: Result<Bytes, Error>;
      ghost var before := adapter.View();
      outcome, fate := adapter.ExchangeCall(Request("", "observe", d.id, "", []), arm);
      ExchangeAddsCall(adapter.codec, before, Request("", "observe", d.id, "", []), fate);
      if outcome.Err? {
        return Err(SafeError(ctx, outcome.error)), fate;
      }
      if |outcome.value| > MAX_RESULT_BYTES {
        return Err(PayloadTooLarge), fate;
      }
      if outcome.value == [] || !validJson(outcome.value) {
        return Err(MalformedResponse), fate;
      }
      return outcome, fate;
    }
  }

  /** The checks before the Adapter is asked, in their order. */
  method CheckCall(d: Descriptor, id: string, action: string, args: Args) returns (refusal: Option<Error>)
    ensures refusal == Refused(d, id, action, args)
  {
    if d.id == "" {
      return Some(Unavailable);
    }
    if id != d.id {
      return Some(UnknownCapability);
    }
    if |action| == 0 || |action| > MAX_ACTION_BYTES || Text.TrimSpace(action) != action {
      return Some(UnsupportedAction);
    }
    var schema := FindSchema(d.actions, action);
    if schema.None? {
      return Some(UnsupportedAction);
    }
    if |args.text| > MAX_ARGS_BYTES {
      return Some(PayloadTooLarge);
    }
    if args.text == [] || args.value.None? {
      return Some(InvalidArgs);
    }
    var conforms := ValidActionArgs(schema.value, args.value.value);
    return if conforms then None else Some(InvalidArgs);
  }

  /** A call that is not refused names a declared action and has conforming arguments. */
  lemma RefusedUnless(d: Descriptor, id: string, action: string, args: Args)
    ensures Refused(d, id, action, args).None? ==>
              && d.id != "" && id == d.id && Declares(d.actions, action) && args.value.Some?
              && Conforms(SchemaOf(d.actions, action), args.value.value)
  {
  }

  method FindSchema(actions: seq<ActionSchema>, action: string) returns (s: Option<ActionSchema>)
    ensures s == if Declares(actions, action) then Some(SchemaOf(actions, action)) else None
  {
    for i := 0 to |actions|
      invariant forall j | 0 <= j < i :: actions[j].name != action
    {
      if actions[i].name == action {
        FirstSchema(actions, action, i);
        return Some(actions[i]);
      }
    }
    return None;
  }

  lemma {:induction false} FirstSchema(actions: seq<ActionSchema>, action: string, i: nat)
    requires i < |actions| && actions[i].name == action
    requires forall j | 0 <= j < i :: actions[j].name != action
    ensures Declares(actions, action) && SchemaOf(actions, action) == actions[i]
  {
    if i > 0 {
      FirstSchema(actions[1..], action, i - 1);
    }
  }

  /** A successful outcome is the answer of the frame the exchange took. */
  lemma AnswerOfSuccess(c: Codec, a: Adapter, request: Request, fate: Fate)
    requires Exchange(c, a, request, fate).calls[|a.calls|].outcome.Ok?
    ensures var result := Exchange(c, a, request, fate).calls[|a.calls|].outcome.value;
            && FrameOf(a.unread).Frame?
            && DecodeResponse(c.fields(FrameOf(a.unread).body), Text.Decimal(NextId(a.counter))) == Some(Answer(result))
            && |result| <= MAX_RESULT_BYTES
  {
    SuccessfulExchange(c, a, request, fate);
  }
}
