/**
 The Adapter stdio protocol, one serialized call at a time.

 The child is an arbitrary byte stream: `unread` is everything it will still write to standard output
 before end of file, so a statement about every `unread` is one about every child, however it answers.
 What the operating system and the clock decide during a call is the call's `Fate`.
 */
module AdapterProtocol {
  import opened Wrappers
  import opened Framing
  import opened Json
  import Text

  const MAX_RESULT_BYTES: nat := 4096
  const REQUEST_IDS: nat := 0x1_0000_0000_0000_0000

  datatype Error =
    | Unavailable | Timeout | PayloadTooLarge | MalformedResponse
    | InvalidArgs | UnsupportedAction | UnknownCapability
    | CapabilityCount | InvalidRegistration

  datatype Request = Request(id: string, verb: string, capabilityId: string, action: string, args: Bytes)

  /** A JSON value with the text it was read from. */
  datatype Raw = Raw(text: Bytes, value: Json)

  /** The JSON library and the payload pattern, as functions of bytes. */
  datatype Codec = Codec(
    marshal: Request -> Option<Bytes>,
    fields: Bytes -> Option<map<string, Raw>>,
    unsafePayload: Bytes -> bool)

  datatype Response = Answer(result: Bytes) | Refusal(code: string)

  const ONE: Bytes := [49]

  predicate IsCodeKey(key: string) {
    && |key| == 4
    && key[0] in "cC" && key[1] in "oO" && key[2] in "dD" && key[3] in "eE"
  }

  /** The code of an error object: its one field, under a name that folds to "code", holds a non-empty string. */
  function RefusalCode(value: Json): Option<string> {
    if value.Object? && |value.fields| == 1 then
      var key :| key in value.fields;
      assert forall k | k in value.fields :: k == key by {
        assert |value.fields.Keys - {key}| == 0;
      }
      if IsCodeKey(key) && value.fields[key].String? && value.fields[key].s != "" then Some(value.fields[key].s)
      else None
    else None
  }

  /** An envelope is accepted only whole: known fields, version 1, the expected id, and one of result and error. */
  function DecodeResponse(fields: Option<map<string, Raw>>, expected: string): Option<Response> {
    if fields.None? || !(fields.value.Keys <= {"protocolVersion", "id", "result", "error"}) then None
    else
      var f := fields.value;
      if !("protocolVersion" in f && f["protocolVersion"].text == ONE) then None
      else if !("id" in f && f["id"].value == String(expected) && expected != "") then None
      else if "result" in f && "error" !in f then Some(Answer(f["result"].text))
      else if "error" in f && "result" !in f && RefusalCode(f["error"].value).Some? then
        Some(Refusal(RefusalCode(f["error"].value).value))
      else None
  }

  function ErrorOfCode(code: string): Error {
    if code == "invalid_request" || code == "invalid_args" then InvalidArgs
    else if code == "unsupported_method" || code == "unsupported_action" then UnsupportedAction
    else if code == "unknown_capability" then UnknownCapability
    else if code == "too_large" then PayloadTooLarge
    else if code == "unavailable" || code == "internal" then Unavailable
    else MalformedResponse
  }

  /** What a frame means for the call that waits under `id`, and whether it discards the child. */
  datatype Verdict = Verdict(outcome: Result<Bytes, Error>, fatal: bool)

  function Judge(c: Codec, frame: Bytes, id: string): Verdict {
    match DecodeResponse(c.fields(frame), id)
    case None => Verdict(Err(MalformedResponse), true)
    case Some(Refusal(code)) => Verdict(Err(ErrorOfCode(code)), ErrorOfCode(code).MalformedResponse?)
    case Some(Answer(result)) =>
      if |result| > MAX_RESULT_BYTES then Verdict(Err(PayloadTooLarge), true)
      else if c.unsafePayload(result) then Verdict(Err(MalformedResponse), true)
      else Verdict(Ok(result), false)
  }

  /** A call that ran: its id, the index of the request it wrote and of the frame it was given, its outcome. */
  datatype CallRecord = CallRecord(id: string, written: Option<nat>, frame: Option<nat>, outcome: Result<Bytes, Error>)

  /**
   The adapter: request counter, closed flag, whether the child has exited, unread output, reader
   goroutines left behind by abandoned calls; and the history of requests written whole, frames taken
   off the stream by any reader, and calls.
   */
  datatype Adapter = Adapter(
    counter: nat,
    closed: bool,
    exited: bool,
    unread: Bytes,
    readers: nat,
    written: seq<string>,
    consumed: seq<Bytes>,
    calls: seq<CallRecord>)

  function Fresh(output: Bytes): Adapter {
    Adapter(0, false, false, output, 0, [], [], [])
  }

  predicate Alive(a: Adapter) {
    !a.exited && !a.closed
  }

  /** `dropped` is how many bytes a failing frame read takes off the stream. */
  datatype Fate = WriteFails | TimesOut | Exits | Reads(dropped: nat)

  function Recorded(a: Adapter, r: CallRecord): Adapter {
    a.(calls := a.calls + [r])
  }

  function Drop(s: Bytes, n: nat): Bytes {
    if n <= |s| then s[n..] else []
  }

  function NextId(counter: nat): nat {
    (counter + 1) % REQUEST_IDS
  }

  /** The request's bytes on the wire, without the line feed; none when it cannot be sent. */
  function Wire(c: Codec, request: Request, id: string): Option<Bytes> {
    var wire := c.marshal(request.(id := id));
    if wire.Some? && |wire.value| + 1 <= MAX_FRAME_BYTES then wire else None
  }

  function ReadError(r: FrameResult): Error
    requires !r.Frame?
  {
    if r.TooLarge? then PayloadTooLarge else if r.Malformed? then MalformedResponse else Unavailable
  }

  /** One exchange with the child. */
  function Exchange(c: Codec, a: Adapter, request: Request, fate: Fate): Adapter {
    if !Alive(a) then Recorded(a, CallRecord("", None, None, Err(Unavailable)))
    else
      var b := a.(counter := NextId(a.counter));
      var id := Text.Decimal(b.counter);
      if Wire(c, request, id).None? then Recorded(b, CallRecord(id, None, None, Err(PayloadTooLarge)))
      else Sent(c, b, id, fate)
  }

  function Sent(c: Codec, a: Adapter, id: string, fate: Fate): Adapter {
    var w := a.(written := a.written + [id]);
    match fate
    case WriteFails => Recorded(a, CallRecord(id, None, None, Err(Unavailable))).(closed := true)
    case TimesOut =>
      Recorded(w, CallRecord(id, Some(|a.written|), None, Err(Timeout))).(closed := true, readers := a.readers + 1)
    case Exits =>
      Recorded(w, CallRecord(id, Some(|a.written|), None, Err(Unavailable))).(
        closed := true, exited := true, readers := a.readers + 1)
    case Reads(dropped) => Received(c, w, id, |a.written|, dropped)
  }

  /** The frame read for the request with index `w`. */
  function Received(c: Codec, a: Adapter, id: string, w: nat, dropped: nat): Adapter {
    var r := FrameOf(a.unread);
    if r.Frame? then
      var v := Judge(c, r.body, id);
      Recorded(Took(a, r.body), CallRecord(id, Some(w), Some(|a.consumed|), v.outcome)).(closed := a.closed || v.fatal)
    else
      Recorded(a, CallRecord(id, Some(w), None, Err(ReadError(r)))).(closed := true, unread := Drop(a.unread, dropped))
  }

  function Took(a: Adapter, body: Bytes): Adapter {
    a.(unread := Drop(a.unread, |body| + 1), consumed := a.consumed + [body])
  }

  /**
   What a successful exchange tells: the child was alive and still is, one request was written and one frame
   taken.
   */
  lemma SuccessfulExchange(c: Codec, a: Adapter, request: Request, fate: Fate)
    requires Exchange(c, a, request, fate).calls[|a.calls|].outcome.Ok?
    ensures var b, id := Exchange(c, a, request, fate), Text.Decimal(NextId(a.counter));
            && Alive(a) && Alive(b) && fate.Reads? && FrameOf(a.unread).Frame?
            && b.counter == NextId(a.counter) && b.written == a.written + [id]
            && b.consumed == a.consumed + [FrameOf(a.unread).body]
            && b.calls == a.calls + [CallRecord(id, Some(|a.written|), Some(|a.consumed|),
                Judge(c, FrameOf(a.unread).body, id).outcome)]
  {
  }

  /** Every exchange, refused or not, adds one call to the history. */
  lemma ExchangeAddsCall(c: Codec, a: Adapter, request: Request, fate: Fate)
    ensures var b := Exchange(c, a, request, fate); |b.calls| == |a.calls| + 1 && a.calls <= b.calls
  {
    hide Judge, Wire, FrameOf;
  }

  datatype Event = Call(request: Request, fate: Fate) | Close | ChildExits | AbandonedRead(dropped: nat)

  function Apply(c: Codec, a: Adapter, e: Event): Adapter {
    match e
    case Call(request, fate) => Exchange(c, a, request, fate)
    case Close => a.(closed := true)
    case ChildExits => a.(exited := true)
    // The reader of a call that gave up may still finish; its result goes to nobody.
    case AbandonedRead(dropped) =>
      if a.readers == 0 then a
      else if FrameOf(a.unread).Frame? then Took(a, FrameOf(a.unread).body).(readers := a.readers - 1)
      else a.(readers := a.readers - 1, unread := Drop(a.unread, dropped))
  }

  function Run(c: Codec, a: Adapter, events: seq<Event>): Adapter
    decreases |events|
  {
    if events == [] then a else Run(c, Apply(c, a, events[0]), events[1..])
  }

  // --- No stale pairing, against every child ---

  /** The frames taken so far stand at the start of the child's output, in order. */
  predicate Aligned(a: Adapter, output: Bytes) {
    && Encode(a.consumed) <= output
    && (!a.closed || a.readers > 0 ==> output == Encode(a.consumed) + a.unread)
    && (forall f | f in a.consumed :: IsFrameBody(f))
  }

  /** While the adapter is open no reader is outstanding and as many frames were taken as requests written. */
  predicate InStep(a: Adapter) {
    && a.readers <= 1
    && (!a.closed ==> a.readers == 0 && |a.consumed| == |a.written|)
  }

  /**
   A call is only ever paired with the frame that has the index of its own request, it reports exactly
   what that frame means under its own id, and without a frame it fails.
   */
  predicate Paired(c: Codec, a: Adapter, r: CallRecord) {
    && (r.written.Some? ==> r.written.value < |a.written| && a.written[r.written.value] == r.id)
    && (r.frame.Some? ==> r.written == r.frame && r.frame.value < |a.consumed|
                          && r.outcome == Judge(c, a.consumed[r.frame.value], r.id).outcome)
    && (r.frame.None? ==> r.outcome.Err?)
  }

  predicate AllPaired(c: Codec, a: Adapter) {
    forall i | 0 <= i < |a.calls| :: Paired(c, a, a.calls[i])
  }

  /** Later calls wrote later requests; so no request, and no frame, belongs to two calls. */
  predicate InOrder(a: Adapter) {
    forall i, j | 0 <= i < j < |a.calls| && a.calls[i].written.Some? && a.calls[j].written.Some? ::
      a.calls[i].written.value < a.calls[j].written.value
  }

  predicate Inv(c: Codec, a: Adapter, output: Bytes) {
    Aligned(a, output) && InStep(a) && AllPaired(c, a) && InOrder(a)
  }

  /** Adding a record to the history. */
  lemma RecordKeepsInv(c: Codec, a: Adapter, r: CallRecord, output: Bytes)
    requires Inv(c, a, output) && Paired(c, a, r)
    requires r.written.Some? ==> r.written.value == |a.written| - 1
    requires r.written.Some? ==>
        forall i | 0 <= i < |a.calls| && a.calls[i].written.Some? :: a.calls[i].written.value < |a.written| - 1
    ensures Inv(c, Recorded(a, r), output)
  {
  }

  /** The history only grows, so pairs stay pairs. */
  lemma PairedStays(c: Codec, a: Adapter, b: Adapter)
    requires AllPaired(c, a) && a.calls == b.calls && a.written <= b.written && a.consumed <= b.consumed
    ensures AllPaired(c, b)
  {
    forall i | 0 <= i < |b.calls|
      ensures Paired(c, b, b.calls[i])
    {
      assert Paired(c, a, a.calls[i]);
    }
  }

  lemma TookAligned(a: Adapter, output: Bytes)
    requires output == Encode(a.consumed) + a.unread && FrameOf(a.unread).Frame?
    requires forall f | f in a.consumed :: IsFrameBody(f)
    ensures var b := Took(a, FrameOf(a.unread).body);
            output == Encode(b.consumed) + b.unread && forall f | f in b.consumed :: IsFrameBody(f)
  {
    FrameSplits(a.unread);
    EncodeAppend(a.consumed, FrameOf(a.unread).body);
  }

  /** A frame read by nobody's call: what `Close`, a timeout or an exit leaves behind. */
  lemma AbandonedReadKeepsInv(c: Codec, a: Adapter, dropped: nat, output: Bytes)
    requires Inv(c, a, output)
    ensures Inv(c, Apply(c, a, AbandonedRead(dropped)), output)
  {
    var b := Apply(c, a, AbandonedRead(dropped));
    if a.readers > 0 && FrameOf(a.unread).Frame? {
      TookAligned(a, output);
    }
    PairedStays(c, a, b);
  }

  lemma ReceivedKeepsInv(c: Codec, a: Adapter, id: string, dropped: nat, output: Bytes)
    requires Aligned(a, output) && AllPaired(c, a) && InOrder(a) && Alive(a) && a.readers == 0
    requires |a.written| == |a.consumed| + 1 && a.written[|a.written| - 1] == id
    requires forall i | 0 <= i < |a.calls| && a.calls[i].written.Some? :: a.calls[i].written.value < |a.written| - 1
    ensures Inv(c, Received(c, a, id, |a.consumed|, dropped), output)
  {
    var r, w := FrameOf(a.unread), |a.consumed|;
    if r.Frame? {
      var b, v := Took(a, r.body), Judge(c, r.body, id);
      TookAligned(a, output);
      PairedStays(c, a, b);
      assert b.consumed[w] == r.body;
      RecordKeepsInv(c, b, CallRecord(id, Some(w), Some(w), v.outcome), output);
    } else {
      var b := a.(closed := true, unread := Drop(a.unread, dropped));
      PairedStays(c, a, b);
      RecordKeepsInv(c, b, CallRecord(id, Some(w), None, Err(ReadError(r))), output);
    }
  }

  lemma CallKeepsInv(c: Codec, a: Adapter, request: Request, fate: Fate, output: Bytes)
    requires Inv(c, a, output)
    ensures Inv(c, Exchange(c, a, request, fate), output)
  {
    if !Alive(a) {
      RecordKeepsInv(c, a, CallRecord("", None, None, Err(Unavailable)), output);
    } else {
      var b := a.(counter := NextId(a.counter));
      var id := Text.Decimal(b.counter);
      PairedStays(c, a, b);
      if Wire(c, request, id).None? {
        RecordKeepsInv(c, b, CallRecord(id, None, None, Err(PayloadTooLarge)), output);
      } else {
        SentKeepsInv(c, b, id, fate, output);
      }
    }
  }

  lemma SentKeepsInv(c: Codec, a: Adapter, id: string, fate: Fate, output: Bytes)
    requires Inv(c, a, output) && Alive(a)
    ensures Inv(c, Sent(c, a, id, fate), output)
  {
    var w := a.(written := a.written + [id]);
    PairedStays(c, a, w);
    forall i | 0 <= i < |a.calls| && a.calls[i].written.Some?
      ensures a.calls[i].written.value < |a.written|
    {
      assert Paired(c, a, a.calls[i]);
    }
    match fate
    case WriteFails => RecordKeepsInv(c, a.(closed := true), CallRecord(id, None, None, Err(Unavailable)), output);
    case TimesOut => RecordKeepsInv(c, w.(closed := true, readers := 1),
        CallRecord(id, Some(|a.written|), None, Err(Timeout)), output);
    case Exits =>
      RecordKeepsInv(c, w.(closed := true, exited := true, readers := 1),
          CallRecord(id, Some(|a.written|), None, Err(Unavailable)), output);
    case Reads(dropped) => ReceivedKeepsInv(c, w, id, dropped, output);
  }

  lemma {:induction false} RunKeepsInv(c: Codec, a: Adapter, events: seq<Event>, output: Bytes)
    requires Inv(c, a, output)
    ensures Inv(c, Run(c, a, events), output)
    decreases |events|
  {
    if events != [] {
      match events[0] {
        case Call(request, fate) => CallKeepsInv(c, a, request, fate, output);
        case AbandonedRead(dropped) => AbandonedReadKeepsInv(c, a, dropped, output);
        case _ => PairedStays(c, a, Apply(c, a, events[0]));
      }
      RunKeepsInv(c, Apply(c, a, events[0]), events[1..], output);
    }
  }

  /**
   In every run against every child: a call that succeeds read the frame whose index is that of its own
   request, which is that line of the child's output and carries the call's own id; no frame goes to two
   calls; and while the adapter is open, no reader is outstanding and frames taken equal requests written.
   */
  lemma NoStalePairing(c: Codec, output: Bytes, events: seq<Event>)
    ensures var a := Run(c, Fresh(output), events);
            && Encode(a.consumed) <= output
            && (!a.closed ==> |a.consumed| == |a.written| && a.readers == 0)
            && (forall i | 0 <= i < |a.calls| && a.calls[i].outcome.Ok? ::
                  var r := a.calls[i];
                  && r.frame.Some? && r.frame == r.written && r.frame.value < |a.consumed|
                  && r.written.value < |a.written|
                  && r.id == a.written[r.written.value]
                  && DecodeResponse(c.fields(a.consumed[r.frame.value]), r.id) == Some(Answer(r.outcome.value))
                  && |r.outcome.value| <= MAX_RESULT_BYTES && !c.unsafePayload(r.outcome.value))
            && (forall i, j | 0 <= i < j < |a.calls| && a.calls[i].frame.Some? && a.calls[j].frame.Some? ::
                  a.calls[i].frame != a.calls[j].frame)
  {
    RunKeepsInv(c, Fresh(output), events, output);
    var a := Run(c, Fresh(output), events);
    assert forall i | 0 <= i < |a.calls| :: Paired(c, a, a.calls[i]);
  }

  /** Once closed, an adapter stays closed: later calls write nothing, take no id, and are unavailable. */
  lemma {:induction false} ClosedIsForGood(c: Codec, a: Adapter, events: seq<Event>)
    requires a.closed
    ensures var b := Run(c, a, events);
            && b.closed && b.written == a.written && b.counter == a.counter
            && a.calls <= b.calls
            && forall i | |a.calls| <= i < |b.calls| :: b.calls[i].outcome == Err(Unavailable) && b.calls[i].frame.None?
    decreases |events|
  {
    if events != [] {
      ClosedIsForGood(c, Apply(c, a, events[0]), events[1..]);
    }
  }

  /** Ids of written requests grow with the counter, as long as it has not wrapped around. */
  predicate IdsGrow(a: Adapter, n: nat) {
    && a.counter <= n < REQUEST_IDS
    && (forall i | 0 <= i < |a.written| :: Text.AllDigits(a.written[i]) && Text.DigitsValue(a.written[i]) <= a.counter)
    && (forall i, j | 0 <= i < j < |a.written| :: Text.DigitsValue(a.written[i]) < Text.DigitsValue(a.written[j]))
  }

  /** A call takes at most the next id. */
  lemma WrittenByStep(c: Codec, a: Adapter, e: Event)
    ensures var b := Apply(c, a, e);
            || (b.counter == a.counter && b.written == a.written)
            || (b.counter == NextId(a.counter)
                && (b.written == a.written || b.written == a.written + [Text.Decimal(b.counter)]))
  {
    hide Judge, Wire, FrameOf;
  }

  lemma {:induction false} RunKeepsIds(c: Codec, a: Adapter, events: seq<Event>, n: nat)
    requires IdsGrow(a, n) && n + |events| < REQUEST_IDS
    ensures IdsGrow(Run(c, a, events), n + |events|)
    decreases |events|
  {
    hide Apply;
    if events != [] {
      var b := Apply(c, a, events[0]);
      WrittenByStep(c, a, events[0]);
      RunKeepsIds(c, b, events[1..], n + 1);
    }
  }

  /** Request ids are unique in a process lifetime of fewer than 2^64 calls. */
  lemma RequestIdsAreUnique(c: Codec, output: Bytes, events: seq<Event>)
    requires |events| < REQUEST_IDS
    ensures var a := Run(c, Fresh(output), events);
            forall i, j | 0 <= i < j < |a.written| :: a.written[i] != a.written[j]
  {
    RunKeepsIds(c, Fresh(output), events, 0);
  }

  // --- The honest child ---

  /** The id the next request gets on the wire, and the requests that are written at all. */
  function WrittenIds(c: Codec, counter: nat, requests: seq<Request>): seq<string>
    decreases |requests|
  {
    if requests == [] then []
    else
      var id := Text.Decimal(NextId(counter));
      (if Wire(c, requests[0], id).Some? then [id] else []) + WrittenIds(c, NextId(counter), requests[1..])
  }

  /** The outcomes when the k-th written request is given the k-th answer; what is too large is not written. */
  function Outcomes(c: Codec, counter: nat, requests: seq<Request>, answers: seq<Bytes>): seq<Result<Bytes, Error>>
    requires |answers| == |WrittenIds(c, counter, requests)|
    decreases |requests|
  {
    if requests == [] then []
    else
      var id := Text.Decimal(NextId(counter));
      if Wire(c, requests[0], id).None? then
        [Err(PayloadTooLarge)] + Outcomes(c, NextId(counter), requests[1..], answers)
      else
        [AnsweredBy(c, answers[0], id)] + Outcomes(c, NextId(counter), requests[1..], answers[1..])
  }

  /** The codes that the protocol closes its list of errors with. */
  predicate IsKnownCode(code: string) {
    code in {"invalid_request", "invalid_args", "unsupported_method", "unsupported_action",
             "unknown_capability", "too_large", "unavailable", "internal"}
  }

  /** An answer in bounds and safe, or a refusal with a known code. */
  predicate IsFairResponse(c: Codec, r: Response) {
    match r
    case Answer(result) => |result| <= 4096 && !c.unsafePayload(result)
    case Refusal(code) => IsKnownCode(code)
  }

  /** A well-formed response to the request with this id, in one frame. */
  predicate IsFairFrame(c: Codec, frame: Bytes, id: string) {
    && IsFrameBody(frame)
    && DecodeResponse(c.fields(frame), id).Some? && IsFairResponse(c, DecodeResponse(c.fields(frame), id).value)
  }

  /** What the caller of a fair response gets. */
  function OutcomeOf(r: Response): Result<Bytes, Error> {
    match r
    case Answer(result) => Ok(result)
    case Refusal(code) => Err(ErrorOfCode(code))
  }

  function AnsweredBy(c: Codec, frame: Bytes, id: string): Result<Bytes, Error> {
    var response := DecodeResponse(c.fields(frame), id);
    if response.Some? then OutcomeOf(response.value) else Err(MalformedResponse)
  }

  /** Exactly the fair responses keep the child, and they reach the caller as they are. */
  lemma JudgeIff(c: Codec, frame: Bytes, id: string)
    ensures var r := DecodeResponse(c.fields(frame), id);
            && (!Judge(c, frame, id).fatal <==> r.Some? && IsFairResponse(c, r.value))
            && (r.Some? && IsFairResponse(c, r.value) ==> Judge(c, frame, id).outcome == OutcomeOf(r.value))
            && (r.None? ==> Judge(c, frame, id).outcome == Err(MalformedResponse))
  {
    if DecodeResponse(c.fields(frame), id).Some? {
      var r := DecodeResponse(c.fields(frame), id).value;
      if r.Refusal? {
        CodeTable(r.code);
      }
    }
    hide DecodeResponse;
  }

  /** The errors that the codes stand for. Any other code is malformed. */
  lemma CodeTable(code: string)
    ensures ErrorOfCode("invalid_request") == InvalidArgs && ErrorOfCode("invalid_args") == InvalidArgs
    ensures ErrorOfCode("unsupported_method") == UnsupportedAction
    ensures ErrorOfCode("unsupported_action") == UnsupportedAction
    ensures ErrorOfCode("unknown_capability") == UnknownCapability && ErrorOfCode("too_large") == PayloadTooLarge
    ensures ErrorOfCode("unavailable") == Unavailable && ErrorOfCode("internal") == Unavailable
    ensures ErrorOfCode(code) == MalformedResponse <==> !IsKnownCode(code)
  {
  }

  /** The envelopes that are accepted as answers, and as refusals, in plain fields. */
  lemma EnvelopeIff(f: map<string, Raw>, id: string, text: Bytes, code: string)
    ensures DecodeResponse(Some(f), id) == Some(Answer(text)) <==>
            && f.Keys == {"protocolVersion", "id", "result"} && id != ""
            && f["protocolVersion"].text == [49] && f["id"].value == String(id) && f["result"].text == text
    ensures DecodeResponse(Some(f), id) == Some(Refusal(code)) <==>
            && f.Keys == {"protocolVersion", "id", "error"} && id != ""
            && f["protocolVersion"].text == [49] && f["id"].value == String(id)
            && RefusalCode(f["error"].value) == Some(code)
  {
  }

  /** An error object holds its code and nothing else. */
  lemma CodeIsRead(code: string)
    requires code != ""
    ensures RefusalCode(Object(map["code" := String(code)])) == Some(code)
    ensures RefusalCode(Object(map["code" := String("")])).None? && RefusalCode(Object(map[])).None?
    ensures RefusalCode(Object(map["reason" := String(code)])).None? && RefusalCode(Null).None?
  {
    var one, two := map["code" := String(code)], map["reason" := String(code)];
    var three := map["code" := String("")];
    assert forall k | k in one :: k == "code";
    assert forall k | k in two :: k == "reason";
    assert forall k | k in three :: k == "code";
    assert |one| == 1 && |two| == 1 && |three| == 1;
  }

  /** A request is sent if and only if it can be encoded in at most 65535 bytes. */
  lemma WireIff(c: Codec, request: Request, id: string, wire: Bytes)
    ensures Wire(c, request, id) == Some(wire) <==> c.marshal(request.(id := id)) == Some(wire) && |wire| <= 65535
  {
  }

  /** A fair frame keeps the adapter alive and gives the caller its response; any other frame closes the adapter. */
  lemma FrameDecides(c: Codec, a: Adapter, request: Request, dropped: nat)
    requires Alive(a) && Wire(c, request, Text.Decimal(NextId(a.counter))).Some? && FrameOf(a.unread).Frame?
    ensures var id, frame := Text.Decimal(NextId(a.counter)), FrameOf(a.unread).body;
            var b, response := Exchange(c, a, request, Reads(dropped)), DecodeResponse(c.fields(frame), id);
            && (Alive(b) <==> response.Some? && IsFairResponse(c, response.value))
            && |b.calls| == |a.calls| + 1
            && (Alive(b) ==> b.calls[|a.calls|].outcome == OutcomeOf(response.value))
  {
    JudgeIff(c, FrameOf(a.unread).body, Text.Decimal(NextId(a.counter)));
    hide Judge, DecodeResponse, IsFairResponse, FrameOf;
  }

  /** A child answers every written request by one fair frame. */
  predicate Honest(c: Codec, answers: seq<Bytes>, ids: seq<string>) {
    |answers| == |ids| && forall k | 0 <= k < |ids| :: IsFairFrame(c, answers[k], ids[k])
  }

  function CallsOf(requests: seq<Request>, dropped: nat): seq<Event> {
    seq(|requests|, i requires 0 <= i < |requests| => Call(requests[i], Reads(dropped)))
  }

  function OutcomesOf(calls: seq<CallRecord>): seq<Result<Bytes, Error>> {
    seq(|calls|, i requires 0 <= i < |calls| => calls[i].outcome)
  }

  /** One request of an honest exchange. */
  lemma HonestStep(c: Codec, a: Adapter, request: Request, dropped: nat, answers: seq<Bytes>, tail: Bytes)
    requires Alive(a) && a.unread == Encode(answers) + tail
    requires var id := Text.Decimal(NextId(a.counter));
             Wire(c, request, id).Some? ==> answers != [] && IsFairFrame(c, answers[0], id)
    ensures var id := Text.Decimal(NextId(a.counter));
            var b := Exchange(c, a, request, Reads(dropped));
            && Alive(b) && b.counter == NextId(a.counter) && |b.calls| == |a.calls| + 1 && a.calls <= b.calls
            && b.unread == (if Wire(c, request, id).None? then a.unread else Encode(answers[1..]) + tail)
            && b.calls[|a.calls|].outcome ==
               if Wire(c, request, id).None? then Err(PayloadTooLarge)
               else AnsweredBy(c, answers[0], id)
  {
    var id := Text.Decimal(NextId(a.counter));
    if Wire(c, request, id).Some? {
      JudgeIff(c, answers[0], id);
      hide Judge, DecodeResponse, Text.Decimal;
      assert a.unread == answers[0] + [LF] + (Encode(answers[1..]) + tail);
      TakesFrame(c, a, request, dropped, answers[0], Encode(answers[1..]) + tail);
    }
  }

  /** The answers left once the first request was served. */
  function AnswersLeft(c: Codec, counter: nat, requests: seq<Request>, answers: seq<Bytes>): seq<Bytes>
    requires requests != [] && |answers| == |WrittenIds(c, counter, requests)|
  {
    if Wire(c, requests[0], Text.Decimal(NextId(counter))).Some? then answers[1..] else answers
  }

  lemma HonestRest(c: Codec, counter: nat, requests: seq<Request>, answers: seq<Bytes>)
    requires requests != [] && Honest(c, answers, WrittenIds(c, counter, requests))
    ensures Honest(c, AnswersLeft(c, counter, requests, answers), WrittenIds(c, NextId(counter), requests[1..]))
  {
    hide Judge, Wire, IsFairFrame;
    var id, ids, more := Text.Decimal(NextId(counter)), WrittenIds(c, counter, requests),
        WrittenIds(c, NextId(counter), requests[1..]);
    if Wire(c, requests[0], id).Some? {
      assert ids == [id] + more;
      forall k | 0 <= k < |more|
        ensures IsFairFrame(c, answers[1..][k], more[k])
      {
        assert answers[1..][k] == answers[k + 1] && more[k] == ids[k + 1];
      }
    } else {
      assert ids == [] + more;
      assert ids == more;
    }
  }

  /**
   A child that answers each written request by one well-formed frame under the same id is never
   discarded, and the k-th written request gets the k-th answer, even when oversized requests in
   between use up ids without being written.
   */
  lemma {:induction false} HonestChildNeverFails(c: Codec, a: Adapter, requests: seq<Request>, dropped: nat,
      answers: seq<Bytes>, tail: Bytes)
    requires Alive(a) && a.unread == Encode(answers) + tail
    requires Honest(c, answers, WrittenIds(c, a.counter, requests))
    ensures var b := Run(c, a, CallsOf(requests, dropped));
            && Alive(b) && b.unread == tail
            && a.calls <= b.calls
            && OutcomesOf(b.calls[|a.calls|..]) == Outcomes(c, a.counter, requests, answers)
    decreases |requests|
  {
    if requests == [] {
      assert a.unread == tail;
      assert OutcomesOf(a.calls[|a.calls|..]) == [];
    } else {
      HonestFirst(c, a, requests, dropped, answers, tail);
      hide *;
      var b := Exchange(c, a, requests[0], Reads(dropped));
      HonestRest(c, a.counter, requests, answers);
      HonestChildNeverFails(c, b, requests[1..], dropped, AnswersLeft(c, a.counter, requests, answers), tail);
      OutcomesJoin(a.calls, b.calls, Run(c, b, CallsOf(requests[1..], dropped)).calls);
    }
  }

  lemma OutcomesJoin(a: seq<CallRecord>, b: seq<CallRecord>, d: seq<CallRecord>)
    requires a <= b <= d && |b| == |a| + 1
    ensures a <= d && OutcomesOf(d[|a|..]) == [b[|a|].outcome] + OutcomesOf(d[|b|..])
  {
    assert d[|a|] == b[|a|];
  }

  /** The first of the calls, and what is left of requests and answers. */
  lemma HonestFirst(c: Codec, a: Adapter, requests: seq<Request>, dropped: nat, answers: seq<Bytes>, tail: Bytes)
    requires requests != [] && Alive(a) && a.unread == Encode(answers) + tail
    requires Honest(c, answers, WrittenIds(c, a.counter, requests))
    ensures var b, left := Exchange(c, a, requests[0], Reads(dropped)), AnswersLeft(c, a.counter, requests, answers);
            && Alive(b) && b.unread == Encode(left) + tail && b.counter == NextId(a.counter)
            && |b.calls| == |a.calls| + 1 && a.calls <= b.calls
            && |left| == |WrittenIds(c, b.counter, requests[1..])|
            && Outcomes(c, a.counter, requests, answers) ==
               [b.calls[|a.calls|].outcome] + Outcomes(c, b.counter, requests[1..], left)
            && Run(c, a, CallsOf(requests, dropped)) == Run(c, b, CallsOf(requests[1..], dropped))
  {
    hide Judge, Wire, IsFairFrame, Exchange, DecodeResponse, AnsweredBy;
    assert Wire(c, requests[0], Text.Decimal(NextId(a.counter))).Some? ==>
        WrittenIds(c, a.counter, requests)[0] == Text.Decimal(NextId(a.counter));
    HonestStep(c, a, requests[0], dropped, answers, tail);
    assert CallsOf(requests, dropped)[1..] == CallsOf(requests[1..], dropped);
  }

  // --- Duplicate responses ---

  /** A frame that answers one request answers no other. */
  lemma AnswersOneId(fields: Option<map<string, Raw>>, a: string, b: string)
    requires a != b && DecodeResponse(fields, a).Some?
    ensures DecodeResponse(fields, b).None?
  {
  }

  /** A call that finds an accepted frame first in line takes it. */
  lemma TakesFrame(c: Codec, a: Adapter, request: Request, dropped: nat, f: Bytes, rest: Bytes)
    requires Alive(a) && a.unread == f + [LF] + rest && IsFrameBody(f)
    requires Wire(c, request, Text.Decimal(NextId(a.counter))).Some?
    ensures var b, v := Exchange(c, a, request, Reads(dropped)), Judge(c, f, Text.Decimal(NextId(a.counter)));
            && b.counter == NextId(a.counter) && b.closed == v.fatal && !b.exited && b.unread == rest
            && |b.calls| == |a.calls| + 1 && a.calls <= b.calls && b.calls[|a.calls|].outcome == v.outcome
  {
    hide Judge;
    FrameRoundTrip(f, rest);
    assert a.unread[|f| + 1..] == rest;
  }

  /** Consecutive ids differ, also where the counter wraps around. */
  lemma NextIdDiffers(counter: nat)
    ensures Text.Decimal(NextId(counter)) != Text.Decimal(NextId(NextId(counter)))
  {
    Text.DecimalInjective(NextId(counter), NextId(NextId(counter)));
  }

  /**
   A duplicate response is not noticed by the call it answers, which gets its outcome; it discards the
   child at the next call, which never sees it as its own answer.
   */
  lemma DuplicateFailsNextCall(c: Codec, a: Adapter, first: Request, second: Request, dropped: nat, f: Bytes,
      rest: Bytes, x: string, y: string)
    requires Alive(a) && a.unread == f + [LF] + (f + [LF] + rest) && IsFrameBody(f)
    requires x == Text.Decimal(NextId(a.counter)) && y == Text.Decimal(NextId(NextId(a.counter)))
    requires Wire(c, first, x).Some? && Wire(c, second, y).Some? && !Judge(c, f, x).fatal
    ensures var b := Run(c, a, [Call(first, Reads(dropped)), Call(second, Reads(dropped))]);
            && b.closed && a.calls <= b.calls
            && OutcomesOf(b.calls[|a.calls|..]) == [Judge(c, f, x).outcome, Err(MalformedResponse)]
  {
    hide *;
    NextIdDiffers(a.counter);
    RejectsOtherId(c, f, x, y);
    TakesFrame(c, a, first, dropped, f, f + [LF] + rest);
    var b := Exchange(c, a, first, Reads(dropped));
    AliveUnless(b);
    TakesFrame(c, b, second, dropped, f, rest);
    var d := Exchange(c, b, second, Reads(dropped));
    RunTwoCalls(c, a, first, second, dropped);
    TwoOutcomes(a.calls, b.calls, d.calls);
  }

  lemma AliveUnless(a: Adapter)
    ensures !a.exited && !a.closed ==> Alive(a)
  {
  }

  lemma TwoOutcomes(a: seq<CallRecord>, b: seq<CallRecord>, d: seq<CallRecord>)
    requires a <= b <= d && |d| == |b| + 1 == |a| + 2
    ensures OutcomesOf(d[|a|..]) == [b[|a|].outcome, d[|b|].outcome]
  {
    assert d[|a|..] == [b[|a|], d[|b|]];
  }

  lemma RejectsOtherId(c: Codec, f: Bytes, x: string, y: string)
    requires x != y && !Judge(c, f, x).fatal
    ensures Judge(c, f, y) == Verdict(Err(MalformedResponse), true)
  {
    AnswersOneId(c.fields(f), x, y);
  }

  lemma RunTwoCalls(c: Codec, a: Adapter, first: Request, second: Request, dropped: nat)
    ensures Run(c, a, [Call(first, Reads(dropped)), Call(second, Reads(dropped))])
            == Exchange(c, Exchange(c, a, first, Reads(dropped)), second, Reads(dropped))
  {
    hide Exchange;
    var events := [Call(first, Reads(dropped)), Call(second, Reads(dropped))];
    var b := Exchange(c, a, first, Reads(dropped));
    assert events[1..] == [Call(second, Reads(dropped))];
    assert Run(c, b, events[1..]) == Run(c, Exchange(c, b, second, Reads(dropped)), []);
  }
}
