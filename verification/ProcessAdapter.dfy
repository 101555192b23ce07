/** The daemon-owned Adapter process: the object whose calls the protocol model describes, and its construction. */
module ProcessAdapter {
  import opened Wrappers
  import opened Framing
  import opened AdapterProtocol
  import Registration
  import Text

  const MAX_DESCRIPTOR_BYTES: nat := 1024
  const READER_SIZE: nat := 4096

  datatype ActionSchema = ActionSchema(name: string, title: string, properties: map<string, string>,
      required: seq<string>)

  datatype Descriptor = Descriptor(id: string, title: string, version: string, observe: bool,
      actions: seq<ActionSchema>)

  const NO_DESCRIPTOR := Descriptor("", "", "", false, [])

  /** Strict decoding, validity and encoded size of descriptors. */
  datatype Metadata = Metadata(
    list: Bytes -> Option<seq<Descriptor>>,
    one: Bytes -> Option<Descriptor>,
    valid: Descriptor -> bool,
    size: Descriptor -> nat)

  /** Which arm of the select a call that has sent its request takes. */
  datatype Arm = Deadline | ChildExit | FrameArrives

  class ProcessAdapter {
    const codec: Codec
    const stdin: Pipe
    const stdout: BufReader
    var descriptor: Descriptor
    var request: nat
    var closed: bool
    var exited: bool
    ghost var readers: nat
    ghost var written: seq<string>
    ghost var consumed: seq<Bytes>
    ghost var calls: seq<CallRecord>

    ghost predicate Valid() reads this, stdout {
      stdout.Valid() && request < REQUEST_IDS
    }

    ghost function View(): Adapter reads this, stdout {
      Adapter(request, closed, exited, stdout.Stream(), readers, written, consumed, calls)
    }

    constructor (codec: Codec, output: Bytes)
      ensures Valid() && View() == Fresh(output) && this.codec == codec && descriptor == NO_DESCRIPTOR
      ensures fresh(stdin) && fresh(stdout) && stdin.sink == []
    {
      this.codec := codec;
      stdin := new Pipe();
      stdout := new BufReader(READER_SIZE, output);
      descriptor, request, closed, exited := NO_DESCRIPTOR, 0, false, false;
      readers, written, consumed, calls := 0, [], [], [];
    }

    predicate IsAlive() reads this {
      !exited && !closed
    }

    /** What the adapter describes: nothing once it is not alive. */
    function Describe(): Descriptor reads this {
      if IsAlive() then descriptor else NO_DESCRIPTOR
    }

    /** What befell an exchange that got as far as writing: a failed write, or else the arm taken. */
    twostate predicate Befell(r: Request, arm: Arm, fate: Fate) reads this, stdin, stdout {
      old(IsAlive()) && Wire(codec, r, Text.Decimal(NextId(old(request)))).Some? ==>
        if stdin.failed then fate.WriteFails?
        else match arm
             case Deadline => fate.TimesOut?
             case ChildExit => fate.Exits?
             case FrameArrives => fate.Reads? && fate.dropped + |stdout.Stream()| == |old(stdout.Stream())|
    }

    ghost method Record(r: CallRecord)
      modifies this`calls
      ensures calls == old(calls) + [r]
    {
      calls := calls + [r];
    }

    /** `fail`: the adapter is closed for good and the child is killed. */
    method Fail()
      modifies this`closed
      ensures closed
    {
      closed := true;
    }

    method Close()
      modifies this`closed, this`exited
      ensures closed && (old(exited) ==> exited) && (old(closed) ==> exited == old(exited))
    {
      if closed {
        return;
      }
      closed := true;
      // The child is given time to leave, then killed; either way it may still linger.
      var gone: bool :| true;
      exited := exited || gone;
    }

    /**
     One exchange does what the protocol model says under the fate that befell it, and returns the outcome it records.
     The request reaches the child whole when it counts as written, and not at all when the adapter is
     not alive or the request is too large.
     */
    method ExchangeCall(r: Request, arm: Arm) returns (outcome: Result<Bytes, Error>, ghost fate: Fate)
      requires Valid()
      modifies this, stdin, stdout
      ensures Valid() && View() == Exchange(codec, old(View()), r, fate) && Befell(r, arm, fate)
      ensures View().calls[|old(calls)|].outcome == outcome
      ensures descriptor == old(descriptor)
      ensures var wire := Wire(codec, r, Text.Decimal(NextId(old(request))));
              if !old(IsAlive()) || wire.None? then stdin.sink == old(stdin.sink)
              else written != old(written) ==> stdin.sink == old(stdin.sink) + wire.value + [LF]
      ensures KeepsFair(r, arm, outcome)
    {
      hide Exchange, DecodeResponse, Wire, FrameOf, IsFairResponse;
      ghost var before := View();
      outcome, fate := ExchangeOnce(r, arm);
      if fate.Reads? && Alive(before) && Wire(codec, r, Text.Decimal(NextId(before.counter))).Some?
         && FrameOf(before.unread).Frame? {
        FrameDecides(codec, before, r, fate.dropped);
      }
    }

    /** A fair response leaves the adapter alive and is the outcome; a frame with any other closes it. */
    twostate predicate KeepsFair(r: Request, arm: Arm, outcome: Result<Bytes, Error>) reads this, stdin, stdout {
      var id := Text.Decimal(NextId(old(request)));
      old(IsAlive()) && Wire(codec, r, id).Some? && !stdin.failed && arm.FrameArrives?
      && FrameOf(old(stdout.Stream())).Frame? ==>
        var response := DecodeResponse(codec.fields(FrameOf(old(stdout.Stream())).body), id);
        && (IsAlive() <==> response.Some? && IsFairResponse(codec, response.value))
        && (IsAlive() ==> outcome == OutcomeOf(response.value))
    }

    method ExchangeOnce(r: Request, arm: Arm) returns (outcome: Result<Bytes, Error>, ghost fate: Fate)
      requires Valid()
      modifies this, stdin, stdout
      ensures Valid() && View() == Exchange(codec, old(View()), r, fate) && Befell(r, arm, fate)
      ensures View().calls[|old(calls)|].outcome == outcome
      ensures descriptor == old(descriptor)
      ensures var wire := Wire(codec, r, Text.Decimal(NextId(old(request))));
              if !old(IsAlive()) || wire.None? then stdin.sink == old(stdin.sink)
              else written != old(written) ==> stdin.sink == old(stdin.sink) + wire.value + [LF]
    {
      hide Judge, Received, FrameOf, DecodeResponse, Text.Decimal, Text.DigitsValue;
      fate := WriteFails;
      if !IsAlive() {
        Record(CallRecord("", None, None, Err(Unavailable)));
        return Err(Unavailable), fate;
      }
      request := (request + 1) % REQUEST_IDS;
      var id := Text.Decimal(request);
      var wire := codec.marshal(r.(id := id));
      if wire.None? || |wire.value| + 1 > MAX_FRAME_BYTES {
        Record(CallRecord(id, None, None, Err(PayloadTooLarge)));
        return Err(PayloadTooLarge), fate;
      }
      assert Wire(codec, r, id) == wire;
      var sent := WriteFull(stdin, wire.value + [LF]);
      if !sent {
        Fail();
        Record(CallRecord(id, None, None, Err(Unavailable)));
        return Err(Unavailable), fate;
      }
      assert old(stdin.sink) + (wire.value + [LF]) == old(stdin.sink) + wire.value + [LF];
      written := written + [id];
      outcome, fate := Await(id, |written| - 1, arm);
    }

    /** The select of a call that has sent its request: deadline, exit of the child, or a frame. */
    method Await(id: string, ghost w: nat, arm: Arm) returns (outcome: Result<Bytes, Error>, ghost fate: Fate)
      requires Valid() && IsAlive() && |written| == w + 1 && written[w] == id
      modifies this, stdout
      ensures Valid() && View() == Sent(codec, old(View()).(written := old(written)[..w]), id, fate)
      ensures View().calls[|old(calls)|].outcome == outcome
      ensures match arm case Deadline => fate.TimesOut? case ChildExit => fate.Exits?
                        case FrameArrives => fate.Reads? && fate.dropped + |stdout.Stream()| == |old(stdout.Stream())|
      ensures descriptor == old(descriptor)
    {
      assert written == written[..w] + [id];
      if arm.Deadline? {
        readers := readers + 1;
        Fail();
        Record(CallRecord(id, Some(w), None, Err(Timeout)));
        return Err(Timeout), TimesOut;
      } else if arm.ChildExit? {
        readers := readers + 1;
        exited := true;
        Fail();
        Record(CallRecord(id, Some(w), None, Err(Unavailable)));
        return Err(Unavailable), Exits;
      } else {
        outcome, fate := ReceiveFrame(id, w);
      }
    }

    /** The third arm of the select: the frame reader has delivered. */
    method ReceiveFrame(id: string, ghost w: nat) returns (outcome: Result<Bytes, Error>, ghost fate: Fate)
      requires Valid() && IsAlive()
      modifies this, stdout
      ensures Valid() && fate.Reads? && View() == Received(codec, old(View()), id, w, fate.dropped)
      ensures fate.dropped + |stdout.Stream()| == |old(stdout.Stream())|
      ensures View().calls[|old(calls)|].outcome == outcome
      ensures descriptor == old(descriptor) && written == old(written)
    {
      hide Judge, IsFrameBody;
      ghost var before := stdout.Stream();
      var frame := ReadProtocolFrame(stdout);
      fate := Reads(|before| - |stdout.Stream()|);
      if !frame.Frame? {
        Fail();
        outcome := Err(ReadError(frame));
        Record(CallRecord(id, Some(w), None, outcome));
        return;
      }
      assert stdout.Stream() == before[|frame.body| + 1..];
      ghost var n := |consumed|;
      consumed := consumed + [frame.body];
      var verdict := JudgeFrame(frame.body, id);
      if verdict.fatal {
        Fail();
      }
      outcome := verdict.outcome;
      Record(CallRecord(id, Some(w), Some(n), outcome));
    }

    /** The checks of a frame, in their order. */
    method JudgeFrame(frame: Bytes, id: string) returns (v: Verdict)
      ensures v == Judge(codec, frame, id)
    {
      var response := DecodeResponse(codec.fields(frame), id);
      if response.None? {
        return Verdict(Err(MalformedResponse), true);
      }
      if response.value.Refusal? {
        var mapped := ErrorOfCode(response.value.code);
        return Verdict(Err(mapped), mapped.MalformedResponse?);
      }
      if |response.value.result| > MAX_RESULT_BYTES {
        return Verdict(Err(PayloadTooLarge), true);
      }
      if codec.unsafePayload(response.value.result) {
        return Verdict(Err(MalformedResponse), true);
      }
      return Verdict(Ok(response.value.result), false);
    }
  }

  /**
   What a successful construction has seen: the child answered exactly a list of one valid, bounded
   descriptor and a description of it, and both agree.
   */
  ghost predicate PassedHandshake(m: Metadata, a: Adapter, d: Descriptor) {
    && !a.closed && |a.calls| == 2
    && a.written == [Text.Decimal(1), Text.Decimal(2)] && |a.consumed| == 2
    && a.calls[0].outcome.Ok? && m.list(a.calls[0].outcome.value) == Some([d])
    && a.calls[1].outcome.Ok? && m.one(a.calls[1].outcome.value) == Some(d)
    && m.valid(d) && m.size(d) <= MAX_DESCRIPTOR_BYTES
  }

  /** What comes of listing: exactly one valid, bounded descriptor, or the error that says what is wrong. */
  function FirstHalf(c: Codec, m: Metadata, listed: Result<Bytes, Error>): Result<Descriptor, Error> {
    match listed
    case Err(e) => Err(e)
    case Ok(text) =>
      match m.list(text)
      case None => Err(MalformedResponse)
      case Some(ds) =>
        if |ds| != 1 then Err(CapabilityCount)
        else if c.unsafePayload(text) || !m.valid(ds[0]) then Err(MalformedResponse)
        else if m.size(ds[0]) > MAX_DESCRIPTOR_BYTES then Err(PayloadTooLarge)
        else Ok(ds[0])
  }

  /** What comes of describing the capability that was listed as `d`. */
  function SecondHalf(c: Codec, m: Metadata, d: Descriptor, described: Result<Bytes, Error>)
      : Result<Descriptor, Error>
  {
    match described
    case Err(e) => Err(e)
    case Ok(text) =>
      if m.one(text) == Some(d) && m.valid(d) && !c.unsafePayload(text) then Ok(d) else Err(MalformedResponse)
  }

  /** Exactly a list of one valid, safe descriptor of at most 1024 bytes passes the first half. */
  lemma FirstHalfIff(c: Codec, m: Metadata, text: Bytes, d: Descriptor)
    ensures FirstHalf(c, m, Ok(text)) == Ok(d) <==>
            m.list(text) == Some([d]) && m.valid(d) && !c.unsafePayload(text) && m.size(d) <= 1024
    ensures m.list(text).None? ==> FirstHalf(c, m, Ok(text)) == Err(MalformedResponse)
    ensures m.list(text).Some? && |m.list(text).value| != 1 ==> FirstHalf(c, m, Ok(text)) == Err(CapabilityCount)
  {
    if m.list(text).Some? && |m.list(text).value| == 1 {
      assert m.list(text).value == [m.list(text).value[0]];
    }
  }

  /** Exactly a safe description of the same valid descriptor passes the second. */
  lemma SecondHalfIff(c: Codec, m: Metadata, d: Descriptor, text: Bytes, e: Descriptor)
    ensures SecondHalf(c, m, d, Ok(text)) == Ok(e) <==>
            e == d && m.one(text) == Some(d) && m.valid(d) && !c.unsafePayload(text)
    ensures SecondHalf(c, m, d, Ok(text)).Err? ==> SecondHalf(c, m, d, Ok(text)) == Err(MalformedResponse)
  {
  }

  /** The first call listed exactly `d`, and the second described it, both in bounds and safe. */
  predicate Agrees(c: Codec, m: Metadata, calls: seq<CallRecord>, d: Descriptor) {
    && |calls| == 2 && calls[0].outcome.Ok? && calls[1].outcome.Ok?
    && m.list(calls[0].outcome.value) == Some([d]) && m.one(calls[1].outcome.value) == Some(d)
    && !c.unsafePayload(calls[0].outcome.value) && !c.unsafePayload(calls[1].outcome.value)
    && m.valid(d) && m.size(d) <= 1024
  }

  /** The first half of the handshake: the child lists exactly one valid, bounded descriptor. */
  method ListOne(p: ProcessAdapter, m: Metadata, arm: Arm) returns (r: Result<Descriptor, Error>)
    requires p.Valid() && p.request == 0 && p.View() == Fresh(p.stdout.Stream())
    modifies p, p.stdin, p.stdout
    ensures p.Valid() && |p.calls| == 1 && r == FirstHalf(p.codec, m, p.calls[0].outcome)
    ensures r.Err? ==> p.closed
    ensures r.Ok? ==>
              var a := p.View();
              && Alive(a) && a.counter == 1 && a.written == [Text.Decimal(1)] && |a.consumed| == 1
              && a.calls[0].outcome.Ok? && m.list(a.calls[0].outcome.value) == Some([r.value])
              && m.valid(r.value) && m.size(r.value) <= MAX_DESCRIPTOR_BYTES
  {
    hide Exchange, DecodeResponse;
    ghost var before := p.View();
    var listed, fate := p.ExchangeCall(Request("", "list", "", "", []), arm);
    ExchangeAddsCall(p.codec, before, Request("", "list", "", "", []), fate);
    if listed.Err? {
      p.Close();
      return Err(listed.error);
    }
    SuccessfulExchange(p.codec, before, Request("", "list", "", "", []), fate);
    var descriptors := m.list(listed.value);
    if descriptors.None? {
      p.Fail();
      return Err(MalformedResponse);
    }
    if |descriptors.value| != 1 {
      p.Fail();
      return Err(CapabilityCount);
    }
    var d := descriptors.value[0];
    if p.codec.unsafePayload(listed.value) || !m.valid(d) {
      p.Fail();
      return Err(MalformedResponse);
    }
    if m.size(d) > MAX_DESCRIPTOR_BYTES {
      p.Fail();
      return Err(PayloadTooLarge);
    }
    assert descriptors.value == [d];
    return Ok(d);
  }

  /** The second half: describing that capability yields the same descriptor. */
  method DescribeOne(p: ProcessAdapter, m: Metadata, d: Descriptor, arm: Arm) returns (r: Result<Descriptor, Error>)
    requires p.Valid()
    modifies p, p.stdin, p.stdout
    ensures p.Valid() && |p.calls| == |old(p.calls)| + 1 && old(p.calls) <= p.calls
    ensures r == SecondHalf(p.codec, m, d, p.calls[|old(p.calls)|].outcome)
    ensures r.Err? ==> p.closed
    ensures r.Ok? ==>
              var a, b := old(p.View()), p.View();
              && Alive(b) && b.written == a.written + [Text.Decimal(NextId(a.counter))]
              && |b.consumed| == |a.consumed| + 1
              && b.calls[|a.calls|].outcome.Ok? && m.one(b.calls[|a.calls|].outcome.value) == Some(d)
  {
    hide Exchange, DecodeResponse;
    ghost var before := p.View();
    var described, fate := p.ExchangeCall(Request("", "describe", d.id, "", []), arm);
    ExchangeAddsCall(p.codec, before, Request("", "describe", d.id, "", []), fate);
    if described.Err? {
      p.Close();
      return Err(described.error);
    }
    SuccessfulExchange(p.codec, before, Request("", "describe", d.id, "", []), fate);
    var again := m.one(described.value);
    if again.None? || p.codec.unsafePayload(described.value) || !m.valid(again.value) || again.value != d {
      p.Fail();
      return Err(MalformedResponse);
    }
    return Ok(d);
  }

  /**
   Starts a child and shakes hands. A failure after the start always leaves the adapter closed: `made`
   is the adapter the attempt started, if any. The result is decided by the outcomes of its one or two calls.
   */
  method NewProcessAdapter(codec: Codec, m: Metadata, registration: Registration.Registration, starts: bool,
      output: Bytes, arms: (Arm, Arm))
    returns (r: Result<ProcessAdapter, Error>, ghost made: ProcessAdapter?)
    ensures !Registration.IsValid(registration) ==> r == Err(InvalidRegistration) && made == null
    ensures Registration.IsValid(registration) && !starts ==> r == Err(Unavailable) && made == null
    ensures Registration.IsValid(registration) && starts ==>
              made != null && fresh(made) && made.codec == codec && 1 <= |made.calls| <= 2
              && var first := FirstHalf(codec, m, made.calls[0].outcome);
                 if first.Err? then r == Err(first.error) && |made.calls| == 1
                 else
                   |made.calls| == 2
                   && var second := SecondHalf(codec, m, first.value, made.calls[1].outcome);
                      if second.Err? then r == Err(second.error) else r == Ok(made) && made.descriptor == first.value
    ensures r.Ok? ==> r.value.Valid() && PassedHandshake(m, r.value.View(), r.value.descriptor)
    ensures r.Ok? <==>
              && Registration.IsValid(registration) && starts
              && exists d :: Agrees(codec, m, made.calls, d) && made.descriptor == d
    ensures r.Err? && made != null ==> made.closed
  {
    hide Exchange, DecodeResponse;
    made := null;
    var valid := Registration.Valid(registration);
    if !valid {
      return Err(InvalidRegistration), null;
    }
    if !starts {
      return Err(Unavailable), null;
    }
    hide FirstHalf, SecondHalf;
    var p := new ProcessAdapter(codec, output);
    made := p;
    var listed := ListOne(p, m, arms.0);
    if listed.Err? {
      return Err(listed.error), made;
    }
    ghost var first := p.calls[0].outcome;
    FirstHalfIff(codec, m, first.value, listed.value);
    var described := DescribeOne(p, m, listed.value, arms.1);
    ghost var second := p.calls[1].outcome;
    if second.Ok? {
      SecondHalfIff(codec, m, listed.value, second.value, listed.value);
    }
    if described.Err? {
      return Err(described.error), made;
    }
    p.descriptor := listed.value;
    assert Agrees(codec, m, p.calls, listed.value);
    return Ok(p), made;
  }
}
