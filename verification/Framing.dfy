/**
 The byte framing of the Adapter stdio protocol: a buffered reader over the child's
 standard output, the frame reader on top of it, and the full write on standard input.
 Chunking is nondeterministic everywhere: a fill delivers any positive number of bytes
 and a write takes any number of them.
 */
module Framing {
  import opened Wrappers

  newtype byte = x: int | 0 <= x < 256

  type Bytes = seq<byte>

  const LF: byte := 10
  const MAX_FRAME_BYTES: nat := 65536

  /** The first `n` bytes hold no line feed. */
  predicate Clean(s: Bytes, n: nat)
    requires n <= |s|
  {
    forall i | 0 <= i < n :: s[i] != LF
  }

  /** The position of the first line feed, or the length of `s` when it has none. */
  function LineEnd(s: Bytes): (k: nat)
    ensures k <= |s| && Clean(s, k)
    ensures k < |s| ==> s[k] == LF
  {
    if s == [] || s[0] == LF then 0 else 1 + LineEnd(s[1..])
  }

  datatype FrameResult = Frame(body: Bytes) | TooLarge | Malformed | Eof

  /**
   What reading one frame yields on a stream whose bytes, up to end of file, are `s`:
   it says nothing of buffers or chunks.
   */
  function FrameOf(s: Bytes): FrameResult {
    var k := LineEnd(s);
    if k >= MAX_FRAME_BYTES && |s| > MAX_FRAME_BYTES then TooLarge
    else if k == |s| then Eof
    else if k == 0 then Malformed
    else Frame(s[..k])
  }

  /** The bodies the framing can carry. */
  predicate IsFrameBody(f: Bytes) {
    0 < |f| < MAX_FRAME_BYTES && LF !in f
  }

  /** A body followed by a line feed is read back, whatever follows, exactly when it is a frame body. */
  lemma FrameRoundTrip(f: Bytes, tail: Bytes)
    ensures FrameOf(f + [LF] + tail) == Frame(f) <==> IsFrameBody(f)
  {
    var s := f + [LF] + tail;
    assert s[..|f|] == f && s[|f|] == LF;
  }

  /** A successful read splits the stream at the frame it returns. */
  lemma FrameSplits(s: Bytes)
    requires FrameOf(s).Frame?
    ensures var f := FrameOf(s).body; IsFrameBody(f) && |f| < |s| && s == f + [LF] + s[|f| + 1..]
  {
  }

  /** The bytes of consecutive frames. */
  function Encode(frames: seq<Bytes>): Bytes {
    if frames == [] then [] else frames[0] + [LF] + Encode(frames[1..])
  }

  lemma {:induction false} EncodeAppend(frames: seq<Bytes>, f: Bytes)
    ensures Encode(frames + [f]) == Encode(frames) + (f + [LF])
  {
    if frames == [] {
      assert frames + [f] == [f];
    } else {
      assert (frames + [f])[1..] == frames[1..] + [f];
      EncodeAppend(frames[1..], f);
    }
  }

  /** Reading `n` frames in a row: the results, and what is left when all of them succeed. */
  function ReadFrames(s: Bytes, n: nat): (seq<FrameResult>, Bytes) {
    if n == 0 then ([], s)
    else
      var r := FrameOf(s);
      if r.Frame? then
        var (more, rest) := ReadFrames(s[|r.body| + 1..], n - 1);
        ([r] + more, rest)
      else ([r], s)
  }

  function Delivered(frames: seq<Bytes>): seq<FrameResult> {
    seq(|frames|, i requires 0 <= i < |frames| => Frame(frames[i]))
  }

  lemma ReadsFirst(f: Bytes, rest: Bytes, n: nat)
    requires IsFrameBody(f)
    ensures var (more, left) := ReadFrames(rest, n); ReadFrames(f + [LF] + rest, n + 1) == ([Frame(f)] + more, left)
  {
    FrameRoundTrip(f, rest);
    hide FrameOf, IsFrameBody;
    assert (f + [LF] + rest)[|f| + 1..] == rest;
  }

  lemma EncodeFirst(frames: seq<Bytes>, tail: Bytes)
    ensures if frames == [] then Encode(frames) + tail == tail
            else Encode(frames) + tail == frames[0] + [LF] + (Encode(frames[1..]) + tail)
  {
  }

  lemma DeliveredFirst(frames: seq<Bytes>)
    ensures if frames == [] then Delivered(frames) == []
            else Delivered(frames) == [Frame(frames[0])] + Delivered(frames[1..])
  {
  }

  /** Reading back n written frames yields exactly those frames, in order, and nothing of the tail. */
  lemma {:induction false} ReadBack(frames: seq<Bytes>, tail: Bytes)
    requires forall f | f in frames :: IsFrameBody(f)
    ensures ReadFrames(Encode(frames) + tail, |frames|) == (Delivered(frames), tail)
  {
    assert ReadFrames(tail, 0) == ([], tail);
    hide *;
    EncodeFirst(frames, tail);
    DeliveredFirst(frames);
    if frames != [] {
      ReadBack(frames[1..], tail);
      ReadsFirst(frames[0], Encode(frames[1..]) + tail, |frames| - 1);
    }
  }

  /** Equal encodings of frame bodies come from equal frames: the framing is unambiguous. */
  lemma {:induction false} EncodeInjective(a: seq<Bytes>, b: seq<Bytes>)
    requires forall f | f in a :: IsFrameBody(f)
    requires forall f | f in b :: IsFrameBody(f)
    requires Encode(a) == Encode(b)
    ensures a == b
  {
    if a != [] && b != [] {
      FrameRoundTrip(a[0], Encode(a[1..]));
      FrameRoundTrip(b[0], Encode(b[1..]));
      assert Encode(a)[|a[0]| + 1..] == Encode(a[1..]);
      assert Encode(b)[|b[0]| + 1..] == Encode(b[1..]);
      EncodeInjective(a[1..], b[1..]);
    }
  }

  datatype SliceStatus = Found | BufferFull | End

  predicate IsSuffix(s: Bytes, whole: Bytes) {
    |s| <= |whole| && s == whole[|whole| - |s|..]
  }

  /** A buffered reader: `rest` is everything the child has still to deliver before end of file. */
  class BufReader {
    const size: nat
    var buf: Bytes
    var rest: Bytes

    ghost predicate Valid() reads this {
      0 < size && |buf| <= size
    }

    ghost function Stream(): Bytes reads this {
      buf + rest
    }

    constructor (size: nat, stream: Bytes)
      requires 0 < size
      ensures Valid() && this.size == size && Stream() == stream
    {
      this.size, buf, rest := size, [], stream;
    }

    /** One read of the underlying pipe: any positive number of bytes that fits. */
    method Fill()
      requires Valid() && |buf| < size && rest != []
      modifies this
      ensures Valid() && Stream() == old(Stream()) && |rest| < old(|rest|)
    {
      var n: nat :| 0 < n <= |rest| && n <= size - |buf|;
      buf, rest := buf + rest[..n], rest[n..];
    }

    method ReadSlice() returns (part: Bytes, status: SliceStatus)
      requires Valid()
      modifies this
      ensures Valid() && Splits(old(Stream()), part, Stream())
      ensures part != [] ==> |Stream()| < |old(Stream())|
      ensures status.Found? ==> Ended(part)
      ensures status.BufferFull? ==> part != [] && |part| == size && LF !in part
      ensures status.End? ==> LF !in part && Stream() == []
    {
      while true
        invariant Valid() && Stream() == old(Stream())
        decreases |rest|
      {
        var k := LineEnd(buf);
        if k < |buf| {
          part, status := buf[..k + 1], Found;
          buf := buf[k + 1..];
          return;
        }
        if rest == [] {
          part, status, buf := buf, End, [];
          return;
        }
        if |buf| >= size {
          part, status, buf := buf, BufferFull, [];
          return;
        }
        Fill();
      }
    }
  }

  /** A slice that ends at the first line feed decides the frame. */
  lemma FoundDecides(taken: Bytes, rest: Bytes)
    requires taken != [] && taken[|taken| - 1] == LF && LF !in taken[..|taken| - 1]
    ensures FrameOf(taken + rest) ==
            if |taken| > MAX_FRAME_BYTES then TooLarge
            else if |taken| < 2 then Malformed
            else Frame(taken[..|taken| - 1])
  {
    var s := taken + rest;
    assert s[..|taken| - 1] == taken[..|taken| - 1] && s[|taken| - 1] == LF;
    assert forall i | 0 <= i < |taken| - 1 :: s[i] == taken[..|taken| - 1][i];
  }

  /** Bytes without a line feed decide the frame only by their number or by the end of file. */
  lemma CleanDecides(taken: Bytes, rest: Bytes)
    requires LF !in taken
    ensures |taken| > MAX_FRAME_BYTES ==> FrameOf(taken + rest) == TooLarge
    ensures |taken| <= MAX_FRAME_BYTES && rest == [] ==> FrameOf(taken + rest) == Eof
  {
    var s := taken + rest;
    assert forall i | 0 <= i < |taken| :: s[i] == taken[i];
  }

  predicate Splits(whole: Bytes, taken: Bytes, rest: Bytes) {
    whole == taken + rest
  }

  lemma NothingTaken(whole: Bytes)
    ensures Splits(whole, [], whole)
  {
    assert [] + whole == whole;
  }

  /** What a slice adds to the bytes taken so far. */
  lemma SliceAdds(whole: Bytes, frame: Bytes, before: Bytes, part: Bytes, rest: Bytes)
    requires Splits(whole, frame, before) && Splits(before, part, rest) && LF !in frame
    ensures Splits(whole, frame + part, rest) && IsSuffix(rest, whole)
    ensures LF !in part ==> LF !in frame + part
    ensures Ended(part) ==> Ended(frame + part)
  {
    assert whole == (frame + part) + rest;
    assert whole[|frame + part|..] == rest;
    if part != [] {
      assert (frame + part)[..|frame + part| - 1] == frame + part[..|part| - 1];
    }
  }

  /** A line feed at the end and nowhere before. */
  predicate Ended(taken: Bytes) {
    taken != [] && taken[|taken| - 1] == LF && LF !in taken[..|taken| - 1]
  }

  /** What the bytes taken so far mean after a slice that ended so: a decided frame, or nothing yet. */
  function Decide(taken: Bytes, status: SliceStatus): (r: Option<FrameResult>) {
    if |taken| > MAX_FRAME_BYTES then Some(TooLarge)
    else if status.BufferFull? then None
    else if status.End? then Some(Eof)
    else if |taken| < 2 || taken[|taken| - 1] != LF then Some(Malformed)
    else Some(Frame(taken[..|taken| - 1]))
  }

  lemma BodyEnds(taken: Bytes, rest: Bytes)
    requires taken != [] && taken[|taken| - 1] == LF
    ensures taken + rest == taken[..|taken| - 1] + [LF] + rest
  {
    assert taken == taken[..|taken| - 1] + [LF];
  }

  lemma DecideDecides(whole: Bytes, taken: Bytes, rest: Bytes, status: SliceStatus)
    requires Splits(whole, taken, rest)
    requires if status.Found? then Ended(taken) else LF !in taken
    requires status.End? ==> rest == []
    ensures var r := Decide(taken, status);
            && (r.Some? ==> r.value == FrameOf(whole))
            && (r.Some? && r.value.Frame? ==> whole == r.value.body + [LF] + rest)
            && (r.None? ==> status.BufferFull? && LF !in taken && |taken| <= MAX_FRAME_BYTES)
  {
    hide FrameOf;
    if status.Found? {
      FoundDecides(taken, rest);
      BodyEnds(taken, rest);
    } else {
      CleanDecides(taken, rest);
    }
  }

  /** The frame reader returns the frame the stream holds, for every buffer size and every chunking. */
  method ReadProtocolFrame(reader: BufReader) returns (r: FrameResult)
    requires reader.Valid()
    modifies reader
    ensures reader.Valid()
    ensures r == FrameOf(old(reader.Stream()))
    ensures r.Frame? ==> old(reader.Stream()) == r.body + [LF] + reader.Stream()
    ensures IsSuffix(reader.Stream(), old(reader.Stream()))
  {
    hide *;
    ghost var whole := reader.Stream();
    NothingTaken(whole);
    var frame: Bytes := [];
    while true
      invariant reader.Valid() && Splits(whole, frame, reader.Stream())
      invariant LF !in frame && |frame| <= MAX_FRAME_BYTES
      decreases |reader.Stream()|
    {
      ghost var before := reader.Stream();
      var part, status := reader.ReadSlice();
      SliceAdds(whole, frame, before, part, reader.Stream());
      frame := frame + part;
      DecideDecides(whole, frame, reader.Stream(), status);
      var decided := Decide(frame, status);
      if decided.Some? {
        return decided.value;
      }
    }
  }

  /**
   The child's standard input: a write takes a prefix of the data and may report an error. `failed` tells of
   the last one.
   */
  class Pipe {
    var sink: Bytes
    ghost var failed: bool

    constructor ()
      ensures sink == [] && !failed
    {
      sink, failed := [], false;
    }

    method Write(data: Bytes) returns (written: nat, ok: bool)
      modifies this
      ensures written <= |data| && sink == old(sink) + data[..written]
      ensures failed <==> !ok || written == 0
    {
      written :| 0 <= written <= |data|;
      ok :| true;
      sink := sink + data[..written];
      failed := !ok || written == 0;
    }
  }

  /** A full write delivers all of the data, unless a write fails; then a prefix of it was delivered. */
  method WriteFull(writer: Pipe, data: Bytes) returns (ok: bool)
    modifies writer
    ensures data != [] ==> (ok <==> !writer.failed)
    ensures ok ==> writer.sink == old(writer.sink) + data
    ensures !ok ==> exists k | 0 <= k <= |data| :: writer.sink == old(writer.sink) + data[..k]
  {
    var left := data;
    ghost var done: nat := 0;
    while |left| > 0
      invariant done <= |data| && left == data[done..]
      invariant writer.sink == old(writer.sink) + data[..done]
      invariant done > 0 ==> !writer.failed
      decreases |left|
    {
      var written, fine := writer.Write(left);
      assert data[..done] + left[..written] == data[..done + written];
      done := done + written;
      if !fine || written == 0 {
        return false;
      }
      left := left[written..];
    }
    return true;
  }

  // --- The cases of a frame, in plain numbers ---

  /** A line of 1 to 65535 bytes is a frame. */
  lemma LineIsFrame(f: Bytes, tail: Bytes)
    requires 1 <= |f| <= 65535 && 10 !in f
    ensures FrameOf(f + [10] + tail) == Frame(f)
  {
    FrameRoundTrip(f, tail);
  }

  /** An empty line is malformed. */
  lemma EmptyLineIsMalformed(tail: Bytes)
    ensures FrameOf([10] + tail) == Malformed
  {
    var s := [10] + tail;
    assert s[0] == LF;
  }

  /** 65536 bytes without a line feed, and more to come, are too large; any longer line is. */
  lemma LongLineIsTooLarge(f: Bytes, tail: Bytes)
    requires |f| >= 65536 && 10 !in f && tail != []
    ensures FrameOf(f + tail) == TooLarge
  {
    assert forall i | 0 <= i < |f| :: (f + tail)[i] == f[i];
  }

  /** A stream that ends before its line does, within the limit, is at its end. */
  lemma UnendedLineIsEof(f: Bytes)
    requires |f| <= 65536 && 10 !in f
    ensures FrameOf(f) == Eof
  {
  }
}
