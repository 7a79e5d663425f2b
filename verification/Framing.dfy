/** Length-prefixed frames over a pipe that may deliver its bytes in any fragments. */
module Framing {
  import opened Wrappers

  type Byte = x: int | 0 <= x < 256
  type Bytes = seq<Byte>

  const MAX_FRAME_BYTES: nat := 4 * 1024 * 1024

  datatype FrameError = TimedOut | EndedEarly | InvalidFrame

  // ---------- the pipe ----------

  /** The reading end of a pipe.  `rest` is what has not been read yet; a patient pipe
      never makes its reader wait past the deadline. */
  class Pipe {
    var rest: Bytes
    const patient: bool

    constructor (bytes: Bytes, isPatient: bool)
      ensures rest == bytes && patient == isPatient
    {
      rest, patient := bytes, isPatient;
    }

    /** Waits until bytes are ready, then hands over any non-empty number of them up to
        `n`; nothing only at the end of the stream. */
    method Read(n: nat) returns (ready: bool, chunk: Bytes)
      requires n > 0
      modifies this
      ensures old(rest) == chunk + rest && |chunk| <= n
      ensures patient ==> ready
      ensures ready ==> (chunk == [] <==> old(rest) == [])
      ensures !ready ==> chunk == []
    {
      ready := true;
      chunk := [];
      if !patient {
        ready :| true;
        if !ready { return; }
      }
      if rest == [] { return; }
      assert 0 < 1 <= n && 1 <= |rest|;
      var k :| 0 < k <= n && k <= |rest|;
      chunk := rest[..k];
      rest := rest[k..];
    }
  }

  /** Reads exactly `size` bytes however they are fragmented, and not one byte more. */
  method ReadExact(pipe: Pipe, size: nat) returns (r: Result<Bytes, FrameError>)
    modifies pipe
    ensures r.Success? ==> |r.value| == size && old(pipe.rest) == r.value + pipe.rest
    ensures r.Failure? ==> |old(pipe.rest)| - size <= |pipe.rest| <= |old(pipe.rest)|
    ensures r == Failure(EndedEarly) ==> |old(pipe.rest)| < size && pipe.rest == []
    ensures r.Failure? ==> r.error == TimedOut || r.error == EndedEarly
    ensures pipe.patient ==> (r.Success? <==> size <= |old(pipe.rest)|) && r != Failure(TimedOut)
  {
    var chunks: Bytes := [];
    var remaining := size;
    while remaining > 0
      invariant remaining >= 0 && remaining + |chunks| == size && old(pipe.rest) == chunks + pipe.rest
    {
      var ready, chunk := pipe.Read(remaining);
      if !ready { return Failure(TimedOut); }
      if chunk == [] { return Failure(EndedEarly); }
      chunks := chunks + chunk;
      remaining := remaining - |chunk|;
    }
    return Success(chunks);
  }

  // ---------- frames ----------

  function BigEndian(n: nat): (b: Bytes)
    requires n < 0x1_0000_0000
    ensures |b| == 4
  {
    [n / 256 / 256 / 256, n / 256 / 256 % 256, n / 256 % 256, n % 256]
  }

  function FromBigEndian(b: Bytes): nat
    requires |b| == 4
  {
    var high: int := b[0];
    ((high * 256 + (b[1] as int)) * 256 + (b[2] as int)) * 256 + (b[3] as int)
  }

  lemma BigEndianRoundTrip(n: nat)
    requires n < 0x1_0000_0000
    ensures FromBigEndian(BigEndian(n)) == n
  {}

  /** A header gives the most significant byte first. */
  lemma HeaderMeans(b: Bytes)
    requires |b| == 4
    ensures FromBigEndian(b)
            == 16777216 * (b[0] as int) + 65536 * (b[1] as int) + 256 * (b[2] as int) + (b[3] as int)
  {}

  predicate InBounds(payload: Bytes) {
    0 < |payload| <= MAX_FRAME_BYTES
  }

  function Frame(payload: Bytes): Bytes
    requires InBounds(payload)
  {
    BigEndian(|payload|) + payload
  }

  /** A frame is the four bytes of its size and then the payload. */
  lemma FrameMeans(payload: Bytes)
    requires InBounds(payload)
    ensures var f := Frame(payload);
            && |f| == 4 + |payload| && f[4..] == payload
            && 16777216 * (f[0] as int) + 65536 * (f[1] as int) + 256 * (f[2] as int) + (f[3] as int) == |payload|
  {
    var f := Frame(payload);
    assert f[..4] == BigEndian(|payload|);
    HeaderMeans(f[..4]);
    BigEndianRoundTrip(|payload|);
  }

  method WriteFrame(stream: Bytes, encoded: Bytes) returns (r: Result<Bytes, FrameError>)
    ensures r.Success? <==> 1 <= |encoded| <= 4_194_304
    ensures r.Success? <==> InBounds(encoded)
    ensures r.Success? ==> r.value == stream + Frame(encoded)
  {
    if |encoded| == 0 || |encoded| > MAX_FRAME_BYTES { return Failure(InvalidFrame); }
    var written := stream + BigEndian(|encoded|);
    written := written + encoded;
    assert written == stream + Frame(encoded);
    return Success(written);
  }

  // The size announced at the front of a stream.
  function Announced(s: Bytes): nat
    requires |s| >= 4
  {
    FromBigEndian(s[..4])
  }

  predicate SizeInBounds(size: nat) {
    0 < size <= MAX_FRAME_BYTES
  }

  /** Reads one frame.  If the stream begins with a frame, a patient reader gets its payload
      and leaves everything behind it.  A bad size is reported before any byte behind the
      header is read; a stream that stops inside a frame is reported as ended. */
  method ReadFrame(pipe: Pipe, ghost payload: Bytes, ghost tail: Bytes) returns (r: Result<Bytes, FrameError>)
    modifies pipe
    ensures r.Success? ==> InBounds(r.value) && old(pipe.rest) == Frame(r.value) + pipe.rest
    ensures pipe.patient && InBounds(payload) && old(pipe.rest) == Frame(payload) + tail ==>
              r == Success(payload) && pipe.rest == tail
    ensures r == Failure(InvalidFrame) ==>
              |old(pipe.rest)| >= 4 && !SizeInBounds(Announced(old(pipe.rest))) && pipe.rest == old(pipe.rest)[4..]
    ensures pipe.patient ==>
              (r == Failure(InvalidFrame) <==> |old(pipe.rest)| >= 4 && !SizeInBounds(Announced(old(pipe.rest))))
    ensures pipe.patient ==>
              (r == Failure(InvalidFrame) <==>
               |old(pipe.rest)| >= 4
               && !(1 <= FromBigEndian(old(pipe.rest)[..4]) <= 4_194_304))
    ensures pipe.patient ==>
              (r == Failure(EndedEarly) <==>
               |old(pipe.rest)| < 4
               || (SizeInBounds(Announced(old(pipe.rest))) && |old(pipe.rest)| < 4 + Announced(old(pipe.rest))))
  {
    var header := ReadExact(pipe, 4);
    if header.Failure? { return Failure(header.error); }
    assert old(pipe.rest)[..4] == header.value && old(pipe.rest)[4..] == pipe.rest;
    var size := FromBigEndian(header.value);
    ghost var behind := pipe.rest;
    HeaderOf(old(pipe.rest), header.value, behind, payload, tail);
    if size <= 0 || size > MAX_FRAME_BYTES { return Failure(InvalidFrame); }
    r := ReadExact(pipe, size);
    if r.Success? {
      HeaderIsSize(header.value);
      assert old(pipe.rest) == BigEndian(|r.value|) + r.value + pipe.rest;
      PayloadOf(r.value, pipe.rest, payload, tail);
    }
  }

  lemma LowByte(q: nat, r: Byte)
    ensures (q * 256 + (r as int)) / 256 == q && (q * 256 + (r as int)) % 256 == r
  {}

  lemma HeaderIsSize(header: Bytes)
    requires |header| == 4
    ensures FromBigEndian(header) < 0x1_0000_0000
    ensures BigEndian(FromBigEndian(header)) == header
  {
    var a: nat := header[0];
    var b: nat := a * 256 + (header[1] as int);
    var c: nat := b * 256 + (header[2] as int);
    LowByte(a, header[1]);
    LowByte(b, header[2]);
    LowByte(c, header[3]);
  }

  // What a frame at the front means for the first four bytes and the rest.
  lemma HeaderOf(all: Bytes, header: Bytes, behind: Bytes, payload: Bytes, tail: Bytes)
    requires |header| == 4 && all == header + behind
    ensures InBounds(payload) && all == Frame(payload) + tail ==>
              FromBigEndian(header) == |payload| && behind == payload + tail
  {
    if InBounds(payload) && all == Frame(payload) + tail {
      assert all[..4] == header == BigEndian(|payload|);
      assert all[4..] == behind == payload + tail;
      BigEndianRoundTrip(|payload|);
    }
  }

  lemma PayloadOf(value: Bytes, rest: Bytes, payload: Bytes, tail: Bytes)
    ensures value + rest == payload + tail && |value| == |payload| ==> value == payload && rest == tail
  {
    if value + rest == payload + tail && |value| == |payload| {
      assert (value + rest)[..|value|] == value && (payload + tail)[..|value|] == payload;
      assert (value + rest)[|value|..] == rest && (payload + tail)[|value|..] == tail;
    }
  }

  // ---------- whole streams ----------

  function Frames(payloads: seq<Bytes>): Bytes
    requires forall i :: 0 <= i < |payloads| ==> InBounds(payloads[i])
  {
    if payloads == [] then [] else Frame(payloads[0]) + Frames(payloads[1..])
  }

  lemma FramesSplit(payloads: seq<Bytes>, tail: Bytes)
    requires payloads != [] && forall i :: 0 <= i < |payloads| ==> InBounds(payloads[i])
    ensures Frames(payloads) + tail == Frame(payloads[0]) + (Frames(payloads[1..]) + tail)
  {}

  lemma {:induction false} FramesAppend(payloads: seq<Bytes>, payload: Bytes)
    requires (forall i :: 0 <= i < |payloads| ==> InBounds(payloads[i])) && InBounds(payload)
    ensures Frames(payloads + [payload]) == Frames(payloads) + Frame(payload)
  {
    if payloads == [] {
      assert payloads + [payload] == [payload];
      assert [payload][1..] == [];
    } else {
      FramesAppend(payloads[1..], payload);
      assert (payloads + [payload])[1..] == payloads[1..] + [payload];
    }
  }

  /** Writing payloads one after the other stops at the first that is out of bounds, with
      the frames of those before it on the stream. */
  method WriteFrames(payloads: seq<Bytes>) returns (stream: Bytes, written: nat)
    ensures written <= |payloads| && (forall i :: 0 <= i < written ==> InBounds(payloads[i]))
    ensures written < |payloads| ==> !InBounds(payloads[written])
    ensures stream == Frames(payloads[..written])
  {
    stream, written := [], 0;
    while written < |payloads|
      invariant written <= |payloads| && forall i :: 0 <= i < written ==> InBounds(payloads[i])
      invariant stream == Frames(payloads[..written])
    {
      var next := WriteFrame(stream, payloads[written]);
      if next.Failure? { return; }
      FramesAppend(payloads[..written], payloads[written]);
      assert payloads[..written + 1] == payloads[..written] + [payloads[written]];
      stream, written := next.value, written + 1;
    }
  }

  /** Writing and reading back: for every list of payloads, whatever follows on the stream and
      however the pipe fragments it, the payloads written come back in order. */
  method RoundTrip(payloads: seq<Bytes>, tail: Bytes) returns (read: seq<Bytes>, rest: Bytes)
    ensures read <= payloads && rest == tail
    ensures |read| < |payloads| ==> !InBounds(payloads[|read|])
    ensures forall i :: 0 <= i < |read| ==> InBounds(read[i])
  {
    var stream, written := WriteFrames(payloads);
    var pipe := new Pipe(stream + tail, true);
    read := ReadFrames(pipe, payloads[..written], written, tail);
    rest := pipe.rest;
  }

  /** For every list of payloads within bounds and every fragmentation, reading as many
      frames as were written returns exactly the payloads, in order, and leaves the bytes
      behind them. */
  method ReadFrames(pipe: Pipe, ghost payloads: seq<Bytes>, count: nat, ghost tail: Bytes)
    returns (read: seq<Bytes>)
    requires pipe.patient && count == |payloads|
    requires forall i :: 0 <= i < |payloads| ==> InBounds(payloads[i])
    requires pipe.rest == Frames(payloads) + tail
    modifies pipe
    ensures read == payloads && pipe.rest == tail
  {
    read := [];
    for i := 0 to count
      invariant read == payloads[..i]
      invariant pipe.rest == Frames(payloads[i..]) + tail
    {
      FramesSplit(payloads[i..], tail);
      assert payloads[i..][1..] == payloads[i + 1..];
      var frame := ReadFrame(pipe, payloads[i], Frames(payloads[i + 1..]) + tail);
      read := read + [frame.value];
    }
  }

  /** No two payload lists share a byte stream. */
  lemma {:induction false} FramesAreInjective(a: seq<Bytes>, b: seq<Bytes>)
    requires forall i :: 0 <= i < |a| ==> InBounds(a[i])
    requires forall i :: 0 <= i < |b| ==> InBounds(b[i])
    requires Frames(a) == Frames(b)
    ensures a == b
  {
    if a != [] && b != [] {
      var x, y := Frames(a[1..]), Frames(b[1..]);
      assert Frame(a[0]) + x == BigEndian(|a[0]|) + (a[0] + x);
      HeaderOf(Frames(a), BigEndian(|a[0]|), a[0] + x, b[0], y);
      BigEndianRoundTrip(|a[0]|);
      PayloadOf(a[0], x, b[0], y);
      FramesAreInjective(a[1..], b[1..]);
      assert a == [a[0]] + a[1..] && b == [b[0]] + b[1..];
    }
  }
}
