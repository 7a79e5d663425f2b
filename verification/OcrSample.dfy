/** Query samples of the OCR publication experiment: how a daemon response becomes a
    sample, and what the report checker demands of a sample. */
module OcrSample {
  import opened Rearrangement
  import opened Wrappers

  datatype Mode = Fulltext | Semantic | Hybrid

  datatype Outcome =
    | ExactExpected | ValidEpochResultChange | DeadlinePartial | SemanticPartial
    | Overload | HttpError | ProtocolError | TransportError | Cancelled

  // Latencies in milliseconds; the seven stages stay a list.
  datatype Sample = Sample(
    outcome: Outcome,
    client: real,
    server: Option<real>,
    stages: Option<seq<real>>,
    unclassified: Option<real>)

  const STAGE_COUNT: nat := 7
  const VALID_COMPLETIONS: set<Outcome> := {ExactExpected, ValidEpochResultChange}
  const WIRE_COMPLETIONS: set<Outcome> := VALID_COMPLETIONS + {DeadlinePartial, SemanticPartial, Cancelled}

  // ---------- rounding ----------

  // Nearest integer, ties to even.
  function Nearest(x: real): int {
    var f := x.Floor;
    var part := x - f as real;
    if part < 0.5 then f else if part > 0.5 then f + 1 else f + f % 2
  }

  function Scaled(n: int, scale: real): real
    requires scale > 0.0
  {
    n as real / scale
  }

  function Round(x: real, scale: real): real
    requires scale > 0.0
  {
    Scaled(Nearest(x * scale), scale)
  }

  const MICRO: real := 1_000_000.0
  const MILLI: real := 1_000.0

  lemma NearestIsClose(x: real)
    ensures -0.5 <= Nearest(x) as real - x <= 0.5
  {}

  lemma NearestIsMonotone(x: real, y: real)
    requires x <= y
    ensures Nearest(x) <= Nearest(y)
  {
    if x.Floor < y.Floor {
      assert Nearest(x) <= x.Floor + 1 <= y.Floor <= Nearest(y);
    }
  }

  lemma ScaledIsMonotone(a: int, b: int, scale: real)
    requires scale > 0.0 && a <= b
    ensures Scaled(a, scale) <= Scaled(b, scale)
  {
    assert b as real / scale - a as real / scale == (b as real - a as real) / scale;
  }

  lemma RoundIsMonotone(x: real, y: real, scale: real)
    requires scale > 0.0 && x <= y
    ensures Round(x, scale) <= Round(y, scale)
  {
    assert (y - x) * scale >= 0.0;
    NearestIsMonotone(x * scale, y * scale);
    ScaledIsMonotone(Nearest(x * scale), Nearest(y * scale), scale);
  }

  lemma Unscale(a: real, b: real, scale: real)
    requires scale > 0.0 && a * scale <= b * scale
    ensures a <= b
  {
    assert (b - a) * scale >= 0.0;
  }

  lemma ScaledIsClose(n: int, x: real, scale: real)
    requires scale > 0.0 && -0.5 <= n as real - x * scale <= 0.5
    ensures -0.5 / scale <= Scaled(n, scale) - x <= 0.5 / scale
  {
    var q, h := Scaled(n, scale), 0.5 / scale;
    assert (q - x) * scale == n as real - x * scale by { assert q * scale == n as real; }
    assert h * scale == 0.5 && -0.5 / scale == -h;
    Unscale(q - x, h, scale);
    Unscale(-h, q - x, scale);
  }

  lemma RoundIsClose(x: real, scale: real)
    requires scale > 0.0
    ensures -0.5 / scale <= Round(x, scale) - x <= 0.5 / scale
  {
    NearestIsClose(x * scale);
    ScaledIsClose(Nearest(x * scale), x, scale);
  }

  function RealMax(a: real, b: real): real { if a < b then b else a }

  // ---------- building samples ----------

  function ErrorSample(outcome: Outcome, wall: real): Sample {
    Sample(outcome, Round(RealMax(wall, 0.001), MICRO), None, None, None)
  }

  function CompletedSample(outcome: Outcome, wall: real, server: real, stages: seq<real>): Sample {
    var residual := RealMax(server - SumOf(stages), 0.0);
    Sample(outcome, Round(RealMax(wall, 0.001), MICRO), Some(server), Some(stages), Some(Round(residual, MICRO)))
  }

  datatype Reason = DeadlineExceeded | EmbeddingRuntimeUnavailable
  datatype Status = StatusOk | StatusCancelled | StatusOther

  // What matters of a response body.  `wellFormed` stands for the closed field set, the
  // echoed identity, known reasons, a matching result count and a finite latency;
  // `stages` is None when a stage latency is not a finite non-negative number, and a
  // partial field that is not a boolean counts as the wrong boolean.
  datatype Body = Body(
    overloaded: bool,
    wellFormed: bool,
    server: real,
    stages: Option<seq<real>>,
    status: Status,
    indexAvailable: bool,
    partialFlag: bool,
    reasons: seq<Reason>,
    resultCount: nat,
    signature: Option<(string, string)>)

  function RoundAll(xs: seq<real>): (rs: seq<real>)
    ensures |rs| == |xs|
  {
    seq(|xs|, i requires 0 <= i < |xs| => Round(xs[i], MICRO))
  }

  function ClassifyResponse(http: int, b: Body, wall: real, expected: (string, string))
    : (r: (Sample, Option<(string, string)>))
  {
    if http == 503 && b.overloaded then (ErrorSample(Overload, wall), None)
    else if http != 200 then (ErrorSample(HttpError, wall), None)
    else if !b.wellFormed || b.stages.None? then (ErrorSample(ProtocolError, wall), None)
    else
      var stages, server := RoundAll(b.stages.value), Round(b.server, MICRO);
      if b.status == StatusCancelled then (CompletedSample(Cancelled, wall, server, stages), None)
      else if b.status != StatusOk || !b.indexAvailable then (ErrorSample(ProtocolError, wall), None)
      else if b.partialFlag != (b.reasons != []) then (ErrorSample(ProtocolError, wall), None)
      else if DeadlineExceeded in b.reasons then (CompletedSample(DeadlinePartial, wall, server, stages), None)
      else if EmbeddingRuntimeUnavailable in b.reasons then (CompletedSample(SemanticPartial, wall, server, stages), None)
      else if b.reasons != [] || b.resultCount != 1 then (ErrorSample(ProtocolError, wall), None)
      else if b.signature.None? then (ErrorSample(ProtocolError, wall), None)
      else
        var outcome := if b.signature.value == expected then ExactExpected else ValidEpochResultChange;
        (CompletedSample(outcome, wall, server, stages), b.signature)
  }

  // ---------- checking samples ----------

  predicate Close(actual: real, expected: real) {
    -0.003 <= actual - expected <= 0.003
  }

  // The checker's view of one sample.
  predicate SampleAccepted(s: Sample) {
    && s.client > 0.0
    && if s.outcome !in WIRE_COMPLETIONS then s.server.None? && s.stages.None? && s.unclassified.None?
       else
         && s.server.Some? && s.stages.Some? && |s.stages.value| == STAGE_COUNT && s.unclassified.Some?
         && Close(s.unclassified.value, RealMax(s.server.value - SumOf(s.stages.value), 0.0))
  }

  lemma ClientIsPositive(wall: real)
    ensures Round(RealMax(wall, 0.001), MICRO) > 0.0
  {
    RoundIsClose(RealMax(wall, 0.001), MICRO);
  }

  lemma ErrorSampleAccepted(outcome: Outcome, wall: real)
    requires outcome !in WIRE_COMPLETIONS
    ensures SampleAccepted(ErrorSample(outcome, wall))
  {
    ClientIsPositive(wall);
  }

  lemma CompletedSampleAccepted(outcome: Outcome, wall: real, server: real, stages: seq<real>)
    requires outcome in WIRE_COMPLETIONS && |stages| == STAGE_COUNT
    ensures SampleAccepted(CompletedSample(outcome, wall, server, stages))
  {
    ClientIsPositive(wall);
    RoundIsClose(RealMax(server - SumOf(stages), 0.0), MICRO);
  }

  // A response whose latencies can be kept.
  predicate Readable(http: int, b: Body) {
    http == 200 && b.wellFormed && b.stages.Some?
  }

  // A readable response from an available index whose partial flag fits its reasons.
  predicate Answered(http: int, b: Body) {
    Readable(http, b) && b.status == StatusOk && b.indexAvailable && b.partialFlag == (b.reasons != [])
  }

  /** Which responses give which outcome: the deadline outranks the missing runtime, only a
      complete answer with one signed result is valid, and the kept latencies are those of
      the response. */
  lemma OutcomeMeans(http: int, b: Body, wall: real, expected: (string, string))
    ensures var (s, signature) := ClassifyResponse(http, b, wall, expected);
            && (s.outcome == Overload <==> http == 503 && b.overloaded)
            && (s.outcome == HttpError <==> http != 200 && !(http == 503 && b.overloaded))
            && (s.outcome == Cancelled <==> Readable(http, b) && b.status == StatusCancelled)
            && (s.outcome == DeadlinePartial <==> Answered(http, b) && DeadlineExceeded in b.reasons)
            && (s.outcome == SemanticPartial <==>
                Answered(http, b) && b.reasons != [] && DeadlineExceeded !in b.reasons)
            && (s.outcome in VALID_COMPLETIONS <==>
                Answered(http, b) && b.reasons == [] && b.resultCount == 1 && b.signature.Some?)
            && (s.outcome in VALID_COMPLETIONS ==> signature == b.signature)
            && (s.outcome in WIRE_COMPLETIONS ==>
                b.stages.Some? && s.server == Some(Round(b.server, MICRO)) && s.stages == Some(RoundAll(b.stages.value)))
  {
    if b.reasons != [] {
      assert b.reasons[0] in b.reasons;
      assert b.reasons[0] == DeadlineExceeded || b.reasons[0] == EmbeddingRuntimeUnavailable;
    }
  }

  /** Whatever the daemon answers, the classified sample passes the checker; a signature
      comes back exactly with a valid completion, and the sample is exact exactly when
      that signature is the expected one. */
  lemma ClassifiedIsAccepted(http: int, b: Body, wall: real, expected: (string, string))
    requires b.stages.Some? ==> |b.stages.value| == STAGE_COUNT
    ensures var (s, signature) := ClassifyResponse(http, b, wall, expected);
            && SampleAccepted(s)
            && (signature.Some? <==> s.outcome in VALID_COMPLETIONS)
            && (s.outcome == ExactExpected <==> signature == Some(expected))
  {
    forall outcome | outcome !in WIRE_COMPLETIONS
      ensures SampleAccepted(ErrorSample(outcome, wall))
    {
      ErrorSampleAccepted(outcome, wall);
    }
    if b.stages.Some? {
      forall outcome | outcome in WIRE_COMPLETIONS
        ensures SampleAccepted(CompletedSample(outcome, wall, Round(b.server, MICRO), RoundAll(b.stages.value)))
      {
        CompletedSampleAccepted(outcome, wall, Round(b.server, MICRO), RoundAll(b.stages.value));
      }
    }
  }

  // Within half a millionth.
  predicate Near(a: real, b: real) {
    -0.0000005 <= a - b <= 0.0000005
  }

  lemma RoundedStages(xs: seq<real>)
    ensures |RoundAll(xs)| == |xs| && forall i :: 0 <= i < |xs| ==> Near(RoundAll(xs)[i], xs[i])
  {
    forall i | 0 <= i < |xs|
      ensures Near(RoundAll(xs)[i], xs[i])
    {
      RoundIsClose(xs[i], MICRO);
    }
  }

  /** A sample keeps the measured wall time, at least a thousandth, and what the server did
      not account for. */
  lemma ClassifiedKeepsTheTimes(http: int, b: Body, wall: real, expected: (string, string))
    ensures var s := ClassifyResponse(http, b, wall, expected).0;
            && Near(s.client, if wall < 0.001 then 0.001 else wall)
            && (s.server.Some? ==>
                  && s.stages.Some? && s.unclassified.Some? && Near(s.server.value, b.server)
                  && b.stages.Some? && |s.stages.value| == |b.stages.value|
                  && (forall i :: 0 <= i < |b.stages.value| ==> Near(s.stages.value[i], b.stages.value[i]))
                  && (var rest := s.server.value - Total(|s.stages.value|, EntryOf(s.stages.value));
                      Near(s.unclassified.value, if rest < 0.0 then 0.0 else rest)))
  {
    RoundIsClose(RealMax(wall, 0.001), MICRO);
    RoundIsClose(b.server, MICRO);
    if b.stages.Some? {
      RoundedStages(b.stages.value);
      SumIsWholeTotal(RoundAll(b.stages.value));
      RoundIsClose(RealMax(Round(b.server, MICRO) - SumOf(RoundAll(b.stages.value)), 0.0), MICRO);
    }
  }
}
