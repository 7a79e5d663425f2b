/** The publication experiment around the report: querying a daemon whose answers are
    unknown, collecting the groups, and building the report from them. */
module OcrRun {
  import opened Wrappers
  import opened OcrSample
  import opened OcrReport
  import opened OcrContract

  datatype Phase = First | Warm

  // A transport failure, or a response; either way with the measured wall time.
  datatype Reply =
    | Broken(wall: real, ipcRequestFailed: bool)
    | Response(wall: real, http: int, body: Body)

  // Every request has its own identity, so any behaviour of the daemon is a function of the
  // group (None for the control), the mode and the phase.
  type Daemon = (Option<nat>, Mode, Phase) -> Reply

  type Signature = (string, string)

  // Stage latencies are kept only if exactly the known stages are present.
  ghost predicate Sane(reply: Reply) {
    reply.Response? && reply.body.stages.Some? ==> |reply.body.stages.value| == STAGE_COUNT
  }

  ghost predicate AllSane(daemon: Daemon) {
    forall g: Option<nat>, mode: Mode, phase: Phase :: Sane(daemon(g, mode, phase))
  }

  // ---------- observing ----------

  function ObserveQuery(reply: Reply, expected: Signature): Sample {
    match reply
    case Broken(wall, ipcRequestFailed) => ErrorSample(if ipcRequestFailed then TransportError else ProtocolError, wall)
    case Response(wall, http, body) => ClassifyResponse(http, body, wall, expected).0
  }

  lemma ObservedIsAccepted(reply: Reply, expected: Signature)
    requires Sane(reply)
    ensures SampleAccepted(ObserveQuery(reply, expected))
  {
    match reply
    case Broken(wall, ipc) => ErrorSampleAccepted(if ipc then TransportError else ProtocolError, wall);
    case Response(wall, http, body) => ClassifiedIsAccepted(http, body, wall, expected);
  }

  function PairOf(daemon: Daemon, g: Option<nat>, mode: Mode, expected: Signature): Pair {
    Pair(ObserveQuery(daemon(g, mode, First), expected), ObserveQuery(daemon(g, mode, Warm), expected))
  }

  function GroupOf(daemon: Daemon, g: Option<nat>, order: seq<Mode>, expected: Signature): Group {
    Group(g, order, PerMode(PairOf(daemon, g, Fulltext, expected), PairOf(daemon, g, Semantic, expected),
                            PairOf(daemon, g, Hybrid, expected)))
  }

  /** Queries the modes in the given order, each twice. */
  method ObserveGroup(daemon: Daemon, g: Option<nat>, order: seq<Mode>, expected: Signature) returns (group: Group)
    requires forall mode: Mode :: mode in order
    ensures group == GroupOf(daemon, g, order, expected)
  {
    var samples: map<Mode, Pair> := map[];
    for i := 0 to |order|
      invariant forall mode :: mode in samples <==> mode in order[..i]
      invariant forall mode :: mode in samples ==> samples[mode] == PairOf(daemon, g, mode, expected)
    {
      var mode := order[i];
      var first := ObserveQuery(daemon(g, mode, First), expected);
      var warm := ObserveQuery(daemon(g, mode, Warm), expected);
      assert order[..i + 1] == order[..i] + [mode];
      samples := samples[mode := Pair(first, warm)];
    }
    assert order[..|order|] == order;
    return Group(g, order, PerMode(samples[Fulltext], samples[Semantic], samples[Hybrid]));
  }

  lemma GroupIsAccepted(daemon: Daemon, g: Option<nat>, order: seq<Mode>, expected: Signature)
    requires AllSane(daemon) && (g.None? || 1 <= g.value <= 3)
    requires order == if g.None? then MODES else SCHEDULE[g.value - 1]
    ensures GroupAccepted(GroupOf(daemon, g, order, expected), g)
  {
    forall mode: Mode
      ensures PairAccepted(PairOf(daemon, g, mode, expected))
    {
      ObservedIsAccepted(daemon(g, mode, First), expected);
      ObservedIsAccepted(daemon(g, mode, Warm), expected);
    }
  }

  // ---------- the probes ----------

  function ProbeBody(wellFormed: bool): Body {
    Body(false, wellFormed, 2.0, Some([0.1, 0.1, 0.1, 0.1, 0.1, 0.1, 0.1]), StatusOk, true, false, [], 1,
         Some(("d", "v")))
  }

  function ClassificationProbes(): (bool, bool, bool) {
    var oracle := ObserveQuery(Response(2.1, 200, ProbeBody(true)), ("other", "other"));
    var transport := ObserveQuery(Broken(0.0, true), ("d", "v"));
    var protocol := ObserveQuery(Response(2.1, 200, ProbeBody(false)), ("d", "v"));
    (oracle.outcome == ValidEpochResultChange, transport.outcome == TransportError, protocol.outcome == ProtocolError)
  }

  /** The classification probes always pass. */
  lemma ProbesPass()
    ensures ClassificationProbes() == (true, true, true)
  {
    assert "d" != "other";
    OutcomeMeans(200, ProbeBody(true), 2.1, ("other", "other"));
    OutcomeMeans(200, ProbeBody(false), 2.1, ("d", "v"));
  }

  // ---------- exact groups ----------

  lemma GroupExactCounts(g: Group)
    ensures CountOf(GroupSamples(g, MODES), ExactExpected) <= 6
    ensures CountOf(GroupSamples(g, MODES), ExactExpected) == 6 <==> GroupExact(g)
  {
    ThreeModes(g, Fulltext, Semantic, Hybrid, ExactExpected);
  }

  lemma {:induction false} AllExactCounts(groups: seq<Group>)
    ensures CountOf(CheckedSamples(groups), ExactExpected) <= 6 * |groups|
    ensures CountOf(CheckedSamples(groups), ExactExpected) == 6 * |groups|
            <==> forall i :: 0 <= i < |groups| ==> GroupExact(groups[i])
  {
    if groups != [] {
      AllExactCounts(groups[1..]);
      GroupExactCounts(groups[0]);
      CountConcat(GroupSamples(groups[0], MODES), CheckedSamples(groups[1..]), ExactExpected);
      assert groups == [groups[0]] + groups[1..];
    }
  }

  /** With an exact control, every sample is exact exactly when every epoch is. */
  lemma AllExactMeans(kind: Kind, control: Group, epochs: seq<Group>)
    requires WellShaped(kind, control, epochs)
    ensures AllExact(control, epochs) <==> forall i :: 0 <= i < |epochs| ==> GroupExact(epochs[i])
  {
    var groups := [control] + epochs;
    ShapedGroups(kind, control, epochs);
    CountsAgree(groups, ExactExpected);
    AllExactCounts(groups);
    assert forall i :: 0 <= i < |epochs| ==> groups[i + 1] == epochs[i];
    assert groups[0] == control;
  }

  // ---------- the experiment ----------

  datatype ExperimentError = ProbeFailed | StableControlNotExact | ContractRejected

  function ControlOf(daemon: Daemon, expected: Signature): Group {
    GroupOf(daemon, None, MODES, expected)
  }

  function EpochOf(daemon: Daemon, ordinal: nat, expected: Signature): Group
    requires 1 <= ordinal <= 3
  {
    GroupOf(daemon, Some(ordinal), SCHEDULE[ordinal - 1], expected)
  }

  function EpochsOf(daemon: Daemon, n: nat, expected: Signature): (epochs: seq<Group>)
    requires n <= 3
    ensures |epochs| == n
    ensures forall i :: 0 <= i < n ==> epochs[i] == EpochOf(daemon, i + 1, expected)
  {
    seq(n, i requires 0 <= i < n => EpochOf(daemon, i + 1, expected))
  }

  lemma ObservedIsWellShaped(kind: Kind, daemon: Daemon, expected: Signature)
    requires AllSane(daemon) && GroupExact(ControlOf(daemon, expected))
    ensures WellShaped(kind, ControlOf(daemon, expected), EpochsOf(daemon, Publications(kind), expected))
  {
    GroupIsAccepted(daemon, None, MODES, expected);
    var epochs := EpochsOf(daemon, Publications(kind), expected);
    forall i | 0 <= i < |epochs|
      ensures GroupAccepted(epochs[i], Some(i + 1))
    {
      GroupIsAccepted(daemon, Some(i + 1), SCHEDULE[i], expected);
    }
  }

  lemma SchedulesAreComplete(i: nat, mode: Mode)
    requires i < 3
    ensures mode in SCHEDULE[i]
  {
    assert SCHEDULE[i][0] in SCHEDULE[i] && SCHEDULE[i][1] in SCHEDULE[i] && SCHEDULE[i][2] in SCHEDULE[i];
  }

  // Some epoch of the run answered a query other than exactly.
  ghost predicate SomeEpochInexact(kind: Kind, daemon: Daemon, expected: Signature) {
    exists i :: 1 <= i <= Publications(kind) && !GroupExact(EpochOf(daemon, i, expected))
  }

  /** Whatever the daemon answers: the run stops at an inexact control; after an exact one
      its report passes the checker exactly when the processes were cleaned up, or it is a
      smoke run with an inexact epoch. */
  method RunExperiment(kind: Kind, daemon: Daemon, expected: Signature, cleanup: bool)
    returns (r: Result<Report, ExperimentError>)
    requires AllSane(daemon)
    ensures r != Failure(ProbeFailed)
    ensures r == Failure(StableControlNotExact) <==> !GroupExact(ControlOf(daemon, expected))
    ensures r.Success? <==>
            && GroupExact(ControlOf(daemon, expected))
            && (cleanup || (kind == Smoke && SomeEpochInexact(kind, daemon, expected)))
    ensures r.Success? ==> Validates(r.value) && r.value.control == ControlOf(daemon, expected)
    ensures r.Success? ==> r.value.epochs == EpochsOf(daemon, Publications(kind), expected)
  {
    var probes := ClassificationProbes();
    ProbesPass();
    if !(probes.0 && probes.1 && probes.2) { return Failure(ProbeFailed); }
    forall mode: Mode
      ensures mode in MODES
    {
      ModesAreComplete(mode);
    }
    var control := ObserveGroup(daemon, None, MODES, expected);
    if !GroupExact(control) { return Failure(StableControlNotExact); }
    var epochs := ObserveEpochs(daemon, Publications(kind), expected);
    RunBuildsIff(kind, daemon, expected);
    var report := BuildReport(kind, control, epochs, probes, cleanup);
    return if report.Some? then Success(report.value) else Failure(ContractRejected);
  }

  lemma ModesAreComplete(mode: Mode)
    ensures mode in MODES
  {
    assert MODES[0] in MODES && MODES[1] in MODES && MODES[2] in MODES;
  }

  lemma RunBuildsIff(kind: Kind, daemon: Daemon, expected: Signature)
    requires AllSane(daemon) && GroupExact(ControlOf(daemon, expected))
    ensures var control, epochs := ControlOf(daemon, expected), EpochsOf(daemon, Publications(kind), expected);
            WellShaped(kind, control, epochs)
            && (AllExact(control, epochs) <==> !SomeEpochInexact(kind, daemon, expected))
  {
    ObservedIsWellShaped(kind, daemon, expected);
    AllExactMeans(kind, ControlOf(daemon, expected), EpochsOf(daemon, Publications(kind), expected));
    InexactMeans(kind, daemon, expected);
  }

  lemma InexactMeans(kind: Kind, daemon: Daemon, expected: Signature)
    ensures SomeEpochInexact(kind, daemon, expected) <==>
            !forall i :: 0 <= i < Publications(kind) ==>
               GroupExact(EpochsOf(daemon, Publications(kind), expected)[i])
  {
    var epochs := EpochsOf(daemon, Publications(kind), expected);
    if i :| 0 <= i < Publications(kind) && !GroupExact(epochs[i]) {
      assert !GroupExact(EpochOf(daemon, i + 1, expected));
    }
    if i :| 1 <= i <= Publications(kind) && !GroupExact(EpochOf(daemon, i, expected)) {
      assert !GroupExact(epochs[i - 1]);
    }
  }

  method ObserveEpochs(daemon: Daemon, n: nat, expected: Signature) returns (epochs: seq<Group>)
    requires n <= 3
    ensures epochs == EpochsOf(daemon, n, expected)
  {
    epochs := [];
    for i := 0 to n
      invariant epochs == EpochsOf(daemon, i, expected)
    {
      forall mode: Mode
        ensures mode in SCHEDULE[i]
      {
        SchedulesAreComplete(i, mode);
      }
      var group := ObserveGroup(daemon, Some(i + 1), SCHEDULE[i], expected);
      epochs := epochs + [group];
    }
  }

  // ---------- an unclean smoke run that passes ----------

  // Answers the control exactly and is overloaded afterwards.
  function Overloading(g: Option<nat>, mode: Mode, phase: Phase): Reply {
    if g.None? then Response(2.1, 200, ProbeBody(true))
    else Response(1.0, 503, ProbeBody(true).(overloaded := true))
  }

  /** A smoke run whose processes were not cleaned up can pass the checker. */
  lemma UncleanSmokePasses()
    ensures AllSane(Overloading) && GroupExact(ControlOf(Overloading, ("d", "v")))
    ensures var control, epochs := ControlOf(Overloading, ("d", "v")), EpochsOf(Overloading, 1, ("d", "v"));
            && AllMeasurable(control, epochs)
            && Validates(Assemble(Smoke, control, epochs, (true, true, true), false))
  {
    var expected := ("d", "v");
    ObservedIsWellShaped(Smoke, Overloading, expected);
    var control, epochs := ControlOf(Overloading, expected), EpochsOf(Overloading, 1, expected);
    AllExactMeans(Smoke, control, epochs);
    assert !GroupExact(epochs[0]);
    AcceptedIffGuarded(Smoke, control, epochs, (true, true, true), false);
  }
}
