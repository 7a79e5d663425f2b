/** The report checker, which recomputes aggregates, counts and diagnosis from the raw
    samples, and its agreement with the producer. */
module OcrContract {
  import opened Wrappers
  import opened Sequences
  import opened Sorting
  import opened OcrSample
  import opened OcrReport

  // ---------- the checker's own summaries ----------

  function Percentile(values: seq<real>, percent: nat): real
    requires values != [] && percent <= 100
  {
    var ordered := Sort(values, RealLe);
    RankBounds(|values|, percent, percent);
    ordered[Rank(|ordered|, percent)]
  }

  function SummaryOf(values: seq<real>): Summary
    requires values != []
  {
    Summary(Round(Percentile(values, 50), MILLI), Round(Percentile(values, 95), MILLI),
            Round(Percentile(values, 99), MILLI), Round(MaxOf(values), MILLI))
  }

  lemma MaxOfSame(a: seq<real>, b: seq<real>)
    requires a != [] && b != [] && multiset(a) == multiset(b)
    ensures MaxOf(a) <= MaxOf(b)
  {
    SameElements(a, b, MaxOf(a));
  }

  /** The checker takes the maximum of the values, the producer that of the sorted list. */
  lemma MaxSurvivesSorting(values: seq<real>)
    requires values != []
    ensures MaxOf(Sort(values, RealLe)) == MaxOf(values)
  {
    SortPermutes(values, RealLe);
    MaxOfSame(values, Sort(values, RealLe));
    MaxOfSame(Sort(values, RealLe), values);
  }

  /** Both sides compute the same summary of a list. */
  lemma SummariesAgree(values: seq<real>)
    requires values != []
    ensures SummaryOf(values) == LatencySummary(values)
  {
    MaxSurvivesSorting(values);
  }

  predicate SummaryAccepted(observed: Summary, expected: Summary) {
    && Close(observed.p50, expected.p50) && Close(observed.p95, expected.p95)
    && Close(observed.p99, expected.p99) && Close(observed.max, expected.max)
    && observed.p50 <= observed.p95 <= observed.p99 <= observed.max
  }

  lemma OwnSummaryAccepted(values: seq<real>)
    requires values != []
    ensures SummaryAccepted(LatencySummary(values), SummaryOf(values))
  {
    SummariesAgree(values);
    SummaryIsMonotone(values);
  }

  // ---------- the checker's aggregates ----------

  function Expected(c: Columns, n: nat): Aggregate
    requires c.firsts != [] && c.warms != [] && c.deltas != [] && c.excesses != [] && c.residuals != []
  {
    Aggregate(n, c.complete, SummaryOf(c.firsts), SummaryOf(c.warms),
              SummaryOf(c.deltas), SummaryOf(c.excesses), SummaryOf(c.residuals), c.signals)
  }

  function ExpectedFor(mode: Mode, control: Group, epochs: seq<Group>): Aggregate
    requires AllMeasurable(control, epochs)
  {
    Expected(ColumnsOf(PairsOf(mode, epochs), control.samples.At(mode)), |epochs|)
  }

  method ExpectedAggregate(mode: Mode, control: Group, epochs: seq<Group>) returns (a: Aggregate)
    requires AllMeasurable(control, epochs)
    ensures a == ExpectedFor(mode, control, epochs)
  {
    ghost var ps := PairsOf(mode, epochs);
    var controlPair := control.samples.At(mode);
    var c := Columns([], [], [], [], [], 0, 0);
    for i := 0 to |epochs|
      invariant c == ColumnsOf(ps[..i], controlPair)
    {
      var pair := epochs[i].samples.At(mode);
      assert ps[..i + 1] == ps[..i] + [pair];
      ColumnsGrow(ps[..i], controlPair, pair);
      c := AddExpected(c, pair, controlPair);
    }
    assert ps[..|ps|] == ps;
    return Expected(c, |epochs|);
  }

  method AddExpected(c: Columns, pair: Pair, control: Pair) returns (next: Columns)
    requires PairMeasurable(pair) && PairMeasurable(control) && IsComplete(control)
    ensures next == Extend(c, pair, control)
  {
    var delta := pair.first.client - pair.warm.client;
    var excess := delta - (control.first.client - control.warm.client);
    next := c.(firsts := c.firsts + [pair.first.client], warms := c.warms + [pair.warm.client],
               deltas := c.deltas + [delta], excesses := c.excesses + [excess]);
    var unclassifiedExcess, signalled := 0.0, true;
    if IsComplete(pair) {
      next := next.(complete := next.complete + 1);
      unclassifiedExcess := pair.first.unclassified.value - pair.warm.unclassified.value
                            - (control.first.unclassified.value - control.warm.unclassified.value);
      signalled := excess >= 20.0 && pair.first.client / pair.warm.client >= 1.5 && unclassifiedExcess >= 15.0;
    }
    next := next.(residuals := next.residuals + [unclassifiedExcess]);
    if signalled { next := next.(signals := next.signals + 1); }
  }

  predicate AggregateAccepted(observed: Aggregate, expected: Aggregate) {
    && observed.epochPairs == expected.epochPairs
    && observed.completePairs == expected.completePairs
    && observed.signals == expected.signals
    && SummaryAccepted(observed.first, expected.first)
    && SummaryAccepted(observed.warm, expected.warm)
    && SummaryAccepted(observed.delta, expected.delta)
    && SummaryAccepted(observed.excess, expected.excess)
    && SummaryAccepted(observed.residual, expected.residual)
  }

  /** The produced aggregate passes against the recomputed one. */
  lemma OwnAggregateAccepted(mode: Mode, control: Group, epochs: seq<Group>)
    requires AllMeasurable(control, epochs)
    ensures AggregateAccepted(AggregateFor(mode, control, epochs), ExpectedFor(mode, control, epochs))
    ensures AggregateFor(mode, control, epochs).signals == ExpectedFor(mode, control, epochs).signals
  {
    var ps, pair := PairsOf(mode, epochs), control.samples.At(mode);
    OwnSummaryAccepted(Firsts(ps));
    OwnSummaryAccepted(Warms(ps));
    OwnSummaryAccepted(Deltas(ps));
    OwnSummaryAccepted(Excesses(ps, pair));
    OwnSummaryAccepted(Residuals(ps, pair));
  }

  // ---------- groups ----------

  predicate PairAccepted(p: Pair) {
    SampleAccepted(p.first) && SampleAccepted(p.warm)
  }

  predicate GroupAccepted(g: Group, ordinal: Option<nat>) {
    && g.ordinal == ordinal
    && (ordinal.None? || 1 <= ordinal.value <= 3)
    && g.order == (if ordinal.None? then MODES else SCHEDULE[ordinal.value - 1])
    && PairAccepted(g.samples.fulltext) && PairAccepted(g.samples.semantic) && PairAccepted(g.samples.hybrid)
  }

  predicate PairExact(p: Pair) {
    p.first.outcome == ExactExpected && p.warm.outcome == ExactExpected
  }

  predicate GroupExact(g: Group) {
    PairExact(g.samples.fulltext) && PairExact(g.samples.semantic) && PairExact(g.samples.hybrid)
  }

  function Publications(kind: Kind): nat {
    if kind == Smoke then 1 else 3
  }

  // The groups of a run have the shape the checker demands, with an exact control.
  predicate WellShaped(kind: Kind, control: Group, epochs: seq<Group>) {
    && GroupAccepted(control, None) && GroupExact(control)
    && |epochs| == Publications(kind)
    && forall i :: 0 <= i < |epochs| ==> GroupAccepted(epochs[i], Some(i + 1))
  }

  lemma AcceptedPairMeasurable(p: Pair)
    requires PairAccepted(p)
    ensures PairMeasurable(p)
  {}

  lemma ShapedIsMeasurable(kind: Kind, control: Group, epochs: seq<Group>)
    requires WellShaped(kind, control, epochs)
    ensures AllMeasurable(control, epochs)
  {
    forall mode: Mode, g: Group | g == control || g in epochs
      ensures PairMeasurable(g.samples.At(mode))
    {
      AcceptedPairMeasurable(g.samples.At(mode));
    }
  }

  // ---------- counts ----------

  // The checker walks every group in the fixed mode order.
  function CheckedSamples(groups: seq<Group>): seq<Sample> {
    if groups == [] then [] else GroupSamples(groups[0], MODES) + CheckedSamples(groups[1..])
  }

  lemma {:induction false} CountConcat(a: seq<Sample>, b: seq<Sample>, k: Outcome)
    ensures CountOf(a + b, k) == CountOf(a, k) + CountOf(b, k)
  {
    if a == [] {
      assert a + b == b;
    } else {
      CountConcat(a[1..], b, k);
      assert (a + b)[1..] == a[1..] + b;
    }
  }

  function PairCount(p: Pair, k: Outcome): nat {
    (if p.first.outcome == k then 1 else 0) + if p.warm.outcome == k then 1 else 0
  }

  lemma {:induction false} GroupCount(g: Group, modes: seq<Mode>, k: Outcome)
    ensures |GroupSamples(g, modes)| == 2 * |modes|
    ensures modes != [] ==>
              CountOf(GroupSamples(g, modes), k)
              == PairCount(g.samples.At(modes[0]), k) + CountOf(GroupSamples(g, modes[1..]), k)
  {
    if modes != [] {
      GroupCount(g, modes[1..], k);
      var p := g.samples.At(modes[0]);
      CountConcat([p.first, p.warm], GroupSamples(g, modes[1..]), k);
      assert [p.first, p.warm][1..] == [p.warm];
      assert [p.warm][1..] == [];
    }
  }

  // Three modes in any order count the same.
  lemma ThreeModes(g: Group, a: Mode, b: Mode, c: Mode, k: Outcome)
    ensures CountOf(GroupSamples(g, [a, b, c]), k)
            == PairCount(g.samples.At(a), k) + PairCount(g.samples.At(b), k) + PairCount(g.samples.At(c), k)
    ensures |GroupSamples(g, [a, b, c])| == 6
  {
    GroupCount(g, [a, b, c], k);
    assert [a, b, c][1..] == [b, c];
    GroupCount(g, [b, c], k);
    assert [b, c][1..] == [c];
    GroupCount(g, [c], k);
    assert [c][1..] == [];
  }

  lemma OrderDoesNotCount(g: Group, ordinal: Option<nat>, k: Outcome)
    requires GroupAccepted(g, ordinal)
    ensures CountOf(GroupSamples(g, g.order), k) == CountOf(GroupSamples(g, MODES), k)
    ensures |GroupSamples(g, g.order)| == |GroupSamples(g, MODES)| == 6
  {
    ThreeModes(g, Fulltext, Semantic, Hybrid, k);
    ThreeModes(g, Hybrid, Fulltext, Semantic, k);
    ThreeModes(g, Semantic, Hybrid, Fulltext, k);
  }

  predicate AllShaped(groups: seq<Group>) {
    forall i :: 0 <= i < |groups| ==> GroupAccepted(groups[i], groups[i].ordinal)
  }

  /** Producer and checker count the same samples, although they walk them in different
      orders. */
  lemma {:induction false} CountsAgree(groups: seq<Group>, k: Outcome)
    requires AllShaped(groups)
    ensures CountOf(ProducedSamples(groups), k) == CountOf(CheckedSamples(groups), k)
    ensures |ProducedSamples(groups)| == |CheckedSamples(groups)| == 6 * |groups|
  {
    if groups != [] {
      var g := groups[0];
      CountsAgree(groups[1..], k);
      OrderDoesNotCount(g, g.ordinal, k);
      CountConcat(GroupSamples(g, g.order), ProducedSamples(groups[1..]), k);
      CountConcat(GroupSamples(g, MODES), CheckedSamples(groups[1..]), k);
    }
  }

  predicate CountsAccepted(c: Counts, samples: seq<Sample>, attempts: nat) {
    var valid := CountOf(samples, ExactExpected) + CountOf(samples, ValidEpochResultChange);
    && c.attempted == attempts
    && c.byOutcome.Keys == OUTCOMES && (forall k :: k in OUTCOMES ==> c.byOutcome[k] == CountOf(samples, k))
    && c.completedValid == valid && c.degraded == attempts - valid && c.conserved
  }

  // ---------- the decision ----------

  predicate AllGuards(g: Guards) {
    g.allPublicationsObserved && g.epochStepsExact && g.oracleProbe && g.transportProbe && g.protocolProbe && g.cleanup
  }

  function ExpectedDiagnosis(kind: Kind, guards: Guards, signals: PerMode<nat>, exact: nat, attempts: nat,
                             protocolErrors: nat): Diagnosis
  {
    var fulltext := signals.fulltext >= 2;
    var semantic := signals.semantic >= 2 || signals.hybrid >= 2;
    var integrity := protocolErrors == 0;
    if kind == Smoke then
      Diagnosis(if AllGuards(guards) && exact == attempts then SmokePass else SmokeFailed,
                None, false, false, signals, integrity)
    else if !AllGuards(guards) then Diagnosis(Inconclusive, None, false, false, signals, integrity)
    else
      Diagnosis(if fulltext || semantic then Diagnosed else NotReproduced, Some(ChosenAction(fulltext, semantic)),
                fulltext, semantic, signals, integrity)
  }

  // The semantic checks, in the checker's order.
  predicate ShapeAccepted(r: Report) {
    && r.publications == Publications(r.kind)
    && WellShaped(r.kind, r.control, r.epochs)
    && r.attempts == (r.publications + 1) * 6
  }

  function ExpectedAll(control: Group, epochs: seq<Group>): PerMode<Aggregate>
    requires AllMeasurable(control, epochs)
  {
    PerMode(ExpectedFor(Fulltext, control, epochs), ExpectedFor(Semantic, control, epochs),
            ExpectedFor(Hybrid, control, epochs))
  }

  predicate AggregatesAccepted(observed: PerMode<Aggregate>, expected: PerMode<Aggregate>) {
    && AggregateAccepted(observed.fulltext, expected.fulltext)
    && AggregateAccepted(observed.semantic, expected.semantic)
    && AggregateAccepted(observed.hybrid, expected.hybrid)
  }

  function SignalsOf(a: PerMode<Aggregate>): PerMode<nat> {
    PerMode(a.fulltext.signals, a.semantic.signals, a.hybrid.signals)
  }

  // The checks after the shape, against the recomputed samples and aggregates.
  predicate ContentAccepted(r: Report, samples: seq<Sample>, expected: PerMode<Aggregate>) {
    && CountsAccepted(r.counts, samples, r.attempts)
    && AggregatesAccepted(r.aggregates, expected)
    && r.diagnosis == ExpectedDiagnosis(r.kind, r.guards, SignalsOf(expected), CountOf(samples, ExactExpected),
                                        r.attempts, CountOf(samples, ProtocolError))
  }

  ghost predicate Validates(r: Report) {
    && ShapeAccepted(r)
    && AllMeasurable(r.control, r.epochs)
    && ContentAccepted(r, CheckedSamples([r.control] + r.epochs), ExpectedAll(r.control, r.epochs))
  }

  method Recompute(control: Group, epochs: seq<Group>) returns (a: PerMode<Aggregate>)
    requires AllMeasurable(control, epochs)
    ensures a == ExpectedAll(control, epochs)
  {
    var fulltext := ExpectedAggregate(Fulltext, control, epochs);
    var semantic := ExpectedAggregate(Semantic, control, epochs);
    var hybrid := ExpectedAggregate(Hybrid, control, epochs);
    return PerMode(fulltext, semantic, hybrid);
  }

  method Validate(r: Report) returns (ok: bool)
    ensures ok <==> Validates(r)
  {
    if !ShapeAccepted(r) { return false; }
    ShapedIsMeasurable(r.kind, r.control, r.epochs);
    var samples := CheckedSamples([r.control] + r.epochs);
    var expected := Recompute(r.control, r.epochs);
    return ContentAccepted(r, samples, expected);
  }

  // ---------- agreement ----------

  lemma ShapedGroups(kind: Kind, control: Group, epochs: seq<Group>)
    requires WellShaped(kind, control, epochs)
    ensures AllShaped([control] + epochs)
  {
    var groups := [control] + epochs;
    forall i | 0 <= i < |groups|
      ensures GroupAccepted(groups[i], groups[i].ordinal)
    {
      if i > 0 { assert groups[i] == epochs[i - 1]; }
    }
  }

  lemma ProducedCountsAccepted(kind: Kind, control: Group, epochs: seq<Group>)
    requires WellShaped(kind, control, epochs)
    ensures var produced, checked := ProducedSamples([control] + epochs), CheckedSamples([control] + epochs);
            && |produced| == (|epochs| + 1) * 6
            && CountsAccepted(ProducedCounts(produced), checked, |produced|)
            && CountOf(produced, ExactExpected) == CountOf(checked, ExactExpected)
            && CountOf(produced, ProtocolError) == CountOf(checked, ProtocolError)
  {
    ShapedGroups(kind, control, epochs);
    forall k: Outcome
      ensures CountOf(ProducedSamples([control] + epochs), k) == CountOf(CheckedSamples([control] + epochs), k)
    {
      CountsAgree([control] + epochs, k);
    }
    CountsAgree([control] + epochs, ExactExpected);
  }

  lemma ProducedAggregatesAccepted(control: Group, epochs: seq<Group>, produced: PerMode<Aggregate>)
    requires AllMeasurable(control, epochs)
    requires produced == PerMode(AggregateFor(Fulltext, control, epochs), AggregateFor(Semantic, control, epochs),
                                 AggregateFor(Hybrid, control, epochs))
    ensures AggregatesAccepted(produced, ExpectedAll(control, epochs))
    ensures SignalsOf(produced) == SignalsOf(ExpectedAll(control, epochs))
  {
    OwnAggregateAccepted(Fulltext, control, epochs);
    OwnAggregateAccepted(Semantic, control, epochs);
    OwnAggregateAccepted(Hybrid, control, epochs);
  }

  // Where the two decision procedures agree.
  lemma DecisionsAgreeIff(kind: Kind, guards: Guards, signals: PerMode<nat>, exact: nat, total: nat, errors: nat)
    ensures ProducedDiagnosis(kind, signals, exact, total, errors)
            == ExpectedDiagnosis(kind, guards, signals, exact, total, errors)
            <==> AllGuards(guards) || (kind == Smoke && exact != total)
  {}

  predicate AllExact(control: Group, epochs: seq<Group>) {
    var samples := ProducedSamples([control] + epochs);
    CountOf(samples, ExactExpected) == |samples|
  }

  /** For all well-shaped groups with an exact control, the checker accepts the assembled
      report exactly when all probes and the cleanup passed, or it is a smoke report with
      an inexact sample. */
  lemma AcceptedIffGuarded(kind: Kind, control: Group, epochs: seq<Group>, probes: (bool, bool, bool), cleanup: bool)
    requires WellShaped(kind, control, epochs)
    ensures AllMeasurable(control, epochs)
    ensures Validates(Assemble(kind, control, epochs, probes, cleanup)) <==>
            (probes.0 && probes.1 && probes.2 && cleanup) || (kind == Smoke && !AllExact(control, epochs))
  {
    ShapedIsMeasurable(kind, control, epochs);
    var r := Assemble(kind, control, epochs, probes, cleanup);
    AssembledAccepted(kind, control, epochs, probes, cleanup, r);
  }

  lemma AssembledAccepted(kind: Kind, control: Group, epochs: seq<Group>, probes: (bool, bool, bool), cleanup: bool,
                          r: Report)
    requires WellShaped(kind, control, epochs) && AllMeasurable(control, epochs)
    requires r == Assemble(kind, control, epochs, probes, cleanup)
    ensures Validates(r) <==> AllGuards(r.guards) || (r.kind == Smoke && !AllExact(control, epochs))
  {
    AssembledFacts(kind, control, epochs, probes, cleanup, r);
    ContentIffGuarded(r, CheckedSamples([control] + epochs), ExpectedAll(control, epochs));
  }

  lemma AssembledFacts(kind: Kind, control: Group, epochs: seq<Group>, probes: (bool, bool, bool), cleanup: bool,
                       r: Report)
    requires WellShaped(kind, control, epochs) && AllMeasurable(control, epochs)
    requires r == Assemble(kind, control, epochs, probes, cleanup)
    ensures ShapeAccepted(r)
    ensures CountsAccepted(r.counts, CheckedSamples([control] + epochs), r.attempts)
    ensures AllExact(control, epochs) <==> CountOf(CheckedSamples([control] + epochs), ExactExpected) == r.attempts
    ensures AggregatesAccepted(r.aggregates, ExpectedAll(control, epochs))
    ensures var samples := CheckedSamples([control] + epochs);
            r.diagnosis == ProducedDiagnosis(kind, SignalsOf(ExpectedAll(control, epochs)),
                                             CountOf(samples, ExactExpected), r.attempts, CountOf(samples, ProtocolError))
  {
    AssembledCounts(kind, control, epochs, probes, cleanup, r);
    AssembledDecision(kind, control, epochs, probes, cleanup, r);
  }

  lemma AssembledCounts(kind: Kind, control: Group, epochs: seq<Group>, probes: (bool, bool, bool), cleanup: bool,
                        r: Report)
    requires WellShaped(kind, control, epochs) && AllMeasurable(control, epochs)
    requires r == Assemble(kind, control, epochs, probes, cleanup)
    ensures ShapeAccepted(r)
    ensures CountsAccepted(r.counts, CheckedSamples([control] + epochs), r.attempts)
    ensures AllExact(control, epochs) <==> CountOf(CheckedSamples([control] + epochs), ExactExpected) == r.attempts
  {
    ProducedCountsAccepted(kind, control, epochs);
  }

  lemma AssembledDecision(kind: Kind, control: Group, epochs: seq<Group>, probes: (bool, bool, bool), cleanup: bool,
                          r: Report)
    requires WellShaped(kind, control, epochs) && AllMeasurable(control, epochs)
    requires r == Assemble(kind, control, epochs, probes, cleanup)
    ensures AggregatesAccepted(r.aggregates, ExpectedAll(control, epochs))
    ensures var samples := CheckedSamples([control] + epochs);
            r.diagnosis == ProducedDiagnosis(kind, SignalsOf(ExpectedAll(control, epochs)),
                                             CountOf(samples, ExactExpected), r.attempts, CountOf(samples, ProtocolError))
  {
    ProducedCountsAccepted(kind, control, epochs);
    ProducedAggregatesAccepted(control, epochs, r.aggregates);
  }

  lemma ContentIffGuarded(r: Report, samples: seq<Sample>, expected: PerMode<Aggregate>)
    requires r.diagnosis == ProducedDiagnosis(r.kind, SignalsOf(expected), CountOf(samples, ExactExpected),
                                              r.attempts, CountOf(samples, ProtocolError))
    ensures ContentAccepted(r, samples, expected) <==>
            && CountsAccepted(r.counts, samples, r.attempts)
            && AggregatesAccepted(r.aggregates, expected)
            && (AllGuards(r.guards) || (r.kind == Smoke && CountOf(samples, ExactExpected) != r.attempts))
  {
    DecisionsAgreeIff(r.kind, r.guards, SignalsOf(expected), CountOf(samples, ExactExpected), r.attempts,
                      CountOf(samples, ProtocolError));
  }

  // The report before it is checked, and whether it will pass.
  method ProduceReport(kind: Kind, control: Group, epochs: seq<Group>, probes: (bool, bool, bool), cleanup: bool)
    returns (r: Report)
    requires WellShaped(kind, control, epochs)
    ensures r.control == control && r.epochs == epochs
    ensures Validates(r) <==>
            (probes.0 && probes.1 && probes.2 && cleanup) || (kind == Smoke && !AllExact(control, epochs))
  {
    AcceptedIffGuarded(kind, control, epochs, probes, cleanup);
    r := AssembleReport(kind, control, epochs, probes, cleanup);
  }

  // Two accepted summaries of the same values.
  predicate SummariesNear(a: Summary, b: Summary) {
    && -0.006 <= a.p50 - b.p50 <= 0.006 && -0.006 <= a.p95 - b.p95 <= 0.006
    && -0.006 <= a.p99 - b.p99 <= 0.006 && -0.006 <= a.max - b.max <= 0.006
  }

  predicate AggregatesNear(a: Aggregate, b: Aggregate) {
    && a.epochPairs == b.epochPairs && a.completePairs == b.completePairs && a.signals == b.signals
    && SummariesNear(a.first, b.first) && SummariesNear(a.warm, b.warm) && SummariesNear(a.delta, b.delta)
    && SummariesNear(a.excess, b.excess) && SummariesNear(a.residual, b.residual)
  }

  lemma AcceptedAreNear(a: Aggregate, b: Aggregate, expected: Aggregate)
    requires AggregateAccepted(a, expected) && AggregateAccepted(b, expected)
    ensures AggregatesNear(a, b)
  {}

  lemma AcceptedCountsAgree(a: Counts, b: Counts, samples: seq<Sample>, attempts: nat)
    requires CountsAccepted(a, samples, attempts) && CountsAccepted(b, samples, attempts)
    ensures a == b
  {
    assert a.byOutcome == b.byOutcome;
  }

  lemma AcceptedContentAgrees(r: Report, q: Report, samples: seq<Sample>, expected: PerMode<Aggregate>)
    requires ContentAccepted(r, samples, expected) && ContentAccepted(q, samples, expected)
    requires r.kind == q.kind && r.guards == q.guards && r.attempts == q.attempts
    ensures r.counts == q.counts && r.diagnosis == q.diagnosis
    ensures AggregatesNear(r.aggregates.fulltext, q.aggregates.fulltext)
    ensures AggregatesNear(r.aggregates.semantic, q.aggregates.semantic)
    ensures AggregatesNear(r.aggregates.hybrid, q.aggregates.hybrid)
  {
    AcceptedCountsAgree(r.counts, q.counts, samples, r.attempts);
    AcceptedAreNear(r.aggregates.fulltext, q.aggregates.fulltext, expected.fulltext);
    AcceptedAreNear(r.aggregates.semantic, q.aggregates.semantic, expected.semantic);
    AcceptedAreNear(r.aggregates.hybrid, q.aggregates.hybrid, expected.hybrid);
  }

  /** The raw samples and guards leave a report no choice: two accepted reports on the same
      ones have the same counts and diagnosis, and summaries within twice the tolerance. */
  lemma AcceptedReportsAgree(r: Report, q: Report)
    requires Validates(r) && Validates(q)
    requires r.kind == q.kind && r.guards == q.guards && r.control == q.control && r.epochs == q.epochs
    ensures r.publications == q.publications && r.attempts == q.attempts
    ensures r.counts == q.counts && r.diagnosis == q.diagnosis
    ensures AggregatesNear(r.aggregates.fulltext, q.aggregates.fulltext)
    ensures AggregatesNear(r.aggregates.semantic, q.aggregates.semantic)
    ensures AggregatesNear(r.aggregates.hybrid, q.aggregates.hybrid)
    ensures Rising(r.aggregates.fulltext) && Rising(r.aggregates.semantic) && Rising(r.aggregates.hybrid)
  {
    AcceptedContentAgrees(r, q, CheckedSamples([r.control] + r.epochs), ExpectedAll(r.control, r.epochs));
  }

  predicate SummaryRises(s: Summary) {
    s.p50 <= s.p95 && s.p95 <= s.p99 && s.p99 <= s.max
  }

  predicate Rising(a: Aggregate) {
    && SummaryRises(a.first) && SummaryRises(a.warm) && SummaryRises(a.delta)
    && SummaryRises(a.excess) && SummaryRises(a.residual)
  }

  // ---------- what an accepted diagnosis says about the samples ----------

  // At least two epochs of a mode are slow or incomplete.
  ghost predicate Reproduced(mode: Mode, control: Group, epochs: seq<Group>)
    requires AllMeasurable(control, epochs)
  {
    |Signalling(PairsOf(mode, epochs), control.samples.At(mode))| >= 2
  }

  lemma ReproducedCounts(mode: Mode, control: Group, epochs: seq<Group>)
    requires AllMeasurable(control, epochs)
    ensures ExpectedFor(mode, control, epochs).signals >= 2 <==> Reproduced(mode, control, epochs)
  {
    SignalsCount(PairsOf(mode, epochs), control.samples.At(mode));
  }

  lemma {:induction false} CountIsAll(samples: seq<Sample>, k: Outcome)
    ensures CountOf(samples, k) <= |samples|
    ensures CountOf(samples, k) == |samples| <==> forall s :: s in samples ==> s.outcome == k
    ensures CountOf(samples, k) == 0 <==> forall s :: s in samples ==> s.outcome != k
  {
    if samples != [] {
      CountIsAll(samples[1..], k);
      assert samples == [samples[0]] + samples[1..];
    }
  }

  // The decision of a formal report, by which parts the samples reproduce.
  predicate CalledFor(d: Diagnosis, fulltext: bool, semantic: bool) {
    && (d.status == Diagnosed <==> fulltext || semantic)
    && (d.status == NotReproduced <==> !fulltext && !semantic)
    && (d.action == Some(CombinedBoundedFixIssue) <==> fulltext && semantic)
    && (d.action == Some(GenerationPublicationFixIssue) <==> fulltext && !semantic)
    && (d.action == Some(ResidentIsolationRerun) <==> !fulltext && semantic)
    && (d.action == Some(NoReproducedProductDefect) <==> !fulltext && !semantic)
    && (d.fulltextSignal <==> fulltext) && (d.semanticSignal <==> semantic)
  }

  lemma ExpectedIsCalledFor(guards: Guards, signals: PerMode<nat>, exact: nat, attempts: nat, errors: nat)
    requires AllGuards(guards)
    ensures CalledFor(ExpectedDiagnosis(FormalPublicWitness, guards, signals, exact, attempts, errors),
                      signals.fulltext >= 2, signals.semantic >= 2 || signals.hybrid >= 2)
  {}

  lemma AcceptedDiagnosis(r: Report, samples: seq<Sample>, expected: PerMode<Aggregate>)
    requires ContentAccepted(r, samples, expected)
    ensures r.diagnosis == ExpectedDiagnosis(r.kind, r.guards, SignalsOf(expected), CountOf(samples, ExactExpected),
                                             r.attempts, CountOf(samples, ProtocolError))
  {}

  lemma ContentCallsFor(r: Report, samples: seq<Sample>, expected: PerMode<Aggregate>)
    requires ContentAccepted(r, samples, expected) && r.kind == FormalPublicWitness && AllGuards(r.guards)
    ensures CalledFor(r.diagnosis, expected.fulltext.signals >= 2,
                      expected.semantic.signals >= 2 || expected.hybrid.signals >= 2)
  {
    AcceptedDiagnosis(r, samples, expected);
    ExpectedIsCalledFor(r.guards, SignalsOf(expected), CountOf(samples, ExactExpected), r.attempts,
                        CountOf(samples, ProtocolError));
  }

  /** A guarded formal report is accepted only with the diagnosis its raw samples call for. */
  lemma AcceptedDiagnosisMeans(r: Report)
    requires Validates(r) && r.kind == FormalPublicWitness && AllGuards(r.guards)
    ensures CalledFor(r.diagnosis, Reproduced(Fulltext, r.control, r.epochs),
                      Reproduced(Semantic, r.control, r.epochs) || Reproduced(Hybrid, r.control, r.epochs))
  {
    ReproducedCounts(Fulltext, r.control, r.epochs);
    ReproducedCounts(Semantic, r.control, r.epochs);
    ReproducedCounts(Hybrid, r.control, r.epochs);
    ContentCallsFor(r, CheckedSamples([r.control] + r.epochs), ExpectedAll(r.control, r.epochs));
  }

  // The status of a report, by its kind, its guards and its samples.
  predicate StatusFits(d: Diagnosis, kind: Kind, guarded: bool, allExact: bool, noErrors: bool) {
    && (d.status == Inconclusive <==> kind == FormalPublicWitness && !guarded)
    && (d.status == SmokePass <==> kind == Smoke && guarded && allExact)
    && (d.status == SmokeFailed <==> kind == Smoke && !(guarded && allExact))
    && (d.integrity <==> noErrors)
    && (kind == Smoke || !guarded ==> d.action == None && !d.fulltextSignal && !d.semanticSignal)
  }

  lemma ExpectedFits(kind: Kind, guards: Guards, signals: PerMode<nat>, exact: nat, attempts: nat, errors: nat)
    ensures StatusFits(ExpectedDiagnosis(kind, guards, signals, exact, attempts, errors),
                       kind, AllGuards(guards), exact == attempts, errors == 0)
  {}

  lemma SamplesAreCounted(r: Report)
    requires ShapeAccepted(r)
    ensures |CheckedSamples([r.control] + r.epochs)| == r.attempts
  {
    ShapedGroups(r.kind, r.control, r.epochs);
    CountsAgree([r.control] + r.epochs, ExactExpected);
  }

  lemma ContentFits(r: Report, samples: seq<Sample>, expected: PerMode<Aggregate>)
    requires ContentAccepted(r, samples, expected) && |samples| == r.attempts
    ensures StatusFits(r.diagnosis, r.kind, AllGuards(r.guards),
                       forall s :: s in samples ==> s.outcome == ExactExpected,
                       forall s :: s in samples ==> s.outcome != ProtocolError)
  {
    CountIsAll(samples, ExactExpected);
    CountIsAll(samples, ProtocolError);
    AcceptedDiagnosis(r, samples, expected);
    ExpectedFits(r.kind, r.guards, SignalsOf(expected), CountOf(samples, ExactExpected), r.attempts,
                 CountOf(samples, ProtocolError));
  }

  /** An accepted report without its guards is inconclusive or a failed smoke run; a smoke
      run passes exactly when it is guarded and all its samples are exact. */
  lemma AcceptedStatusMeans(r: Report)
    requires Validates(r)
    ensures var samples := CheckedSamples([r.control] + r.epochs);
            StatusFits(r.diagnosis, r.kind, AllGuards(r.guards),
                       forall s :: s in samples ==> s.outcome == ExactExpected,
                       forall s :: s in samples ==> s.outcome != ProtocolError)
  {
    SamplesAreCounted(r);
    ContentFits(r, CheckedSamples([r.control] + r.epochs), ExpectedAll(r.control, r.epochs));
  }

  /** Assembling and checking, as the producer does before it returns a report. */
  method BuildReport(kind: Kind, control: Group, epochs: seq<Group>, probes: (bool, bool, bool), cleanup: bool)
    returns (r: Option<Report>)
    requires WellShaped(kind, control, epochs)
    ensures r.Some? <==>
            (probes.0 && probes.1 && probes.2 && cleanup) || (kind == Smoke && !AllExact(control, epochs))
    ensures r.Some? ==> Validates(r.value) && r.value.control == control && r.value.epochs == epochs
  {
    var report := ProduceReport(kind, control, epochs, probes, cleanup);
    var ok := Validate(report);
    return if ok then Some(report) else None;
  }
}
