/** Assembling the publication report: per-mode aggregates over the epochs, outcome
    counts and the diagnosis. */
module OcrReport {
  import opened Wrappers
  import opened Sequences
  import opened Sorting
  import opened OcrSample

  datatype Pair = Pair(first: Sample, warm: Sample)

  datatype PerMode<+T> = PerMode(fulltext: T, semantic: T, hybrid: T) {
    function At(mode: Mode): T {
      match mode
      case Fulltext => fulltext
      case Semantic => semantic
      case Hybrid => hybrid
    }
  }

  datatype Group = Group(ordinal: Option<nat>, order: seq<Mode>, samples: PerMode<Pair>)

  const MODES: seq<Mode> := [Fulltext, Semantic, Hybrid]
  const SCHEDULE: seq<seq<Mode>> :=
    [[Hybrid, Fulltext, Semantic], [Fulltext, Semantic, Hybrid], [Semantic, Hybrid, Fulltext]]

  datatype Summary = Summary(p50: real, p95: real, p99: real, max: real)

  datatype Aggregate = Aggregate(
    epochPairs: nat, completePairs: nat,
    first: Summary, warm: Summary, delta: Summary, excess: Summary, residual: Summary,
    signals: nat)

  // ---------- latency summaries ----------

  predicate RealLe(a: real, b: real) { a <= b }

  // Position of a percentile: ceil(n * percent / 100) - 1, at least 0.
  function Rank(n: nat, percent: nat): nat {
    var c := (n * percent + 99) / 100;
    if c == 0 then 0 else c - 1
  }

  lemma RankBounds(n: nat, p: nat, q: nat)
    requires n >= 1 && p <= q <= 100
    ensures Rank(n, p) <= Rank(n, q) < n
  {
    assert n * p <= n * q <= n * 100;
  }

  function MaxOf(values: seq<real>): (m: real)
    requires values != []
    ensures m in values && forall i :: 0 <= i < |values| ==> values[i] <= m
  {
    if |values| == 1 then values[0]
    else
      var n := |values| - 1;
      var m := MaxOf(values[..n]);
      assert forall i :: 0 <= i < n ==> values[i] == values[..n][i];
      if values[n] > m then values[n] else m
  }

  /** The rank is the first position up to which at least `percent` of n values lie. */
  lemma RankMeans(n: nat, percent: nat, i: nat)
    requires n >= 1
    ensures 100 * (Rank(n, percent) + 1) >= n * percent
    ensures i < Rank(n, percent) ==> 100 * (i + 1) < n * percent
  {}

  function LatencySummary(values: seq<real>): Summary
    requires values != []
  {
    var ordered := Sort(values, RealLe);
    RankBounds(|values|, 50, 95);
    RankBounds(|values|, 95, 99);
    Summary(Round(ordered[Rank(|ordered|, 50)], MILLI), Round(ordered[Rank(|ordered|, 95)], MILLI),
            Round(ordered[Rank(|ordered|, 99)], MILLI), Round(MaxOf(ordered), MILLI))
  }

  lemma RealLeIsTotal()
    ensures TotalPreorder(RealLe)
  {}

  /** The reported percentiles never decrease, rounding included. */
  lemma SummaryIsMonotone(values: seq<real>)
    requires values != []
    ensures var s := LatencySummary(values); s.p50 <= s.p95 <= s.p99 <= s.max
  {
    var ordered := Sort(values, RealLe);
    var n := |ordered|;
    RealLeIsTotal();
    SortSorts(values, RealLe);
    RankBounds(n, 50, 95);
    RankBounds(n, 95, 99);
    SortedRounds(ordered, Rank(n, 50), Rank(n, 95));
    SortedRounds(ordered, Rank(n, 95), Rank(n, 99));
    RoundIsMonotone(ordered[Rank(n, 99)], MaxOf(ordered), MILLI);
  }

  // How many values are at most x.
  function AtMost(values: seq<real>, x: real): nat {
    |Keep(values, (v: real) => v <= x)|
  }

  lemma {:induction false} AtMostInSorted(ordered: seq<real>, k: nat, x: real)
    requires SortedBy(ordered, RealLe) && k <= |ordered|
    ensures (forall i :: 0 <= i < k ==> ordered[i] <= x) ==> AtMost(ordered, x) >= k
    ensures (forall i :: k <= i < |ordered| ==> ordered[i] > x) ==> AtMost(ordered, x) <= k
    decreases |ordered|
  {
    if ordered != [] {
      var n := |ordered| - 1;
      AtMostInSorted(ordered[..n], if k <= n then k else n, x);
      LastAtMost(ordered, x);
    }
  }

  lemma LastAtMost(values: seq<real>, x: real)
    requires values != []
    ensures AtMost(values, x) == AtMost(values[..|values| - 1], x) + if values[|values| - 1] <= x then 1 else 0
  {}

  lemma SortedAt(ordered: seq<real>, i: nat, j: nat)
    requires SortedBy(ordered, RealLe) && i <= j < |ordered|
    ensures ordered[i] <= ordered[j]
  {
    if i < j { assert RealLe(ordered[i], ordered[j]); }
  }

  lemma SortedReals(values: seq<real>)
    ensures SortedBy(Sort(values, RealLe), RealLe)
    ensures multiset(Sort(values, RealLe)) == multiset(values)
  {
    RealLeIsTotal();
    SortSorts(values, RealLe);
    SortPermutes(values, RealLe);
  }

  lemma SortedAtMost(ordered: seq<real>, k: nat)
    requires SortedBy(ordered, RealLe) && k < |ordered|
    ensures AtMost(ordered, ordered[k]) >= k + 1
    ensures forall x :: x < ordered[k] ==> AtMost(ordered, x) <= k
  {
    forall i | 0 <= i < k + 1
      ensures ordered[i] <= ordered[k]
    {
      SortedAt(ordered, i, k);
    }
    AtMostInSorted(ordered, k + 1, ordered[k]);
    forall x | x < ordered[k]
      ensures AtMost(ordered, x) <= k
    {
      forall i | k <= i < |ordered|
        ensures ordered[i] > x
      {
        SortedAt(ordered, k, i);
      }
      AtMostInSorted(ordered, k, x);
    }
  }

  // The value at position k is the least that `goal` hundredths do not exceed.
  predicate IsLeast(values: seq<real>, p: real, goal: int) {
    && p in values && 100 * AtMost(values, p) >= goal
    && forall i :: 0 <= i < |values| && values[i] < p ==> 100 * AtMost(values, values[i]) < goal
  }

  lemma LeastAt(values: seq<real>, ordered: seq<real>, k: nat, goal: int)
    requires SortedBy(ordered, RealLe) && multiset(ordered) == multiset(values) && k < |ordered|
    requires 100 * (k + 1) >= goal > 0 && (k > 0 ==> 100 * k < goal)
    ensures IsLeast(values, ordered[k], goal)
  {
    SortedAtMost(ordered, k);
    SameElements(ordered, values, ordered[k]);
    SameAtMost(values, ordered, ordered[k]);
    forall i | 0 <= i < |values| && values[i] < ordered[k]
      ensures 100 * AtMost(values, values[i]) < goal
    {
      SameAtMost(values, ordered, values[i]);
    }
  }

  // k is the first position with at least `goal` hundredths of positions up to it.
  predicate ReachesAt(k: int, goal: int) {
    100 * (k + 1) >= goal > 0 && (k > 0 ==> 100 * k < goal)
  }

  lemma RankReaches(n: nat, percent: nat)
    requires n >= 1 && 1 <= percent <= 100
    ensures Rank(n, percent) < n && ReachesAt(Rank(n, percent), n * percent)
  {
    var k := Rank(n, percent);
    RankBounds(n, percent, percent);
    RankMeans(n, percent, if k > 0 then k - 1 else 0);
    assert n * percent >= n;
  }

  lemma LeastInSorted(values: seq<real>, k: nat, goal: int)
    requires k < |values| && ReachesAt(k, goal)
    ensures IsLeast(values, Sort(values, RealLe)[k], goal)
  {
    SortedReals(values);
    LeastAt(values, Sort(values, RealLe), k, goal);
  }

  /** A percentile is the least of the values that at least `percent` of them do not
      exceed. */
  lemma PercentileMeans(values: seq<real>, percent: nat)
    requires values != [] && 1 <= percent <= 100
    ensures Rank(|values|, percent) < |values|
    ensures IsLeast(values, Sort(values, RealLe)[Rank(|values|, percent)], |values| * percent)
  {
    RankReaches(|values|, percent);
    LeastInSorted(values, Rank(|values|, percent), |values| * percent);
  }

  // Within half a thousandth.
  predicate NearMilli(a: real, b: real) {
    -0.0005 <= a - b <= 0.0005
  }

  /** A summary gives the percentiles 50, 95 and 99 and the maximum, rounded. */
  lemma SummaryIs(values: seq<real>) returns (p50: real, p95: real, p99: real, max: real)
    requires values != []
    ensures IsLeast(values, p50, |values| * 50) && NearMilli(LatencySummary(values).p50, p50)
    ensures IsLeast(values, p95, |values| * 95) && NearMilli(LatencySummary(values).p95, p95)
    ensures IsLeast(values, p99, |values| * 99) && NearMilli(LatencySummary(values).p99, p99)
    ensures max in values && (forall i :: 0 <= i < |values| ==> values[i] <= max)
    ensures NearMilli(LatencySummary(values).max, max)
  {
    p50 := RoundedPercentile(values, 50);
    p95 := RoundedPercentile(values, 95);
    p99 := RoundedPercentile(values, 99);
    max := MaxOf(Sort(values, RealLe));
    RoundIsClose(max, MILLI);
    MaxIsUpper(values);
  }

  lemma RoundedPercentile(values: seq<real>, percent: nat) returns (p: real)
    requires values != [] && 1 <= percent <= 100
    ensures Rank(|values|, percent) < |values| && p == Sort(values, RealLe)[Rank(|values|, percent)]
    ensures IsLeast(values, p, |values| * percent) && NearMilli(Round(p, MILLI), p)
  {
    PercentileMeans(values, percent);
    p := Sort(values, RealLe)[Rank(|values|, percent)];
    RoundIsClose(p, MILLI);
  }

  lemma MaxIsUpper(values: seq<real>)
    requires values != []
    ensures var max := MaxOf(Sort(values, RealLe)); max in values && forall i :: 0 <= i < |values| ==> values[i] <= max
  {
    var ordered := Sort(values, RealLe);
    SortPermutes(values, RealLe);
    SameElements(ordered, values, MaxOf(ordered));
    forall i | 0 <= i < |values|
      ensures values[i] <= MaxOf(ordered)
    {
      SameElements(ordered, values, values[i]);
    }
  }

  lemma SameAtMost(a: seq<real>, b: seq<real>, x: real)
    requires multiset(a) == multiset(b)
    ensures AtMost(a, x) == AtMost(b, x)
  {
    KeepPermutes(a, b, (v: real) => v <= x);
  }

  lemma SortedRounds(ordered: seq<real>, i: nat, j: nat)
    requires SortedBy(ordered, RealLe) && i <= j < |ordered|
    ensures Round(ordered[i], MILLI) <= Round(ordered[j], MILLI)
  {
    if i < j { assert RealLe(ordered[i], ordered[j]); }
    RoundIsMonotone(ordered[i], ordered[j], MILLI);
  }

  // ---------- measurements of one pair ----------

  predicate IsComplete(p: Pair) {
    p.first.outcome in VALID_COMPLETIONS && p.warm.outcome in VALID_COMPLETIONS
  }

  // A complete pair has residuals, and the warm wall time can be divided by.
  predicate PairMeasurable(p: Pair) {
    p.warm.client > 0.0 && (IsComplete(p) ==> p.first.unclassified.Some? && p.warm.unclassified.Some?)
  }

  predicate Measurable(mode: Mode, control: Group, epochs: seq<Group>) {
    && IsComplete(control.samples.At(mode)) && PairMeasurable(control.samples.At(mode))
    && forall i :: 0 <= i < |epochs| ==> PairMeasurable(epochs[i].samples.At(mode))
  }

  function Delta(p: Pair): real {
    p.first.client - p.warm.client
  }

  function RawResidual(p: Pair): real
    requires PairMeasurable(p) && IsComplete(p)
  {
    p.first.unclassified.value - p.warm.unclassified.value
  }

  function Residual(p: Pair, control: Pair): real
    requires PairMeasurable(p) && PairMeasurable(control) && IsComplete(control)
  {
    if IsComplete(p) then RawResidual(p) - RawResidual(control) else 0.0
  }

  // A pair signals when it is incomplete, or slow beyond all three thresholds.
  predicate Signals(p: Pair, control: Pair)
    requires PairMeasurable(p) && PairMeasurable(control) && IsComplete(control)
  {
    IsComplete(p) ==>
      && Delta(p) - Delta(control) >= 20.0
      && p.first.client / p.warm.client >= 1.5
      && Residual(p, control) >= 15.0
  }

  // ---------- aggregates ----------

  function PairsOf(mode: Mode, epochs: seq<Group>): (ps: seq<Pair>)
    ensures |ps| == |epochs|
    ensures forall i :: 0 <= i < |ps| ==> ps[i] == epochs[i].samples.At(mode)
  {
    seq(|epochs|, i requires 0 <= i < |epochs| => epochs[i].samples.At(mode))
  }

  predicate PairsMeasurable(ps: seq<Pair>) {
    forall i :: 0 <= i < |ps| ==> PairMeasurable(ps[i])
  }

  function CompleteCount(ps: seq<Pair>): nat {
    if ps == [] then 0 else CompleteCount(ps[..|ps| - 1]) + if IsComplete(ps[|ps| - 1]) then 1 else 0
  }

  function SignalCount(ps: seq<Pair>, control: Pair): nat
    requires PairsMeasurable(ps) && PairMeasurable(control) && IsComplete(control)
  {
    if ps == [] then 0
    else SignalCount(ps[..|ps| - 1], control) + if Signals(ps[|ps| - 1], control) then 1 else 0
  }

  function Column(ps: seq<Pair>, f: Pair --> real): (xs: seq<real>)
    requires forall i :: 0 <= i < |ps| ==> f.requires(ps[i])
    ensures |xs| == |ps|
    ensures forall i :: 0 <= i < |xs| ==> xs[i] == f(ps[i])
  {
    seq(|ps|, i requires 0 <= i < |ps| => f(ps[i]))
  }

  function Firsts(ps: seq<Pair>): seq<real> { Column(ps, (p: Pair) => p.first.client) }
  function Warms(ps: seq<Pair>): seq<real> { Column(ps, (p: Pair) => p.warm.client) }
  function Deltas(ps: seq<Pair>): seq<real> { Column(ps, Delta) }
  function Excesses(ps: seq<Pair>, control: Pair): seq<real> {
    Column(ps, (p: Pair) => Delta(p) - Delta(control))
  }
  function Residuals(ps: seq<Pair>, control: Pair): seq<real>
    requires PairsMeasurable(ps) && PairMeasurable(control) && IsComplete(control)
  {
    Column(ps, (p: Pair) requires PairMeasurable(p) => Residual(p, control))
  }

  // What both sides mean by the aggregate of a mode.
  function AggregateOf(ps: seq<Pair>, control: Pair): Aggregate
    requires ps != [] && PairsMeasurable(ps) && PairMeasurable(control) && IsComplete(control)
  {
    Aggregate(|ps|, CompleteCount(ps),
              LatencySummary(Firsts(ps)), LatencySummary(Warms(ps)), LatencySummary(Deltas(ps)),
              LatencySummary(Excesses(ps, control)), LatencySummary(Residuals(ps, control)),
              SignalCount(ps, control))
  }

  // The lists and counts collected over the first pairs.
  datatype Columns = Columns(
    firsts: seq<real>, warms: seq<real>, deltas: seq<real>, excesses: seq<real>, residuals: seq<real>,
    complete: nat, signals: nat)

  function ColumnsOf(ps: seq<Pair>, control: Pair): Columns
    requires PairsMeasurable(ps) && PairMeasurable(control) && IsComplete(control)
  {
    Columns(Firsts(ps), Warms(ps), Deltas(ps), Excesses(ps, control), Residuals(ps, control),
            CompleteCount(ps), SignalCount(ps, control))
  }

  function Extend(c: Columns, p: Pair, control: Pair): Columns
    requires PairMeasurable(p) && PairMeasurable(control) && IsComplete(control)
  {
    Columns(c.firsts + [p.first.client], c.warms + [p.warm.client], c.deltas + [Delta(p)],
            c.excesses + [Delta(p) - Delta(control)], c.residuals + [Residual(p, control)],
            c.complete + (if IsComplete(p) then 1 else 0), c.signals + if Signals(p, control) then 1 else 0)
  }

  lemma ColumnsGrow(ps: seq<Pair>, control: Pair, p: Pair)
    requires PairsMeasurable(ps + [p]) && PairMeasurable(control) && IsComplete(control)
    ensures PairsMeasurable(ps) && PairMeasurable(p)
    ensures ColumnsOf(ps + [p], control) == Extend(ColumnsOf(ps, control), p, control)
  {
    assert (ps + [p])[|ps|] == p;
    assert forall i :: 0 <= i < |ps| ==> (ps + [p])[i] == ps[i];
    assert (ps + [p])[..|ps|] == ps;
    assert Residuals(ps + [p], control) == Residuals(ps, control) + [Residual(p, control)];
  }

  // When a pair counts as a signal, in the recorded times.
  predicate SlowOrIncomplete(p: Pair, control: Pair)
    requires PairMeasurable(p) && PairMeasurable(control) && IsComplete(control)
  {
    || !(p.first.outcome in {ExactExpected, ValidEpochResultChange})
    || !(p.warm.outcome in {ExactExpected, ValidEpochResultChange})
    || (var excess := p.first.client - p.warm.client - (control.first.client - control.warm.client);
        var residual := p.first.unclassified.value - p.warm.unclassified.value
                        - (control.first.unclassified.value - control.warm.unclassified.value);
        excess >= 20.0 && 2.0 * p.first.client >= 3.0 * p.warm.client && residual >= 15.0)
  }

  lemma RatioMeans(a: real, b: real)
    requires b > 0.0
    ensures a / b >= 1.5 <==> 2.0 * a >= 3.0 * b
  {
    assert a / b * b == a;
  }

  lemma SignalMeans(p: Pair, control: Pair)
    requires PairMeasurable(p) && PairMeasurable(control) && IsComplete(control)
    ensures Signals(p, control) <==> SlowOrIncomplete(p, control)
  {
    RatioMeans(p.first.client, p.warm.client);
  }

  ghost function Signalling(ps: seq<Pair>, control: Pair): set<nat>
    requires PairsMeasurable(ps) && PairMeasurable(control) && IsComplete(control)
  {
    set i: nat | i < |ps| && SlowOrIncomplete(ps[i], control)
  }

  /** The signals count the epochs that were incomplete or slow beyond all thresholds. */
  lemma {:induction false} SignalsCount(ps: seq<Pair>, control: Pair)
    requires PairsMeasurable(ps) && PairMeasurable(control) && IsComplete(control)
    ensures SignalCount(ps, control) == |Signalling(ps, control)|
  {
    if ps != [] {
      var n := |ps| - 1;
      SignalsCount(ps[..n], control);
      SignalMeans(ps[n], control);
      var before, now := Signalling(ps[..n], control), Signalling(ps, control);
      if Signals(ps[n], control) {
        assert now == before + {n};
      } else {
        assert now == before;
      }
    }
  }

  /** Each column holds one value per epoch, in the recorded times. */
  lemma ColumnsMean(ps: seq<Pair>, control: Pair, i: nat)
    requires PairsMeasurable(ps) && PairMeasurable(control) && IsComplete(control) && i < |ps|
    ensures var c, p := ColumnsOf(ps, control), ps[i];
            && |c.firsts| == |c.warms| == |c.deltas| == |c.excesses| == |c.residuals| == |ps|
            && c.firsts[i] == p.first.client && c.warms[i] == p.warm.client
            && c.deltas[i] == p.first.client - p.warm.client
            && c.excesses[i] == p.first.client - p.warm.client - (control.first.client - control.warm.client)
            && (IsComplete(p) ==>
                  c.residuals[i] == p.first.unclassified.value - p.warm.unclassified.value
                                    - (control.first.unclassified.value - control.warm.unclassified.value))
            && (!IsComplete(p) ==> c.residuals[i] == 0.0)
  {}

  method AddPair(c: Columns, pair: Pair, control: Pair) returns (next: Columns)
    requires PairMeasurable(pair) && PairMeasurable(control) && IsComplete(control)
    ensures next == Extend(c, pair, control)
  {
    var controlDelta := control.first.client - control.warm.client;
    var controlResidual := control.first.unclassified.value - control.warm.unclassified.value;
    var delta := pair.first.client - pair.warm.client;
    var excess := delta - controlDelta;
    var complete, residual, signalled := c.complete, 0.0, true;
    if IsComplete(pair) {
      complete := complete + 1;
      residual := pair.first.unclassified.value - pair.warm.unclassified.value - controlResidual;
      signalled := excess >= 20.0 && pair.first.client / pair.warm.client >= 1.5 && residual >= 15.0;
    }
    next := Columns(c.firsts + [pair.first.client], c.warms + [pair.warm.client], c.deltas + [delta],
                    c.excesses + [excess], c.residuals + [residual],
                    complete, c.signals + if signalled then 1 else 0);
  }

  method CollectColumns(mode: Mode, epochs: seq<Group>, control: Pair) returns (c: Columns)
    requires PairsMeasurable(PairsOf(mode, epochs)) && PairMeasurable(control) && IsComplete(control)
    ensures c == ColumnsOf(PairsOf(mode, epochs), control)
  {
    ghost var ps := PairsOf(mode, epochs);
    c := Columns([], [], [], [], [], 0, 0);
    for i := 0 to |epochs|
      invariant c == ColumnsOf(ps[..i], control)
    {
      var pair := epochs[i].samples.At(mode);
      assert ps[..i + 1] == ps[..i] + [pair];
      ColumnsGrow(ps[..i], control, pair);
      c := AddPair(c, pair, control);
    }
    assert ps[..|ps|] == ps;
  }

  function Summarised(c: Columns, n: nat): Aggregate
    requires c.firsts != [] && c.warms != [] && c.deltas != [] && c.excesses != [] && c.residuals != []
  {
    Aggregate(n, c.complete, LatencySummary(c.firsts), LatencySummary(c.warms),
              LatencySummary(c.deltas), LatencySummary(c.excesses), LatencySummary(c.residuals), c.signals)
  }

  /** The producer's aggregation loop. */
  method AggregateMode(mode: Mode, control: Group, epochs: seq<Group>) returns (a: Aggregate)
    requires Measurable(mode, control, epochs) && epochs != []
    ensures a == AggregateOf(PairsOf(mode, epochs), control.samples.At(mode))
  {
    var c := CollectColumns(mode, epochs, control.samples.At(mode));
    return Summarised(c, |epochs|);
  }

  // ---------- the report ----------

  datatype Kind = Smoke | FormalPublicWitness

  datatype Status = SmokePass | SmokeFailed | Inconclusive | Diagnosed | NotReproduced

  datatype Action =
    | CombinedBoundedFixIssue | GenerationPublicationFixIssue
    | ResidentIsolationRerun | NoReproducedProductDefect

  datatype Guards = Guards(
    allPublicationsObserved: bool, epochStepsExact: bool,
    oracleProbe: bool, transportProbe: bool, protocolProbe: bool, cleanup: bool)

  datatype Counts = Counts(attempted: nat, byOutcome: map<Outcome, nat>, completedValid: int, degraded: int, conserved: bool)

  datatype Diagnosis = Diagnosis(
    status: Status, action: Option<Action>, fulltextSignal: bool, semanticSignal: bool,
    signals: PerMode<nat>, integrity: bool)

  datatype Report = Report(
    kind: Kind, publications: nat, attempts: nat, guards: Guards,
    control: Group, epochs: seq<Group>,
    counts: Counts, aggregates: PerMode<Aggregate>, diagnosis: Diagnosis)

  const OUTCOMES: set<Outcome> :=
    {ExactExpected, ValidEpochResultChange, DeadlinePartial, SemanticPartial,
     Overload, HttpError, ProtocolError, TransportError, Cancelled}

  // The samples of a group, mode by mode.
  function GroupSamples(g: Group, modes: seq<Mode>): seq<Sample> {
    if modes == [] then []
    else [g.samples.At(modes[0]).first, g.samples.At(modes[0]).warm] + GroupSamples(g, modes[1..])
  }

  function CountOf(samples: seq<Sample>, outcome: Outcome): nat {
    if samples == [] then 0
    else (if samples[0].outcome == outcome then 1 else 0) + CountOf(samples[1..], outcome)
  }

  // The producer walks each group in its recorded order.
  function ProducedSamples(groups: seq<Group>): seq<Sample> {
    if groups == [] then [] else GroupSamples(groups[0], groups[0].order) + ProducedSamples(groups[1..])
  }

  function ChosenAction(fulltext: bool, semantic: bool): Action {
    if fulltext && semantic then CombinedBoundedFixIssue
    else if fulltext then GenerationPublicationFixIssue
    else if semantic then ResidentIsolationRerun
    else NoReproducedProductDefect
  }

  function ProducedDiagnosis(kind: Kind, signals: PerMode<nat>, exact: nat, total: nat, protocolErrors: nat): Diagnosis
  {
    var fulltext := signals.fulltext >= 2;
    var semantic := signals.semantic >= 2 || signals.hybrid >= 2;
    if kind == Smoke then
      Diagnosis(if exact == total then SmokePass else SmokeFailed, None, false, false, signals, protocolErrors == 0)
    else
      Diagnosis(if fulltext || semantic then Diagnosed else NotReproduced, Some(ChosenAction(fulltext, semantic)),
                fulltext, semantic, signals, protocolErrors == 0)
  }

  predicate AllMeasurable(control: Group, epochs: seq<Group>) {
    epochs != [] && Measurable(Fulltext, control, epochs)
    && Measurable(Semantic, control, epochs) && Measurable(Hybrid, control, epochs)
  }

  function AggregateFor(mode: Mode, control: Group, epochs: seq<Group>): Aggregate
    requires AllMeasurable(control, epochs)
  {
    AggregateOf(PairsOf(mode, epochs), control.samples.At(mode))
  }

  function ProducedCounts(samples: seq<Sample>): Counts {
    var valid := CountOf(samples, ExactExpected) + CountOf(samples, ValidEpochResultChange);
    Counts(|samples|, map k | k in OUTCOMES :: CountOf(samples, k), valid, |samples| - valid, true)
  }

  /** The report the producer assembles before it is checked. */
  function Assemble(kind: Kind, control: Group, epochs: seq<Group>, probes: (bool, bool, bool), cleanup: bool): Report
    requires AllMeasurable(control, epochs)
  {
    var samples := ProducedSamples([control] + epochs);
    var aggregates := PerMode(AggregateFor(Fulltext, control, epochs), AggregateFor(Semantic, control, epochs),
                              AggregateFor(Hybrid, control, epochs));
    var signals := PerMode(aggregates.fulltext.signals, aggregates.semantic.signals, aggregates.hybrid.signals);
    Report(kind, |epochs|, |samples|, Guards(true, true, probes.0, probes.1, probes.2, cleanup),
           control, epochs, ProducedCounts(samples), aggregates,
           ProducedDiagnosis(kind, signals, CountOf(samples, ExactExpected), |samples|, CountOf(samples, ProtocolError)))
  }

  method AssembleReport(kind: Kind, control: Group, epochs: seq<Group>, probes: (bool, bool, bool), cleanup: bool)
    returns (r: Report)
    requires AllMeasurable(control, epochs)
    ensures r == Assemble(kind, control, epochs, probes, cleanup)
  {
    var samples := ProducedSamples([control] + epochs);
    var fulltext := AggregateMode(Fulltext, control, epochs);
    var semantic := AggregateMode(Semantic, control, epochs);
    var hybrid := AggregateMode(Hybrid, control, epochs);
    var signals := PerMode(fulltext.signals, semantic.signals, hybrid.signals);
    r := Report(kind, |epochs|, |samples|, Guards(true, true, probes.0, probes.1, probes.2, cleanup),
                control, epochs, ProducedCounts(samples), PerMode(fulltext, semantic, hybrid),
                ProducedDiagnosis(kind, signals, CountOf(samples, ExactExpected), |samples|,
                                  CountOf(samples, ProtocolError)));
  }
}
