/** The ranking part of the quality comparison: rank the passages of each query under two
    models and summarise how far the candidate drifts from the control. */
module QualitySummary {
  import opened Wrappers
  import opened Sequences
  import opened Sorting
  import opened Ndcg
  import opened Rearrangement

  const QUERY_COUNT: nat := 20
  const PASSAGE_COUNT: nat := 40
  const TOP_K: nat := 10

  datatype QualityError = QualityContractMismatch

  datatype Summary = Summary(
    aggregateOverlap: real,
    minimumOverlap: real,
    top1Agreement: real,
    meanNdcg: real,
    ndcgDrop: real)

  function Score(scores: seq<real>, i: int): real {
    if 0 <= i < |scores| then scores[i] else 0.0
  }

  // Higher scores first, ties by index.
  function RankLe(scores: seq<real>): (int, int) -> bool {
    (i, j) => Score(scores, i) > Score(scores, j) || (Score(scores, i) == Score(scores, j) && i <= j)
  }

  function Indices(n: nat): (r: seq<int>)
    ensures |r| == n && forall i :: 0 <= i < n ==> r[i] == i
  {
    seq(n, i => i)
  }

  function RankedPassages(scores: seq<real>): (r: seq<int>)
    ensures |r| == |scores|
  {
    Sort(Indices(|scores|), RankLe(scores))
  }

  /** A ranking lists every passage once, best score first and ties by position. */
  lemma RankingIsAPermutation(scores: seq<real>)
    ensures multiset(RankedPassages(scores)) == multiset(Indices(|scores|))
    ensures Distinct(RankedPassages(scores))
    ensures SortedBy(RankedPassages(scores), RankLe(scores))
  {
    SortPermutes(Indices(|scores|), RankLe(scores));
    SortSorts(Indices(|scores|), RankLe(scores));
    PartIsDistinct(Indices(|scores|), RankedPassages(scores));
  }

  /** Of two entries the earlier has the higher score, or the same and the smaller index. */
  lemma RankingIsByScore(scores: seq<real>, i: nat, j: nat)
    requires i < j < |scores|
    ensures var r := RankedPassages(scores);
            && 0 <= r[i] < |scores| && 0 <= r[j] < |scores|
            && (scores[r[i]] > scores[r[j]] || (scores[r[i]] == scores[r[j]] && r[i] < r[j]))
  {
    var r := RankedPassages(scores);
    RankingIsAPermutation(scores);
    RankIsAnIndex(scores, i);
    RankIsAnIndex(scores, j);
    assert RankLe(scores)(r[i], r[j]);
  }

  lemma RankIsAnIndex(scores: seq<real>, i: nat)
    requires i < |scores|
    ensures 0 <= RankedPassages(scores)[i] < |scores|
  {
    RankingIsAPermutation(scores);
    var r := RankedPassages(scores);
    SameElements(r, Indices(|scores|), r[i]);
  }

  function Elements(s: seq<int>): set<int> {
    set x | x in s
  }

  function Overlap(base: seq<int>, head: seq<int>): real {
    |Elements(Take(base, TOP_K)) * Elements(Take(head, TOP_K))| as real / TOP_K as real
  }

  function Mean(xs: seq<real>): real
    requires xs != []
  {
    SumOf(xs) / |xs| as real
  }

  // All values in [0, 1].
  predicate UnitRange(xs: seq<real>) {
    forall i :: 0 <= i < |xs| ==> 0.0 <= xs[i] <= 1.0
  }

  lemma {:induction false} SumOfUnits(xs: seq<real>)
    requires UnitRange(xs)
    ensures 0.0 <= SumOf(xs) <= |xs| as real
    ensures SumOf(xs) == |xs| as real <==> forall i :: 0 <= i < |xs| ==> xs[i] == 1.0
  {
    if xs != [] {
      var n := |xs| - 1;
      SumOfUnits(xs[..n]);
      if SumOf(xs) == |xs| as real {
        forall i | 0 <= i < |xs|
          ensures xs[i] == 1.0
        {
          if i < n { assert xs[..n][i] == xs[i]; }
        }
      }
    }
  }

  /** A mean of values in [0, 1] is 1 exactly when they all are. */
  lemma MeanOfUnits(xs: seq<real>)
    requires UnitRange(xs) && xs != []
    ensures 0.0 <= Mean(xs) <= 1.0
    ensures Mean(xs) == 1.0 <==> forall i :: 0 <= i < |xs| ==> xs[i] == 1.0
  {
    SumOfUnits(xs);
    RatioBound(SumOf(xs), |xs| as real);
  }

  lemma {:induction false} ElementsCount(s: seq<int>)
    requires Distinct(s)
    ensures |Elements(s)| == |s|
  {
    if s != [] {
      ElementsCount(s[1..]);
      assert Elements(s) == {s[0]} + Elements(s[1..]);
    }
  }

  lemma SubsetCount(a: set<int>, b: set<int>)
    requires a <= b
    ensures |a| <= |b|
    ensures |a| == |b| ==> a == b
  {
    assert b == a + (b - a);
    assert |b| == |a| + |b - a|;
  }

  /** The overlap lies in [0, 1] and is 1 exactly when both top lists hold the same passages. */
  lemma OverlapBound(base: seq<int>, head: seq<int>)
    requires Distinct(base) && Distinct(head) && |base| >= TOP_K && |head| >= TOP_K
    ensures 0.0 <= Overlap(base, head) <= 1.0
    ensures Overlap(base, head) == 1.0 <==> Elements(Take(base, TOP_K)) == Elements(Take(head, TOP_K))
  {
    var b, h := Elements(Take(base, TOP_K)), Elements(Take(head, TOP_K));
    ElementsCount(Take(base, TOP_K));
    ElementsCount(Take(head, TOP_K));
    SubsetCount(b * h, b);
    SubsetCount(b * h, h);
    RatioBound(|b * h| as real, TOP_K as real);
    if b == h { assert b * h == b; }
  }

  /** Times ten, the overlap counts the candidate's top passages that the control has in its
      top. */
  lemma OverlapCounts(base: seq<int>, head: seq<int>)
    requires Distinct(head)
    ensures Overlap(base, head) * 10.0 == |Keep(Take(head, 10), (p: int) => p in Take(base, 10))| as real
  {
    var b, h := Take(base, TOP_K), Take(head, TOP_K);
    var common := Keep(h, (p: int) => p in b);
    CommonIsDistinct(h, (p: int) => p in b);
    ElementsCount(common);
    assert Elements(common) == Elements(b) * Elements(h);
  }

  lemma CommonIsDistinct(s: seq<int>, p: int -> bool)
    requires Distinct(s)
    ensures Distinct(Keep(s, p))
  {
    forall x
      ensures multiset(Keep(s, p))[x] <= multiset(s)[x]
    {
      KeepCounts(s, p, x);
    }
    PartIsDistinct(s, Keep(s, p));
  }

  /** A mean times the number of values is their total. */
  lemma MeanIsTotal(xs: seq<real>)
    requires xs != []
    ensures IsScore(Mean(xs), Total(|xs|, EntryOf(xs)), |xs| as real)
  {
    SumIsTotal(xs, |xs|);
    assert xs[..|xs|] == xs;
    Quotient(Mean(xs), SumOf(xs), |xs| as real);
  }

  // One row of scores per query, one score per passage.
  predicate WellShaped(rows: seq<seq<real>>) {
    |rows| == QUERY_COUNT && forall q :: 0 <= q < |rows| ==> |rows[q]| == PASSAGE_COUNT
  }

  function TopOf(scores: seq<real>): seq<int> {
    Take(RankedPassages(scores), TOP_K)
  }

  function NdcgOf(control: seq<real>, candidate: seq<real>, d: nat -> real): Result<real, RankingError> {
    ControlReferencedNdcg(RankedPassages(control), RankedPassages(candidate), TOP_K, d)
  }

  function OverlapOf(control: seq<real>, candidate: seq<real>): real {
    Overlap(RankedPassages(control), RankedPassages(candidate))
  }

  lemma QueryBounds(control: seq<real>, candidate: seq<real>, d: nat -> real)
    requires Discount(d) && |control| == |candidate| == PASSAGE_COUNT
    ensures NdcgOf(control, candidate, d).Success?
    ensures 0.0 <= NdcgOf(control, candidate, d).value <= 1.0
    ensures NdcgOf(control, candidate, d).value == 1.0 <==> TopOf(control) == TopOf(candidate)
  {
    RankingIsAPermutation(control);
    RankingIsAPermutation(candidate);
    NdcgBound(RankedPassages(control), RankedPassages(candidate), TOP_K, d);
    NdcgOneIffSameTop(RankedPassages(control), RankedPassages(candidate), TOP_K, d);
  }

  lemma NdcgSucceeds(control: seq<real>, candidate: seq<real>, d: nat -> real)
    requires Discount(d) && |control| == |candidate| == PASSAGE_COUNT
    ensures NdcgOf(control, candidate, d).Success?
  {
    QueryBounds(control, candidate, d);
  }

  predicate SameFirst(control: seq<real>, candidate: seq<real>)
    requires control != [] && candidate != []
  {
    RankedPassages(control)[0] == RankedPassages(candidate)[0]
  }

  predicate IsMinimum(m: real, xs: seq<real>) {
    m in xs && forall i :: 0 <= i < |xs| ==> m <= xs[i]
  }

  method Minimum(xs: seq<real>) returns (m: real)
    requires xs != []
    ensures IsMinimum(m, xs)
  {
    m := xs[0];
    for i := 1 to |xs|
      invariant m in xs && forall j :: 0 <= j < i ==> m <= xs[j]
    {
      if xs[i] < m { m := xs[i]; }
    }
  }

  function Matches(control: seq<seq<real>>, candidate: seq<seq<real>>, q: nat): (n: nat)
    requires WellShaped(control) && WellShaped(candidate) && q <= QUERY_COUNT
    ensures n <= q
    ensures n == q <==> forall j :: 0 <= j < q ==> SameFirst(control[j], candidate[j])
  {
    if q == 0 then 0
    else Matches(control, candidate, q - 1) + if SameFirst(control[q - 1], candidate[q - 1]) then 1 else 0
  }

  function FirstsAgree(control: seq<seq<real>>, candidate: seq<seq<real>>): nat -> bool
    requires WellShaped(control) && WellShaped(candidate)
  {
    (q: nat) => q < QUERY_COUNT && RankedPassages(control[q])[0] == RankedPassages(candidate[q])[0]
  }

  /** The matches count the queries whose first passages agree. */
  lemma {:induction false} MatchesCount(control: seq<seq<real>>, candidate: seq<seq<real>>, n: nat)
    requires WellShaped(control) && WellShaped(candidate) && n <= QUERY_COUNT
    ensures Matches(control, candidate, n) == |Below(n, FirstsAgree(control, candidate))|
  {
    if n > 0 {
      MatchesCount(control, candidate, n - 1);
      BelowNext(n - 1, FirstsAgree(control, candidate));
    }
  }

  // The first n queries' overlaps, and their scores.
  function Overlaps(control: seq<seq<real>>, candidate: seq<seq<real>>, n: nat): (xs: seq<real>)
    requires WellShaped(control) && WellShaped(candidate) && n <= QUERY_COUNT
    ensures |xs| == n
  {
    if n == 0 then []
    else Overlaps(control, candidate, n - 1) + [OverlapOf(control[n - 1], candidate[n - 1])]
  }

  ghost function Ndcgs(control: seq<seq<real>>, candidate: seq<seq<real>>, d: nat -> real, n: nat): (xs: seq<real>)
    requires WellShaped(control) && WellShaped(candidate) && Discount(d) && n <= QUERY_COUNT
    ensures |xs| == n
  {
    if n == 0 then []
    else
      NdcgSucceeds(control[n - 1], candidate[n - 1], d);
      Ndcgs(control, candidate, d, n - 1) + [NdcgOf(control[n - 1], candidate[n - 1], d).value]
  }

  lemma {:induction false} OverlapsAt(control: seq<seq<real>>, candidate: seq<seq<real>>, n: nat, q: nat)
    requires WellShaped(control) && WellShaped(candidate) && q < n <= QUERY_COUNT
    ensures Overlaps(control, candidate, n)[q] == OverlapOf(control[q], candidate[q])
  {
    if q < n - 1 { OverlapsAt(control, candidate, n - 1, q); }
  }

  lemma {:induction false} NdcgsAt(control: seq<seq<real>>, candidate: seq<seq<real>>, d: nat -> real, n: nat, q: nat)
    requires WellShaped(control) && WellShaped(candidate) && Discount(d) && q < n <= QUERY_COUNT
    ensures Success(Ndcgs(control, candidate, d, n)[q]) == NdcgOf(control[q], candidate[q], d)
  {
    if q < n - 1 {
      NdcgsAt(control, candidate, d, n - 1, q);
    } else {
      NdcgSucceeds(control[q], candidate[q], d);
    }
  }

  method CompareQueries(control: seq<seq<real>>, candidate: seq<seq<real>>, d: nat -> real)
    returns (overlaps: seq<real>, ndcgs: seq<real>, matches: nat)
    requires WellShaped(control) && WellShaped(candidate) && Discount(d)
    ensures overlaps == Overlaps(control, candidate, QUERY_COUNT)
    ensures ndcgs == Ndcgs(control, candidate, d, QUERY_COUNT)
    ensures matches == Matches(control, candidate, QUERY_COUNT)
  {
    overlaps, ndcgs, matches := [], [], 0;
    for q := 0 to QUERY_COUNT
      invariant overlaps == Overlaps(control, candidate, q) && ndcgs == Ndcgs(control, candidate, d, q)
      invariant matches == Matches(control, candidate, q)
    {
      overlaps := overlaps + [OverlapOf(control[q], candidate[q])];
      NdcgSucceeds(control[q], candidate[q], d);
      ndcgs := ndcgs + [NdcgOf(control[q], candidate[q], d).value];
      if SameFirst(control[q], candidate[q]) { matches := matches + 1; }
    }
  }

  predicate SameTops(control: seq<seq<real>>, candidate: seq<seq<real>>)
    requires WellShaped(control) && WellShaped(candidate)
  {
    forall q :: 0 <= q < QUERY_COUNT ==> TopOf(control[q]) == TopOf(candidate[q])
  }

  predicate SameTopSets(control: seq<seq<real>>, candidate: seq<seq<real>>)
    requires WellShaped(control) && WellShaped(candidate)
  {
    forall q :: 0 <= q < QUERY_COUNT ==> Elements(TopOf(control[q])) == Elements(TopOf(candidate[q]))
  }

  predicate SameFirsts(control: seq<seq<real>>, candidate: seq<seq<real>>)
    requires WellShaped(control) && WellShaped(candidate)
  {
    forall q :: 0 <= q < QUERY_COUNT ==> SameFirst(control[q], candidate[q])
  }

  lemma NdcgMeaning(control: seq<seq<real>>, candidate: seq<seq<real>>, d: nat -> real)
    requires Discount(d) && WellShaped(control) && WellShaped(candidate)
    ensures var mean := Mean(Ndcgs(control, candidate, d, QUERY_COUNT));
            0.0 <= mean <= 1.0 && (mean == 1.0 <==> SameTops(control, candidate))
  {
    var ndcgs := Ndcgs(control, candidate, d, QUERY_COUNT);
    forall q | 0 <= q < QUERY_COUNT
      ensures 0.0 <= ndcgs[q] <= 1.0
      ensures ndcgs[q] == 1.0 <==> TopOf(control[q]) == TopOf(candidate[q])
    {
      NdcgsAt(control, candidate, d, QUERY_COUNT, q);
      QueryBounds(control[q], candidate[q], d);
    }
    MeanOfUnits(ndcgs);
  }

  lemma OverlapMeaning(control: seq<seq<real>>, candidate: seq<seq<real>>)
    requires WellShaped(control) && WellShaped(candidate)
    ensures var overlaps := Overlaps(control, candidate, QUERY_COUNT);
            && UnitRange(overlaps) && 0.0 <= Mean(overlaps) <= 1.0
            && ((forall q :: 0 <= q < QUERY_COUNT ==> overlaps[q] == 1.0) <==> SameTopSets(control, candidate))
            && (Mean(overlaps) == 1.0 <==> SameTopSets(control, candidate))
  {
    var overlaps := Overlaps(control, candidate, QUERY_COUNT);
    forall q | 0 <= q < QUERY_COUNT
      ensures 0.0 <= overlaps[q] <= 1.0
      ensures overlaps[q] == 1.0 <==> Elements(TopOf(control[q])) == Elements(TopOf(candidate[q]))
    {
      OverlapsAt(control, candidate, QUERY_COUNT, q);
      RankingIsAPermutation(control[q]);
      RankingIsAPermutation(candidate[q]);
      OverlapBound(RankedPassages(control[q]), RankedPassages(candidate[q]));
    }
    MeanOfUnits(overlaps);
  }

  lemma SameTopsMeanSameFirsts(control: seq<seq<real>>, candidate: seq<seq<real>>)
    requires WellShaped(control) && WellShaped(candidate) && SameTops(control, candidate)
    ensures SameTopSets(control, candidate) && SameFirsts(control, candidate)
  {
    forall q | 0 <= q < QUERY_COUNT
      ensures SameFirst(control[q], candidate[q])
    {
      assert TopOf(control[q])[0] == TopOf(candidate[q])[0];
    }
  }

  // The summary of the per-query values.
  ghost predicate Summarises(s: Summary, control: seq<seq<real>>, candidate: seq<seq<real>>, d: nat -> real)
    requires Discount(d) && WellShaped(control) && WellShaped(candidate)
  {
    && s.aggregateOverlap == Mean(Overlaps(control, candidate, QUERY_COUNT))
    && IsMinimum(s.minimumOverlap, Overlaps(control, candidate, QUERY_COUNT))
    && s.top1Agreement == Matches(control, candidate, QUERY_COUNT) as real / QUERY_COUNT as real
    && s.meanNdcg == Mean(Ndcgs(control, candidate, d, QUERY_COUNT))
    && s.ndcgDrop == 1.0 - s.meanNdcg
  }

  method QualitySummary(control: seq<seq<real>>, candidate: seq<seq<real>>, d: nat -> real)
    returns (r: Result<Summary, QualityError>)
    requires Discount(d)
    ensures r.Success? <==> WellShaped(control) && WellShaped(candidate)
    ensures r.Success? ==> Summarises(r.value, control, candidate, d)
  {
    if !WellShaped(control) || !WellShaped(candidate) { return Failure(QualityContractMismatch); }
    var overlaps, ndcgs, matches := CompareQueries(control, candidate, d);
    var minimum := Minimum(overlaps);
    var top1 := matches as real / QUERY_COUNT as real;
    r := Success(Summary(Mean(overlaps), minimum, top1, Mean(ndcgs), 1.0 - Mean(ndcgs)));
  }

  lemma MinimumMeans(m: real, xs: seq<real>)
    requires IsMinimum(m, xs) && UnitRange(xs)
    ensures 0.0 <= m <= 1.0
    ensures m == 1.0 <==> forall i :: 0 <= i < |xs| ==> xs[i] == 1.0
  {
    var k :| 0 <= k < |xs| && xs[k] == m;
  }

  /** The reported nDCG drop is never negative; it is 0 exactly when every query's top-k
      lists agree in order, and then the overlaps and the top-1 agreement are perfect. */
  lemma SummaryMeans(s: Summary, control: seq<seq<real>>, candidate: seq<seq<real>>, d: nat -> real)
    requires Discount(d) && WellShaped(control) && WellShaped(candidate) && Summarises(s, control, candidate, d)
    ensures 0.0 <= s.ndcgDrop <= 1.0 && (s.ndcgDrop == 0.0 <==> SameTops(control, candidate))
    ensures 0.0 <= s.aggregateOverlap <= 1.0 && (s.aggregateOverlap == 1.0 <==> SameTopSets(control, candidate))
    ensures 0.0 <= s.minimumOverlap <= 1.0 && (s.minimumOverlap == 1.0 <==> SameTopSets(control, candidate))
    ensures s.top1Agreement == 1.0 <==> SameFirsts(control, candidate)
    ensures s.ndcgDrop == 0.0 ==> s.minimumOverlap == 1.0 && s.top1Agreement == 1.0
  {
    NdcgMeaning(control, candidate, d);
    OverlapMeaning(control, candidate);
    MinimumMeans(s.minimumOverlap, Overlaps(control, candidate, QUERY_COUNT));
    RatioBound(Matches(control, candidate, QUERY_COUNT) as real, QUERY_COUNT as real);
    if SameTops(control, candidate) { SameTopsMeanSameFirsts(control, candidate); }
  }
}
