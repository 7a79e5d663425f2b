/** Control-referenced nDCG: the control ranking gives passage relevances, and the
    candidate ranking is scored against it.  The rank discount 1 / log2(rank + 2) enters
    only as a positive, strictly decreasing function. */
module Ndcg {
  import opened Wrappers
  import opened Sequences
  import opened Rearrangement

  datatype RankingError = RankingReferenceInvalid

  function Take<T>(s: seq<T>, k: nat): seq<T> {
    if k < |s| then s[..k] else s
  }

  // Relevance by passage: top_k - rank for the first entries of the control ranking.
  function Relevance(top: seq<int>, k: nat): map<int, int> {
    if top == [] then map[]
    else Relevance(top[..|top| - 1], k)[top[|top| - 1] := k - (|top| - 1)]
  }

  function Gain(relevance: map<int, int>, passage: int): int {
    if passage in relevance then relevance[passage] else 0
  }

  function Gains(relevance: map<int, int>, order: seq<int>): (w: seq<int>)
    ensures |w| == |order|
    ensures forall i :: 0 <= i < |w| ==> w[i] == Gain(relevance, order[i])
  {
    seq(|order|, i requires 0 <= i < |order| => Gain(relevance, order[i]))
  }

  function Dcg(relevance: map<int, int>, order: seq<int>, k: nat, d: nat -> real): real {
    Dot(Gains(relevance, Take(order, k)), d)
  }

  function ControlReferencedNdcg(control: seq<int>, candidate: seq<int>, k: nat, d: nat -> real)
    : Result<real, RankingError>
  {
    var relevance := Relevance(Take(control, k), k);
    var ideal := Dcg(relevance, control, k, d);
    if ideal <= 0.0 then Failure(RankingReferenceInvalid)
    else Success(Dcg(relevance, candidate, k, d) / ideal)
  }

  // ---------- relevances of a ranking ----------

  lemma {:induction false} RelevanceAt(top: seq<int>, k: nat, i: nat)
    requires Distinct(top) && i < |top|
    ensures top[i] in Relevance(top, k) && Relevance(top, k)[top[i]] == k - i
  {
    if i < |top| - 1 { RelevanceAt(top[..|top| - 1], k, i); }
  }

  lemma {:induction false} RelevanceDomain(top: seq<int>, k: nat, p: int)
    ensures p in Relevance(top, k) ==> p in top
  {
    if top != [] { RelevanceDomain(top[..|top| - 1], k, p); }
  }

  lemma GainsArePositions(top: seq<int>, k: nat, order: seq<int>, i: nat)
    requires Distinct(top) && |top| <= k && i < |order|
    ensures var g := Gains(Relevance(top, k), order)[i];
            && (g == 0 <==> order[i] !in top)
            && (g != 0 ==> k - |top| < g <= k && order[i] == top[k - g])
  {
    RelevanceDomain(top, k, order[i]);
    if order[i] in top {
      var j :| 0 <= j < |top| && top[j] == order[i];
      RelevanceAt(top, k, j);
    }
  }

  lemma GainsAreDistinct(top: seq<int>, k: nat, order: seq<int>)
    requires Distinct(top) && |top| <= k && Distinct(order)
    ensures DistinctPositives(Gains(Relevance(top, k), order), k - |top|, k)
  {
    var w := Gains(Relevance(top, k), order);
    forall i | 0 <= i < |w|
      ensures w[i] == 0 || (k - |top| < w[i] <= k && order[i] == top[k - w[i]])
    {
      GainsArePositions(top, k, order, i);
    }
  }

  lemma IdealIsOwnGains(top: seq<int>, k: nat)
    requires Distinct(top) && |top| <= k
    ensures Gains(Relevance(top, k), top) == Ideal(|top|, k, |top|)
  {
    forall i | 0 <= i < |top|
      ensures Gains(Relevance(top, k), top)[i] == k - i
    {
      RelevanceAt(top, k, i);
    }
  }

  // ---------- the bound ----------

  lemma TakeIsDistinct(s: seq<int>, k: nat)
    requires Distinct(s)
    ensures Distinct(Take(s, k)) && |Take(s, k)| <= k
  {}

  /** The reference is rejected exactly when there is nothing to rank. */
  lemma ReferenceInvalidIff(control: seq<int>, candidate: seq<int>, k: nat, d: nat -> real)
    requires Discount(d) && Distinct(control)
    ensures ControlReferencedNdcg(control, candidate, k, d).Failure? <==> k == 0 || control == []
  {
    TakeIsDistinct(control, k);
    var top := Take(control, k);
    IdealIsOwnGains(top, k);
    if k > 0 && control != [] { IdealPositive(|top|, k, d); }
  }

  lemma DcgAtMostIdeal(top: seq<int>, order: seq<int>, k: nat, d: nat -> real)
    requires Discount(d) && Distinct(top) && |top| <= k && Distinct(order)
    ensures var w := Gains(Relevance(top, k), order);
            && 0.0 <= Dot(w, d) <= Dot(Ideal(|top|, k, |top|), d)
            && (Dot(w, d) == Dot(Ideal(|top|, k, |top|), d) ==>
                  Fit(w, Longer(w, top)) == Fit(Ideal(|top|, k, |top|), Longer(w, top)))
  {
    var w := Gains(Relevance(top, k), order);
    GainsAreDistinct(top, k, order);
    DotNonNegative(w, d, |w|);
    var m := Longer(w, top);
    var v := Ideal(|top|, k, |top|);
    assert Fit(v, m) == Ideal(|top|, k, m);
    assert DistinctPositives(Fit(w, m), k - |top|, k);
    IdealDominates(Fit(w, m), |top|, k);
    DotPads(w, m, d);
    DotPads(v, m, d);
    DominatedDot(Fit(v, m), Fit(w, m), d);
    if Dot(w, d) == Dot(v, d) { EqualDotMeansEqual(Fit(v, m), Fit(w, m), d); }
  }

  function Longer(w: seq<int>, top: seq<int>): nat {
    if |w| < |top| then |top| else |w|
  }

  lemma EqualGainsMeanPrefix(top: seq<int>, order: seq<int>, k: nat)
    requires Distinct(top) && |top| <= k
    requires var w := Gains(Relevance(top, k), order);
             Fit(w, Longer(w, top)) == Fit(Ideal(|top|, k, |top|), Longer(w, top))
    ensures top <= order
  {
    var w := Gains(Relevance(top, k), order);
    var m := Longer(w, top);
    forall i | 0 <= i < |top|
      ensures i < |order| && order[i] == top[i]
    {
      assert Fit(w, m)[i] == k - i;
      GainsArePositions(top, k, order, i);
    }
  }

  lemma PrefixMeansEqualDot(top: seq<int>, order: seq<int>, k: nat, d: nat -> real)
    requires Distinct(top) && |top| <= k && Distinct(order) && top <= order
    ensures Dot(Gains(Relevance(top, k), order), d) == Dot(Ideal(|top|, k, |top|), d)
  {
    var w := Gains(Relevance(top, k), order);
    var v := Ideal(|top|, k, |top|);
    IdealIsOwnGains(top, k);
    forall i | 0 <= i < |w|
      ensures w[i] == if i < |v| then v[i] else 0
    {
      GainsArePositions(top, k, order, i);
      if i < |top| { RelevanceAt(top, k, i); }
    }
    assert w == Fit(v, |w|);
    DotPads(v, |w|, d);
  }

  /** For rankings without repetition the score lies in [0, 1], and it is 1 exactly when
      the control's first k entries stand in order at the front of the candidate. */
  lemma NdcgBound(control: seq<int>, candidate: seq<int>, k: nat, d: nat -> real)
    requires Discount(d) && k >= 1 && control != [] && Distinct(control) && Distinct(candidate)
    ensures var r := ControlReferencedNdcg(control, candidate, k, d);
            && r.Success? && 0.0 <= r.value <= 1.0
            && (r.value == 1.0 <==> Take(control, k) <= Take(candidate, k))
  {
    ReferenceInvalidIff(control, candidate, k, d);
    TakeIsDistinct(control, k);
    TakeIsDistinct(candidate, k);
    var top, order := Take(control, k), Take(candidate, k);
    IdealIsOwnGains(top, k);
    var w := Gains(Relevance(top, k), order);
    var v := Ideal(|top|, k, |top|);
    DcgAtMostIdeal(top, order, k, d);
    RatioBound(Dot(w, d), Dot(v, d));
    if Dot(w, d) == Dot(v, d) { EqualGainsMeanPrefix(top, order, k); }
    if top <= order { PrefixMeansEqualDot(top, order, k, d); }
  }

  /** Two rankings of the same passages score 1 exactly when their first k entries agree. */
  lemma NdcgOneIffSameTop(control: seq<int>, candidate: seq<int>, k: nat, d: nat -> real)
    requires Discount(d) && k >= 1 && control != [] && Distinct(control) && Distinct(candidate)
    requires |control| == |candidate|
    ensures ControlReferencedNdcg(control, candidate, k, d).Success?
    ensures ControlReferencedNdcg(control, candidate, k, d).value == 1.0
            <==> Take(control, k) == Take(candidate, k)
  {
    NdcgBound(control, candidate, k, d);
  }

  // ---------- the value ----------

  // The position of a passage in a ranking, or the length if it is not there.
  function Position(order: seq<int>, passage: int): (i: nat)
    ensures i <= |order| && (i < |order| ==> order[i] == passage) && (i == |order| ==> passage !in order)
  {
    if order == [] then 0 else if order[0] == passage then 0 else Position(order[1..], passage) + 1
  }

  // What a passage is worth: more the earlier the control has it among its first k.
  function Worth(control: seq<int>, k: nat, passage: int): int {
    var i := Position(control, passage);
    if i < k && i < |control| then k - i else 0
  }

  function Min(a: nat, b: nat): nat { if a < b then a else b }

  function IdealTerm(k: nat, d: nat -> real): nat -> real {
    (i: nat) => (k - i) as real * d(i)
  }

  function Term(control: seq<int>, candidate: seq<int>, k: nat, d: nat -> real): nat -> real {
    (j: nat) => if j < |candidate| then Worth(control, k, candidate[j]) as real * d(j) else 0.0
  }

  lemma GainIsWorth(control: seq<int>, k: nat, passage: int)
    requires Distinct(control)
    ensures Gain(Relevance(Take(control, k), k), passage) == Worth(control, k, passage)
  {
    var top, i := Take(control, k), Position(control, passage);
    TakeIsDistinct(control, k);
    RelevanceDomain(top, k, passage);
    if i < k && i < |control| {
      RelevanceAt(top, k, i);
    } else {
      LateIsNotTop(control, k, passage);
    }
  }

  lemma LateIsNotTop(control: seq<int>, k: nat, passage: int)
    requires Distinct(control) && (Position(control, passage) >= k || Position(control, passage) == |control|)
    ensures passage !in Take(control, k)
  {
    forall j | 0 <= j < |Take(control, k)|
      ensures Take(control, k)[j] != passage
    {
      PositionIs(control, j);
    }
  }

  lemma {:induction false} PositionIs(order: seq<int>, i: nat)
    requires Distinct(order) && i < |order|
    ensures Position(order, order[i]) == i
  {
    if i > 0 {
      PositionIs(order[1..], i - 1);
      assert order[1..][i - 1] == order[i];
    }
  }

  lemma DcgIsTotal(control: seq<int>, order: seq<int>, k: nat, d: nat -> real)
    requires Distinct(control)
    ensures Dcg(Relevance(Take(control, k), k), order, k, d) == Total(Min(k, |order|), Term(control, order, k, d))
  {
    var top := Take(order, k);
    var w := Gains(Relevance(Take(control, k), k), top);
    forall j: nat | j < |top|
      ensures Term(control, order, k, d)(j) == w[j] as real * d(j)
    {
      GainIsWorth(control, k, top[j]);
    }
    DotIsTotal(w, d, |top|, Term(control, order, k, d));
  }

  lemma IdealIsTotal(control: seq<int>, k: nat, d: nat -> real)
    requires Distinct(control)
    ensures Dcg(Relevance(Take(control, k), k), control, k, d) == Total(Min(k, |control|), IdealTerm(k, d))
  {
    TakeIsDistinct(control, k);
    var top := Take(control, k);
    IdealIsOwnGains(top, k);
    DotIsTotal(Ideal(|top|, k, |top|), d, |top|, IdealTerm(k, d));
  }

  // The score is the quotient of these.
  predicate IsScore(value: real, worth: real, ideal: real) {
    ideal > 0.0 && value * ideal == worth
  }

  lemma Quotient(value: real, a: real, b: real)
    requires b > 0.0 && value == a / b
    ensures IsScore(value, a, b)
  {}

  lemma NdcgIsQuotient(control: seq<int>, candidate: seq<int>, k: nat, d: nat -> real)
    requires Discount(d) && k >= 1 && control != [] && Distinct(control)
    ensures var r, relevance := ControlReferencedNdcg(control, candidate, k, d), Relevance(Take(control, k), k);
            r.Success? && IsScore(r.value, Dcg(relevance, candidate, k, d), Dcg(relevance, control, k, d))
  {
    ReferenceInvalidIff(control, candidate, k, d);
    var relevance := Relevance(Take(control, k), k);
    Quotient(ControlReferencedNdcg(control, candidate, k, d).value, Dcg(relevance, candidate, k, d),
             Dcg(relevance, control, k, d));
  }

  // The two totals a score compares.
  function IdealTotal(control: seq<int>, k: nat, d: nat -> real): real {
    Total(Min(k, |control|), IdealTerm(k, d))
  }

  function WorthTotal(control: seq<int>, candidate: seq<int>, k: nat, d: nat -> real): real {
    Total(Min(k, |candidate|), Term(control, candidate, k, d))
  }

  /** The score by positions: times the total of (k - i) d(i) over the control's first k, it
      is the total of what the candidate's first k are worth, each discounted by its own
      position. */
  lemma NdcgValue(control: seq<int>, candidate: seq<int>, k: nat, d: nat -> real)
    requires Discount(d) && k >= 1 && control != [] && Distinct(control)
    ensures var r := ControlReferencedNdcg(control, candidate, k, d);
            r.Success? && IsScore(r.value, WorthTotal(control, candidate, k, d), IdealTotal(control, k, d))
  {
    NdcgIsQuotient(control, candidate, k, d);
    DcgIsTotal(control, candidate, k, d);
    IdealIsTotal(control, k, d);
  }

  function Exchanged(order: seq<int>, i: nat): seq<int>
    requires i + 1 < |order|
  {
    order[i := order[i + 1]][i + 1 := order[i]]
  }

  lemma WorthAt(control: seq<int>, k: nat, i: nat)
    requires Distinct(control) && i < |control|
    ensures Worth(control, k, control[i]) == if i < k then k - i else 0
  {
    PositionIs(control, i);
  }

  // Totals of terms that agree but for two neighbours.
  lemma {:induction false} TotalExchanged(n: nat, f: nat -> real, g: nat -> real, i: nat)
    requires forall j: nat :: j < n && j != i && j != i + 1 ==> f(j) == g(j)
    ensures n <= i ==> Total(n, f) == Total(n, g)
    ensures i + 1 < n ==> Total(n, f) - Total(n, g) == f(i) - g(i) + f(i + 1) - g(i + 1)
  {
    if n > 0 { TotalExchanged(n - 1, f, g, i); }
    if n == i + 2 {
      assert Total(n, f) == Total(i, f) + f(i) + f(i + 1);
      assert Total(n, g) == Total(i, g) + g(i) + g(i + 1);
      TotalExchanged(i, f, g, i);
    }
  }

  lemma ExchangedTerm(control: seq<int>, k: nat, d: nat -> real, i: nat, j: nat)
    requires Distinct(control) && i + 1 < k && i + 1 < |control| && j < Min(k, |control|)
    ensures Term(control, Exchanged(control, i), k, d)(j)
            == (if j == i then k - i - 1 else if j == i + 1 then k - i else k - j) as real * d(j)
  {
    WorthAt(control, k, if j == i then i + 1 else if j == i + 1 then i else j);
  }

  lemma ExchangedTotal(control: seq<int>, k: nat, d: nat -> real, i: nat)
    requires Distinct(control) && i + 1 < k && i + 1 < |control|
    ensures IdealTotal(control, k, d) - WorthTotal(control, Exchanged(control, i), k, d) == d(i) - d(i + 1)
  {
    var n, f, g := Min(k, |control|), IdealTerm(k, d), Term(control, Exchanged(control, i), k, d);
    forall j: nat | j < n && j != i && j != i + 1
      ensures f(j) == g(j)
    {
      ExchangedTerm(control, k, d, i, j);
    }
    TotalExchanged(n, f, g, i);
    ExchangedPair(control, k, d, i);
  }

  lemma ExchangedPair(control: seq<int>, k: nat, d: nat -> real, i: nat)
    requires Distinct(control) && i + 1 < k && i + 1 < |control|
    ensures var f, g := IdealTerm(k, d), Term(control, Exchanged(control, i), k, d);
            f(i) - g(i) + f(i + 1) - g(i + 1) == d(i) - d(i + 1)
  {
    ExchangedTerm(control, k, d, i, i);
    ExchangedTerm(control, k, d, i, i + 1);
    NeighboursDiffer((k - i) as real, d(i), d(i + 1));
  }

  lemma NeighboursDiffer(a: real, x: real, y: real)
    ensures a * x - (a - 1.0) * x + (a - 1.0) * y - a * y == x - y
  {}

  lemma Complement(value: real, worth: real, ideal: real)
    requires IsScore(value, worth, ideal)
    ensures IsScore(1.0 - value, ideal - worth, ideal)
  {
    assert (1.0 - value) * ideal == ideal - value * ideal;
  }

  /** Exchanging two neighbours of the control's first k costs exactly the difference of
      their discounts over the ideal total. */
  lemma ExchangeCosts(control: seq<int>, k: nat, d: nat -> real, i: nat)
    requires Discount(d) && Distinct(control) && i + 1 < k && i + 1 < |control|
    ensures var r := ControlReferencedNdcg(control, Exchanged(control, i), k, d);
            r.Success? && IsScore(1.0 - r.value, d(i) - d(i + 1), IdealTotal(control, k, d))
  {
    NdcgValue(control, Exchanged(control, i), k, d);
    ExchangedTotal(control, k, d, i);
    Complement(ControlReferencedNdcg(control, Exchanged(control, i), k, d).value,
               WorthTotal(control, Exchanged(control, i), k, d), IdealTotal(control, k, d));
  }
}
