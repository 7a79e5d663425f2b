/** The rearrangement inequality for gains under a decreasing discount, by summation by
    parts: no choice of gains beats the largest ones in order, and only equal gains match
    them. */
module Rearrangement {
  ghost predicate Discount(d: nat -> real) {
    && (forall r: nat :: d(r) > 0.0)
    && (forall r: nat, q: nat :: r < q ==> d(r) > d(q))
  }

  function DotTo(w: seq<int>, d: nat -> real, m: nat): real
    requires m <= |w|
  {
    if m == 0 then 0.0 else DotTo(w, d, m - 1) + w[m - 1] as real * d(m - 1)
  }

  function Dot(w: seq<int>, d: nat -> real): real {
    DotTo(w, d, |w|)
  }

  // f(0) + ... + f(n - 1)
  function Total(n: nat, f: nat -> real): real {
    if n == 0 then 0.0 else Total(n - 1, f) + f(n - 1)
  }

  lemma {:induction false} DotIsTotal(w: seq<int>, d: nat -> real, m: nat, f: nat -> real)
    requires m <= |w| && forall i: nat :: i < m ==> f(i) == w[i] as real * d(i)
    ensures DotTo(w, d, m) == Total(m, f)
  {
    if m > 0 { DotIsTotal(w, d, m - 1, f); }
  }

  // The gains of the control's own top entries: k, k - 1, ..., then zeros.
  function Ideal(n: nat, k: nat, m: nat): (v: seq<int>)
    ensures |v| == m
    ensures forall i :: 0 <= i < m ==> v[i] == if i < n then k - i else 0
  {
    seq(m, i requires 0 <= i < m => if i < n then k - i else 0)
  }

  // Positive entries are pairwise different and lie in (low, high].
  predicate DistinctPositives(w: seq<int>, low: int, high: int) {
    && (forall i :: 0 <= i < |w| ==> w[i] == 0 || low < w[i] <= high)
    && (forall i, j :: 0 <= i < j < |w| ==> w[i] != w[j] || w[i] == 0)
  }

  // ---------- prefix sums: no choice of entries beats the largest ones ----------

  function Sum(w: seq<int>): int {
    if w == [] then 0 else Sum(w[..|w| - 1]) + w[|w| - 1]
  }

  lemma {:induction false} SumConcat(a: seq<int>, b: seq<int>)
    ensures Sum(a + b) == Sum(a) + Sum(b)
  {
    if b == [] {
      assert a + b == a;
    } else {
      assert (a + b)[..|a + b| - 1] == a + b[..|b| - 1];
      SumConcat(a, b[..|b| - 1]);
    }
  }

  lemma SumAround(a: seq<int>, x: int, b: seq<int>)
    ensures Sum(a + ([x] + b)) == x + Sum(a + b)
  {
    SumConcat(a, [x] + b);
    SumConcat([x], b);
    SumConcat(a, b);
    assert [x][..0] == [];
  }

  lemma SumWithout(w: seq<int>, i: nat)
    requires i < |w|
    ensures Sum(w) == w[i] + Sum(w[..i] + w[i + 1..])
  {
    assert w == w[..i] + ([w[i]] + w[i + 1..]);
    SumAround(w[..i], w[i], w[i + 1..]);
  }

  // high + (high - 1) + ... over j terms, counting only terms above low.
  function TopSum(low: int, high: int, j: nat): int
    decreases j
  {
    if j == 0 || high <= low then 0 else high + TopSum(low, high - 1, j - 1)
  }

  lemma {:induction false} TopSumGrows(low: int, high: int, j: nat)
    requires 0 <= low < high
    ensures TopSum(low, high - 1, j) <= TopSum(low, high, j)
    decreases high - low
  {
    if j > 0 && high - 1 > low { TopSumGrows(low, high - 1, j - 1); }
  }

  lemma {:induction false} ZerosSumToZero(w: seq<int>)
    requires forall i :: 0 <= i < |w| ==> w[i] == 0
    ensures Sum(w) == 0
  {
    if w != [] { ZerosSumToZero(w[..|w| - 1]); }
  }

  lemma WithoutTheLargest(w: seq<int>, low: int, high: int, i: nat)
    requires 0 <= low < high && DistinctPositives(w, low, high) && i < |w| && w[i] == high
    ensures DistinctPositives(w[..i] + w[i + 1..], low, high - 1)
  {
    var rest := w[..i] + w[i + 1..];
    assert forall j :: 0 <= j < |rest| ==> rest[j] == if j < i then w[j] else w[j + 1];
  }

  lemma {:induction false} SumAtMostTop(w: seq<int>, low: int, high: int)
    requires 0 <= low <= high && DistinctPositives(w, low, high)
    ensures Sum(w) <= TopSum(low, high, |w|)
    decreases high - low
  {
    if high == low {
      ZerosSumToZero(w);
    } else if high in w {
      var i :| 0 <= i < |w| && w[i] == high;
      WithoutTheLargest(w, low, high, i);
      SumAtMostTop(w[..i] + w[i + 1..], low, high - 1);
      SumWithout(w, i);
    } else {
      SumAtMostTop(w, low, high - 1);
      TopSumGrows(low, high, |w|);
    }
  }

  lemma {:induction false} TopSumGrowsByOne(low: int, high: int, j: nat)
    requires low <= high
    ensures TopSum(low, high, j + 1) == TopSum(low, high, j) + if high - j > low then high - j else 0
    decreases j
  {
    if j > 0 && high > low { TopSumGrowsByOne(low, high - 1, j - 1); }
  }

  lemma {:induction false} IdealSum(n: nat, k: nat, m: nat)
    requires n <= k
    ensures Sum(Ideal(n, k, m)) == TopSum(k - n, k, m)
  {
    if m > 0 {
      IdealSum(n, k, m - 1);
      assert Ideal(n, k, m)[..m - 1] == Ideal(n, k, m - 1);
      TopSumGrowsByOne(k - n, k, m - 1);
    }
  }

  function SumTo(w: seq<int>, m: nat): int
    requires m <= |w|
  {
    if m == 0 then 0 else SumTo(w, m - 1) + w[m - 1]
  }

  lemma {:induction false} SumToIsSum(w: seq<int>, m: nat)
    requires m <= |w|
    ensures SumTo(w, m) == Sum(w[..m])
  {
    if m > 0 {
      SumToIsSum(w, m - 1);
      assert w[..m][..m - 1] == w[..m - 1];
    }
  }

  // Every prefix of v sums to at least the same prefix of w.
  ghost predicate Dominates(v: seq<int>, w: seq<int>) {
    |v| == |w| && forall j: nat :: j <= |v| ==> SumTo(w, j) <= SumTo(v, j)
  }

  lemma IdealDominates(w: seq<int>, n: nat, k: nat)
    requires n <= k && DistinctPositives(w, k - n, k)
    ensures Dominates(Ideal(n, k, |w|), w)
  {
    var v := Ideal(n, k, |w|);
    forall j: nat | j <= |v|
      ensures SumTo(w, j) <= SumTo(v, j)
    {
      SumToIsSum(w, j);
      SumToIsSum(v, j);
      SumAtMostTop(w[..j], k - n, k);
      IdealSum(n, k, j);
      assert v[..j] == Ideal(n, k, j);
    }
  }

  // ---------- summation by parts ----------

  lemma Scale(a: real, b: real)
    requires a >= 0.0 && b > 0.0
    ensures a * b >= 0.0
    ensures a * b == 0.0 ==> a == 0.0
  {}

  // The surplus of v over w in a prefix.
  function Surplus(v: seq<int>, w: seq<int>, m: nat): real
    requires m <= |v| == |w|
  {
    (SumTo(v, m) - SumTo(w, m)) as real
  }

  lemma OneMoreEntry(v: seq<int>, w: seq<int>, d: nat -> real, m: nat)
    requires 1 <= m <= |v| == |w|
    ensures Surplus(v, w, m) == Surplus(v, w, m - 1) + v[m - 1] as real - w[m - 1] as real
    ensures DotTo(v, d, m) - DotTo(w, d, m) ==
            DotTo(v, d, m - 1) - DotTo(w, d, m - 1) + (Surplus(v, w, m) - Surplus(v, w, m - 1)) * d(m - 1)
  {
    Difference(v[m - 1] as real, w[m - 1] as real, d(m - 1));
  }

  lemma Difference(a: real, b: real, c: real)
    ensures a * c - b * c == (a - b) * c
  {}

  // Moving a surplus from one discount to the next.
  lemma ByParts(before: real, after: real, earlier: real, later: real)
    ensures before * earlier + (after - before) * later == before * (earlier - later) + after * later
  {}

  // The surplus of v over w, discounted, is at least the surplus of the plain sums times
  // the last discount.
  lemma {:induction false} SurplusBound(v: seq<int>, w: seq<int>, d: nat -> real, m: nat)
    requires Discount(d) && Dominates(v, w) && 1 <= m <= |v|
    ensures Surplus(v, w, m) >= 0.0
    ensures DotTo(v, d, m) - DotTo(w, d, m) >= Surplus(v, w, m) * d(m - 1)
  {
    OneMoreEntry(v, w, d, m);
    if m > 1 {
      SurplusBound(v, w, d, m - 1);
      var before := Surplus(v, w, m - 1);
      ByParts(before, Surplus(v, w, m), d(m - 2), d(m - 1));
      Scale(before, d(m - 2) - d(m - 1));
    }
  }

  lemma DominatedDot(v: seq<int>, w: seq<int>, d: nat -> real)
    requires Discount(d) && Dominates(v, w)
    ensures Dot(w, d) <= Dot(v, d)
  {
    if v != [] {
      SurplusBound(v, w, d, |v|);
      Scale(Surplus(v, w, |v|), d(|v| - 1));
    }
  }

  /** A dominated sequence reaches the same discounted total only by being the same. */
  lemma EqualDotMeansEqual(v: seq<int>, w: seq<int>, d: nat -> real)
    requires Discount(d) && Dominates(v, w) && Dot(w, d) >= Dot(v, d)
    ensures v == w
  {
    if v != [] {
      SurplusBound(v, w, d, |v|);
      Scale(Surplus(v, w, |v|), d(|v| - 1));
    }
    EqualPrefix(v, w, d, |v|);
  }

  lemma {:induction false} EqualPrefix(v: seq<int>, w: seq<int>, d: nat -> real, m: nat)
    requires Discount(d) && Dominates(v, w) && m <= |v|
    requires Surplus(v, w, m) == 0.0 && DotTo(w, d, m) >= DotTo(v, d, m)
    ensures forall i :: 0 <= i < m ==> v[i] == w[i]
  {
    if m > 0 {
      OneMoreEntry(v, w, d, m);
      if m > 1 {
        SurplusBound(v, w, d, m - 1);
        // Equal totals push the surplus of the shorter prefix to zero.
        var before := Surplus(v, w, m - 1);
        ByParts(before, 0.0, d(m - 2), d(m - 1));
        Scale(before, d(m - 2) - d(m - 1));
      }
      EqualPrefix(v, w, d, m - 1);
    }
  }

  // ---------- padding and positivity ----------

  // The candidate's gains, cut or padded with zeros to the length of the control's top.
  function Fit(w: seq<int>, n: nat): (r: seq<int>)
    ensures |r| == n
    ensures forall i :: 0 <= i < n ==> r[i] == if i < |w| then w[i] else 0
  {
    seq(n, i requires 0 <= i < n => if i < |w| then w[i] else 0)
  }

  lemma {:induction false} DotOfSame(v: seq<int>, w: seq<int>, d: nat -> real, m: nat)
    requires m <= |v| && m <= |w| && forall i :: 0 <= i < m ==> v[i] == w[i]
    ensures DotTo(v, d, m) == DotTo(w, d, m)
  {
    if m > 0 { DotOfSame(v, w, d, m - 1); }
  }

  lemma {:induction false} DotOfZeros(v: seq<int>, d: nat -> real, low: nat, m: nat)
    requires low <= m <= |v| && forall i :: low <= i < m ==> v[i] == 0
    ensures DotTo(v, d, m) == DotTo(v, d, low)
    decreases m
  {
    if m > low { DotOfZeros(v, d, low, m - 1); }
  }

  lemma DotPads(w: seq<int>, n: nat, d: nat -> real)
    requires |w| <= n
    ensures Dot(Fit(w, n), d) == Dot(w, d)
  {
    DotOfZeros(Fit(w, n), d, |w|, n);
    DotOfSame(Fit(w, n), w, d, |w|);
  }

  lemma {:induction false} DotNonNegative(w: seq<int>, d: nat -> real, m: nat)
    requires Discount(d) && m <= |w| && forall i :: 0 <= i < |w| ==> w[i] >= 0
    ensures DotTo(w, d, m) >= 0.0
  {
    if m > 0 {
      DotNonNegative(w, d, m - 1);
      Scale(w[m - 1] as real, d(m - 1));
    }
  }

  lemma IdealPositive(n: nat, k: nat, d: nat -> real)
    requires Discount(d) && 1 <= n <= k
    ensures Dot(Ideal(n, k, n), d) > 0.0
  {
    var v := Ideal(n, k, n);
    DotNonNegative(v, d, n - 1);
    Scale(v[n - 1] as real, d(n - 1));
  }

  lemma RatioBound(a: real, b: real)
    requires b > 0.0 && 0.0 <= a <= b
    ensures 0.0 <= a / b <= 1.0
    ensures a / b == 1.0 <==> a == b
  {
    assert a / b * b == a;
  }

  // ---------- sums of lists ----------

  function SumOf(xs: seq<real>): real {
    if xs == [] then 0.0 else SumOf(xs[..|xs| - 1]) + xs[|xs| - 1]
  }

  function EntryOf(xs: seq<real>): nat -> real {
    (i: nat) => if i < |xs| then xs[i] else 0.0
  }

  lemma {:induction false} SumIsTotal(xs: seq<real>, m: nat)
    requires m <= |xs|
    ensures SumOf(xs[..m]) == Total(m, EntryOf(xs))
  {
    if m > 0 {
      SumIsTotal(xs, m - 1);
      assert xs[..m][..m - 1] == xs[..m - 1];
    }
  }

  lemma SumIsWholeTotal(xs: seq<real>)
    ensures SumOf(xs) == Total(|xs|, EntryOf(xs))
  {
    SumIsTotal(xs, |xs|);
    assert xs[..|xs|] == xs;
  }
}
