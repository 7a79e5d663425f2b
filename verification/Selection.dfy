/** Bounded selection of benchmark candidates from two roles, and the layout it leads to. */
module Selection {
  import opened Wrappers
  import opened Layout
  import opened DirectoryContract

  datatype BuildError = TooFewAllowed | NothingFound | LayoutInvalid(reason: ScopeInvalid)

  function Max(a: int, b: int): int { if a < b then b else a }
  function Min(a: int, b: int): int { if a < b then a else b }

  // Nearest integer, ties to even.
  function RoundHalfEven(num: nat, den: nat): nat
    requires den > 0
  {
    var q, r := num / den, num % den;
    if 2 * r < den then q else if 2 * r > den then q + 1 else q + q % 2
  }

  // How many of each role to take, given the rounded share of resumes.
  function Limits(resumes: nat, ordinary: nat, maximum: nat, share: int): (int, int) {
    var first := Min(resumes, Min(maximum - 1, Max(1, share)));
    var ordinaryLimit := Min(ordinary, maximum - first);
    (Min(resumes, maximum - ordinaryLimit), ordinaryLimit)
  }

  function Share(resumes: nat, ordinary: nat, maximum: nat): nat
    requires resumes + ordinary > 0
  {
    RoundHalfEven(maximum * resumes, resumes + ordinary)
  }

  /** Whatever the rounding gives, the selection has exactly the maximum size, takes no
      more of a role than there is, and keeps at least one of each role present. */
  lemma LimitsAreExact(resumes: nat, ordinary: nat, maximum: nat, share: int)
    requires maximum >= 2 && resumes + ordinary > maximum
    ensures var (r, o) := Limits(resumes, ordinary, maximum, share);
            && r + o == maximum && 0 <= r <= resumes && 0 <= o <= ordinary
            && (resumes > 0 ==> r > 0) && (ordinary > 0 ==> o > 0)
  {}

  function Sampled(resumes: nat, ordinary: nat, maximum: nat): bool {
    maximum > 0 && resumes + ordinary > maximum
  }

  // The numbers of resumes and ordinary documents that are laid out.
  function Kept(resumes: nat, ordinary: nat, maximum: nat): (int, int) {
    if Sampled(resumes, ordinary, maximum)
    then Limits(resumes, ordinary, maximum, Share(resumes, ordinary, maximum))
    else (resumes, ordinary)
  }

  method SelectCandidates(resumes: seq<Candidate>, ordinary: seq<Candidate>, maximum: nat)
    returns (r: Result<seq<Candidate>, BuildError>)
    ensures r == Failure(TooFewAllowed) <==> Sampled(|resumes|, |ordinary|, maximum) && maximum < 2
    ensures r == Failure(NothingFound) <==> resumes == [] && ordinary == []
    ensures r.Failure? ==> r.error == TooFewAllowed || r.error == NothingFound
    ensures r.Success? ==>
              var (n, m) := Kept(|resumes|, |ordinary|, maximum);
              0 <= n <= |resumes| && 0 <= m <= |ordinary| && r.value == resumes[..n] + ordinary[..m]
    ensures r.Success? && Sampled(|resumes|, |ordinary|, maximum) ==> |r.value| == maximum
  {
    var candidates := resumes + ordinary;
    if maximum > 0 && |candidates| > maximum {
      if maximum < 2 { return Failure(TooFewAllowed); }
      var share := Share(|resumes|, |ordinary|, maximum);
      var resumeLimit := Min(|resumes|, Min(maximum - 1, Max(1, share)));
      var ordinaryLimit := Min(|ordinary|, maximum - resumeLimit);
      resumeLimit := Min(|resumes|, maximum - ordinaryLimit);
      LimitsAreExact(|resumes|, |ordinary|, maximum, share);
      candidates := resumes[..resumeLimit] + ordinary[..ordinaryLimit];
    }
    if candidates == [] {
      assert |resumes| + |ordinary| == 0;
      return Failure(NothingFound);
    }
    assert resumes[..|resumes|] == resumes && ordinary[..|ordinary|] == ordinary;
    return Success(candidates);
  }

  lemma {:induction false} OfRoleConcat(a: seq<Candidate>, b: seq<Candidate>, role: Role)
    ensures OfRole(a + b, role) == OfRole(a, role) + OfRole(b, role)
  {
    if b == [] {
      assert a + b == a;
    } else {
      var n := |b| - 1;
      OfRoleConcat(a, b[..n], role);
      assert (a + b)[..|a + b| - 1] == a + b[..n];
    }
  }

  lemma {:induction false} OfOneRole(items: seq<Candidate>, mine: Role, role: Role)
    requires forall i :: 0 <= i < |items| ==> items[i].role == mine
    ensures |OfRole(items, role)| == if mine == role then |items| else 0
  {
    if items != [] { OfOneRole(items[..|items| - 1], mine, role); }
  }

  lemma OfRoleCounts(resumes: seq<Candidate>, ordinary: seq<Candidate>)
    requires forall i :: 0 <= i < |resumes| ==> resumes[i].role == Resume
    requires forall i :: 0 <= i < |ordinary| ==> ordinary[i].role == Ordinary
    ensures |OfRole(resumes + ordinary, Resume)| == |resumes|
    ensures |OfRole(resumes + ordinary, Ordinary)| == |ordinary|
  {
    OfRoleConcat(resumes, ordinary, Resume);
    OfRoleConcat(resumes, ordinary, Ordinary);
    OfOneRole(resumes, Resume, Resume);
    OfOneRole(resumes, Resume, Ordinary);
    OfOneRole(ordinary, Ordinary, Resume);
    OfOneRole(ordinary, Ordinary, Ordinary);
  }

  // The build goes through for these numbers of candidates: two resumes and an ordinary
  // document, and if there are too many, either room for two resumes beside all ordinary
  // documents, or a share of at least one and a half resumes in the maximum.
  predicate Builds(resumes: nat, ordinary: nat, maximum: nat) {
    && resumes >= 2 && ordinary >= 1
    && (Sampled(resumes, ordinary, maximum) ==>
          maximum >= 3 && (ordinary <= maximum - 2 || WideShare(resumes, ordinary, maximum)))
  }

  // The exact share of resumes in the maximum is at least one and a half.
  predicate WideShare(resumes: nat, ordinary: nat, maximum: nat) {
    2 * (maximum * resumes) >= 3 * (resumes + ordinary)
  }

  // h is the nearest integer to num / den, and the even one of two that are equally near.
  predicate IsNearest(h: int, num: int, den: int) {
    && -den <= 2 * (h * den - num) <= den
    && (2 * (h * den - num) == den || 2 * (h * den - num) == -den ==> h % 2 == 0)
  }

  lemma RoundsToNearest(num: nat, den: nat)
    requires den > 0
    ensures IsNearest(RoundHalfEven(num, den), num, den)
  {
    var q, r := num / den, num % den;
    assert num == den * q + r;
    assert q * den == den * q && (q + 1) * den == den * q + den;
  }

  /** A sampled selection keeps the nearest whole number to the exact share of resumes,
      unless that would drop a role that is there: then it keeps one of it. */
  lemma KeepsTheShare(resumes: nat, ordinary: nat, maximum: nat)
    requires Sampled(resumes, ordinary, maximum) && maximum >= 2
    ensures var kept := Kept(resumes, ordinary, maximum).0;
            || IsNearest(kept, maximum * resumes, resumes + ordinary)
            || (kept == 1 && resumes > 0 && IsNearest(0, maximum * resumes, resumes + ordinary))
            || (kept == maximum - 1 && ordinary > 0 && IsNearest(maximum, maximum * resumes, resumes + ordinary))
  {
    var all, share := resumes + ordinary, Share(resumes, ordinary, maximum);
    RoundsToNearest(maximum * resumes, all);
    ShareFits(resumes, ordinary, maximum, share);
    LimitsAreTheShare(resumes, ordinary, maximum, share);
  }

  lemma MoreIsMore(a: int, b: int, c: nat)
    requires a <= b
    ensures a * c <= b * c
  {}

  // The nearest whole number stays within whole bounds of the fraction.
  lemma NearestStaysWithin(h: int, num: int, den: nat, low: int, high: int)
    requires den > 0 && IsNearest(h, num, den) && low * den <= num <= high * den
    ensures low <= h <= high
  {
    assert (h + 1) * den == h * den + den && (high + 1) * den == high * den + den;
    if h < low { MoreIsMore(h + 1, low, den); }
    if h > high { MoreIsMore(high + 1, h, den); }
  }

  lemma ShareBounds(resumes: nat, ordinary: nat, maximum: nat)
    requires resumes + ordinary > maximum
    ensures var all := resumes + ordinary;
            && 0 <= maximum * resumes <= resumes * all && maximum * resumes <= maximum * all
            && (maximum - ordinary) * all <= maximum * resumes
  {
    var all := resumes + ordinary;
    MoreIsMore(maximum, all, resumes);
    MoreIsMore(resumes, all, maximum);
    MoreIsMore(0, all - maximum, ordinary);
    assert maximum * resumes - (maximum - ordinary) * all == ordinary * (all - maximum);
  }

  // A whole number nearest to the share asks for no more of a role than there is.
  lemma ShareFits(resumes: nat, ordinary: nat, maximum: nat, share: int)
    requires resumes + ordinary > maximum && IsNearest(share, maximum * resumes, resumes + ordinary)
    ensures 0 <= share <= resumes && 0 <= maximum - share <= ordinary
  {
    var num, all := maximum * resumes, resumes + ordinary;
    ShareBounds(resumes, ordinary, maximum);
    NearestStaysWithin(share, num, all, 0, resumes);
    NearestStaysWithin(share, num, all, maximum - ordinary, maximum);
  }

  lemma LimitsAreTheShare(resumes: nat, ordinary: nat, maximum: nat, share: int)
    requires maximum >= 2 && resumes + ordinary > maximum && 0 <= share <= resumes && 0 <= maximum - share <= ordinary
    ensures var kept := Limits(resumes, ordinary, maximum, share).0;
            || kept == share
            || (kept == 1 && share == 0 && resumes > 0)
            || (kept == maximum - 1 && share == maximum && ordinary > 0)
  {}

  lemma RoundsToTwo(num: nat, den: nat)
    requires den > 0
    ensures RoundHalfEven(num, den) >= 2 <==> 2 * num >= 3 * den
  {
    var q, r := num / den, num % den;
    assert num == den * q + r;
    if q >= 2 { assert den * q >= den * 2; }
  }

  /** The kept numbers suffice for the layout contract exactly under that condition. */
  lemma EnoughIsKept(resumes: nat, ordinary: nat, maximum: nat)
    requires Sampled(resumes, ordinary, maximum) ==> maximum >= 2
    ensures Kept(resumes, ordinary, maximum).0 >= 2 && Kept(resumes, ordinary, maximum).1 >= 1
            <==> Builds(resumes, ordinary, maximum)
  {
    if Sampled(resumes, ordinary, maximum) {
      var share := Share(resumes, ordinary, maximum);
      RoundsToTwo(maximum * resumes, resumes + ordinary);
      LimitsReachTwo(resumes, ordinary, maximum, share, WideShare(resumes, ordinary, maximum));
    }
  }

  lemma LimitsReachTwo(resumes: nat, ordinary: nat, maximum: nat, share: int, wide: bool)
    requires maximum >= 2 && resumes + ordinary > maximum && (wide <==> share >= 2)
    ensures Limits(resumes, ordinary, maximum, share).0 >= 2 && Limits(resumes, ordinary, maximum, share).1 >= 1
            <==> resumes >= 2 && ordinary >= 1 && maximum >= 3 && (ordinary <= maximum - 2 || wide)
  {}

  /** Sampling can lose a build: two resumes among a thousand ordinary documents build
      without a maximum, and not with a maximum of ten, where one resume is kept. */
  lemma SamplingLosesABuild()
    ensures Builds(2, 1000, 0) && !Builds(2, 1000, 10) && Kept(2, 1000, 10) == (1, 9)
  {}

  /** Selection, placement and contract check: accepted exactly under a condition on the
      three numbers; the non-leaf check never rejects. */
  method BuildLayout(resumes: seq<Candidate>, ordinary: seq<Candidate>, maximum: nat, nameOf: string -> string)
    returns (r: Result<seq<Assignment>, BuildError>)
    requires forall c :: c in resumes ==> c.role == Resume
    requires forall c :: c in ordinary ==> c.role == Ordinary
    ensures r.Success? <==> Builds(|resumes|, |ordinary|, maximum)
    ensures r != Failure(LayoutInvalid(NonLeafWithoutFiles))
    ensures r.Success? && Sampled(|resumes|, |ordinary|, maximum) ==> |r.value| == maximum
  {
    var selected := SelectCandidates(resumes, ordinary, maximum);
    if selected.Failure? { return Failure(selected.error); }
    ghost var (n, m) := Kept(|resumes|, |ordinary|, maximum);
    OfRoleCounts(resumes[..n], ordinary[..m]);
    EnoughIsKept(|resumes|, |ordinary|, maximum);
    var layout, contract := LayOut(selected.value, nameOf);
    if contract.Failure? { return Failure(LayoutInvalid(contract.error)); }
    assert |layout| == |multiset(layout)| == |multiset(Placements(selected.value, nameOf))| == n + m;
    return Success(layout);
  }

}
