/** The frozen benchmark: a stratified split into calibration and blind holdout, and
    outputs that are written once. */
module Freeze {
  import opened Wrappers
  import opened Sequences
  import opened Sorting
  import opened InputHasher
  import opened Layout
  import opened Selection

  datatype Sample = Sample(sampleId: string, role: Role, relativePath: string)

  predicate DistinctIds(records: seq<Sample>) {
    forall i, j :: 0 <= i < j < |records| ==> records[i].sampleId != records[j].sampleId
  }

  function HoldoutCount(n: nat, percent: nat): nat {
    if n > 1 then Max(1, RoundHalfEven(n * percent, 100)) else 0
  }

  /** A stratum of two or more gives away at least one record and keeps at least one. */
  lemma HoldoutLeavesSome(n: nat, percent: nat)
    requires 1 <= percent <= 50
    ensures n >= 2 ==> 1 <= HoldoutCount(n, percent) < n
    ensures HoldoutCount(n, percent) <= n
  {
    if n >= 2 {
      assert n * percent <= n * 50;
      var q, r := n * percent / 100, n * percent % 100;
      assert 100 * q + r <= 50 * n;
    }
  }

  // h of n records are the rounded percentage, but at least one of two or more.
  predicate IsRoundedPercentage(h: int, n: nat, percent: nat) {
    if n <= 1 then h == 0
    else h >= 1 && (IsNearest(h, n * percent, 100) || (h == 1 && 2 * (n * percent) <= 100))
  }

  lemma HoldoutIsRounded(n: nat, percent: nat)
    ensures IsRoundedPercentage(HoldoutCount(n, percent), n, percent)
  {
    RoundsToNearest(n * percent, 100);
  }

  lemma {:induction false} KeepIsDistinct(records: seq<Sample>, p: Sample -> bool)
    requires DistinctIds(records)
    ensures DistinctIds(Keep(records, p))
  {
    if records != [] {
      var n := |records| - 1;
      KeepIsDistinct(records[..n], p);
      forall r | r in Keep(records[..n], p)
        ensures r.sampleId != records[n].sampleId
      {
        assert r in records[..n];
      }
    }
  }

  function Stratum(records: seq<Sample>, role: Role): seq<Sample> {
    Keep(records, (r: Sample) => r.role == role)
  }

  function KeyLe(keyOf: string -> string): (Sample, Sample) -> bool {
    (a: Sample, b: Sample) => NameLe(keyOf(a.sampleId), keyOf(b.sampleId))
  }

  // A stratum in the order of its keyed assignment.
  function Ordered(records: seq<Sample>, role: Role, keyOf: string -> string): (s: seq<Sample>)
    ensures |s| == |Stratum(records, role)|
  {
    Sort(Stratum(records, role), KeyLe(keyOf))
  }

  function Chosen(records: seq<Sample>, role: Role, percent: nat, keyOf: string -> string): seq<Sample>
    requires HoldoutCount(|Stratum(records, role)|, percent) <= |Stratum(records, role)|
  {
    Ordered(records, role, keyOf)[..HoldoutCount(|Stratum(records, role)|, percent)]
  }

  function Ids(records: seq<Sample>): set<string> {
    set r | r in records :: r.sampleId
  }

  function InHoldout(ids: set<string>): Sample -> bool {
    (r: Sample) => r.sampleId in ids
  }

  function OutOfHoldout(ids: set<string>): Sample -> bool {
    (r: Sample) => !(r.sampleId in ids)
  }

  ghost predicate Percent(percent: nat) {
    1 <= percent <= 50
  }

  ghost function HoldoutIds(records: seq<Sample>, percent: nat, keyOf: string -> string): set<string>
    requires Percent(percent)
  {
    HoldoutLeavesSome(|Stratum(records, Resume)|, percent);
    HoldoutLeavesSome(|Stratum(records, Ordinary)|, percent);
    Ids(Chosen(records, Resume, percent, keyOf)) + Ids(Chosen(records, Ordinary, percent, keyOf))
  }

  /** Splits the records by role into the two layers. */
  method Split(records: seq<Sample>, percent: nat, keyOf: string -> string)
    returns (calibration: seq<Sample>, holdout: seq<Sample>)
    requires Percent(percent)
    ensures calibration == Keep(records, OutOfHoldout(HoldoutIds(records, percent, keyOf)))
    ensures holdout == Keep(records, InHoldout(HoldoutIds(records, percent, keyOf)))
  {
    var ids: set<string> := {};
    var roles := [Resume, Ordinary];
    for i := 0 to 2
      invariant ids == (if i == 0 then {} else if i == 1 then ChosenIds(records, Resume, percent, keyOf)
                        else HoldoutIds(records, percent, keyOf))
    {
      HoldoutLeavesSome(|Stratum(records, roles[i])|, percent);
      ids := ids + Ids(Chosen(records, roles[i], percent, keyOf));
    }
    calibration := Keep(records, OutOfHoldout(ids));
    holdout := Keep(records, InHoldout(ids));
  }

  ghost function ChosenIds(records: seq<Sample>, role: Role, percent: nat, keyOf: string -> string): set<string>
    requires Percent(percent)
  {
    HoldoutLeavesSome(|Stratum(records, role)|, percent);
    Ids(Chosen(records, role, percent, keyOf))
  }

  // ---------- what the split guarantees ----------

  lemma OrderedHolds(records: seq<Sample>, role: Role, keyOf: string -> string)
    requires DistinctIds(records)
    ensures DistinctIds(Ordered(records, role, keyOf))
    ensures forall r :: r in Ordered(records, role, keyOf) <==> r in records && r.role == role
  {
    var stratum, ordered := Stratum(records, role), Ordered(records, role, keyOf);
    SortPermutes(stratum, KeyLe(keyOf));
    KeepIsDistinct(records, (r: Sample) => r.role == role);
    PartIsDistinct(stratum, ordered);
    forall r
      ensures r in ordered <==> r in stratum
    {
      assert r in multiset(ordered) <==> r in multiset(stratum);
    }
    forall i, j | 0 <= i < j < |ordered|
      ensures ordered[i].sampleId != ordered[j].sampleId
    {
      assert ordered[i] in ordered && ordered[j] in ordered;
    }
  }

  lemma SameIdSameRecord(records: seq<Sample>, a: Sample, b: Sample)
    requires DistinctIds(records) && a in records && b in records && a.sampleId == b.sampleId
    ensures a == b
  {}

  // The holdout records of a role are those chosen from its own stratum.
  lemma HoldoutOfRole(records: seq<Sample>, percent: nat, keyOf: string -> string, r: Sample)
    requires Percent(percent) && DistinctIds(records) && r in records
    requires HoldoutCount(|Stratum(records, r.role)|, percent) <= |Stratum(records, r.role)|
    ensures r.sampleId in HoldoutIds(records, percent, keyOf) <==> r in Chosen(records, r.role, percent, keyOf)
  {
    if r.sampleId in HoldoutIds(records, percent, keyOf) {
      var role := if r.sampleId in ChosenIds(records, Resume, percent, keyOf) then Resume else Ordinary;
      HoldoutLeavesSome(|Stratum(records, role)|, percent);
      var c :| c in Chosen(records, role, percent, keyOf) && c.sampleId == r.sampleId;
      OrderedHolds(records, role, keyOf);
      assert c in Ordered(records, role, keyOf);
      SameIdSameRecord(records, c, r);
    }
  }

  /** The two layers partition the records, and no id is in both. */
  lemma LayersPartition(records: seq<Sample>, percent: nat, keyOf: string -> string)
    requires Percent(percent)
    ensures var ids := HoldoutIds(records, percent, keyOf);
            && multiset(Keep(records, InHoldout(ids))) + multiset(Keep(records, OutOfHoldout(ids)))
               == multiset(records)
            && Ids(Keep(records, InHoldout(ids))) !! Ids(Keep(records, OutOfHoldout(ids)))
  {
    var ids := HoldoutIds(records, percent, keyOf);
    PartsOf(records, ids);
  }

  lemma PartsOf(records: seq<Sample>, ids: set<string>)
    ensures multiset(Keep(records, InHoldout(ids))) + multiset(Keep(records, OutOfHoldout(ids)))
            == multiset(records)
  {
    forall r
      ensures multiset(Keep(records, InHoldout(ids)))[r] + multiset(Keep(records, OutOfHoldout(ids)))[r]
              == multiset(records)[r]
    {
      KeepCounts(records, InHoldout(ids), r);
      KeepCounts(records, OutOfHoldout(ids), r);
    }
  }

  function RecordSet(records: seq<Sample>): set<Sample> {
    set r | r in records
  }

  lemma {:induction false} RecordSetSize(records: seq<Sample>)
    requires DistinctIds(records)
    ensures |RecordSet(records)| == |records|
  {
    if records != [] {
      RecordSetSize(records[1..]);
      assert records == [records[0]] + records[1..];
      assert RecordSet(records) == {records[0]} + RecordSet(records[1..]);
    }
  }

  /** With unique ids, each role sends exactly its rounded percentage, at least one and
      never all of a stratum of two or more, to the holdout. */
  lemma HoldoutIsExact(records: seq<Sample>, percent: nat, keyOf: string -> string, role: Role)
    requires Percent(percent) && DistinctIds(records)
    ensures var ids := HoldoutIds(records, percent, keyOf);
            |set r | r in Keep(records, InHoldout(ids)) && r.role == role|
            == HoldoutCount(|Stratum(records, role)|, percent)
    ensures var ids := HoldoutIds(records, percent, keyOf);
            IsRoundedPercentage(|set r | r in Keep(records, InHoldout(ids)) && r.role == role|,
                                |Keep(records, (r: Sample) => r.role == role)|, percent)
  {
    HoldoutLeavesSome(|Stratum(records, role)|, percent);
    HoldoutIsRounded(|Stratum(records, role)|, percent);
    var ids := HoldoutIds(records, percent, keyOf);
    var chosen := Chosen(records, role, percent, keyOf);
    HoldoutSet(records, percent, keyOf, role);
    OrderedHolds(records, role, keyOf);
    RecordSetSize(chosen);
  }

  lemma HoldoutSet(records: seq<Sample>, percent: nat, keyOf: string -> string, role: Role)
    requires Percent(percent) && DistinctIds(records)
    requires HoldoutCount(|Stratum(records, role)|, percent) <= |Stratum(records, role)|
    ensures (set r | r in Keep(records, InHoldout(HoldoutIds(records, percent, keyOf))) && r.role == role)
            == RecordSet(Chosen(records, role, percent, keyOf))
  {
    ChosenIsHeld(records, percent, keyOf, role);
  }

  lemma ChosenIsHeld(records: seq<Sample>, percent: nat, keyOf: string -> string, role: Role)
    requires Percent(percent) && DistinctIds(records)
    requires HoldoutCount(|Stratum(records, role)|, percent) <= |Stratum(records, role)|
    ensures forall r :: r in Chosen(records, role, percent, keyOf) <==>
              r in Keep(records, InHoldout(HoldoutIds(records, percent, keyOf))) && r.role == role
  {
    OrderedHolds(records, role, keyOf);
    forall r
      ensures r in Chosen(records, role, percent, keyOf) <==>
              r in records && r.role == role && r.sampleId in HoldoutIds(records, percent, keyOf)
    {
      if r in Chosen(records, role, percent, keyOf) { assert r in Ordered(records, role, keyOf); }
      if r in records && r.role == role { HoldoutOfRole(records, percent, keyOf, r); }
    }
  }

  lemma KeyLeIsTotal(keyOf: string -> string)
    ensures TotalPreorder(KeyLe(keyOf))
  {
    forall a: Sample, b: Sample
      ensures KeyLe(keyOf)(a, b) || KeyLe(keyOf)(b, a)
    {
      LexTotal(keyOf(a.sampleId), keyOf(b.sampleId), CodePoint);
    }
    forall a: Sample, b: Sample, c: Sample | KeyLe(keyOf)(a, b) && KeyLe(keyOf)(b, c)
      ensures KeyLe(keyOf)(a, c)
    {
      LexTransitive(keyOf(a.sampleId), keyOf(b.sampleId), keyOf(c.sampleId), CodePoint);
    }
  }

  lemma InPrefix(s: seq<Sample>, n: nat, j: nat)
    requires n <= |s| && j < |s|
    ensures j < n ==> s[j] in s[..n]
  {
    if j < n { assert s[..n][j] == s[j]; }
  }

  lemma OrderedByKey(records: seq<Sample>, keyOf: string -> string, i: nat, j: nat, role: Role)
    requires i < j < |Ordered(records, role, keyOf)|
    ensures NameLe(keyOf(Ordered(records, role, keyOf)[i].sampleId), keyOf(Ordered(records, role, keyOf)[j].sampleId))
  {
    KeyLeIsTotal(keyOf);
    SortSorts(Stratum(records, role), KeyLe(keyOf));
    var ordered := Ordered(records, role, keyOf);
    assert KeyLe(keyOf)(ordered[i], ordered[j]);
  }

  /** A role's holdout records have the smallest keys of the role. */
  lemma HoldoutHasSmallestKeys(records: seq<Sample>, percent: nat, keyOf: string -> string, r: Sample, q: Sample)
    requires Percent(percent) && DistinctIds(records) && r.role == q.role
    requires r in Keep(records, InHoldout(HoldoutIds(records, percent, keyOf)))
    requires q in Keep(records, OutOfHoldout(HoldoutIds(records, percent, keyOf)))
    ensures NameLe(keyOf(r.sampleId), keyOf(q.sampleId))
  {
    var role := r.role;
    HoldoutLeavesSome(|Stratum(records, role)|, percent);
    OrderedHolds(records, role, keyOf);
    HoldoutOfRole(records, percent, keyOf, r);
    HoldoutOfRole(records, percent, keyOf, q);
    var i, j := PrefixFirst(Ordered(records, role, keyOf), HoldoutCount(|Stratum(records, role)|, percent), r, q);
    OrderedByKey(records, keyOf, i, j, role);
  }

  lemma PrefixFirst(s: seq<Sample>, n: nat, r: Sample, q: Sample) returns (i: nat, j: nat)
    requires n <= |s| && r in s[..n] && q in s && q !in s[..n]
    ensures i < j < |s| && s[i] == r && s[j] == q
  {
    i :| 0 <= i < |s[..n]| && s[..n][i] == r;
    j :| 0 <= j < |s| && s[j] == q;
    InPrefix(s, n, j);
  }

  /** Every role with at least two records appears in both layers. */
  lemma BothLayersSeeTheRole(records: seq<Sample>, percent: nat, keyOf: string -> string, role: Role)
    requires Percent(percent) && DistinctIds(records) && |Stratum(records, role)| >= 2
    ensures var ids := HoldoutIds(records, percent, keyOf);
            && (exists r :: r in Keep(records, InHoldout(ids)) && r.role == role)
            && (exists r :: r in Keep(records, OutOfHoldout(ids)) && r.role == role)
  {
    var ids := HoldoutIds(records, percent, keyOf);
    var ordered, n := Ordered(records, role, keyOf), |Stratum(records, role)|;
    HoldoutLeavesSome(n, percent);
    OrderedHolds(records, role, keyOf);
    var chosen := Chosen(records, role, percent, keyOf);
    var first, last := ordered[0], ordered[n - 1];
    assert first in ordered && last in ordered && first == chosen[0];
    HoldoutOfRole(records, percent, keyOf, first);
    HoldoutOfRole(records, percent, keyOf, last);
    assert first in Keep(records, InHoldout(ids));
    assert last in Keep(records, OutOfHoldout(ids));
  }

  // ---------- outputs are written once ----------

  const OUTPUT_NAMES: seq<string> :=
    ["private-calibration.local.json", "blind-holdout.local.json", "mixed-import-freeze-summary.json"]

  type Files = map<string, string>

  datatype FreezeError = FreezeMismatch | Interrupted

  // The outputs in writing order; `contents` has one entry per output.
  type Contents = c: seq<string> | |c| == 3 witness ["", "", ""]

  predicate NoneExist(files: Files) {
    forall i :: 0 <= i < 3 ==> OUTPUT_NAMES[i] !in files
  }

  predicate AllMatch(files: Files, contents: Contents) {
    forall i :: 0 <= i < 3 ==> OUTPUT_NAMES[i] in files && files[OUTPUT_NAMES[i]] == contents[i]
  }

  function Written(files: Files, contents: Contents, n: nat): Files
    requires n <= 3
  {
    if n == 0 then files else Written(files, contents, n - 1)[OUTPUT_NAMES[n - 1] := contents[n - 1]]
  }

  // The files after one call that is cut off after `cut` writes.
  function Frozen(files: Files, contents: Contents, cut: nat): Files {
    if NoneExist(files) then Written(files, contents, if cut < 3 then cut else 3) else files
  }

  class EvidenceDirectory {
    var files: Files

    /** One freeze call: verifies existing outputs or writes new ones, never both. */
    method WriteOutputs(contents: Contents, cut: nat) returns (r: Result<(), FreezeError>)
      modifies this
      ensures files == Frozen(old(files), contents, cut)
      ensures r == Failure(FreezeMismatch) <==> !NoneExist(old(files)) && !AllMatch(old(files), contents)
      ensures r.Success? ==> AllMatch(files, contents)
      ensures r == Failure(Interrupted) <==> NoneExist(old(files)) && cut < 3
    {
      if exists i :: 0 <= i < 3 && OUTPUT_NAMES[i] in files {
        if !AllMatch(files, contents) { return Failure(FreezeMismatch); }
      } else {
        ghost var before := files;
        for i := 0 to 3
          invariant files == Written(before, contents, i) && i <= cut
        {
          if cut == i { return Failure(Interrupted); }
          files := files[OUTPUT_NAMES[i] := contents[i]];
        }
        AllWritten(before, contents);
      }
      return Success(());
    }
  }

  lemma NamesDiffer()
    ensures OUTPUT_NAMES[0] != OUTPUT_NAMES[1] && OUTPUT_NAMES[0] != OUTPUT_NAMES[2]
    ensures OUTPUT_NAMES[1] != OUTPUT_NAMES[2]
  {
    assert OUTPUT_NAMES[0][0] == 'p' && OUTPUT_NAMES[1][0] == 'b' && OUTPUT_NAMES[2][0] == 'm';
  }

  lemma AllWritten(files: Files, contents: Contents)
    ensures AllMatch(Written(files, contents, 3), contents)
  {
    NamesDiffer();
    assert Written(files, contents, 1) == Written(files, contents, 0)[OUTPUT_NAMES[0] := contents[0]];
    assert Written(files, contents, 2) == Written(files, contents, 1)[OUTPUT_NAMES[1] := contents[1]];
  }

  lemma {:induction false} WrittenKeepsOthers(files: Files, contents: Contents, n: nat, name: string)
    requires n <= 3 && name in files && name !in OUTPUT_NAMES
    ensures name in Written(files, contents, n) && Written(files, contents, n)[name] == files[name]
  {
    if n > 0 {
      WrittenKeepsOthers(files, contents, n - 1, name);
      assert OUTPUT_NAMES[n - 1] in OUTPUT_NAMES;
    }
  }

  // states[k + 1] is the directory after call k.
  ghost predicate Calls(states: seq<Files>, contents: seq<Contents>, cuts: seq<nat>) {
    && |states| == |contents| + 1 && |cuts| == |contents|
    && forall k :: 0 <= k < |contents| ==> states[k + 1] == Frozen(states[k], contents[k], cuts[k])
  }

  /** Over any sequence of freeze calls, each possibly cut off after any write, a file
      that exists keeps its contents. */
  lemma {:induction false} NothingIsRewritten(states: seq<Files>, contents: seq<Contents>, cuts: seq<nat>,
                                              i: nat, j: nat, name: string)
    requires Calls(states, contents, cuts) && i <= j < |states| && name in states[i]
    ensures name in states[j] && states[j][name] == states[i][name]
    decreases j
  {
    if i < j {
      NothingIsRewritten(states, contents, cuts, i, j - 1, name);
      assert states[j - 1 + 1] == Frozen(states[j - 1], contents[j - 1], cuts[j - 1]);
      if NoneExist(states[j - 1]) && name !in OUTPUT_NAMES {
        WrittenKeepsOthers(states[j - 1], contents[j - 1],
                           if cuts[j - 1] < 3 then cuts[j - 1] else 3, name);
      }
    }
  }

  ghost predicate Partial(files: Files) {
    !NoneExist(files) && exists i :: 0 <= i < 3 && OUTPUT_NAMES[i] !in files
  }

  /** A first call that is cut off after one or two writes leaves a directory that no
      later call repairs: every one of them reports a mismatch and changes nothing. */
  lemma {:induction false} InterruptedNeverHeals(states: seq<Files>, contents: seq<Contents>, cuts: seq<nat>,
                                                 i: nat, j: nat)
    requires Calls(states, contents, cuts) && i <= j < |states| && Partial(states[i])
    ensures states[j] == states[i]
    ensures forall c: Contents :: !AllMatch(states[j], c)
    decreases j
  {
    if i < j {
      InterruptedNeverHeals(states, contents, cuts, i, j - 1);
      assert states[j - 1 + 1] == Frozen(states[j - 1], contents[j - 1], cuts[j - 1]);
    }
  }

  lemma CutLeavesPartial(files: Files, contents: Contents, cut: nat)
    requires NoneExist(files)
    ensures Partial(Frozen(files, contents, cut)) <==> 1 <= cut <= 2
  {
    NamesDiffer();
    AllWritten(files, contents);
    assert Written(files, contents, 0) == files;
    assert Written(files, contents, 1) == files[OUTPUT_NAMES[0] := contents[0]];
    assert Written(files, contents, 2) == Written(files, contents, 1)[OUTPUT_NAMES[1] := contents[1]];
  }
}
