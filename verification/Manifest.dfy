/** The parallel verification manifest: what a parsed file must satisfy to be
    accepted, and what every accepted manifest guarantees the scheduler. */
module Manifest {
  import opened Wrappers
  import opened Sequences

  datatype Check = Check(
    identifier: string,
    behavior: string,
    command: seq<string>,
    inputs: seq<string>,
    inputSets: seq<string>,
    resources: seq<string>,
    sourceAuthority: string,
    evidenceLane: string,
    claim: string,
    producesArtifact: bool)

  datatype Manifest = Manifest(
    schema: string,
    resources: map<string, int>,
    inputSets: map<string, seq<string>>,
    checks: seq<Check>)

  datatype ManifestError =
    | UnknownSchema
    | NoResources
    | BadCapacity
    | BadInputSet
    | NoChecks
    | BadCheck(identifier: string)
    | MissingInputs(identifier: string)
    | BadPattern(identifier: string)
    | BadArtifactProducer(identifier: string)

  const MANIFEST_SCHEMA: string := "resume-ir.verify-local-parallel-manifest.v2"
  const SOURCE_AUTHORITIES: set<string> := {"repository", "worktree_snapshot", "exact_main_commit"}
  const EVIDENCE_LANES: set<string> := {"smoke", "w0_docs", "w1_private", "soak_fault", "gui_manual"}
  const CLAIMS: set<string> := {"verification", "manual_test", "release_gate", "installed_acceptance"}

  // `..` standing as a whole path component.
  predicate HasParentComponent(p: string) {
    exists i :: 0 <= i < |p| - 1 && p[i] == '.' && p[i + 1] == '.'
      && (i == 0 || p[i - 1] == '/') && (i + 2 == |p| || p[i + 2] == '/')
  }

  predicate RelativePattern(p: string) {
    p == "@worktree" || (!(|p| > 0 && p[0] == '/') && !HasParentComponent(p))
  }

  predicate PatternsAccepted(patterns: seq<string>) {
    forall p :: p in patterns ==> p != "" && RelativePattern(p)
  }

  // The fields of one entry, apart from the uniqueness of its identifier.
  predicate FieldsAccepted(c: Check, resources: map<string, int>, sets: map<string, seq<string>>) {
    && c.identifier != "" && c.behavior != ""
    && c.command != [] && (forall part :: part in c.command ==> part != "")
    && (forall p :: p in c.inputs ==> p != "")
    && (forall name :: name in c.inputSets ==> name in sets)
    && (forall name :: name in c.resources ==> name in resources)
    && Distinct(c.resources)
    && c.sourceAuthority in SOURCE_AUTHORITIES
    && c.evidenceLane in EVIDENCE_LANES
    && c.claim in CLAIMS
  }

  predicate ArtifactAccepted(c: Check) {
    if c.producesArtifact
    then "packaging" in c.resources && c.sourceAuthority != "repository" && c.claim != "verification"
    else c.sourceAuthority == "repository"
  }

  predicate EntryAccepted(c: Check, resources: map<string, int>, sets: map<string, seq<string>>) {
    && FieldsAccepted(c, resources, sets)
    && !(c.inputs == [] && c.inputSets == [])
    && (forall p :: p in c.inputs ==> RelativePattern(p))
    && ArtifactAccepted(c)
  }

  predicate DistinctIdentifiers(checks: seq<Check>) {
    forall i, j :: 0 <= i < j < |checks| ==> checks[i].identifier != checks[j].identifier
  }

  predicate CapacitiesAccepted(resources: map<string, int>) {
    forall r :: r in resources ==> r != "" && resources[r] >= 1
  }

  ghost predicate Accepted(m: Manifest) {
    && m.schema == MANIFEST_SCHEMA
    && m.resources != map[] && CapacitiesAccepted(m.resources)
    && (forall s :: s in m.inputSets ==> m.inputSets[s] != [] && PatternsAccepted(m.inputSets[s]))
    && m.checks != []
    && DistinctIdentifiers(m.checks)
    && (forall k :: 0 <= k < |m.checks| ==> EntryAccepted(m.checks[k], m.resources, m.inputSets))
  }

  // Entry k is acceptable after those before it.
  predicate EntryFollows(m: Manifest, k: nat)
    requires k < |m.checks|
  {
    && EntryAccepted(m.checks[k], m.resources, m.inputSets)
    && forall j :: 0 <= j < k ==> m.checks[j].identifier != m.checks[k].identifier
  }

  // Entry k is the first that is not.
  ghost predicate FirstBad(m: Manifest, k: nat) {
    k < |m.checks| && !EntryFollows(m, k) && forall j :: 0 <= j < k ==> EntryFollows(m, j)
  }

  predicate NamesEntry(e: ManifestError, identifier: string) {
    match e
    case BadCheck(id) => id == identifier
    case MissingInputs(id) => id == identifier
    case BadPattern(id) => id == identifier
    case BadArtifactProducer(id) => id == identifier
    case _ => false
  }

  // What the scheduler relies on.
  ghost predicate Schedulable(checks: seq<Check>, limits: map<string, int>) {
    && DistinctIdentifiers(checks)
    && (forall r :: r in limits ==> limits[r] >= 1)
    && (forall c :: c in checks ==> Distinct(c.resources) && forall r :: r in c.resources ==> r in limits)
  }

  method CheckEntry(c: Check, resources: map<string, int>, sets: map<string, seq<string>>)
    returns (problem: Option<ManifestError>)
    ensures problem.None? <==> EntryAccepted(c, resources, sets)
    ensures problem.Some? ==> NamesEntry(problem.value, c.identifier)
  {
    if !FieldsAccepted(c, resources, sets) { return Some(BadCheck(c.identifier)); }
    if c.inputs == [] && c.inputSets == [] { return Some(MissingInputs(c.identifier)); }
    if exists p :: p in c.inputs && !RelativePattern(p) { return Some(BadPattern(c.identifier)); }
    if !ArtifactAccepted(c) { return Some(BadArtifactProducer(c.identifier)); }
    return None;
  }

  // Reads entries until the first bad one.
  method ReadEntries(raw: Manifest) returns (checks: seq<Check>, problem: Option<ManifestError>)
    ensures |checks| <= |raw.checks| && checks == raw.checks[..|checks|]
    ensures forall j :: 0 <= j < |checks| ==> EntryFollows(raw, j)
    ensures problem.None? ==> |checks| == |raw.checks|
    ensures problem.Some? ==>
              FirstBad(raw, |checks|) && NamesEntry(problem.value, raw.checks[|checks|].identifier)
  {
    checks := [];
    var identifiers: set<string> := {};
    for i := 0 to |raw.checks|
      invariant checks == raw.checks[..i]
      invariant forall id :: id in identifiers <==> exists j :: 0 <= j < i && raw.checks[j].identifier == id
      invariant forall j :: 0 <= j < i ==> EntryFollows(raw, j)
    {
      var entry := raw.checks[i];
      if entry.identifier in identifiers { return checks, Some(BadCheck(entry.identifier)); }
      problem := CheckEntry(entry, raw.resources, raw.inputSets);
      if problem.Some? { return; }
      identifiers := identifiers + {entry.identifier};
      checks := checks + [entry];
    }
    return checks, None;
  }

  lemma FollowingIsDistinct(m: Manifest)
    ensures (forall k :: 0 <= k < |m.checks| ==> EntryFollows(m, k))
            <==> DistinctIdentifiers(m.checks)
                 && forall k :: 0 <= k < |m.checks| ==> EntryAccepted(m.checks[k], m.resources, m.inputSets)
  {
    if forall k :: 0 <= k < |m.checks| ==> EntryFollows(m, k) {
      forall i, j | 0 <= i < j < |m.checks|
        ensures m.checks[i].identifier != m.checks[j].identifier
      {
        assert EntryFollows(m, j);
      }
      forall k | 0 <= k < |m.checks|
        ensures EntryAccepted(m.checks[k], m.resources, m.inputSets)
      {
        assert EntryFollows(m, k);
      }
    }
  }

  lemma AcceptedIsSchedulable(m: Manifest)
    requires Accepted(m)
    ensures Schedulable(m.checks, m.resources)
  {
    forall c | c in m.checks
      ensures Distinct(c.resources) && forall r :: r in c.resources ==> r in m.resources
    {
      var k :| 0 <= k < |m.checks| && m.checks[k] == c;
      assert EntryAccepted(m.checks[k], m.resources, m.inputSets);
    }
  }

  /** Accepts exactly the manifests satisfying `Accepted`, and returns them unchanged.  An
      error about an entry names the first bad one. */
  method ReadManifest(raw: Manifest) returns (r: Result<Manifest, ManifestError>)
    ensures r.Success? <==> Accepted(raw)
    ensures r.Success? ==> r.value == raw && Schedulable(raw.checks, raw.resources)
    ensures r.Failure? && (exists id :: NamesEntry(r.error, id)) ==>
              exists k: nat :: FirstBad(raw, k) && NamesEntry(r.error, raw.checks[k].identifier)
  {
    if raw.schema != MANIFEST_SCHEMA { return Failure(UnknownSchema); }
    if raw.resources == map[] { return Failure(NoResources); }
    if !CapacitiesAccepted(raw.resources) { return Failure(BadCapacity); }
    if exists s :: s in raw.inputSets && (raw.inputSets[s] == [] || !PatternsAccepted(raw.inputSets[s])) {
      return Failure(BadInputSet);
    }
    if raw.checks == [] { return Failure(NoChecks); }
    var checks, problem := ReadEntries(raw);
    FollowingIsDistinct(raw);
    if problem.Some? { return Failure(problem.value); }
    assert checks == raw.checks;
    AcceptedIsSchedulable(raw);
    return Success(Manifest(raw.schema, raw.resources, raw.inputSets, checks));
  }

  /** In an accepted manifest exactly the artifact producers leave the repository as source,
      and they hold the packaging resource and claim more than a verification. */
  lemma ArtifactsAreMarked(m: Manifest, k: nat)
    requires Accepted(m) && k < |m.checks|
    ensures m.checks[k].producesArtifact <==> m.checks[k].sourceAuthority != "repository"
    ensures m.checks[k].producesArtifact ==> "packaging" in m.checks[k].resources && m.checks[k].claim != "verification"
    ensures "packaging" !in m.resources ==> !m.checks[k].producesArtifact
  {
    assert EntryAccepted(m.checks[k], m.resources, m.inputSets);
  }

  lemma {:induction false} KeepIsDistinct(checks: seq<Check>, p: Check -> bool)
    requires DistinctIdentifiers(checks)
    ensures DistinctIdentifiers(Keep(checks, p))
  {
    if checks != [] {
      var n := |checks| - 1;
      KeepIsDistinct(checks[..n], p);
      forall c | c in Keep(checks[..n], p)
        ensures c.identifier != checks[n].identifier
      {
        assert c in checks[..n];
      }
    }
  }

  lemma KeepIsSchedulable(checks: seq<Check>, p: Check -> bool, limits: map<string, int>)
    requires Schedulable(checks, limits)
    ensures Schedulable(Keep(checks, p), limits)
  {
    KeepIsDistinct(checks, p);
  }

  /** `select_checks`, with the `--only` values already split on commas: without `--only`
      everything is kept, an unknown identifier is an error. */
  function SelectChecks(checks: seq<Check>, only: Option<set<string>>): (r: Result<seq<Check>, set<string>>) {
    var known := set c | c in checks :: c.identifier;
    if only.None? then Success(checks)
    else if only.value - known != {} then Failure(only.value - known)
    else Success(Keep(checks, (c: Check) => c.identifier in only.value))
  }

  /** A selection of a schedulable manifest is schedulable, and holds exactly the
      requested identifiers. */
  lemma SelectionStaysSchedulable(checks: seq<Check>, only: Option<set<string>>, limits: map<string, int>)
    requires Schedulable(checks, limits)
    requires SelectChecks(checks, only).Success?
    ensures Schedulable(SelectChecks(checks, only).value, limits)
    ensures only.Some? ==> (set c | c in SelectChecks(checks, only).value :: c.identifier) == only.value
  {
    if only.Some? {
      KeepIsSchedulable(checks, (c: Check) => c.identifier in only.value, limits);
      var kept := SelectChecks(checks, only).value;
      forall id | id in only.value
        ensures id in set c | c in kept :: c.identifier
      {
        assert id !in only.value - set c | c in checks :: c.identifier;
      }
    }
  }
}
