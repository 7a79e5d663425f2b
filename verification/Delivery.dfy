/** The delivery transition graph: what the goal checker demands of an open-ended list of
    transitions, and what that means for every run over an accepted list. */
module Delivery {
  import opened Wrappers

  // The states and names the checker knows; anything else is free text.
  datatype State =
    | PrivacyGateGreen | MergeMethodSelected | PrMerged | BranchCleanedMainSynced
    | MergedMainInstalled | InstalledAcceptanceGreen | ExactCommitFrozen | SoakGreen
    | IssueReconciled | SliceSelected | GoalAuthorized | BlockedPermission | ContractConflict
    | OtherState(text: string)

  datatype Name =
    | SelectMergeMethod | MergeScopeExceptionPr | CleanupBranchAndSyncMain | BuildAndInstallExactMergedMain
    | AcceptInstalledV29Cow | FreezeInstalledAcceptanceCommit | RunFinalFrozenSoak | ReconcileIssueLifecycle
    | RegressDeployedFailure | AuthorizeAttribution | BlockAttributionMissingRoots
    | OtherName(text: string)

  datatype Terms = Terms(
    permissions: seq<string>,
    evidence: seq<string>,
    actions: seq<string>,
    owners: Option<seq<string>>)

  datatype Transition = Transition(name: Name, sources: seq<State>, target: State, terms: Terms)

  // ---------- spelling ----------

  predicate SpellsState(s: string) {
    || s == "privacy_gate_green" || s == "merge_method_selected" || s == "pr_merged"
    || s == "branch_cleaned_main_synced" || s == "merged_main_0_1_2_installed"
    || s == "installed_v29_cow_acceptance_green" || s == "exact_commit_frozen" || s == "soak_120m_green"
    || s == "issue_reconciled_with_evidence" || s == "slice_selected" || s == "goal_authorized"
    || s == "blocked_permission" || s == "contract_conflict"
  }

  predicate SpellsName(s: string) {
    || s == "select_merge_method" || s == "merge_scope_exception_pr" || s == "cleanup_branch_and_sync_main"
    || s == "build_and_install_exact_merged_main" || s == "accept_installed_v29_cow"
    || s == "freeze_installed_acceptance_commit" || s == "run_final_frozen_soak"
    || s == "reconcile_issue_lifecycle" || s == "regress_deployed_failure"
    || s == "authorize_current_main_import_attribution"
    || s == "block_current_main_import_attribution_missing_roots"
  }

  predicate ProperState(s: State) {
    s.OtherState? ==> !SpellsState(s.text)
  }

  // Free text does not spell a name or state of its own constructor, so that each text of
  // a parsed list has one value here.
  predicate Proper(t: Transition) {
    && (t.name.OtherName? ==> !SpellsName(t.name.text))
    && ProperState(t.target) && (forall s :: s in t.sources ==> ProperState(s))
  }

  ghost predicate AllProper(ts: seq<Transition>) {
    forall t :: t in ts ==> Proper(t)
  }

  // ---------- the checker's tables ----------

  // Where the transitions the checker pins down lead.
  function Edge(name: Name): Option<(seq<State>, State)> {
    match name
    case SelectMergeMethod => Some(([PrivacyGateGreen], MergeMethodSelected))
    case MergeScopeExceptionPr => Some(([MergeMethodSelected], PrMerged))
    case CleanupBranchAndSyncMain => Some(([PrMerged], BranchCleanedMainSynced))
    case BuildAndInstallExactMergedMain => Some(([BranchCleanedMainSynced], MergedMainInstalled))
    case AcceptInstalledV29Cow => Some(([MergedMainInstalled], InstalledAcceptanceGreen))
    case FreezeInstalledAcceptanceCommit => Some(([InstalledAcceptanceGreen], ExactCommitFrozen))
    case RunFinalFrozenSoak => Some(([ExactCommitFrozen], SoakGreen))
    case ReconcileIssueLifecycle => Some(([SoakGreen], IssueReconciled))
    case RegressDeployedFailure =>
      Some(([PrMerged, BranchCleanedMainSynced, MergedMainInstalled, InstalledAcceptanceGreen,
             ExactCommitFrozen, SoakGreen], SliceSelected))
    case AuthorizeAttribution =>
      Some(([BranchCleanedMainSynced, BlockedPermission, ContractConflict], GoalAuthorized))
    case BlockAttributionMissingRoots => Some(([BranchCleanedMainSynced], BlockedPermission))
    case OtherName(_) => None
  }

  // The transitions pinned with exact terms.
  predicate Pinned(name: Name) {
    Edge(name).Some? && name != AuthorizeAttribution && name != BlockAttributionMissingRoots
  }

  function RequiredPermissions(name: Name): seq<string>
    requires Pinned(name)
  {
    match name
    case SelectMergeMethod => ["github_pr_write_allowed"]
    case MergeScopeExceptionPr => ["protected_merge_allowed"]
    case CleanupBranchAndSyncMain => ["branch_cleanup_allowed"]
    case BuildAndInstallExactMergedMain => ["local_install_allowed"]
    case AcceptInstalledV29Cow => ["private_resume_root_read_allowed"]
    case FreezeInstalledAcceptanceCommit => []
    case RunFinalFrozenSoak => []
    case ReconcileIssueLifecycle => ["github_issue_write_allowed"]
    case RegressDeployedFailure => ["github_issue_write_allowed"]
  }

  function RequiredEvidence(name: Name): seq<string>
    requires Pinned(name)
  {
    match name
    case SelectMergeMethod => ["merge_method", "branch_protection_satisfied", "admin_bypass_absent"]
    case MergeScopeExceptionPr =>
      ["ci_green", "local_gate_green", "privacy_gate_green", "branch_protection_satisfied",
       "scope_exception_normal_merge", "admin_bypass_absent"]
    case CleanupBranchAndSyncMain =>
      ["merged_commit", "local_main_equals_remote_main", "feature_branch_removed",
       "unrelated_worktree_changes_preserved"]
    case BuildAndInstallExactMergedMain =>
      ["fresh_remote_main", "clean_merged_main", "stable_serial_source_authority",
       "exact_commit_isolated_build_source", "exact_version_0_1_2", "verified_bundle_dmg_receipt_commit_equality",
       "installed_app_commit_equality"]
    case AcceptInstalledV29Cow =>
      ["authorized_v29_source", "apfs_cow_no_fallback", "source_unchanged", "mutation_authority_revalidated",
       "exact_v29_preserved", "launch_bound_control_plane", "runtime_capability_faults",
       "artifact_identity_consistent", "ciphertext_digest_verified", "nonzero_exact_epoch_synthetic_canary",
       "durable_process_group_cleanup", "strong_kill_recovered", "fulltext_vector_contention_bounded",
       "final_quit_relaunch_ready", "redacted_diagnostics"]
    case FreezeInstalledAcceptanceCommit =>
      ["installed_acceptance_commit", "local_main_equals_remote_main", "worktree_clean"]
    case RunFinalFrozenSoak =>
      ["soak_commit_equals_installed_acceptance_commit", "uninterrupted_120_minute_soak", "soak_result_green"]
    case ReconcileIssueLifecycle =>
      ["main_reachable_commit", "installed_acceptance_commit", "soak_commit", "issue_lifecycle_outcome",
       "before_after_metrics", "privacy_boundary"]
    case RegressDeployedFailure =>
      ["deployed_failure", "repeatable_regression", "soak_invalidated", "linked_issue", "privacy_boundary"]
  }

  function RequiredActions(name: Name): seq<string>
    requires Pinned(name)
  {
    match name
    case SelectMergeMethod => ["update_pr_body", "record_merge_method"]
    case MergeScopeExceptionPr => ["squash_merge"]
    case CleanupBranchAndSyncMain => ["fetch_base", "sync_main", "remove_worktree", "delete_branch"]
    case BuildAndInstallExactMergedMain => ["build_release", "verify_release", "install_local"]
    case AcceptInstalledV29Cow => ["run_installed_acceptance", "write_redacted_evidence"]
    case FreezeInstalledAcceptanceCommit => ["record_frozen_commit"]
    case RunFinalFrozenSoak => ["run_tests", "write_redacted_evidence"]
    case ReconcileIssueLifecycle => ["comment_issue", "close_issue", "open_follow_up_issue"]
    case RegressDeployedFailure => ["comment_issue", "update_issue"]
  }

  function RequiredOwners(name: Name): Option<seq<string>> {
    if name == BuildAndInstallExactMergedMain then Some(["#217"]) else None
  }

  // The exact terms of the transitions the checker pins down.
  function Required(name: Name): Terms
    requires Pinned(name)
  {
    Terms(RequiredPermissions(name), RequiredEvidence(name), RequiredActions(name), RequiredOwners(name))
  }

  // The evidence the two attribution transitions must at least name.
  function AttributionEvidence(name: Name): seq<string> {
    if name == AuthorizeAttribution then ["configured_private_roots", "fresh_remote_main_sha"]
    else ["missing_configured_private_roots", "terminal_reason_blocked_missing_configured_private_roots"]
  }

  const PINNED: seq<Name> :=
    [SelectMergeMethod, MergeScopeExceptionPr, CleanupBranchAndSyncMain, BuildAndInstallExactMergedMain,
     AcceptInstalledV29Cow, FreezeInstalledAcceptanceCommit, RunFinalFrozenSoak, RegressDeployedFailure,
     ReconcileIssueLifecycle, AuthorizeAttribution, BlockAttributionMissingRoots]

  // The only names allowed to leave a delivery state; None for the other states.
  function Outgoing(s: State): Option<set<Name>> {
    match s
    case PrivacyGateGreen => Some({SelectMergeMethod})
    case MergeMethodSelected => Some({MergeScopeExceptionPr})
    case PrMerged => Some({CleanupBranchAndSyncMain, RegressDeployedFailure})
    case BranchCleanedMainSynced =>
      Some({BuildAndInstallExactMergedMain, AuthorizeAttribution, BlockAttributionMissingRoots, RegressDeployedFailure})
    case MergedMainInstalled => Some({AcceptInstalledV29Cow, RegressDeployedFailure})
    case InstalledAcceptanceGreen => Some({FreezeInstalledAcceptanceCommit, RegressDeployedFailure})
    case ExactCommitFrozen => Some({RunFinalFrozenSoak, RegressDeployedFailure})
    case SoakGreen => Some({ReconcileIssueLifecycle, RegressDeployedFailure})
    case _ => None
  }

  const DELIVERY_STATES: seq<State> :=
    [PrivacyGateGreen, MergeMethodSelected, PrMerged, BranchCleanedMainSynced,
     MergedMainInstalled, InstalledAcceptanceGreen, ExactCommitFrozen, SoakGreen]

  // ---------- acceptance ----------

  predicate EntryAccepted(t: Transition) {
    && t.name != OtherName("") && t.target != OtherState("")
    && t.sources != [] && t.terms.actions != []
    && (t.terms.owners.Some? ==> t.terms.owners.value != [] && forall o :: o in t.terms.owners.value ==> "#" <= o)
  }

  predicate DistinctNames(ts: seq<Transition>) {
    forall i, j :: 0 <= i < j < |ts| ==> ts[i].name != ts[j].name
  }

  function Find(ts: seq<Transition>, name: Name): (r: Option<Transition>)
    ensures r.Some? ==> r.value in ts && r.value.name == name
    ensures r.None? ==> forall t :: t in ts ==> t.name != name
  {
    if ts == [] then None
    else if ts[0].name == name then Some(ts[0])
    else Find(ts[1..], name)
  }

  function NamesFrom(ts: seq<Transition>, s: State): set<Name> {
    set t | t in ts && s in t.sources :: t.name
  }

  predicate EdgeHolds(ts: seq<Transition>, name: Name) {
    Edge(name).Some? ==>
      Find(ts, name).Some? && (Find(ts, name).value.sources, Find(ts, name).value.target) == Edge(name).value
  }

  predicate TermsHold(t: Transition) {
    if Pinned(t.name) then t.terms == Required(t.name)
    else Edge(t.name).Some? ==> AttributionTermsHold(t)
  }

  predicate AttributionTermsHold(t: Transition) {
    t.terms.owners == Some(["#270"]) && forall e :: e in AttributionEvidence(t.name) ==> e in t.terms.evidence
  }

  predicate OutgoingHolds(ts: seq<Transition>, s: State) {
    Outgoing(s).Some? ==> NamesFrom(ts, s) == Outgoing(s).value
  }

  // The part of acceptance that shapes the graph.
  ghost predicate GraphAccepted(ts: seq<Transition>) {
    && DistinctNames(ts)
    && (forall name :: EdgeHolds(ts, name))
    && (forall s :: OutgoingHolds(ts, s))
  }

  ghost predicate Accepted(ts: seq<Transition>) {
    && GraphAccepted(ts)
    && (forall i :: 0 <= i < |ts| ==> EntryAccepted(ts[i]) && TermsHold(ts[i]))
  }

  // ---------- the checker ----------

  method EntriesAccepted(ts: seq<Transition>) returns (ok: bool)
    ensures ok <==> (forall i :: 0 <= i < |ts| ==> EntryAccepted(ts[i])) && DistinctNames(ts)
  {
    var names: set<Name> := {};
    for i := 0 to |ts|
      invariant forall k :: 0 <= k < i ==> EntryAccepted(ts[k]) && ts[k].name in names
      invariant forall n :: n in names ==> exists k :: 0 <= k < i && ts[k].name == n
      invariant DistinctNames(ts[..i])
    {
      if !EntryAccepted(ts[i]) || ts[i].name in names { return false; }
      names := names + {ts[i].name};
    }
    assert ts[..|ts|] == ts;
    return true;
  }

  // Each pinned transition is looked up by name and compared.
  predicate PinnedHolds(ts: seq<Transition>, name: Name) {
    EdgeHolds(ts, name) && (Find(ts, name).Some? ==> TermsHold(Find(ts, name).value))
  }

  method AllPinned(ts: seq<Transition>, names: seq<Name>) returns (ok: bool)
    ensures ok <==> forall k :: 0 <= k < |names| ==> PinnedHolds(ts, names[k])
  {
    for i := 0 to |names|
      invariant forall k :: 0 <= k < i ==> PinnedHolds(ts, names[k])
    {
      if !PinnedHolds(ts, names[i]) { return false; }
    }
    return true;
  }

  method AllOutgoing(ts: seq<Transition>, states: seq<State>) returns (ok: bool)
    ensures ok <==> forall k :: 0 <= k < |states| ==> OutgoingHolds(ts, states[k])
  {
    for i := 0 to |states|
      invariant forall k :: 0 <= k < i ==> OutgoingHolds(ts, states[k])
    {
      if !OutgoingHolds(ts, states[i]) { return false; }
    }
    return true;
  }

  lemma PinnedListed(name: Name) returns (k: nat)
    requires Edge(name).Some?
    ensures k < |PINNED| && PINNED[k] == name
  {
    k := match name
      case SelectMergeMethod => 0
      case MergeScopeExceptionPr => 1
      case CleanupBranchAndSyncMain => 2
      case BuildAndInstallExactMergedMain => 3
      case AcceptInstalledV29Cow => 4
      case FreezeInstalledAcceptanceCommit => 5
      case RunFinalFrozenSoak => 6
      case RegressDeployedFailure => 7
      case ReconcileIssueLifecycle => 8
      case AuthorizeAttribution => 9
      case BlockAttributionMissingRoots => 10;
  }

  lemma StateListed(s: State) returns (k: nat)
    requires Outgoing(s).Some?
    ensures k < |DELIVERY_STATES| && DELIVERY_STATES[k] == s
  {
    k := match s
      case PrivacyGateGreen => 0
      case MergeMethodSelected => 1
      case PrMerged => 2
      case BranchCleanedMainSynced => 3
      case MergedMainInstalled => 4
      case InstalledAcceptanceGreen => 5
      case ExactCommitFrozen => 6
      case SoakGreen => 7;
  }

  lemma PinnedMeansEdges(ts: seq<Transition>)
    requires DistinctNames(ts)
    ensures (forall k :: 0 <= k < |PINNED| ==> PinnedHolds(ts, PINNED[k]))
            <==> (forall name :: EdgeHolds(ts, name)) && forall i :: 0 <= i < |ts| ==> TermsHold(ts[i])
  {
    if forall k :: 0 <= k < |PINNED| ==> PinnedHolds(ts, PINNED[k]) {
      forall name
        ensures EdgeHolds(ts, name)
      {
        if Edge(name).Some? { var k := PinnedListed(name); }
      }
      forall i | 0 <= i < |ts|
        ensures TermsHold(ts[i])
      {
        TakenIsFound(ts, ts[i]);
        if Edge(ts[i].name).Some? { var k := PinnedListed(ts[i].name); }
      }
    } else {
      var k :| 0 <= k < |PINNED| && !PinnedHolds(ts, PINNED[k]);
      if EdgeHolds(ts, PINNED[k]) {
        var i :| 0 <= i < |ts| && ts[i] == Find(ts, PINNED[k]).value;
        assert !TermsHold(ts[i]);
      }
    }
  }

  lemma OutgoingMeansStates(ts: seq<Transition>)
    ensures (forall k :: 0 <= k < |DELIVERY_STATES| ==> OutgoingHolds(ts, DELIVERY_STATES[k]))
            <==> forall s :: OutgoingHolds(ts, s)
  {
    if forall k :: 0 <= k < |DELIVERY_STATES| ==> OutgoingHolds(ts, DELIVERY_STATES[k]) {
      forall s
        ensures OutgoingHolds(ts, s)
      {
        if Outgoing(s).Some? { var k := StateListed(s); }
      }
    }
  }

  /** Accepts exactly the lists satisfying `Accepted`. */
  method CheckTransitions(ts: seq<Transition>) returns (ok: bool)
    ensures ok <==> Accepted(ts)
  {
    ok := EntriesAccepted(ts);
    if !ok { return; }
    PinnedMeansEdges(ts);
    OutgoingMeansStates(ts);
    ok := AllPinned(ts, PINNED);
    if !ok { return; }
    ok := AllOutgoing(ts, DELIVERY_STATES);
  }

  // ---------- runs ----------

  ghost predicate IsRun(ts: seq<Transition>, taken: seq<Transition>, states: seq<State>) {
    && |states| == |taken| + 1
    && forall k :: 0 <= k < |taken| ==>
         taken[k] in ts && states[k] in taken[k].sources && states[k + 1] == taken[k].target
  }

  const DELIVERY: seq<Name> :=
    [SelectMergeMethod, MergeScopeExceptionPr, CleanupBranchAndSyncMain, BuildAndInstallExactMergedMain,
     AcceptInstalledV29Cow, FreezeInstalledAcceptanceCommit, RunFinalFrozenSoak, ReconcileIssueLifecycle]

  const CHAIN: seq<State> :=
    [PrivacyGateGreen, MergeMethodSelected, PrMerged, BranchCleanedMainSynced,
     MergedMainInstalled, InstalledAcceptanceGreen, ExactCommitFrozen, SoakGreen, IssueReconciled]

  predicate Avoided(s: State) {
    s == SliceSelected || s == GoalAuthorized || s == BlockedPermission
  }

  lemma TakenIsFound(ts: seq<Transition>, t: Transition)
    requires DistinctNames(ts) && t in ts
    ensures Find(ts, t.name) == Some(t)
  {
    var found := Find(ts, t.name);
    var i :| 0 <= i < |ts| && ts[i] == t;
    var j :| 0 <= j < |ts| && ts[j] == found.value;
  }

  // The k-th delivery transition leads from the k-th to the next chain state, and what
  // else may leave that state leads into an avoided one.
  lemma ChainLinks(k: nat, name: Name)
    requires k < 8
    ensures Edge(DELIVERY[k]) == Some(([CHAIN[k]], CHAIN[k + 1]))
    ensures Outgoing(CHAIN[k]).Some?
    ensures name in Outgoing(CHAIN[k]).value && name != DELIVERY[k] ==>
              Edge(name).Some? && Avoided(Edge(name).value.1)
    ensures CHAIN[k] != IssueReconciled
  {}

  /** From the k-th delivery state, an accepted list offers the k-th delivery transition
      and, besides it, only ways into the avoided states. */
  lemma ForcedStep(ts: seq<Transition>, k: nat, t: Transition)
    requires GraphAccepted(ts) && k < 8 && t in ts && CHAIN[k] in t.sources
    ensures Avoided(t.target) || (t.name == DELIVERY[k] && t.target == CHAIN[k + 1])
  {
    TakenIsFound(ts, t);
    ChainLinks(k, t.name);
    assert OutgoingHolds(ts, CHAIN[k]) && EdgeHolds(ts, t.name);
    assert t.name in NamesFrom(ts, CHAIN[k]);
  }

  lemma {:induction false} RunFollowsChain(ts: seq<Transition>, taken: seq<Transition>, states: seq<State>, k: nat)
    requires GraphAccepted(ts) && IsRun(ts, taken, states) && states[0] == PrivacyGateGreen
    requires k <= 8 && k < |states| && forall i :: 0 < i <= k ==> !Avoided(states[i])
    ensures states[k] == CHAIN[k]
    ensures k > 0 ==> taken[k - 1].name == DELIVERY[k - 1]
  {
    if k > 0 {
      RunFollowsChain(ts, taken, states, k - 1);
      ForcedStep(ts, k - 1, taken[k - 1]);
    }
  }

  lemma RunIsLongEnough(ts: seq<Transition>, taken: seq<Transition>, states: seq<State>)
    requires GraphAccepted(ts) && IsRun(ts, taken, states)
    requires states[0] == PrivacyGateGreen && states[|states| - 1] == IssueReconciled
    requires forall i :: 0 < i < |states| ==> !Avoided(states[i])
    ensures |taken| >= 8
  {
    var n := |taken|;
    if n < 8 {
      RunFollowsChain(ts, taken, states, n);
      ChainLinks(n, SelectMergeMethod);
    }
  }

  /** For every accepted list: a run from the privacy gate to a reconciled issue that stays
      out of the avoided states begins with the eight delivery transitions, in order and
      with their exact terms.  It consists of just these exactly when it stops at its first
      reconciled issue. */
  lemma DeliveryIsForced(ts: seq<Transition>, taken: seq<Transition>, states: seq<State>)
    requires Accepted(ts) && IsRun(ts, taken, states)
    requires states[0] == PrivacyGateGreen && states[|states| - 1] == IssueReconciled
    requires forall i :: 0 < i < |states| ==> !Avoided(states[i])
    ensures |taken| >= 8 && states[..9] == CHAIN
    ensures forall k :: 0 <= k < 8 ==> taken[k].name == DELIVERY[k] && TermsHold(taken[k])
    ensures |taken| == 8 <==> forall i :: 0 < i < |states| - 1 ==> states[i] != IssueReconciled
  {
    RunIsLongEnough(ts, taken, states);
    forall k | 0 <= k <= 8
      ensures states[k] == CHAIN[k] && (k < 8 ==> CHAIN[k] != IssueReconciled)
    {
      RunFollowsChain(ts, taken, states, k);
      if k < 8 { ChainLinks(k, SelectMergeMethod); }
    }
    forall k | 0 <= k < 8
      ensures taken[k].name == DELIVERY[k] && TermsHold(taken[k])
    {
      RunFollowsChain(ts, taken, states, k + 1);
      var i :| 0 <= i < |ts| && ts[i] == taken[k];
    }
    if |taken| > 8 { assert states[8] == IssueReconciled; }
  }

  /** And that run exists over every accepted list. */
  lemma DeliveryIsPossible(ts: seq<Transition>) returns (taken: seq<Transition>)
    requires GraphAccepted(ts)
    ensures IsRun(ts, taken, CHAIN) && |taken| == 8
    ensures forall k :: 0 <= k < 8 ==> taken[k].name == DELIVERY[k]
  {
    taken := [];
    for k := 0 to 8
      invariant |taken| == k
      invariant forall i :: 0 <= i < k ==>
                  taken[i].name == DELIVERY[i] && taken[i] in ts
                  && CHAIN[i] in taken[i].sources && CHAIN[i + 1] == taken[i].target
    {
      ChainLinks(k, SelectMergeMethod);
      assert EdgeHolds(ts, DELIVERY[k]);
      taken := taken + [Find(ts, DELIVERY[k]).value];
    }
  }

  // ---------- what the checker leaves open ----------

  lemma {:induction false} FindInLonger(ts: seq<Transition>, t: Transition, name: Name)
    requires name != t.name
    ensures Find(ts + [t], name) == Find(ts, name)
  {
    if ts == [] {
      assert ts + [t] == [t];
      assert [t][1..] == [];
    } else {
      FindInLonger(ts[1..], t, name);
      assert (ts + [t])[1..] == ts[1..] + [t];
    }
  }

  /** The checks bind what leaves the delivery states, not what enters them: a transition
      with a free name from outside the delivery states may lead anywhere, also into the
      middle of the chain. */
  lemma EntriesAreUnrestricted(ts: seq<Transition>, t: Transition)
    requires Accepted(ts) && EntryAccepted(t) && t.name.OtherName?
    requires forall u :: u in ts ==> u.name != t.name
    requires forall s :: s in t.sources ==> Outgoing(s).None?
    requires AllProper(ts) && Proper(t)
    ensures Accepted(ts + [t]) && AllProper(ts + [t])
  {
    AcceptedGrows(ts, t);
    ProperGrows(ts, t);
  }

  lemma ProperGrows(ts: seq<Transition>, t: Transition)
    requires AllProper(ts) && Proper(t)
    ensures AllProper(ts + [t])
  {
    forall u | u in ts + [t]
      ensures Proper(u)
    {
      if u !in ts { assert u == t; }
    }
  }

  lemma AcceptedGrows(ts: seq<Transition>, t: Transition)
    requires Accepted(ts) && EntryAccepted(t) && t.name.OtherName?
    requires forall u :: u in ts ==> u.name != t.name
    requires forall s :: s in t.sources ==> Outgoing(s).None?
    ensures Accepted(ts + [t])
  {
    var longer := ts + [t];
    forall name
      ensures EdgeHolds(longer, name)
    {
      assert EdgeHolds(ts, name);
      if name != t.name { FindInLonger(ts, t, name); }
    }
    forall s
      ensures OutgoingHolds(longer, s)
    {
      assert OutgoingHolds(ts, s);
      if Outgoing(s).Some? { assert NamesFrom(longer, s) == NamesFrom(ts, s); }
    }
  }

  // A way back to the start from a reconciled issue.
  function Again(text: string): Transition {
    Transition(OtherName(text), [IssueReconciled], PrivacyGateGreen, Terms([], [], ["select"], None))
  }

  /** So an accepted list may lead on from a reconciled issue and deliver a second time:
      there is a run of seventeen transitions between the same two states. */
  lemma DeliveryMayRepeat(ts: seq<Transition>, text: string) returns (taken: seq<Transition>, states: seq<State>)
    requires Accepted(ts) && AllProper(ts)
    requires text != "" && !SpellsName(text) && forall u :: u in ts ==> u.name != OtherName(text)
    ensures Accepted(ts + [Again(text)]) && AllProper(ts + [Again(text)])
    ensures IsRun(ts + [Again(text)], taken, states) && |taken| == 17
    ensures states[0] == PrivacyGateGreen && states[17] == IssueReconciled
    ensures forall i :: 0 < i <= 17 ==> !Avoided(states[i])
  {
    var t := Again(text);
    EntriesAreUnrestricted(ts, t);
    var once := DeliveryIsPossible(ts + [t]);
    RunsJoin(ts + [t], once, CHAIN, t, once, CHAIN);
    ChainIsClear();
    taken, states := once + [t] + once, CHAIN + CHAIN;
  }

  lemma RunsJoin(ts: seq<Transition>, a: seq<Transition>, before: seq<State>, t: Transition,
                 b: seq<Transition>, after: seq<State>)
    requires IsRun(ts, a, before) && IsRun(ts, b, after) && t in ts
    requires before[|before| - 1] in t.sources && after[0] == t.target
    ensures IsRun(ts, a + [t] + b, before + after)
  {
    var taken, states := a + [t] + b, before + after;
    forall k | 0 <= k < |taken|
      ensures taken[k] in ts && states[k] in taken[k].sources && states[k + 1] == taken[k].target
    {
      if k > |a| {
        var j := k - |a| - 1;
        assert taken[k] == b[j] && states[k] == after[j] && states[k + 1] == after[j + 1];
      }
    }
  }

  lemma ChainIsClear()
    ensures |CHAIN| == 9 && CHAIN[0] == PrivacyGateGreen && CHAIN[8] == IssueReconciled
    ensures forall i :: 0 <= i < 9 ==> !Avoided(CHAIN[i])
  {}

  // ---------- an accepted list ----------

  function PinnedTerms(name: Name): Terms
    requires Edge(name).Some?
  {
    if Pinned(name) then Required(name) else Terms([], AttributionEvidence(name), ["record"], Some(["#270"]))
  }

  // The pinned transitions, with given terms.
  function PinnedTransition(name: Name, termsOf: Name -> Terms): Transition
    requires Edge(name).Some?
  {
    Transition(name, Edge(name).value.0, Edge(name).value.1, termsOf(name))
  }

  lemma PinnedHasEdge(i: nat)
    requires i < |PINNED|
    ensures Edge(PINNED[i]).Some?
  {}

  ghost predicate IsMinimal(ts: seq<Transition>, termsOf: Name -> Terms) {
    |ts| == |PINNED| && forall i :: 0 <= i < |ts| ==>
      Edge(PINNED[i]).Some? && ts[i] == PinnedTransition(PINNED[i], termsOf)
  }

  lemma MinimalHolds(ts: seq<Transition>, termsOf: Name -> Terms, name: Name)
    requires IsMinimal(ts, termsOf) && Edge(name).Some?
    ensures PinnedTransition(name, termsOf) in ts
  {
    var k := PinnedListed(name);
    assert ts[k] in ts;
  }

  lemma PinnedDistinct(i: nat, j: nat)
    requires i < j < |PINNED|
    ensures PINNED[i] != PINNED[j]
  {}

  lemma LeavesBy(s: State, name: Name)
    requires Outgoing(s).Some?
    ensures name in Outgoing(s).value <==> Edge(name).Some? && s in Edge(name).value.0
  {}

  lemma MinimalLeaves(ts: seq<Transition>, termsOf: Name -> Terms, s: State)
    requires IsMinimal(ts, termsOf) && Outgoing(s).Some?
    ensures NamesFrom(ts, s) == Outgoing(s).value
  {
    forall name
      ensures name in NamesFrom(ts, s) <==> name in Outgoing(s).value
    {
      LeavesBy(s, name);
      if name in Outgoing(s).value { MinimalHolds(ts, termsOf, name); }
    }
  }

  // The pinned transitions in order.
  lemma MinimalList(termsOf: Name -> Terms) returns (ts: seq<Transition>)
    ensures IsMinimal(ts, termsOf)
  {
    ts := [];
    for i := 0 to |PINNED|
      invariant |ts| == i
      invariant forall k :: 0 <= k < i ==>
                  Edge(PINNED[k]).Some? && ts[k] == PinnedTransition(PINNED[k], termsOf)
    {
      PinnedHasEdge(i);
      ts := ts + [PinnedTransition(PINNED[i], termsOf)];
    }
  }

  lemma ActionsAreGiven(name: Name)
    requires Pinned(name)
    ensures RequiredActions(name) != []
  {}

  lemma EdgeIsProper(name: Name)
    requires Edge(name).Some?
    ensures Edge(name).value.0 != [] && !Edge(name).value.1.OtherState?
    ensures forall s :: s in Edge(name).value.0 ==> !s.OtherState?
  {}

  lemma EntryIsFine(t: Transition)
    requires Edge(t.name).Some? && (t.sources, t.target) == Edge(t.name).value && t.terms.actions != []
    requires t.terms.owners.Some? ==> t.terms.owners.value != [] && forall o :: o in t.terms.owners.value ==> "#" <= o
    ensures EntryAccepted(t) && Proper(t) && !t.name.OtherName?
  {
    EdgeIsProper(t.name);
  }

  lemma PinnedEntry(t: Transition)
    requires Pinned(t.name) && (t.sources, t.target) == Edge(t.name).value
    requires t.terms.actions == RequiredActions(t.name) && t.terms.owners == RequiredOwners(t.name)
    ensures EntryAccepted(t) && Proper(t) && !t.name.OtherName?
  {
    ActionsAreGiven(t.name);
    EntryIsFine(t);
  }

  // What acceptance asks of each entry.
  ghost predicate Fine(t: Transition) {
    EntryAccepted(t) && TermsHold(t) && Proper(t) && !t.name.OtherName?
  }

  lemma PinnedIsFine(t: Transition)
    requires Pinned(t.name) && (t.sources, t.target) == Edge(t.name).value && t.terms == Required(t.name)
    ensures Fine(t)
  {
    PinnedEntry(t);
  }

  lemma AttributionIsFine(t: Transition)
    requires Edge(t.name).Some? && !Pinned(t.name) && (t.sources, t.target) == Edge(t.name).value
    requires t.terms.evidence == AttributionEvidence(t.name) && t.terms.actions != []
    requires t.terms.owners == Some(["#270"])
    ensures Fine(t)
  {
    EntryIsFine(t);
  }

  lemma MinimalIsFine(ts: seq<Transition>, termsOf: Name -> Terms, i: nat)
    requires IsMinimal(ts, termsOf) && i < |ts|
    requires forall name :: Edge(name).Some? ==> termsOf(name) == PinnedTerms(name)
    ensures Fine(ts[i])
  {
    if Pinned(ts[i].name) { PinnedIsFine(ts[i]); } else { AttributionIsFine(ts[i]); }
  }

  lemma FineIsAccepted(ts: seq<Transition>)
    requires GraphAccepted(ts) && forall i :: 0 <= i < |ts| ==> Fine(ts[i])
    ensures Accepted(ts) && AllProper(ts)
    ensures forall i :: 0 <= i < |ts| ==> !ts[i].name.OtherName?
  {}

  /** The checks are satisfiable: the pinned transitions alone pass them. */
  lemma PinnedAloneIsAccepted() returns (ts: seq<Transition>)
    ensures Accepted(ts) && AllProper(ts)
    ensures forall i :: 0 <= i < |ts| ==> !ts[i].name.OtherName?
  {
    var termsOf := (name: Name) => if Edge(name).Some? then PinnedTerms(name) else Terms([], [], [], None);
    ts := MinimalList(termsOf);
    MinimalGraph(ts, termsOf);
    forall i | 0 <= i < |ts|
      ensures Fine(ts[i])
    {
      MinimalIsFine(ts, termsOf, i);
    }
    FineIsAccepted(ts);
  }

  lemma AgainIsFree()
    ensures !SpellsName("again")
  {}

  /** One accepted list with a run that delivers twice. */
  lemma DeliveryRepeatsOnce() returns (ts: seq<Transition>, taken: seq<Transition>, states: seq<State>)
    ensures Accepted(ts) && AllProper(ts) && IsRun(ts, taken, states) && |taken| == 17
    ensures states[0] == PrivacyGateGreen && states[17] == IssueReconciled
    ensures forall i :: 0 < i <= 17 ==> !Avoided(states[i])
  {
    AgainIsFree();
    ts, taken, states := PinnedRepeats("again");
  }

  lemma PinnedRepeats(text: string) returns (ts: seq<Transition>, taken: seq<Transition>, states: seq<State>)
    requires text != "" && !SpellsName(text)
    ensures Accepted(ts) && AllProper(ts) && IsRun(ts, taken, states) && |taken| == 17
    ensures states[0] == PrivacyGateGreen && states[17] == IssueReconciled
    ensures forall i :: 0 < i <= 17 ==> !Avoided(states[i])
  {
    var pinned := PinnedAloneIsAccepted();
    taken, states := DeliveryMayRepeat(pinned, text);
    ts := pinned + [Again(text)];
  }

  lemma MinimalGraph(ts: seq<Transition>, termsOf: Name -> Terms)
    requires IsMinimal(ts, termsOf)
    ensures GraphAccepted(ts)
  {
    forall i, j | 0 <= i < j < |ts|
      ensures ts[i].name != ts[j].name
    {
      PinnedDistinct(i, j);
    }
    forall name
      ensures EdgeHolds(ts, name)
    {
      if Edge(name).Some? {
        MinimalHolds(ts, termsOf, name);
        TakenIsFound(ts, PinnedTransition(name, termsOf));
      }
    }
    forall s
      ensures OutgoingHolds(ts, s)
    {
      if Outgoing(s).Some? { MinimalLeaves(ts, termsOf, s); }
    }
  }
}
