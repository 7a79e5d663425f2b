/** The greedy scheduler as a state machine.  A run is any interleaving of starting a
    check that fits, finishing any running check with any exit code, and giving up on
    the pending checks after a fail-fast failure. */
module Scheduler {
  import opened Wrappers
  import opened Sequences
  import opened Manifest
  import opened Ledger

  datatype Options = Options(
    limits: map<string, int>,
    jobs: nat,
    cargoBuildJobs: nat,
    failFast: bool)

  datatype State = State(
    pending: seq<Check>,
    running: seq<Check>,
    inUse: map<string, int>,
    results: seq<CheckResult>,
    failed: bool)

  datatype Event = Start(check: Check) | Finish(check: Check, exitCode: Option<int>) | GiveUp

  // A planned batch: schedulable checks, at least one worker, a fingerprint each.
  ghost predicate Plan(o: Options, fps: map<string, string>, planned: seq<Check>) {
    && Schedulable(planned, o.limits)
    && o.jobs >= 1
    && forall c :: c in planned ==> c.identifier in fps
  }

  function Without(s: seq<Check>, c: Check): seq<Check> {
    if s == [] then []
    else if s[0] == c then s[1..]
    else [s[0]] + Without(s[1..], c)
  }

  predicate Available(c: Check, inUse: map<string, int>, limits: map<string, int>) {
    forall r :: r in c.resources ==> r in inUse && r in limits && inUse[r] < limits[r]
  }

  function Reserved(inUse: map<string, int>, names: seq<string>, delta: int): map<string, int> {
    map r | r in inUse :: inUse[r] + if r in names then delta else 0
  }

  predicate Halted(o: Options, s: State) {
    o.failFast && s.failed
  }

  predicate Fits(o: Options, s: State, c: Check) {
    |s.running| < o.jobs && Available(c, s.inUse, o.limits)
  }

  function Init(o: Options, planned: seq<Check>): State {
    State(planned, [], map r | r in o.limits :: 0, [], false)
  }

  function Started(s: State, c: Check): State {
    s.(pending := Without(s.pending, c), running := s.running + [c],
       inUse := Reserved(s.inUse, c.resources, 1))
  }

  function ExecutionResult(c: Check, fp: string, exitCode: Option<int>): CheckResult {
    CheckResult(c, fp, if exitCode == Some(0) then Passed else Failed, exitCode, None)
  }

  function Finished(s: State, c: Check, fp: string, exitCode: Option<int>): State {
    var r := ExecutionResult(c, fp, exitCode);
    s.(running := Without(s.running, c), inUse := Reserved(s.inUse, c.resources, -1),
       results := s.results + [r], failed := s.failed || r.outcome == Failed)
  }

  function Skipped(pending: seq<Check>, fps: map<string, string>): (rs: seq<CheckResult>)
    requires forall c :: c in pending ==> c.identifier in fps
    ensures |rs| == |pending|
    ensures forall i :: 0 <= i < |rs| ==>
              rs[i] == CheckResult(pending[i], fps[pending[i].identifier], NotScheduled, None, None)
  {
    seq(|pending|, i requires 0 <= i < |pending| =>
      assert pending[i] in pending;
      CheckResult(pending[i], fps[pending[i].identifier], NotScheduled, None, None))
  }

  ghost predicate Step(o: Options, fps: map<string, string>, s: State, e: Event, s': State) {
    match e
    case Start(c) => !Halted(o, s) && c in s.pending && Fits(o, s, c) && s' == Started(s, c)
    case Finish(c, exitCode) =>
      c in s.running && c.identifier in fps && s' == Finished(s, c, fps[c.identifier], exitCode)
    case GiveUp =>
      && Halted(o, s) && s.running == [] && s.pending != []
      && (forall c :: c in s.pending ==> c.identifier in fps)
      && s' == s.(pending := [], results := s.results + Skipped(s.pending, fps))
  }

  // states[k + 1] follows states[k] by events[k].
  ghost predicate IsRun(o: Options, fps: map<string, string>, planned: seq<Check>,
                        events: seq<Event>, states: seq<State>)
  {
    && |states| == |events| + 1
    && states[0] == Init(o, planned)
    && forall k :: 0 <= k < |events| ==> Step(o, fps, states[k], events[k], states[k + 1])
  }

  function Last(states: seq<State>): State
    requires states != []
  {
    states[|states| - 1]
  }

  predicate Terminal(s: State) {
    s.pending == [] && s.running == []
  }

  // ---------- the invariant ----------

  function Users(running: seq<Check>, r: string): nat {
    if running == [] then 0
    else (if r in running[0].resources then 1 else 0) + Users(running[1..], r)
  }

  function ResultChecks(results: seq<CheckResult>): (cs: seq<Check>)
    ensures |cs| == |results|
    ensures forall i :: 0 <= i < |cs| ==> cs[i] == results[i].check
  {
    seq(|results|, i requires 0 <= i < |results| => results[i].check)
  }

  ghost predicate ResourcesCounted(o: Options, s: State) {
    && s.inUse.Keys == o.limits.Keys
    && |s.running| <= o.jobs
    && forall r :: r in o.limits ==> s.inUse[r] == Users(s.running, r) <= o.limits[r]
  }

  ghost predicate Partitioned(planned: seq<Check>, s: State) {
    multiset(planned) == multiset(s.pending) + multiset(s.running) + multiset(ResultChecks(s.results))
  }

  ghost predicate ResultsHonest(o: Options, fps: map<string, string>, s: State) {
    && (s.failed <==> exists r :: r in s.results && r.outcome == Failed)
    && (forall r :: r in s.results ==>
          && r.check.identifier in fps && r.fingerprint == fps[r.check.identifier]
          && (r.outcome == Passed || r.outcome == Failed || r.outcome == NotScheduled)
          && (r.outcome == Passed <==> r.exitCode == Some(0)))
    && ((exists r :: r in s.results && r.outcome == NotScheduled) ==> Terminal(s) && Halted(o, s))
  }

  ghost predicate Inv(o: Options, fps: map<string, string>, planned: seq<Check>, s: State) {
    ResourcesCounted(o, s) && Partitioned(planned, s) && ResultsHonest(o, fps, s)
  }

  lemma SkipFollowsFailure(o: Options, fps: map<string, string>, s: State, r: CheckResult)
    returns (q: CheckResult)
    requires ResultsHonest(o, fps, s) && r in s.results && r.outcome == NotScheduled
    ensures q in s.results && q.outcome == Failed
  {
    q :| q in s.results && q.outcome == Failed;
  }

  lemma SkipMeansHalted(o: Options, fps: map<string, string>, s: State, r: CheckResult)
    requires ResultsHonest(o, fps, s) && r in s.results && r.outcome == NotScheduled
    ensures Halted(o, s)
  {}

  lemma {:induction false} UsersAppend(running: seq<Check>, c: Check, r: string)
    ensures Users(running + [c], r) == Users(running, r) + if r in c.resources then 1 else 0
  {
    if running == [] {
      assert [] + [c] == [c];
      assert [c][1..] == [];
    } else {
      UsersAppend(running[1..], c, r);
      assert (running + [c])[1..] == running[1..] + [c];
    }
  }

  lemma {:induction false} UsersWithout(running: seq<Check>, c: Check, r: string)
    requires c in running
    ensures Users(Without(running, c), r) == Users(running, r) - if r in c.resources then 1 else 0
  {
    if running[0] != c {
      UsersWithout(running[1..], c, r);
      assert ([running[0]] + Without(running[1..], c))[1..] == Without(running[1..], c);
    }
  }

  lemma {:induction false} WithoutRemovesOne(s: seq<Check>, c: Check)
    requires c in s
    ensures multiset(Without(s, c)) == multiset(s) - multiset{c}
    ensures |Without(s, c)| == |s| - 1
  {
    assert s == [s[0]] + s[1..];
    if s[0] != c {
      WithoutRemovesOne(s[1..], c);
    }
  }

  lemma {:induction false} UsersBounded(running: seq<Check>, r: string)
    ensures Users(running, r) <= |running|
  {
    if running != [] { UsersBounded(running[1..], r); }
  }

  lemma ResultChecksAppend(results: seq<CheckResult>, more: seq<CheckResult>)
    ensures ResultChecks(results + more) == ResultChecks(results) + ResultChecks(more)
  {}

  lemma PartsComeFromPlan(planned: seq<Check>, s: State, c: Check)
    requires Partitioned(planned, s)
    requires c in s.pending || c in s.running || c in ResultChecks(s.results)
    ensures c in planned
  {
    assert c in multiset(planned);
  }

  lemma StartKeepsCounts(o: Options, s: State, c: Check)
    requires ResourcesCounted(o, s) && Fits(o, s, c)
    ensures ResourcesCounted(o, Started(s, c))
  {
    forall r | r in o.limits
      ensures Started(s, c).inUse[r] == Users(s.running + [c], r) <= o.limits[r]
    {
      UsersAppend(s.running, c, r);
    }
  }

  lemma StartKeepsPartition(planned: seq<Check>, s: State, c: Check)
    requires Partitioned(planned, s) && c in s.pending
    ensures Partitioned(planned, Started(s, c))
  {
    WithoutRemovesOne(s.pending, c);
    assert c in multiset(s.pending);
  }

  lemma StartKeepsHonesty(o: Options, fps: map<string, string>, s: State, c: Check)
    requires ResultsHonest(o, fps, s) && c in s.pending
    ensures ResultsHonest(o, fps, Started(s, c))
  {
    assert !Terminal(s);
  }

  lemma StartKeepsInv(o: Options, fps: map<string, string>, planned: seq<Check>, s: State, c: Check)
    requires Inv(o, fps, planned, s)
    requires c in s.pending && Fits(o, s, c)
    ensures Inv(o, fps, planned, Started(s, c))
  {
    StartKeepsCounts(o, s, c);
    StartKeepsPartition(planned, s, c);
    StartKeepsHonesty(o, fps, s, c);
  }

  lemma FinishKeepsCounts(o: Options, s: State, c: Check, fp: string, exitCode: Option<int>)
    requires ResourcesCounted(o, s) && c in s.running
    ensures ResourcesCounted(o, Finished(s, c, fp, exitCode))
  {
    WithoutRemovesOne(s.running, c);
    forall r | r in o.limits
      ensures Finished(s, c, fp, exitCode).inUse[r] == Users(Without(s.running, c), r) <= o.limits[r]
    {
      UsersWithout(s.running, c, r);
    }
  }

  lemma FinishKeepsPartition(planned: seq<Check>, s: State, c: Check, fp: string, exitCode: Option<int>)
    requires Partitioned(planned, s) && c in s.running
    ensures Partitioned(planned, Finished(s, c, fp, exitCode))
  {
    var r := ExecutionResult(c, fp, exitCode);
    WithoutRemovesOne(s.running, c);
    ResultChecksAppend(s.results, [r]);
    assert ResultChecks([r]) == [c];
    assert c in multiset(s.running);
  }

  lemma FinishKeepsHonesty(o: Options, fps: map<string, string>, s: State, c: Check, exitCode: Option<int>)
    requires ResultsHonest(o, fps, s) && c in s.running && c.identifier in fps
    ensures ResultsHonest(o, fps, Finished(s, c, fps[c.identifier], exitCode))
  {
    var r := ExecutionResult(c, fps[c.identifier], exitCode);
    var s' := Finished(s, c, fps[c.identifier], exitCode);
    assert s'.results[|s.results|] == r;
    assert forall q :: q in s'.results <==> q in s.results || q == r;
  }

  lemma FinishKeepsInv(o: Options, fps: map<string, string>, planned: seq<Check>, s: State,
                       c: Check, exitCode: Option<int>)
    requires Inv(o, fps, planned, s)
    requires c in s.running && c.identifier in fps
    ensures Inv(o, fps, planned, Finished(s, c, fps[c.identifier], exitCode))
  {
    FinishKeepsCounts(o, s, c, fps[c.identifier], exitCode);
    FinishKeepsPartition(planned, s, c, fps[c.identifier], exitCode);
    FinishKeepsHonesty(o, fps, s, c, exitCode);
  }

  lemma GiveUpKeepsInv(o: Options, fps: map<string, string>, planned: seq<Check>, s: State, s': State)
    requires Plan(o, fps, planned) && Inv(o, fps, planned, s)
    requires Step(o, fps, s, GiveUp, s')
    ensures Inv(o, fps, planned, s')
  {
    var skipped := Skipped(s.pending, fps);
    ResultChecksAppend(s.results, skipped);
    assert ResultChecks(skipped) == s.pending;
    assert forall q :: q in s'.results <==> q in s.results || q in skipped;
    assert s.running == [] && s'.pending == [];
  }

  lemma StepKeepsInv(o: Options, fps: map<string, string>, planned: seq<Check>, s: State, e: Event, s': State)
    requires Plan(o, fps, planned) && Inv(o, fps, planned, s) && Step(o, fps, s, e, s')
    ensures Inv(o, fps, planned, s')
  {
    match e
    case Start(c) => StartKeepsInv(o, fps, planned, s, c);
    case Finish(c, exitCode) => FinishKeepsInv(o, fps, planned, s, c, exitCode);
    case GiveUp => GiveUpKeepsInv(o, fps, planned, s, s');
  }

  lemma {:induction false} InitHasInv(o: Options, fps: map<string, string>, planned: seq<Check>)
    requires Plan(o, fps, planned)
    ensures Inv(o, fps, planned, Init(o, planned))
  {
    var s := Init(o, planned);
    assert multiset(s.running) == multiset{} && multiset(ResultChecks(s.results)) == multiset{};
  }

  /** Every state of every run: resource use equals the number of running checks that
      need it and stays within its limit, at most `jobs` checks run, and the planned
      checks are split between pending, running and finished. */
  lemma {:induction false} RunsKeepInv(o: Options, fps: map<string, string>, planned: seq<Check>,
                                       events: seq<Event>, states: seq<State>, k: nat)
    requires Plan(o, fps, planned) && IsRun(o, fps, planned, events, states)
    requires k < |states|
    ensures Inv(o, fps, planned, states[k])
  {
    if k == 0 {
      InitHasInv(o, fps, planned);
    } else {
      RunsKeepInv(o, fps, planned, events, states, k - 1);
      StepKeepsInv(o, fps, planned, states[k - 1], events[k - 1], states[k]);
    }
  }

  // ---------- what follows for whole runs ----------

  /** When a run ends, each planned check has exactly one result. */
  lemma OneResultPerCheck(o: Options, fps: map<string, string>, planned: seq<Check>,
                          events: seq<Event>, states: seq<State>)
    requires Plan(o, fps, planned) && IsRun(o, fps, planned, events, states)
    requires Terminal(Last(states))
    ensures multiset(ResultChecks(Last(states).results)) == multiset(planned)
    ensures forall i, j :: 0 <= i < j < |Last(states).results| ==>
              Last(states).results[i].check.identifier != Last(states).results[j].check.identifier
  {
    RunsKeepInv(o, fps, planned, events, states, |states| - 1);
    var s := Last(states);
    assert multiset(s.pending) == multiset{} && multiset(s.running) == multiset{};
    PermutedIdentifiersDistinct(planned, ResultChecks(s.results));
  }

  lemma PermutedIdentifiersDistinct(a: seq<Check>, b: seq<Check>)
    requires DistinctIdentifiers(a) && multiset(b) <= multiset(a)
    ensures DistinctIdentifiers(b)
  {
    PartIsDistinct(a, b);
    forall i, j | 0 <= i < j < |b|
      ensures b[i].identifier != b[j].identifier
    {
      assert b[i] in multiset(a) && b[j] in multiset(a);
    }
  }

  lemma {:induction false} FailureSticks(o: Options, fps: map<string, string>, planned: seq<Check>,
                                         events: seq<Event>, states: seq<State>, i: nat, j: nat)
    requires IsRun(o, fps, planned, events, states) && i <= j < |states| && states[i].failed
    ensures states[j].failed
  {
    if i < j {
      FailureSticks(o, fps, planned, events, states, i, j - 1);
      assert Step(o, fps, states[j - 1], events[j - 1], states[j]);
    }
  }

  /** With fail-fast, no check starts once a failure is recorded. */
  lemma NothingStartsAfterFailure(o: Options, fps: map<string, string>, planned: seq<Check>,
                                  events: seq<Event>, states: seq<State>, i: nat, j: nat)
    requires Plan(o, fps, planned) && IsRun(o, fps, planned, events, states)
    requires o.failFast && i <= j < |events|
    requires exists r :: r in states[i].results && r.outcome == Failed
    ensures !events[j].Start?
  {
    RunsKeepInv(o, fps, planned, events, states, i);
    FailureSticks(o, fps, planned, events, states, i, j);
    assert Step(o, fps, states[j], events[j], states[j + 1]);
  }

  function Work(s: State): nat {
    2 * |s.pending| + |s.running|
  }

  lemma StepDoesWork(o: Options, fps: map<string, string>, s: State, e: Event, s': State)
    requires Step(o, fps, s, e, s')
    ensures Work(s') < Work(s)
  {
    match e
    case Start(c) => WithoutRemovesOne(s.pending, c);
    case Finish(c, _) => WithoutRemovesOne(s.running, c);
    case GiveUp =>
  }

  /** Every run is finite: it has at most two events per planned check. */
  lemma {:induction false} RunsAreShort(o: Options, fps: map<string, string>, planned: seq<Check>,
                                        events: seq<Event>, states: seq<State>)
    requires IsRun(o, fps, planned, events, states)
    ensures |events| + Work(Last(states)) <= 2 * |planned|
  {
    if events != [] {
      var n := |events| - 1;
      var events', states' := events[..n], states[..n + 1];
      assert forall k :: 0 <= k < n ==> Step(o, fps, states[k], events[k], states[k + 1]);
      RunsAreShort(o, fps, planned, events', states');
      StepDoesWork(o, fps, states[n], events[n], states[n + 1]);
    }
  }

  /** An idle scheduler with scheduling enabled can always start every pending check on
      its own, so no reachable state is stuck. */
  lemma IdleMeansEverythingFits(o: Options, fps: map<string, string>, planned: seq<Check>, s: State, c: Check)
    requires Plan(o, fps, planned) && Inv(o, fps, planned, s)
    requires s.running == [] && c in s.pending
    ensures Fits(o, s, c)
  {
    PartsComeFromPlan(planned, s, c);
  }

  lemma NoRunGetsStuck(o: Options, fps: map<string, string>, planned: seq<Check>,
                       events: seq<Event>, states: seq<State>)
    requires Plan(o, fps, planned) && IsRun(o, fps, planned, events, states)
    requires !Terminal(Last(states))
    ensures exists e, s' :: Step(o, fps, Last(states), e, s')
  {
    var s := Last(states);
    RunsKeepInv(o, fps, planned, events, states, |states| - 1);
    if s.running != [] {
      var c := s.running[0];
      PartsComeFromPlan(planned, s, c);
      assert Step(o, fps, s, Finish(c, None), Finished(s, c, fps[c.identifier], None));
    } else if Halted(o, s) {
      forall c | c in s.pending
        ensures c.identifier in fps
      {
        PartsComeFromPlan(planned, s, c);
      }
      assert Step(o, fps, s, GiveUp, s.(pending := [], results := s.results + Skipped(s.pending, fps)));
    } else {
      var c := s.pending[0];
      IdleMeansEverythingFits(o, fps, planned, s, c);
      assert Step(o, fps, s, Start(c), Started(s, c));
    }
  }

  /** In a state of a run, a pending check that does not fit waits for a worker, or for a
      resource that running checks use up. */
  lemma NotFittingMeansFull(o: Options, fps: map<string, string>, planned: seq<Check>, s: State, c: Check)
    requires Plan(o, fps, planned) && Inv(o, fps, planned, s) && c in s.pending
    ensures Fits(o, s, c) <==>
            |s.running| < o.jobs
            && forall r :: r in c.resources ==>
                 r in o.limits && |Keep(s.running, (x: Check) => r in x.resources)| < o.limits[r]
  {
    PartsComeFromPlan(planned, s, c);
    forall r | r in c.resources
      ensures r in o.limits && s.inUse[r] == |Keep(s.running, (x: Check) => r in x.resources)|
    {
      UsersAreKept(s.running, r);
    }
  }

  // ---------- cargo budgets ----------

  function Max(a: int, b: int): int { if a < b then b else a }
  function Min(a: int, b: int): int { if a < b then a else b }

  function CargoSlots(o: Options, planned: seq<Check>): int {
    Min(if "cargo" in o.limits then o.limits["cargo"] else 1, Max(1, Users(planned, "cargo")))
  }

  function CargoBuildJobs(o: Options, planned: seq<Check>): int
    requires CargoSlots(o, planned) != 0
  {
    Max(1, o.cargoBuildJobs / CargoSlots(o, planned))
  }

  function TestThreads(o: Options, planned: seq<Check>): int
    requires CargoSlots(o, planned) != 0
  {
    Max(1, o.jobs / CargoSlots(o, planned))
  }

  // A share t for each of s workers is the largest that fits the total, and at least one.
  predicate LargestShare(t: int, s: int, total: int) {
    t >= 1 && (t > 1 ==> t * s <= total) && (t + 1) * s > total
  }

  lemma ShareIsLargest(s: int, total: nat)
    requires s >= 1
    ensures LargestShare(Max(1, total / s), s, total)
  {
    var q := total / s;
    assert total == s * q + total % s;
    assert q * s == s * q && (q + 1) * s == s * q + s;
    if q == 0 { assert 2 * s > total; }
  }

  lemma {:induction false} UsersAreKept(checks: seq<Check>, r: string)
    ensures Users(checks, r) == |Keep(checks, (c: Check) => r in c.resources)|
  {
    if checks != [] {
      var n := |checks| - 1;
      UsersAreKept(checks[..n], r);
      assert checks == checks[..n] + [checks[n]];
      UsersAppend(checks[..n], checks[n], r);
    }
  }

  /** The budgets are the largest that fit when as many cargo checks run as the cargo limit
      and the plan allow: `slots` is the smaller of the two, and at least one. */
  lemma CargoBudgetsAreLargest(o: Options, fps: map<string, string>, planned: seq<Check>, limit: int, slots: int)
    requires Plan(o, fps, planned)
    requires "cargo" in o.limits ==> limit == o.limits["cargo"]
    requires "cargo" !in o.limits ==> limit == 1
    requires var wanted := |Keep(planned, (c: Check) => "cargo" in c.resources)|;
             1 <= slots <= limit && (slots <= wanted || slots == 1) && (slots == limit || slots >= wanted)
    ensures CargoSlots(o, planned) >= 1
    ensures LargestShare(TestThreads(o, planned), slots, o.jobs)
    ensures LargestShare(CargoBuildJobs(o, planned), slots, o.cargoBuildJobs)
  {
    UsersAreKept(planned, "cargo");
    assert slots == CargoSlots(o, planned);
    ShareIsLargest(slots, o.jobs);
    ShareIsLargest(slots, o.cargoBuildJobs);
  }

  lemma {:induction false} UsersSplit(a: seq<Check>, b: seq<Check>, r: string)
    requires multiset(b) <= multiset(a)
    ensures Users(b, r) <= Users(a, r)
    decreases |b|
  {
    if b != [] {
      var c := b[0];
      assert b == [c] + b[1..];
      assert c in multiset(a);
      WithoutRemovesOne(a, c);
      UsersWithout(a, c, r);
      UsersSplit(Without(a, c), b[1..], r);
    }
  }

  lemma ShareFits(users: nat, slots: int, budget: nat, jobs: nat)
    requires slots >= 1 && users <= slots && users <= jobs
    ensures users * Max(1, budget / slots) <= Max(budget, jobs)
  {
    var q := budget / slots;
    if q >= 1 {
      assert users * q <= slots * q;
    }
  }

  /** In every state of every run the running cargo checks together use at most `jobs`
      test threads, and at most max(cargo_build_jobs, jobs) build jobs. */
  lemma CargoStaysWithinBudget(o: Options, fps: map<string, string>, planned: seq<Check>,
                               events: seq<Event>, states: seq<State>, k: nat)
    requires Plan(o, fps, planned) && IsRun(o, fps, planned, events, states)
    requires k < |states|
    ensures CargoSlots(o, planned) >= 1
    ensures Users(states[k].running, "cargo") * TestThreads(o, planned) <= o.jobs
    ensures Users(states[k].running, "cargo") * CargoBuildJobs(o, planned) <= Max(o.cargoBuildJobs, o.jobs)
  {
    var s := states[k];
    var users := Users(s.running, "cargo");
    RunsKeepInv(o, fps, planned, events, states, k);
    UsersBounded(s.running, "cargo");
    UsersSplit(planned, s.running, "cargo");
    if "cargo" !in o.limits {
      forall c | c in planned
        ensures "cargo" !in c.resources
      {}
      NobodyUses(planned, "cargo");
    }
    ShareFits(users, CargoSlots(o, planned), o.jobs, o.jobs);
    ShareFits(users, CargoSlots(o, planned), o.cargoBuildJobs, o.jobs);
  }

  lemma {:induction false} NobodyUses(s: seq<Check>, r: string)
    requires forall c :: c in s ==> r !in c.resources
    ensures Users(s, r) == 0
  {
    if s != [] { NobodyUses(s[1..], r); }
  }
}
