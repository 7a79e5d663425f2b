/** One invocation of the runner around the scheduling loop, and sequences of
    invocations that share the ledger file, each possibly cut off after any write. */
module Runner {
  import opened Wrappers
  import opened Sequences
  import opened Manifest
  import opened Ledger
  import opened Scheduler
  import opened SchedulingLoop

  // `blocked` gives the closed reason for each check that cannot run in this source context.
  datatype Invocation = Invocation(
    o: Options,
    checks: seq<Check>,
    fps: map<string, string>,
    blocked: map<string, string>,
    resume: bool)

  datatype Report = Report(results: seq<CheckResult>, file: StateFile, exitCode: int)

  ghost predicate Legal(v: Invocation) {
    Plan(v.o, v.fps, v.checks)
  }

  function Runnable(v: Invocation): seq<Check> {
    Keep(v.checks, (c: Check) => c.identifier !in v.blocked)
  }

  predicate Reuses(v: Invocation, records: Records, c: Check)
    requires c.identifier in v.fps
  {
    v.resume && IsReusable(records, c.identifier, v.fps[c.identifier])
  }

  function ToRun(v: Invocation, records: Records, checks: seq<Check>): seq<Check> {
    Keep(checks, (c: Check) => c.identifier in v.fps && !Reuses(v, records, c))
  }

  function ToReuse(v: Invocation, records: Records, checks: seq<Check>): (kept: seq<Check>)
    ensures forall c :: c in kept ==> c.identifier in v.fps
  {
    Keep(checks, (c: Check) => c.identifier in v.fps && Reuses(v, records, c))
  }

  function Planned(v: Invocation, records: Records): seq<Check> {
    ToRun(v, records, Runnable(v))
  }

  function ReusedChecks(v: Invocation, records: Records): seq<Check> {
    ToReuse(v, records, Runnable(v))
  }

  function ReusedResult(v: Invocation, c: Check): CheckResult
    requires c.identifier in v.fps
  {
    CheckResult(c, v.fps[c.identifier], Reused, Some(0), None)
  }

  function ReusedResults(v: Invocation, checks: seq<Check>): (rs: seq<CheckResult>)
    requires forall c :: c in checks ==> c.identifier in v.fps
    ensures |rs| == |checks|
    ensures forall i :: 0 <= i < |rs| ==> rs[i] == ReusedResult(v, checks[i])
  {
    seq(|checks|, i requires 0 <= i < |checks| => assert checks[i] in checks; ReusedResult(v, checks[i]))
  }

  function BlockedChecks(v: Invocation): seq<Check> {
    Keep(v.checks, (c: Check) => c.identifier in v.fps && c.identifier in v.blocked)
  }

  function BlockResults(v: Invocation, checks: seq<Check>): (rs: seq<CheckResult>)
    requires forall c :: c in checks ==> c.identifier in v.fps && c.identifier in v.blocked
    ensures |rs| == |checks|
    ensures forall i :: 0 <= i < |rs| ==>
              rs[i] == CheckResult(checks[i], v.fps[checks[i].identifier], BlockedContext, None,
                                   Some(v.blocked[checks[i].identifier]))
  {
    seq(|checks|, i requires 0 <= i < |checks| =>
      assert checks[i] in checks;
      CheckResult(checks[i], v.fps[checks[i].identifier], BlockedContext, None,
                  Some(v.blocked[checks[i].identifier])))
  }

  function Blocks(v: Invocation): seq<CheckResult> {
    BlockResults(v, BlockedChecks(v))
  }

  predicate IsFailure(r: CheckResult) {
    r.outcome == Failed || r.outcome == BlockedContext
  }

  function ExitCode(results: seq<CheckResult>): int {
    if exists r :: r in results && IsFailure(r) then 1 else 0
  }

  function FileAfter(file: StateFile, records: Records, durable: seq<CheckResult>): StateFile {
    if durable == [] then file else Stored(Current, Apply(records, durable))
  }

  // One whole run: the ledger and file it starts from, its schedule and its report.
  datatype Trial = Trial(
    v: Invocation, records: Records, file: StateFile,
    events: seq<Event>, states: seq<State>, report: Report)
  {
    ghost function Scheduled(): seq<CheckResult> {
      if states == [] then [] else Last(states).results
    }

    // The results that reach the ledger file.
    ghost function Durable(): seq<CheckResult> {
      Blocks(v) + Executed(Scheduled())
    }

    ghost function Final(): Records {
      Apply(records, Durable())
    }
  }

  ghost predicate Completed(t: Trial) {
    && Legal(t.v)
    && IsRun(t.v.o, t.v.fps, Planned(t.v, t.records), t.events, t.states)
    && Terminal(Last(t.states))
    && t.report.results == ReusedResults(t.v, ReusedChecks(t.v, t.records)) + Blocks(t.v) + t.Scheduled()
    && t.report.file == FileAfter(t.file, t.records, t.Durable())
    && t.report.exitCode == ExitCode(t.report.results)
  }

  lemma PlannedIsAPlan(v: Invocation, records: Records)
    requires Legal(v)
    ensures Plan(v.o, v.fps, Planned(v, records))
  {
    KeepIsSchedulable(v.checks, (c: Check) => c.identifier !in v.blocked, v.o.limits);
    KeepIsSchedulable(Runnable(v), (c: Check) => c.identifier in v.fps && !Reuses(v, records, c), v.o.limits);
  }

  // ---------- the runner ----------

  lemma SplitGrows(v: Invocation, records: Records, checks: seq<Check>, i: nat)
    requires i < |checks| && checks[i].identifier in v.fps
    ensures var c := checks[i];
            && ToRun(v, records, checks[..i + 1])
               == ToRun(v, records, checks[..i]) + (if Reuses(v, records, c) then [] else [c])
            && ToReuse(v, records, checks[..i + 1])
               == ToReuse(v, records, checks[..i]) + if Reuses(v, records, c) then [c] else []
  {
    assert checks[..i + 1][..i] == checks[..i];
  }

  lemma ReusedResultsGrow(v: Invocation, checks: seq<Check>, c: Check)
    requires c.identifier in v.fps && forall d :: d in checks ==> d.identifier in v.fps
    ensures ReusedResults(v, checks + [c]) == ReusedResults(v, checks) + [ReusedResult(v, c)]
  {}

  lemma RunnableHasFingerprints(v: Invocation, i: nat)
    requires Legal(v) && i < |Runnable(v)|
    ensures Runnable(v)[i].identifier in v.fps
  {
    assert Runnable(v)[i] in Runnable(v);
  }

  /** Splits the runnable checks into those to run and those whose record is reused. */
  method PlannedChecks(v: Invocation, records: Records) returns (planned: seq<Check>, reused: seq<CheckResult>)
    requires Legal(v)
    ensures planned == Planned(v, records)
    ensures reused == ReusedResults(v, ReusedChecks(v, records))
  {
    planned, reused := [], [];
    var checks := Runnable(v);
    for i := 0 to |checks|
      invariant planned == ToRun(v, records, checks[..i])
      invariant reused == ReusedResults(v, ToReuse(v, records, checks[..i]))
    {
      var check := checks[i];
      RunnableHasFingerprints(v, i);
      SplitGrows(v, records, checks, i);
      ReusedResultsGrow(v, ToReuse(v, records, checks[..i]), check);
      if Reuses(v, records, check) {
        reused := reused + [ReusedResult(v, check)];
      } else {
        planned := planned + [check];
      }
    }
    assert checks[..|checks|] == checks;
  }

  method UpdateAll(records: Records, results: seq<CheckResult>) returns (updated: Records)
    ensures updated == Apply(records, results)
  {
    updated := records;
    for i := 0 to |results|
      invariant updated == Apply(records, results[..i])
    {
      assert results[..i + 1][..i] == results[..i];
      updated := UpdateState(updated, results[i]);
    }
    assert results[..|results|] == results;
  }

  /** `run`: load the ledger, plan, record the context blocks, schedule the rest, and
      derive the exit code. */
  method Run(v: Invocation, file: StateFile)
    returns (r: Result<Report, LedgerError>, ghost t: Trial, ghost history: seq<StateFile>)
    requires Legal(v)
    ensures r.Failure? <==> LoadState(file).Failure?
    ensures r.Success? ==> Completed(t) && t.report == r.value
    ensures r.Success? ==> t.v == v && t.file == file && Success(t.records) == LoadState(file)
    ensures r.Success? ==> |history| == 1 + BlockWrites(v) + |Executed(t.Scheduled())|
    ensures r.Success? ==> t.states != [] && AreCuts(t, history)
  {
    var loaded := LoadState(file);
    history := [];
    t := Trial(v, map[], file, [], [], Report([], file, 0));
    if loaded.Failure? {
      r := Failure(loaded.error);
      return;
    }
    var records := loaded.value;
    var planned, reused := PlannedChecks(v, records);
    var blocks := Blocks(v);
    var updated := UpdateAll(records, blocks);
    var stateFile := file;
    if blocks != [] { stateFile := Stored(Current, updated); }
    PlannedIsAPlan(v, records);
    var scheduled, finalFile, s, ledger, log := RunScheduledChecks(v.o, v.fps, planned, updated, stateFile);
    var results := reused + blocks + scheduled;
    var report := Report(results, finalFile, ExitCode(results));
    r := Success(report);
    t := Trial(v, records, file, log.events, log.states, report);
    Assembled(v, records, file, s, ledger, log);
    history := Contents(file, BlockWrites(v), log.history);
    ContentsAreCuts(t, ledger, log.history, history);
  }

  lemma Assembled(v: Invocation, records: Records, file: StateFile, s: State, ledger: Records, log: Log)
    requires Legal(v) && Terminal(s)
    requires Good(v.o, v.fps, Planned(v, records), Apply(records, Blocks(v)),
                  FileAfter(file, records, Blocks(v)), s, ledger, log)
    ensures var results := ReusedResults(v, ReusedChecks(v, records)) + Blocks(v) + s.results;
            Completed(Trial(v, records, file, log.events, log.states,
                            Report(results, log.history[|log.history| - 1], ExitCode(results))))
  {
    LastFile(records, file, Blocks(v), Executed(s.results), ledger, log.history);
  }

  lemma LastFile(records: Records, file: StateFile, blocks: seq<CheckResult>, done: seq<CheckResult>,
                 ledger: Records, history: seq<StateFile>)
    requires Recorded(Apply(records, blocks), FileAfter(file, records, blocks), done, ledger, history)
    ensures history[|history| - 1] == FileAfter(file, records, blocks + done)
  {
    FileAt(records, file, blocks, done, ledger, history, |done|);
    assert done[..|done|] == done;
  }

  // The file after the blocks and the first i executions.
  lemma FileAt(records: Records, file: StateFile, blocks: seq<CheckResult>, done: seq<CheckResult>,
               ledger: Records, history: seq<StateFile>, i: nat)
    requires Recorded(Apply(records, blocks), FileAfter(file, records, blocks), done, ledger, history)
    requires i < |history|
    ensures history[i] == FileAfter(file, records, blocks + done[..i])
  {
    ApplyAppends(records, blocks, done[..i]);
    if i == 0 { assert blocks + done[..0] == blocks; }
  }

  // ---------- exit code, ledger and the next run ----------

  // A check ended the run without a record the next run could reuse.
  ghost predicate EndedUnfinished(t: Trial, c: Check)
    requires c.identifier in t.v.fps
  {
    exists r :: r in t.report.results && r.check == c
      && (IsFailure(r) || (r.outcome == NotScheduled && !Usable(t.v, t.records, c)))
  }

  predicate Usable(v: Invocation, records: Records, c: Check)
    requires c.identifier in v.fps
  {
    IsReusable(records, c.identifier, v.fps[c.identifier])
  }

  predicate DistinctLog(log: seq<CheckResult>) {
    forall i, j :: 0 <= i < j < |log| ==> log[i].check.identifier != log[j].check.identifier
  }

  lemma {:induction false} ExecutedIsDistinct(results: seq<CheckResult>)
    requires DistinctLog(results)
    ensures DistinctLog(Executed(results))
  {
    if results != [] {
      var n := |results| - 1;
      ExecutedIsDistinct(results[..n]);
      forall r | r in Executed(results[..n])
        ensures r.check.identifier != results[n].check.identifier
      {
        ExecutedHolds(results[..n], r);
      }
    }
  }

  lemma DistinctConcat(a: seq<CheckResult>, b: seq<CheckResult>)
    requires DistinctLog(a) && DistinctLog(b)
    requires forall r, q :: r in a && q in b ==> r.check.identifier != q.check.identifier
    ensures DistinctLog(a + b)
  {}

  // What is known about a completed run's scheduled results.
  lemma ScheduledFacts(t: Trial)
    requires Completed(t)
    ensures DistinctLog(t.Scheduled())
    ensures ResultsHonest(t.v.o, t.v.fps, Last(t.states))
    ensures multiset(ResultChecks(t.Scheduled())) == multiset(Planned(t.v, t.records))
  {
    PlannedIsAPlan(t.v, t.records);
    OneResultPerCheck(t.v.o, t.v.fps, Planned(t.v, t.records), t.events, t.states);
    RunsKeepInv(t.v.o, t.v.fps, Planned(t.v, t.records), t.events, t.states, |t.states| - 1);
  }

  lemma ScheduledIsHonest(t: Trial)
    requires Completed(t)
    ensures ResultsHonest(t.v.o, t.v.fps, Last(t.states))
  {
    ScheduledFacts(t);
  }

  lemma ScheduledIsPlanned(t: Trial, r: CheckResult)
    requires Completed(t) && r in t.Scheduled()
    ensures r.check in Planned(t.v, t.records)
  {
    ScheduledFacts(t);
    var i :| 0 <= i < |t.Scheduled()| && t.Scheduled()[i] == r;
    assert ResultChecks(t.Scheduled())[i] in multiset(Planned(t.v, t.records));
  }

  lemma PlannedIsScheduled(t: Trial, c: Check) returns (r: CheckResult)
    requires Completed(t) && c in Planned(t.v, t.records)
    ensures r in t.Scheduled() && r.check == c
  {
    ScheduledFacts(t);
    var checks := ResultChecks(t.Scheduled());
    assert c in multiset(checks);
    var i :| 0 <= i < |checks| && checks[i] == c;
    r := t.Scheduled()[i];
  }

  lemma ExecutedIsPlanned(t: Trial, r: CheckResult)
    requires Completed(t) && r in Executed(t.Scheduled())
    ensures r.check in Planned(t.v, t.records) && r.check.identifier !in t.v.blocked
    ensures r.outcome != Reused && r in t.Scheduled()
  {
    ExecutedHolds(t.Scheduled(), r);
    ScheduledIsPlanned(t, r);
    ScheduledFacts(t);
  }

  lemma BlocksAreDistinct(v: Invocation)
    requires Legal(v)
    ensures DistinctLog(Blocks(v))
    ensures forall r :: r in Blocks(v) ==>
              r.check in v.checks && r.check.identifier in v.blocked && r.outcome == BlockedContext
  {
    KeepIsDistinct(v.checks, (c: Check) => c.identifier in v.fps && c.identifier in v.blocked);
    forall r | r in Blocks(v)
      ensures r.check in BlockedChecks(v) && r.outcome == BlockedContext
    {}
  }

  lemma DurableIsDistinct(t: Trial)
    requires Completed(t)
    ensures DistinctLog(t.Durable())
    ensures forall r :: r in t.Durable() ==> r.outcome != Reused
  {
    ScheduledFacts(t);
    ExecutedIsDistinct(t.Scheduled());
    BlocksAreDistinct(t.v);
    forall r | r in Executed(t.Scheduled())
      ensures r.outcome != Reused && r.check.identifier !in t.v.blocked
    {
      ExecutedIsPlanned(t, r);
    }
    DistinctConcat(Blocks(t.v), Executed(t.Scheduled()));
  }

  lemma LoggedRecord(records: Records, log: seq<CheckResult>, r: CheckResult)
    requires DistinctLog(log) && (forall q :: q in log ==> q.outcome != Reused) && r in log
    ensures r.check.identifier in Apply(records, log)
    ensures Apply(records, log)[r.check.identifier] == RecordOf(r)
  {
    var k :| 0 <= k < |log| && log[k] == r;
    ApplyKeepsLatest(records, log, k);
  }

  lemma BlockedEndsUnusable(t: Trial, c: Check)
    requires Completed(t) && c in t.v.checks && c.identifier in t.v.blocked
    ensures !Usable(t.v, t.Final(), c)
    ensures EndedUnfinished(t, c)
  {
    DurableIsDistinct(t);
    var i :| 0 <= i < |BlockedChecks(t.v)| && BlockedChecks(t.v)[i] == c;
    var r := Blocks(t.v)[i];
    assert r in Blocks(t.v);
    LoggedRecord(t.records, t.Durable(), r);
    assert r in t.report.results;
  }

  // Which part of a completed run a result comes from.
  lemma ResultParts(t: Trial, r: CheckResult)
    requires Completed(t) && r in t.report.results
    ensures r.check in t.v.checks
    ensures r.check.identifier in t.v.blocked ==> r.outcome == BlockedContext
    ensures r.check.identifier !in t.v.blocked && Reuses(t.v, t.records, r.check) ==> r.outcome == Reused
    ensures r.check.identifier !in t.v.blocked && !Reuses(t.v, t.records, r.check) ==> r in t.Scheduled()
  {
    if r in ReusedResults(t.v, ReusedChecks(t.v, t.records)) {
      assert r.check in ReusedChecks(t.v, t.records);
    } else if r in Blocks(t.v) {
      BlocksAreDistinct(t.v);
    } else {
      ScheduledIsPlanned(t, r);
    }
  }

  lemma CountsOfParts(v: Invocation, records: Records, c: Check)
    requires Legal(v)
    ensures multiset(ReusedChecks(v, records))[c] + multiset(BlockedChecks(v))[c] + multiset(Planned(v, records))[c]
            == multiset(v.checks)[c]
  {
    KeepCounts(v.checks, (x: Check) => x.identifier in v.fps && x.identifier in v.blocked, c);
    KeepCounts(v.checks, (x: Check) => x.identifier !in v.blocked, c);
    KeepCounts(Runnable(v), (x: Check) => x.identifier in v.fps && !Reuses(v, records, x), c);
    KeepCounts(Runnable(v), (x: Check) => x.identifier in v.fps && Reuses(v, records, x), c);
    assert c in multiset(v.checks) ==> c in v.checks;
  }

  lemma PartsCover(v: Invocation, records: Records)
    requires Legal(v)
    ensures multiset(ReusedChecks(v, records)) + multiset(BlockedChecks(v)) + multiset(Planned(v, records))
            == multiset(v.checks)
  {
    forall c: Check
      ensures (multiset(ReusedChecks(v, records)) + multiset(BlockedChecks(v)) + multiset(Planned(v, records)))[c]
              == multiset(v.checks)[c]
    {
      CountsOfParts(v, records, c);
    }
  }

  lemma JoinedChecks(a: seq<CheckResult>, b: seq<CheckResult>, c: seq<CheckResult>)
    ensures multiset(ResultChecks(a + b + c))
            == multiset(ResultChecks(a)) + multiset(ResultChecks(b)) + multiset(ResultChecks(c))
  {
    ResultChecksAppend(a + b, c);
    ResultChecksAppend(a, b);
  }

  /** The report of a completed run has exactly one result for every selected check. */
  lemma ReportCoversTheSelection(t: Trial)
    requires Completed(t)
    ensures multiset(ResultChecks(t.report.results)) == multiset(t.v.checks)
  {
    var reused, blocks := ReusedResults(t.v, ReusedChecks(t.v, t.records)), Blocks(t.v);
    ScheduledFacts(t);
    JoinedChecks(reused, blocks, t.Scheduled());
    assert ResultChecks(reused) == ReusedChecks(t.v, t.records);
    assert ResultChecks(blocks) == BlockedChecks(t.v);
    PartsCover(t.v, t.records);
  }

  /** What a result of the report says: where its outcome comes from and what goes with it. */
  lemma ReportTells(t: Trial, r: CheckResult)
    requires Completed(t) && r in t.report.results
    ensures r.check in t.v.checks && r.check.identifier in t.v.fps
    ensures r.fingerprint == t.v.fps[r.check.identifier]
    ensures r.outcome == BlockedContext <==> r.check.identifier in t.v.blocked
    ensures r.outcome == BlockedContext ==>
              r.exitCode == None && r.contextReason == Some(t.v.blocked[r.check.identifier])
    ensures r.outcome == Reused <==>
            r.check.identifier !in t.v.blocked && t.v.resume
            && IsReusable(t.records, r.check.identifier, t.v.fps[r.check.identifier])
    ensures r.outcome == Passed || r.outcome == Reused <==> r.exitCode == Some(0)
  {
    ScheduledFacts(t);
    if r in t.Scheduled() {
      ScheduledIsPlanned(t, r);
    } else if r in Blocks(t.v) {
      BlockTells(t.v, r);
    } else {
      var i :| 0 <= i < |ReusedChecks(t.v, t.records)| && r == ReusedResult(t.v, ReusedChecks(t.v, t.records)[i]);
      assert r.check in ReusedChecks(t.v, t.records);
    }
  }

  lemma BlockTells(v: Invocation, r: CheckResult)
    requires r in Blocks(v)
    ensures r.check in v.checks && r.check.identifier in v.fps && r.check.identifier in v.blocked
    ensures r == CheckResult(r.check, v.fps[r.check.identifier], BlockedContext, None,
                             Some(v.blocked[r.check.identifier]))
  {
    var i :| 0 <= i < |Blocks(v)| && Blocks(v)[i] == r;
    assert r.check == BlockedChecks(v)[i];
    assert r.check in BlockedChecks(v);
  }

  lemma NotLoggedUnchanged(t: Trial, c: Check)
    requires Completed(t) && c in t.v.checks && c.identifier !in t.v.blocked
    requires forall r :: r in Executed(t.Scheduled()) ==> r.check != c
    ensures Usable(t.v, t.Final(), c) == Usable(t.v, t.records, c)
  {
    BlocksAreDistinct(t.v);
    forall r | r in t.Durable()
      ensures r.check.identifier != c.identifier
    {
      if r !in Blocks(t.v) { ExecutedIsPlanned(t, r); }
    }
    ApplyLeavesOthers(t.records, t.Durable(), c.identifier);
  }

  lemma ReusedStaysUsable(t: Trial, c: Check)
    requires Completed(t) && c in t.v.checks && c.identifier !in t.v.blocked && Reuses(t.v, t.records, c)
    ensures Usable(t.v, t.Final(), c)
    ensures !EndedUnfinished(t, c)
  {
    forall r | r in Executed(t.Scheduled())
      ensures r.check != c
    {
      ExecutedIsPlanned(t, r);
    }
    NotLoggedUnchanged(t, c);
    forall r | r in t.report.results && r.check == c
      ensures r.outcome == Reused
    {
      ResultParts(t, r);
    }
  }

  // A planned check has just one result in the report.
  lemma OnlyResult(t: Trial, r: CheckResult, q: CheckResult)
    requires Completed(t) && r in t.Scheduled() && q in t.report.results && q.check == r.check
    ensures q == r
  {
    PlannedIsFresh(t, r);
    ResultParts(t, q);
    ScheduledFacts(t);
    OneEntry(t.Scheduled(), r, q);
  }

  // A check is planned because it is neither blocked nor reused.
  lemma PlannedIsFresh(t: Trial, r: CheckResult)
    requires Completed(t) && r in t.Scheduled()
    ensures r.check in t.v.checks && r.check.identifier !in t.v.blocked && !Reuses(t.v, t.records, r.check)
  {
    ScheduledIsPlanned(t, r);
  }

  lemma OneEntry(log: seq<CheckResult>, r: CheckResult, q: CheckResult)
    requires DistinctLog(log) && r in log && q in log && q.check == r.check
    ensures q == r
  {
    var i :| 0 <= i < |log| && log[i] == r;
    var j :| 0 <= j < |log| && log[j] == q;
  }

  lemma UnfinishedIff(t: Trial, r: CheckResult)
    requires Completed(t) && r in t.Scheduled() && r.check.identifier in t.v.fps
    ensures EndedUnfinished(t, r.check) <==>
            r.outcome == Failed || (r.outcome == NotScheduled && !Usable(t.v, t.records, r.check))
  {
    ScheduledFacts(t);
    assert r in t.report.results;
    forall q | q in t.report.results && q.check == r.check
      ensures q == r
    {
      OnlyResult(t, r, q);
    }
  }

  lemma PlannedVerdict(t: Trial, r: CheckResult)
    requires Completed(t) && r in t.Scheduled()
    ensures r.check.identifier in t.v.fps
    ensures Usable(t.v, t.Final(), r.check) <==>
            !(r.outcome == Failed || (r.outcome == NotScheduled && !Usable(t.v, t.records, r.check)))
  {
    ScheduledIsPlanned(t, r);
    ScheduledFacts(t);
    ExecutedHolds(t.Scheduled(), r);
    if r.outcome == NotScheduled {
      forall q | q in Executed(t.Scheduled())
        ensures q.check != r.check
      {
        ExecutedHolds(t.Scheduled(), q);
      }
      NotLoggedUnchanged(t, r.check);
    } else {
      DurableIsDistinct(t);
      LoggedRecord(t.records, t.Durable(), r);
    }
  }

  /** After any completed run, the record of a selected check is reusable on its current
      fingerprint exactly when the check did not fail, was not blocked, and was not
      skipped without an earlier reusable record. */
  lemma Verdict(t: Trial, c: Check)
    requires Completed(t) && c in t.v.checks
    ensures Usable(t.v, t.Final(), c) <==> !EndedUnfinished(t, c)
  {
    if c.identifier in t.v.blocked {
      BlockedEndsUnusable(t, c);
    } else if Reuses(t.v, t.records, c) {
      ReusedStaysUsable(t, c);
    } else {
      assert c in Planned(t.v, t.records);
      var r := PlannedIsScheduled(t, c);
      PlannedVerdict(t, r);
      UnfinishedIff(t, r);
    }
  }

  lemma SkippingNeedsAFailure(t: Trial, r: CheckResult)
    requires Completed(t) && r in t.report.results && r.outcome == NotScheduled
    ensures t.report.exitCode == 1
  {
    ResultParts(t, r);
    ScheduledFacts(t);
    var q := SkipFollowsFailure(t.v.o, t.v.fps, Last(t.states), r);
    assert q in t.report.results;
  }

  lemma UnfinishedMeansExitOne(t: Trial, c: Check)
    requires Completed(t) && c in t.v.checks && EndedUnfinished(t, c)
    ensures t.report.exitCode == 1
  {
    var r :| r in t.report.results && r.check == c
      && (IsFailure(r) || (r.outcome == NotScheduled && !Usable(t.v, t.records, c)));
    if r.outcome == NotScheduled { SkippingNeedsAFailure(t, r); }
  }

  lemma ExitOneMeansUnfinished(t: Trial) returns (c: Check)
    requires Completed(t) && t.report.exitCode != 0
    ensures c in t.v.checks && EndedUnfinished(t, c)
  {
    var r :| r in t.report.results && IsFailure(r);
    ResultParts(t, r);
    c := r.check;
  }

  /** A completed run exits 0 exactly when every selected check has a passed record with
      its current fingerprint in the final ledger. */
  lemma ExitZeroIffAllRecorded(t: Trial)
    requires Completed(t)
    ensures t.report.exitCode == 0 <==> forall c :: c in t.v.checks ==> Usable(t.v, t.Final(), c)
  {
    if t.report.exitCode == 0 {
      forall c | c in t.v.checks
        ensures Usable(t.v, t.Final(), c)
      {
        Verdict(t, c);
        if EndedUnfinished(t, c) { UnfinishedMeansExitOne(t, c); }
      }
    } else {
      var c := ExitOneMeansUnfinished(t);
      Verdict(t, c);
    }
  }

  lemma FinalFileLoads(t: Trial)
    requires Completed(t) && LoadState(t.file) == Success(t.records)
    ensures LoadState(t.report.file) == Success(t.Final())
  {}

  /** An immediate resuming rerun on the same fingerprints plans exactly the checks that
      ended the first run unfinished. */
  lemma RerunPlansTheUnfinished(t: Trial, next: Invocation, c: Check)
    requires Completed(t) && LoadState(t.file) == Success(t.records)
    requires Legal(next) && next.resume && next.checks == t.v.checks && next.fps == t.v.fps
    requires c in t.v.checks && c.identifier !in next.blocked
    ensures LoadState(t.report.file).Success?
    ensures c in Planned(next, LoadState(t.report.file).value) <==> EndedUnfinished(t, c)
  {
    FinalFileLoads(t);
    Verdict(t, c);
  }

  // The check ended failed or not scheduled.
  ghost predicate EndedOpen(t: Trial, c: Check) {
    exists r :: r in t.report.results && r.check == c && (r.outcome == Failed || r.outcome == NotScheduled)
  }

  // The check was executed, whatever its exit code.
  ghost predicate Ran(t: Trial, c: Check) {
    exists r :: r in Executed(t.Scheduled()) && r.check == c
  }

  // `u` is a resuming rerun of `t`, right after it and with any options.
  ghost predicate Reruns(u: Trial, t: Trial) {
    && Completed(u) && LoadState(t.report.file) == Success(u.records)
    && u.v.resume && u.v.blocked == map[] && u.v.checks == t.v.checks && u.v.fps == t.v.fps
  }

  /** After a resuming run without context blocks, a rerun executes only checks that ended
      failed or not scheduled.  It executes all of them, unless it stops early itself: then
      the others are skipped after a failure under fail-fast. */
  lemma RerunExecutesTheOpen(t: Trial, u: Trial, c: Check)
    requires Completed(t) && LoadState(t.file) == Success(t.records)
    requires t.v.resume && t.v.blocked == map[] && c in t.v.checks && Reruns(u, t)
    ensures Ran(u, c) ==> EndedOpen(t, c)
    ensures EndedOpen(t, c) && !Ran(u, c) ==> u.v.o.failFast && EndedOpen(u, c) && u.report.exitCode == 1
    ensures !u.v.o.failFast ==> (Ran(u, c) <==> EndedOpen(t, c))
  {
    RerunAfterResume(t, u.v, c);
    if Ran(u, c) { RanWasPlanned(u, c); }
    if EndedOpen(t, c) { PlannedRanOrWasSkipped(u, c); }
  }

  lemma RanWasPlanned(u: Trial, c: Check)
    requires Completed(u) && Ran(u, c)
    ensures c in Planned(u.v, u.records)
  {
    var r :| r in Executed(u.Scheduled()) && r.check == c;
    ExecutedIsPlanned(u, r);
  }

  lemma PlannedRanOrWasSkipped(u: Trial, c: Check)
    requires Completed(u) && c in Planned(u.v, u.records)
    ensures Ran(u, c) || (u.v.o.failFast && EndedOpen(u, c) && u.report.exitCode == 1)
  {
    var r := PlannedIsScheduled(u, c);
    ExecutedHolds(u.Scheduled(), r);
    if r.outcome == NotScheduled { SkippedUnderFailFast(u, r); }
  }

  lemma SkippedUnderFailFast(u: Trial, r: CheckResult)
    requires Completed(u) && r in u.Scheduled() && r.outcome == NotScheduled
    ensures u.v.o.failFast && r in u.report.results && u.report.exitCode == 1
  {
    InReport(u, r);
    ScheduledIsHonest(u);
    SkipMeansHalted(u.v.o, u.v.fps, Last(u.states), r);
    SkippingNeedsAFailure(u, r);
  }

  lemma InReport(t: Trial, r: CheckResult)
    requires Completed(t) && r in t.Scheduled()
    ensures r in t.report.results
  {}

  /** After a resuming run without context blocks, a rerun plans exactly the checks that
      ended failed or not scheduled. */
  lemma RerunAfterResume(t: Trial, next: Invocation, c: Check)
    requires Completed(t) && LoadState(t.file) == Success(t.records)
    requires Legal(next) && next.resume && next.blocked == map[] && next.checks == t.v.checks && next.fps == t.v.fps
    requires t.v.resume && t.v.blocked == map[] && c in t.v.checks
    ensures LoadState(t.report.file).Success?
    ensures c in Planned(next, LoadState(t.report.file).value) <==> EndedOpen(t, c)
  {
    RerunPlansTheUnfinished(t, next, c);
    forall r | r in t.report.results && r.check == c
      ensures r.outcome != BlockedContext
      ensures r.outcome == NotScheduled ==> !Usable(t.v, t.records, c)
    {
      ResultParts(t, r);
      ScheduledFacts(t);
    }
  }

  /** Without resuming, a skipped check may keep a record from before the run: a resuming
      rerun then reuses it although the run ended it as not scheduled. */
  lemma SkippedIsReusedIffRecordedBefore(t: Trial, next: Invocation, r: CheckResult)
    requires Completed(t) && LoadState(t.file) == Success(t.records)
    requires next == t.v.(resume := true) && r in t.report.results && r.outcome == NotScheduled
    ensures LoadState(t.report.file).Success? && r.check.identifier in t.v.fps
    ensures r.check !in Planned(next, LoadState(t.report.file).value) <==> Usable(t.v, t.records, r.check)
  {
    ResultParts(t, r);
    RerunPlansTheUnfinished(t, next, r.check);
    UnfinishedIff(t, r);
  }

  // Two checks on one worker: the first fails and the second, which has a passed record, is
  // skipped.
  ghost function SkippingTrial(o: Options, c: Check, d: Check, fps: map<string, string>): Trial
    requires c.identifier in fps && d.identifier in fps
  {
    var v := Invocation(o, [c, d], fps, map[], false);
    var passed := CheckResult(d, fps[d.identifier], Passed, Some(0), None);
    var records := UpdateState(map[], passed);
    var started := Started(Init(o, [c, d]), c);
    var failed := Finished(started, c, fps[c.identifier], Some(1));
    var last := failed.(pending := [], results := failed.results + Skipped([d], fps));
    var t := Trial(v, records, Stored(Current, records), [Start(c), Finish(c, Some(1)), GiveUp],
                   [Init(o, [c, d]), started, failed, last], Report([], Missing, 1));
    var results := ReusedResults(v, ReusedChecks(v, records)) + Blocks(v) + last.results;
    t.(report := Report(results, FileAfter(t.file, records, t.Durable()), ExitCode(results)))
  }

  lemma WithoutFirst(c: Check, rest: seq<Check>)
    ensures Without([c] + rest, c) == rest
  {
    assert ([c] + rest)[1..] == rest;
  }

  lemma FirstStarts(o: Options, fps: map<string, string>, c: Check, d: Check)
    requires o.jobs >= 1 && c.resources == []
    ensures Step(o, fps, Init(o, [c, d]), Start(c), Started(Init(o, [c, d]), c))
    ensures Started(Init(o, [c, d]), c).pending == [d] && Started(Init(o, [c, d]), c).running == [c]
  {
    WithoutFirst(c, [d]);
    assert [c] + [d] == [c, d] && [c, d][0] in [c, d];
  }

  lemma FirstFails(o: Options, fps: map<string, string>, s: State, c: Check)
    requires s.running == [c] && c.identifier in fps
    ensures Step(o, fps, s, Finish(c, Some(1)), Finished(s, c, fps[c.identifier], Some(1)))
    ensures var s' := Finished(s, c, fps[c.identifier], Some(1));
            s'.pending == s.pending && s'.running == [] && s'.failed
  {
    WithoutFirst(c, []);
    assert [c] + [] == [c];
  }

  lemma SecondIsSkipped(o: Options, fps: map<string, string>, s: State, d: Check)
    requires o.failFast && s.failed && s.running == [] && s.pending == [d] && d.identifier in fps
    ensures Step(o, fps, s, GiveUp, s.(pending := [], results := s.results + Skipped([d], fps)))
  {}

  lemma SkippingTrialCompletes(o: Options, c: Check, d: Check, fps: map<string, string>)
    requires Plan(o, fps, [c, d]) && o.failFast && c.resources == []
    requires c.identifier in fps && d.identifier in fps
    ensures Completed(SkippingTrial(o, c, d, fps))
  {
    var t := SkippingTrial(o, c, d, fps);
    PlansEverything(t.v, t.records);
    SkippingTrialRuns(o, c, d, fps, t.events, t.states);
  }

  lemma SkippingTrialRuns(o: Options, c: Check, d: Check, fps: map<string, string>, events: seq<Event>, states: seq<State>)
    requires o.jobs >= 1 && o.failFast && c.resources == [] && c.identifier in fps && d.identifier in fps
    requires events == [Start(c), Finish(c, Some(1)), GiveUp] && |states| == 4
    requires states[0] == Init(o, [c, d]) && states[1] == Started(states[0], c)
    requires states[2] == Finished(states[1], c, fps[c.identifier], Some(1))
    requires states[3] == states[2].(pending := [], results := states[2].results + Skipped([d], fps))
    ensures IsRun(o, fps, [c, d], events, states)
    ensures Terminal(states[3])
  {
    FirstStarts(o, fps, c, d);
    FirstFails(o, fps, states[1], c);
    SecondIsSkipped(o, fps, states[2], d);
  }

  lemma PlansEverything(v: Invocation, records: Records)
    requires Legal(v) && !v.resume && v.blocked == map[]
    ensures Planned(v, records) == v.checks
  {
    KeepAll(v.checks, (c: Check) => c.identifier !in v.blocked);
    KeepAll(v.checks, (c: Check) => c.identifier in v.fps && !Reuses(v, records, c));
  }

  /** Such a run exists for every two checks of which the first needs no resources: its
      skipped check is then reused. */
  lemma SkippedIsReused(o: Options, c: Check, d: Check, fps: map<string, string>) returns (t: Trial)
    requires Plan(o, fps, [c, d]) && o.failFast && c.resources == []
    requires c.identifier in fps && d.identifier in fps
    ensures Completed(t) && !t.v.resume && LoadState(t.report.file).Success?
    ensures EndedSkipped(t, d) && d !in Planned(t.v.(resume := true), LoadState(t.report.file).value)
  {
    SkippingTrialCompletes(o, c, d, fps);
    t := SkippingTrial(o, c, d, fps);
    var r := Skipped([d], fps)[0];
    assert t.report.results[|t.report.results| - 1] == r;
    SkippedIsReusedIffRecordedBefore(t, t.v.(resume := true), r);
  }

  ghost predicate EndedSkipped(t: Trial, d: Check) {
    exists r :: r in t.report.results && r.check == d && r.outcome == NotScheduled
  }

  function Plain(identifier: string): Check {
    Check(identifier, "behavior", ["run"], ["src"], [], [], "repository", "w0_docs", "verification", false)
  }

  /** One such run. */
  lemma SkippedIsReusedOnce() returns (t: Trial, d: Check)
    ensures Completed(t) && !t.v.resume && LoadState(t.report.file).Success?
    ensures EndedSkipped(t, d) && d !in Planned(t.v.(resume := true), LoadState(t.report.file).value)
  {
    var o := Options(map["cargo" := 1], 1, 1, true);
    var c, fps := Plain("a"), map["a" := "x", "b" := "y"];
    d := Plain("b");
    assert "a" != "b";
    t := SkippedIsReused(o, c, d, fps);
  }

  // ---------- sequences of runs, each possibly cut off ----------

  // A run prefix that was cut off after `cut` writes of the ledger file.
  datatype Session = Session(v: Invocation, events: seq<Event>, states: seq<State>, cut: nat)

  // The results on disk after that many writes: the context blocks go out in one write,
  // then one write per executed check.
  ghost function OnDisk(x: Session): seq<CheckResult>
    requires x.states != []
  {
    var done := Executed(Last(x.states).results);
    if Blocks(x.v) == [] then done[..Min(x.cut, |done|)]
    else if x.cut == 0 then []
    else Blocks(x.v) + done[..Min(x.cut - 1, |done|)]
  }

  ghost predicate SessionFrom(x: Session, file: StateFile) {
    && Legal(x.v)
    && LoadState(file).Success?
    && IsRun(x.v.o, x.v.fps, Planned(x.v, LoadState(file).value), x.events, x.states)
  }

  function BlockWrites(v: Invocation): nat {
    if Blocks(v) == [] then 0 else 1
  }

  // A run cut off after `i` writes.
  ghost function CutAfter(t: Trial, i: nat): Session {
    Session(t.v, t.events, t.states, i)
  }

  // Entry i is what the run cut off after i writes leaves.
  ghost predicate AreCuts(t: Trial, history: seq<StateFile>)
    requires t.states != []
  {
    forall i :: 0 <= i < |history| ==> history[i] == CutFile(t, i)
  }

  ghost function CutFile(t: Trial, i: nat): StateFile
    requires t.states != []
  {
    FileAfter(t.file, t.records, OnDisk(CutAfter(t, i)))
  }

  // Everything the ledger file holds during a run, given that of the scheduling loop.
  function Contents(file: StateFile, blockWrites: nat, written: seq<StateFile>): seq<StateFile> {
    if blockWrites == 0 then written else [file] + written
  }

  /** Every content the ledger file has during a run is what the run cut off at that point
      leaves. */
  lemma ContentsAreCuts(t: Trial, ledger: Records, written: seq<StateFile>, history: seq<StateFile>)
    requires t.states != []
    requires Recorded(Apply(t.records, Blocks(t.v)), FileAfter(t.file, t.records, Blocks(t.v)),
                      Executed(t.Scheduled()), ledger, written)
    requires history == Contents(t.file, BlockWrites(t.v), written)
    ensures AreCuts(t, history)
    ensures |history| == 1 + BlockWrites(t.v) + |Executed(t.Scheduled())|
  {
    var n := BlockWrites(t.v);
    forall i | 0 <= i < |history|
      ensures history[i] == CutFile(t, i)
    {
      if i >= n {
        FileAt(t.records, t.file, Blocks(t.v), Executed(t.Scheduled()), ledger, written, i - n);
        CutOnDisk(t, i - n, i);
        assert history[i] == written[i - n];
      }
    }
  }

  lemma CutOnDisk(t: Trial, i: nat, cut: nat)
    requires t.states != [] && i <= |Executed(t.Scheduled())| && cut == BlockWrites(t.v) + i
    ensures OnDisk(CutAfter(t, cut)) == Blocks(t.v) + Executed(t.Scheduled())[..i]
  {}

  /** And every such cut is a session. */
  lemma CutsAreSessions(t: Trial, i: nat)
    requires Completed(t) && LoadState(t.file) == Success(t.records)
    ensures SessionFrom(CutAfter(t, i), t.file) && FileOf(CutAfter(t, i), t.file) == CutFile(t, i)
  {}

  // files[k] is the ledger file before session k; each session adds what it got to disk.
  ghost predicate Sessions(xs: seq<Session>, files: seq<StateFile>) {
    && |files| == |xs| + 1
    && files[0] == Missing
    && forall k :: 0 <= k < |xs| ==> SessionFrom(xs[k], files[k]) && files[k + 1] == FileOf(xs[k], files[k])
  }

  ghost function FileOf(x: Session, file: StateFile): StateFile
    requires SessionFrom(x, file)
  {
    FileAfter(file, LoadState(file).value, OnDisk(x))
  }

  // Everything recorded on disk by the first `k` sessions, oldest first.
  ghost function Written(xs: seq<Session>, k: nat): seq<CheckResult>
    requires k <= |xs| && forall i :: 0 <= i < k ==> xs[i].states != []
  {
    if k == 0 then [] else Written(xs, k - 1) + OnDisk(xs[k - 1])
  }

  lemma OnDiskIsHonest(x: Session, file: StateFile, r: CheckResult)
    requires SessionFrom(x, file) && r in OnDisk(x)
    ensures r.outcome == Passed || r.outcome == Failed || r.outcome == BlockedContext
    ensures r.outcome == Passed ==> r.exitCode == Some(0)
  {
    var results := Last(x.states).results;
    if r !in Blocks(x.v) {
      assert r in Executed(results);
      ExecutedHolds(results, r);
      var records := LoadState(file).value;
      PlannedIsAPlan(x.v, records);
      RunsKeepInv(x.v.o, x.v.fps, Planned(x.v, records), x.events, x.states, |x.states| - 1);
    }
  }

  lemma {:induction false} WrittenIsHonest(xs: seq<Session>, files: seq<StateFile>, k: nat)
    requires Sessions(xs, files) && k <= |xs|
    ensures forall r :: r in Written(xs, k) ==>
              r.outcome != Reused && (r.outcome == Passed ==> r.exitCode == Some(0))
  {
    if k > 0 {
      WrittenIsHonest(xs, files, k - 1);
      forall r | r in OnDisk(xs[k - 1])
        ensures r.outcome != Reused && (r.outcome == Passed ==> r.exitCode == Some(0))
      {
        OnDiskIsHonest(xs[k - 1], files[k - 1], r);
      }
    }
  }

  lemma {:induction false} FileHoldsEverythingWritten(xs: seq<Session>, files: seq<StateFile>, k: nat)
    requires Sessions(xs, files) && k <= |xs|
    ensures LoadState(files[k]) == Success(Apply(map[], Written(xs, k)))
  {
    if k > 0 {
      FileHoldsEverythingWritten(xs, files, k - 1);
      assert files[k - 1 + 1] == FileOf(xs[k - 1], files[k - 1]);
      NextFile(files[k - 1], Written(xs, k - 1), OnDisk(xs[k - 1]));
    }
  }

  lemma NextFile(file: StateFile, before: seq<CheckResult>, added: seq<CheckResult>)
    requires LoadState(file) == Success(Apply(map[], before))
    ensures LoadState(FileAfter(file, Apply(map[], before), added)) == Success(Apply(map[], before + added))
  {
    ApplyAppends(map[], before, added);
    if added == [] { assert before + added == before; }
  }

  /** Over any sequence of runs from an empty ledger, each cut off after any of its writes:
      a resuming run reuses a check exactly when the latest result recorded for it by the
      earlier runs is an execution that exited 0 on the same fingerprint. */
  lemma ReuseIsSound(xs: seq<Session>, files: seq<StateFile>, k: nat, c: Check)
    requires Sessions(xs, files) && k < |xs|
    requires c in xs[k].v.checks && c.identifier !in xs[k].v.blocked
    ensures c in ReusedChecks(xs[k].v, LoadState(files[k]).value) <==>
            xs[k].v.resume && LatestIsPass(Written(xs, k), c.identifier, xs[k].v.fps[c.identifier])
  {
    FileHoldsEverythingWritten(xs, files, k);
    WrittenIsHonest(xs, files, k);
    ReusableIffLatestPass(Written(xs, k), c.identifier, xs[k].v.fps[c.identifier]);
  }
}
