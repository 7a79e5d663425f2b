/** `run_scheduled_checks`: the scheduling loop over mutable lists and the ledger file.
    Which running checks complete first, and with which exit codes, is left open. */
module SchedulingLoop {
  import opened Wrappers
  import opened Sequences
  import opened Manifest
  import opened Ledger
  import opened Scheduler

  function Executed(results: seq<CheckResult>): seq<CheckResult> {
    if results == [] then []
    else
      var r := results[|results| - 1];
      Executed(results[..|results| - 1]) + if r.outcome == NotScheduled then [] else [r]
  }

  lemma {:induction false} ExecutedHolds(results: seq<CheckResult>, r: CheckResult)
    ensures r in Executed(results) <==> r in results && r.outcome != NotScheduled
  {
    if results != [] {
      var n := |results| - 1;
      ExecutedHolds(results[..n], r);
      assert results == results[..n] + [results[n]];
    }
  }

  lemma ExecutedAppends(results: seq<CheckResult>, r: CheckResult)
    requires r.outcome != NotScheduled
    ensures Executed(results + [r]) == Executed(results) + [r]
  {
    assert (results + [r])[..|results|] == results;
  }

  lemma {:induction false} ExecutedSkips(results: seq<CheckResult>, skipped: seq<CheckResult>)
    requires forall r :: r in skipped ==> r.outcome == NotScheduled
    ensures Executed(results + skipped) == Executed(results)
  {
    if skipped == [] {
      assert results + skipped == results;
    } else {
      ExecutedSkips(results, skipped[..|skipped| - 1]);
      assert (results + skipped)[..|results + skipped| - 1] == results + skipped[..|skipped| - 1];
    }
  }

  lemma RunExtends(o: Options, fps: map<string, string>, planned: seq<Check>,
                   events: seq<Event>, states: seq<State>, e: Event, s': State)
    requires IsRun(o, fps, planned, events, states) && Step(o, fps, Last(states), e, s')
    ensures IsRun(o, fps, planned, events + [e], states + [s'])
  {
    var events', states' := events + [e], states + [s'];
    forall k | 0 <= k < |events'|
      ensures Step(o, fps, states'[k], events'[k], states'[k + 1])
    {
      if k < |events| {
        assert states'[k] == states[k] && states'[k + 1] == states[k + 1];
      }
    }
  }

  // The loop waits only while something runs, and, while scheduling is enabled, only when
  // no pending check fits the free slots and resources.
  ghost predicate JustifiedWait(o: Options, w: State) {
    w.running != [] && (Halted(o, w) || forall c :: c in w.pending ==> !Fits(o, w, c))
  }

  // `s` is the last state of a run of the plan.
  ghost predicate Traced(o: Options, fps: map<string, string>, planned: seq<Check>,
                         events: seq<Event>, states: seq<State>, s: State)
  {
    && Plan(o, fps, planned)
    && IsRun(o, fps, planned, events, states)
    && Last(states) == s
    && Inv(o, fps, planned, s)
  }

  lemma TraceExtends(o: Options, fps: map<string, string>, planned: seq<Check>,
                     events: seq<Event>, states: seq<State>, s: State, e: Event, s': State)
    requires Traced(o, fps, planned, events, states, s) && Step(o, fps, s, e, s')
    ensures Traced(o, fps, planned, events + [e], states + [s'], s')
    ensures Work(s') < Work(s)
  {
    RunExtends(o, fps, planned, events, states, e, s');
    StepKeepsInv(o, fps, planned, s, e, s');
    StepDoesWork(o, fps, s, e, s');
  }

  // The in-memory ledger holds the executed results so far, and `history` the contents
  // of the ledger file: what it held at the start, then one entry per write.
  ghost predicate Recorded(base: Records, file0: StateFile, done: seq<CheckResult>,
                           records: Records, history: seq<StateFile>)
  {
    && records == Apply(base, done)
    && |history| == |done| + 1
    && history[0] == file0
    && forall i :: 1 <= i <= |done| ==> history[i] == Stored(Current, Apply(base, done[..i]))
  }

  lemma RecordExtends(base: Records, file0: StateFile, done: seq<CheckResult>,
                      records: Records, history: seq<StateFile>, r: CheckResult)
    requires Recorded(base, file0, done, records, history)
    ensures Recorded(base, file0, done + [r], UpdateState(records, r),
                     history + [Stored(Current, UpdateState(records, r))])
  {
    var done' := done + [r];
    assert done'[..|done|] == done && done'[..|done'|] == done';
    forall i | 1 <= i <= |done|
      ensures done'[..i] == done[..i]
    {}
  }

  ghost predicate WaitsJustified(o: Options, states: seq<State>, waits: seq<State>) {
    forall w :: w in waits ==> w in states && JustifiedWait(o, w)
  }

  // Everything the loop keeps, over the run so far.
  datatype Log = Log(
    events: seq<Event>, states: seq<State>, waits: seq<State>, history: seq<StateFile>)

  ghost predicate Good(o: Options, fps: map<string, string>, planned: seq<Check>, base: Records,
                       file0: StateFile, s: State, records: Records, log: Log)
  {
    && Traced(o, fps, planned, log.events, log.states, s)
    && Recorded(base, file0, Executed(s.results), records, log.history)
    && WaitsJustified(o, log.states, log.waits)
  }

  function Extended(log: Log, e: Event, s': State, writes: seq<StateFile>): Log {
    Log(log.events + [e], log.states + [s'], log.waits, log.history + writes)
  }

  lemma GoodStart(o: Options, fps: map<string, string>, planned: seq<Check>, base: Records,
                  file0: StateFile, s: State, records: Records, log: Log, c: Check)
    requires Good(o, fps, planned, base, file0, s, records, log)
    requires Step(o, fps, s, Start(c), Started(s, c))
    ensures Good(o, fps, planned, base, file0, Started(s, c), records,
                 Extended(log, Start(c), Started(s, c), []))
    ensures Work(Started(s, c)) < Work(s)
    ensures Distinct(c.resources) && forall r :: r in c.resources ==> r in s.inUse
  {
    TraceExtends(o, fps, planned, log.events, log.states, s, Start(c), Started(s, c));
    PartsComeFromPlan(planned, s, c);
    assert log.history + [] == log.history;
  }

  lemma RunningComesFromPlan(o: Options, fps: map<string, string>, planned: seq<Check>, s: State, c: Check)
    requires Plan(o, fps, planned) && Inv(o, fps, planned, s) && c in s.running
    ensures c.identifier in fps
    ensures Distinct(c.resources) && forall r :: r in c.resources ==> r in s.inUse
  {
    PartsComeFromPlan(planned, s, c);
  }

  lemma GoodFinish(o: Options, fps: map<string, string>, planned: seq<Check>, base: Records,
                   file0: StateFile, s: State, records: Records, log: Log, c: Check, exitCode: Option<int>)
    requires Good(o, fps, planned, base, file0, s, records, log) && c in s.running
    ensures c.identifier in fps
    ensures Distinct(c.resources) && forall r :: r in c.resources ==> r in s.inUse
    ensures var r := ExecutionResult(c, fps[c.identifier], exitCode);
            var s' := Finished(s, c, fps[c.identifier], exitCode);
            var records' := UpdateState(records, r);
            && Good(o, fps, planned, base, file0, s', records',
                    Extended(log, Finish(c, exitCode), s', [Stored(Current, records')]))
            && Work(s') < Work(s)
  {
    RunningComesFromPlan(o, fps, planned, s, c);
    var r := ExecutionResult(c, fps[c.identifier], exitCode);
    var s' := Finished(s, c, fps[c.identifier], exitCode);
    TraceExtends(o, fps, planned, log.events, log.states, s, Finish(c, exitCode), s');
    RecordExtends(base, file0, Executed(s.results), records, log.history, r);
    ExecutedAppends(s.results, r);
  }

  function GivenUp(s: State, fps: map<string, string>): State
    requires forall c :: c in s.pending ==> c.identifier in fps
  {
    s.(pending := [], results := s.results + Skipped(s.pending, fps))
  }

  lemma GoodGiveUp(o: Options, fps: map<string, string>, planned: seq<Check>, base: Records,
                   file0: StateFile, s: State, records: Records, log: Log)
    requires Good(o, fps, planned, base, file0, s, records, log)
    requires Halted(o, s) && s.running == [] && s.pending != []
    ensures forall c :: c in s.pending ==> c.identifier in fps
    ensures Good(o, fps, planned, base, file0, GivenUp(s, fps), records,
                 Extended(log, GiveUp, GivenUp(s, fps), []))
    ensures Extended(log, GiveUp, GivenUp(s, fps), []).history == log.history
  {
    forall c | c in s.pending
      ensures c.identifier in fps
    {
      PartsComeFromPlan(planned, s, c);
    }
    TraceExtends(o, fps, planned, log.events, log.states, s, GiveUp, GivenUp(s, fps));
    ExecutedSkips(s.results, Skipped(s.pending, fps));
    assert log.history + [] == log.history;
  }

  lemma GoodWait(o: Options, fps: map<string, string>, planned: seq<Check>, base: Records,
                 file0: StateFile, s: State, records: Records, log: Log)
    requires Good(o, fps, planned, base, file0, s, records, log) && JustifiedWait(o, s)
    ensures Good(o, fps, planned, base, file0, s, records, log.(waits := log.waits + [s]))
  {
    assert s in log.states;
  }

  // Some non-empty set of the running checks, in some order.
  predicate Completion(running: seq<Check>, done: seq<Check>) {
    done != [] && Distinct(done) && forall j :: 0 <= j < |done| ==> done[j] in running
  }

  lemma PartsAreDistinct(planned: seq<Check>, s: State)
    requires Partitioned(planned, s) && DistinctIdentifiers(planned)
    ensures DistinctIdentifiers(s.pending) && DistinctIdentifiers(s.running)
  {
    PermutedIdentifiersDistinct(planned, s.pending);
    PermutedIdentifiersDistinct(planned, s.running);
  }

  lemma {:induction false} WithoutMiddle(before: seq<Check>, c: Check, after: seq<Check>)
    requires c !in before
    ensures Without(before + [c] + after, c) == before + after
  {
    if before == [] {
      assert before + [c] + after == [c] + after;
    } else {
      assert (before + [c] + after)[1..] == before[1..] + [c] + after;
      WithoutMiddle(before[1..], c, after);
    }
  }

  lemma {:induction false} WithoutKeeps(s: seq<Check>, c: Check, d: Check)
    requires d in s && d != c
    ensures d in Without(s, c)
  {
    if s[0] != c && s[0] != d { WithoutKeeps(s[1..], c, d); }
  }

  // A pass over a snapshot of the pending checks, at position `i`: those passed over are
  // still pending and do not fit.
  ghost predicate Passing(o: Options, s: State, snapshot: seq<Check>, kept: seq<Check>, i: nat) {
    && i <= |snapshot| && DistinctIdentifiers(snapshot)
    && s.pending == kept + snapshot[i..]
    && (forall c :: c in kept ==> c in snapshot[..i])
    && (forall c :: c in kept ==> !Fits(o, s, c))
  }

  lemma PassSkips(o: Options, s: State, snapshot: seq<Check>, kept: seq<Check>, i: nat)
    requires Passing(o, s, snapshot, kept, i) && i < |snapshot| && !Fits(o, s, snapshot[i])
    ensures Passing(o, s, snapshot, kept + [snapshot[i]], i + 1)
  {
    assert snapshot[i..] == [snapshot[i]] + snapshot[i + 1..];
    assert snapshot[..i + 1] == snapshot[..i] + [snapshot[i]];
  }

  lemma PassStarts(o: Options, s: State, snapshot: seq<Check>, kept: seq<Check>, i: nat)
    requires Passing(o, s, snapshot, kept, i) && i < |snapshot|
    ensures snapshot[i] in s.pending
    ensures Passing(o, Started(s, snapshot[i]), snapshot, kept, i + 1)
  {
    assert snapshot[i..] == [snapshot[i]] + snapshot[i + 1..];
    assert snapshot[..i + 1] == snapshot[..i] + [snapshot[i]];
    assert s.pending == kept + [snapshot[i]] + snapshot[i + 1..];
    WithoutMiddle(kept, snapshot[i], snapshot[i + 1..]);
    forall c | c in kept
      ensures !Fits(o, Started(s, snapshot[i]), c)
    {
      StillDoesNotFit(o, s, snapshot[i], c);
    }
  }

  lemma StillDoesNotFit(o: Options, s: State, started: Check, c: Check)
    requires !Fits(o, s, c)
    ensures !Fits(o, Started(s, started), c)
  {}

  // The greedy pass as a value: each listed check starts if it fits beside those already
  // started.
  ghost function Fill(o: Options, s: State, todo: seq<Check>): State
    decreases |todo|
  {
    if todo == [] then s else Fill(o, if Fits(o, s, todo[0]) then Started(s, todo[0]) else s, todo[1..])
  }

  lemma FillStep(o: Options, s: State, snapshot: seq<Check>, i: nat)
    requires i < |snapshot|
    ensures Fill(o, s, snapshot[i..])
            == Fill(o, if Fits(o, s, snapshot[i]) then Started(s, snapshot[i]) else s, snapshot[i + 1..])
  {
    assert snapshot[i..][1..] == snapshot[i + 1..];
  }

  class ScheduledRun {
    const o: Options
    const fps: map<string, string>
    ghost const planned: seq<Check>
    ghost const base: Records
    ghost const file0: StateFile

    var pending: seq<Check>
    var running: seq<Check>
    var inUse: map<string, int>
    var results: seq<CheckResult>
    var failed: bool
    var records: Records
    var file: StateFile

    ghost var log: Log

    ghost function View(): State
      reads this
    {
      State(pending, running, inUse, results, failed)
    }

    ghost predicate Valid()
      reads this
    {
      && Good(o, fps, planned, base, file0, View(), records, log)
      && file == log.history[|log.history| - 1]
    }

    constructor (options: Options, fingerprints: map<string, string>, checks: seq<Check>,
                 state: Records, stateFile: StateFile)
      requires Plan(options, fingerprints, checks)
      ensures Valid() && fresh(this)
      ensures o == options && fps == fingerprints && planned == checks && base == state && file0 == stateFile
      ensures View() == Init(options, checks) && log.waits == []
    {
      o, fps, planned, base, file0 := options, fingerprints, checks, state, stateFile;
      pending, running, results, failed := checks, [], [], false;
      inUse := map r | r in options.limits :: 0;
      records, file := state, stateFile;
      log := Log([], [Init(options, checks)], [], [stateFile]);
      new;
      InitHasInv(o, fps, planned);
    }

    method Reserve(names: seq<string>, delta: int)
      requires Distinct(names) && forall r :: r in names ==> r in inUse
      modifies `inUse
      ensures inUse == Reserved(old(inUse), names, delta)
    {
      for i := 0 to |names|
        invariant inUse == Reserved(old(inUse), names[..i], delta)
      {
        var name := names[i];
        assert name in names && names[..i + 1] == names[..i] + [name];
        inUse := inUse[name := inUse[name] + delta];
      }
      assert names[..|names|] == names;
    }

    method StartCheck(c: Check)
      requires Valid() && !Halted(o, View()) && c in pending && Fits(o, View(), c)
      modifies this
      ensures Valid() && View() == Started(old(View()), c)
      ensures log == Extended(old(log), Start(c), View(), [])
      ensures Work(View()) < old(Work(View()))
    {
      ghost var s' := Started(View(), c);
      GoodStart(o, fps, planned, base, file0, View(), records, log, c);
      Reserve(c.resources, 1);
      running := running + [c];
      pending := Without(pending, c);
      log := Extended(log, Start(c), s', []);
      assert View() == s';
    }

    /** One greedy pass over the pending checks, in their order: afterwards none of those
        left fits. */
    method FillSlots() returns (scheduled: bool)
      requires Valid() && !Halted(o, View())
      modifies this
      ensures Valid() && !Halted(o, View())
      ensures View() == old(Fill(o, View(), pending))
      ensures forall c :: c in pending ==> !Fits(o, View(), c)
      ensures if scheduled then Work(View()) < old(Work(View())) else View() == old(View())
      ensures log.waits == old(log.waits)
    {
      scheduled := false;
      var snapshot := pending;
      ghost var kept: seq<Check> := [];
      PartsAreDistinct(planned, View());
      for i := 0 to |snapshot|
        invariant Valid() && !Halted(o, View()) && log.waits == old(log.waits)
        invariant Passing(o, View(), snapshot, kept, i)
        invariant Fill(o, View(), snapshot[i..]) == old(Fill(o, View(), pending))
        invariant if scheduled then Work(View()) < old(Work(View())) else View() == old(View())
      {
        var check := snapshot[i];
        FillStep(o, View(), snapshot, i);
        if |running| >= o.jobs || !Available(check, inUse, o.limits) {
          PassSkips(o, View(), snapshot, kept, i);
          kept := kept + [check];
        } else {
          PassStarts(o, View(), snapshot, kept, i);
          StartCheck(check);
          scheduled := true;
        }
      }
    }

    /** Takes one completed check off the running set, frees its resources, records its
        result in the ledger and writes the file. */
    method Settle(c: Check, exitCode: Option<int>)
      requires c in running && c.identifier in fps
      requires Distinct(c.resources) && forall r :: r in c.resources ==> r in inUse
      modifies `running, `inUse, `results, `records, `file, `failed
      ensures View() == Finished(old(View()), c, fps[c.identifier], exitCode)
      ensures records == UpdateState(old(records), ExecutionResult(c, fps[c.identifier], exitCode))
      ensures file == Stored(Current, records)
    {
      running := Without(running, c);
      Reserve(c.resources, -1);
      var result := ExecutionResult(c, fps[c.identifier], exitCode);
      results := results + [result];
      records := UpdateState(records, result);
      file := Stored(Current, records);
      if result.outcome == Failed { failed := true; }
    }

    /** Some running check ends, with any exit code. */
    method Complete(c: Check)
      requires Valid() && c in running
      modifies this
      ensures Valid() && running == Without(old(running), c)
      ensures log.waits == old(log.waits) && Work(View()) < old(Work(View()))
    {
      var exitCode: Option<int> :| true;
      ghost var s := View();
      GoodFinish(o, fps, planned, base, file0, s, records, log, c, exitCode);
      Settle(c, exitCode);
      log := Extended(log, Finish(c, exitCode), Finished(s, c, fps[c.identifier], exitCode), [file]);
    }

    /** Waits for some completions and settles them in whatever order they are seen. */
    method Collect()
      requires Valid() && JustifiedWait(o, View())
      modifies this
      ensures Valid() && Work(View()) < old(Work(View()))
    {
      GoodWait(o, fps, planned, base, file0, View(), records, log);
      log := log.(waits := log.waits + [View()]);
      assert Completion(running, [running[0]]);
      var done :| Completion(running, done);
      assert Completion(running, done);
      for i := 0 to |done|
        invariant Valid()
        invariant forall j :: i <= j < |done| ==> done[j] in running
        invariant if i == 0 then Work(View()) == old(Work(View())) else Work(View()) < old(Work(View()))
      {
        ghost var before := running;
        Complete(done[i]);
        forall j | i < j < |done|
          ensures done[j] in running
        {
          WithoutKeeps(before, done[i], done[j]);
        }
      }
    }

    /** The scheduling loop.  It ends, never reaches the "could not schedule" failure,
        and leaves no check pending or running. */
    method Run()
      requires Valid()
      modifies this
      ensures Valid() && Terminal(View())
    {
      while pending != [] || running != []
        invariant Valid()
        decreases Work(View())
      {
        var scheduled := false;
        if !(o.failFast && failed) {
          scheduled := FillSlots();
        }
        if scheduled { continue; }
        if running == [] {
          if o.failFast && failed {
            SkipPending();
            break;
          }
          // Nothing runs and nothing could be scheduled: every pending check fits.
          IdleMeansEverythingFits(o, fps, planned, View(), pending[0]);
          assert false;
        }
        Collect();
      }
    }

    method Skip()
      requires forall c :: c in pending ==> c.identifier in fps
      modifies `pending, `results
      ensures View() == GivenUp(old(View()), fps)
    {
      results := results + Skipped(pending, fps);
      pending := [];
    }

    method SkipPending()
      requires Valid() && Halted(o, View()) && running == [] && pending != []
      modifies this
      ensures Valid() && Terminal(View())
    {
      GoodGiveUp(o, fps, planned, base, file0, View(), records, log);
      ghost var s' := GivenUp(View(), fps);
      ghost var log' := Extended(log, GiveUp, s', []);
      Skip();
      log := log';
      assert View() == s';
    }
  }

  /** Runs the planned checks from the given ledger.  The ghost results witness the run:
      its last state, the final ledger and everything that happened on the way. */
  method RunScheduledChecks(o: Options, fps: map<string, string>, planned: seq<Check>,
                            records: Records, stateFile: StateFile)
    returns (results: seq<CheckResult>, file: StateFile, ghost s: State, ghost ledger: Records, ghost log: Log)
    requires Plan(o, fps, planned)
    ensures Good(o, fps, planned, records, stateFile, s, ledger, log) && Terminal(s)
    ensures results == s.results && file == log.history[|log.history| - 1]
  {
    var loop := new ScheduledRun(o, fps, planned, records, stateFile);
    loop.Run();
    results, file, s, ledger, log := loop.results, loop.file, loop.View(), loop.records, loop.log;
  }
}
