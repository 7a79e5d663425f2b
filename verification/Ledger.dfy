/** The local verification ledger: which record each result leaves, what loading
    accepts, and which records allow a check to be reused. */
module Ledger {
  import opened Wrappers
  import opened Manifest

  datatype Outcome = Passed | Failed | Reused | NotScheduled | BlockedContext

  datatype CheckResult = CheckResult(
    check: Check,
    fingerprint: string,
    outcome: Outcome,
    exitCode: Option<int>,
    contextReason: Option<string>)

  datatype Record = Record(
    behavior: string,
    command: seq<string>,
    fingerprint: string,
    outcome: Outcome,
    exitCode: Option<int>,
    sourceAuthority: string,
    evidenceLane: string,
    claim: string,
    producesArtifact: bool,
    contextReason: Option<string>)

  type Records = map<string, Record>

  datatype Schema = Legacy | Current | Unknown

  // What the state file holds.
  datatype StateFile = Missing | Malformed | Stored(schema: Schema, records: Records)

  datatype LedgerError = InvalidLedger | UnsupportedSchema

  function LoadState(file: StateFile): (r: Result<Records, LedgerError>)
    ensures r.Success? <==> file.Missing? || (file.Stored? && file.schema != Unknown)
    ensures r.Success? ==> r.value == if file.Missing? then map[] else file.records
  {
    match file
    case Missing => Success(map[])
    case Malformed => Failure(InvalidLedger)
    case Stored(schema, records) =>
      if schema == Unknown then Failure(UnsupportedSchema) else Success(records)
  }

  function RecordOf(r: CheckResult): Record {
    Record(r.check.behavior, r.check.command, r.fingerprint, r.outcome, r.exitCode,
           r.check.sourceAuthority, r.check.evidenceLane, r.check.claim,
           r.check.producesArtifact, r.contextReason)
  }

  function UpdateState(records: Records, r: CheckResult): Records {
    if r.outcome == Reused then records else records[r.check.identifier := RecordOf(r)]
  }

  predicate IsReusable(records: Records, identifier: string, fingerprint: string) {
    identifier in records
    && records[identifier].outcome == Passed
    && records[identifier].fingerprint == fingerprint
  }

  function Apply(records: Records, results: seq<CheckResult>): Records {
    if results == [] then records
    else UpdateState(Apply(records, results[..|results| - 1]), results[|results| - 1])
  }

  lemma {:induction false} ApplyAppends(records: Records, a: seq<CheckResult>, b: seq<CheckResult>)
    ensures Apply(records, a + b) == Apply(Apply(records, a), b)
  {
    if b == [] {
      assert a + b == a;
    } else {
      ApplyAppends(records, a, b[..|b| - 1]);
      assert (a + b)[..|a + b| - 1] == a + b[..|b| - 1];
    }
  }

  // `r` is the last result of the log that concerns its check.
  predicate IsLatest(log: seq<CheckResult>, k: int)
    requires 0 <= k < |log|
  {
    forall j :: k < j < |log| ==> log[j].check.identifier != log[k].check.identifier
  }

  lemma {:induction false} ApplyLeavesOthers(records: Records, log: seq<CheckResult>, id: string)
    requires forall r :: r in log ==> r.check.identifier != id
    ensures id in Apply(records, log) <==> id in records
    ensures id in records ==> Apply(records, log)[id] == records[id]
  {
    if log != [] {
      ApplyLeavesOthers(records, log[..|log| - 1], id);
      assert log[|log| - 1] in log;
    }
  }

  // A record holds what was found and what the check declared at the time.
  predicate Tells(record: Record, r: CheckResult) {
    && record.outcome == r.outcome && record.exitCode == r.exitCode && record.fingerprint == r.fingerprint
    && record.contextReason == r.contextReason
    && record.behavior == r.check.behavior && record.command == r.check.command
    && record.sourceAuthority == r.check.sourceAuthority && record.evidenceLane == r.check.evidenceLane
    && record.claim == r.check.claim && record.producesArtifact == r.check.producesArtifact
  }

  /** Applying a log leaves, for each check it mentions, the record of its latest result. */
  lemma {:induction false} ApplyKeepsLatest(records: Records, log: seq<CheckResult>, k: nat)
    requires forall r :: r in log ==> r.outcome != Reused
    requires k < |log| && IsLatest(log, k)
    ensures log[k].check.identifier in Apply(records, log)
    ensures Apply(records, log)[log[k].check.identifier] == RecordOf(log[k])
    ensures Tells(Apply(records, log)[log[k].check.identifier], log[k])
  {
    var n := |log| - 1;
    assert log[n] in log;
    if k < n {
      assert IsLatest(log[..n], k);
      ApplyKeepsLatest(records, log[..n], k);
    }
  }

  // The log's latest word on `id` is an execution that exited 0 on `fingerprint`.
  predicate LatestIsPass(log: seq<CheckResult>, id: string, fingerprint: string) {
    exists k :: 0 <= k < |log| && IsLatest(log, k)
      && log[k].check.identifier == id && log[k].fingerprint == fingerprint
      && log[k].outcome == Passed && log[k].exitCode == Some(0)
  }

  lemma {:induction false} LatestExists(log: seq<CheckResult>, id: string) returns (k: int)
    requires exists r :: r in log && r.check.identifier == id
    ensures 0 <= k < |log| && log[k].check.identifier == id && IsLatest(log, k)
  {
    k := |log| - 1;
    if log[k].check.identifier != id {
      var front := log[..k];
      var r :| r in log && r.check.identifier == id;
      var i :| 0 <= i < |log| && log[i] == r;
      assert front[i] == r;
      k := LatestExists(front, id);
    }
  }

  /** From an empty ledger, a record is reusable exactly when the log's latest word on
      the check is a pass on that fingerprint. */
  lemma ReusableIffLatestPass(log: seq<CheckResult>, id: string, fingerprint: string)
    requires forall r :: r in log ==> r.outcome != Reused
    requires forall r :: r in log && r.outcome == Passed ==> r.exitCode == Some(0)
    ensures IsReusable(Apply(map[], log), id, fingerprint) <==> LatestIsPass(log, id, fingerprint)
  {
    if exists r :: r in log && r.check.identifier == id {
      var k := LatestExists(log, id);
      ApplyKeepsLatest(map[], log, k);
      assert log[k] in log;
    } else {
      ApplyLeavesOthers(map[], log, id);
    }
  }
}
