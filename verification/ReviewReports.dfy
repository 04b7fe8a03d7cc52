/** Reports of the review regression probes, full or compacted, and their validator. */
module ReviewReports {
  import opened Wrappers
  import opened Sorting

  const SCHEMA_VERSION := 1
  const BASELINE_KIND: string := "mcp-review-regression-baseline-v1"
  const CHECK_PREFIX: string := "review/"

  datatype CaseId = CaseId(mode: string, transport: string)
  {
    function Key(): seq<string> { [mode, transport] }
  }

  datatype Identity = Identity(mode: string, transport: string, checkId: string)
  {
    function Key(): seq<string> { [mode, transport, checkId] }

    function Case(): CaseId { CaseId(mode, transport) }
  }

  type Checks = map<Identity, bool>

  /** What a complete run consists of: the protocol modes, the probe cases, and who reports. */
  datatype Plan = Plan(modes: seq<string>, cases: set<CaseId>, reviewer: string)

  // ----- Raw reports; `None` is a field that is absent or of another type

  datatype RawCheck = RawCheck(name: Option<string>, success: Option<bool>)

  datatype RawCase = RawCase(
    mode: Option<string>, transport: Option<string>, checks: Option<seq<Option<RawCheck>>>, success: Option<bool>)

  datatype RawCaseId = RawCaseId(mode: Option<string>, transport: Option<string>)

  datatype RawRecord = RawRecord(mode: Option<string>, transport: Option<string>, checkId: Option<string>)

  datatype Buckets = Buckets(passing: Option<seq<Option<RawRecord>>>, failing: Option<seq<Option<RawRecord>>>)

  datatype Summary = Summary(
    passed: Option<int>, failed: Option<int>, total: Option<int>, casesPassed: Option<int>, casesTotal: Option<int>)

  datatype Body =
    | Full(cases: Option<seq<Option<RawCase>>>, success: Option<bool>)
    | Compacted(kind: string, requiredCases: Option<seq<Option<RawCaseId>>>, checks: Option<Buckets>)

  /** `modes` is the field `modes` of a full report and `requiredModes` of a compact one. */
  datatype Report = Report(
    schemaVersion: Option<int>, reviewer: Option<string>, modes: Option<seq<string>>, summary: Option<Summary>,
      body: Body)

  datatype Problem =
    | WrongSchema
    | OtherReviewer
    | WrongModes
    | UnsupportedKind
    | NoRequiredCases
    | MalformedCase
    | DuplicateCase
    | NoIdentities
    | NoBucket(success: bool)
    | MalformedRecord(success: bool)
    | DuplicateCheck
    | NoCases
    | UnexpectedRawCase
    | NoChecks(at: CaseId)
    | MalformedCheck
    | InconsistentCase(at: CaseId)
    | MissingCase(at: CaseId)
    | UnexpectedCase(at: CaseId)
    | InconsistentTotals
    | InconsistentSuccess

  function If(condition: bool, problem: Problem): seq<Problem> {
    if condition then [problem] else []
  }

  datatype Reading = Reading(observed: set<CaseId>, checks: Checks, problems: seq<Problem>)
  {
    function Report(p: Problem): Reading { this.(problems := problems + [p]) }
  }

  // ----- Compacted reports

  function CaseRecordStep(acc: Reading, raw: Option<RawCaseId>): Reading {
    if raw.None? || raw.value.mode.None? || raw.value.transport.None? then acc.Report(MalformedCase)
    else
      var id := CaseId(raw.value.mode.value, raw.value.transport.value);
      if id in acc.observed then acc.Report(DuplicateCase) else acc.(observed := acc.observed + {id})
  }

  function ReadCaseRecords(records: seq<Option<RawCaseId>>, n: nat, start: Reading): Reading
    requires n <= |records|
  {
    if n == 0 then start else CaseRecordStep(ReadCaseRecords(records, n - 1, start), records[n-1])
  }

  predicate WellFormedId(plan: Plan, id: Identity) {
    CHECK_PREFIX <= id.checkId && id.Case() in plan.cases
  }

  function ReadRecord(plan: Plan, raw: Option<RawRecord>): Option<Identity> {
    if raw.None? || raw.value.mode.None? || raw.value.transport.None? || raw.value.checkId.None? then None
    else
      var id := Identity(raw.value.mode.value, raw.value.transport.value, raw.value.checkId.value);
      if WellFormedId(plan, id) then Some(id) else None
  }

  function RecordStep(plan: Plan, success: bool, acc: Reading, raw: Option<RawRecord>): Reading {
    var id := ReadRecord(plan, raw);
    if id.None? then acc.Report(MalformedRecord(success))
    else if id.value in acc.checks then acc.Report(DuplicateCheck)
    else acc.(checks := acc.checks[id.value := success])
  }

  function ReadRecords(plan: Plan, success: bool, records: seq<Option<RawRecord>>, n: nat, start: Reading): Reading
    requires n <= |records|
  {
    if n == 0 then start else RecordStep(plan, success, ReadRecords(plan, success, records, n - 1, start), records[n-1])
  }

  function ReadBucket(plan: Plan, success: bool, records: Option<seq<Option<RawRecord>>>, start: Reading): Reading {
    if records.None? then start.Report(NoBucket(success))
    else ReadRecords(plan, success, records.value, |records.value|, start)
  }

  function ReadCompacted(plan: Plan, body: Body, start: Reading): Reading
    requires body.Compacted?
  {
    var kind := if body.kind != BASELINE_KIND then start.Report(UnsupportedKind) else start;
    var cases := if body.requiredCases.None? then kind.Report(NoRequiredCases)
                 else ReadCaseRecords(body.requiredCases.value, |body.requiredCases.value|, kind);
    var (passing, failing) := if body.checks.None? then (None, None)
      else (body.checks.value.passing, body.checks.value.failing);
    var checks := if body.checks.None? then cases.Report(NoIdentities) else cases;
    ReadBucket(plan, false, failing, ReadBucket(plan, true, passing, checks))
  }

  // ----- Full reports

  function CheckStep(at: CaseId, acc: Reading, raw: Option<RawCheck>): Reading {
    if raw.None? || raw.value.name.None? || !(CHECK_PREFIX <= raw.value.name.value) || raw.value.success.None?
    then acc.Report(MalformedCheck)
    else
      var id := Identity(at.mode, at.transport, raw.value.name.value);
      if id in acc.checks then acc.Report(DuplicateCheck) else acc.(checks := acc.checks[id := raw.value.success.value])
  }

  function ReadChecks(at: CaseId, raws: seq<Option<RawCheck>>, n: nat, start: Reading): Reading
    requires n <= |raws|
  {
    if n == 0 then start else CheckStep(at, ReadChecks(at, raws, n - 1, start), raws[n-1])
  }

  /** Whether the checks read so far from a case all succeeded; malformed and repeated ones are not looked at. */
  function CaseSucceeds(at: CaseId, raws: seq<Option<RawCheck>>, n: nat, start: Reading): bool
    requires n <= |raws|
  {
    n == 0 || (CaseSucceeds(at, raws, n - 1, start)
      && (CheckStep(at, ReadChecks(at, raws, n - 1, start), raws[n-1]).checks
        == ReadChecks(at, raws, n - 1, start).checks
          || raws[n-1].value.success.value))
  }

  function CaseStep(plan: Plan, acc: Reading, raw: Option<RawCase>): Reading {
    if raw.None? then acc.Report(MalformedCase)
    else if raw.value.mode.None? || raw.value.transport.None? then acc.Report(UnexpectedRawCase)
    else
      var at := CaseId(raw.value.mode.value, raw.value.transport.value);
      if at !in plan.cases then acc.Report(UnexpectedRawCase)
      else if at in acc.observed then acc.Report(DuplicateCase)
      else
        var seen := acc.(observed := acc.observed + {at});
        if raw.value.checks.None? || raw.value.checks.value == [] then seen.Report(NoChecks(at))
        else
          var raws := raw.value.checks.value;
          var read := ReadChecks(at, raws, |raws|, seen);
          if raw.value.success != Some(CaseSucceeds(at, raws, |raws|, seen)) then read.Report(InconsistentCase(at))
            else read
  }

  function ReadCases(plan: Plan, cases: seq<Option<RawCase>>, n: nat, start: Reading): Reading
    requires n <= |cases|
  {
    if n == 0 then start else CaseStep(plan, ReadCases(plan, cases, n - 1, start), cases[n-1])
  }

  function ReadFull(plan: Plan, body: Body, start: Reading): Reading
    requires body.Full?
  {
    if body.cases.None? then start.Report(NoCases) else ReadCases(plan, body.cases.value, |body.cases.value|, start)
  }

  // ----- Totals

  predicate CasePassed(checks: Checks, at: CaseId) {
    && (forall id :: id in checks && id.Case() == at ==> checks[id])
    && (exists id :: id in checks && id.Case() == at)
  }

  function Passing(checks: Checks): nat {
    |set id | id in checks && checks[id]|
  }

  function Totals(checks: Checks, observed: set<CaseId>): Summary {
    Summary(Some(Passing(checks)), Some(|checks| - Passing(checks)), Some(|checks|),
            Some(|set at | at in observed && CasePassed(checks, at)|), Some(|observed|))
  }

  predicate CaseLe(a: CaseId, b: CaseId) { KeyLe(a.Key(), b.Key()) }

  lemma CaseOrder()
    ensures TotalOrder(CaseLe)
  {
    KeyOrder();
    forall a: CaseId, b: CaseId | a.Key() == b.Key() ensures a == b {
      assert a.Key()[0] == b.Key()[0] && a.Key()[1] == b.Key()[1];
    }
  }

  function SortedCases(cases: set<CaseId>): (r: seq<CaseId>)
    ensures NoDuplicates(r)
    ensures forall c :: c in r <==> c in cases
  {
    CaseOrder();
    SortSet(cases, CaseLe)
  }

  function CoverageProblems(plan: Plan, observed: set<CaseId>): (r: seq<Problem>)
    ensures r == [] <==> observed == plan.cases
  {
    var missing, extra := SortedCases(plan.cases - observed), SortedCases(observed - plan.cases);
    assert missing == [] <==> plan.cases - observed == {} by { assert missing != [] ==> missing[0] in missing; }
    assert extra == [] <==> observed - plan.cases == {} by { assert extra != [] ==> extra[0] in extra; }
    seq(|missing|, i requires 0 <= i < |missing| => MissingCase(missing[i]))
    + seq(|extra|, i requires 0 <= i < |extra| => UnexpectedCase(extra[i]))
  }

  function HeaderProblems(plan: Plan, report: Report): seq<Problem> {
    If(report.schemaVersion != Some(SCHEMA_VERSION), WrongSchema)
    + If(report.reviewer != Some(plan.reviewer), OtherReviewer)
    + If(report.modes != Some(plan.modes), WrongModes)
  }

  function TotalsProblems(report: Report, read: Reading): seq<Problem> {
    If(report.summary != Some(Totals(read.checks, read.observed)), InconsistentTotals)
    + If(report.body.Full?
         && report.body.success != Some(read.observed != {} && |read.checks| - Passing(read.checks) == 0),
           InconsistentSuccess)
  }

  function ReadBody(plan: Plan, report: Report): Reading {
    var start := Reading({}, map[], HeaderProblems(plan, report));
    if report.body.Compacted? then ReadCompacted(plan, report.body, start) else ReadFull(plan, report.body, start)
  }

  /** What the validator makes of a report: its checks, and everything that is wrong with it. */
  function RequiredChecks(plan: Plan, report: Report): Reading {
    var read := ReadBody(plan, report);
    read.(problems := read.problems + (CoverageProblems(plan, read.observed) + TotalsProblems(report, read)))
  }

  // ----- The validator's loops

  method ReadRequiredCases(records: seq<Option<RawCaseId>>, start: Reading) returns (acc: Reading)
    ensures acc == ReadCaseRecords(records, |records|, start)
  {
    acc := start;
    for i := 0 to |records|
      invariant acc == ReadCaseRecords(records, i, start)
    {
      var raw := records[i];
      if raw.None? || raw.value.mode.None? || raw.value.transport.None? {
        acc := acc.(problems := acc.problems + [MalformedCase]);
        continue;
      }
      var id := CaseId(raw.value.mode.value, raw.value.transport.value);
      if id in acc.observed {
        acc := acc.(problems := acc.problems + [DuplicateCase]);
        continue;
      }
      acc := acc.(observed := acc.observed + {id});
    }
  }

  method ReadBucketRecords(plan: Plan, success: bool, records: Option<seq<Option<RawRecord>>>, start: Reading)
    returns (acc: Reading)
    ensures acc == ReadBucket(plan, success, records, start)
  {
    acc := start;
    if records.None? {
      acc := acc.(problems := acc.problems + [NoBucket(success)]);
      return;
    }
    for i := 0 to |records.value|
      invariant acc == ReadRecords(plan, success, records.value, i, start)
    {
      var id := ReadRecord(plan, records.value[i]);
      if id.None? {
        acc := acc.(problems := acc.problems + [MalformedRecord(success)]);
        continue;
      }
      if id.value in acc.checks {
        acc := acc.(problems := acc.problems + [DuplicateCheck]);
        continue;
      }
      acc := acc.(checks := acc.checks[id.value := success]);
    }
  }

  method ReadCaseChecks(at: CaseId, raws: seq<Option<RawCheck>>, start: Reading) returns (acc: Reading, succeeded: bool)
    ensures acc == ReadChecks(at, raws, |raws|, start)
    ensures succeeded == CaseSucceeds(at, raws, |raws|, start)
  {
    acc, succeeded := start, true;
    for i := 0 to |raws|
      invariant acc == ReadChecks(at, raws, i, start)
      invariant succeeded == CaseSucceeds(at, raws, i, start)
    {
      var raw := raws[i];
      if raw.None? || raw.value.name.None? || !(CHECK_PREFIX <= raw.value.name.value) || raw.value.success.None? {
        acc := acc.(problems := acc.problems + [MalformedCheck]);
        continue;
      }
      var id := Identity(at.mode, at.transport, raw.value.name.value);
      if id in acc.checks {
        acc := acc.(problems := acc.problems + [DuplicateCheck]);
        continue;
      }
      ghost var before := acc.checks;
      acc := acc.(checks := acc.checks[id := raw.value.success.value]);
      assert id in acc.checks && id !in before;
      succeeded := succeeded && raw.value.success.value;
    }
  }

  method ReadProbeCases(plan: Plan, cases: seq<Option<RawCase>>, start: Reading) returns (acc: Reading)
    ensures acc == ReadCases(plan, cases, |cases|, start)
  {
    acc := start;
    for i := 0 to |cases|
      invariant acc == ReadCases(plan, cases, i, start)
    {
      var raw := cases[i];
      if raw.None? {
        acc := acc.(problems := acc.problems + [MalformedCase]);
        continue;
      }
      if raw.value.mode.None? || raw.value.transport.None?
         || CaseId(raw.value.mode.value, raw.value.transport.value) !in plan.cases
      {
        acc := acc.(problems := acc.problems + [UnexpectedRawCase]);
        continue;
      }
      var at := CaseId(raw.value.mode.value, raw.value.transport.value);
      if at in acc.observed {
        acc := acc.(problems := acc.problems + [DuplicateCase]);
        continue;
      }
      acc := acc.(observed := acc.observed + {at});
      if raw.value.checks.None? || raw.value.checks.value == [] {
        acc := acc.(problems := acc.problems + [NoChecks(at)]);
        continue;
      }
      var succeeded;
      acc, succeeded := ReadCaseChecks(at, raw.value.checks.value, acc);
      if raw.value.success != Some(succeeded) {
        acc := acc.(problems := acc.problems + [InconsistentCase(at)]);
      }
    }
  }

  method RequiredReviewChecks(plan: Plan, report: Report) returns (acc: Reading)
    ensures acc == RequiredChecks(plan, report)
  {
    acc := Reading({}, map[], HeaderProblems(plan, report));
    if report.body.Compacted? {
      if report.body.kind != BASELINE_KIND {
        acc := acc.(problems := acc.problems + [UnsupportedKind]);
      }
      if report.body.requiredCases.None? {
        acc := acc.(problems := acc.problems + [NoRequiredCases]);
      } else {
        acc := ReadRequiredCases(report.body.requiredCases.value, acc);
      }
      if report.body.checks.None? {
        acc := acc.(problems := acc.problems + [NoIdentities]);
        acc := ReadBucketRecords(plan, true, None, acc);
        acc := ReadBucketRecords(plan, false, None, acc);
      } else {
        acc := ReadBucketRecords(plan, true, report.body.checks.value.passing, acc);
        acc := ReadBucketRecords(plan, false, report.body.checks.value.failing, acc);
      }
    } else if report.body.cases.None? {
      acc := acc.(problems := acc.problems + [NoCases]);
    } else {
      acc := ReadProbeCases(plan, report.body.cases.value, acc);
    }
    acc := acc.(problems := acc.problems + (CoverageProblems(plan, acc.observed) + TotalsProblems(report, acc)));
  }
}
