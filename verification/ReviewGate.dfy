/** Compact review baselines, the review gate, and what both promise. */
module ReviewGate {
  import opened Wrappers
  import opened Sorting
  import opened ReviewReports

  predicate IdentityLe(a: Identity, b: Identity) { KeyLe(a.Key(), b.Key()) }

  lemma IdentityOrder()
    ensures TotalOrder(IdentityLe)
  {
    KeyOrder();
    forall a: Identity, b: Identity | a.Key() == b.Key() ensures a == b {
      assert a.Key()[0] == b.Key()[0] && a.Key()[1] == b.Key()[1] && a.Key()[2] == b.Key()[2];
    }
  }

  function SortedIds(ids: set<Identity>): (r: seq<Identity>)
    ensures NoDuplicates(r)
    ensures forall id :: id in r <==> id in ids
  {
    IdentityOrder();
    SortSet(ids, IdentityLe)
  }

  // ----- Facts about readings

  ghost predicate WellFormed(plan: Plan, checks: Checks) {
    forall id :: id in checks ==> WellFormedId(plan, id)
  }

  lemma {:induction false} CaseRecordsFacts(records: seq<Option<RawCaseId>>, n: nat, start: Reading)
    requires n <= |records|
    ensures ReadCaseRecords(records, n, start).checks == start.checks
    ensures start.problems <= ReadCaseRecords(records, n, start).problems
  {
    if n > 0 { CaseRecordsFacts(records, n - 1, start); }
  }

  lemma {:induction false} RecordsFacts(
    plan: Plan, success: bool, records: seq<Option<RawRecord>>, n: nat, start: Reading)
    requires n <= |records| && WellFormed(plan, start.checks)
    ensures WellFormed(plan, ReadRecords(plan, success, records, n, start).checks)
    ensures start.problems <= ReadRecords(plan, success, records, n, start).problems
  {
    if n > 0 { RecordsFacts(plan, success, records, n - 1, start); }
  }

  lemma {:induction false} ChecksFacts(plan: Plan, at: CaseId, raws: seq<Option<RawCheck>>, n: nat, start: Reading)
    requires n <= |raws| && at in plan.cases && WellFormed(plan, start.checks)
    ensures WellFormed(plan, ReadChecks(at, raws, n, start).checks)
    ensures start.problems <= ReadChecks(at, raws, n, start).problems
  {
    if n > 0 { ChecksFacts(plan, at, raws, n - 1, start); }
  }

  lemma {:induction false} CasesFacts(plan: Plan, cases: seq<Option<RawCase>>, n: nat, start: Reading)
    requires n <= |cases| && WellFormed(plan, start.checks)
    ensures WellFormed(plan, ReadCases(plan, cases, n, start).checks)
    ensures start.problems <= ReadCases(plan, cases, n, start).problems
  {
    if n > 0 {
      CasesFacts(plan, cases, n - 1, start);
      var acc, raw := ReadCases(plan, cases, n - 1, start), cases[n-1];
      if raw.Some? && raw.value.mode.Some? && raw.value.transport.Some? && raw.value.checks.Some? {
        var at := CaseId(raw.value.mode.value, raw.value.transport.value);
        if at in plan.cases {
          ChecksFacts(plan, at, raw.value.checks.value, |raw.value.checks.value|,
            acc.(observed := acc.observed + {at}));
        }
      }
    }
  }

  lemma BucketFacts(plan: Plan, success: bool, records: Option<seq<Option<RawRecord>>>, start: Reading)
    requires WellFormed(plan, start.checks)
    ensures WellFormed(plan, ReadBucket(plan, success, records, start).checks)
    ensures start.problems <= ReadBucket(plan, success, records, start).problems
  {
    if records.Some? { RecordsFacts(plan, success, records.value, |records.value|, start); }
  }

  lemma CompactedFacts(plan: Plan, body: Body, start: Reading)
    requires body.Compacted? && WellFormed(plan, start.checks)
    ensures WellFormed(plan, ReadCompacted(plan, body, start).checks)
    ensures start.problems <= ReadCompacted(plan, body, start).problems
  {
    var kind := if body.kind != BASELINE_KIND then start.Report(UnsupportedKind) else start;
    if body.requiredCases.Some? {
      CaseRecordsFacts(body.requiredCases.value, |body.requiredCases.value|, kind);
    }
    var cases := if body.requiredCases.None? then kind.Report(NoRequiredCases)
                 else ReadCaseRecords(body.requiredCases.value, |body.requiredCases.value|, kind);
    var (passing, failing) := if body.checks.None? then (None, None)
      else (body.checks.value.passing, body.checks.value.failing);
    var checks := if body.checks.None? then cases.Report(NoIdentities) else cases;
    BucketFacts(plan, true, passing, checks);
    BucketFacts(plan, false, failing, ReadBucket(plan, true, passing, checks));
  }

  /** A reading without problems observes exactly the planned cases, and its totals add up. */
  lemma ReadingFacts(plan: Plan, report: Report)
    ensures var read := RequiredChecks(plan, report);
      && WellFormed(plan, read.checks)
      && (read.problems == [] ==>
            && HeaderProblems(plan, report) == []
            && read.observed == plan.cases
            && report.summary == Some(Totals(read.checks, read.observed)))
  {
    var header := HeaderProblems(plan, report);
    var start, body := Reading({}, map[], header), ReadBody(plan, report);
    if report.body.Compacted? {
      CompactedFacts(plan, report.body, start);
    } else if report.body.cases.Some? {
      CasesFacts(plan, report.body.cases.value, |report.body.cases.value|, start);
    }
    assert header <= body.problems;
    var coverage, totals := CoverageProblems(plan, body.observed), TotalsProblems(report, body);
    assert |body.problems + (coverage + totals)| == |body.problems| + |coverage| + |totals|;
  }

  // ----- Compaction

  datatype Result<T> = Ok(value: T) | Err(problems: seq<Problem>)

  function ToCaseRecord(at: CaseId): Option<RawCaseId> { Some(RawCaseId(Some(at.mode), Some(at.transport))) }

  function ToRecord(id: Identity): Option<RawRecord> {
    Some(RawRecord(Some(id.mode), Some(id.transport), Some(id.checkId)))
  }

  function ToCaseRecords(cases: seq<CaseId>): (r: seq<Option<RawCaseId>>)
    ensures |r| == |cases| && forall i :: 0 <= i < |cases| ==> r[i] == ToCaseRecord(cases[i])
  {
    seq(|cases|, i requires 0 <= i < |cases| => ToCaseRecord(cases[i]))
  }

  function ToRecords(ids: seq<Identity>): (r: seq<Option<RawRecord>>)
    ensures |r| == |ids| && forall i :: 0 <= i < |ids| ==> r[i] == ToRecord(ids[i])
  {
    seq(|ids|, i requires 0 <= i < |ids| => ToRecord(ids[i]))
  }

  predicate Succeeds(checks: Checks, id: Identity) { id in checks && checks[id] }

  predicate Fails(checks: Checks, id: Identity) { id in checks && !checks[id] }

  function PassingIds(checks: Checks, ids: seq<Identity>): seq<Identity> { Filter(ids, id => Succeeds(checks, id)) }

  function FailingIds(checks: Checks, ids: seq<Identity>): seq<Identity> { Filter(ids, id => Fails(checks, id)) }

  /** The stored baseline; a report with anything wrong has none. */
  function Compact(plan: Plan, report: Report): (r: Result<Report>) {
    var read := RequiredChecks(plan, report);
    if read.problems != [] then Err(read.problems)
    else Ok(CompactForm(plan, report.summary, read.checks, SortedIds(read.checks.Keys), SortedCases(plan.cases)))
  }

  function CompactForm(
    plan: Plan, summary: Option<Summary>, checks: Checks, ids: seq<Identity>, cases: seq<CaseId>): Report {
    Report(
      Some(SCHEMA_VERSION), Some(plan.reviewer), Some(plan.modes), summary,
      Compacted(BASELINE_KIND, Some(ToCaseRecords(cases)),
                Some(Buckets(Some(ToRecords(PassingIds(checks, ids))), Some(ToRecords(FailingIds(checks, ids)))))))
  }

  // ----- Reading a compact baseline back

  lemma {:induction false} CaseRecordsReadBack(cases: seq<CaseId>, n: nat, start: Reading)
    requires n <= |cases| && NoDuplicates(cases) && start.observed == {}
    ensures ReadCaseRecords(ToCaseRecords(cases), n, start) == start.(observed := Elements(cases[..n]))
  {
    if n > 0 {
      CaseRecordsReadBack(cases, n - 1, start);
      assert cases[n-1] !in cases[..n-1];
      assert cases[..n] == cases[..n-1] + [cases[n-1]];
      assert Elements(cases[..n]) == Elements(cases[..n-1]) + {cases[n-1]};
    }
  }

  function Assign(checks: Checks, ids: seq<Identity>, success: bool): Checks {
    map id | id in checks.Keys + Elements(ids) :: if id in ids then success else checks[id]
  }

  lemma AssignSnoc(checks: Checks, ids: seq<Identity>, id: Identity, success: bool)
    ensures Assign(checks, ids, success)[id := success] == Assign(checks, ids + [id], success)
  {
    assert Elements(ids + [id]) == Elements(ids) + {id};
  }

  lemma StepReadsBack(plan: Plan, success: bool, acc: Reading, id: Identity)
    requires WellFormedId(plan, id) && id !in acc.checks
    ensures RecordStep(plan, success, acc, ToRecord(id)) == acc.(checks := acc.checks[id := success])
  {
    assert ReadRecord(plan, ToRecord(id)) == Some(id);
  }

  lemma {:induction false} RecordsReadBack(plan: Plan, success: bool, ids: seq<Identity>, n: nat, start: Reading)
    requires n <= |ids| && NoDuplicates(ids)
    requires forall id :: id in ids ==> WellFormedId(plan, id) && id !in start.checks
    ensures ReadRecords(plan, success, ToRecords(ids), n, start)
      == start.(checks := Assign(start.checks, ids[..n], success))
  {
    if n == 0 {
      assert Assign(start.checks, ids[..0], success) == start.checks;
    } else {
      RecordsReadBack(plan, success, ids, n - 1, start);
      var id := ids[n-1];
      assert id in ids && id !in ids[..n-1];
      assert ids[..n] == ids[..n-1] + [id];
      StepReadsBack(plan, success, start.(checks := Assign(start.checks, ids[..n-1], success)), id);
      AssignSnoc(start.checks, ids[..n-1], id, success);
    }
  }

  lemma AssignBoth(checks: Checks, passing: seq<Identity>, failing: seq<Identity>)
    requires forall id :: id in passing <==> Succeeds(checks, id)
    requires forall id :: id in failing <==> Fails(checks, id)
    ensures Assign(Assign(map[], passing, true), failing, false) == checks
  {
    var first := Assign(map[], passing, true);
    assert forall id :: id in first <==> id in passing;
  }

  lemma BucketsReadBack(plan: Plan, checks: Checks, ids: seq<Identity>, start: Reading)
    requires WellFormed(plan, checks) && NoDuplicates(ids) && (forall id :: id in ids <==> id in checks)
    requires start.checks == map[]
    ensures ReadBucket(plan, false, Some(ToRecords(FailingIds(checks, ids))),
      ReadBucket(plan, true, Some(ToRecords(PassingIds(checks, ids))), start))
      == start.(checks := checks)
  {
    var passing, failing := PassingIds(checks, ids), FailingIds(checks, ids);
    DistinctSelections(checks, ids);
    assert passing[..|passing|] == passing && failing[..|failing|] == failing;
    RecordsReadBack(plan, true, passing, |passing|, start);
    var first := start.(checks := Assign(map[], passing, true));
    RecordsReadBack(plan, false, failing, |failing|, first);
    AssignBoth(checks, passing, failing);
  }

  lemma DistinctSelections(checks: Checks, ids: seq<Identity>)
    requires NoDuplicates(ids) && (forall id :: id in ids <==> id in checks)
    ensures NoDuplicates(PassingIds(checks, ids)) && NoDuplicates(FailingIds(checks, ids))
    ensures forall id :: id in PassingIds(checks, ids) <==> Succeeds(checks, id)
    ensures forall id :: id in FailingIds(checks, ids) <==> Fails(checks, id)
  {
    FilterKeepsPairs(ids, id => Succeeds(checks, id), (a, b) => a != b);
    FilterKeepsPairs(ids, id => Fails(checks, id), (a, b) => a != b);
    assert Sorted(PassingIds(checks, ids), (a, b) => a != b) && Sorted(FailingIds(checks, ids), (a, b) => a != b);
  }

  lemma CompactFormReadsBack(plan: Plan, checks: Checks, k: Report, ids: seq<Identity>, cases: seq<CaseId>)
    requires WellFormed(plan, checks) && NoDuplicates(ids) && (forall id :: id in ids <==> id in checks)
    requires NoDuplicates(cases) && (forall at :: at in cases <==> at in plan.cases)
    requires k == CompactForm(plan, Some(Totals(checks, plan.cases)), checks, ids, cases)
    ensures RequiredChecks(plan, k) == Reading(plan.cases, checks, [])
  {
    var start := Reading({}, map[], []);
    assert HeaderProblems(plan, k) == [];
    CaseRecordsReadBack(cases, |cases|, start);
    assert cases[..|cases|] == cases && Elements(cases) == plan.cases;
    BucketsReadBack(plan, checks, ids, start.(observed := plan.cases));
    assert ReadBody(plan, k) == Reading(plan.cases, checks, []);
    assert TotalsProblems(k, Reading(plan.cases, checks, [])) == [];
  }

  /** A valid report and its compact baseline read as exactly the same checks, both without problems. */
  lemma CompactReadsBack(plan: Plan, report: Report)
    requires Compact(plan, report).Ok?
    ensures RequiredChecks(plan, Compact(plan, report).value) == RequiredChecks(plan, report)
  {
    ReadingFacts(plan, report);
    var checks := RequiredChecks(plan, report).checks;
    CompactFormReadsBack(plan, checks, Compact(plan, report).value, SortedIds(checks.Keys), SortedCases(plan.cases));
  }

  lemma CompactIsIdempotent(plan: Plan, report: Report)
    requires Compact(plan, report).Ok?
    ensures Compact(plan, Compact(plan, report).value) == Compact(plan, report)
  {
    CompactReadsBack(plan, report);
  }

  // ----- The gate

  datatype Labelled = BaselineProblem(problem: Problem) | CandidateProblem(problem: Problem)

  datatype GateResult = GateResult(
    success: bool, configurationErrors: seq<Labelled>, knownFailures: seq<Identity>, newFailures: seq<Identity>,
    missingChecks: seq<Identity>, fixedChecks: seq<Identity>)

  function Errors(baseline: seq<Problem>, candidate: seq<Problem>): (r: seq<Labelled>)
    ensures |r| == |baseline| + |candidate|
  {
    seq(|baseline|, i requires 0 <= i < |baseline| => BaselineProblem(baseline[i]))
    + seq(|candidate|, i requires 0 <= i < |candidate| => CandidateProblem(candidate[i]))
  }

  predicate NewFailure(b: Checks, c: Checks, id: Identity) { Fails(c, id) && !Fails(b, id) }

  predicate KnownFailure(b: Checks, c: Checks, id: Identity) { Fails(c, id) && Fails(b, id) }

  predicate Missing(b: Checks, c: Checks, id: Identity) { id in b && id !in c }

  predicate Fixed(b: Checks, c: Checks, id: Identity) { Fails(b, id) && Succeeds(c, id) }

  function NewFailures(
    b: Checks, c: Checks, ids: seq<Identity>): seq<Identity> { Filter(ids, id => NewFailure(b, c, id)) }

  function KnownFailures(
    b: Checks, c: Checks, ids: seq<Identity>): seq<Identity> { Filter(ids, id => KnownFailure(b, c, id)) }

  function MissingChecks(
    b: Checks, c: Checks, ids: seq<Identity>): seq<Identity> { Filter(ids, id => Missing(b, c, id)) }

  function FixedChecks(b: Checks, c: Checks, ids: seq<Identity>): seq<Identity> { Filter(ids, id => Fixed(b, c, id)) }

  function Compare(
    baseline: Reading, candidate: Reading, baselineIds: seq<Identity>, candidateIds: seq<Identity>): GateResult {
    var b, c := baseline.checks, candidate.checks;
    var errors := Errors(baseline.problems, candidate.problems);
    var newFailures, missing := NewFailures(b, c, candidateIds), MissingChecks(b, c, baselineIds);
    GateResult(
      errors == [] && newFailures == [] && missing == [],
      errors, KnownFailures(b, c, candidateIds), newFailures, missing, FixedChecks(b, c, baselineIds))
  }

  /** The gate's verdict on `candidate` against the full or compact report `baseline`. */
  function Gate(plan: Plan, candidate: Report, baseline: Report): GateResult {
    var b, c := RequiredChecks(plan, baseline), RequiredChecks(plan, candidate);
    Compare(b, c, SortedIds(b.checks.Keys), SortedIds(c.checks.Keys))
  }

  method ScanCandidate(b: Checks, c: Checks, ids: seq<Identity>) returns (known: seq<Identity>, new_: seq<Identity>)
    requires forall id :: id in ids ==> id in c
    ensures known == KnownFailures(b, c, ids) && new_ == NewFailures(b, c, ids)
  {
    known, new_ := [], [];
    for i := 0 to |ids|
      invariant known == KnownFailures(b, c, ids[..i]) && new_ == NewFailures(b, c, ids[..i])
    {
      var id := ids[i];
      FilterSnoc(ids, i, x => KnownFailure(b, c, x));
      FilterSnoc(ids, i, x => NewFailure(b, c, x));
      if c[id] { continue; }
      if id in b && !b[id] {
        known := known + [id];
      } else {
        new_ := new_ + [id];
      }
    }
    assert ids[..|ids|] == ids;
  }

  method ScanBaseline(b: Checks, c: Checks, ids: seq<Identity>) returns (missing: seq<Identity>, fixed: seq<Identity>)
    requires forall id :: id in ids ==> id in b
    ensures missing == MissingChecks(b, c, ids) && fixed == FixedChecks(b, c, ids)
  {
    missing, fixed := [], [];
    for i := 0 to |ids|
      invariant missing == MissingChecks(b, c, ids[..i]) && fixed == FixedChecks(b, c, ids[..i])
    {
      var id := ids[i];
      FilterSnoc(ids, i, x => Missing(b, c, x));
      FilterSnoc(ids, i, x => Fixed(b, c, x));
      if id !in c {
        missing := missing + [id];
      } else if !b[id] && c[id] {
        fixed := fixed + [id];
      }
    }
    assert ids[..|ids|] == ids;
  }

  method EvaluateReviewRegressionGate(plan: Plan, candidate: Report, baseline: Report) returns (r: GateResult)
    ensures r == Gate(plan, candidate, baseline)
  {
    var b := RequiredReviewChecks(plan, baseline);
    var c := RequiredReviewChecks(plan, candidate);
    var known, new_ := ScanCandidate(b.checks, c.checks, SortedIds(c.checks.Keys));
    var missing, fixed := ScanBaseline(b.checks, c.checks, SortedIds(b.checks.Keys));
    var errors := Errors(b.problems, c.problems);
    r := GateResult(errors == [] && new_ == [] && missing == [], errors, known, new_, missing, fixed);
  }

  /** Gating against the compact baseline of a valid report is gating against the report itself. */
  lemma GateOnCompactBaseline(plan: Plan, candidate: Report, report: Report)
    requires Compact(plan, report).Ok?
    ensures Gate(plan, candidate, Compact(plan, report).value) == Gate(plan, candidate, report)
  {
    CompactReadsBack(plan, report);
  }

  // ----- The gate is a preorder

  ghost predicate NoRegression(b: Checks, c: Checks) {
    (forall id :: Fails(c, id) ==> Fails(b, id)) && b.Keys <= c.Keys
  }

  lemma ComparePassesIff(b: Reading, c: Reading, bIds: seq<Identity>, cIds: seq<Identity>)
    requires forall id :: id in bIds <==> id in b.checks
    requires forall id :: id in cIds <==> id in c.checks
    ensures Compare(b, c, bIds, cIds).success
      <==> b.problems == [] && c.problems == [] && NoRegression(b.checks, c.checks)
  {
    FilterEmpty(cIds, id => NewFailure(b.checks, c.checks, id));
    FilterEmpty(bIds, id => Missing(b.checks, c.checks, id));
    assert (forall id :: id in cIds ==> !NewFailure(b.checks, c.checks, id))
      <==> forall id :: Fails(c.checks, id) ==> Fails(b.checks, id) by {
      assert forall id :: Fails(c.checks, id) ==> id in cIds;
    }
    assert (forall id :: id in bIds ==> !Missing(b.checks, c.checks, id)) <==> b.checks.Keys <= c.checks.Keys by {
      assert forall id :: Missing(b.checks, c.checks, id) ==> id in bIds;
    }
  }

  /** Passing means: both reports valid, no failure gained, no check lost. */
  lemma GatePassesIff(plan: Plan, candidate: Report, baseline: Report)
    ensures Gate(plan, candidate, baseline).success <==>
      && RequiredChecks(plan, baseline).problems == [] && RequiredChecks(plan, candidate).problems == []
      && NoRegression(RequiredChecks(plan, baseline).checks, RequiredChecks(plan, candidate).checks)
  {
    var b, c := RequiredChecks(plan, baseline), RequiredChecks(plan, candidate);
    ComparePassesIff(b, c, SortedIds(b.checks.Keys), SortedIds(c.checks.Keys));
  }

  lemma GateIsReflexive(plan: Plan, report: Report)
    ensures Gate(plan, report, report).success <==> RequiredChecks(plan, report).problems == []
  {
    GatePassesIff(plan, report, report);
  }

  lemma GateIsTransitive(plan: Plan, a: Report, b: Report, c: Report)
    requires Gate(plan, b, a).success && Gate(plan, c, b).success
    ensures Gate(plan, c, a).success
  {
    GatePassesIff(plan, b, a);
    GatePassesIff(plan, c, b);
    GatePassesIff(plan, c, a);
  }
}
