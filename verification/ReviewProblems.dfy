/** Which problems the review validator reports, told from the raw report. */
module ReviewProblems {
  import opened Wrappers
  import opened ReviewReports
  import opened ReviewValidity

  // ----- Checks of a case

  /** The check at `k` is malformed, or has the name of an earlier one. */
  ghost predicate CheckAdds(raws: seq<Option<RawCheck>>, k: nat, p: Problem)
    requires k < |raws|
  {
    var read := ReadCheck(raws[k]);
    if read.None? then p == MalformedCheck
    else p == DuplicateCheck && exists j :: 0 <= j < k && Names(raws[j], read.value.0)
  }

  lemma CheckStepAdds(at: CaseId, raws: seq<Option<RawCheck>>, k: nat, start: Reading, p: Problem)
    requires k < |raws| && Untouched(at, start.checks)
    ensures var acc := ReadChecks(at, raws, k, start);
      p in CheckStep(at, acc, raws[k]).problems <==> p in acc.problems || CheckAdds(raws, k, p)
  {
    var read := ReadCheck(raws[k]);
    if read.Some? { ChecksVerdict(at, raws, k, start, Identity(at.mode, at.transport, read.value.0)); }
  }

  lemma {:induction false} ChecksAdd(at: CaseId, raws: seq<Option<RawCheck>>, n: nat, start: Reading, p: Problem)
    requires n <= |raws| && Untouched(at, start.checks)
    ensures p in ReadChecks(at, raws, n, start).problems
      <==> p in start.problems || exists k :: 0 <= k < n && CheckAdds(raws, k, p)
  {
    if n > 0 {
      ChecksAdd(at, raws, n - 1, start, p);
      CheckStepAdds(at, raws, n - 1, start, p);
    }
  }

  /** No check that is read fails. */
  ghost predicate NoneFails(raws: seq<Option<RawCheck>>, n: nat)
    requires n <= |raws|
  {
    forall name :: FirstVerdict(raws, n, name) != Some(false)
  }

  /** The check at `n` fails, and no earlier one has its name. */
  ghost predicate FailsFirst(raws: seq<Option<RawCheck>>, n: nat)
    requires n < |raws|
  {
    var read := ReadCheck(raws[n]);
    read.Some? && FirstVerdict(raws, n, read.value.0).None? && !read.value.1
  }

  lemma VerdictStep(raws: seq<Option<RawCheck>>, n: nat, name: string)
    requires n < |raws|
    ensures FirstVerdict(raws, n + 1, name) == Some(false) <==>
      FirstVerdict(raws, n, name) == Some(false) || (FailsFirst(raws, n) && Names(raws[n], name))
  {
  }

  lemma NoneFailsStep(raws: seq<Option<RawCheck>>, n: nat)
    requires n < |raws|
    ensures NoneFails(raws, n + 1) <==> NoneFails(raws, n) && !FailsFirst(raws, n)
  {
    forall name ensures FirstVerdict(raws, n + 1, name) == Some(false) <==>
      FirstVerdict(raws, n, name) == Some(false) || (FailsFirst(raws, n) && Names(raws[n], name)) {
      VerdictStep(raws, n, name);
    }
    if FailsFirst(raws, n) { assert FirstVerdict(raws, n + 1, ReadCheck(raws[n]).value.0) == Some(false); }
    if name :| FirstVerdict(raws, n, name) == Some(false) {
      assert FirstVerdict(raws, n + 1, name) == Some(false);
    }
  }

  lemma {:induction false} SucceedsUnless(at: CaseId, raws: seq<Option<RawCheck>>, n: nat, start: Reading)
    requires n <= |raws| && Untouched(at, start.checks)
    ensures CaseSucceeds(at, raws, n, start) <==> NoneFails(raws, n)
  {
    if n > 0 {
      SucceedsUnless(at, raws, n - 1, start);
      NoneFailsStep(raws, n - 1);
      StepChanges(at, raws, n - 1, start);
    }
  }

  lemma StepChanges(at: CaseId, raws: seq<Option<RawCheck>>, n: nat, start: Reading)
    requires n < |raws| && Untouched(at, start.checks)
    ensures var acc, read := ReadChecks(at, raws, n, start), ReadCheck(raws[n]);
      CheckStep(at, acc, raws[n]).checks == acc.checks <==> read.None? || FirstVerdict(raws, n, read.value.0).Some?
  {
    var acc, read := ReadChecks(at, raws, n, start), ReadCheck(raws[n]);
    if read.Some? {
      var id := Identity(at.mode, at.transport, read.value.0);
      ChecksVerdict(at, raws, n, start, id);
      assert id in acc.checks[id := read.value.1];
    }
  }

  // ----- The list of cases

  ghost predicate EarlierEntry(plan: Plan, list: seq<Option<RawCase>>, k: nat, at: CaseId)
    requires k <= |list|
  {
    exists j :: 0 <= j < k && CaseOf(plan, list[j]) == Some(at)
  }

  /** What the entry at `k` is reported for: not an object, not a planned case, a case there before, no checks, or
      what its checks are reported for and a verdict that is not theirs. */
  ghost predicate EntryAdds(plan: Plan, list: seq<Option<RawCase>>, k: nat, p: Problem)
    requires k < |list|
  {
    var raw, at, raws := list[k], CaseOf(plan, list[k]), RawsOf(list[k]);
    if raw.None? then p == MalformedCase
    else if at.None? then p == UnexpectedRawCase
    else if EarlierEntry(plan, list, k, at.value) then p == DuplicateCase
    else if raws == [] then p == NoChecks(at.value)
    else
      || (exists j :: 0 <= j < |raws| && CheckAdds(raws, j, p))
      || (p == InconsistentCase(at.value) && raw.value.success != Some(NoneFails(raws, |raws|)))
  }

  lemma NewCaseAdds(plan: Plan, acc: Reading, raw: Option<RawCase>, at: CaseId, p: Problem)
    requires CaseOf(plan, raw) == Some(at) && at !in acc.observed && Untouched(at, acc.checks) && RawsOf(raw) != []
    ensures var raws := RawsOf(raw);
      p in CaseStep(plan, acc, raw).problems <==>
      || p in acc.problems
      || (exists j :: 0 <= j < |raws| && CheckAdds(raws, j, p))
      || (p == InconsistentCase(at) && raw.value.success != Some(NoneFails(raws, |raws|)))
  {
    var raws, seen := RawsOf(raw), acc.(observed := acc.observed + {at});
    ChecksAdd(at, raws, |raws|, seen, p);
    SucceedsUnless(at, raws, |raws|, seen);
  }

  lemma EntryStepAdds(plan: Plan, list: seq<Option<RawCase>>, k: nat, acc: Reading, p: Problem)
    requires k < |list| && Reads(plan, list, k, acc)
    ensures p in CaseStep(plan, acc, list[k]).problems <==> p in acc.problems || EntryAdds(plan, list, k, p)
  {
    var raw, at := list[k], CaseOf(plan, list[k]);
    if at.Some? {
      assert at.value in acc.observed <==> FirstEntry(plan, list, k, at.value) < k;
      assert FirstEntry(plan, list, k, at.value) < k <==> EarlierEntry(plan, list, k, at.value);
      if at.value !in acc.observed && RawsOf(raw) != [] {
        UntouchedUntilObserved(plan, list, k, acc, at.value);
        NewCaseAdds(plan, acc, raw, at.value, p);
      }
    }
  }

  ghost predicate Any(has: nat -> bool, n: nat) { exists k: nat :: k < n && has(k) }

  lemma AnyStep(has: nat -> bool, n: nat)
    ensures Any(has, n + 1) <==> Any(has, n) || has(n)
  {
  }

  lemma {:induction false} EntriesAddAny(
    plan: Plan, list: seq<Option<RawCase>>, n: nat, start: Reading, p: Problem, has: nat -> bool)
    requires n <= |list| && start.observed == {} && start.checks == map[]
    requires forall k: nat :: k < n ==> has(k) == EntryAdds(plan, list, k, p)
    ensures p in ReadCases(plan, list, n, start).problems <==> p in start.problems || Any(has, n)
  {
    if n > 0 {
      EntriesAddAny(plan, list, n - 1, start, p, has);
      AnyStep(has, n - 1);
      CasesRead(plan, list, n - 1, start);
      EntryStepAdds(plan, list, n - 1, ReadCases(plan, list, n - 1, start), p);
    }
  }

  lemma EntriesAdd(plan: Plan, list: seq<Option<RawCase>>, start: Reading, p: Problem)
    requires start.observed == {} && start.checks == map[]
    ensures p in ReadCases(plan, list, |list|, start).problems
      <==> p in start.problems || exists k :: 0 <= k < |list| && EntryAdds(plan, list, k, p)
  {
    EntriesAddAny(plan, list, |list|, start, p, (k: nat) => k < |list| && EntryAdds(plan, list, k, p));
  }

  // ----- Compact reports

  ghost predicate CaseRecordAdds(records: seq<Option<RawCaseId>>, k: nat, p: Problem)
    requires k < |records|
  {
    var at := ReadCaseId(records[k]);
    if at.None? then p == MalformedCase else p == DuplicateCase && CaseRecorded(records, k, at.value)
  }

  lemma CaseRecordStepAdds(records: seq<Option<RawCaseId>>, k: nat, start: Reading, p: Problem)
    requires k < |records| && start.observed == {}
    ensures var acc := ReadCaseRecords(records, k, start);
      p in CaseRecordStep(acc, records[k]).problems <==> p in acc.problems || CaseRecordAdds(records, k, p)
  {
    CaseRecordsRead(records, k, start);
  }

  lemma {:induction false} CaseRecordsAdd(records: seq<Option<RawCaseId>>, n: nat, start: Reading, p: Problem)
    requires n <= |records| && start.observed == {}
    ensures p in ReadCaseRecords(records, n, start).problems
      <==> p in start.problems || exists k :: 0 <= k < n && CaseRecordAdds(records, k, p)
  {
    if n > 0 {
      CaseRecordsAdd(records, n - 1, start, p);
      CaseRecordStepAdds(records, n - 1, start, p);
    }
  }

  /** A record is malformed, or of a check that an earlier record of either bucket is of. */
  ghost predicate RecordAdds(
    plan: Plan, success: bool, earlier: seq<Option<RawRecord>>, records: seq<Option<RawRecord>>, k: nat, p: Problem)
    requires k < |records|
  {
    var id := ReadRecord(plan, records[k]);
    if id.None? then p == MalformedRecord(success)
    else
      p == DuplicateCheck
      && (Recorded(plan, earlier, |earlier|, id.value) || Recorded(plan, records, k, id.value))
  }

  lemma RecordStepAdds(
    plan: Plan, success: bool, earlier: seq<Option<RawRecord>>, records: seq<Option<RawRecord>>, k: nat,
    start: Reading, p: Problem)
    requires k < |records|
    requires forall id :: id in start.checks <==> Recorded(plan, earlier, |earlier|, id)
    ensures var acc := ReadRecords(plan, success, records, k, start);
      p in RecordStep(plan, success, acc, records[k]).problems
      <==> p in acc.problems || RecordAdds(plan, success, earlier, records, k, p)
  {
    var id := ReadRecord(plan, records[k]);
    if id.Some? { RecordsVerdict(plan, success, records, k, start, id.value); }
  }

  lemma {:induction false} RecordsAdd(
    plan: Plan, success: bool, earlier: seq<Option<RawRecord>>, records: seq<Option<RawRecord>>, n: nat,
    start: Reading, p: Problem)
    requires n <= |records|
    requires forall id :: id in start.checks <==> Recorded(plan, earlier, |earlier|, id)
    ensures p in ReadRecords(plan, success, records, n, start).problems
      <==> p in start.problems || exists k :: 0 <= k < n && RecordAdds(plan, success, earlier, records, k, p)
  {
    if n > 0 {
      RecordsAdd(plan, success, earlier, records, n - 1, start, p);
      RecordStepAdds(plan, success, earlier, records, n - 1, start, p);
    }
  }

  ghost predicate BucketAdds(
    plan: Plan, success: bool, earlier: seq<Option<RawRecord>>, records: Option<seq<Option<RawRecord>>>, p: Problem)
  {
    if records.None? then p == NoBucket(success)
    else exists k :: 0 <= k < |records.value| && RecordAdds(plan, success, earlier, records.value, k, p)
  }

  lemma BucketAdd(
    plan: Plan, success: bool, earlier: seq<Option<RawRecord>>, records: Option<seq<Option<RawRecord>>>,
    start: Reading, p: Problem)
    requires forall id :: id in start.checks <==> Recorded(plan, earlier, |earlier|, id)
    ensures p in ReadBucket(plan, success, records, start).problems
      <==> p in start.problems || BucketAdds(plan, success, earlier, records, p)
  {
    if records.Some? { RecordsAdd(plan, success, earlier, records.value, |records.value|, start, p); }
  }

  ghost predicate HeadAdds(body: Body, p: Problem)
    requires body.Compacted?
  {
    || (p == UnsupportedKind && body.kind != "mcp-review-regression-baseline-v1")
    || (p == NoIdentities && body.checks.None?)
    || (if body.requiredCases.None? then p == NoRequiredCases
        else exists k :: 0 <= k < |body.requiredCases.value| && CaseRecordAdds(body.requiredCases.value, k, p))
  }

  lemma HeadAdd(body: Body, start: Reading, p: Problem)
    requires body.Compacted? && start.observed == {}
    ensures p in BeforeBuckets(body, start).problems <==> p in start.problems || HeadAdds(body, p)
  {
    var kind := if body.kind != BASELINE_KIND then start.Report(UnsupportedKind) else start;
    if body.requiredCases.Some? {
      CaseRecordsAdd(body.requiredCases.value, |body.requiredCases.value|, kind, p);
    }
  }

  ghost predicate CompactAdds(plan: Plan, body: Body, p: Problem)
    requires body.Compacted?
  {
    var passing := if body.checks.Some? then body.checks.value.passing else None;
    var failing := if body.checks.Some? then body.checks.value.failing else None;
    || HeadAdds(body, p)
    || BucketAdds(plan, true, [], passing, p)
    || BucketAdds(plan, false, PassingOf(body), failing, p)
  }

  lemma BothBucketsAdd(
    plan: Plan, passing: Option<seq<Option<RawRecord>>>, failing: Option<seq<Option<RawRecord>>>, start: Reading,
    p: Problem)
    requires start.checks == map[]
    ensures p in ReadBucket(plan, false, failing, ReadBucket(plan, true, passing, start)).problems <==>
      || p in start.problems || BucketAdds(plan, true, [], passing, p)
      || BucketAdds(plan, false, Records(passing), failing, p)
  {
    BucketAdd(plan, true, [], passing, start, p);
    var middle := ReadBucket(plan, true, passing, start);
    forall id ensures id in middle.checks <==> Recorded(plan, Records(passing), |Records(passing)|, id) {
      BucketVerdict(plan, true, passing, start, id);
    }
    BucketAdd(plan, false, Records(passing), failing, middle, p);
  }

  lemma CompactAdd(plan: Plan, body: Body, start: Reading, p: Problem)
    requires body.Compacted? && start.observed == {} && start.checks == map[]
    ensures p in ReadCompacted(plan, body, start).problems <==> p in start.problems || CompactAdds(plan, body, p)
  {
    CompactedIsBuckets(plan, body, start);
    HeadProblems(body, start);
    HeadAdd(body, start, p);
    var passing := if body.checks.Some? then body.checks.value.passing else None;
    var failing := if body.checks.Some? then body.checks.value.failing else None;
    BothBucketsAdd(plan, passing, failing, BeforeBuckets(body, start), p);
  }

  // ----- Reports

  ghost predicate HeaderAdds(plan: Plan, report: Report, p: Problem) {
    || (p == WrongSchema && report.schemaVersion != Some(1))
    || (p == OtherReviewer && report.reviewer != Some(plan.reviewer))
    || (p == WrongModes && report.modes != Some(plan.modes))
  }

  ghost predicate BodyAdds(plan: Plan, report: Report, p: Problem) {
    if report.body.Compacted? then CompactAdds(plan, report.body, p)
    else if report.body.cases.None? then p == NoCases
    else exists k :: 0 <= k < |CaseList(report)| && EntryAdds(plan, CaseList(report), k, p)
  }

  ghost predicate CoverageAdds(plan: Plan, report: Report, p: Problem) {
    match p
    case MissingCase(at) => at in plan.cases && !Observed(plan, report, at)
    case UnexpectedCase(at) => at !in plan.cases && Observed(plan, report, at)
    case _ => false
  }

  ghost predicate TotalsAdds(plan: Plan, report: Report, p: Problem) {
    exists t :: IsTally(plan, report, t)
      && ((p == InconsistentTotals && !SummaryAgrees(report, t))
          || (p == InconsistentSuccess && !SuccessAgrees(report, t)))
  }

  lemma BodyAdd(plan: Plan, report: Report, p: Problem)
    ensures p in ReadBody(plan, report).problems <==> HeaderAdds(plan, report, p) || BodyAdds(plan, report, p)
  {
    var start := Reading({}, map[], HeaderProblems(plan, report));
    assert p in start.problems <==> HeaderAdds(plan, report, p);
    if report.body.Compacted? {
      CompactAdd(plan, report.body, start, p);
    } else if report.body.cases.Some? {
      EntriesAdd(plan, CaseList(report), start, p);
    }
  }

  lemma InCoverage(plan: Plan, observed: set<CaseId>, p: Problem)
    ensures p in CoverageProblems(plan, observed) <==>
      || (p.MissingCase? && p.at in plan.cases && p.at !in observed)
      || (p.UnexpectedCase? && p.at !in plan.cases && p.at in observed)
  {
    var missing, extra := SortedCases(plan.cases - observed), SortedCases(observed - plan.cases);
    var a := seq(|missing|, i requires 0 <= i < |missing| => MissingCase(missing[i]));
    var b := seq(|extra|, i requires 0 <= i < |extra| => UnexpectedCase(extra[i]));
    assert CoverageProblems(plan, observed) == a + b;
    InMissing(missing, a, p);
    InExtra(extra, b, p);
  }

  lemma InMissing(cases: seq<CaseId>, problems: seq<Problem>, p: Problem)
    requires |problems| == |cases| && forall i :: 0 <= i < |cases| ==> problems[i] == MissingCase(cases[i])
    ensures p in problems <==> p.MissingCase? && p.at in cases
  {
    if p.MissingCase? && p.at in cases {
      var i :| 0 <= i < |cases| && cases[i] == p.at;
      assert problems[i] == p;
    }
  }

  lemma InExtra(cases: seq<CaseId>, problems: seq<Problem>, p: Problem)
    requires |problems| == |cases| && forall i :: 0 <= i < |cases| ==> problems[i] == UnexpectedCase(cases[i])
    ensures p in problems <==> p.UnexpectedCase? && p.at in cases
  {
    if p.UnexpectedCase? && p.at in cases {
      var i :| 0 <= i < |cases| && cases[i] == p.at;
      assert problems[i] == p;
    }
  }

  lemma CoverageAdd(plan: Plan, report: Report, p: Problem)
    ensures p in CoverageProblems(plan, RequiredChecks(plan, report).observed) <==> CoverageAdds(plan, report, p)
  {
    InCoverage(plan, RequiredChecks(plan, report).observed, p);
    if p.MissingCase? || p.UnexpectedCase? { ObservedRead(plan, report, p.at); }
  }

  lemma InTotals(report: Report, read: Reading, p: Problem)
    ensures var t := TallyOf(read);
      p in TotalsProblems(report, read) <==>
      || (p == InconsistentTotals && !SummaryAgrees(report, t))
      || (p == InconsistentSuccess && !SuccessAgrees(report, t))
  {
    AgreesIff(report, read);
  }

  lemma TotalsAdd(plan: Plan, report: Report, read: Reading, p: Problem)
    requires var r := RequiredChecks(plan, report); read.observed == r.observed && read.checks == r.checks
    ensures p in TotalsProblems(report, read) <==> TotalsAdds(plan, report, p)
  {
    TallyIs(plan, report, read);
    InTotals(report, read, p);
    TotalsAddsIff(plan, report, TallyOf(read), p);
  }

  lemma TotalsAddsIff(plan: Plan, report: Report, t: Tally, p: Problem)
    requires IsTally(plan, report, t)
    ensures TotalsAdds(plan, report, p) <==>
      || (p == InconsistentTotals && !SummaryAgrees(report, t))
      || (p == InconsistentSuccess && !SuccessAgrees(report, t))
  {
    forall u | IsTally(plan, report, u) ensures u == t { TallyUnique(plan, report, t, u); }
  }

  lemma InJoined<T>(a: seq<T>, b: seq<T>, c: seq<T>, x: T)
    ensures x in a + (b + c) <==> x in a || x in b || x in c
  {
  }

  /** A problem is reported exactly when the raw report has it. */
  lemma ProblemReportedIff(plan: Plan, report: Report, p: Problem)
    ensures p in RequiredChecks(plan, report).problems <==>
      || HeaderAdds(plan, report, p) || BodyAdds(plan, report, p)
      || CoverageAdds(plan, report, p) || TotalsAdds(plan, report, p)
  {
    var read := ReadBody(plan, report);
    InJoined(read.problems, CoverageProblems(plan, read.observed), TotalsProblems(report, read), p);
    BodyAdd(plan, report, p);
    CoverageAdd(plan, report, p);
    TotalsAdd(plan, report, read, p);
  }
}
