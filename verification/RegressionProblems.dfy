/** Which problems the compliance validator reports, each with what it means in the raw report. */
module RegressionProblems {
  import opened Wrappers
  import opened Sorting
  import opened RegressionReports
  import opened RegressionFacts
  import opened RegressionRaw
  import opened RegressionValidity

  // ----- One case

  /** A sorted list of exactly the scenarios that satisfy a condition, at least one. */
  ghost predicate ListsScenarios(list: seq<string>, condition: string -> bool) {
    list != [] && Sorted(list, StringLe) && NoDuplicates(list) && forall s :: s in list <==> condition(s)
  }

  ghost predicate ScenarioProblem(suite: Suite, side: Side, mode: string, observed: string -> bool, p: Problem) {
    match p
    case Unobserved(x, m, list) =>
      x == side && m == mode && ListsScenarios(list, s => s in suite.Scenarios(mode) && !observed(s))
    case Unexpected(x, m, list) =>
      x == side && m == mode && ListsScenarios(list, s => s !in suite.Scenarios(mode) && observed(s))
    case _ => false
  }

  lemma ListsUnique(a: seq<string>, b: seq<string>, condition: string -> bool)
    requires ListsScenarios(a, condition) && ListsScenarios(b, condition)
    ensures a == b
  {
    StringOrder();
    SortedSetUnique(a, b, StringLe);
  }

  ghost function InOrder(names: set<string>): seq<string> {
    StringOrder();
    SortSet(names, StringLe)
  }

  lemma SortedLists(names: set<string>, condition: string -> bool, list: seq<string>)
    requires forall s :: s in names <==> condition(s)
    ensures ListsScenarios(list, condition) <==> names != {} && list == InOrder(names)
  {
    StringOrder();
    var sorted := InOrder(names);
    assert names != {} ==> sorted != [] by { if s :| s in names { assert s in sorted; } }
    if names != {} {
      assert ListsScenarios(sorted, condition);
      if ListsScenarios(list, condition) { ListsUnique(list, sorted, condition); }
    }
    assert list != [] ==> list[0] in list;
  }

  lemma InAppend(a: seq<Problem>, b: seq<Problem>, p: Problem)
    ensures p in a + b <==> p in a || p in b
  {
  }

  lemma UnobservedReported(
    suite: Suite, side: Side, mode: string, missing: set<string>, observed: string -> bool, p: Problem)
    requires forall s :: s in missing <==> s in suite.Scenarios(mode) && !observed(s)
    ensures p in If(missing != {}, Unobserved(side, mode, InOrder(missing)))
      <==> p.Unobserved? && ScenarioProblem(suite, side, mode, observed, p)
  {
    StringOrder();
    if p.Unobserved? { SortedLists(missing, s => s in suite.Scenarios(mode) && !observed(s), p.scenarios); }
  }

  lemma UnexpectedReported(
    suite: Suite, side: Side, mode: string, extra: set<string>, observed: string -> bool, p: Problem)
    requires forall s :: s in extra <==> s !in suite.Scenarios(mode) && observed(s)
    ensures p in If(extra != {}, Unexpected(side, mode, InOrder(extra)))
      <==> p.Unexpected? && ScenarioProblem(suite, side, mode, observed, p)
  {
    StringOrder();
    if p.Unexpected? { SortedLists(extra, s => s !in suite.Scenarios(mode) && observed(s), p.scenarios); }
  }

  lemma ScenariosReported(
    suite: Suite, side: Side, mode: string, names: set<string>, observed: string -> bool, p: Problem)
    requires forall s :: s in names <==> observed(s)
    ensures p in ScenarioProblems(suite, side, mode, names) <==> ScenarioProblem(suite, side, mode, observed, p)
  {
    StringOrder();
    var expected := Elements(suite.Scenarios(mode));
    UnobservedReported(suite, side, mode, expected - names, observed, p);
    UnexpectedReported(suite, side, mode, names - expected, observed, p);
    InAppend(If(expected - names != {}, Unobserved(side, mode, InOrder(expected - names))),
             If(names - expected != {}, Unexpected(side, mode, InOrder(names - expected))), p);
  }

  lemma CheckReported(
    side: Side, mode: string, transport: string, acc: CaseReading, raw: Option<RawCheck>, p: Problem)
    ensures p in CheckStep(side, mode, transport, acc, raw).problems
       <==> p in acc.problems || (p == MalformedCheck(side, transport, mode) && !RawValid(raw))
  {
    CheckStepProblems(side, mode, transport, acc, raw);
    InAppend(acc.problems, if RawValid(raw) then [] else [MalformedCheck(side, transport, mode)], p);
  }

  /** Some check among the first `n` is malformed. */
  ghost predicate SomeInvalid(raws: seq<Option<RawCheck>>, n: nat)
    requires n <= |raws|
  {
    n > 0 && (SomeInvalid(raws, n - 1) || !RawValid(raws[n-1]))
  }

  lemma {:induction false} SomeInvalidIff(raws: seq<Option<RawCheck>>, n: nat)
    requires n <= |raws|
    ensures SomeInvalid(raws, n) <==> !AllValid(raws, n)
  {
    if n > 0 { SomeInvalidIff(raws, n - 1); }
  }

  lemma {:induction false} ChecksReportedBy(
    side: Side, mode: string, transport: string, raws: seq<Option<RawCheck>>, n: nat, start: Reading, p: Problem)
    requires n <= |raws|
    ensures p in ReadChecks(side, mode, transport, raws, n, start).problems
       <==> p in start.problems || (p == MalformedCheck(side, transport, mode) && SomeInvalid(raws, n))
  {
    if n > 0 {
      ChecksReportedBy(side, mode, transport, raws, n - 1, start, p);
      CheckReported(side, mode, transport, ReadChecks(side, mode, transport, raws, n - 1, start), raws[n-1], p);
    }
  }

  lemma ChecksReported(
    side: Side, mode: string, transport: string, raws: seq<Option<RawCheck>>, n: nat, start: Reading, p: Problem)
    requires n <= |raws|
    ensures p in ReadChecks(side, mode, transport, raws, n, start).problems
       <==> p in start.problems || (p == MalformedCheck(side, transport, mode) && !AllValid(raws, n))
  {
    ChecksReportedBy(side, mode, transport, raws, n, start, p);
    SomeInvalidIff(raws, n);
  }

  ghost function Observing(raws: seq<Option<RawCheck>>): string -> bool { s => Observes(raws, |raws|, s) }

  /** What can be wrong with a required case, given whether it is there and its checks. */
  ghost predicate CaseProblem(
    suite: Suite, side: Side, there: bool, raws: seq<Option<RawCheck>>, mode: string, transport: string, p: Problem)
  {
    if !there then p == MissingCase(side, transport, mode)
    else if raws == [] then p == NoChecks(side, transport, mode)
    else
      || (p == MalformedCheck(side, transport, mode) && !AllValid(raws, |raws|))
      || (transport == HTTP && ScenarioProblem(suite, side, mode, Observing(raws), p))
  }

  lemma CaseReported(
    suite: Suite, side: Side, cases: CaseMap, mode: string, transport: string, start: Reading, p: Problem)
    ensures p in ReadCase(suite, side, cases, mode, transport, start).problems
       <==> p in start.problems
            || CaseProblem(
                 suite, side, (mode, transport) in cases, ChecksOf(cases, mode, transport), mode, transport, p)
  {
    var raws := ChecksOf(cases, mode, transport);
    if raws != [] {
      ChecksReported(side, mode, transport, raws, |raws|, start, p);
      if transport == HTTP {
        var names := ReadChecks(side, mode, HTTP, raws, |raws|, start).observed;
        forall s ensures s in names <==> Observing(raws)(s) { ChecksObserved(side, mode, raws, |raws|, start, s); }
        ScenariosReported(suite, side, mode, names, Observing(raws), p);
      }
    }
  }

  // ----- All modes

  ghost predicate ModeProblem(suite: Suite, report: Report, side: Side, cases: CaseMap, mode: string, p: Problem) {
    || (p == IncompleteCatalog(side, mode) && !CatalogValid(suite, report, mode))
    || CaseProblem(suite, side, (mode, STDIO) in cases, ChecksOf(cases, mode, STDIO), mode, STDIO, p)
    || CaseProblem(suite, side, (mode, HTTP) in cases, ChecksOf(cases, mode, HTTP), mode, HTTP, p)
  }

  lemma ModeReported(
    suite: Suite, report: Report, side: Side, cases: CaseMap, mode: string, start: Reading, p: Problem)
    ensures p in ReadMode(suite, report, side, cases, mode, start).problems
       <==> p in start.problems || ModeProblem(suite, report, side, cases, mode, p)
  {
    var catalog := start.(problems := start.problems + CatalogProblems(suite, report, side, mode));
    CaseReported(suite, side, cases, mode, STDIO, catalog, p);
    CaseReported(suite, side, cases, mode, HTTP, ReadCase(suite, side, cases, mode, STDIO, catalog), p);
  }

  lemma {:induction false} ModesReported(
    suite: Suite, report: Report, side: Side, cases: CaseMap, n: nat, start: seq<Problem>, p: Problem)
    requires n <= |MODES|
    ensures p in ReadModes(suite, report, side, cases, n, start).problems
       <==> p in start || exists m :: 0 <= m < n && ModeProblem(suite, report, side, cases, MODES[m], p)
  {
    if n > 0 {
      ModesReported(suite, report, side, cases, n - 1, start, p);
      ModeReported(suite, report, side, cases, MODES[n-1], ReadModes(suite, report, side, cases, n - 1, start), p);
    }
  }

  // ----- The list of cases

  /** What can be wrong with the entries of the case list. */
  ghost predicate ListProblem(side: Side, list: seq<Option<RawCase>>, n: nat, p: Problem)
    requires n <= |list|
  {
    match p
    case MalformedCase(x) => x == side && exists i :: 0 <= i < n && list[i].None?
    case MalformedRequiredCase(x) => x == side && exists i :: 0 <= i < n && list[i].Some? && !EntryValid(list[i])
    case DuplicateCase(x, transport, mode) => x == side && Repeated(list, n, (mode, transport))
    case _ => false
  }

  ghost predicate Repeated(list: seq<Option<RawCase>>, n: nat, key: (string, string))
    requires n <= |list|
  {
    exists i, j :: 0 <= i < j < n && CaseKey(list[i]) == Some(key) && CaseKey(list[j]) == Some(key)
  }

  lemma RepeatedStep(list: seq<Option<RawCase>>, n: nat, key: (string, string))
    requires 0 < n <= |list|
    ensures Repeated(list, n, key)
       <==> Repeated(list, n - 1, key) || (CaseKey(list[n-1]) == Some(key) && FirstCase(list, n - 1, key) < n - 1)
  {
    if CaseKey(list[n-1]) == Some(key) && FirstCase(list, n - 1, key) < n - 1 {
      assert CaseKey(list[FirstCase(list, n - 1, key)]) == Some(key);
    }
  }

  ghost predicate EntryProblem(side: Side, list: seq<Option<RawCase>>, n: nat, p: Problem)
    requires 0 < n <= |list|
  {
    || (p == MalformedCase(side) && list[n-1].None?)
    || (p == MalformedRequiredCase(side) && list[n-1].Some? && !EntryValid(list[n-1]))
    || (p.DuplicateCase? && p.side == side && CaseKey(list[n-1]) == Some((p.mode, p.transport))
        && FirstCase(list, n - 1, (p.mode, p.transport)) < n - 1)
  }

  lemma ListProblemStep(side: Side, list: seq<Option<RawCase>>, n: nat, p: Problem)
    requires 0 < n <= |list|
    ensures ListProblem(side, list, n, p) <==> ListProblem(side, list, n - 1, p) || EntryProblem(side, list, n, p)
  {
    if p.DuplicateCase? { RepeatedStep(list, n, (p.mode, p.transport)); }
  }

  lemma {:induction false} ListReported(side: Side, list: seq<Option<RawCase>>, n: nat, start: seq<Problem>, p: Problem)
    requires n <= |list|
    ensures p in CollectCases(side, list, n, start).problems <==> p in start || ListProblem(side, list, n, p)
  {
    if n > 0 {
      ListReported(side, list, n - 1, start, p);
      var key := CaseKey(list[n-1]);
      if key.Some? { CollectedFirst(side, list, n - 1, start, key.value); }
      ListProblemStep(side, list, n, p);
      EntryReported(side, list, n, CollectCases(side, list, n - 1, start), p);
    }
  }

  lemma EntryReported(side: Side, list: seq<Option<RawCase>>, n: nat, acc: Cases, p: Problem)
    requires 0 < n <= |list|
    requires CaseKey(list[n-1]).Some? ==> Collects(list, n - 1, acc.byKey, CaseKey(list[n-1]).value)
    ensures p in CaseStep(side, acc, list[n-1]).problems <==> p in acc.problems || EntryProblem(side, list, n, p)
  {
  }

  // ----- Records

  ghost predicate RecordProblem(side: Side, bucket: Status, records: seq<Option<RawRecord>>, n: nat, p: Problem)
    requires n <= |records|
  {
    || (p == MalformedRecord(side, bucket) && exists k :: 0 <= k < n && !RecordValid(records[k]))
    || (p == DuplicateRecord(side, bucket) && RecordRepeated(records, n))
  }

  ghost predicate RecordRepeated(records: seq<Option<RawRecord>>, n: nat)
    requires n <= |records|
  {
    exists j, k :: 0 <= j < k < n && RecordValid(records[k]) && records[j] == records[k]
  }

  lemma RecordRepeatedStep(records: seq<Option<RawRecord>>, n: nat)
    requires 0 < n <= |records|
    ensures var read := ReadRecord(records[n-1]);
      RecordRepeated(records, n)
      <==> RecordRepeated(records, n - 1) || (read.Some? && read.value in Seen(records, n - 1))
  {
    var read := ReadRecord(records[n-1]);
    RecordValidIff(records[n-1]);
    if read.Some? {
      SeenIsRecorded(records, n - 1, read.value);
      ReadRecordIff(records[n-1], read.value);
      assert read.value in Seen(records, n - 1) <==> exists j :: 0 <= j < n - 1 && records[j] == records[n-1];
    }
  }

  lemma {:induction false} RecordsReported(
    side: Side, bucket: Status, records: seq<Option<RawRecord>>, n: nat, start: Reading, p: Problem)
    requires n <= |records|
    ensures p in ReadRecords(side, bucket, records, n, start).problems
       <==> p in start.problems || RecordProblem(side, bucket, records, n, p)
  {
    if n > 0 {
      RecordsReported(side, bucket, records, n - 1, start, p);
      RecordValidIff(records[n-1]);
      RecordRepeatedStep(records, n);
    }
  }

  ghost predicate BucketProblem(side: Side, bucket: Status, records: Option<seq<Option<RawRecord>>>, p: Problem) {
    if records.None? then p == NoBucket(side, bucket)
    else RecordProblem(side, bucket, records.value, |records.value|, p)
  }

  lemma BucketReported(side: Side, bucket: Status, records: Option<seq<Option<RawRecord>>>, start: Reading, p: Problem)
    ensures p in ReadBucket(side, bucket, records, start).problems
       <==> p in start.problems || BucketProblem(side, bucket, records, p)
  {
    if records.Some? { RecordsReported(side, bucket, records.value, |records.value|, start, p); }
  }

  // ----- Compact modes

  ghost function Recording(report: Report, mode: string): string -> bool { s => RecordsScenario(report, mode, s) }

  ghost predicate CompactModeProblem(suite: Suite, report: Report, side: Side, mode: string, p: Problem) {
    || (p == IncompleteCatalog(side, mode) && !CatalogValid(suite, report, mode))
    || (p == MissingCase(side, STDIO, mode) && !RecordsCase(report, mode, STDIO))
    || (p == MissingCase(side, HTTP, mode) && !RecordsCase(report, mode, HTTP))
    || ScenarioProblem(suite, side, mode, Recording(report, mode), p)
  }

  lemma CompactModeReported(suite: Suite, report: Report, side: Side, checks: Checks, mode: string, p: Problem)
    requires ReadsRecords(report, checks)
    ensures p in CompactModeProblems(suite, report, side, checks, mode)
       <==> CompactModeProblem(suite, report, side, mode, p)
  {
    CaseRecordedIff(report, checks, mode, STDIO);
    CaseRecordedIff(report, checks, mode, HTTP);
    var names := ObservedScenarios(checks, mode);
    forall s ensures s in names <==> Recording(report, mode)(s) { ScenarioRecordedIff(report, checks, mode, s); }
    ScenariosReported(suite, side, mode, names, Recording(report, mode), p);
  }

  lemma CompactModesStep(suite: Suite, report: Report, side: Side, checks: Checks, n: nat, p: Problem)
    requires 0 < n <= |MODES|
    ensures p in CompactModesProblems(suite, report, side, checks, n)
       <==> p in CompactModesProblems(suite, report, side, checks, n - 1)
            || p in CompactModeProblems(suite, report, side, checks, MODES[n-1])
  {
    InAppend(CompactModesProblems(suite, report, side, checks, n - 1),
             CompactModeProblems(suite, report, side, checks, MODES[n-1]), p);
  }

  ghost predicate SomeMode(has: string -> bool, n: nat)
    requires n <= |MODES|
  {
    n > 0 && (SomeMode(has, n - 1) || has(MODES[n-1]))
  }

  lemma SomeModeIff(has: string -> bool)
    ensures SomeMode(has, |MODES|) <==> exists mode :: mode in MODES && has(mode)
  {
    assert MODES[0] in MODES && MODES[1] in MODES && MODES[2] in MODES;
    assert SomeMode(has, 1) <==> has(MODES[0]);
    assert SomeMode(has, 2) <==> SomeMode(has, 1) || has(MODES[1]);
  }

  ghost function Has(suite: Suite, report: Report, side: Side, p: Problem): string -> bool {
    mode => CompactModeProblem(suite, report, side, mode, p)
  }

  lemma NoCompactModes(suite: Suite, report: Report, side: Side, checks: Checks)
    ensures CompactModesProblems(suite, report, side, checks, 0) == []
  {
  }

  lemma {:induction false} CompactModesReported(
    suite: Suite, report: Report, side: Side, checks: Checks, n: nat, p: Problem)
    requires n <= |MODES| && ReadsRecords(report, checks)
    ensures p in CompactModesProblems(suite, report, side, checks, n) <==> SomeMode(Has(suite, report, side, p), n)
  {
    if n == 0 {
      NoCompactModes(suite, report, side, checks);
    } else {
      CompactModesReported(suite, report, side, checks, n - 1, p);
      CompactModesStep(suite, report, side, checks, n, p);
      CompactModeReported(suite, report, side, checks, MODES[n-1], p);
    }
  }

  // ----- The whole report

  ghost predicate HeaderProblem(suite: Suite, report: Report, side: Side, p: Problem) {
    match p
    case WrongSchema(x) => x == side && report.schemaVersion != Some(SCHEMA_VERSION)
    case NoVersionCheck(x) => x == side && report.versionCheck != Some(true)
    case ModernFeatureOff(x) => x == side && report.modernFeature != Some(true)
    case NoOfficialMetadata(x) => x == side && report.official.None?
    case OtherRepository(x) =>
      x == side && report.official.Some? && report.official.value.repository != Some(suite.repository)
    case OtherRevision(x) => x == side && report.official.Some? && report.official.value.gitRef != Some(suite.gitRef)
    case NoOAuthScenarios(x) =>
      x == side && report.official.Some? && report.official.value.authenticationIncluded != Some(true)
    case NoCatalog(x) => x == side && report.official.Some? && report.official.value.scenarios.None?
    case _ => false
  }

  lemma OfficialReported(suite: Suite, official: Official, side: Side, p: Problem)
    ensures p in OfficialProblems(suite, official, side) <==>
      || (p == OtherRepository(side) && official.repository != Some(suite.repository))
      || (p == OtherRevision(side) && official.gitRef != Some(suite.gitRef))
      || (p == NoOAuthScenarios(side) && official.authenticationIncluded != Some(true))
      || (p == NoCatalog(side) && official.scenarios.None?)
  {
  }

  lemma HeaderReported(suite: Suite, report: Report, side: Side, p: Problem)
    ensures p in HeaderProblems(suite, report, side) <==> HeaderProblem(suite, report, side, p)
  {
    if report.official.Some? { OfficialReported(suite, report.official.value, side, p); }
  }

  /** What can be wrong with the body of a full report. */
  ghost predicate FullProblem(suite: Suite, report: Report, side: Side, p: Problem) {
    var list := CaseList(report);
    || (p == NoCases(side) && report.body.Full? && report.body.cases.None?)
    || ListProblem(side, list, |list|, p)
    || exists mode :: mode in MODES && RawModeProblem(suite, report, side, list, mode, p)
  }

  ghost predicate RawModeProblem(
    suite: Suite, report: Report, side: Side, list: seq<Option<RawCase>>, mode: string, p: Problem)
  {
    || (p == IncompleteCatalog(side, mode) && !CatalogValid(suite, report, mode))
    || CaseProblem(suite, side, Listed(list, mode, STDIO), RequiredRaws(list, mode, STDIO), mode, STDIO, p)
    || CaseProblem(suite, side, Listed(list, mode, HTTP), RequiredRaws(list, mode, HTTP), mode, HTTP, p)
  }

  ghost predicate Listed(list: seq<Option<RawCase>>, mode: string, transport: string) {
    exists i :: 0 <= i < |list| && CaseKey(list[i]) == Some((mode, transport))
  }

  lemma ListedIff(side: Side, list: seq<Option<RawCase>>, start: seq<Problem>, mode: string, transport: string)
    ensures (mode, transport) in CollectCases(side, list, |list|, start).byKey <==> Listed(list, mode, transport)
  {
    CollectedFirst(side, list, |list|, start, (mode, transport));
    var first := FirstCase(list, |list|, (mode, transport));
    if first < |list| { assert CaseKey(list[first]) == Some((mode, transport)); }
  }

  lemma RawModeReported(
    suite: Suite, report: Report, side: Side, list: seq<Option<RawCase>>, start: seq<Problem>, mode: string, p: Problem)
    ensures ModeProblem(suite, report, side, CollectCases(side, list, |list|, start).byKey, mode, p)
       <==> RawModeProblem(suite, report, side, list, mode, p)
  {
    ChecksOfCollected(side, list, start, mode, STDIO);
    ChecksOfCollected(side, list, start, mode, HTTP);
    ListedIff(side, list, start, mode, STDIO);
    ListedIff(side, list, start, mode, HTTP);
  }

  lemma FullReported(suite: Suite, report: Report, side: Side, start: seq<Problem>, p: Problem)
    requires report.body.Full?
    ensures p in ReadFull(suite, report, side, start).problems <==> p in start || FullProblem(suite, report, side, p)
  {
    var list, start' := CaseList(report), start + If(report.body.cases.None?, NoCases(side));
    var cases := CollectCases(side, list, |list|, start');
    ListReported(side, list, |list|, start', p);
    ModesReported(suite, report, side, cases.byKey, |MODES|, cases.problems, p);
    forall m | 0 <= m < |MODES|
      ensures ModeProblem(suite, report, side, cases.byKey, MODES[m], p)
         <==> MODES[m] in MODES && RawModeProblem(suite, report, side, list, MODES[m], p)
    {
      RawModeReported(suite, report, side, list, start', MODES[m], p);
    }
  }

  /** What can be wrong with the body of a compact report. */
  ghost predicate CompactProblem(suite: Suite, report: Report, side: Side, p: Problem)
    requires report.body.Compacted?
  {
    var body := report.body;
    if body.kind != COMPACT_KIND then p == UnsupportedKind(side)
    else
      || (p == WrongRequiredModes(side) && body.requiredModes != Some(MODES))
      || (p == WrongTransports(side) && !BothTransports(body.transports))
      || if body.checks.None? then p == NoIdentities(side)
         else
           || BucketProblem(side, Pass, body.checks.value.passing, p)
           || BucketProblem(side, Fail, body.checks.value.failing, p)
           || exists mode :: mode in MODES && CompactModeProblem(suite, report, side, mode, p)
  }

  lemma BodyReported(body: Body, side: Side, start: seq<Problem>, p: Problem)
    requires body.Compacted?
    ensures p in BodyProblems(body, side, start) <==>
      || p in start
      || (p == WrongRequiredModes(side) && body.requiredModes != Some(MODES))
      || (p == WrongTransports(side) && !BothTransports(body.transports))
  {
  }

  lemma BucketsReported(side: Side, buckets: Buckets, start: Reading, p: Problem)
    ensures p in ReadBuckets(side, buckets, start).problems <==>
      || p in start.problems
      || BucketProblem(side, Pass, buckets.passing, p)
      || BucketProblem(side, Fail, buckets.failing, p)
  {
    BucketReported(side, Pass, buckets.passing, start, p);
    BucketReported(side, Fail, buckets.failing, ReadBucket(side, Pass, buckets.passing, start), p);
  }

  lemma EveryCompactMode(suite: Suite, report: Report, side: Side, checks: Checks, p: Problem)
    requires ReadsRecords(report, checks)
    ensures p in CompactModesProblems(suite, report, side, checks, |MODES|)
       <==> exists mode :: mode in MODES && CompactModeProblem(suite, report, side, mode, p)
  {
    CompactModesReported(suite, report, side, checks, |MODES|, p);
    SomeModeIff(Has(suite, report, side, p));
    if mode :| mode in MODES && CompactModeProblem(suite, report, side, mode, p) {
      assert Has(suite, report, side, p)(mode);
    }
  }

  lemma CompactReported(suite: Suite, report: Report, side: Side, start: seq<Problem>, p: Problem)
    requires report.body.Compacted? && WellFormed(ReadCompacted(suite, report, side, start).checks)
    ensures p in ReadCompacted(suite, report, side, start).problems
       <==> p in start || CompactProblem(suite, report, side, p)
  {
    var body := report.body;
    BodyReported(body, side, start, p);
    if body.kind == COMPACT_KIND && body.checks.Some? {
      var first := Reading(map[], BodyProblems(body, side, start));
      var both := ReadBuckets(side, body.checks.value, first);
      BucketsReported(side, body.checks.value, first, p);
      ReadsTheRecords(suite, report, side, start);
      EveryCompactMode(suite, report, side, both.checks, p);
      InAppend(both.problems, CompactModesProblems(suite, report, side, both.checks, |MODES|), p);
    }
  }

  /** A problem is reported exactly when the raw report has it. */
  lemma ProblemReportedIff(suite: Suite, report: Report, side: Side, p: Problem)
    ensures p in RequiredChecks(suite, report, side).problems <==>
      || HeaderProblem(suite, report, side, p)
      || if report.body.Full? then FullProblem(suite, report, side, p) else CompactProblem(suite, report, side, p)
  {
    HeaderReported(suite, report, side, p);
    if report.body.Full? {
      FullReported(suite, report, side, HeaderProblems(suite, report, side), p);
    } else {
      ReadingFacts(suite, report, side);
      CompactReported(suite, report, side, HeaderProblems(suite, report, side), p);
    }
  }
}
