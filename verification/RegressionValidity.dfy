/** What the compliance validator reads, and when it finds nothing wrong, told from the raw report alone. */
module RegressionValidity {
  import opened Wrappers
  import opened RegressionReports
  import opened RegressionFacts
  import opened RegressionRaw

  ghost predicate HasStatus(checks: Checks, id: Identity, s: Status) {
    id in checks && s in checks[id]
  }

  lemma AddedStatus(checks: Checks, id: Identity, status: Status, other: Identity, s: Status)
    ensures HasStatus(AddStatus(checks, id, status), other, s)
      <==> HasStatus(checks, other, s) || (other == id && s == status)
  {
  }

  // ----- The checks of one case

  /** Some raw check among the first `n` has this identity and status. */
  ghost predicate ReadsAs(mode: string, transport: string, raws: seq<Option<RawCheck>>, n: nat, id: Identity, s: Status)
    requires n <= |raws|
  {
    exists k :: 0 <= k < n && RawReads(mode, transport, raws[k], id, s)
  }

  ghost predicate AllValid(raws: seq<Option<RawCheck>>, n: nat)
    requires n <= |raws|
  {
    forall k :: 0 <= k < n ==> RawValid(raws[k])
  }

  /** Some raw check among the first `n` observes this scenario of the suite. */
  ghost predicate Observes(raws: seq<Option<RawCheck>>, n: nat, scenario: string)
    requires n <= |raws|
  {
    exists k :: 0 <= k < n && ObservesAt(raws[k], scenario)
  }

  ghost predicate ObservesAt(raw: Option<RawCheck>, scenario: string) {
    RawValid(raw) && IsSuiteSource(raw.value.source.value) && raw.value.scenario == Written(scenario)
  }

  lemma ReadsAsStep(mode: string, transport: string, raws: seq<Option<RawCheck>>, n: nat, id: Identity, s: Status)
    requires 0 < n <= |raws|
    ensures ReadsAs(mode, transport, raws, n, id, s)
       <==> ReadsAs(mode, transport, raws, n - 1, id, s) || RawReads(mode, transport, raws[n-1], id, s)
  {
  }

  lemma CheckStepStatus(
    side: Side, mode: string, transport: string, acc: CaseReading, raw: Option<RawCheck>, id: Identity, s: Status)
    ensures HasStatus(CheckStep(side, mode, transport, acc, raw).checks, id, s)
       <==> HasStatus(acc.checks, id, s) || RawReads(mode, transport, raw, id, s)
  {
    var read := ReadCheck(mode, transport, raw);
    ReadCheckIff(mode, transport, raw, id, s);
    if read.Some? { AddedStatus(acc.checks, read.value.0, read.value.1, id, s); }
  }

  lemma {:induction false} ChecksStatuses(
    side: Side, mode: string, transport: string, raws: seq<Option<RawCheck>>, n: nat, start: Reading,
    id: Identity, s: Status)
    requires n <= |raws|
    ensures HasStatus(ReadChecks(side, mode, transport, raws, n, start).checks, id, s)
       <==> HasStatus(start.checks, id, s) || ReadsAs(mode, transport, raws, n, id, s)
  {
    if n > 0 {
      ChecksStatuses(side, mode, transport, raws, n - 1, start, id, s);
      ReadsAsStep(mode, transport, raws, n, id, s);
      CheckStepStatus(side, mode, transport, ReadChecks(side, mode, transport, raws, n - 1, start), raws[n-1], id, s);
    }
  }

  lemma CheckStepProblems(side: Side, mode: string, transport: string, acc: CaseReading, raw: Option<RawCheck>)
    ensures var next := CheckStep(side, mode, transport, acc, raw);
      next.problems == acc.problems + if RawValid(raw) then [] else [MalformedCheck(side, transport, mode)]
  {
    RawValidIff(mode, transport, raw);
  }

  lemma {:induction false} ChecksProblems(
    side: Side, mode: string, transport: string, raws: seq<Option<RawCheck>>, n: nat, start: Reading)
    requires n <= |raws|
    ensures var read := ReadChecks(side, mode, transport, raws, n, start);
      start.problems <= read.problems && (read.problems == start.problems <==> AllValid(raws, n))
  {
    if n > 0 {
      ChecksProblems(side, mode, transport, raws, n - 1, start);
      CheckStepProblems(side, mode, transport, ReadChecks(side, mode, transport, raws, n - 1, start), raws[n-1]);
    }
  }

  lemma ObservedIff(mode: string, raw: Option<RawCheck>, scenario: string)
    ensures var read := ReadCheck(mode, HTTP, raw);
      ObservesAt(raw, scenario) <==> read.Some? && FromSuite(read.value.0.source) && read.value.0.scenario == scenario
  {
    RawValidIff(mode, HTTP, raw);
    var read := ReadCheck(mode, HTTP, raw);
    if read.Some? {
      SourcesAgree(read.value.0.source);
      ReadCheckIff(mode, HTTP, raw, read.value.0, read.value.1);
    }
  }

  lemma {:induction false} ChecksObserved(
    side: Side, mode: string, raws: seq<Option<RawCheck>>, n: nat, start: Reading, scenario: string)
    requires n <= |raws|
    ensures scenario in ReadChecks(side, mode, HTTP, raws, n, start).observed <==> Observes(raws, n, scenario)
  {
    if n > 0 {
      ChecksObserved(side, mode, raws, n - 1, start, scenario);
      ObservedIff(mode, raws[n-1], scenario);
      assert Observes(raws, n, scenario) <==> Observes(raws, n - 1, scenario) || ObservesAt(raws[n-1], scenario);
    }
  }

  // ----- One case

  type CaseMap = map<(string, string), RawCase>

  function ChecksOf(cases: CaseMap, mode: string, transport: string): seq<Option<RawCheck>> {
    if (mode, transport) in cases && cases[(mode, transport)].checks.Some? then cases[(mode, transport)].checks.value
      else []
  }

  /** The case has checks, all of them well formed, observing exactly the scenarios of its mode. */
  ghost predicate CaseValid(suite: Suite, raws: seq<Option<RawCheck>>, mode: string, transport: string) {
    && raws != [] && AllValid(raws, |raws|)
    && (transport == HTTP ==>
          forall scenario :: scenario in suite.Scenarios(mode) <==> Observes(raws, |raws|, scenario))
  }

  lemma CaseStatuses(
    suite: Suite, side: Side, cases: CaseMap, mode: string, transport: string, start: Reading, id: Identity, s: Status)
    ensures var raws := ChecksOf(cases, mode, transport);
      HasStatus(ReadCase(suite, side, cases, mode, transport, start).checks, id, s)
      <==> HasStatus(start.checks, id, s) || ReadsAs(mode, transport, raws, |raws|, id, s)
  {
    var raws := ChecksOf(cases, mode, transport);
    if raws != [] { ChecksStatuses(side, mode, transport, raws, |raws|, start, id, s); }
  }

  lemma ObservedExactly(suite: Suite, side: Side, mode: string, raws: seq<Option<RawCheck>>, start: Reading)
    ensures ScenarioProblems(suite, side, mode, ReadChecks(side, mode, HTTP, raws, |raws|, start).observed) == []
       <==> forall scenario :: scenario in suite.Scenarios(mode) <==> Observes(raws, |raws|, scenario)
  {
    var observed := ReadChecks(side, mode, HTTP, raws, |raws|, start).observed;
    ScenarioProblemsEmpty(suite, side, mode, observed);
    forall scenario ensures scenario in observed <==> Observes(raws, |raws|, scenario) {
      ChecksObserved(side, mode, raws, |raws|, start, scenario);
    }
  }

  lemma CaseProblems(suite: Suite, side: Side, cases: CaseMap, mode: string, transport: string, start: Reading)
    ensures var read := ReadCase(suite, side, cases, mode, transport, start);
      && start.problems <= read.problems
      && (read.problems == start.problems <==> CaseValid(suite, ChecksOf(cases, mode, transport), mode, transport))
  {
    var raws := ChecksOf(cases, mode, transport);
    if raws != [] {
      ChecksProblems(side, mode, transport, raws, |raws|, start);
      ObservedExactly(suite, side, mode, raws, start);
    }
  }

  // ----- All modes

  ghost predicate ReadInMode(cases: CaseMap, mode: string, id: Identity, s: Status) {
    var stdio, http := ChecksOf(cases, mode, STDIO), ChecksOf(cases, mode, HTTP);
    ReadsAs(mode, STDIO, stdio, |stdio|, id, s) || ReadsAs(mode, HTTP, http, |http|, id, s)
  }

  lemma ModeStatuses(
    suite: Suite, report: Report, side: Side, cases: CaseMap, mode: string, start: Reading, id: Identity, s: Status)
    ensures HasStatus(ReadMode(suite, report, side, cases, mode, start).checks, id, s)
       <==> HasStatus(start.checks, id, s) || ReadInMode(cases, mode, id, s)
  {
    var catalog := start.(problems := start.problems + CatalogProblems(suite, report, side, mode));
    CaseStatuses(suite, side, cases, mode, STDIO, catalog, id, s);
    CaseStatuses(suite, side, cases, mode, HTTP, ReadCase(suite, side, cases, mode, STDIO, catalog), id, s);
  }

  lemma {:induction false} ModesStatuses(
    suite: Suite, report: Report, side: Side, cases: CaseMap, n: nat, start: seq<Problem>, id: Identity, s: Status)
    requires n <= |MODES|
    ensures HasStatus(ReadModes(suite, report, side, cases, n, start).checks, id, s)
       <==> exists m :: 0 <= m < n && ReadInMode(cases, MODES[m], id, s)
  {
    if n > 0 {
      ModesStatuses(suite, report, side, cases, n - 1, start, id, s);
      ModeStatuses(suite, report, side, cases, MODES[n-1], ReadModes(suite, report, side, cases, n - 1, start), id, s);
    }
  }

  /** A check is read only from the case it names. */
  lemma ReadFromOwnCase(cases: CaseMap, id: Identity, s: Status)
    ensures (exists m :: 0 <= m < |MODES| && ReadInMode(cases, MODES[m], id, s))
       <==> id.mode in MODES && ReadInMode(cases, id.mode, id, s)
  {
    if m :| 0 <= m < |MODES| && ReadInMode(cases, MODES[m], id, s) {
      ReadNamesCase(cases, MODES[m], id, s);
    }
  }

  lemma ReadNamesCase(cases: CaseMap, mode: string, id: Identity, s: Status)
    requires ReadInMode(cases, mode, id, s)
    ensures id.mode == mode
  {
  }

  ghost predicate CatalogValid(suite: Suite, report: Report, mode: string) {
    mode in Selected(report) && Selected(report)[mode] == suite.Scenarios(mode)
  }

  ghost predicate ModeValid(suite: Suite, report: Report, cases: CaseMap, mode: string) {
    && CatalogValid(suite, report, mode)
    && CaseValid(suite, ChecksOf(cases, mode, STDIO), mode, STDIO)
      && CaseValid(suite, ChecksOf(cases, mode, HTTP), mode, HTTP)
  }

  lemma ModeProblems(suite: Suite, report: Report, side: Side, cases: CaseMap, mode: string, start: Reading)
    ensures var read := ReadMode(suite, report, side, cases, mode, start);
      && start.problems <= read.problems
      && (read.problems == start.problems <==> ModeValid(suite, report, cases, mode))
  {
    var catalog := start.(problems := start.problems + CatalogProblems(suite, report, side, mode));
    CaseProblems(suite, side, cases, mode, STDIO, catalog);
    CaseProblems(suite, side, cases, mode, HTTP, ReadCase(suite, side, cases, mode, STDIO, catalog));
  }

  lemma {:induction false} ModesProblems(
    suite: Suite, report: Report, side: Side, cases: CaseMap, n: nat, start: seq<Problem>)
    requires n <= |MODES|
    ensures var read := ReadModes(suite, report, side, cases, n, start);
      && start <= read.problems
      && (read.problems == start <==> forall m :: 0 <= m < n ==> ModeValid(suite, report, cases, MODES[m]))
  {
    if n > 0 {
      ModesProblems(suite, report, side, cases, n - 1, start);
      ModeProblems(suite, report, side, cases, MODES[n-1], ReadModes(suite, report, side, cases, n - 1, start));
    }
  }

  // ----- The list of cases

  /** The required case an entry stands for. */
  function CaseKey(raw: Option<RawCase>): Option<(string, string)> {
    if raw.Some? && raw.value.mode.Some? && raw.value.mode.value in MODES && raw.value.transport.Some?
    then Some((raw.value.mode.value, raw.value.transport.value)) else None
  }

  predicate EntryValid(raw: Option<RawCase>) {
    raw.Some? && (raw.value.mode.Some? && raw.value.mode.value in MODES ==> raw.value.transport.Some?)
  }

  /** Every entry is well formed, and no required case is there twice. */
  ghost predicate ListValid(list: seq<Option<RawCase>>, n: nat)
    requires n <= |list|
  {
    && (forall i :: 0 <= i < n ==> EntryValid(list[i]))
    && (forall i, j :: 0 <= i < j < n && CaseKey(list[j]).Some? ==> CaseKey(list[i]) != CaseKey(list[j]))
  }

  /** The index of the first entry for a case among the first `n`, or `n`. */
  function FirstCase(list: seq<Option<RawCase>>, n: nat, key: (string, string)): (r: nat)
    requires n <= |list|
    ensures r <= n && (r < n ==> CaseKey(list[r]) == Some(key))
    ensures forall i :: 0 <= i < r ==> CaseKey(list[i]) != Some(key)
  {
    if n == 0 then 0
    else
      var before := FirstCase(list, n - 1, key);
      if before < n - 1 || CaseKey(list[n-1]) == Some(key) then before else n
  }

  ghost predicate Collects(list: seq<Option<RawCase>>, n: nat, cases: CaseMap, key: (string, string))
    requires n <= |list|
  {
    var first := FirstCase(list, n, key);
    (key in cases <==> first < n) && (first < n ==> cases[key] == list[first].value)
  }

  lemma {:induction false} CollectedFirst(
    side: Side, list: seq<Option<RawCase>>, n: nat, start: seq<Problem>, key: (string, string))
    requires n <= |list|
    ensures Collects(list, n, CollectCases(side, list, n, start).byKey, key)
  {
    if n > 0 { CollectedFirst(side, list, n - 1, start, key); }
  }

  lemma {:induction false} CollectProblems(side: Side, list: seq<Option<RawCase>>, n: nat, start: seq<Problem>)
    requires n <= |list|
    ensures var read := CollectCases(side, list, n, start);
      start <= read.problems && (read.problems == start <==> ListValid(list, n))
  {
    if n > 0 {
      CollectProblems(side, list, n - 1, start);
      OneMoreEntry(list, n);
      var key := CaseKey(list[n-1]);
      if key.Some? { CollectedFirst(side, list, n - 1, start, key.value); }
    }
  }

  lemma OneMoreEntry(list: seq<Option<RawCase>>, n: nat)
    requires 0 < n <= |list|
    ensures var key := CaseKey(list[n-1]);
      ListValid(list, n)
      <==> ListValid(list, n - 1) && EntryValid(list[n-1]) && (key.Some? ==> FirstCase(list, n - 1, key.value) == n - 1)
  {
  }

  /** The raw checks the validator looks at for a required case: those of its first entry. */
  function RequiredRaws(list: seq<Option<RawCase>>, mode: string, transport: string): seq<Option<RawCheck>> {
    var first := FirstCase(list, |list|, (mode, transport));
    if first < |list| && list[first].value.checks.Some? then list[first].value.checks.value else []
  }

  lemma ChecksOfCollected(side: Side, list: seq<Option<RawCase>>, start: seq<Problem>, mode: string, transport: string)
    ensures ChecksOf(CollectCases(side, list, |list|, start).byKey, mode, transport)
      == RequiredRaws(list, mode, transport)
  {
    CollectedFirst(side, list, |list|, start, (mode, transport));
  }

  // ----- Compact reports

  /** The identity is one of the first `n` records. */
  ghost predicate Recorded(records: seq<Option<RawRecord>>, n: nat, id: Identity)
    requires n <= |records|
  {
    Recordable(id) && RecordOf(id) in records[..n]
  }

  ghost predicate RecordValid(raw: Option<RawRecord>) { exists id :: Recordable(id) && raw == RecordOf(id) }

  /** Every record is that of an identity, and none is there twice. */
  ghost predicate RecordsValid(records: seq<Option<RawRecord>>, n: nat)
    requires n <= |records|
  {
    && (forall k :: 0 <= k < n ==> RecordValid(records[k]))
    && (forall j, k :: 0 <= j < k < n ==> records[j] != records[k])
  }

  lemma RecordValidIff(raw: Option<RawRecord>)
    ensures ReadRecord(raw).Some? <==> RecordValid(raw)
  {
    if ReadRecord(raw).Some? { ReadRecordIff(raw, ReadRecord(raw).value); }
    forall id | Recordable(id) && raw == RecordOf(id) ensures ReadRecord(raw) == Some(id) { ReadRecordIff(raw, id); }
  }

  lemma RecordedStep(records: seq<Option<RawRecord>>, n: nat, id: Identity)
    requires 0 < n <= |records|
    ensures Recorded(records, n, id) <==> Recorded(records, n - 1, id) || ReadRecord(records[n-1]) == Some(id)
  {
    ReadRecordIff(records[n-1], id);
    assert records[..n] == records[..n-1] + [records[n-1]];
  }

  lemma {:induction false} SeenIsRecorded(records: seq<Option<RawRecord>>, n: nat, id: Identity)
    requires n <= |records|
    ensures id in Seen(records, n) <==> Recorded(records, n, id)
  {
    if n > 0 {
      SeenIsRecorded(records, n - 1, id);
      RecordedStep(records, n, id);
    }
  }

  lemma {:induction false} RecordsStatuses(
    side: Side, bucket: Status, records: seq<Option<RawRecord>>, n: nat, start: Reading, id: Identity, s: Status)
    requires n <= |records|
    ensures HasStatus(ReadRecords(side, bucket, records, n, start).checks, id, s)
       <==> HasStatus(start.checks, id, s) || (s == bucket && Recorded(records, n, id))
  {
    if n > 0 {
      RecordsStatuses(side, bucket, records, n - 1, start, id, s);
      RecordedStep(records, n, id);
      SeenIsRecorded(records, n - 1, id);
      var read := ReadRecord(records[n-1]);
      if read.Some? {
        AddedStatus(ReadRecords(side, bucket, records, n - 1, start).checks, read.value, bucket, id, s);
      }
    }
  }

  lemma OneMoreRecord(records: seq<Option<RawRecord>>, n: nat)
    requires 0 < n <= |records|
    ensures var read := ReadRecord(records[n-1]);
      RecordsValid(records, n) <==> RecordsValid(records, n - 1) && read.Some? && read.value !in Seen(records, n - 1)
  {
    var read := ReadRecord(records[n-1]);
    RecordValidIff(records[n-1]);
    if read.Some? {
      SeenIsRecorded(records, n - 1, read.value);
      ReadRecordIff(records[n-1], read.value);
      assert read.value in Seen(records, n - 1) <==> exists j :: 0 <= j < n - 1 && records[j] == records[n-1];
    }
  }

  lemma {:induction false} RecordsProblems(
    side: Side, bucket: Status, records: seq<Option<RawRecord>>, n: nat, start: Reading)
    requires n <= |records|
    ensures var read := ReadRecords(side, bucket, records, n, start);
      start.problems <= read.problems && (read.problems == start.problems <==> RecordsValid(records, n))
  {
    if n > 0 {
      RecordsProblems(side, bucket, records, n - 1, start);
      OneMoreRecord(records, n);
    }
  }

  /** The records of a bucket, none if it is missing. */
  function InBuckets(buckets: Buckets, s: Status): seq<Option<RawRecord>> {
    match s
    case Pass => if buckets.passing.Some? then buckets.passing.value else []
    case Fail => if buckets.failing.Some? then buckets.failing.value else []
    case Skip => []
  }

  function RecordsOf(report: Report, s: Status): seq<Option<RawRecord>> {
    if report.body.Full? || report.body.checks.None? then [] else InBuckets(report.body.checks.value, s)
  }

  ghost predicate RecordedAs(report: Report, id: Identity, s: Status) {
    Recorded(RecordsOf(report, s), |RecordsOf(report, s)|, id)
  }

  lemma BucketStatuses(
    side: Side, bucket: Status, records: Option<seq<Option<RawRecord>>>, start: Reading, id: Identity, s: Status)
    ensures var raws := if records.Some? then records.value else [];
      HasStatus(ReadBucket(side, bucket, records, start).checks, id, s)
      <==> HasStatus(start.checks, id, s) || (s == bucket && Recorded(raws, |raws|, id))
  {
    if records.Some? { RecordsStatuses(side, bucket, records.value, |records.value|, start, id, s); }
  }

  lemma BucketProblems(side: Side, bucket: Status, records: Option<seq<Option<RawRecord>>>, start: Reading)
    ensures var read := ReadBucket(side, bucket, records, start);
      && start.problems <= read.problems
      && (read.problems == start.problems <==> records.Some? && RecordsValid(records.value, |records.value|))
  {
    if records.Some? { RecordsProblems(side, bucket, records.value, |records.value|, start); }
  }

  // ----- What the validator reads

  function CaseList(report: Report): seq<Option<RawCase>> {
    if report.body.Full? && report.body.cases.Some? then report.body.cases.value else []
  }

  /** What the raw report says of a check: in a full report its own case says so, in a compact one a bucket. */
  ghost predicate RawStatus(report: Report, id: Identity, s: Status) {
    if report.body.Full? then
      var raws := RequiredRaws(CaseList(report), id.mode, id.transport);
      id.mode in MODES && id.transport in TRANSPORTS && ReadsAs(id.mode, id.transport, raws, |raws|, id, s)
    else report.body.kind == COMPACT_KIND && RecordedAs(report, id, s)
  }

  lemma FullStatuses(suite: Suite, report: Report, side: Side, start: seq<Problem>, id: Identity, s: Status)
    requires report.body.Full?
    ensures HasStatus(ReadFull(suite, report, side, start).checks, id, s) <==> RawStatus(report, id, s)
  {
    var list, start' := CaseList(report), start + If(report.body.cases.None?, NoCases(side));
    var cases := CollectCases(side, list, |list|, start').byKey;
    ModesStatuses(suite, report, side, cases, |MODES|, CollectCases(side, list, |list|, start').problems, id, s);
    ReadFromOwnCase(cases, id, s);
    ChecksOfCollected(side, list, start', id.mode, STDIO);
    ChecksOfCollected(side, list, start', id.mode, HTTP);
    OwnTransport(list, cases, id, s);
  }

  lemma OwnTransport(list: seq<Option<RawCase>>, cases: CaseMap, id: Identity, s: Status)
    requires ChecksOf(cases, id.mode, STDIO) == RequiredRaws(list, id.mode, STDIO)
    requires ChecksOf(cases, id.mode, HTTP) == RequiredRaws(list, id.mode, HTTP)
    ensures var raws := RequiredRaws(list, id.mode, id.transport);
      ReadInMode(cases, id.mode, id, s)
      <==> id.transport in TRANSPORTS && ReadsAs(id.mode, id.transport, raws, |raws|, id, s)
  {
    assert TRANSPORTS[0] == STDIO && TRANSPORTS[1] == HTTP;
    assert id.transport in TRANSPORTS <==> id.transport == STDIO || id.transport == HTTP;
  }

  lemma BucketsStatuses(side: Side, buckets: Buckets, start: Reading, id: Identity, s: Status)
    requires start.checks == map[]
    ensures HasStatus(ReadBuckets(side, buckets, start).checks, id, s)
      <==> Recorded(InBuckets(buckets, s), |InBuckets(buckets, s)|, id)
  {
    BucketStatuses(side, Pass, buckets.passing, start, id, s);
    BucketStatuses(side, Fail, buckets.failing, ReadBucket(side, Pass, buckets.passing, start), id, s);
  }

  lemma CompactStatuses(suite: Suite, report: Report, side: Side, start: seq<Problem>, id: Identity, s: Status)
    requires report.body.Compacted?
    ensures HasStatus(ReadCompacted(suite, report, side, start).checks, id, s) <==> RawStatus(report, id, s)
  {
    var body := report.body;
    if body.kind == COMPACT_KIND && body.checks.Some? {
      BucketsStatuses(side, body.checks.value, Reading(map[], BodyProblems(body, side, start)), id, s);
    }
  }

  /** A status is read for a check exactly when the raw report gives it that status. */
  lemma StatusReadIff(suite: Suite, report: Report, side: Side, id: Identity, s: Status)
    ensures HasStatus(RequiredChecks(suite, report, side).checks, id, s) <==> RawStatus(report, id, s)
  {
    var header := HeaderProblems(suite, report, side);
    if report.body.Full? {
      FullStatuses(suite, report, side, header, id, s);
    } else {
      CompactStatuses(suite, report, side, header, id, s);
    }
  }

  // ----- When it finds nothing wrong

  ghost predicate HeaderValid(suite: Suite, report: Report) {
    && report.schemaVersion == Some(SCHEMA_VERSION) && report.versionCheck == Some(true)
      && report.modernFeature == Some(true)
    && report.official.Some? && report.official.value.repository == Some(suite.repository)
    && report.official.value.gitRef == Some(suite.gitRef)
    && report.official.value.authenticationIncluded == Some(true) && report.official.value.scenarios.Some?
  }

  lemma NoOfficialProblems(suite: Suite, official: Official, side: Side)
    ensures OfficialProblems(suite, official, side) == [] <==>
      && official.repository == Some(suite.repository) && official.gitRef == Some(suite.gitRef)
      && official.authenticationIncluded == Some(true) && official.scenarios.Some?
  {
  }

  lemma NoHeaderProblems(suite: Suite, report: Report, side: Side)
    ensures HeaderProblems(suite, report, side) == [] <==> HeaderValid(suite, report)
  {
    if report.official.Some? { NoOfficialProblems(suite, report.official.value, side); }
  }

  /** A full report: its cases are well formed and there once each, and every mode has its catalogue and both cases. */
  ghost predicate FullValid(suite: Suite, report: Report) {
    var list := CaseList(report);
    && report.body.Full? && report.body.cases.Some? && ListValid(list, |list|)
    && forall mode :: mode in MODES ==>
         && CatalogValid(suite, report, mode)
         && CaseValid(suite, RequiredRaws(list, mode, STDIO), mode, STDIO)
         && CaseValid(suite, RequiredRaws(list, mode, HTTP), mode, HTTP)
  }

  lemma EveryModeValid(suite: Suite, report: Report, side: Side, list: seq<Option<RawCase>>, start: seq<Problem>)
    ensures var cases := CollectCases(side, list, |list|, start).byKey;
      (forall m :: 0 <= m < |MODES| ==> ModeValid(suite, report, cases, MODES[m]))
      <==> forall mode :: mode in MODES ==>
             && CatalogValid(suite, report, mode)
             && CaseValid(suite, RequiredRaws(list, mode, STDIO), mode, STDIO)
             && CaseValid(suite, RequiredRaws(list, mode, HTTP), mode, HTTP)
  {
    var cases := CollectCases(side, list, |list|, start).byKey;
    forall mode ensures ModeValid(suite, report, cases, mode) <==>
      && CatalogValid(suite, report, mode)
      && CaseValid(suite, RequiredRaws(list, mode, STDIO), mode, STDIO)
      && CaseValid(suite, RequiredRaws(list, mode, HTTP), mode, HTTP)
    {
      ChecksOfCollected(side, list, start, mode, STDIO);
      ChecksOfCollected(side, list, start, mode, HTTP);
    }
  }

  lemma FullProblems(suite: Suite, report: Report, side: Side, start: seq<Problem>)
    requires report.body.Full?
    ensures ReadFull(suite, report, side, start).problems == [] <==> start == [] && FullValid(suite, report)
  {
    var list, start' := CaseList(report), start + If(report.body.cases.None?, NoCases(side));
    CollectProblems(side, list, |list|, start');
    var collected := CollectCases(side, list, |list|, start');
    ModesProblems(suite, report, side, collected.byKey, |MODES|, collected.problems);
    EveryModeValid(suite, report, side, list, start');
  }

  ghost predicate InBucket(
    report: Report, id: Identity) { RecordedAs(report, id, Pass) || RecordedAs(report, id, Fail) }

  /** Some recorded check of this mode and transport. */
  ghost predicate RecordsCase(report: Report, mode: string, transport: string) {
    exists id :: InBucket(report, id) && id.mode == mode && id.transport == transport
  }

  ghost predicate RecordsScenario(report: Report, mode: string, scenario: string) {
    exists id :: InBucket(report, id) && id.mode == mode && id.transport == HTTP && IsSuiteSource(id.source)
      && id.scenario == scenario
  }

  ghost predicate ModeRecorded(suite: Suite, report: Report, mode: string) {
    && CatalogValid(suite, report, mode) && RecordsCase(report, mode, STDIO) && RecordsCase(report, mode, HTTP)
    && forall scenario :: scenario in suite.Scenarios(mode) <==> RecordsScenario(report, mode, scenario)
  }

  ghost predicate BucketsValid(buckets: Buckets) {
    && buckets.passing.Some? && RecordsValid(buckets.passing.value, |buckets.passing.value|)
    && buckets.failing.Some? && RecordsValid(buckets.failing.value, |buckets.failing.value|)
  }

  /** A compact report: of the right kind, its records well formed and there once per bucket, covering every mode. */
  ghost predicate CompactValid(suite: Suite, report: Report) {
    && report.body.Compacted? && report.body.kind == COMPACT_KIND && report.body.requiredModes == Some(MODES)
    && BothTransports(report.body.transports) && report.body.checks.Some? && BucketsValid(report.body.checks.value)
    && forall mode :: mode in MODES ==> ModeRecorded(suite, report, mode)
  }

  /** The checks read are exactly the recorded ones. */
  ghost predicate ReadsRecords(report: Report, checks: Checks) {
    forall id :: id in checks <==> InBucket(report, id)
  }

  lemma ModeRecordedIff(suite: Suite, report: Report, checks: Checks, mode: string)
    requires ReadsRecords(report, checks)
    ensures ModeComplete(suite, report, checks, mode) <==> ModeRecorded(suite, report, mode)
  {
    CaseRecordedIff(report, checks, mode, STDIO);
    CaseRecordedIff(report, checks, mode, HTTP);
    forall scenario ensures scenario in ObservedScenarios(checks, mode) <==> RecordsScenario(report, mode, scenario) {
      ScenarioRecordedIff(report, checks, mode, scenario);
    }
  }

  lemma CaseRecordedIff(report: Report, checks: Checks, mode: string, transport: string)
    requires ReadsRecords(report, checks)
    ensures HasCase(checks, mode, transport) <==> RecordsCase(report, mode, transport)
  {
    if id :| id in checks && id.mode == mode && id.transport == transport { assert InBucket(report, id); }
    if id :| InBucket(report, id) && id.mode == mode && id.transport == transport { assert id in checks; }
  }

  lemma ScenarioRecordedIff(report: Report, checks: Checks, mode: string, scenario: string)
    requires ReadsRecords(report, checks)
    ensures scenario in ObservedScenarios(checks, mode) <==> RecordsScenario(report, mode, scenario)
  {
    if RecordsScenario(report, mode, scenario) {
      var id :|
        && InBucket(report, id) && id.mode == mode && id.transport == HTTP
        && IsSuiteSource(id.source) && id.scenario == scenario;
      assert id in checks;
    }
  }

  lemma RecordedModes(suite: Suite, report: Report, side: Side, checks: Checks)
    requires ReadsRecords(report, checks)
    ensures CompactModesProblems(suite, report, side, checks, |MODES|) == []
       <==> forall mode :: mode in MODES ==> ModeRecorded(suite, report, mode)
  {
    CompactModesProblemsEmpty(suite, report, side, checks, |MODES|);
    CompleteFromIndices(suite, report, checks);
    forall mode ensures ModeComplete(suite, report, checks, mode) <==> ModeRecorded(suite, report, mode) {
      ModeRecordedIff(suite, report, checks, mode);
    }
  }

  lemma ReadsTheRecords(suite: Suite, report: Report, side: Side, start: seq<Problem>)
    requires report.body.Compacted? && report.body.kind == COMPACT_KIND
    requires WellFormed(ReadCompacted(suite, report, side, start).checks)
    ensures ReadsRecords(report, ReadCompacted(suite, report, side, start).checks)
  {
    var checks := ReadCompacted(suite, report, side, start).checks;
    forall id ensures id in checks <==> InBucket(report, id) {
      CompactStatuses(suite, report, side, start, id, Pass);
      CompactStatuses(suite, report, side, start, id, Fail);
      CompactStatuses(suite, report, side, start, id, Skip);
      if id in checks {
        var s :| s in checks[id];
        assert HasStatus(checks, id, s);
        assert s == Pass || s == Fail || s == Skip;
      }
    }
  }

  lemma NoBodyProblems(body: Body, side: Side, start: seq<Problem>)
    requires body.Compacted?
    ensures BodyProblems(body, side, start) == []
       <==> start == [] && body.requiredModes == Some(MODES) && BothTransports(body.transports)
  {
  }

  lemma BucketsProblems(side: Side, buckets: Buckets, start: Reading)
    ensures var read := ReadBuckets(side, buckets, start);
      start.problems <= read.problems && (read.problems == start.problems <==> BucketsValid(buckets))
  {
    BucketProblems(side, Pass, buckets.passing, start);
    BucketProblems(side, Fail, buckets.failing, ReadBucket(side, Pass, buckets.passing, start));
  }

  lemma CompactedProblems(suite: Suite, report: Report, side: Side, start: seq<Problem>)
    requires report.body.Compacted? && WellFormed(ReadCompacted(suite, report, side, start).checks)
    ensures ReadCompacted(suite, report, side, start).problems == [] <==> start == [] && CompactValid(suite, report)
  {
    var body := report.body;
    if body.kind == COMPACT_KIND && body.checks.Some? {
      var first := Reading(map[], BodyProblems(body, side, start));
      var both := ReadBuckets(side, body.checks.value, first);
      NoBodyProblems(body, side, start);
      BucketsProblems(side, body.checks.value, first);
      ReadsTheRecords(suite, report, side, start);
      RecordedModes(suite, report, side, both.checks);
      NoneAnywhere(first.problems, both.problems, CompactModesProblems(suite, report, side, both.checks, |MODES|));
    }
  }

  lemma NoneAnywhere(a: seq<Problem>, b: seq<Problem>, c: seq<Problem>)
    requires a <= b
    ensures b + c == [] <==> a == [] && b == a && c == []
  {
  }

  /** The validator finds nothing wrong exactly when the header, and the cases or the records, are valid. */
  lemma NoProblemsIff(suite: Suite, report: Report, side: Side)
    ensures RequiredChecks(suite, report, side).problems == []
       <==> HeaderValid(suite, report) && (FullValid(suite, report) || CompactValid(suite, report))
  {
    NoHeaderProblems(suite, report, side);
    if report.body.Full? {
      FullProblems(suite, report, side, HeaderProblems(suite, report, side));
    } else {
      ReadingFacts(suite, report, side);
      CompactedProblems(suite, report, side, HeaderProblems(suite, report, side));
    }
  }
}
