/** Reports of the MCP compliance runner and the validator that turns a full report,
or its compacted form, into a map from check identity to observed statuses.

A report is JSON. Every field is modelled by what the validator can tell about it: `None` stands
for a field that is absent or of another type.
*/
module RegressionReports {
  import opened Wrappers
  import opened Sorting

  const SHIPPING: string := "2025-06-18"
  const LEGACY: string := "2025-11-25"
  const MODERN: string := "2026-07-28"
  const MODES: seq<string> := [SHIPPING, LEGACY, MODERN]
  const STDIO: string := "stdio"
  const HTTP: string := "official-http"
  const TRANSPORTS: seq<string> := [STDIO, HTTP]
  const SCHEMA_VERSION := 4
  const COMPACT_KIND: string := "mcp-conformance-regression-baseline-v1"

  /** The pinned upstream suite: where it comes from and its authenticated scenarios per mode. */
  datatype Suite = Suite(repository: string, gitRef: string, shipping: seq<string>, legacy: seq<string>,
    modern: seq<string>)
  {
    function Scenarios(mode: string): seq<string> {
      if mode == SHIPPING then shipping else if mode == LEGACY then legacy else modern
    }
  }

  datatype Status = Pass | Fail | Skip

  datatype Identity = Identity(mode: string, transport: string, source: string, scenario: string, checkId: string)
  {
    function Key(): seq<string> { [mode, transport, source, scenario, checkId] }
  }

  type Checks = map<Identity, set<Status>>

  // ----- Raw reports

  /** A value where JSON null is acceptable but any other non-string is not. */
  datatype OptionalText = Null | Text(text: string) | NotText

  datatype RawCheck = RawCheck(
    source: Option<string>, scenario: OptionalText, name: Option<string>, checkId: OptionalText,
    status: Option<string>, success: Option<bool>)

  datatype RawCase = RawCase(mode: Option<string>, transport: Option<string>, checks: Option<seq<Option<RawCheck>>>)

  datatype RawRecord = RawRecord(
    mode: Option<string>, transport: Option<string>, source: Option<string>, scenario: Option<string>,
      checkId: Option<string>)

  datatype Official = Official(
    repository: Option<string>, gitRef: Option<string>, authenticationIncluded: Option<bool>,
    scenarios: Option<map<string, seq<string>>>)

  datatype Body =
    | Full(cases: Option<seq<Option<RawCase>>>)
    | Compacted(
        kind: string, requiredModes: Option<seq<string>>, transports: Option<seq<string>>, checks: Option<Buckets>)

  datatype Buckets = Buckets(passing: Option<seq<Option<RawRecord>>>, failing: Option<seq<Option<RawRecord>>>)

  datatype Report = Report(
    schemaVersion: Option<int>, versionCheck: Option<bool>, modernFeature: Option<bool>,
    automaticAuth: Option<bool>, official: Option<Official>, body: Body)

  datatype Side = Baseline | Candidate

  datatype Problem =
    | WrongSchema(side: Side)
    | NoVersionCheck(side: Side)
    | ModernFeatureOff(side: Side)
    | NoOfficialMetadata(side: Side)
    | OtherRepository(side: Side)
    | OtherRevision(side: Side)
    | NoOAuthScenarios(side: Side)
    | NoCatalog(side: Side)
    | UnsupportedKind(side: Side)
    | WrongRequiredModes(side: Side)
    | WrongTransports(side: Side)
    | NoIdentities(side: Side)
    | NoBucket(side: Side, bucket: Status)
    | MalformedRecord(side: Side, bucket: Status)
    | DuplicateRecord(side: Side, bucket: Status)
    | IncompleteCatalog(side: Side, mode: string)
    | MissingCase(side: Side, transport: string, mode: string)
    | Unobserved(side: Side, mode: string, scenarios: seq<string>)
    | Unexpected(side: Side, mode: string, scenarios: seq<string>)
    | NoCases(side: Side)
    | MalformedCase(side: Side)
    | MalformedRequiredCase(side: Side)
    | DuplicateCase(side: Side, transport: string, mode: string)
    | NoChecks(side: Side, transport: string, mode: string)
    | MalformedCheck(side: Side, transport: string, mode: string)
    | AuthPolicyNotRecorded
    | AuthPoliciesDiffer
    | ShippingCheckFailed(checkId: string)
    | BaselineShippingCheckFailed(checkId: string)
    | BaselineAuthNotRecorded
    | BaselineShippingRegression

  function If(condition: bool, problem: Problem): seq<Problem> {
    if condition then [problem] else []
  }

  // ----- Check identities

  predicate IsDecimal(s: string) {
    s != [] && forall i :: 0 <= i < |s| ==> '0' <= s[i] <= '9'
  }

  /** The index of the last `#`, or -1. */
  function LastHash(name: string): (r: int)
    ensures -1 <= r < |name|
    ensures r >= 0 ==> name[r] == '#'
    ensures forall i :: r < i < |name| ==> name[i] != '#'
  {
    if name == [] then -1
    else if name[|name|-1] == '#' then |name| - 1
    else LastHash(name[..|name|-1])
  }

  /** The name without the arrival number that the upstream runner appends to repeated checks. */
  function StableName(name: string): (r: string)
    ensures name != [] ==> r != []
  {
    var at := LastHash(name);
    if at > 0 && IsDecimal(name[at+1..]) then name[..at] else name
  }

  lemma StableNameDropsArrivalNumber(stem: string, number: string)
    requires stem != [] && IsDecimal(number)
    ensures StableName(stem + "#" + number) == stem
  {
    var name := stem + "#" + number;
    var at := LastHash(name);
    assert name[|stem|] == '#';
    assert at == |stem| by {
      assert forall i :: |stem| < i < |name| ==> name[i] == number[i - |stem| - 1];
    }
    assert name[at+1..] == number && name[..at] == stem;
  }

  predicate KnownSource(source: string) {
    source == "official" || source == "harness" || source == "supplemental"
  }

  predicate FromSuite(source: string) {
    source == "official" || source == "harness"
  }

  predicate BadText(t: OptionalText) {
    t.NotText? || (t.Text? && t.text == [])
  }

  function CheckIdentity(mode: string, transport: string, check: RawCheck): (r: Option<Identity>)
    ensures r.Some? ==>
      && r.value.mode == mode && r.value.transport == transport
      && KnownSource(r.value.source) && r.value.checkId != []
  {
    if check.source.None? || !KnownSource(check.source.value) then None
    else if check.name.None? || check.name.value == [] then None
    else if BadText(check.scenario) || BadText(check.checkId) then None
    else Some(Identity(mode, transport, check.source.value,
                       if check.scenario.Text? then check.scenario.text else "",
                       if check.checkId.Text? then check.checkId.text else StableName(check.name.value)))
  }

  function ParseStatus(status: Option<string>): (r: Option<Status>) {
    if status == Some("PASS") then Some(Pass)
    else if status == Some("FAIL") then Some(Fail)
    else if status == Some("SKIP") then Some(Skip)
    else None
  }

  /** The identity and status of a check, when it is well formed and its two verdicts agree. */
  function ReadCheck(mode: string, transport: string, raw: Option<RawCheck>): (r: Option<(Identity, Status)>)
    ensures r.Some? ==>
      && r.value.0.mode == mode && r.value.0.transport == transport
      && KnownSource(r.value.0.source) && r.value.0.checkId != []
  {
    if raw.None? then None
    else
      var identity := CheckIdentity(mode, transport, raw.value);
      var status := ParseStatus(raw.value.status);
      if identity.None? || status.None? || raw.value.success != Some(status.value != Fail) then None
      else Some((identity.value, status.value))
  }

  function AddStatus(checks: Checks, id: Identity, status: Status): Checks {
    checks[id := (if id in checks then checks[id] else {}) + {status}]
  }

  // ----- The header every report carries

  function Selected(report: Report): map<string, seq<string>> {
    if report.official.Some? && report.official.value.scenarios.Some? then report.official.value.scenarios.value
      else map[]
  }

  function HeaderProblems(suite: Suite, report: Report, side: Side): seq<Problem> {
    If(report.schemaVersion != Some(SCHEMA_VERSION), WrongSchema(side))
    + If(report.versionCheck != Some(true), NoVersionCheck(side))
    + If(report.modernFeature != Some(true), ModernFeatureOff(side))
    + (if report.official.None? then [NoOfficialMetadata(side)]
       else OfficialProblems(suite, report.official.value, side))
  }

  function OfficialProblems(suite: Suite, official: Official, side: Side): seq<Problem> {
    If(official.repository != Some(suite.repository), OtherRepository(side))
    + If(official.gitRef != Some(suite.gitRef), OtherRevision(side))
    + If(official.authenticationIncluded != Some(true), NoOAuthScenarios(side))
    + If(official.scenarios.None?, NoCatalog(side))
  }

  function CatalogProblems(suite: Suite, report: Report, side: Side, mode: string): seq<Problem> {
    If(!(mode in Selected(report) && Selected(report)[mode] == suite.Scenarios(mode)), IncompleteCatalog(side, mode))
  }

  function ScenarioProblems(suite: Suite, side: Side, mode: string, observed: set<string>): seq<Problem> {
    StringOrder();
    var expected := Elements(suite.Scenarios(mode));
    If(expected - observed != {}, Unobserved(side, mode, SortSet(expected - observed, StringLe)))
    + If(observed - expected != {}, Unexpected(side, mode, SortSet(observed - expected, StringLe)))
  }

  // ----- Compacted reports

  datatype Reading = Reading(checks: Checks, problems: seq<Problem>)

  function ReadRecord(raw: Option<RawRecord>): (r: Option<Identity>) {
    if raw.None? then None
    else
      var record := raw.value;
      if && record.mode.Some? && record.mode.value in MODES
         && record.transport.Some? && record.transport.value in TRANSPORTS
         && record.source.Some? && KnownSource(record.source.value)
         && record.scenario.Some? && record.checkId.Some? && record.checkId.value != []
      then Some(Identity(record.mode.value, record.transport.value, record.source.value, record.scenario.value,
        record.checkId.value))
      else None
  }

  /** The identities already read from the first `n` records of a bucket. */
  function Seen(records: seq<Option<RawRecord>>, n: nat): (r: set<Identity>)
    requires n <= |records|
  {
    if n == 0 then {}
    else
      var id := ReadRecord(records[n-1]);
      Seen(records, n - 1) + if id.Some? then {id.value} else {}
  }

  function RecordStep(side: Side, bucket: Status, acc: Reading, seen: set<Identity>, raw: Option<RawRecord>): Reading {
    var id := ReadRecord(raw);
    if id.None? then acc.(problems := acc.problems + [MalformedRecord(side, bucket)])
    else if id.value in seen then acc.(problems := acc.problems + [DuplicateRecord(side, bucket)])
    else acc.(checks := AddStatus(acc.checks, id.value, bucket))
  }

  function ReadRecords(side: Side, bucket: Status, records: seq<Option<RawRecord>>, n: nat, start: Reading): Reading
    requires n <= |records|
  {
    if n == 0 then start
    else RecordStep(side, bucket, ReadRecords(side, bucket, records, n - 1, start), Seen(records, n - 1), records[n-1])
  }

  function ReadBucket(side: Side, bucket: Status, records: Option<seq<Option<RawRecord>>>, start: Reading): Reading {
    if records.None? then start.(problems := start.problems + [NoBucket(side, bucket)])
    else ReadRecords(side, bucket, records.value, |records.value|, start)
  }

  function ObservedScenarios(checks: Checks, mode: string): set<string> {
    set id | id in checks && id.mode == mode && id.transport == HTTP && FromSuite(id.source) :: id.scenario
  }

  predicate HasCase(checks: Checks, mode: string, transport: string) {
    exists id :: id in checks && id.mode == mode && id.transport == transport
  }

  function CompactModeProblems(suite: Suite, report: Report, side: Side, checks: Checks, mode: string): seq<Problem> {
    CatalogProblems(suite, report, side, mode)
    + If(!HasCase(checks, mode, STDIO), MissingCase(side, STDIO, mode))
    + If(!HasCase(checks, mode, HTTP), MissingCase(side, HTTP, mode))
    + ScenarioProblems(suite, side, mode, ObservedScenarios(checks, mode))
  }

  function CompactModesProblems(suite: Suite, report: Report, side: Side, checks: Checks, n: nat): seq<Problem>
    requires n <= |MODES|
  {
    if n == 0 then []
    else
      CompactModesProblems(suite, report, side, checks, n - 1)
      + CompactModeProblems(suite, report, side, checks, MODES[n-1])
  }

  predicate BothTransports(transports: Option<seq<string>>) {
    transports.Some? && |transports.value| == 2 && Elements(transports.value) == {STDIO, HTTP}
  }

  /** What a compact report says about itself before its records are read. */
  function BodyProblems(body: Body, side: Side, start: seq<Problem>): seq<Problem>
    requires body.Compacted?
  {
    start + If(body.requiredModes != Some(MODES), WrongRequiredModes(side))
      + If(!BothTransports(body.transports), WrongTransports(side))
  }

  function ReadBuckets(side: Side, buckets: Buckets, start: Reading): Reading {
    ReadBucket(side, Fail, buckets.failing, ReadBucket(side, Pass, buckets.passing, start))
  }

  function ReadCompacted(suite: Suite, report: Report, side: Side, start: seq<Problem>): Reading
    requires report.body.Compacted?
  {
    var body := report.body;
    if body.kind != COMPACT_KIND then Reading(map[], start + [UnsupportedKind(side)])
    else
      var problems := BodyProblems(body, side, start);
      if body.checks.None? then Reading(map[], problems + [NoIdentities(side)])
      else
        var both := ReadBuckets(side, body.checks.value, Reading(map[], problems));
        both.(problems := both.problems + CompactModesProblems(suite, report, side, both.checks, |MODES|))
  }

  // ----- Full reports

  datatype Cases = Cases(byKey: map<(string, string), RawCase>, problems: seq<Problem>)

  function CaseStep(side: Side, acc: Cases, raw: Option<RawCase>): Cases {
    if raw.None? then acc.(problems := acc.problems + [MalformedCase(side)])
    else if raw.value.mode.None? || raw.value.mode.value !in MODES then acc
    else if raw.value.transport.None? then acc.(problems := acc.problems + [MalformedRequiredCase(side)])
    else
      var key := (raw.value.mode.value, raw.value.transport.value);
      if key in acc.byKey then acc.(problems := acc.problems + [DuplicateCase(side, key.1, key.0)])
      else acc.(byKey := acc.byKey[key := raw.value])
  }

  function CollectCases(side: Side, cases: seq<Option<RawCase>>, n: nat, start: seq<Problem>): Cases
    requires n <= |cases|
  {
    if n == 0 then Cases(map[], start)
    else CaseStep(side, CollectCases(side, cases, n - 1, start), cases[n-1])
  }

  datatype CaseReading = CaseReading(checks: Checks, observed: set<string>, problems: seq<Problem>)

  function CheckStep(
    side: Side, mode: string, transport: string, acc: CaseReading, raw: Option<RawCheck>): CaseReading {
    var read := ReadCheck(mode, transport, raw);
    if read.None? then acc.(problems := acc.problems + [MalformedCheck(side, transport, mode)])
    else
      var (id, status) := read.value;
      acc.(checks := AddStatus(acc.checks, id, status),
           observed := if transport == HTTP && FromSuite(id.source) then acc.observed + {id.scenario} else acc.observed)
  }

  function ReadChecks(
    side: Side, mode: string, transport: string, raws: seq<Option<RawCheck>>, n: nat, start: Reading): CaseReading
    requires n <= |raws|
  {
    if n == 0 then CaseReading(start.checks, {}, start.problems)
    else CheckStep(side, mode, transport, ReadChecks(side, mode, transport, raws, n - 1, start), raws[n-1])
  }

  function ReadCase(
    suite: Suite, side: Side, cases: map<(string, string), RawCase>, mode: string, transport: string,
      start: Reading): Reading
  {
    if (mode, transport) !in cases then start.(problems := start.problems + [MissingCase(side, transport, mode)])
    else
      var raws := cases[(mode, transport)].checks;
      if raws.None? || raws.value == [] then start.(problems := start.problems + [NoChecks(side, transport, mode)])
      else
        var read := ReadChecks(side, mode, transport, raws.value, |raws.value|, start);
        Reading(read.checks,
                read.problems + if transport == HTTP then ScenarioProblems(suite, side, mode, read.observed) else [])
  }

  function ReadMode(
    suite: Suite, report: Report, side: Side, cases: map<(string, string), RawCase>, mode: string,
    start: Reading): Reading {
    var catalog := start.(problems := start.problems + CatalogProblems(suite, report, side, mode));
    var stdio := ReadCase(suite, side, cases, mode, STDIO, catalog);
    ReadCase(suite, side, cases, mode, HTTP, stdio)
  }

  function ReadModes(
    suite: Suite, report: Report, side: Side, cases: map<(string, string), RawCase>, n: nat,
      start: seq<Problem>): Reading
    requires n <= |MODES|
  {
    if n == 0 then Reading(map[], start)
    else ReadMode(suite, report, side, cases, MODES[n-1], ReadModes(suite, report, side, cases, n - 1, start))
  }

  function ReadFull(suite: Suite, report: Report, side: Side, start: seq<Problem>): Reading
    requires report.body.Full?
  {
    var list := if report.body.cases.Some? then report.body.cases.value else [];
    var cases := CollectCases(side, list, |list|, start + If(report.body.cases.None?, NoCases(side)));
    ReadModes(suite, report, side, cases.byKey, |MODES|, cases.problems)
  }

  /** What the validator makes of a report: its checks, and everything that is wrong with it. */
  function RequiredChecks(suite: Suite, report: Report, side: Side): Reading {
    var header := HeaderProblems(suite, report, side);
    if report.body.Compacted? then ReadCompacted(suite, report, side, header)
    else ReadFull(suite, report, side, header)
  }

  // ----- The validator's loops

  method ReadBucketRecords(side: Side, bucket: Status, records: Option<seq<Option<RawRecord>>>, start: Reading)
    returns (acc: Reading)
    ensures acc == ReadBucket(side, bucket, records, start)
  {
    acc := start;
    if records.None? {
      acc := acc.(problems := acc.problems + [NoBucket(side, bucket)]);
      return;
    }
    var seen: set<Identity> := {};
    for i := 0 to |records.value|
      invariant acc == ReadRecords(side, bucket, records.value, i, start)
      invariant seen == Seen(records.value, i)
    {
      var id := ReadRecord(records.value[i]);
      if id.None? {
        acc := acc.(problems := acc.problems + [MalformedRecord(side, bucket)]);
        continue;
      }
      if id.value in seen {
        acc := acc.(problems := acc.problems + [DuplicateRecord(side, bucket)]);
        continue;
      }
      seen := seen + {id.value};
      acc := acc.(checks := AddStatus(acc.checks, id.value, bucket));
    }
  }

  method ReadCaseChecks(side: Side, mode: string, transport: string, raws: seq<Option<RawCheck>>, start: Reading)
    returns (acc: Reading, observed: set<string>)
    ensures CaseReading(acc.checks, observed, acc.problems) == ReadChecks(side, mode, transport, raws, |raws|, start)
  {
    acc := start;
    observed := {};
    for i := 0 to |raws|
      invariant CaseReading(acc.checks, observed, acc.problems) == ReadChecks(side, mode, transport, raws, i, start)
    {
      var read := ReadCheck(mode, transport, raws[i]);
      if read.None? {
        acc := acc.(problems := acc.problems + [MalformedCheck(side, transport, mode)]);
        continue;
      }
      var (id, status) := read.value;
      acc := acc.(checks := AddStatus(acc.checks, id, status));
      if transport == HTTP && FromSuite(id.source) {
        observed := observed + {id.scenario};
      }
    }
  }

  method ReadRequiredCase(
    suite: Suite, side: Side, cases: map<(string, string), RawCase>, mode: string, transport: string, start: Reading)
    returns (acc: Reading)
    ensures acc == ReadCase(suite, side, cases, mode, transport, start)
  {
    acc := start;
    if (mode, transport) !in cases {
      acc := acc.(problems := acc.problems + [MissingCase(side, transport, mode)]);
      return;
    }
    var raws := cases[(mode, transport)].checks;
    if raws.None? || raws.value == [] {
      acc := acc.(problems := acc.problems + [NoChecks(side, transport, mode)]);
      return;
    }
    var observed;
    acc, observed := ReadCaseChecks(side, mode, transport, raws.value, acc);
    if transport == HTTP {
      acc := acc.(problems := acc.problems + ScenarioProblems(suite, side, mode, observed));
    }
  }

  method CollectRequiredCases(side: Side, list: seq<Option<RawCase>>, start: seq<Problem>)
    returns (cases: map<(string, string), RawCase>, problems: seq<Problem>)
    ensures Cases(cases, problems) == CollectCases(side, list, |list|, start)
  {
    cases, problems := map[], start;
    for i := 0 to |list|
      invariant Cases(cases, problems) == CollectCases(side, list, i, start)
    {
      var raw := list[i];
      if raw.None? {
        problems := problems + [MalformedCase(side)];
      } else if raw.value.mode.Some? && raw.value.mode.value in MODES {
        var mode := raw.value.mode.value;
        if raw.value.transport.None? {
          problems := problems + [MalformedRequiredCase(side)];
        } else if (mode, raw.value.transport.value) in cases {
          problems := problems + [DuplicateCase(side, raw.value.transport.value, mode)];
        } else {
          cases := cases[(mode, raw.value.transport.value) := raw.value];
        }
      }
    }
  }

  method CheckCompactModes(suite: Suite, report: Report, side: Side, checks: Checks) returns (problems: seq<Problem>)
    ensures problems == CompactModesProblems(suite, report, side, checks, |MODES|)
  {
    problems := [];
    for i := 0 to |MODES|
      invariant problems == CompactModesProblems(suite, report, side, checks, i)
    {
      problems := problems + CompactModeProblems(suite, report, side, checks, MODES[i]);
    }
  }

  method ReadCompactedReport(suite: Suite, report: Report, side: Side, start: seq<Problem>) returns (acc: Reading)
    requires report.body.Compacted?
    ensures acc == ReadCompacted(suite, report, side, start)
  {
    acc := Reading(map[], start);
    if report.body.kind != COMPACT_KIND {
      acc := acc.(problems := acc.problems + [UnsupportedKind(side)]);
      return;
    }
    acc := acc.(problems := acc.problems
      + If(report.body.requiredModes != Some(MODES), WrongRequiredModes(side))
      + If(!BothTransports(report.body.transports), WrongTransports(side)));
    if report.body.checks.None? {
      acc := acc.(problems := acc.problems + [NoIdentities(side)]);
      return;
    }
    acc := ReadBucketRecords(side, Pass, report.body.checks.value.passing, acc);
    acc := ReadBucketRecords(side, Fail, report.body.checks.value.failing, acc);
    var problems := CheckCompactModes(suite, report, side, acc.checks);
    acc := acc.(problems := acc.problems + problems);
  }

  method ReadFullReport(suite: Suite, report: Report, side: Side, start: seq<Problem>) returns (acc: Reading)
    requires report.body.Full?
    ensures acc == ReadFull(suite, report, side, start)
  {
    var list := if report.body.cases.Some? then report.body.cases.value else [];
    var cases, problems := CollectRequiredCases(side, list, start + If(report.body.cases.None?, NoCases(side)));
    acc := Reading(map[], problems);
    for i := 0 to |MODES|
      invariant acc == ReadModes(suite, report, side, cases, i, problems)
    {
      acc := acc.(problems := acc.problems + CatalogProblems(suite, report, side, MODES[i]));
      acc := ReadRequiredCase(suite, side, cases, MODES[i], STDIO, acc);
      acc := ReadRequiredCase(suite, side, cases, MODES[i], HTTP, acc);
    }
  }

  method RequiredRegressionChecks(suite: Suite, report: Report, side: Side) returns (acc: Reading)
    ensures acc == RequiredChecks(suite, report, side)
  {
    var header := HeaderProblems(suite, report, side);
    if report.body.Compacted? {
      acc := ReadCompactedReport(suite, report, side, header);
    } else {
      acc := ReadFullReport(suite, report, side, header);
    }
  }
}
