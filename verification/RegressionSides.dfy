/** The two sides of the gate read a report alike: they only label problems differently. */
module RegressionSides {
  import opened Wrappers
  import opened Sorting
  import opened RegressionReports

  /** The problem as the candidate's side would name it. */
  function Relabel(p: Problem): Problem {
    match p
    case WrongSchema(_) => WrongSchema(Candidate)
    case NoVersionCheck(_) => NoVersionCheck(Candidate)
    case ModernFeatureOff(_) => ModernFeatureOff(Candidate)
    case NoOfficialMetadata(_) => NoOfficialMetadata(Candidate)
    case OtherRepository(_) => OtherRepository(Candidate)
    case OtherRevision(_) => OtherRevision(Candidate)
    case NoOAuthScenarios(_) => NoOAuthScenarios(Candidate)
    case NoCatalog(_) => NoCatalog(Candidate)
    case UnsupportedKind(_) => UnsupportedKind(Candidate)
    case WrongRequiredModes(_) => WrongRequiredModes(Candidate)
    case WrongTransports(_) => WrongTransports(Candidate)
    case NoIdentities(_) => NoIdentities(Candidate)
    case NoBucket(_, bucket) => NoBucket(Candidate, bucket)
    case MalformedRecord(_, bucket) => MalformedRecord(Candidate, bucket)
    case DuplicateRecord(_, bucket) => DuplicateRecord(Candidate, bucket)
    case IncompleteCatalog(_, mode) => IncompleteCatalog(Candidate, mode)
    case MissingCase(_, transport, mode) => MissingCase(Candidate, transport, mode)
    case Unobserved(_, mode, scenarios) => Unobserved(Candidate, mode, scenarios)
    case Unexpected(_, mode, scenarios) => Unexpected(Candidate, mode, scenarios)
    case NoCases(_) => NoCases(Candidate)
    case MalformedCase(_) => MalformedCase(Candidate)
    case MalformedRequiredCase(_) => MalformedRequiredCase(Candidate)
    case DuplicateCase(_, transport, mode) => DuplicateCase(Candidate, transport, mode)
    case NoChecks(_, transport, mode) => NoChecks(Candidate, transport, mode)
    case MalformedCheck(_, transport, mode) => MalformedCheck(Candidate, transport, mode)
    case _ => p
  }

  /** The same problems in the same order, up to the side they name. */
  ghost predicate SameProblems(a: seq<Problem>, b: seq<Problem>) {
    |a| == |b| && forall i :: 0 <= i < |a| ==> Relabel(a[i]) == b[i]
  }

  ghost predicate Alike(a: Reading, b: Reading) {
    a.checks == b.checks && SameProblems(a.problems, b.problems)
  }

  lemma SameAppend(a: seq<Problem>, b: seq<Problem>, x: seq<Problem>, y: seq<Problem>)
    requires SameProblems(a, b) && SameProblems(x, y)
    ensures SameProblems(a + x, b + y)
  {
  }

  lemma SameFour(
    a: seq<Problem>, b: seq<Problem>, c: seq<Problem>, d: seq<Problem>,
    a': seq<Problem>, b': seq<Problem>, c': seq<Problem>, d': seq<Problem>)
    requires SameProblems(a, a') && SameProblems(b, b') && SameProblems(c, c') && SameProblems(d, d')
    ensures SameProblems(a + b + c + d, a' + b' + c' + d')
  {
    SameAppend(a, a', b, b');
    SameAppend(a + b, a' + b', c, c');
    SameAppend(a + b + c, a' + b' + c', d, d');
  }

  lemma SameIf(condition: bool, p: Problem, q: Problem)
    requires Relabel(p) == q
    ensures SameProblems(If(condition, p), If(condition, q))
  {
  }

  lemma {:induction false} RecordsSides(
    bucket: Status, records: seq<Option<RawRecord>>, n: nat, start: Reading, start': Reading)
    requires n <= |records| && Alike(start, start')
    ensures Alike(ReadRecords(Baseline, bucket, records, n, start), ReadRecords(Candidate, bucket, records, n, start'))
  {
    if n > 0 {
      RecordsSides(bucket, records, n - 1, start, start');
      RecordStepSides(bucket, Seen(records, n - 1), records[n-1],
                      ReadRecords(Baseline, bucket, records, n - 1, start),
                      ReadRecords(Candidate, bucket, records, n - 1, start'));
    }
  }

  lemma RecordStepSides(bucket: Status, seen: set<Identity>, raw: Option<RawRecord>, a: Reading, b: Reading)
    requires Alike(a, b)
    ensures Alike(RecordStep(Baseline, bucket, a, seen, raw), RecordStep(Candidate, bucket, b, seen, raw))
  {
  }

  lemma {:induction false} CasesSides(cases: seq<Option<RawCase>>, n: nat, start: seq<Problem>, start': seq<Problem>)
    requires n <= |cases| && SameProblems(start, start')
    ensures var a, b := CollectCases(Baseline, cases, n, start), CollectCases(Candidate, cases, n, start');
      a.byKey == b.byKey && SameProblems(a.problems, b.problems)
  {
    if n > 0 {
      CasesSides(cases, n - 1, start, start');
      CaseStepSides(cases[n-1], CollectCases(Baseline, cases, n - 1, start),
        CollectCases(Candidate, cases, n - 1, start'));
    }
  }

  lemma CaseStepSides(raw: Option<RawCase>, a: Cases, b: Cases)
    requires a.byKey == b.byKey && SameProblems(a.problems, b.problems)
    ensures var x, y := CaseStep(Baseline, a, raw), CaseStep(Candidate, b, raw);
      x.byKey == y.byKey && SameProblems(x.problems, y.problems)
  {
  }

  ghost predicate AlikeCase(a: CaseReading, b: CaseReading) {
    a.checks == b.checks && a.observed == b.observed && SameProblems(a.problems, b.problems)
  }

  lemma {:induction false} ChecksSides(
    mode: string, transport: string, raws: seq<Option<RawCheck>>, n: nat, start: Reading, start': Reading)
    requires n <= |raws| && Alike(start, start')
    ensures AlikeCase(ReadChecks(Baseline, mode, transport, raws, n, start),
                      ReadChecks(Candidate, mode, transport, raws, n, start'))
  {
    if n > 0 {
      ChecksSides(mode, transport, raws, n - 1, start, start');
      CheckStepSides(mode, transport, raws[n-1], ReadChecks(Baseline, mode, transport, raws, n - 1, start),
                     ReadChecks(Candidate, mode, transport, raws, n - 1, start'));
    }
  }

  lemma CheckStepSides(mode: string, transport: string, raw: Option<RawCheck>, a: CaseReading, b: CaseReading)
    requires AlikeCase(a, b)
    ensures AlikeCase(CheckStep(Baseline, mode, transport, a, raw), CheckStep(Candidate, mode, transport, b, raw))
  {
  }

  lemma ScenarioSides(suite: Suite, mode: string, observed: set<string>)
    ensures SameProblems(ScenarioProblems(suite, Baseline, mode, observed),
      ScenarioProblems(suite, Candidate, mode, observed))
  {
    StringOrder();
    var expected := Elements(suite.Scenarios(mode));
    var missing, extra := SortSet(expected - observed, StringLe), SortSet(observed - expected, StringLe);
    SameIf(expected - observed != {}, Unobserved(Baseline, mode, missing), Unobserved(Candidate, mode, missing));
    SameIf(observed - expected != {}, Unexpected(Baseline, mode, extra), Unexpected(Candidate, mode, extra));
  }

  /** A case once its checks are read: over HTTP, which scenarios were observed. */
  function CaseEnd(suite: Suite, side: Side, mode: string, transport: string, read: CaseReading): Reading {
    Reading(read.checks,
            read.problems + if transport == HTTP then ScenarioProblems(suite, side, mode, read.observed) else [])
  }

  lemma CaseEndSides(suite: Suite, mode: string, transport: string, a: CaseReading, b: CaseReading)
    requires AlikeCase(a, b)
    ensures Alike(CaseEnd(suite, Baseline, mode, transport, a), CaseEnd(suite, Candidate, mode, transport, b))
  {
    ScenarioSides(suite, mode, a.observed);
    SameAppend(a.problems, b.problems, ScenarioProblems(suite, Baseline, mode, a.observed),
               ScenarioProblems(suite, Candidate, mode, a.observed));
    SameAppend(a.problems, b.problems, [], []);
  }

  lemma CaseSides(
    suite: Suite, cases: map<(string, string), RawCase>, mode: string, transport: string, start: Reading,
      start': Reading)
    requires Alike(start, start')
    ensures Alike(ReadCase(suite, Baseline, cases, mode, transport, start),
                  ReadCase(suite, Candidate, cases, mode, transport, start'))
  {
    if (mode, transport) !in cases {
      SameAppend(start.problems, start'.problems, [MissingCase(Baseline, transport, mode)],
        [MissingCase(Candidate, transport, mode)]);
    } else if cases[(mode, transport)].checks.None? || cases[(mode, transport)].checks.value == [] {
      SameAppend(start.problems, start'.problems, [NoChecks(Baseline, transport, mode)],
        [NoChecks(Candidate, transport, mode)]);
    } else {
      var raws := cases[(mode, transport)].checks.value;
      ChecksSides(mode, transport, raws, |raws|, start, start');
      CaseEndSides(suite, mode, transport, ReadChecks(Baseline, mode, transport, raws, |raws|, start),
                   ReadChecks(Candidate, mode, transport, raws, |raws|, start'));
    }
  }

  lemma ModeSides(
    suite: Suite, report: Report, cases: map<(string, string), RawCase>, mode: string, start: Reading, start': Reading)
    requires Alike(start, start')
    ensures Alike(ReadMode(suite, report, Baseline, cases, mode, start),
      ReadMode(suite, report, Candidate, cases, mode, start'))
  {
    var a := start.(problems := start.problems + CatalogProblems(suite, report, Baseline, mode));
    var b := start'.(problems := start'.problems + CatalogProblems(suite, report, Candidate, mode));
    CaseSides(suite, cases, mode, STDIO, a, b);
    CaseSides(suite, cases, mode, HTTP, ReadCase(suite, Baseline, cases, mode, STDIO, a),
              ReadCase(suite, Candidate, cases, mode, STDIO, b));
  }

  lemma {:induction false} ModesSides(
    suite: Suite, report: Report, cases: map<(string, string), RawCase>, n: nat, start: seq<Problem>,
      start': seq<Problem>)
    requires n <= |MODES| && SameProblems(start, start')
    ensures Alike(ReadModes(suite, report, Baseline, cases, n, start),
      ReadModes(suite, report, Candidate, cases, n, start'))
  {
    if n > 0 {
      ModesSides(suite, report, cases, n - 1, start, start');
      ModeSides(suite, report, cases, MODES[n-1], ReadModes(suite, report, Baseline, cases, n - 1, start),
                ReadModes(suite, report, Candidate, cases, n - 1, start'));
    }
  }

  lemma CompactModeSides(suite: Suite, report: Report, checks: Checks, mode: string)
    ensures SameProblems(CompactModeProblems(suite, report, Baseline, checks, mode),
                         CompactModeProblems(suite, report, Candidate, checks, mode))
  {
    var catalog := !(mode in Selected(report) && Selected(report)[mode] == suite.Scenarios(mode));
    var stdio, http := !HasCase(checks, mode, STDIO), !HasCase(checks, mode, HTTP);
    SameIf(catalog, IncompleteCatalog(Baseline, mode), IncompleteCatalog(Candidate, mode));
    SameIf(stdio, MissingCase(Baseline, STDIO, mode), MissingCase(Candidate, STDIO, mode));
    SameIf(http, MissingCase(Baseline, HTTP, mode), MissingCase(Candidate, HTTP, mode));
    var observed := ObservedScenarios(checks, mode);
    ScenarioSides(suite, mode, observed);
    SameFour(If(catalog, IncompleteCatalog(Baseline, mode)), If(stdio, MissingCase(Baseline, STDIO, mode)),
             If(http, MissingCase(Baseline, HTTP, mode)), ScenarioProblems(suite, Baseline, mode, observed),
             If(catalog, IncompleteCatalog(Candidate, mode)), If(stdio, MissingCase(Candidate, STDIO, mode)),
             If(http, MissingCase(Candidate, HTTP, mode)), ScenarioProblems(suite, Candidate, mode, observed));
  }

  lemma {:induction false} CompactModesSides(suite: Suite, report: Report, checks: Checks, n: nat)
    requires n <= |MODES|
    ensures SameProblems(CompactModesProblems(suite, report, Baseline, checks, n),
                         CompactModesProblems(suite, report, Candidate, checks, n))
  {
    if n > 0 {
      CompactModesSides(suite, report, checks, n - 1);
      CompactModeSides(suite, report, checks, MODES[n-1]);
      SameAppend(CompactModesProblems(suite, report, Baseline, checks, n - 1),
                 CompactModesProblems(suite, report, Candidate, checks, n - 1),
                 CompactModeProblems(suite, report, Baseline, checks, MODES[n-1]),
                 CompactModeProblems(suite, report, Candidate, checks, MODES[n-1]));
    }
  }

  lemma BucketSides(bucket: Status, records: Option<seq<Option<RawRecord>>>, start: Reading, start': Reading)
    requires Alike(start, start')
    ensures Alike(ReadBucket(Baseline, bucket, records, start), ReadBucket(Candidate, bucket, records, start'))
  {
    if records.Some? { RecordsSides(bucket, records.value, |records.value|, start, start'); }
  }

  lemma BodySides(body: Body, h: seq<Problem>, h': seq<Problem>)
    requires body.Compacted? && SameProblems(h, h')
    ensures SameProblems(BodyProblems(body, Baseline, h), BodyProblems(body, Candidate, h'))
  {
  }

  lemma CompactedSides(suite: Suite, report: Report, h: seq<Problem>, h': seq<Problem>)
    requires report.body.Compacted? && SameProblems(h, h')
    ensures Alike(ReadCompacted(suite, report, Baseline, h), ReadCompacted(suite, report, Candidate, h'))
  {
    var body := report.body;
    BodySides(body, h, h');
    if body.kind == COMPACT_KIND && body.checks.Some? {
      var p, p' := Reading(map[], BodyProblems(body, Baseline, h)), Reading(map[], BodyProblems(body, Candidate, h'));
      var passing, failing := body.checks.value.passing, body.checks.value.failing;
      BucketSides(Pass, passing, p, p');
      var a, b := ReadBucket(Baseline, Pass, passing, p), ReadBucket(Candidate, Pass, passing, p');
      BucketSides(Fail, failing, a, b);
      var x, y := ReadBucket(Baseline, Fail, failing, a), ReadBucket(Candidate, Fail, failing, b);
      CompactModesSides(suite, report, x.checks, |MODES|);
      SameAppend(x.problems, y.problems, CompactModesProblems(suite, report, Baseline, x.checks, |MODES|),
                 CompactModesProblems(suite, report, Candidate, x.checks, |MODES|));
    }
  }

  lemma OfficialSides(suite: Suite, official: Official)
    ensures SameProblems(OfficialProblems(suite, official, Baseline), OfficialProblems(suite, official, Candidate))
  {
    var a, b := official.repository != Some(suite.repository), official.gitRef != Some(suite.gitRef);
    var c, d := official.authenticationIncluded != Some(true), official.scenarios.None?;
    SameIf(a, OtherRepository(Baseline), OtherRepository(Candidate));
    SameIf(b, OtherRevision(Baseline), OtherRevision(Candidate));
    SameIf(c, NoOAuthScenarios(Baseline), NoOAuthScenarios(Candidate));
    SameIf(d, NoCatalog(Baseline), NoCatalog(Candidate));
    SameFour(If(a, OtherRepository(Baseline)), If(b, OtherRevision(Baseline)),
             If(c, NoOAuthScenarios(Baseline)), If(d, NoCatalog(Baseline)),
             If(a, OtherRepository(Candidate)), If(b, OtherRevision(Candidate)),
             If(c, NoOAuthScenarios(Candidate)), If(d, NoCatalog(Candidate)));
  }

  function MetadataProblems(suite: Suite, report: Report, side: Side): seq<Problem> {
    if report.official.None? then [NoOfficialMetadata(side)] else OfficialProblems(suite, report.official.value, side)
  }

  lemma MetadataSides(suite: Suite, report: Report)
    ensures SameProblems(MetadataProblems(suite, report, Baseline), MetadataProblems(suite, report, Candidate))
  {
    if report.official.Some? { OfficialSides(suite, report.official.value); }
  }

  lemma HeaderSides(suite: Suite, report: Report)
    ensures SameProblems(HeaderProblems(suite, report, Baseline), HeaderProblems(suite, report, Candidate))
  {
    var a, b := report.schemaVersion != Some(SCHEMA_VERSION), report.versionCheck != Some(true);
    var c := report.modernFeature != Some(true);
    SameIf(a, WrongSchema(Baseline), WrongSchema(Candidate));
    SameIf(b, NoVersionCheck(Baseline), NoVersionCheck(Candidate));
    SameIf(c, ModernFeatureOff(Baseline), ModernFeatureOff(Candidate));
    MetadataSides(suite, report);
    SameFour(If(a, WrongSchema(Baseline)), If(b, NoVersionCheck(Baseline)), If(c, ModernFeatureOff(Baseline)),
             MetadataProblems(suite, report, Baseline),
             If(a, WrongSchema(Candidate)), If(b, NoVersionCheck(Candidate)), If(c, ModernFeatureOff(Candidate)),
             MetadataProblems(suite, report, Candidate));
  }

  lemma FullSides(suite: Suite, report: Report, h: seq<Problem>, h': seq<Problem>)
    requires report.body.Full? && SameProblems(h, h')
    ensures Alike(ReadFull(suite, report, Baseline, h), ReadFull(suite, report, Candidate, h'))
  {
    var list := if report.body.cases.Some? then report.body.cases.value else [];
    var s := h + If(report.body.cases.None?, NoCases(Baseline));
    var s' := h' + If(report.body.cases.None?, NoCases(Candidate));
    CasesSides(list, |list|, s, s');
    var a, b := CollectCases(Baseline, list, |list|, s), CollectCases(Candidate, list, |list|, s');
    ModesSides(suite, report, a.byKey, |MODES|, a.problems, b.problems);
  }

  /** Both sides of the gate read the same checks and the same problems, up to the side these name. */
  lemma SidesAgree(suite: Suite, report: Report)
    ensures Alike(RequiredChecks(suite, report, Baseline), RequiredChecks(suite, report, Candidate))
  {
    HeaderSides(suite, report);
    var h, h' := HeaderProblems(suite, report, Baseline), HeaderProblems(suite, report, Candidate);
    if report.body.Full? {
      FullSides(suite, report, h, h');
    } else {
      CompactedSides(suite, report, h, h');
    }
  }
}
