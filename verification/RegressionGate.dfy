/** Compact baselines and the regression gate of the compliance runner. */
module RegressionGate {
  import opened Wrappers
  import opened Sorting
  import opened RegressionReports
  import opened RegressionFacts

  predicate IdentityLe(a: Identity, b: Identity) { KeyLe(a.Key(), b.Key()) }

  lemma IdentityOrder()
    ensures TotalOrder(IdentityLe)
  {
    KeyOrder();
    forall a: Identity, b: Identity | a.Key() == b.Key() ensures a == b {
      assert a.Key()[0] == b.Key()[0] && a.Key()[1] == b.Key()[1] && a.Key()[2] == b.Key()[2]
          && a.Key()[3] == b.Key()[3] && a.Key()[4] == b.Key()[4];
    }
  }

  function StatusesOf(checks: Checks, id: Identity): set<Status> {
    if id in checks then checks[id] else {}
  }

  function SortedIds(ids: set<Identity>): (r: seq<Identity>)
    ensures NoDuplicates(r)
    ensures forall id :: id in r <==> id in ids
  {
    IdentityOrder();
    SortSet(ids, IdentityLe)
  }

  lemma FilterSortedIds(ids: set<Identity>, p: Identity -> bool, kept: set<Identity>)
    requires forall id :: id in kept <==> id in ids && p(id)
    ensures Filter(SortedIds(ids), p) == SortedIds(kept)
  {
    IdentityOrder();
    FilterSortSet(ids, p, kept, IdentityLe);
  }

  // ----- Compaction

  datatype Result<T> = Ok(value: T) | Err(problems: seq<Problem>)

  function ToRecord(id: Identity): Option<RawRecord> {
    Some(RawRecord(Some(id.mode), Some(id.transport), Some(id.source), Some(id.scenario), Some(id.checkId)))
  }

  function ToRecords(ids: seq<Identity>): (r: seq<Option<RawRecord>>)
    ensures |r| == |ids| && forall i :: 0 <= i < |ids| ==> r[i] == ToRecord(ids[i])
  {
    seq(|ids|, i requires 0 <= i < |ids| => ToRecord(ids[i]))
  }

  function WithStatus(checks: Checks, status: Status): seq<Identity> {
    Filter(SortedIds(checks.Keys), id => status in StatusesOf(checks, id))
  }

  predicate ShippingFails(checks: Checks) {
    exists id :: id in checks && id.mode == SHIPPING && Fail in checks[id]
  }

  function CompactProblems(suite: Suite, report: Report): seq<Problem> {
    var read := RequiredChecks(suite, report, Baseline);
    read.problems
    + If(report.automaticAuth.None?, BaselineAuthNotRecorded)
    + If(ShippingFails(read.checks), BaselineShippingRegression)
  }

  function CompactForm(
    suite: Suite, automaticAuth: Option<bool>, catalog: map<string, seq<string>>, checks: Checks): Report {
    Report(
      Some(SCHEMA_VERSION), Some(true), Some(true), automaticAuth,
      Some(Official(Some(suite.repository), Some(suite.gitRef), Some(true), Some(catalog))),
      Compacted(COMPACT_KIND, Some(MODES), Some(TRANSPORTS),
                Some(Buckets(Some(ToRecords(WithStatus(checks, Pass))), Some(ToRecords(WithStatus(checks, Fail)))))))
  }

  function CopiedCatalog(selected: map<string, seq<string>>): map<string, seq<string>> {
    map mode | mode in MODES && mode in selected :: selected[mode]
  }

  function Catalog(suite: Suite): map<string, seq<string>> {
    map mode | mode in MODES :: suite.Scenarios(mode)
  }

  /** The stored baseline; a report with anything wrong has none. */
  function Compact(suite: Suite, report: Report): (r: Result<Report>) {
    var problems := CompactProblems(suite, report);
    if problems != [] then Err(problems)
    else Ok(CompactForm(suite, report.automaticAuth, CopiedCatalog(Selected(report)),
                        RequiredChecks(suite, report, Baseline).checks))
  }

  lemma CompleteCatalog(suite: Suite, report: Report, checks: Checks)
    requires Complete(suite, report, checks)
    ensures CopiedCatalog(Selected(report)) == Catalog(suite)
  {
    forall mode | mode in MODES ensures mode in Selected(report) && Selected(report)[mode] == suite.Scenarios(mode) {
      assert ModeComplete(suite, report, checks, mode);
    }
  }

  lemma NoneOfThree(a: seq<Problem>, b: seq<Problem>, c: seq<Problem>)
    ensures a + b + c == [] <==> a == [] && b == [] && c == []
  {
    assert |a + b + c| == |a| + |b| + |c|;
  }

  /** On success the copied catalogue is the pinned one. */
  lemma CompactIsForm(suite: Suite, report: Report)
    ensures Compact(suite, report).Ok? <==>
      && RequiredChecks(suite, report, Baseline).problems == []
      && report.automaticAuth.Some?
      && !ShippingFails(RequiredChecks(suite, report, Baseline).checks)
    ensures Compact(suite, report).Ok? ==>
      && Compact(suite, report).value
         == CompactForm(suite, report.automaticAuth, Catalog(suite), RequiredChecks(suite, report, Baseline).checks)
      && Complete(suite, report, RequiredChecks(suite, report, Baseline).checks)
  {
    var read := RequiredChecks(suite, report, Baseline);
    NoneOfThree(read.problems, If(report.automaticAuth.None?, BaselineAuthNotRecorded),
      If(ShippingFails(read.checks), BaselineShippingRegression));
    if read.problems == [] {
      ReadingFacts(suite, report, Baseline);
      CompleteCatalog(suite, report, read.checks);
    }
  }

  // ----- Reading a compact baseline back

  /** The checks with a verdict: what compaction keeps. */
  function Decided(checks: Checks): (r: Checks) {
    map id | id in checks && (Pass in checks[id] || Fail in checks[id]) :: checks[id] - {Skip}
  }

  lemma RecordReadsBack(id: Identity)
    requires WellFormedId(id)
    ensures ReadRecord(ToRecord(id)) == Some(id)
  {
  }

  lemma StepReadsBack(side: Side, bucket: Status, acc: Reading, seen: set<Identity>, id: Identity)
    requires WellFormedId(id) && id !in seen
    ensures RecordStep(side, bucket, acc, seen, ToRecord(id)) == acc.(checks := AddStatus(acc.checks, id, bucket))
  {
    RecordReadsBack(id);
  }

  lemma AddToBucket(start: Checks, checks: Checks, bucket: Status, ids: seq<Identity>, id: Identity)
    requires BucketAdded(start, checks, bucket, ids) && id !in ids
    ensures BucketAdded(start, AddStatus(checks, id, bucket), bucket, ids + [id])
  {
    var after := AddStatus(checks, id, bucket);
    assert Elements(ids + [id]) == Elements(ids) + {id};
    forall other | other in after
      ensures after[other] == StatusesOf(start, other) + if other in ids + [id] then {bucket} else {}
    {
      assert other in ids + [id] <==> other in ids || other == id;
    }
  }

  lemma {:induction false} SeenReadBack(ids: seq<Identity>, n: nat)
    requires n <= |ids| && (forall id :: id in ids ==> WellFormedId(id))
    ensures Seen(ToRecords(ids), n) == Elements(ids[..n])
  {
    if n > 0 {
      SeenReadBack(ids, n - 1);
      assert ids[n-1] in ids;
      RecordReadsBack(ids[n-1]);
      ElementsSnoc(ids, n);
    }
  }

  lemma OneRecordReadsBack(side: Side, bucket: Status, ids: seq<Identity>, n: nat, start: Reading)
    requires 0 < n <= |ids| && WellFormedId(ids[n-1]) && ids[n-1] !in Seen(ToRecords(ids), n - 1)
    ensures var before := ReadRecords(side, bucket, ToRecords(ids), n - 1, start);
      ReadRecords(side, bucket, ToRecords(ids), n, start)
        == before.(checks := AddStatus(before.checks, ids[n-1], bucket))
  {
    StepReadsBack(side, bucket, ReadRecords(side, bucket, ToRecords(ids), n - 1, start), Seen(ToRecords(ids), n - 1),
      ids[n-1]);
  }

  /** The checks with one more status for each of `ids`. */
  ghost function AddAll(start: Checks, bucket: Status, ids: seq<Identity>): Checks {
    if ids == [] then start else AddStatus(AddAll(start, bucket, ids[..|ids|-1]), ids[|ids|-1], bucket)
  }

  lemma {:induction false} AddAllFillsBucket(start: Checks, bucket: Status, ids: seq<Identity>)
    requires NoDuplicates(ids)
    ensures BucketAdded(start, AddAll(start, bucket, ids), bucket, ids)
  {
    if ids != [] {
      var init, id := ids[..|ids|-1], ids[|ids|-1];
      AddAllFillsBucket(start, bucket, init);
      assert id !in init && ids == init + [id];
      AddToBucket(start, AddAll(start, bucket, init), bucket, init, id);
    }
  }

  lemma NotSeenBefore(ids: seq<Identity>, n: nat)
    requires 0 < n <= |ids| && NoDuplicates(ids) && (forall id :: id in ids ==> WellFormedId(id))
    ensures WellFormedId(ids[n-1]) && ids[n-1] !in Seen(ToRecords(ids), n - 1)
  {
    SeenReadBack(ids, n - 1);
    assert ids[n-1] !in ids[..n-1];
  }

  lemma {:induction false} RecordsAddAll(side: Side, bucket: Status, ids: seq<Identity>, n: nat, start: Reading)
    requires n <= |ids| && NoDuplicates(ids) && (forall id :: id in ids ==> WellFormedId(id))
    ensures ReadRecords(side, bucket, ToRecords(ids), n, start)
      == start.(checks := AddAll(start.checks, bucket, ids[..n]))
  {
    if n > 0 {
      RecordsAddAll(side, bucket, ids, n - 1, start);
      NotSeenBefore(ids, n);
      OneRecordReadsBack(side, bucket, ids, n, start);
      assert ids[..n][..n-1] == ids[..n-1];
    }
  }

  lemma RecordsReadBack(side: Side, bucket: Status, ids: seq<Identity>, start: Reading)
    requires NoDuplicates(ids) && (forall id :: id in ids ==> WellFormedId(id))
    ensures ReadBucket(side, bucket, Some(ToRecords(ids)), start).problems == start.problems
    ensures BucketAdded(start.checks, ReadBucket(side, bucket, Some(ToRecords(ids)), start).checks, bucket, ids)
  {
    RecordsAddAll(side, bucket, ids, |ids|, start);
    assert ids[..|ids|] == ids;
    AddAllFillsBucket(start.checks, bucket, ids);
  }

  ghost predicate BucketAdded(start: Checks, checks: Checks, bucket: Status, ids: seq<Identity>) {
    && checks.Keys == start.Keys + Elements(ids)
    && forall id :: id in checks ==> checks[id] == StatusesOf(start, id) + if id in ids then {bucket} else {}
  }

  lemma WithStatusFacts(checks: Checks, status: Status)
    requires WellFormed(checks)
    ensures NoDuplicates(WithStatus(checks, status))
    ensures forall id :: id in WithStatus(checks, status) <==> id in checks && status in checks[id]
    ensures forall id :: id in WithStatus(checks, status) ==> WellFormedId(id)
  {
    FilterKeepsPairs(SortedIds(checks.Keys), id => status in StatusesOf(checks, id), (a, b) => a != b);
    assert Sorted(WithStatus(checks, status), (a, b) => a != b);
  }

  lemma BucketsReadBack(side: Side, checks: Checks)
    requires WellFormed(checks)
    ensures var first := ReadBucket(side, Pass, Some(ToRecords(WithStatus(checks, Pass))), Reading(map[], []));
      ReadBucket(side, Fail, Some(ToRecords(WithStatus(checks, Fail))), first) == Reading(Decided(checks), [])
  {
    var passing, failing := WithStatus(checks, Pass), WithStatus(checks, Fail);
    WithStatusFacts(checks, Pass);
    WithStatusFacts(checks, Fail);
    var start := Reading(map[], []);
    RecordsReadBack(side, Pass, passing, start);
    var first := ReadBucket(side, Pass, Some(ToRecords(passing)), start);
    RecordsReadBack(side, Fail, failing, first);
    var both := ReadBucket(side, Fail, Some(ToRecords(failing)), first);
    DecidedFromBuckets(checks, passing, failing, first.checks, both.checks);
  }

  lemma CompactHeader(suite: Suite, k: Report, side: Side)
    requires k.schemaVersion == Some(SCHEMA_VERSION) && k.versionCheck == Some(true) && k.modernFeature == Some(true)
    requires k.official == Some(Official(Some(suite.repository), Some(suite.gitRef), Some(true), Some(Catalog(suite))))
    ensures HeaderProblems(suite, k, side) == []
  {
  }

  lemma CleanCompactReading(suite: Suite, k: Report, side: Side, first: Reading, checks: Checks)
    requires k.body.Compacted? && k.body.kind == COMPACT_KIND && k.body.requiredModes == Some(MODES)
    requires BothTransports(k.body.transports) && k.body.checks.Some? && HeaderProblems(suite, k, side) == []
    requires first == ReadBucket(side, Pass, k.body.checks.value.passing, Reading(map[], []))
    requires ReadBucket(side, Fail, k.body.checks.value.failing, first) == Reading(checks, [])
    ensures RequiredChecks(suite, k, side) == Reading(checks, CompactModesProblems(suite, k, side, checks, |MODES|))
  {
    var none: seq<Problem> := [];
    assert none + [] + [] == none;
  }

  /** A compact baseline reads back as the checks with a verdict, and is short only of modes they do not cover. */
  lemma CompactReadsBack(suite: Suite, auth: Option<bool>, checks: Checks, k: Report, side: Side)
    requires WellFormed(checks) && k == CompactForm(suite, auth, Catalog(suite), checks)
    ensures Selected(k) == Catalog(suite)
    ensures RequiredChecks(suite, k, side).checks == Decided(checks)
    ensures RequiredChecks(suite, k, side).problems == CompactModesProblems(suite, k, side, Decided(checks), |MODES|)
  {
    BucketsReadBack(side, checks);
    CompactHeader(suite, k, side);
    TransportsAreTwo();
    var first := ReadBucket(side, Pass, Some(ToRecords(WithStatus(checks, Pass))), Reading(map[], []));
    CleanCompactReading(suite, k, side, first, Decided(checks));
  }

  lemma TransportsAreTwo()
    ensures BothTransports(Some(TRANSPORTS))
  {
    assert TRANSPORTS[0] == STDIO && TRANSPORTS[1] == HTTP;
    assert Elements(TRANSPORTS) == {STDIO, HTTP};
  }

  lemma DecidedAt(
    checks: Checks, passing: seq<Identity>, failing: seq<Identity>, first: Checks, both: Checks, id: Identity)
    requires forall id :: id in passing <==> id in checks && Pass in checks[id]
    requires forall id :: id in failing <==> id in checks && Fail in checks[id]
    requires BucketAdded(map[], first, Pass, passing) && BucketAdded(first, both, Fail, failing)
    ensures id in both <==> id in Decided(checks)
    ensures id in both ==> both[id] == Decided(checks)[id]
  {
    assert id in both <==> id in passing || id in failing;
    if id in both {
      var verdicts := checks[id] - {Skip};
      assert StatusesOf(first, id) == if id in passing then {Pass} else {};
      assert both[id] == (if id in passing then {Pass} else {}) + (if id in failing then {Fail} else {});
      assert Pass in both[id] <==> Pass in verdicts;
      assert Fail in both[id] <==> Fail in verdicts;
      forall s: Status ensures s in both[id] <==> s in verdicts {
        match s
        case Pass =>
        case Fail =>
        case Skip =>
      }
    }
  }

  lemma DecidedFromBuckets(checks: Checks, passing: seq<Identity>, failing: seq<Identity>, first: Checks, both: Checks)
    requires forall id :: id in passing <==> id in checks && Pass in checks[id]
    requires forall id :: id in failing <==> id in checks && Fail in checks[id]
    requires BucketAdded(map[], first, Pass, passing) && BucketAdded(first, both, Fail, failing)
    ensures both == Decided(checks)
  {
    forall id
      ensures id in both <==> id in Decided(checks)
      ensures id in both ==> both[id] == Decided(checks)[id]
    {
      DecidedAt(checks, passing, failing, first, both, id);
    }
  }

  // ----- The gate

  datatype GateResult = GateResult(
    success: bool, configurationErrors: seq<Problem>, newFailures: seq<Identity>, missingChecks: seq<Identity>,
    knownFailures: seq<Identity>, fixedChecks: seq<Identity>)

  predicate Fails(checks: Checks, id: Identity) { Fail in StatusesOf(checks, id) }

  predicate Passes(checks: Checks, id: Identity) { Pass in StatusesOf(checks, id) }

  predicate NewFailure(baseline: Checks, candidate: Checks, id: Identity) {
    Fails(candidate, id) && !Fails(baseline, id)
  }

  predicate KnownFailure(baseline: Checks, candidate: Checks, id: Identity) {
    Fails(candidate, id) && Fails(baseline, id)
  }

  predicate Missing(baseline: Checks, candidate: Checks, id: Identity) {
    || (Passes(baseline, id) && !Passes(candidate, id))
    || (Fails(baseline, id) && !Fails(candidate, id) && !Passes(candidate, id))
  }

  predicate Fixed(baseline: Checks, candidate: Checks, id: Identity) {
    Fails(baseline, id) && !Fails(candidate, id) && !Missing(baseline, candidate, id)
  }

  predicate ShippingFailure(checks: Checks, id: Identity) {
    id.mode == SHIPPING && Fails(checks, id)
  }

  // The gate's lists, selected from identities in the given order.

  function NewFailures(baseline: Checks, candidate: Checks, ids: seq<Identity>): seq<Identity> {
    Filter(ids, id => NewFailure(baseline, candidate, id))
  }

  function KnownFailures(baseline: Checks, candidate: Checks, ids: seq<Identity>): seq<Identity> {
    Filter(ids, id => KnownFailure(baseline, candidate, id))
  }

  function MissingChecks(baseline: Checks, candidate: Checks, ids: seq<Identity>): seq<Identity> {
    Filter(ids, id => Missing(baseline, candidate, id))
  }

  function FixedChecks(baseline: Checks, candidate: Checks, ids: seq<Identity>): seq<Identity> {
    Filter(ids, id => Fixed(baseline, candidate, id))
  }

  function ShippingFailures(checks: Checks, ids: seq<Identity>): seq<Identity> {
    Filter(ids, id => ShippingFailure(checks, id))
  }

  function AuthProblems(baseline: Option<bool>, candidate: Option<bool>): seq<Problem> {
    if baseline.None? || candidate.None? then [AuthPolicyNotRecorded]
    else If(baseline != candidate, AuthPoliciesDiffer)
  }

  function ShippingProblem(side: Side, checkId: string): Problem {
    if side == Candidate then ShippingCheckFailed(checkId) else BaselineShippingCheckFailed(checkId)
  }

  function ShippingProblems(side: Side, ids: seq<Identity>): (r: seq<Problem>)
    ensures |r| == |ids|
  {
    if ids == [] then [] else [ShippingProblem(side, ids[0].checkId)] + ShippingProblems(side, ids[1..])
  }

  /** A reading together with its identities in sorted order. */
  datatype Input = Input(read: Reading, auth: Option<bool>, ids: seq<Identity>)

  function PolicyErrors(baseline: Input, candidate: Input): seq<Problem> {
    AuthProblems(baseline.auth, candidate.auth)
    + (ShippingProblems(Candidate, ShippingFailures(candidate.read.checks, candidate.ids))
       + ShippingProblems(Baseline, ShippingFailures(baseline.read.checks, baseline.ids)))
  }

  function GateErrors(baseline: Input, candidate: Input): seq<Problem> {
    baseline.read.problems + (candidate.read.problems + PolicyErrors(baseline, candidate))
  }

  function Compare(baseline: Input, candidate: Input): GateResult {
    var b, c := baseline.read.checks, candidate.read.checks;
    var errors := GateErrors(baseline, candidate);
    var newFailures := NewFailures(b, c, candidate.ids);
    var missing := MissingChecks(b, c, baseline.ids);
    GateResult(
      errors == [] && newFailures == [] && missing == [],
      errors, newFailures, missing, KnownFailures(b, c, candidate.ids), FixedChecks(b, c, baseline.ids))
  }

  function ReadInput(suite: Suite, report: Report, side: Side): (r: Input)
    ensures forall id :: id in r.ids <==> id in r.read.checks
  {
    var read := RequiredChecks(suite, report, side);
    Input(read, report.automaticAuth, SortedIds(read.checks.Keys))
  }

  /** The gate's verdict on `candidate` against the full or compact report `baseline`. */
  function Gate(suite: Suite, candidate: Report, baseline: Report): GateResult {
    Compare(ReadInput(suite, baseline, Baseline), ReadInput(suite, candidate, Candidate))
  }

  lemma {:induction false} ShippingProblemsSnoc(side: Side, ids: seq<Identity>, id: Identity)
    ensures ShippingProblems(side, ids + [id]) == ShippingProblems(side, ids) + [ShippingProblem(side, id.checkId)]
  {
    if ids != [] {
      assert (ids + [id])[1..] == ids[1..] + [id];
      ShippingProblemsSnoc(side, ids[1..], id);
    }
  }

  method ScanCandidate(baseline: Checks, candidate: Checks, ids: seq<Identity>)
    returns (newFailures: seq<Identity>, knownFailures: seq<Identity>, errors: seq<Problem>)
    requires forall id :: id in ids ==> id in candidate
    ensures newFailures == NewFailures(baseline, candidate, ids)
    ensures knownFailures == KnownFailures(baseline, candidate, ids)
    ensures errors == ShippingProblems(Candidate, ShippingFailures(candidate, ids))
  {
    newFailures, knownFailures, errors := [], [], [];
    for i := 0 to |ids|
      invariant newFailures == NewFailures(baseline, candidate, ids[..i])
      invariant knownFailures == KnownFailures(baseline, candidate, ids[..i])
      invariant errors == ShippingProblems(Candidate, ShippingFailures(candidate, ids[..i]))
    {
      var id := ids[i];
      FilterSnoc(ids, i, x => NewFailure(baseline, candidate, x));
      FilterSnoc(ids, i, x => KnownFailure(baseline, candidate, x));
      FilterSnoc(ids, i, x => ShippingFailure(candidate, x));
      ShippingProblemsSnoc(Candidate, ShippingFailures(candidate, ids[..i]), id);
      if Fail in candidate[id] {
        if id.mode == SHIPPING {
          errors := errors + [ShippingCheckFailed(id.checkId)];
        }
        if Fail in StatusesOf(baseline, id) {
          knownFailures := knownFailures + [id];
        } else {
          newFailures := newFailures + [id];
        }
      }
    }
    assert ids[..|ids|] == ids;
  }

  method ScanBaseline(baseline: Checks, candidate: Checks, ids: seq<Identity>)
    returns (missing: seq<Identity>, fixed: seq<Identity>, errors: seq<Problem>)
    requires forall id :: id in ids ==> id in baseline
    ensures missing == MissingChecks(baseline, candidate, ids)
    ensures fixed == FixedChecks(baseline, candidate, ids)
    ensures errors == ShippingProblems(Baseline, ShippingFailures(baseline, ids))
  {
    missing, fixed, errors := [], [], [];
    for i := 0 to |ids|
      invariant missing == MissingChecks(baseline, candidate, ids[..i])
      invariant fixed == FixedChecks(baseline, candidate, ids[..i])
      invariant errors == ShippingProblems(Baseline, ShippingFailures(baseline, ids[..i]))
    {
      var id := ids[i];
      FilterSnoc(ids, i, x => Missing(baseline, candidate, x));
      FilterSnoc(ids, i, x => Fixed(baseline, candidate, x));
      FilterSnoc(ids, i, x => ShippingFailure(baseline, x));
      ShippingProblemsSnoc(Baseline, ShippingFailures(baseline, ids[..i]), id);
      var was, now := baseline[id], StatusesOf(candidate, id);
      if id.mode == SHIPPING && Fail in was {
        errors := errors + [BaselineShippingCheckFailed(id.checkId)];
      }
      if Pass in was && Pass !in now {
        missing := missing + [id];
      } else if Fail in was && Fail !in now && Pass !in now {
        missing := missing + [id];
      } else if Fail in was && Fail !in now {
        fixed := fixed + [id];
      }
    }
    assert ids[..|ids|] == ids;
  }

  method EvaluateRegressionGate(suite: Suite, candidate: Report, baseline: Report) returns (r: GateResult)
    ensures r == Gate(suite, candidate, baseline)
  {
    var b := RequiredRegressionChecks(suite, baseline, Baseline);
    var c := RequiredRegressionChecks(suite, candidate, Candidate);
    var auth := AuthProblems(baseline.automaticAuth, candidate.automaticAuth);
    var newFailures, known, shipping := ScanCandidate(b.checks, c.checks, SortedIds(c.checks.Keys));
    var missing, fixed, baselineShipping := ScanBaseline(b.checks, c.checks, SortedIds(b.checks.Keys));
    var errors := b.problems + (c.problems + (auth + (shipping + baselineShipping)));
    r := GateResult(errors == [] && newFailures == [] && missing == [], errors, newFailures, missing, known, fixed);
  }
}
