/** Compaction keeps the gate's meaning, and the gate orders reports. */
module RegressionTheorems {
  import opened Wrappers
  import opened Sorting
  import opened RegressionReports
  import opened RegressionFacts
  import opened RegressionGate
  import opened RegressionSides

  /** In every mode, some check of each transport and of each catalogue scenario has a PASS or FAIL. */
  ghost predicate Covered(suite: Suite, checks: Checks) {
    forall mode :: mode in MODES ==> ModeCovered(suite, checks, mode)
  }

  ghost predicate ModeCovered(suite: Suite, checks: Checks, mode: string) {
    && (exists id :: id in checks && id.mode == mode && id.transport == STDIO && HasVerdict(checks[id]))
    && (exists id :: id in checks && id.mode == mode && id.transport == HTTP && HasVerdict(checks[id]))
    && (forall s :: s in suite.Scenarios(mode) ==> ScenarioCovered(checks, mode, s))
  }

  ghost predicate HasVerdict(statuses: set<Status>) { Pass in statuses || Fail in statuses }

  ghost predicate ScenarioCovered(checks: Checks, mode: string, scenario: string) {
    exists id ::
      && id in checks && id.mode == mode && id.transport == HTTP && FromSuite(id.source)
      && id.scenario == scenario && HasVerdict(checks[id])
  }

  lemma ModeCoveredIff(suite: Suite, report: Report, k: Report, checks: Checks, mode: string)
    requires mode in MODES && Selected(k) == Catalog(suite)
    requires ModeComplete(suite, report, checks, mode)
    ensures ModeComplete(suite, k, Decided(checks), mode) <==> ModeCovered(suite, checks, mode)
  {
    var decided := Decided(checks);
    assert forall id :: id in decided <==> id in checks && HasVerdict(checks[id]);
    assert ObservedScenarios(decided, mode) <= ObservedScenarios(checks, mode);
    var expected := Elements(suite.Scenarios(mode));
    assert expected <= ObservedScenarios(decided, mode)
      <==> forall s :: s in suite.Scenarios(mode) ==> ScenarioCovered(checks, mode, s) by {
      forall s ensures s in ObservedScenarios(decided, mode) <==> ScenarioCovered(checks, mode, s) {
      }
    }
    assert HasCase(decided, mode, STDIO) <==>
      exists id :: id in checks && id.mode == mode && id.transport == STDIO && HasVerdict(checks[id]);
    assert HasCase(decided, mode, HTTP) <==>
      exists id :: id in checks && id.mode == mode && id.transport == HTTP && HasVerdict(checks[id]);
  }

  lemma CoveredIff(suite: Suite, report: Report, k: Report, checks: Checks)
    requires Selected(k) == Catalog(suite) && Complete(suite, report, checks)
    ensures Complete(suite, k, Decided(checks)) <==> Covered(suite, checks)
  {
    forall mode | mode in MODES ensures ModeComplete(suite, k, Decided(checks), mode)
      <==> ModeCovered(suite, checks, mode) {
      assert ModeComplete(suite, report, checks, mode);
      ModeCoveredIff(suite, report, k, checks, mode);
    }
  }

  lemma NoCompactProblemsIffCovered(suite: Suite, report: Report, k: Report, checks: Checks, side: Side)
    requires Selected(k) == Catalog(suite) && Complete(suite, report, checks)
    ensures CompactModesProblems(suite, k, side, Decided(checks), |MODES|) == [] <==> Covered(suite, checks)
  {
    CompactModesProblemsEmpty(suite, k, side, Decided(checks), |MODES|);
    CompleteFromIndices(suite, k, Decided(checks));
    CoveredIff(suite, report, k, checks);
  }

  /** The compact form of a valid report is itself valid exactly when the verdicts cover the suite. */
  lemma CompactIsValidIffCovered(suite: Suite, report: Report, side: Side)
    requires Compact(suite, report).Ok?
    ensures var checks, k := RequiredChecks(suite, report, Baseline).checks, Compact(suite, report).value;
      && RequiredChecks(suite, k, side).checks == Decided(checks)
      && (RequiredChecks(suite, k, side).problems == [] <==> Covered(suite, checks))
  {
    var checks, k := RequiredChecks(suite, report, Baseline).checks, Compact(suite, report).value;
    ReadingFacts(suite, report, Baseline);
    CompactIsForm(suite, report);
    CompactReadsBack(suite, report.automaticAuth, checks, k, side);
    NoCompactProblemsIffCovered(suite, report, k, checks, side);
  }

  // ----- The gate does not look at skipped checks

  lemma SameVerdicts(checks: Checks, id: Identity)
    ensures Passes(Decided(checks), id) == Passes(checks, id)
    ensures Fails(Decided(checks), id) == Fails(checks, id)
  {
  }

  lemma SameOverCandidate(b: Checks, c: Checks, ids: seq<Identity>)
    ensures NewFailures(b, c, ids) == NewFailures(Decided(b), c, ids)
    ensures KnownFailures(b, c, ids) == KnownFailures(Decided(b), c, ids)
  {
    forall id ensures Fails(Decided(b), id) == Fails(b, id) { SameVerdicts(b, id); }
    FilterAgrees(ids, id => NewFailure(b, c, id), id => NewFailure(Decided(b), c, id));
    FilterAgrees(ids, id => KnownFailure(b, c, id), id => KnownFailure(Decided(b), c, id));
  }

  /** A selection that only picks checks with a verdict is the same over the whole and the decided baseline. */
  lemma SameOverBaseline(b: Checks, p: Identity -> bool, q: Identity -> bool)
    requires forall id :: p(id) == q(id)
    requires forall id :: p(id) ==> Passes(b, id) || Fails(b, id)
    ensures Filter(SortedIds(b.Keys), p) == Filter(SortedIds(Decided(b).Keys), q)
  {
    var kept := set id | id in b && p(id);
    FilterSortedIds(b.Keys, p, kept);
    FilterSortedIds(Decided(b).Keys, q, kept);
  }

  lemma ListsIgnoreSkips(b: Checks, c: Checks, ids: seq<Identity>, kept: seq<Identity>)
    requires ids == SortedIds(b.Keys) && kept == SortedIds(Decided(b).Keys)
    ensures MissingChecks(b, c, ids) == MissingChecks(Decided(b), c, kept)
    ensures FixedChecks(b, c, ids) == FixedChecks(Decided(b), c, kept)
    ensures ShippingFailures(b, ids) == ShippingFailures(Decided(b), kept)
  {
    forall id ensures Passes(Decided(b), id) == Passes(b, id)
      && Fails(Decided(b), id) == Fails(b, id) { SameVerdicts(b, id); }
    SameOverBaseline(b, id => Missing(b, c, id), id => Missing(Decided(b), c, id));
    SameOverBaseline(b, id => Fixed(b, c, id), id => Fixed(Decided(b), c, id));
    SameOverBaseline(b, id => ShippingFailure(b, id), id => ShippingFailure(Decided(b), id));
  }

  /** The same gate input with its checks and identities cut down to those with a verdict. */
  ghost predicate CutDown(full: Input, cut: Input) {
    && cut.read.checks == Decided(full.read.checks) && cut.auth == full.auth
    && full.ids == SortedIds(full.read.checks.Keys) && cut.ids == SortedIds(cut.read.checks.Keys)
  }

  lemma CompareIgnoresSkips(full: Input, cut: Input, c: Input)
    requires CutDown(full, cut) && full.read.problems == []
    ensures Compare(cut, c) == Compare(full, c).(
      configurationErrors := cut.read.problems + Compare(full, c).configurationErrors,
      success := Compare(cut, c).success)
    ensures Compare(cut, c).success <==> cut.read.problems == [] && Compare(full, c).success
  {
    var b, mine := full.read.checks, c.read.checks;
    SameOverCandidate(b, mine, c.ids);
    ListsIgnoreSkips(b, mine, full.ids, cut.ids);
    var rest := c.read.problems + PolicyErrors(full, c);
    assert PolicyErrors(cut, c) == PolicyErrors(full, c);
    assert GateErrors(full, c) == rest && GateErrors(cut, c) == cut.read.problems + rest;
    NoneInFront(cut.read.problems, rest);
  }

  /** Gating against the compact baseline is gating against the full report exactly when the
      report's verdicts cover the suite; otherwise the compact baseline lets nothing pass. */
  lemma GateOnCompactBaseline(suite: Suite, candidate: Report, report: Report)
    requires Compact(suite, report).Ok?
    ensures var compact, full := Gate(suite, candidate, Compact(suite, report).value), Gate(suite, candidate, report);
      && (compact == full <==> Covered(suite, RequiredChecks(suite, report, Baseline).checks))
      && (!Covered(suite, RequiredChecks(suite, report, Baseline).checks) ==> !compact.success)
      && compact.newFailures == full.newFailures && compact.knownFailures == full.knownFailures
      && compact.missingChecks == full.missingChecks && compact.fixedChecks == full.fixedChecks
  {
    var k := Compact(suite, report).value;
    CompactIsForm(suite, report);
    CompactIsValidIffCovered(suite, report, Baseline);
    var full, cut, c := ReadInput(suite, report, Baseline), ReadInput(suite, k, Baseline),
      ReadInput(suite, candidate, Candidate);
    CompareIgnoresSkips(full, cut, c);
    ProblemsInFront(cut.read.problems, Compare(full, c).configurationErrors);
  }

  lemma ProblemsInFront(a: seq<Problem>, b: seq<Problem>)
    ensures a + b == b <==> a == []
  {
    assert |a + b| == |a| + |b|;
  }

  // ----- Compaction is idempotent

  lemma DecidedForm(suite: Suite, auth: Option<bool>, catalog: map<string, seq<string>>, checks: Checks)
    ensures CompactForm(suite, auth, catalog, Decided(checks)) == CompactForm(suite, auth, catalog, checks)
  {
    forall id ensures Passes(Decided(checks), id) == Passes(checks, id)
      && Fails(Decided(checks), id) == Fails(checks, id) { SameVerdicts(checks, id); }
    SameOverBaseline(checks, id => Pass in StatusesOf(checks, id), id => Pass in StatusesOf(Decided(checks), id));
    SameOverBaseline(checks, id => Fail in StatusesOf(checks, id), id => Fail in StatusesOf(Decided(checks), id));
  }

  /** Compacting a compact baseline gives it back, exactly when it is valid. */
  lemma CompactIsIdempotent(suite: Suite, report: Report)
    requires Compact(suite, report).Ok?
    ensures Compact(suite, Compact(suite, report).value) == Compact(suite, report)
       <==> Covered(suite, RequiredChecks(suite, report, Baseline).checks)
  {
    var k := Compact(suite, report).value;
    var checks := RequiredChecks(suite, report, Baseline).checks;
    CompactIsForm(suite, report);
    CompactIsForm(suite, k);
    CompactIsValidIffCovered(suite, report, Baseline);
    assert !ShippingFails(Decided(checks));
    DecidedForm(suite, report.automaticAuth, Catalog(suite), checks);
  }

  lemma AllVerdictsCover(suite: Suite, report: Report, checks: Checks)
    requires WellFormed(checks) && NoSkip(checks) && Complete(suite, report, checks)
    ensures Covered(suite, checks)
  {
    forall id | id in checks ensures HasVerdict(checks[id]) {
      var s :| s in checks[id];
      assert s != Skip by { assert Skip !in checks[id]; }
      match s
      case Pass =>
      case Fail =>
    }
    forall mode | mode in MODES ensures ModeCovered(suite, checks, mode) {
      assert ModeComplete(suite, report, checks, mode);
      forall s | s in suite.Scenarios(mode) ensures ScenarioCovered(checks, mode, s) {
        assert s in Elements(suite.Scenarios(mode));
      }
    }
  }

  /** A valid compact baseline always covers the suite, so compacting it again changes nothing. */
  lemma CompactInputIsCovered(suite: Suite, report: Report)
    requires report.body.Compacted? && Compact(suite, report).Ok?
    ensures Covered(suite, RequiredChecks(suite, report, Baseline).checks)
    ensures Compact(suite, Compact(suite, report).value) == Compact(suite, report)
  {
    CompactIsForm(suite, report);
    CompactReadingFacts(suite, report, Baseline);
    AllVerdictsCover(suite, report, RequiredChecks(suite, report, Baseline).checks);
    CompactIsIdempotent(suite, report);
  }

  // ----- The gate is a preorder

  ghost predicate Gateable(suite: Suite, report: Report, side: Side) {
    && RequiredChecks(suite, report, side).problems == []
    && report.automaticAuth.Some?
    && (forall id :: !ShippingFailure(RequiredChecks(suite, report, side).checks, id))
  }

  /** What passing means: both reports valid, same policy, no failure gained, no verdict lost. */
  ghost predicate NoRegression(b: Checks, c: Checks) {
    && (forall id :: Fails(c, id) ==> Fails(b, id))
    && (forall id :: Passes(b, id) ==> Passes(c, id))
    && (forall id :: Fails(b, id) ==> Fails(c, id) || Passes(c, id))
  }

  lemma NoShippingProblems(side: Side, checks: Checks, ids: seq<Identity>)
    requires forall id :: id in ids <==> id in checks
    ensures ShippingProblems(side, ShippingFailures(checks, ids)) == [] <==> forall id :: !ShippingFailure(checks, id)
  {
    FilterEmpty(ids, id => ShippingFailure(checks, id));
    assert forall id :: ShippingFailure(checks, id) ==> id in ids;
  }

  lemma NoneInFront(a: seq<Problem>, b: seq<Problem>)
    ensures a + b == [] <==> a == [] && b == []
  {
    assert |a + b| == |a| + |b|;
  }

  ghost predicate Listed(i: Input) { forall id :: id in i.ids <==> id in i.read.checks }

  lemma NoGateErrors(b: Input, c: Input)
    requires Listed(b) && Listed(c)
    ensures GateErrors(b, c) == [] <==>
      && b.read.problems == [] && c.read.problems == [] && b.auth.Some? && b.auth == c.auth
      && (forall id :: !ShippingFailure(b.read.checks, id)) && (forall id :: !ShippingFailure(c.read.checks, id))
  {
    var mine := ShippingProblems(Candidate, ShippingFailures(c.read.checks, c.ids));
    var base := ShippingProblems(Baseline, ShippingFailures(b.read.checks, b.ids));
    NoShippingProblems(Candidate, c.read.checks, c.ids);
    NoShippingProblems(Baseline, b.read.checks, b.ids);
    NoneInFront(mine, base);
    NoneInFront(AuthProblems(b.auth, c.auth), mine + base);
    NoneInFront(c.read.problems, PolicyErrors(b, c));
    NoneInFront(b.read.problems, c.read.problems + PolicyErrors(b, c));
  }

  lemma NothingNew(b: Checks, c: Checks, ids: seq<Identity>)
    requires forall id :: id in ids <==> id in c
    ensures NewFailures(b, c, ids) == [] <==> forall id :: Fails(c, id) ==> Fails(b, id)
  {
    FilterEmpty(ids, id => NewFailure(b, c, id));
    assert forall id :: Fails(c, id) ==> id in ids;
  }

  lemma NothingMissing(b: Checks, c: Checks, ids: seq<Identity>)
    requires forall id :: id in ids <==> id in b
    ensures MissingChecks(b, c, ids) == [] <==> forall id :: !Missing(b, c, id)
  {
    FilterEmpty(ids, id => Missing(b, c, id));
    assert forall id :: Missing(b, c, id) ==> id in ids;
  }

  lemma NoRegressionIff(b: Checks, c: Checks)
    ensures (forall id :: Fails(c, id) ==> Fails(b, id)) && (forall id :: !Missing(b, c, id)) <==> NoRegression(b, c)
  {
    if NoRegression(b, c) {
      forall id ensures !Missing(b, c, id) { assert Passes(b, id) ==> Passes(c, id); }
    } else if forall id :: !Missing(b, c, id) {
      forall id ensures (Passes(b, id) ==> Passes(c, id)) && (Fails(b, id) ==> Fails(c, id) || Passes(c, id)) {
        assert !Missing(b, c, id);
      }
    }
  }

  lemma GatePassesIff(suite: Suite, candidate: Report, baseline: Report)
    ensures Gate(suite, candidate, baseline).success <==>
      && Gateable(suite, baseline, Baseline) && Gateable(suite, candidate, Candidate)
      && baseline.automaticAuth == candidate.automaticAuth
      && NoRegression(RequiredChecks(suite, baseline, Baseline).checks,
        RequiredChecks(suite, candidate, Candidate).checks)
  {
    var b, c := ReadInput(suite, baseline, Baseline), ReadInput(suite, candidate, Candidate);
    NoGateErrors(b, c);
    NothingNew(b.read.checks, c.read.checks, c.ids);
    NothingMissing(b.read.checks, c.read.checks, b.ids);
    NoRegressionIff(b.read.checks, c.read.checks);
  }

  lemma GateableSides(suite: Suite, report: Report)
    ensures Gateable(suite, report, Baseline) <==> Gateable(suite, report, Candidate)
    ensures RequiredChecks(suite, report, Baseline).checks == RequiredChecks(suite, report, Candidate).checks
  {
    SidesAgree(suite, report);
  }

  /** A report passes against itself exactly when it is valid and no shipping check fails. */
  lemma GateIsReflexive(suite: Suite, report: Report)
    ensures Gate(suite, report, report).success <==> Gateable(suite, report, Baseline)
  {
    GateableSides(suite, report);
    GatePassesIff(suite, report, report);
  }

  lemma GateIsTransitive(suite: Suite, a: Report, b: Report, c: Report)
    requires Gate(suite, b, a).success && Gate(suite, c, b).success
    ensures Gate(suite, c, a).success
  {
    GatePassesIff(suite, b, a);
    GatePassesIff(suite, c, b);
    GatePassesIff(suite, c, a);
    GateableSides(suite, b);
  }
}
