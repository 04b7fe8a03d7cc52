/** What the lists of the compliance gate and of a compact baseline hold, told from the raw reports. */
module RegressionLists {
  import opened Sorting
  import opened RegressionReports
  import opened RegressionGate
  import opened RegressionRaw
  import opened RegressionValidity

  function Fields(id: Identity): seq<string> { [id.mode, id.transport, id.source, id.scenario, id.checkId] }

  /** In strictly ascending order of mode, transport, source, scenario and check id. */
  ghost predicate Ascending(ids: seq<Identity>) {
    forall i, j :: 0 <= i < j < |ids| ==> KeyBefore(Fields(ids[i]), Fields(ids[j]))
  }

  lemma SelectedAscending(ids: set<Identity>, p: Identity -> bool)
    ensures Ascending(Filter(SortedIds(ids), p))
    ensures forall id :: id in Filter(SortedIds(ids), p) <==> id in ids && p(id)
  {
    IdentityOrder();
    var sorted := SortedIds(ids);
    var kept := Filter(sorted, p);
    FilterKeepsPairs(sorted, p, IdentityLe);
    FilterKeepsPairs(sorted, p, (x, y) => x != y);
    forall i, j | 0 <= i < j < |kept| ensures KeyBefore(Fields(kept[i]), Fields(kept[j])) {
      assert IdentityLe(kept[i], kept[j]) && kept[i] != kept[j];
      BeforeIff(kept[i], kept[j]);
    }
  }

  lemma BeforeIff(a: Identity, b: Identity)
    requires IdentityLe(a, b) && a != b
    ensures KeyBefore(Fields(a), Fields(b))
  {
    assert Fields(a) == a.Key() && Fields(b) == b.Key();
    KeyLeIff(a.Key(), b.Key());
    IdentityOrder();
    if a.Key() == b.Key() { assert IdentityLe(b, a); }
  }

  // ----- The gate's lists

  lemma FailsIff(suite: Suite, report: Report, side: Side, id: Identity)
    ensures Fails(RequiredChecks(suite, report, side).checks, id) <==> RawStatus(report, id, Fail)
    ensures Passes(RequiredChecks(suite, report, side).checks, id) <==> RawStatus(report, id, Pass)
  {
    StatusReadIff(suite, report, side, id, Fail);
    StatusReadIff(suite, report, side, id, Pass);
  }

  lemma InLists(b: Checks, c: Checks, id: Identity)
    ensures id in NewFailures(b, c, SortedIds(c.Keys)) <==> Fails(c, id) && !Fails(b, id)
    ensures id in KnownFailures(b, c, SortedIds(c.Keys)) <==> Fails(c, id) && Fails(b, id)
    ensures id in MissingChecks(b, c, SortedIds(b.Keys)) <==>
      (Passes(b, id) && !Passes(c, id)) || (Fails(b, id) && !Fails(c, id) && !Passes(c, id))
    ensures id in FixedChecks(b, c, SortedIds(b.Keys)) <==> Fails(b, id) && !Fails(c, id) && Passes(c, id)
  {
  }

  /** Which list of the gate's result a check is in, by the statuses the two raw reports give it. */
  lemma GateListsIff(suite: Suite, candidate: Report, baseline: Report, id: Identity)
    ensures var g := Gate(suite, candidate, baseline);
      var passed, failed := RawStatus(baseline, id, Pass), RawStatus(baseline, id, Fail);
      var passes, fails := RawStatus(candidate, id, Pass), RawStatus(candidate, id, Fail);
      && (id in g.newFailures <==> fails && !failed)
      && (id in g.knownFailures <==> fails && failed)
      && (id in g.missingChecks <==> (passed && !passes) || (failed && !fails && !passes))
      && (id in g.fixedChecks <==> failed && !fails && passes)
  {
    FailsIff(suite, baseline, Baseline, id);
    FailsIff(suite, candidate, Candidate, id);
    InLists(RequiredChecks(suite, baseline, Baseline).checks, RequiredChecks(suite, candidate, Candidate).checks, id);
  }

  /** Every list of the result is in strictly ascending order. */
  lemma GateListsAscend(suite: Suite, candidate: Report, baseline: Report)
    ensures var g := Gate(suite, candidate, baseline);
      Ascending(g.newFailures) && Ascending(g.knownFailures) && Ascending(g.missingChecks) && Ascending(g.fixedChecks)
  {
    var b, c := RequiredChecks(suite, baseline, Baseline).checks, RequiredChecks(suite, candidate, Candidate).checks;
    SelectedAscending(c.Keys, id => NewFailure(b, c, id));
    SelectedAscending(c.Keys, id => KnownFailure(b, c, id));
    SelectedAscending(b.Keys, id => Missing(b, c, id));
    SelectedAscending(b.Keys, id => Fixed(b, c, id));
  }

  /** New and known failures partition the candidate's failures, and no verdict of the baseline goes unaccounted for:
      a check that failed still fails, is fixed or is missing, and one that passed still passes or is missing. */
  lemma GateAccountsForAll(suite: Suite, candidate: Report, baseline: Report, id: Identity)
    ensures var g := Gate(suite, candidate, baseline);
      && (RawStatus(candidate, id, Fail) <==> id in g.newFailures || id in g.knownFailures)
      && !(id in g.newFailures && id in g.knownFailures)
      && !(id in g.missingChecks && id in g.fixedChecks)
      && (RawStatus(baseline, id, Fail) ==> id in g.knownFailures || id in g.fixedChecks || id in g.missingChecks)
      && (RawStatus(baseline, id, Pass) ==> RawStatus(candidate, id, Pass) || id in g.missingChecks)
  {
    GateListsIff(suite, candidate, baseline, id);
  }

  // ----- The gate's errors

  ghost predicate FailsShipping(report: Report, id: Identity) {
    id.mode == SHIPPING && RawStatus(report, id, Fail)
  }

  ghost predicate AuthProblem(candidate: Report, baseline: Report, p: Problem) {
    || (p == AuthPolicyNotRecorded && (baseline.automaticAuth.None? || candidate.automaticAuth.None?))
    || (p == AuthPoliciesDiffer && baseline.automaticAuth.Some? && candidate.automaticAuth.Some?
        && baseline.automaticAuth != candidate.automaticAuth)
  }

  ghost predicate Names(side: Side, id: Identity, p: Problem) {
    match side
    case Candidate => p == ShippingCheckFailed(id.checkId)
    case Baseline => p == BaselineShippingCheckFailed(id.checkId)
  }

  ghost predicate ShippingReported(report: Report, side: Side, p: Problem) {
    exists id :: FailsShipping(report, id) && Names(side, id, p)
  }

  ghost predicate PolicyProblem(candidate: Report, baseline: Report, p: Problem) {
    || AuthProblem(candidate, baseline, p)
    || ShippingReported(candidate, Candidate, p)
    || ShippingReported(baseline, Baseline, p)
  }

  lemma {:induction false} InShippingProblems(side: Side, ids: seq<Identity>, p: Problem)
    ensures p in ShippingProblems(side, ids) <==> exists id :: id in ids && Names(side, id, p)
    decreases |ids|
  {
    if ids != [] {
      InShippingProblems(side, ids[1..], p);
      assert forall id :: id in ids <==> id == ids[0] || id in ids[1..];
      assert p == ShippingProblem(side, ids[0].checkId) <==> Names(side, ids[0], p);
    }
  }

  ghost function ShippingIds(suite: Suite, report: Report, side: Side): seq<Identity> {
    var checks := RequiredChecks(suite, report, side).checks;
    ShippingFailures(checks, SortedIds(checks.Keys))
  }

  lemma ShippingIdIff(suite: Suite, report: Report, side: Side, id: Identity)
    ensures id in ShippingIds(suite, report, side) <==> FailsShipping(report, id)
  {
    FailsIff(suite, report, side, id);
  }

  lemma ShippingErrorIff(suite: Suite, report: Report, side: Side, ids: seq<Identity>, p: Problem)
    requires ids == ShippingIds(suite, report, side)
    ensures p in ShippingProblems(side, ids) <==> ShippingReported(report, side, p)
  {
    InShippingProblems(side, ids, p);
    forall id ensures id in ids <==> FailsShipping(report, id) { ShippingIdIff(suite, report, side, id); }
  }

  lemma AuthErrorIff(candidate: Report, baseline: Report, p: Problem)
    ensures p in AuthProblems(baseline.automaticAuth, candidate.automaticAuth) <==> AuthProblem(candidate, baseline, p)
  {
  }

  lemma InJoined<T>(a: seq<T>, b: seq<T>, c: seq<T>, x: T)
    ensures x in a + (b + c) <==> x in a || x in b || x in c
  {
  }

  lemma PolicyErrorIff(suite: Suite, candidate: Report, baseline: Report, p: Problem)
    ensures p in PolicyErrors(ReadInput(suite, baseline, Baseline), ReadInput(suite, candidate, Candidate))
       <==> PolicyProblem(candidate, baseline, p)
  {
    var auth := AuthProblems(baseline.automaticAuth, candidate.automaticAuth);
    var mine, theirs := ShippingIds(suite, candidate, Candidate), ShippingIds(suite, baseline, Baseline);
    InJoined(auth, ShippingProblems(Candidate, mine), ShippingProblems(Baseline, theirs), p);
    AuthErrorIff(candidate, baseline, p);
    ShippingErrorIff(suite, candidate, Candidate, mine, p);
    ShippingErrorIff(suite, baseline, Baseline, theirs, p);
  }

  /** The gate's errors are those of the two reports, and breaches of policy: the production OAuth setting is not
      recorded or differs, or a shipping check fails on either side. */
  lemma GateErrorIff(suite: Suite, candidate: Report, baseline: Report, p: Problem)
    ensures p in Gate(suite, candidate, baseline).configurationErrors <==>
      || p in RequiredChecks(suite, baseline, Baseline).problems
      || p in RequiredChecks(suite, candidate, Candidate).problems
      || PolicyProblem(candidate, baseline, p)
  {
    PolicyErrorIff(suite, candidate, baseline, p);
  }

  // ----- The lists of a compact baseline

  /** A compact baseline records, per bucket and in ascending order, exactly the checks with that verdict. */
  lemma CompactRecords(suite: Suite, report: Report, s: Status) returns (ids: seq<Identity>)
    requires Compact(suite, report).Ok? && s != Skip
    ensures Ascending(ids) && forall id :: id in ids <==> RawStatus(report, id, s)
    ensures var records := RecordsOf(Compact(suite, report).value, s);
      |records| == |ids| && forall i :: 0 <= i < |ids| ==> records[i] == RecordOf(ids[i])
  {
    CompactIsForm(suite, report);
    var checks := RequiredChecks(suite, report, Baseline).checks;
    ids := WithStatus(checks, s);
    SelectedAscending(checks.Keys, id => s in StatusesOf(checks, id));
    forall id ensures id in ids <==> RawStatus(report, id, s) { StatusReadIff(suite, report, Baseline, id, s); }
  }

  /** A report has no compact baseline exactly because of its problems, an unrecorded OAuth setting or a failing
      shipping check. */
  lemma CompactRefusedIff(suite: Suite, report: Report, p: Problem)
    ensures Compact(suite, report).Err? && p in Compact(suite, report).problems <==>
      || p in RequiredChecks(suite, report, Baseline).problems
      || (p == BaselineAuthNotRecorded && report.automaticAuth.None?)
      || (p == BaselineShippingRegression && exists id :: FailsShipping(report, id))
  {
    var checks := RequiredChecks(suite, report, Baseline).checks;
    if id :| id in checks && id.mode == SHIPPING && Fail in checks[id] {
      FailsIff(suite, report, Baseline, id);
      assert FailsShipping(report, id);
    }
    if id :| FailsShipping(report, id) {
      FailsIff(suite, report, Baseline, id);
      assert id in checks;
    }
  }
}
