/** What the lists of the review gate and of a compact review baseline hold, told from the raw reports. */
module ReviewLists {
  import opened Wrappers
  import opened Sorting
  import opened ReviewReports
  import opened ReviewGate
  import opened ReviewValidity

  function Fields(id: Identity): seq<string> { [id.mode, id.transport, id.checkId] }

  /** In strictly ascending order of mode, transport and check id. */
  ghost predicate Ascending(ids: seq<Identity>) {
    forall i, j :: 0 <= i < j < |ids| ==> KeyBefore(Fields(ids[i]), Fields(ids[j]))
  }

  lemma SelectedAscending(ids: set<Identity>, p: Identity -> bool)
    ensures Ascending(Filter(SortedIds(ids), p))
    ensures forall id :: id in Filter(SortedIds(ids), p) <==> id in ids && p(id)
  {
    IdentityOrder();
    var sorted := SortedIds(ids);
    var kept := Filter(sorted, p);
    FilterKeepsPairs(sorted, p, IdentityLe);
    FilterKeepsPairs(sorted, p, (x, y) => x != y);
    forall i, j | 0 <= i < j < |kept| ensures KeyBefore(Fields(kept[i]), Fields(kept[j])) {
      assert IdentityLe(kept[i], kept[j]) && kept[i] != kept[j];
      Before(kept[i], kept[j]);
    }
  }

  lemma Before(a: Identity, b: Identity)
    requires IdentityLe(a, b) && a != b
    ensures KeyBefore(Fields(a), Fields(b))
  {
    assert Fields(a) == a.Key() && Fields(b) == b.Key();
    KeyLeIff(a.Key(), b.Key());
    IdentityOrder();
    if a.Key() == b.Key() { assert IdentityLe(b, a); }
  }

  /** Which list of a result a check is in, by its verdict in the baseline and in the candidate. */
  ghost predicate Listed(g: GateResult, was: Option<bool>, now: Option<bool>, id: Identity) {
    && (id in g.newFailures <==> now == Some(false) && was != Some(false))
    && (id in g.knownFailures <==> now == Some(false) && was == Some(false))
    && (id in g.missingChecks <==> was.Some? && now.None?)
    && (id in g.fixedChecks <==> was == Some(false) && now == Some(true))
  }

  lemma CompareLists(b: Reading, c: Reading, id: Identity)
    ensures Listed(Compare(b, c, SortedIds(b.checks.Keys), SortedIds(c.checks.Keys)),
                   Lookup(b.checks, id), Lookup(c.checks, id), id)
  {
  }

  /** The verdicts that count are those the two raw reports give. */
  lemma GateListsIff(plan: Plan, candidate: Report, baseline: Report, id: Identity)
    ensures Listed(Gate(plan, candidate, baseline), RawVerdict(plan, baseline, id), RawVerdict(plan, candidate, id), id)
  {
    VerdictRead(plan, baseline, id);
    VerdictRead(plan, candidate, id);
    CompareLists(RequiredChecks(plan, baseline), RequiredChecks(plan, candidate), id);
  }

  /** Every list of the result is in strictly ascending order. */
  lemma GateListsAscend(plan: Plan, candidate: Report, baseline: Report)
    ensures var g := Gate(plan, candidate, baseline);
      Ascending(g.newFailures) && Ascending(g.knownFailures) && Ascending(g.missingChecks) && Ascending(g.fixedChecks)
  {
    var b, c := RequiredChecks(plan, baseline).checks, RequiredChecks(plan, candidate).checks;
    SelectedAscending(c.Keys, id => NewFailure(b, c, id));
    SelectedAscending(c.Keys, id => KnownFailure(b, c, id));
    SelectedAscending(b.Keys, id => Missing(b, c, id));
    SelectedAscending(b.Keys, id => Fixed(b, c, id));
  }

  ghost predicate Accounted(g: GateResult, was: Option<bool>, now: Option<bool>, id: Identity) {
    && (now == Some(false) <==> id in g.newFailures || id in g.knownFailures)
    && !(id in g.newFailures && id in g.knownFailures)
    && !(id in g.missingChecks && id in g.fixedChecks)
    && (was == Some(false) ==> id in g.knownFailures || id in g.fixedChecks || id in g.missingChecks)
    && (was == Some(true) ==> now == Some(true) || id in g.newFailures || id in g.missingChecks)
  }

  lemma ListedAccounts(g: GateResult, was: Option<bool>, now: Option<bool>, id: Identity)
    requires Listed(g, was, now, id)
    ensures Accounted(g, was, now, id)
  {
    match now {
      case None =>
      case Some(passes) => assert if passes then now == Some(true) else now == Some(false);
    }
  }

  /** New and known failures partition the candidate's failures, and no check of the baseline goes unaccounted for:
      one that failed still fails, is fixed or is missing, and one that passed passes, newly fails or is missing. */
  lemma GateAccountsForAll(plan: Plan, candidate: Report, baseline: Report, id: Identity)
    ensures var was, now := RawVerdict(plan, baseline, id), RawVerdict(plan, candidate, id);
      Accounted(Gate(plan, candidate, baseline), was, now, id)
  {
    GateListsIff(plan, candidate, baseline, id);
    var was, now := RawVerdict(plan, baseline, id), RawVerdict(plan, candidate, id);
    ListedAccounts(Gate(plan, candidate, baseline), was, now, id);
  }

  /** The gate's errors are the problems of the two reports, each under the report it is about. */
  lemma GateErrorIff(plan: Plan, candidate: Report, baseline: Report, p: Problem)
    ensures var errors := Gate(plan, candidate, baseline).configurationErrors;
      && (BaselineProblem(p) in errors <==> p in RequiredChecks(plan, baseline).problems)
      && (CandidateProblem(p) in errors <==> p in RequiredChecks(plan, candidate).problems)
  {
    InErrors(RequiredChecks(plan, baseline).problems, RequiredChecks(plan, candidate).problems, p);
  }

  lemma InErrors(baseline: seq<Problem>, candidate: seq<Problem>, p: Problem)
    ensures BaselineProblem(p) in Errors(baseline, candidate) <==> p in baseline
    ensures CandidateProblem(p) in Errors(baseline, candidate) <==> p in candidate
  {
    var errors := Errors(baseline, candidate);
    assert forall i :: 0 <= i < |baseline| ==> errors[i] == BaselineProblem(baseline[i]);
    assert forall i :: 0 <= i < |candidate| ==> errors[|baseline| + i] == CandidateProblem(candidate[i]);
  }

  /** A compact baseline records, per bucket and in ascending order, exactly the checks with that verdict. */
  lemma CompactRecords(plan: Plan, report: Report, success: bool) returns (ids: seq<Identity>)
    requires Compact(plan, report).Ok?
    ensures Ascending(ids) && forall id :: id in ids <==> RawVerdict(plan, report, id) == Some(success)
    ensures var buckets := Compact(plan, report).value.body.checks.value;
      (if success then buckets.passing else buckets.failing) == Some(ToRecords(ids))
  {
    var checks := RequiredChecks(plan, report).checks;
    ids := if success then PassingIds(checks, SortedIds(checks.Keys)) else FailingIds(checks, SortedIds(checks.Keys));
    SelectedAscending(checks.Keys, id => Succeeds(checks, id));
    SelectedAscending(checks.Keys, id => Fails(checks, id));
    forall id ensures id in ids <==> RawVerdict(plan, report, id) == Some(success) { VerdictRead(plan, report, id); }
  }

  /** A report has a compact baseline exactly when nothing is wrong with it; otherwise its problems are the answer. */
  lemma CompactRefusedIff(plan: Plan, report: Report, p: Problem)
    ensures Compact(plan, report).Err? && p in Compact(plan, report).problems
       <==> p in RequiredChecks(plan, report).problems
  {
  }
}
