/** What every reading of a compliance report satisfies, and what a reading without problems says. */
module RegressionFacts {
  import opened Wrappers
  import opened Sorting
  import opened RegressionReports

  ghost predicate WellFormedId(id: Identity) {
    id.mode in MODES && id.transport in TRANSPORTS && KnownSource(id.source) && id.checkId != []
  }

  ghost predicate WellFormed(checks: Checks) {
    forall id :: id in checks ==> WellFormedId(id) && checks[id] != {}
  }

  ghost predicate NoSkip(checks: Checks) {
    forall id :: id in checks ==> Skip !in checks[id]
  }

  lemma {:induction false} RecordsWellFormed(
    side: Side, bucket: Status, records: seq<Option<RawRecord>>, n: nat, start: Reading)
    requires n <= |records| && WellFormed(start.checks)
    ensures WellFormed(ReadRecords(side, bucket, records, n, start).checks)
    ensures start.problems <= ReadRecords(side, bucket, records, n, start).problems
  {
    if n > 0 { RecordsWellFormed(side, bucket, records, n - 1, start); }
  }

  lemma {:induction false} CasesKeepProblems(side: Side, cases: seq<Option<RawCase>>, n: nat, start: seq<Problem>)
    requires n <= |cases|
    ensures start <= CollectCases(side, cases, n, start).problems
  {
    if n > 0 { CasesKeepProblems(side, cases, n - 1, start); }
  }

  /** Reading one case adds checks of that case only, and forgets neither checks nor problems. */
  ghost predicate Extends(mode: string, transport: string, start: Reading, checks: Checks, problems: seq<Problem>) {
    && WellFormed(checks)
    && start.problems <= problems
    && start.checks.Keys <= checks.Keys
    && (forall id :: id in checks && id !in start.checks ==> id.mode == mode && id.transport == transport)
  }

  ghost predicate CaseRead(mode: string, transport: string, start: Reading, read: CaseReading) {
    && Extends(mode, transport, start, read.checks, read.problems)
    && (transport == HTTP ==>
          ObservedScenarios(read.checks, mode) == ObservedScenarios(start.checks, mode) + read.observed)
  }

  lemma CheckStepFacts(
    side: Side, mode: string, transport: string, start: Reading, before: CaseReading, raw: Option<RawCheck>)
    requires mode in MODES && transport in TRANSPORTS && CaseRead(mode, transport, start, before)
    ensures CaseRead(mode, transport, start, CheckStep(side, mode, transport, before, raw))
    ensures CheckStep(side, mode, transport, before, raw).problems == start.problems
        ==> HasCase(CheckStep(side, mode, transport, before, raw).checks, mode, transport)
  {
    var read := ReadCheck(mode, transport, raw);
    if read.Some? {
      var (id, status) := read.value;
      var after := AddStatus(before.checks, id, status);
      AddObserves(before.checks, mode, id, status);
      assert id in after;
      assert forall other :: other in after ==> other == id || other in before.checks;
    }
  }

  lemma {:induction false} ChecksFacts(
    side: Side, mode: string, transport: string, raws: seq<Option<RawCheck>>, n: nat, start: Reading)
    requires n <= |raws| && mode in MODES && transport in TRANSPORTS && WellFormed(start.checks)
    ensures var read := ReadChecks(side, mode, transport, raws, n, start);
      && CaseRead(mode, transport, start, read)
      && (read.problems == start.problems && n > 0 ==> HasCase(read.checks, mode, transport))
  {
    if n > 0 {
      ChecksFacts(side, mode, transport, raws, n - 1, start);
      CheckStepFacts(side, mode, transport, start, ReadChecks(side, mode, transport, raws, n - 1, start), raws[n-1]);
    }
  }

  lemma AddObserves(checks: Checks, mode: string, id: Identity, status: Status)
    requires id.mode == mode
    ensures ObservedScenarios(AddStatus(checks, id, status), mode)
      == ObservedScenarios(checks, mode) + if id.transport == HTTP && FromSuite(id.source) then {id.scenario} else {}
  {
    var after := AddStatus(checks, id, status);
    forall s | s in ObservedScenarios(checks, mode) ensures s in ObservedScenarios(after, mode) {
      var known :| known in checks && known.mode == mode && known.transport == HTTP && FromSuite(known.source)
        && known.scenario == s;
      assert known in after;
    }
    assert id in after;
  }

  /** One mode of a report as the gate needs it: both cases present, exactly the catalogue observed. */
  ghost predicate ModeComplete(suite: Suite, report: Report, checks: Checks, mode: string) {
    && mode in Selected(report) && Selected(report)[mode] == suite.Scenarios(mode)
    && HasCase(checks, mode, STDIO) && HasCase(checks, mode, HTTP)
    && ObservedScenarios(checks, mode) == Elements(suite.Scenarios(mode))
  }

  lemma ScenarioProblemsEmpty(suite: Suite, side: Side, mode: string, observed: set<string>)
    ensures ScenarioProblems(suite, side, mode, observed) == [] <==> observed == Elements(suite.Scenarios(mode))
  {
    var expected := Elements(suite.Scenarios(mode));
    assert expected - observed == {} && observed - expected == {} <==> observed == expected;
  }

  lemma CaseFacts(
    suite: Suite, side: Side, cases: map<(string, string), RawCase>, mode: string, transport: string, start: Reading)
    requires mode in MODES && transport in TRANSPORTS && WellFormed(start.checks)
    ensures var read := ReadCase(suite, side, cases, mode, transport, start);
      && Extends(mode, transport, start, read.checks, read.problems)
      && (read.problems == start.problems ==> HasCase(read.checks, mode, transport))
      && (read.problems == start.problems && transport == HTTP && ObservedScenarios(start.checks, mode) == {}
          ==> ObservedScenarios(read.checks, mode) == Elements(suite.Scenarios(mode)))
  {
    if (mode, transport) in cases && cases[(mode, transport)].checks.Some?
      && cases[(mode, transport)].checks.value != [] {
      var raws := cases[(mode, transport)].checks.value;
      ChecksFacts(side, mode, transport, raws, |raws|, start);
      var read := ReadChecks(side, mode, transport, raws, |raws|, start);
      var more := if transport == HTTP then ScenarioProblems(suite, side, mode, read.observed) else [];
      ScenarioProblemsEmpty(suite, side, mode, read.observed);
      PrefixSum(start.problems, read.problems, more);
    }
  }

  lemma PrefixSum<T>(a: seq<T>, b: seq<T>, c: seq<T>)
    requires a <= b
    ensures a <= b + c
    ensures b + c == a <==> b == a && c == []
  {
    assert |b + c| == |b| + |c|;
  }

  ghost predicate OnlyModes(checks: Checks, n: nat)
    requires n <= |MODES|
  {
    forall id :: id in checks ==> id.mode in MODES[..n]
  }

  lemma ModesDistinct()
    ensures NoDuplicates(MODES)
    ensures STDIO != HTTP
  {
    assert SHIPPING[5] == '0' && LEGACY[5] == '1' && SHIPPING[3] == '5' && LEGACY[3] == '5' && MODERN[3] == '6';
  }

  lemma ModeFacts(
    suite: Suite, report: Report, side: Side, cases: map<(string, string), RawCase>, n: nat, start: Reading)
    requires n < |MODES| && WellFormed(start.checks) && OnlyModes(start.checks, n)
    ensures var read := ReadMode(suite, report, side, cases, MODES[n], start);
      && WellFormed(read.checks) && OnlyModes(read.checks, n + 1)
      && start.problems <= read.problems
      && start.checks.Keys <= read.checks.Keys
      && (forall id :: id in read.checks && id !in start.checks ==> id.mode == MODES[n])
      && (read.problems == start.problems ==> ModeComplete(suite, report, read.checks, MODES[n]))
  {
    var mode := MODES[n];
    ModesDistinct();
    assert mode !in MODES[..n];
    var catalog := start.(problems := start.problems + CatalogProblems(suite, report, side, mode));
    CaseFacts(suite, side, cases, mode, STDIO, catalog);
    var stdio := ReadCase(suite, side, cases, mode, STDIO, catalog);
    CaseFacts(suite, side, cases, mode, HTTP, stdio);
    assert ObservedScenarios(stdio.checks, mode) == {} by {
      assert forall id :: id in stdio.checks && id.mode == mode ==> id.transport != HTTP;
    }
    assert MODES[..n+1] == MODES[..n] + [mode];
  }

  lemma ModeCompleteKept(suite: Suite, report: Report, small: Checks, large: Checks, mode: string)
    requires ModeComplete(suite, report, small, mode)
    requires small.Keys <= large.Keys
    requires forall id :: id in large && id !in small ==> id.mode != mode
    ensures ModeComplete(suite, report, large, mode)
  {
    assert ObservedScenarios(large, mode) == ObservedScenarios(small, mode);
  }

  lemma {:induction false} CompleteUpToKept(suite: Suite, report: Report, small: Checks, large: Checks, n: nat, at: nat)
    requires n <= at < |MODES| && CompleteUpTo(suite, report, small, n)
    requires small.Keys <= large.Keys
    requires forall id :: id in large && id !in small ==> id.mode == MODES[at]
    ensures CompleteUpTo(suite, report, large, n)
    decreases n
  {
    if n > 0 {
      CompleteUpToKept(suite, report, small, large, n - 1, at);
      ModesDistinct();
      ModeCompleteKept(suite, report, small, large, MODES[n-1]);
    }
  }

  lemma {:induction false} ModesFacts(
    suite: Suite, report: Report, side: Side, cases: map<(string, string), RawCase>, n: nat, start: seq<Problem>)
    requires n <= |MODES|
    ensures var read := ReadModes(suite, report, side, cases, n, start);
      && WellFormed(read.checks) && OnlyModes(read.checks, n)
      && start <= read.problems
      && (read.problems == start ==> CompleteUpTo(suite, report, read.checks, n))
  {
    if n > 0 {
      ModesFacts(suite, report, side, cases, n - 1, start);
      var before := ReadModes(suite, report, side, cases, n - 1, start);
      ModeFacts(suite, report, side, cases, n - 1, before);
      var read := ReadModes(suite, report, side, cases, n, start);
      if read.problems == start {
        CompleteUpToKept(suite, report, before.checks, read.checks, n - 1, n - 1);
      }
    }
  }

  lemma CompactModeProblemsEmpty(suite: Suite, report: Report, side: Side, checks: Checks, mode: string)
    ensures CompactModeProblems(suite, report, side, checks, mode) == [] <==> ModeComplete(suite, report, checks, mode)
  {
    ScenarioProblemsEmpty(suite, side, mode, ObservedScenarios(checks, mode));
  }

  ghost predicate CompleteUpTo(suite: Suite, report: Report, checks: Checks, n: nat)
    requires n <= |MODES|
  {
    n == 0 || (CompleteUpTo(suite, report, checks, n - 1) && ModeComplete(suite, report, checks, MODES[n-1]))
  }

  lemma {:induction false} CompactModesProblemsEmpty(suite: Suite, report: Report, side: Side, checks: Checks, n: nat)
    requires n <= |MODES|
    ensures CompactModesProblems(suite, report, side, checks, n) == []
       <==> CompleteUpTo(suite, report, checks, n)
  {
    if n > 0 {
      CompactModesProblemsEmpty(suite, report, side, checks, n - 1);
      CompactModeProblemsEmpty(suite, report, side, checks, MODES[n-1]);
      var before, last := CompactModesProblems(suite, report, side, checks, n - 1),
        CompactModeProblems(suite, report, side, checks, MODES[n-1]);
      assert before + last == [] <==> before == [] && last == [];
    }
  }

  ghost predicate Complete(suite: Suite, report: Report, checks: Checks) {
    forall mode :: mode in MODES ==> ModeComplete(suite, report, checks, mode)
  }

  /** Any reading is well formed; one without problems comes from a report that is complete in every mode. */
  lemma ReadingFacts(suite: Suite, report: Report, side: Side)
    ensures var read := RequiredChecks(suite, report, side);
      && WellFormed(read.checks)
      && (read.problems == [] ==>
            && HeaderProblems(suite, report, side) == []
            && Complete(suite, report, read.checks))
  {
    var header := HeaderProblems(suite, report, side);
    var read := RequiredChecks(suite, report, side);
    if report.body.Full? {
      var list := if report.body.cases.Some? then report.body.cases.value else [];
      var start := header + If(report.body.cases.None?, NoCases(side));
      CasesKeepProblems(side, list, |list|, start);
      var cases := CollectCases(side, list, |list|, start);
      ModesFacts(suite, report, side, cases.byKey, |MODES|, cases.problems);
      CompleteFromIndices(suite, report, read.checks);
    } else {
      CompactReadingFacts(suite, report, side);
    }
  }

  lemma CompleteFromIndices(suite: Suite, report: Report, checks: Checks)
    ensures Complete(suite, report, checks) <==> CompleteUpTo(suite, report, checks, |MODES|)
  {
    assert MODES[0] in MODES && MODES[1] in MODES && MODES[2] in MODES;
    assert forall mode :: mode in MODES ==> mode == MODES[0] || mode == MODES[1] || mode == MODES[2];
    assert CompleteUpTo(suite, report, checks, 1) <==> ModeComplete(suite, report, checks, MODES[0]);
    assert CompleteUpTo(suite, report, checks, 2)
      <==> CompleteUpTo(suite, report, checks, 1) && ModeComplete(suite, report, checks, MODES[1]);
  }

  lemma CompactReadingFacts(suite: Suite, report: Report, side: Side)
    requires report.body.Compacted?
    ensures var read := RequiredChecks(suite, report, side);
      && WellFormed(read.checks)
      && (read.problems == [] ==>
            && HeaderProblems(suite, report, side) == []
            && Complete(suite, report, read.checks)
            && NoSkip(read.checks))
  {
    var read := RequiredChecks(suite, report, side);
    if report.body.kind == COMPACT_KIND && report.body.checks.Some? {
      var problems := HeaderProblems(suite, report, side)
        + If(report.body.requiredModes != Some(MODES), WrongRequiredModes(side))
        + If(!BothTransports(report.body.transports), WrongTransports(side));
      var start := Reading(map[], problems);
      var passing := ReadBucket(side, Pass, report.body.checks.value.passing, start);
      BucketFacts(side, Pass, report.body.checks.value.passing, start);
      BucketFacts(side, Fail, report.body.checks.value.failing, passing);
      CompactModesProblemsEmpty(suite, report, side, read.checks, |MODES|);
      CompleteFromIndices(suite, report, read.checks);
    }
  }

  lemma BucketFacts(side: Side, bucket: Status, records: Option<seq<Option<RawRecord>>>, start: Reading)
    requires bucket != Skip && WellFormed(start.checks)
    requires NoSkip(start.checks)
    ensures var read := ReadBucket(side, bucket, records, start);
      && WellFormed(read.checks) && start.problems <= read.problems
      && NoSkip(read.checks)
  {
    if records.Some? {
      RecordsWellFormed(side, bucket, records.value, |records.value|, start);
      NoSkipFromRecords(side, bucket, records.value, |records.value|, start);
    }
  }

  lemma {:induction false} NoSkipFromRecords(
    side: Side, bucket: Status, records: seq<Option<RawRecord>>, n: nat, start: Reading)
    requires n <= |records| && bucket != Skip
    requires NoSkip(start.checks)
    ensures NoSkip(ReadRecords(side, bucket, records, n, start).checks)
  {
    if n > 0 {
      NoSkipFromRecords(side, bucket, records, n - 1, start);
    }
  }
}
