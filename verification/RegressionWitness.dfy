/** A report the gate accepts whose compact baseline it refuses: every check was skipped. */
module RegressionWitness {
  import opened Wrappers
  import opened RegressionReports
  import opened RegressionFacts
  import opened RegressionGate
  import opened RegressionTheorems
  import opened RegressionRaw
  import opened RegressionPrinter

  /** One supplemental check per case, and one check per scenario of the suite, all skipped. */
  ghost predicate Skipped(suite: Suite, id: Identity) {
    && id.mode in MODES && id.checkId == "c"
    && if id.source == "supplemental" then id.transport in TRANSPORTS && id.scenario == ""
       else id.source == "official" && id.transport == HTTP && id.scenario in suite.Scenarios(id.mode)
  }

  ghost function Supplemental(): set<Identity> {
    set m, t | m in MODES && t in TRANSPORTS :: Identity(m, t, "supplemental", "", "c")
  }

  ghost function Official(suite: Suite): set<Identity> {
    set m, i | m in MODES && 0 <= i < |suite.Scenarios(m)| :: Identity(m, HTTP, "official", suite.Scenarios(m)[i], "c")
  }

  ghost function AllSkipped(suite: Suite): Checks {
    map id | id in Supplemental() + Official(suite) :: {Skip}
  }

  lemma SkippedTable(suite: Suite, id: Identity)
    ensures id in AllSkipped(suite) <==> Skipped(suite, id)
  {
    assert "supplemental"[0] == 's' && "official"[0] == 'o';
    if Skipped(suite, id) && id.source != "supplemental" {
      var i :| 0 <= i < |suite.Scenarios(id.mode)| && suite.Scenarios(id.mode)[i] == id.scenario;
      assert id == Identity(id.mode, HTTP, "official", suite.Scenarios(id.mode)[i], "c");
    }
  }

  lemma TableWellFormed(suite: Suite)
    ensures WellFormed(AllSkipped(suite))
  {
    TransportsDiffer();
    forall id | id in AllSkipped(suite) ensures WellFormedId(id) { SkippedTable(suite, id); }
  }

  lemma TableComplete(suite: Suite)
    ensures CompleteTable(suite, AllSkipped(suite))
  {
    var checks := AllSkipped(suite);
    TransportsDiffer();
    forall mode, transport | mode in MODES && transport in TRANSPORTS ensures HasCase(checks, mode, transport) {
      SkippedTable(suite, Identity(mode, transport, "supplemental", "", "c"));
    }
    forall mode, scenario | mode in MODES
      ensures scenario in suite.Scenarios(mode) <==> ObservedIn(checks, mode, scenario)
    {
      ScenarioInTable(suite, mode, scenario);
    }
  }

  lemma ScenarioInTable(suite: Suite, mode: string, scenario: string)
    requires mode in MODES
    ensures scenario in suite.Scenarios(mode) <==> ObservedIn(AllSkipped(suite), mode, scenario)
  {
    var checks := AllSkipped(suite);
    assert "supplemental"[0] == 's' && "official"[0] == 'o' && "harness"[0] == 'h';
    var id := Identity(mode, HTTP, "official", scenario, "c");
    SkippedTable(suite, id);
    if scenario in suite.Scenarios(mode) {
      assert id in checks && IsSuiteSource(id.source);
    }
    if ObservedIn(checks, mode, scenario) {
      var other :|
        && other in checks && other.mode == mode && other.transport == HTTP
        && IsSuiteSource(other.source) && other.scenario == scenario;
      SkippedTable(suite, other);
    }
  }

  /** The report: the table printed, every check under its id. */
  ghost function SkippedReport(suite: Suite): Report {
    Print(suite, Some(true), AllSkipped(suite), (id, s) => ById("n"))
  }

  lemma SkippedReads(suite: Suite, report: Report)
    requires report == SkippedReport(suite)
    ensures RequiredChecks(suite, report, Baseline) == Reading(AllSkipped(suite), [])
  {
    TableWellFormed(suite);
    TableComplete(suite);
    PrintedReadsBack(suite, Some(true), AllSkipped(suite), (id, s) => ById("n"), Baseline);
  }

  lemma SkipsDecideNothing(suite: Suite)
    ensures !Covered(suite, AllSkipped(suite)) && !ShippingFails(AllSkipped(suite))
  {
    assert MODES[0] in MODES;
  }

  lemma SkippedCompacts(suite: Suite, report: Report)
    requires report == SkippedReport(suite)
    ensures Compact(suite, report).Ok? && Gateable(suite, report, Baseline)
    ensures !Covered(suite, RequiredChecks(suite, report, Baseline).checks)
  {
    SkippedReads(suite, report);
    SkipsDecideNothing(suite);
    CompactIsForm(suite, report);
  }

  /** Whatever the suite: the report passes against itself, and is refused against its own compact baseline. */
  lemma CompactingLosesSkippedEvidence(suite: Suite, report: Report)
    requires report == SkippedReport(suite)
    ensures Compact(suite, report).Ok?
    ensures Gate(suite, report, report).success && !Gate(suite, report, Compact(suite, report).value).success
  {
    SkippedCompacts(suite, report);
    GateIsReflexive(suite, report);
    GateOnCompactBaseline(suite, report, report);
  }
}
