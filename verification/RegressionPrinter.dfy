/** Printing a table of checks as a full compliance report, which the validator reads back. */
module RegressionPrinter {
  import opened Wrappers
  import opened Sorting
  import opened RegressionReports
  import opened RegressionFacts
  import opened RegressionGate
  import opened RegressionRaw
  import opened RegressionValidity

  // ----- Printing

  /** A check is named by its id, under any name, or by its name with any arrival number. */
  datatype Naming = ById(name: string) | ByName(number: string)

  type Style = (Identity, Status) -> Naming

  ghost predicate StyleValid(style: Style) {
    forall id, s :: if style(id, s).ById? then style(id, s).name != "" else IsNumber(style(id, s).number)
  }

  function PrintCheck(id: Identity, s: Status, naming: Naming): Option<RawCheck> {
    var (name, checkId) :=
      match naming
      case ById(name) => (name, Text(id.checkId))
      case ByName(number) => (id.checkId + "#" + number, Null);
    Some(RawCheck(Some(id.source), Written(id.scenario), Some(name), checkId, Some(StatusText(s)), Some(s != Fail)))
  }

  function PrintStatuses(id: Identity, statuses: set<Status>, style: Style): seq<Option<RawCheck>> {
    (if Pass in statuses then [PrintCheck(id, Pass, style(id, Pass))] else [])
    + (if Fail in statuses then [PrintCheck(id, Fail, style(id, Fail))] else [])
    + (if Skip in statuses then [PrintCheck(id, Skip, style(id, Skip))] else [])
  }

  function PrintChecks(checks: Checks, ids: seq<Identity>, style: Style): seq<Option<RawCheck>> {
    if ids == [] then []
    else PrintStatuses(ids[0], StatusesOf(checks, ids[0]), style) + PrintChecks(checks, ids[1..], style)
  }

  /** The identities of one case, in order. */
  function CaseIds(checks: Checks, mode: string, transport: string): seq<Identity> {
    Filter(SortedIds(checks.Keys), (id: Identity) => id.mode == mode && id.transport == transport)
  }

  function PrintCase(checks: Checks, mode: string, transport: string, style: Style): seq<Option<RawCheck>> {
    PrintChecks(checks, CaseIds(checks, mode, transport), style)
  }

  /** Mode and transport of the six required cases. */
  function Key(i: nat): (string, string)
    requires i < 6
  {
    (MODES[i/2], TRANSPORTS[i%2])
  }

  function CaseEntry(checks: Checks, key: (string, string), style: Style): Option<RawCase> {
    Some(RawCase(Some(key.0), Some(key.1), Some(PrintCase(checks, key.0, key.1, style))))
  }

  function CaseEntries(checks: Checks, style: Style): (r: seq<Option<RawCase>>)
    ensures |r| == 6 && forall i :: 0 <= i < 6 ==> r[i] == CaseEntry(checks, Key(i), style)
  {
    seq(6, i requires 0 <= i < 6 => CaseEntry(checks, Key(i), style))
  }

  function Print(suite: Suite, auth: Option<bool>, checks: Checks, style: Style): Report {
    Report(Some(SCHEMA_VERSION), Some(true), Some(true), auth,
           Some(Official(Some(suite.repository), Some(suite.gitRef), Some(true), Some(Catalog(suite)))),
           Full(Some(CaseEntries(checks, style))))
  }

  // ----- The raw checks of a case

  /** The raw check prints one status of one of the identities. */
  ghost predicate Prints(checks: Checks, ids: seq<Identity>, style: Style, raw: Option<RawCheck>) {
    exists id, s :: id in ids && s in StatusesOf(checks, id) && raw == PrintCheck(id, s, style(id, s))
  }

  lemma StatusesPrinted(id: Identity, statuses: set<Status>, style: Style, raw: Option<RawCheck>)
    ensures raw in PrintStatuses(id, statuses, style)
       <==> exists s :: s in statuses && raw == PrintCheck(id, s, style(id, s))
  {
    if s :| s in statuses && raw == PrintCheck(id, s, style(id, s)) {
      match s
      case Pass =>
      case Fail =>
      case Skip =>
    }
  }

  lemma {:induction false} ChecksPrinted(checks: Checks, ids: seq<Identity>, style: Style, raw: Option<RawCheck>)
    ensures raw in PrintChecks(checks, ids, style) <==> Prints(checks, ids, style, raw)
    decreases |ids|
  {
    if ids != [] {
      StatusesPrinted(ids[0], StatusesOf(checks, ids[0]), style, raw);
      ChecksPrinted(checks, ids[1..], style, raw);
      assert Prints(checks, ids, style, raw) <==>
        || (exists s :: s in StatusesOf(checks, ids[0]) && raw == PrintCheck(ids[0], s, style(ids[0], s)))
        || Prints(checks, ids[1..], style, raw);
    }
  }

  lemma PrintedReads(id: Identity, s: Status, naming: Naming)
    requires IsSource(id.source) && id.checkId != ""
    requires if naming.ById? then naming.name != "" else IsNumber(naming.number)
    ensures RawReads(id.mode, id.transport, PrintCheck(id, s, naming), id, s) && RawValid(PrintCheck(id, s, naming))
  {
    if naming.ByName? { assert Numbered(id.checkId + "#" + naming.number, id.checkId); }
  }

  lemma ReadsOnce(
    mode: string, transport: string, raw: Option<RawCheck>, id: Identity, s: Status, id': Identity, s': Status)
    requires RawReads(mode, transport, raw, id, s) && RawReads(mode, transport, raw, id', s')
    ensures id == id' && s == s'
  {
    ReadCheckIff(mode, transport, raw, id, s);
    ReadCheckIff(mode, transport, raw, id', s');
  }

  lemma InCase(checks: Checks, mode: string, transport: string, id: Identity)
    ensures id in CaseIds(checks, mode, transport) <==> id in checks && id.mode == mode && id.transport == transport
  {
  }

  ghost predicate Printable(checks: Checks, style: Style) { WellFormed(checks) && StyleValid(style) }

  lemma PrintedInCase(checks: Checks, mode: string, transport: string, style: Style, raw: Option<RawCheck>)
    returns (id: Identity, s: Status)
    requires Printable(checks, style) && raw in PrintCase(checks, mode, transport, style)
    ensures id in checks && s in checks[id] && id.mode == mode && id.transport == transport
    ensures raw == PrintCheck(id, s, style(id, s)) && RawReads(mode, transport, raw, id, s) && RawValid(raw)
  {
    var ids := CaseIds(checks, mode, transport);
    ChecksPrinted(checks, ids, style, raw);
    id, s :| id in ids && s in StatusesOf(checks, id) && raw == PrintCheck(id, s, style(id, s));
    InCase(checks, mode, transport, id);
    SourcesAgree(id.source);
    PrintedReads(id, s, style(id, s));
  }

  lemma PrintedCheckThere(checks: Checks, id: Identity, s: Status, style: Style)
    requires Printable(checks, style) && id in checks && s in checks[id]
    ensures PrintCheck(id, s, style(id, s)) in PrintCase(checks, id.mode, id.transport, style)
    ensures RawReads(id.mode, id.transport, PrintCheck(id, s, style(id, s)), id, s)
  {
    InCase(checks, id.mode, id.transport, id);
    ChecksPrinted(checks, CaseIds(checks, id.mode, id.transport), style, PrintCheck(id, s, style(id, s)));
    SourcesAgree(id.source);
    PrintedReads(id, s, style(id, s));
  }

  lemma CaseReads(checks: Checks, style: Style, id: Identity, s: Status)
    requires Printable(checks, style)
    ensures var raws := PrintCase(checks, id.mode, id.transport, style);
      ReadsAs(id.mode, id.transport, raws, |raws|, id, s) <==> HasStatus(checks, id, s)
  {
    var raws := PrintCase(checks, id.mode, id.transport, style);
    if HasStatus(checks, id, s) {
      PrintedCheckThere(checks, id, s, style);
      var k :| 0 <= k < |raws| && raws[k] == PrintCheck(id, s, style(id, s));
      assert RawReads(id.mode, id.transport, raws[k], id, s);
    }
    if ReadsAs(id.mode, id.transport, raws, |raws|, id, s) {
      var k :| 0 <= k < |raws| && RawReads(id.mode, id.transport, raws[k], id, s);
      var id', s' := PrintedInCase(checks, id.mode, id.transport, style, raws[k]);
      ReadsOnce(id.mode, id.transport, raws[k], id, s, id', s');
    }
  }

  // ----- The list of cases

  lemma TransportsDiffer()
    ensures STDIO != HTTP && TRANSPORTS[0] == STDIO && TRANSPORTS[1] == HTTP
  {
    assert STDIO[0] == 's' && HTTP[0] == 'o';
  }

  lemma ModesDiffer(i: nat, j: nat)
    requires i < j < |MODES|
    ensures MODES[i] != MODES[j]
  {
    assert SHIPPING[3] == '5' && LEGACY[3] == '5' && MODERN[3] == '6';
    assert SHIPPING[5] == '0' && LEGACY[5] == '1';
  }

  lemma KeysDiffer(i: nat, j: nat)
    requires i < j < 6
    ensures Key(i) != Key(j)
  {
    TransportsDiffer();
    if i / 2 != j / 2 { ModesDiffer(i / 2, j / 2); }
  }

  lemma KeyOf(checks: Checks, style: Style, i: nat)
    requires i < 6
    ensures CaseKey(CaseEntries(checks, style)[i]) == Some(Key(i))
  {
    assert MODES[i/2] in MODES;
  }

  lemma EntriesValid(checks: Checks, style: Style)
    ensures ListValid(CaseEntries(checks, style), 6)
  {
    var list := CaseEntries(checks, style);
    forall i | 0 <= i < 6 ensures CaseKey(list[i]) == Some(Key(i)) && EntryValid(list[i]) { KeyOf(checks, style, i); }
    forall i, j | 0 <= i < j < 6 ensures CaseKey(list[i]) != CaseKey(list[j]) { KeysDiffer(i, j); }
  }

  lemma KeyFor(mode: string, transport: string) returns (i: nat)
    requires mode in MODES && transport in TRANSPORTS
    ensures i < 6 && Key(i) == (mode, transport)
  {
    var m :| 0 <= m < |MODES| && MODES[m] == mode;
    var t :| 0 <= t < |TRANSPORTS| && TRANSPORTS[t] == transport;
    i := 2 * m + t;
    assert i / 2 == m && i % 2 == t;
  }

  lemma PrintedRaws(checks: Checks, style: Style, mode: string, transport: string)
    requires mode in MODES && transport in TRANSPORTS
    ensures RequiredRaws(CaseEntries(checks, style), mode, transport) == PrintCase(checks, mode, transport, style)
  {
    var list := CaseEntries(checks, style);
    var i := KeyFor(mode, transport);
    KeyOf(checks, style, i);
    var first := FirstCase(list, 6, (mode, transport));
    assert first <= i;
    KeyOf(checks, style, first);
  }

  // ----- Reading back

  /** In every mode, both transports have a check, and exactly the scenarios of the suite are observed. */
  ghost predicate CompleteTable(suite: Suite, checks: Checks) {
    forall mode :: mode in MODES ==>
      && HasCase(checks, mode, STDIO) && HasCase(checks, mode, HTTP)
      && forall scenario :: scenario in suite.Scenarios(mode) <==> ObservedIn(checks, mode, scenario)
  }

  ghost predicate ObservedIn(checks: Checks, mode: string, scenario: string) {
    exists id ::
      && id in checks && id.mode == mode && id.transport == HTTP && IsSuiteSource(id.source)
      && id.scenario == scenario
  }

  lemma ObservedWasPrinted(checks: Checks, style: Style, mode: string, scenario: string, raw: Option<RawCheck>)
    requires Printable(checks, style) && raw in PrintCase(checks, mode, HTTP, style) && ObservesAt(raw, scenario)
    ensures ObservedIn(checks, mode, scenario)
  {
    var id, s := PrintedInCase(checks, mode, HTTP, style, raw);
    assert Written(id.scenario) == Written(scenario);
  }

  lemma PrintedIsObserved(checks: Checks, style: Style, id: Identity)
    requires Printable(checks, style) && id in checks && id.transport == HTTP && IsSuiteSource(id.source)
    ensures var raws := PrintCase(checks, id.mode, HTTP, style); Observes(raws, |raws|, id.scenario)
  {
    var s :| s in checks[id];
    var raw := PrintCheck(id, s, style(id, s));
    PrintedCheckThere(checks, id, s, style);
    PrintedReads(id, s, style(id, s));
    assert ObservesAt(raw, id.scenario);
  }

  lemma PrintedObserves(checks: Checks, style: Style, mode: string, scenario: string)
    requires Printable(checks, style)
    ensures var raws := PrintCase(checks, mode, HTTP, style);
      Observes(raws, |raws|, scenario) <==> ObservedIn(checks, mode, scenario)
  {
    var raws := PrintCase(checks, mode, HTTP, style);
    if Observes(raws, |raws|, scenario) {
      var k :| 0 <= k < |raws| && ObservesAt(raws[k], scenario);
      ObservedWasPrinted(checks, style, mode, scenario, raws[k]);
    }
    if ObservedIn(checks, mode, scenario) {
      var id :|
        && id in checks && id.mode == mode && id.transport == HTTP
        && IsSuiteSource(id.source) && id.scenario == scenario;
      PrintedIsObserved(checks, style, id);
    }
  }

  lemma PrintedCaseValid(suite: Suite, checks: Checks, style: Style, mode: string, transport: string)
    requires Printable(checks, style) && HasCase(checks, mode, transport)
    requires transport == HTTP ==>
      forall scenario :: scenario in suite.Scenarios(mode) <==> ObservedIn(checks, mode, scenario)
    ensures CaseValid(suite, PrintCase(checks, mode, transport, style), mode, transport)
  {
    var raws := PrintCase(checks, mode, transport, style);
    var id :| id in checks && id.mode == mode && id.transport == transport;
    var s :| s in checks[id];
    PrintedCheckThere(checks, id, s, style);
    forall k | 0 <= k < |raws| ensures RawValid(raws[k]) {
      var id', s' := PrintedInCase(checks, mode, transport, style, raws[k]);
    }
    if transport == HTTP {
      forall scenario ensures scenario in suite.Scenarios(mode) <==> Observes(raws, |raws|, scenario) {
        PrintedObserves(checks, style, mode, scenario);
      }
    }
  }

  lemma PrintedValid(suite: Suite, auth: Option<bool>, checks: Checks, style: Style)
    requires Printable(checks, style) && CompleteTable(suite, checks)
    ensures var report := Print(suite, auth, checks, style); HeaderValid(suite, report) && FullValid(suite, report)
  {
    var list := CaseEntries(checks, style);
    EntriesValid(checks, style);
    TransportsDiffer();
    forall mode | mode in MODES
      ensures CaseValid(suite, RequiredRaws(list, mode, STDIO), mode, STDIO)
      ensures CaseValid(suite, RequiredRaws(list, mode, HTTP), mode, HTTP)
    {
      PrintedRaws(checks, style, mode, STDIO);
      PrintedRaws(checks, style, mode, HTTP);
      PrintedCaseValid(suite, checks, style, mode, STDIO);
      PrintedCaseValid(suite, checks, style, mode, HTTP);
    }
  }

  lemma StatusInList(report: Report, list: seq<Option<RawCase>>, id: Identity, s: Status)
    requires report.body == Full(Some(list))
    ensures var raws := RequiredRaws(list, id.mode, id.transport);
      RawStatus(report, id, s)
      <==> id.mode in MODES && id.transport in TRANSPORTS && ReadsAs(id.mode, id.transport, raws, |raws|, id, s)
  {
  }

  lemma PrintedStatus(report: Report, checks: Checks, style: Style, id: Identity, s: Status)
    requires Printable(checks, style) && report.body == Full(Some(CaseEntries(checks, style)))
    ensures RawStatus(report, id, s) <==> HasStatus(checks, id, s)
  {
    StatusInList(report, CaseEntries(checks, style), id, s);
    if id.mode in MODES && id.transport in TRANSPORTS {
      PrintedRaws(checks, style, id.mode, id.transport);
      CaseReads(checks, style, id, s);
    } else {
      assert id in checks ==> WellFormedId(id);
    }
  }

  /** Tables that give every check the same statuses are the same, if no check has none. */
  lemma SameTable(a: Checks, b: Checks)
    requires forall id, s :: HasStatus(a, id, s) <==> HasStatus(b, id, s)
    requires (forall id :: id in a ==> a[id] != {}) && (forall id :: id in b ==> b[id] != {})
    ensures a == b
  {
    forall id ensures id in a <==> id in b {
      if id in a { var s :| s in a[id]; assert HasStatus(a, id, s); }
      if id in b { var s :| s in b[id]; assert HasStatus(b, id, s); }
    }
    forall id | id in a ensures a[id] == b[id] {
      forall s ensures s in a[id] <==> s in b[id] { assert HasStatus(a, id, s) <==> HasStatus(b, id, s); }
    }
  }

  /** Every table of well-formed checks that is complete for the suite, printed in any style, is read back
      exactly, and nothing is found wrong with it. */
  lemma PrintedReadsBack(suite: Suite, auth: Option<bool>, checks: Checks, style: Style, side: Side)
    requires WellFormed(checks) && StyleValid(style) && CompleteTable(suite, checks)
    ensures RequiredChecks(suite, Print(suite, auth, checks, style), side) == Reading(checks, [])
  {
    var report := Print(suite, auth, checks, style);
    var read := RequiredChecks(suite, report, side);
    PrintedValid(suite, auth, checks, style);
    NoProblemsIff(suite, report, side);
    ReadingFacts(suite, report, side);
    forall id, s ensures HasStatus(read.checks, id, s) <==> HasStatus(checks, id, s) {
      StatusReadIff(suite, report, side, id, s);
      PrintedStatus(report, checks, style, id, s);
    }
    SameTable(read.checks, checks);
  }
}
