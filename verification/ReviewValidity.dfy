/** What the review validator reads, and when it finds nothing wrong, told from the raw report alone. */
module ReviewValidity {
  import opened Wrappers
  import opened ReviewReports

  function Lookup(checks: Checks, id: Identity): Option<bool> { if id in checks then Some(checks[id]) else None }

  // ----- The checks of one case

  /** The name and verdict of a well-formed check. */
  function ReadCheck(raw: Option<RawCheck>): Option<(string, bool)> {
    if raw.Some? && raw.value.name.Some? && CHECK_PREFIX <= raw.value.name.value && raw.value.success.Some?
    then Some((raw.value.name.value, raw.value.success.value)) else None
  }

  predicate Names(raw: Option<RawCheck>, name: string) { ReadCheck(raw).Some? && ReadCheck(raw).value.0 == name }

  /** The verdict of the first check of that name among the first `n`. */
  function FirstVerdict(raws: seq<Option<RawCheck>>, n: nat, name: string): (r: Option<bool>)
    requires n <= |raws|
    ensures r.None? <==> forall k :: 0 <= k < n ==> !Names(raws[k], name)
  {
    if n == 0 then None
    else
      var before := FirstVerdict(raws, n - 1, name);
      if before.Some? then before else if Names(raws[n-1], name) then Some(ReadCheck(raws[n-1]).value.1) else None
  }

  lemma {:induction false} ChecksVerdict(at: CaseId, raws: seq<Option<RawCheck>>, n: nat, start: Reading, id: Identity)
    requires n <= |raws|
    ensures Lookup(ReadChecks(at, raws, n, start).checks, id)
      == if id in start.checks then Some(start.checks[id])
         else if id.Case() == at then FirstVerdict(raws, n, id.checkId) else None
  {
    if n > 0 { ChecksVerdict(at, raws, n - 1, start, id); }
  }

  lemma {:induction false} ChecksKeepObserved(at: CaseId, raws: seq<Option<RawCheck>>, n: nat, start: Reading)
    requires n <= |raws|
    ensures ReadChecks(at, raws, n, start).observed == start.observed
  {
    if n > 0 { ChecksKeepObserved(at, raws, n - 1, start); }
  }

  /** Well-formed checks with distinct names. */
  ghost predicate ChecksValid(raws: seq<Option<RawCheck>>, n: nat)
    requires n <= |raws|
  {
    && (forall k :: 0 <= k < n ==> ReadCheck(raws[k]).Some?)
    && (forall j, k :: 0 <= j < k < n ==> ReadCheck(raws[j]).value.0 != ReadCheck(raws[k]).value.0)
  }

  lemma OneMoreCheck(raws: seq<Option<RawCheck>>, n: nat)
    requires 0 < n <= |raws|
    ensures var read := ReadCheck(raws[n-1]);
      ChecksValid(raws, n) <==> ChecksValid(raws, n - 1) && read.Some? && FirstVerdict(raws, n - 1, read.value.0).None?
  {
    var read := ReadCheck(raws[n-1]);
    if ChecksValid(raws, n) {
      forall k | 0 <= k < n - 1 ensures !Names(raws[k], read.value.0) { }
    }
    if ChecksValid(raws, n - 1) && read.Some? && FirstVerdict(raws, n - 1, read.value.0).None? {
      forall j | 0 <= j < n - 1 ensures ReadCheck(raws[j]).value.0 != read.value.0 { assert !Names(raws[j],
        read.value.0); }
    }
  }

  /** No check of this case has been read yet. */
  ghost predicate Untouched(at: CaseId, checks: Checks) {
    forall id :: id in checks ==> id.Case() != at
  }

  lemma {:induction false} ChecksProblems(at: CaseId, raws: seq<Option<RawCheck>>, n: nat, start: Reading)
    requires n <= |raws| && Untouched(at, start.checks)
    ensures var read := ReadChecks(at, raws, n, start);
      start.problems <= read.problems && (read.problems == start.problems <==> ChecksValid(raws, n))
  {
    if n > 0 {
      ChecksProblems(at, raws, n - 1, start);
      OneMoreCheck(raws, n);
      var read := ReadCheck(raws[n-1]);
      if read.Some? {
        var id := Identity(at.mode, at.transport, read.value.0);
        assert id.Case() == at;
        ChecksVerdict(at, raws, n - 1, start, id);
      }
    }
  }

  ghost predicate AllSucceed(raws: seq<Option<RawCheck>>, n: nat)
    requires n <= |raws|
  {
    forall k :: 0 <= k < n ==> ReadCheck(raws[k]).Some? && ReadCheck(raws[k]).value.1
  }

  lemma {:induction false} SucceedsIff(at: CaseId, raws: seq<Option<RawCheck>>, n: nat, start: Reading)
    requires n <= |raws| && Untouched(at, start.checks) && ChecksValid(raws, n)
    ensures CaseSucceeds(at, raws, n, start) <==> AllSucceed(raws, n)
  {
    if n > 0 {
      SucceedsIff(at, raws, n - 1, start);
      OneMoreCheck(raws, n);
      var read := ReadCheck(raws[n-1]).value;
      var before := ReadChecks(at, raws, n - 1, start).checks;
      var id := Identity(at.mode, at.transport, read.0);
      assert id.Case() == at;
      ChecksVerdict(at, raws, n - 1, start, id);
      assert id !in before && id in before[id := read.1];
      assert before[id := read.1] != before;
    }
  }

  // ----- The list of cases

  function CaseOf(plan: Plan, raw: Option<RawCase>): Option<CaseId> {
    if raw.Some? && raw.value.mode.Some? && raw.value.transport.Some?
       && CaseId(raw.value.mode.value, raw.value.transport.value) in plan.cases
    then Some(CaseId(raw.value.mode.value, raw.value.transport.value)) else None
  }

  function RawsOf(raw: Option<RawCase>): seq<Option<RawCheck>> {
    if raw.Some? && raw.value.checks.Some? then raw.value.checks.value else []
  }

  /** The first entry for a case among the first `n`, or `n`. */
  function FirstEntry(plan: Plan, list: seq<Option<RawCase>>, n: nat, at: CaseId): (r: nat)
    requires n <= |list|
    ensures r <= n && (r < n ==> CaseOf(plan, list[r]) == Some(at))
    ensures forall i :: 0 <= i < r ==> CaseOf(plan, list[i]) != Some(at)
  {
    if n == 0 then 0
    else
      var before := FirstEntry(plan, list, n - 1, at);
      if before < n - 1 || CaseOf(plan, list[n-1]) == Some(at) then before else n
  }

  /** What the raw cases say of a check: its case's first entry, and there the first check of its name. */
  function CaseVerdict(plan: Plan, list: seq<Option<RawCase>>, n: nat, id: Identity): Option<bool>
    requires n <= |list|
  {
    var first := FirstEntry(plan, list, n, id.Case());
    if first < n then FirstVerdict(RawsOf(list[first]), |RawsOf(list[first])|, id.checkId) else None
  }

  ghost predicate Reads(plan: Plan, list: seq<Option<RawCase>>, n: nat, read: Reading)
    requires n <= |list|
  {
    && (forall at :: at in read.observed <==> FirstEntry(plan, list, n, at) < n)
    && (forall id :: Lookup(read.checks, id) == CaseVerdict(plan, list, n, id))
  }

  lemma FirstEntryStep(plan: Plan, list: seq<Option<RawCase>>, n: nat, at: CaseId)
    requires 0 < n <= |list|
    ensures var before := FirstEntry(plan, list, n - 1, at);
      FirstEntry(plan, list, n, at) == if before < n - 1 || CaseOf(plan, list[n-1]) == Some(at) then before else n
  {
  }

  /** Reading a case that is there for the first time. */
  lemma NewCase(plan: Plan, list: seq<Option<RawCase>>, n: nat, acc: Reading, at: CaseId, next: Reading)
    requires 0 < n <= |list| && Reads(plan, list, n - 1, acc) && CaseOf(plan, list[n-1]) == Some(at)
      && at !in acc.observed
    requires next.observed == acc.observed + {at}
    requires var raws := RawsOf(list[n-1]);
      next.checks == ReadChecks(at, raws, |raws|, acc.(observed := acc.observed + {at})).checks
    ensures Reads(plan, list, n, next)
  {
    var raws := RawsOf(list[n-1]);
    forall c ensures c in next.observed <==> FirstEntry(plan, list, n, c) < n { FirstEntryStep(plan, list, n, c); }
    forall id ensures Lookup(next.checks, id) == CaseVerdict(plan, list, n, id) {
      FirstEntryStep(plan, list, n, id.Case());
      assert Lookup(acc.checks, id) == CaseVerdict(plan, list, n - 1, id);
      ChecksVerdict(at, raws, |raws|, acc.(observed := acc.observed + {at}), id);
    }
  }

  /** An entry that is not read, or there already. */
  lemma SameCases(plan: Plan, list: seq<Option<RawCase>>, n: nat, acc: Reading, next: Reading)
    requires 0 < n <= |list| && Reads(plan, list, n - 1, acc) && next.observed == acc.observed
      && next.checks == acc.checks
    requires CaseOf(plan, list[n-1]).Some? ==> CaseOf(plan, list[n-1]).value in acc.observed
    ensures Reads(plan, list, n, next)
  {
    forall c ensures c in next.observed <==> FirstEntry(plan, list, n, c) < n { FirstEntryStep(plan, list, n, c); }
    forall id ensures Lookup(next.checks, id) == CaseVerdict(plan, list, n, id) {
      FirstEntryStep(plan, list, n, id.Case());
      assert Lookup(acc.checks, id) == CaseVerdict(plan, list, n - 1, id);
    }
  }

  lemma CaseStepReads(plan: Plan, acc: Reading, raw: Option<RawCase>, at: CaseId)
    requires CaseOf(plan, raw) == Some(at) && at !in acc.observed
    ensures var raws, next := RawsOf(raw), CaseStep(plan, acc, raw);
      && next.observed == acc.observed + {at}
      && next.checks == ReadChecks(at, raws, |raws|, acc.(observed := acc.observed + {at})).checks
  {
    var raws := RawsOf(raw);
    ChecksKeepObserved(at, raws, |raws|, acc.(observed := acc.observed + {at}));
  }

  lemma {:induction false} CasesRead(plan: Plan, list: seq<Option<RawCase>>, n: nat, start: Reading)
    requires n <= |list| && start.observed == {} && start.checks == map[]
    ensures Reads(plan, list, n, ReadCases(plan, list, n, start))
  {
    if n > 0 {
      CasesRead(plan, list, n - 1, start);
      var acc, at := ReadCases(plan, list, n - 1, start), CaseOf(plan, list[n-1]);
      if at.Some? && at.value !in acc.observed {
        CaseStepReads(plan, acc, list[n-1], at.value);
        NewCase(plan, list, n, acc, at.value, CaseStep(plan, acc, list[n-1]));
      } else {
        SameCases(plan, list, n, acc, CaseStep(plan, acc, list[n-1]));
      }
    }
  }

  /** A planned case with well-formed checks of distinct names, and the verdict they amount to. */
  ghost predicate EntryValid(plan: Plan, raw: Option<RawCase>) {
    var raws := RawsOf(raw);
    && CaseOf(plan, raw).Some? && raws != [] && ChecksValid(raws, |raws|)
    && raw.value.success == Some(AllSucceed(raws, |raws|))
  }

  ghost predicate ListValid(plan: Plan, list: seq<Option<RawCase>>, n: nat)
    requires n <= |list|
  {
    && (forall i :: 0 <= i < n ==> EntryValid(plan, list[i]))
    && (forall i, j :: 0 <= i < j < n ==> CaseOf(plan, list[i]) != CaseOf(plan, list[j]))
  }

  lemma OneMoreEntry(plan: Plan, list: seq<Option<RawCase>>, n: nat)
    requires 0 < n <= |list|
    ensures var at := CaseOf(plan, list[n-1]);
      ListValid(plan, list, n) <==>
      ListValid(plan, list, n - 1) && EntryValid(plan, list[n-1]) && FirstEntry(plan, list, n - 1, at.value) == n - 1
  {
  }

  lemma CaseStepProblems(plan: Plan, acc: Reading, raw: Option<RawCase>)
    requires CaseOf(plan, raw).Some? && CaseOf(plan, raw).value !in acc.observed
      ==> Untouched(CaseOf(plan, raw).value, acc.checks)
    ensures var next, at := CaseStep(plan, acc, raw), CaseOf(plan, raw);
      acc.problems <= next.problems && (next.problems == acc.problems
        <==> EntryValid(plan, raw) && at.value !in acc.observed)
  {
    var at, raws := CaseOf(plan, raw), RawsOf(raw);
    if at.Some? && at.value !in acc.observed && raws != [] {
      var seen := acc.(observed := acc.observed + {at.value});
      ChecksProblems(at.value, raws, |raws|, seen);
      if ChecksValid(raws, |raws|) { SucceedsIff(at.value, raws, |raws|, seen); }
    }
  }

  lemma UntouchedUntilObserved(plan: Plan, list: seq<Option<RawCase>>, n: nat, read: Reading, at: CaseId)
    requires n <= |list| && Reads(plan, list, n, read) && at !in read.observed
    ensures Untouched(at, read.checks)
  {
    forall id | id in read.checks ensures id.Case() != at {
      assert Lookup(read.checks, id) == CaseVerdict(plan, list, n, id);
    }
  }

  lemma EntryProblems(plan: Plan, list: seq<Option<RawCase>>, n: nat, acc: Reading)
    requires 0 < n <= |list| && Reads(plan, list, n - 1, acc)
    ensures var next, at := CaseStep(plan, acc, list[n-1]), CaseOf(plan, list[n-1]);
      && acc.problems <= next.problems
      && (next.problems == acc.problems <==>
            EntryValid(plan, list[n-1]) && FirstEntry(plan, list, n - 1, at.value) == n - 1)
  {
    var at := CaseOf(plan, list[n-1]);
    if at.Some? && at.value !in acc.observed { UntouchedUntilObserved(plan, list, n - 1, acc, at.value); }
    CaseStepProblems(plan, acc, list[n-1]);
    if at.Some? { assert at.value in acc.observed <==> FirstEntry(plan, list, n - 1, at.value) < n - 1; }
  }

  lemma {:induction false} CasesProblems(plan: Plan, list: seq<Option<RawCase>>, n: nat, start: Reading)
    requires n <= |list| && start.observed == {} && start.checks == map[]
    ensures var read := ReadCases(plan, list, n, start);
      start.problems <= read.problems && (read.problems == start.problems <==> ListValid(plan, list, n))
  {
    if n > 0 {
      CasesProblems(plan, list, n - 1, start);
      CasesRead(plan, list, n - 1, start);
      OneMoreEntry(plan, list, n);
      EntryProblems(plan, list, n, ReadCases(plan, list, n - 1, start));
    }
  }

  // ----- Compact reports

  function ReadCaseId(raw: Option<RawCaseId>): Option<CaseId> {
    if raw.Some? && raw.value.mode.Some? && raw.value.transport.Some?
    then Some(CaseId(raw.value.mode.value, raw.value.transport.value)) else None
  }

  ghost predicate CaseRecorded(records: seq<Option<RawCaseId>>, n: nat, at: CaseId)
    requires n <= |records|
  {
    exists k :: 0 <= k < n && ReadCaseId(records[k]) == Some(at)
  }

  ghost predicate CaseRecordsValid(records: seq<Option<RawCaseId>>, n: nat)
    requires n <= |records|
  {
    && (forall k :: 0 <= k < n ==> ReadCaseId(records[k]).Some?)
    && (forall j, k :: 0 <= j < k < n ==> ReadCaseId(records[j]) != ReadCaseId(records[k]))
  }

  lemma OneMoreCaseRecord(records: seq<Option<RawCaseId>>, n: nat)
    requires 0 < n <= |records|
    ensures var read := ReadCaseId(records[n-1]);
      CaseRecordsValid(records, n)
      <==> CaseRecordsValid(records, n - 1) && read.Some? && !CaseRecorded(records, n - 1, read.value)
  {
  }

  lemma {:induction false} CaseRecordsRead(records: seq<Option<RawCaseId>>, n: nat, start: Reading)
    requires n <= |records| && start.observed == {}
    ensures var read := ReadCaseRecords(records, n, start);
      && read.checks == start.checks
      && (forall at :: at in read.observed <==> CaseRecorded(records, n, at))
      && start.problems <= read.problems
      && (read.problems == start.problems <==> CaseRecordsValid(records, n))
  {
    if n > 0 {
      CaseRecordsRead(records, n - 1, start);
      OneMoreCaseRecord(records, n);
      forall at ensures CaseRecorded(records, n, at)
        <==> CaseRecorded(records, n - 1, at) || ReadCaseId(records[n-1]) == Some(at) {
      }
    }
  }

  /** A record names a check by its mode, transport and id; the case has to be planned and the id in the namespace. */
  lemma ReadRecordIff(plan: Plan, raw: Option<RawRecord>, id: Identity)
    ensures ReadRecord(plan, raw) == Some(id) <==>
      && raw == Some(RawRecord(Some(id.mode), Some(id.transport), Some(id.checkId)))
      && "review/" <= id.checkId && CaseId(id.mode, id.transport) in plan.cases
  {
  }

  ghost predicate Recorded(plan: Plan, records: seq<Option<RawRecord>>, n: nat, id: Identity)
    requires n <= |records|
  {
    exists k :: 0 <= k < n && ReadRecord(plan, records[k]) == Some(id)
  }

  lemma {:induction false} RecordsVerdict(
    plan: Plan, success: bool, records: seq<Option<RawRecord>>, n: nat, start: Reading, id: Identity)
    requires n <= |records|
    ensures Lookup(ReadRecords(plan, success, records, n, start).checks, id)
      == if id in start.checks then Some(start.checks[id])
         else if Recorded(plan, records, n, id) then Some(success) else None
  {
    if n > 0 {
      RecordsVerdict(plan, success, records, n - 1, start, id);
      assert Recorded(plan, records, n, id) <==>
        Recorded(plan, records, n - 1, id) || ReadRecord(plan, records[n-1]) == Some(id);
    }
  }

  /** Well-formed records, none there twice, and none read before. */
  ghost predicate RecordsValid(plan: Plan, records: seq<Option<RawRecord>>, n: nat, checks: Checks)
    requires n <= |records|
  {
    && (forall k :: 0 <= k < n ==> ReadRecord(plan, records[k]).Some? && ReadRecord(plan, records[k]).value !in checks)
    && (forall j, k :: 0 <= j < k < n ==> ReadRecord(plan, records[j]) != ReadRecord(plan, records[k]))
  }

  lemma OneMoreRecord(plan: Plan, records: seq<Option<RawRecord>>, n: nat, checks: Checks)
    requires 0 < n <= |records|
    ensures var read := ReadRecord(plan, records[n-1]);
      RecordsValid(plan, records, n, checks) <==>
      && RecordsValid(plan, records, n - 1, checks) && read.Some?
      && read.value !in checks && !Recorded(plan, records, n - 1, read.value)
  {
  }

  lemma {:induction false} RecordsProblems(
    plan: Plan, success: bool, records: seq<Option<RawRecord>>, n: nat, start: Reading)
    requires n <= |records|
    ensures var read := ReadRecords(plan, success, records, n, start);
      && read.observed == start.observed && start.problems <= read.problems
      && (read.problems == start.problems <==> RecordsValid(plan, records, n, start.checks))
  {
    if n > 0 {
      RecordsProblems(plan, success, records, n - 1, start);
      OneMoreRecord(plan, records, n, start.checks);
      var read := ReadRecord(plan, records[n-1]);
      if read.Some? { RecordsVerdict(plan, success, records, n - 1, start, read.value); }
    }
  }

  function Records(records: Option<seq<Option<RawRecord>>>): seq<Option<RawRecord>> {
    if records.Some? then records.value else []
  }

  function PassingOf(body: Body): seq<Option<RawRecord>> {
    if body.Compacted? && body.checks.Some? then Records(body.checks.value.passing) else []
  }

  function FailingOf(body: Body): seq<Option<RawRecord>> {
    if body.Compacted? && body.checks.Some? then Records(body.checks.value.failing) else []
  }

  lemma BucketVerdict(plan: Plan, success: bool, records: Option<seq<Option<RawRecord>>>, start: Reading, id: Identity)
    ensures Lookup(ReadBucket(plan, success, records, start).checks, id)
      == if id in start.checks then Some(start.checks[id])
         else if Recorded(plan, Records(records), |Records(records)|, id) then Some(success) else None
  {
    if records.Some? { RecordsVerdict(plan, success, records.value, |records.value|, start, id); }
  }

  lemma BucketProblems(plan: Plan, success: bool, records: Option<seq<Option<RawRecord>>>, start: Reading)
    ensures var read := ReadBucket(plan, success, records, start);
      && read.observed == start.observed && start.problems <= read.problems
      && (read.problems == start.problems <==>
            records.Some? && RecordsValid(plan, records.value, |records.value|, start.checks))
  {
    if records.Some? { RecordsProblems(plan, success, records.value, |records.value|, start); }
  }

  /** What is read of a compact report before its buckets. */
  function BeforeBuckets(body: Body, start: Reading): Reading
    requires body.Compacted?
  {
    var kind := if body.kind != BASELINE_KIND then start.Report(UnsupportedKind) else start;
    var cases := if body.requiredCases.None? then kind.Report(NoRequiredCases)
                 else ReadCaseRecords(body.requiredCases.value, |body.requiredCases.value|, kind);
    if body.checks.None? then cases.Report(NoIdentities) else cases
  }

  ghost predicate HeadValid(body: Body)
    requires body.Compacted?
  {
    && body.kind == BASELINE_KIND && body.checks.Some? && body.requiredCases.Some?
    && CaseRecordsValid(body.requiredCases.value, |body.requiredCases.value|)
  }

  ghost predicate CaseRequired(body: Body, at: CaseId)
    requires body.Compacted?
  {
    body.requiredCases.Some? && CaseRecorded(body.requiredCases.value, |body.requiredCases.value|, at)
  }

  lemma HeadProblems(body: Body, start: Reading)
    requires body.Compacted? && start.observed == {} && start.checks == map[]
    ensures var read := BeforeBuckets(body, start);
      && read.checks == map[] && start.problems <= read.problems
      && (forall at :: at in read.observed <==> CaseRequired(body, at))
      && (read.problems == start.problems <==> HeadValid(body))
  {
    var kind := if body.kind != BASELINE_KIND then start.Report(UnsupportedKind) else start;
    if body.requiredCases.Some? {
      CaseRecordsRead(body.requiredCases.value, |body.requiredCases.value|, kind);
    }
  }

  lemma CompactedIsBuckets(plan: Plan, body: Body, start: Reading)
    requires body.Compacted?
    ensures body.checks.Some? ==>
      ReadCompacted(plan, body, start)
      == ReadBucket(plan, false, body.checks.value.failing,
                    ReadBucket(plan, true, body.checks.value.passing, BeforeBuckets(body, start)))
    ensures body.checks.None? ==>
      ReadCompacted(plan, body, start)
      == ReadBucket(plan, false, None, ReadBucket(plan, true, None, BeforeBuckets(body, start)))
  {
  }

  /** A record is passing, or else failing. */
  ghost function RecordVerdict(plan: Plan, body: Body, id: Identity): Option<bool> {
    if Recorded(plan, PassingOf(body), |PassingOf(body)|, id) then Some(true)
    else if Recorded(plan, FailingOf(body), |FailingOf(body)|, id) then Some(false)
    else None
  }

  lemma CompactedVerdict(plan: Plan, body: Body, start: Reading, id: Identity)
    requires body.Compacted? && start.observed == {} && start.checks == map[]
    ensures Lookup(ReadCompacted(plan, body, start).checks, id) == RecordVerdict(plan, body, id)
  {
    var first := BeforeBuckets(body, start);
    var passing := if body.checks.Some? then body.checks.value.passing else None;
    var failing := if body.checks.Some? then body.checks.value.failing else None;
    CompactedIsBuckets(plan, body, start);
    HeadProblems(body, start);
    BucketVerdict(plan, true, passing, first, id);
    BucketVerdict(plan, false, failing, ReadBucket(plan, true, passing, first), id);
  }

  /** Well-formed records, each check once over both buckets. */
  ghost predicate BucketsValid(plan: Plan, buckets: Buckets) {
    && buckets.passing.Some? && buckets.failing.Some?
    && RecordsValid(plan, buckets.passing.value, |buckets.passing.value|, map[])
    && RecordsValid(plan, buckets.failing.value, |buckets.failing.value|, map[])
    && forall id :: Recorded(plan, buckets.passing.value, |buckets.passing.value|, id)
                    ==> !Recorded(plan, buckets.failing.value, |buckets.failing.value|, id)
  }

  lemma FailingValid(plan: Plan, buckets: Buckets, checks: Checks)
    requires buckets.passing.Some? && buckets.failing.Some?
    requires forall id :: id in checks <==> Recorded(plan, buckets.passing.value, |buckets.passing.value|, id)
    ensures RecordsValid(plan, buckets.failing.value, |buckets.failing.value|, checks) <==>
      && RecordsValid(plan, buckets.failing.value, |buckets.failing.value|, map[])
      && forall id :: Recorded(plan, buckets.passing.value, |buckets.passing.value|, id)
                      ==> !Recorded(plan, buckets.failing.value, |buckets.failing.value|, id)
  {
    var failing := buckets.failing.value;
    if RecordsValid(plan, failing, |failing|, checks) {
      forall id | Recorded(plan, failing, |failing|, id) ensures id !in checks {
        var k :| 0 <= k < |failing| && ReadRecord(plan, failing[k]) == Some(id);
      }
    }
    forall k | 0 <= k < |failing| && ReadRecord(plan, failing[k]).Some?
      ensures Recorded(plan, failing, |failing|, ReadRecord(plan, failing[k]).value)
    {
    }
  }

  lemma BucketsProblems(plan: Plan, buckets: Buckets, start: Reading)
    requires start.checks == map[]
    ensures var read := ReadBucket(plan, false, buckets.failing, ReadBucket(plan, true, buckets.passing, start));
      && read.observed == start.observed && start.problems <= read.problems
      && (read.problems == start.problems <==> BucketsValid(plan, buckets))
  {
    BucketProblems(plan, true, buckets.passing, start);
    var passing := ReadBucket(plan, true, buckets.passing, start);
    BucketProblems(plan, false, buckets.failing, passing);
    if buckets.passing.Some? && buckets.failing.Some? {
      forall id ensures id in passing.checks <==> Recorded(plan, buckets.passing.value, |buckets.passing.value|, id) {
        BucketVerdict(plan, true, buckets.passing, start, id);
      }
      FailingValid(plan, buckets, passing.checks);
    }
  }

  // ----- What the validator reads

  function CaseList(report: Report): seq<Option<RawCase>> {
    if report.body.Full? && report.body.cases.Some? then report.body.cases.value else []
  }

  /** What the raw report says of a check. */
  ghost function RawVerdict(plan: Plan, report: Report, id: Identity): Option<bool> {
    if report.body.Full? then CaseVerdict(plan, CaseList(report), |CaseList(report)|, id)
    else RecordVerdict(plan, report.body, id)
  }

  /** A check is read with exactly the verdict the raw report gives it first. */
  lemma VerdictRead(plan: Plan, report: Report, id: Identity)
    ensures Lookup(RequiredChecks(plan, report).checks, id) == RawVerdict(plan, report, id)
  {
    var start := Reading({}, map[], HeaderProblems(plan, report));
    if report.body.Full? {
      CasesRead(plan, CaseList(report), |CaseList(report)|, start);
    } else {
      CompactedVerdict(plan, report.body, start, id);
    }
  }

  /** The raw report has the case: an entry for it, or a record of it. */
  ghost predicate Observed(plan: Plan, report: Report, at: CaseId) {
    if report.body.Full? then exists k :: 0 <= k < |CaseList(report)| && CaseOf(plan, CaseList(report)[k]) == Some(at)
    else CaseRequired(report.body, at)
  }

  lemma BucketKeepsObserved(plan: Plan, success: bool, records: Option<seq<Option<RawRecord>>>, start: Reading)
    ensures ReadBucket(plan, success, records, start).observed == start.observed
  {
    BucketProblems(plan, success, records, start);
  }

  lemma ObservedRead(plan: Plan, report: Report, at: CaseId)
    ensures at in RequiredChecks(plan, report).observed <==> Observed(plan, report, at)
  {
    var start, body := Reading({}, map[], HeaderProblems(plan, report)), report.body;
    if body.Full? {
      CasesRead(plan, CaseList(report), |CaseList(report)|, start);
    } else {
      CompactedIsBuckets(plan, body, start);
      HeadProblems(body, start);
      var first := BeforeBuckets(body, start);
      var passing := if body.checks.Some? then body.checks.value.passing else None;
      var failing := if body.checks.Some? then body.checks.value.failing else None;
      BucketKeepsObserved(plan, true, passing, first);
      BucketKeepsObserved(plan, false, failing, ReadBucket(plan, true, passing, first));
    }
  }

  // ----- When it finds nothing wrong

  ghost predicate HeaderValid(plan: Plan, report: Report) {
    && report.schemaVersion == Some(SCHEMA_VERSION) && report.reviewer == Some(plan.reviewer)
    && report.modes == Some(plan.modes)
  }

  /** A full report: its entries are valid, and are exactly the planned cases. */
  ghost predicate FullValid(plan: Plan, report: Report) {
    var list := CaseList(report);
    && report.body.Full? && report.body.cases.Some? && ListValid(plan, list, |list|)
    && forall at :: at in plan.cases ==> FirstEntry(plan, list, |list|, at) < |list|
  }

  /** A compact report: of the right kind, with valid records, for exactly the planned cases. */
  ghost predicate CompactValid(plan: Plan, report: Report) {
    && report.body.Compacted? && HeadValid(report.body) && BucketsValid(plan, report.body.checks.value)
    && forall at :: at in plan.cases <==> CaseRequired(report.body, at)
  }

  /** The cases of the raw report and its checks that pass and fail, and the cases with checks that all pass. */
  datatype Tally = Tally(cases: set<CaseId>, passing: set<Identity>, failing: set<Identity>, casesPassing: set<CaseId>)

  ghost predicate IsTally(plan: Plan, report: Report, t: Tally) {
    && (forall at :: at in t.cases <==> Observed(plan, report, at))
    && (forall id :: id in t.passing <==> RawVerdict(plan, report, id) == Some(true))
    && (forall id :: id in t.failing <==> RawVerdict(plan, report, id) == Some(false))
    && (forall at :: at in t.casesPassing <==>
          && at in t.cases && (exists id :: id in t.passing && id.Case() == at)
          && (forall id :: id in t.failing ==> id.Case() != at))
  }

  ghost predicate SummaryAgrees(report: Report, t: Tally) {
    report.summary == Some(Summary(
      Some(|t.passing|), Some(|t.failing|), Some(|t.passing| + |t.failing|), Some(|t.casesPassing|), Some(|t.cases|)))
  }

  /** A full report succeeds when it has cases and no check of them fails. */
  ghost predicate SuccessAgrees(report: Report, t: Tally) {
    report.body.Full? ==> report.body.success == Some(t.cases != {} && t.failing == {})
  }

  /** The totals, and in a full report the overall verdict, are those of the tally. */
  ghost predicate TotalsValid(plan: Plan, report: Report) {
    exists t :: IsTally(plan, report, t) && SummaryAgrees(report, t) && SuccessAgrees(report, t)
  }

  lemma FullProblems(plan: Plan, report: Report, start: Reading)
    requires report.body.Full? && start.observed == {} && start.checks == map[]
    ensures var read := ReadFull(plan, report.body, start);
      && start.problems <= read.problems
      && (read.problems == start.problems && read.observed == plan.cases
          <==> FullValid(plan, report))
  {
    var list := CaseList(report);
    CasesProblems(plan, list, |list|, start);
    CasesRead(plan, list, |list|, start);
    if report.body.cases.Some? {
      var read := ReadCases(plan, list, |list|, start);
      forall at | at in read.observed ensures at in plan.cases {
        assert FirstEntry(plan, list, |list|, at) < |list|;
      }
    }
  }

  lemma CompactedProblems(plan: Plan, report: Report, start: Reading)
    requires report.body.Compacted? && start.observed == {} && start.checks == map[]
    ensures var read := ReadCompacted(plan, report.body, start);
      && start.problems <= read.problems
      && (read.problems == start.problems && read.observed == plan.cases
          <==> CompactValid(plan, report))
  {
    var body := report.body;
    CompactedIsBuckets(plan, body, start);
    HeadProblems(body, start);
    var first := BeforeBuckets(body, start);
    if body.checks.Some? {
      BucketsProblems(plan, body.checks.value, first);
    } else {
      BucketsProblems(plan, Buckets(None, None), first);
    }
  }

  lemma CountsAdd(checks: Checks, passing: set<Identity>, failing: set<Identity>)
    requires passing == set id | id in checks && checks[id]
    requires failing == set id | id in checks && !checks[id]
    ensures |checks| == |passing| + |failing|
  {
    assert checks.Keys == passing + failing && passing !! failing;
  }

  ghost function TallyOf(read: Reading): Tally {
    Tally(read.observed, set id | id in read.checks && read.checks[id],
          set id | id in read.checks && !read.checks[id], set at | at in read.observed && CasePassed(read.checks, at))
  }

  lemma PassedIff(read: Reading, at: CaseId)
    ensures var t := TallyOf(read);
      CasePassed(read.checks, at) <==>
      (exists id :: id in t.passing && id.Case() == at) && (forall id :: id in t.failing ==> id.Case() != at)
  {
    var t := TallyOf(read);
    if id :| id in read.checks && id.Case() == at { assert id in t.passing || id in t.failing; }
  }

  lemma TallyIs(plan: Plan, report: Report, read: Reading)
    requires var r := RequiredChecks(plan, report); read.observed == r.observed && read.checks == r.checks
    ensures IsTally(plan, report, TallyOf(read))
  {
    var t := TallyOf(read);
    forall at ensures at in t.cases <==> Observed(plan, report, at) { ObservedRead(plan, report, at); }
    forall id
      ensures id in t.passing <==> RawVerdict(plan, report, id) == Some(true)
      ensures id in t.failing <==> RawVerdict(plan, report, id) == Some(false)
    {
      VerdictRead(plan, report, id);
    }
    forall at ensures at in t.casesPassing <==>
      && at in t.cases && (exists id :: id in t.passing && id.Case() == at)
      && (forall id :: id in t.failing ==> id.Case() != at)
    {
      PassedIff(read, at);
    }
  }

  lemma TallyUnique(plan: Plan, report: Report, t: Tally, u: Tally)
    requires IsTally(plan, report, t) && IsTally(plan, report, u)
    ensures t == u
  {
    assert forall at :: at in t.cases <==> at in u.cases;
    assert forall id :: id in t.passing <==> id in u.passing;
    assert forall id :: id in t.failing <==> id in u.failing;
    assert forall at :: at in t.casesPassing <==> at in u.casesPassing;
  }

  lemma AgreesIff(report: Report, read: Reading)
    ensures report.summary == Some(Totals(read.checks, read.observed)) <==> SummaryAgrees(report, TallyOf(read))
    ensures report.body.Full? ==>
      (report.body.success == Some(read.observed != {} && |read.checks| - Passing(read.checks) == 0)
       <==> SuccessAgrees(report, TallyOf(read)))
  {
    var t := TallyOf(read);
    CountsAdd(read.checks, t.passing, t.failing);
    assert |t.failing| == 0 <==> t.failing == {};
  }

  lemma TotalsValidIff(plan: Plan, report: Report, t: Tally)
    requires IsTally(plan, report, t)
    ensures TotalsValid(plan, report) <==> SummaryAgrees(report, t) && SuccessAgrees(report, t)
  {
    if u :| IsTally(plan, report, u) && SummaryAgrees(report, u) && SuccessAgrees(report, u) {
      TallyUnique(plan, report, t, u);
    }
  }

  lemma TotalsProblemsIff(report: Report, read: Reading)
    ensures var t := TallyOf(read);
      TotalsProblems(report, read) == [] <==> SummaryAgrees(report, t) && SuccessAgrees(report, t)
  {
    AgreesIff(report, read);
  }

  lemma NoTotalsProblems(plan: Plan, report: Report, read: Reading)
    requires var r := RequiredChecks(plan, report); read.observed == r.observed && read.checks == r.checks
    ensures TotalsProblems(report, read) == [] <==> TotalsValid(plan, report)
  {
    TallyIs(plan, report, read);
    TotalsValidIff(plan, report, TallyOf(read));
    TotalsProblemsIff(report, read);
  }

  /** The validator finds nothing wrong exactly when the header is valid, the cases or records are, and are
      those of the plan, and the totals are true of the checks in the report. */
  lemma NoProblemsIff(plan: Plan, report: Report)
    ensures RequiredChecks(plan, report).problems == [] <==>
      && HeaderValid(plan, report) && (FullValid(plan, report) || CompactValid(plan, report))
      && TotalsValid(plan, report)
  {
    var header := HeaderProblems(plan, report);
    var start, read := Reading({}, map[], header), ReadBody(plan, report);
    if report.body.Full? { FullProblems(plan, report, start); } else { CompactedProblems(plan, report, start); }
    assert header == [] <==> HeaderValid(plan, report);
    var coverage, totals := CoverageProblems(plan, read.observed), TotalsProblems(report, read);
    assert |read.problems + (coverage + totals)| == |read.problems| + |coverage| + |totals|;
    NoTotalsProblems(plan, report, read);
  }
}
