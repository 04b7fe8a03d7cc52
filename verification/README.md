# Verified models of agent graph, conformance harness, role loading and analytics

This project models the parts of the repository whose behaviour spans many steps, and proves what they
keep over every input, every run and every reachable state. Each source file keeps its own form: objects
that update their fields are classes, loops are methods with invariants proved against a specification
function, and pure code is functions and lemmas.

- **Agent spawn graph** (`SpawnGraph`). One edge per child, in a table keyed by child. Listing descendants is a
  recursive `UNION ALL` query in rounds. One parent per child makes ancestors linear, so every thread has one
  depth and one path, the listing is the unique breadth-first order by depth and thread id, and the query never
  ends exactly when the root is its own descendant. The trait promises a listing for every root; the SQL cannot
  give one for such a root, and the model follows the SQL. A close reported as new cuts exactly the child's open
  subtree, and two new closes of one edge always have an operation between them that opened it.
- **Regression gates** (`RegressionReports`, `RegressionFacts`, `RegressionRaw`, `RegressionValidity`,
  `RegressionProblems`, `RegressionPrinter`, `RegressionGate`, `RegressionLists`, `RegressionSides`,
  `RegressionTheorems`, `RegressionWitness`, `ReviewReports`, `ReviewValidity`, `ReviewProblems`, `ReviewGate`,
  `ReviewLists`). A report is validated into a table of checks, a valid report is compacted into a stored
  baseline, and a candidate is gated against a baseline. For the compliance gate, gating against the compact
  baseline gives the same result as gating against the full report if and only if the PASS and FAIL checks cover
  the suite: compaction drops skipped checks, so a valid report whose only evidence for a scenario is a skip
  compacts into a baseline that the validator refuses. For the review-probe gate the equality is unconditional.
  What is read, every problem reported, every list of a verdict and every record of a baseline are told from the
  raw reports, and a complete table of checks printed as a report reads back as itself. Passing is validity and
  the absence of regressions; it is reflexive on valid reports, and transitive.
- **App-server client** (`AppServer`, `AppServerOutcomes`, `AppServerRuns`, `AppServerWrites`). Responses,
  notifications and server requests interleave in one inbox. How every request and wait ends, and in what state,
  is told from the inbox, the budget and the writes left. Over any run of calls every message taken from the inbox
  is returned or recorded, in order, once, and exactly how many writes it takes to answer every server request is
  known.
- **MCP fixture server** (`ProtocolServer`, `ProtocolReplies`, `HttpSessions`, `HttpReplies`, `EventStream`). The
  handshake state machine, the reply due to every message after any stdio input or HTTP traffic, replies under the
  right request id, the stdio loop, the HTTP session table, and the server-sent-event encoder against a parser
  that follows the event stream section of the WHATWG HTML standard.
- **Agent roles** (`AgentRoles`, `AgentRoleTheorems`, `AgentRoleSources`, `RoleFiles`). Declarations and
  discovered files per layer, merged over layers, with warnings. Each field of a loaded role comes from the
  highest layer that sets it and is traced to the raw entry or file it was written in, and every declaration is
  accounted for. The directory walk lists every role file once, in an order that does not depend on how
  directories list their entries.
- **Analytics** (`AnalyticsQueue`, `AnalyticsProgress`, `AnalyticsDedupe`, `AcceptedLines`,
  `AcceptedLineTheorems`). The bounded queue with its flush barrier as a state machine over the steps of senders,
  flushers and the worker; the deduplication set that clears itself when full; the unified-diff line counter.
- **Release versions, lint wrapper arguments, app-server paths** (`ReleaseVersion`, `ReleaseSpellings`,
  `ReleaseTags`, `WrapperArgs`, `WrapperMeaning`, `HostPath`). Normal forms, tags, round trips, what a command
  line means, and exactly which spellings normalise: the substitutions run one after another, so `1-bet-alpha5` is
  accepted as a beta. Where a law fails, the exact condition under which it holds.

`Wrappers` and `Sorting` hold the option type, orders, filters and sorting used throughout.

## Model

| member | source | states |
|---|---|---|
| `SpawnGraph.DepthIsChainLength` | codex-rs/state/src/runtime/threads.rs:351-403 | a thread is at depth d of the recursive query exactly when a chain of d + 1 matching edges leads to it |
| `SpawnGraph.AncestorsAreLinear` | codex-rs/state/src/runtime/threads.rs:143-169 | one parent per child puts any two ancestors of a thread on one line |
| `SpawnGraph.DepthIsUnique` | codex-rs/state/src/runtime/threads.rs:351-403 | below a root that is not its own descendant every thread has one depth |
| `SpawnGraph.PathIsUnique` | codex-rs/state/src/runtime/threads.rs:351-403 | below such a root every thread is reached along one path |
| `SpawnGraph.ReachableCyclePassesRoot` | codex-rs/state/src/runtime/threads.rs:351-403 | every cycle reachable from a root contains the root |
| `SpawnGraph.NextRowsNoDuplicates` | codex-rs/state/src/runtime/threads.rs:351-403 | although `UNION ALL` keeps repeats, a round never produces one |
| `SpawnGraph.RowsAreDepths` | codex-rs/state/src/runtime/threads.rs:351-403 | the rows of a round are exactly the threads at that depth, each once |
| `SpawnGraph.DepthBounded` | codex-rs/state/src/runtime/threads.rs:351-403 | no depth exceeds the number of edges |
| `SpawnGraph.QueryEndsExactlyWhenRootIsNotItsOwnDescendant` | codex-rs/state/src/runtime/threads.rs:351-403 | every round has a row if and only if the root is its own descendant; otherwise the query is done within one round more than there are edges |
| `SpawnGraph.OwnParentIsListedForever` | codex-rs/state/src/runtime/threads.rs:351-403 | a concrete table, a thread that is its own parent, on which the query never ends |
| `SpawnGraph.ListingIsUnique` | codex-rs/agent-graph-store/src/store.rs:59-67 | breadth-first by depth, then by thread id, determines the listing, and it has no duplicates |
| `SpawnGraph.FilteredListingIsSublist` | codex-rs/agent-graph-store/src/store.rs:59-67 | a status filter keeps the order and leaves out exactly the threads not reached through matching edges |
| `SpawnGraph.CloseCutsPathsThroughChild` | codex-rs/state/src/runtime/threads.rs:186-229 | after a new close an open path survives exactly when the child is not on it |
| `SpawnGraph.CloseRemovesExactlyTheSubtree` | codex-rs/state/src/runtime/threads.rs:186-229 | a new close removes from a root's open descendants the child and what was reached through it, and nothing else |
| `SpawnGraph.NewClosesAreSeparatedByReopening` | codex-rs/agent-graph-store/src/types.rs:14-23 | in any run of operations two new closes of one edge have an operation between them that opened it |
| `SpawnGraph.AgentGraphStore.constructor` | codex-rs/agent-graph-store/src/local.rs:26-30 | a store holds the edges already recorded |
| `SpawnGraph.AgentGraphStore.UpsertThreadSpawnEdge` | codex-rs/state/src/runtime/threads.rs:143-169 | the child's edge is the given one; no other edge changes |
| `SpawnGraph.AgentGraphStore.SetThreadSpawnEdgeStatus` | codex-rs/state/src/runtime/threads.rs:171-183 | only an existing edge of the child changes, and only its status |
| `SpawnGraph.AgentGraphStore.CloseOpenThreadSpawnEdge` | codex-rs/state/src/runtime/threads.rs:186-229 | which of the three outcomes is reported, each exactly when the edge was open, closed, or not this edge |
| `SpawnGraph.AgentGraphStore.ListThreadSpawnChildren` | codex-rs/state/src/runtime/threads.rs:329-349 | exactly the matching children, ordered, each once |
| `SpawnGraph.AgentGraphStore.ListThreadSpawnDescendants` | codex-rs/state/src/runtime/threads.rs:351-403 | for every root: the breadth-first listing, or `None` for the query that never ends, exactly when the root is its own descendant |
| `SpawnGraph.QueryRounds` | codex-rs/state/src/runtime/threads.rs:351-403 | the rounds of the query list, in order, everything up to the depth reached |
| `SpawnGraph.QueryRound` | codex-rs/state/src/runtime/threads.rs:351-403 | one more round adds exactly the threads one deeper, in order of id |
| `RegressionReports.StableNameDropsArrivalNumber` | scripts/mcp_conformance/run_codex_compliance.py:1425-1456 | a check's name loses exactly its arrival number |
| `RegressionReports.ReadBucketRecords` | scripts/mcp_conformance/run_codex_compliance.py:1516-1555 | the record loop of a compact bucket computes the specified reading |
| `RegressionReports.ReadCaseChecks` | scripts/mcp_conformance/run_codex_compliance.py:1639-1664 | the check loop of a case computes the specified reading and observed scenarios |
| `RegressionReports.ReadRequiredCase` | scripts/mcp_conformance/run_codex_compliance.py:1627-1678 | one required case is read, missing or empty, as specified |
| `RegressionReports.CollectRequiredCases` | scripts/mcp_conformance/run_codex_compliance.py:1593-1614 | cases are keyed by mode and transport, the first of duplicates kept and the rest reported |
| `RegressionReports.CheckCompactModes` | scripts/mcp_conformance/run_codex_compliance.py:1556-1590 | the coverage problems of a compact baseline, mode by mode |
| `RegressionReports.ReadCompactedReport` | scripts/mcp_conformance/run_codex_compliance.py:1493-1591 | the compact branch computes the specified reading, with its early exits |
| `RegressionReports.ReadFullReport` | scripts/mcp_conformance/run_codex_compliance.py:1593-1679 | the full branch computes the specified reading |
| `RegressionReports.RequiredRegressionChecks` | scripts/mcp_conformance/run_codex_compliance.py:1459-1679 | the validator computes the reading that the rows of `RegressionRaw`, `RegressionValidity`, `RegressionPrinter` and `RegressionProblems` determine from the raw report |
| `RegressionRaw.StableNameIff` | scripts/mcp_conformance/run_codex_compliance.py:1425-1456 | the stable name of any name: it loses a trailing `#` and number if something is in front of them, and is otherwise kept |
| `RegressionRaw.IdentityIff` | scripts/mcp_conformance/run_codex_compliance.py:1425-1456 | a check has an identity exactly when its source is one of the three, its name and any scenario and id are non-empty texts; the id is the given one or the stable name |
| `RegressionRaw.ReadCheckIff` | scripts/mcp_conformance/run_codex_compliance.py:1639-1664 | a raw check reads as an identity and status exactly when its fields spell them: PASS, FAIL or SKIP, and success false exactly for FAIL |
| `RegressionRaw.ReadRecordIff` | scripts/mcp_conformance/run_codex_compliance.py:1516-1555 | a compact record reads as an identity exactly when its five fields are that identity, with a known mode, transport and source |
| `RegressionPrinter.PrintedReadsBack` | scripts/mcp_conformance/run_codex_compliance.py:1459-1679 | every complete table of checks, printed as a full report with any mix of ids and numbered names, reads back as exactly that table without problems |
| `RegressionProblems.ProblemReportedIff` | scripts/mcp_conformance/run_codex_compliance.py:1459-1679 | each single problem is reported if and only if the raw report has it: header, catalogue, cases, checks, records, coverage |
| `RegressionValidity.StatusReadIff` | scripts/mcp_conformance/run_codex_compliance.py:1459-1679 | a check is read with a status if and only if the raw fields of some check of its first required case, or of some record of that bucket, spell that check and status |
| `RegressionValidity.NoProblemsIff` | scripts/mcp_conformance/run_codex_compliance.py:1459-1679 | the validator finds nothing wrong if and only if header, and cases or records, are valid, stated on the raw report alone |
| `RegressionFacts.CompactReadingFacts` | scripts/mcp_conformance/run_codex_compliance.py:1493-1591 | a valid compact baseline is complete and holds no skipped status |
| `RegressionGate.CompactIsForm` | scripts/mcp_conformance/run_codex_compliance.py:1682-1726 | a baseline is produced if and only if the report reads without problems, records automatic authentication and has no failing shipping check; its catalogue is the pinned one |
| `RegressionGate.CompactReadsBack` | scripts/mcp_conformance/run_codex_compliance.py:1682-1726 | reading a compact baseline gives back exactly the checks with a verdict, short only of modes they do not cover |
| `RegressionGate.ScanCandidate` | scripts/mcp_conformance/run_codex_compliance.py:1772-1781 | the candidate loop finds the new and known failures and shipping problems, in order |
| `RegressionGate.ScanBaseline` | scripts/mcp_conformance/run_codex_compliance.py:1783-1798 | the baseline loop finds the missing and fixed checks and shipping problems, in order |
| `RegressionGate.EvaluateRegressionGate` | scripts/mcp_conformance/run_codex_compliance.py:1744-1809 | the evaluation computes the gate whose lists, errors and verdict the rows of `RegressionLists` and `RegressionTheorems` determine |
| `RegressionLists.GateListsIff` | scripts/mcp_conformance/run_codex_compliance.py:1764-1809 | for every pair of reports and every check: in which of the four lists it is, told from the statuses the two raw reports give it |
| `RegressionLists.GateListsAscend` | scripts/mcp_conformance/run_codex_compliance.py:1764-1809 | each list is in strictly ascending order of mode, transport, source, scenario and id, so without repeats |
| `RegressionLists.GateAccountsForAll` | scripts/mcp_conformance/run_codex_compliance.py:1764-1809 | new and known failures partition the candidate's failures, and every verdict of the baseline is kept, missing, fixed or still failing |
| `RegressionLists.GateErrorIff` | scripts/mcp_conformance/run_codex_compliance.py:1744-1798 | an error is reported if and only if it is a problem of one of the reports, an unrecorded or different authentication setting, or a failing shipping check of either |
| `RegressionLists.CompactRecords` | scripts/mcp_conformance/run_codex_compliance.py:1682-1726 | a compact baseline records in each bucket, in ascending order, exactly the checks the raw report gives that verdict |
| `RegressionLists.CompactRefusedIff` | scripts/mcp_conformance/run_codex_compliance.py:1682-1726 | for which reasons a report has no compact baseline, each if and only if the report has it |
| `RegressionTheorems.CompactIsValidIffCovered` | scripts/mcp_conformance/run_codex_compliance.py:1682-1726 | the compact form of a valid report is valid if and only if PASS and FAIL checks cover the suite |
| `RegressionTheorems.GateOnCompactBaseline` | scripts/mcp_conformance/run_codex_compliance.py:1744-1809 | gating against the compact baseline equals gating against the full report if and only if it is covered; otherwise nothing passes |
| `RegressionWitness.CompactingLosesSkippedEvidence` | scripts/mcp_conformance/run_codex_compliance.py:1682-1809 | for every suite a concrete printed report, all checks skipped, that compacts, passes against itself, and fails against its own compact baseline |
| `RegressionTheorems.CompactIsIdempotent` | scripts/mcp_conformance/run_codex_compliance.py:1682-1726 | compacting again changes nothing if and only if the report is covered |
| `RegressionTheorems.CompactInputIsCovered` | scripts/mcp_conformance/run_codex_compliance.py:1682-1726 | a valid compact baseline is always covered, so compacting it is stable |
| `RegressionTheorems.GatePassesIff` | scripts/mcp_conformance/run_codex_compliance.py:1744-1809 | the gate passes if and only if both reports are gateable, agree on automatic authentication, and no check regressed |
| `RegressionSides.SidesAgree` | scripts/mcp_conformance/run_codex_compliance.py:1459-1679 | as baseline and as candidate a report reads as the same checks and the same problems in the same order, up to the side they name |
| `RegressionTheorems.GateIsReflexive` | scripts/mcp_conformance/run_codex_compliance.py:1744-1809 | a report passes against itself if and only if it is gateable |
| `RegressionTheorems.GateIsTransitive` | scripts/mcp_conformance/run_codex_compliance.py:1744-1809 | passing composes, so a chain of accepted baselines hides no regression |
| `ReviewReports.ReadRequiredCases` | scripts/mcp_conformance/review_regressions.py:886-903 | the case loop of a compact review baseline computes the specified reading |
| `ReviewReports.ReadBucketRecords` | scripts/mcp_conformance/review_regressions.py:909-938 | the record loop of a compact review bucket computes the specified reading |
| `ReviewReports.ReadCaseChecks` | scripts/mcp_conformance/review_regressions.py:969-988 | the check loop computes the specified reading and whether the case succeeded |
| `ReviewReports.ReadProbeCases` | scripts/mcp_conformance/review_regressions.py:940-993 | the case loop of a full review report computes the specified reading |
| `ReviewReports.RequiredReviewChecks` | scripts/mcp_conformance/review_regressions.py:859-1029 | the validator computes the reading that the rows of `ReviewValidity` and `ReviewProblems` determine from the raw report |
| `ReviewValidity.VerdictRead` | scripts/mcp_conformance/review_regressions.py:859-1029 | a check is read with exactly the verdict the raw report gives it first |
| `ReviewValidity.NoProblemsIff` | scripts/mcp_conformance/review_regressions.py:859-1029 | the validator finds nothing wrong if and only if the header and the raw cases or records are valid, are those of the plan, and the totals count the checks and cases of the raw report |
| `ReviewValidity.ReadRecordIff` | scripts/mcp_conformance/review_regressions.py:909-938 | a compact record reads as a check exactly when its three fields are that check, of a planned case and in the review namespace |
| `ReviewProblems.ProblemReportedIff` | scripts/mcp_conformance/review_regressions.py:859-1029 | each single problem is reported if and only if the raw report has it |
| `ReviewGate.CompactReadsBack` | scripts/mcp_conformance/review_regressions.py:1032-1067 | a valid report and its compact baseline read as the same checks, observed cases and problems |
| `ReviewGate.CompactIsIdempotent` | scripts/mcp_conformance/review_regressions.py:1032-1067 | compacting again changes nothing |
| `ReviewGate.ScanCandidate` | scripts/mcp_conformance/review_regressions.py:1086-1093 | the known and new failures, in order |
| `ReviewGate.ScanBaseline` | scripts/mcp_conformance/review_regressions.py:1094-1100 | the missing and fixed checks, in order |
| `ReviewGate.EvaluateReviewRegressionGate` | scripts/mcp_conformance/review_regressions.py:1070-1110 | the evaluation computes the gate whose lists, errors and verdict the rows of `ReviewLists` and the next ones determine |
| `ReviewLists.GateListsIff` | scripts/mcp_conformance/review_regressions.py:1070-1110 | for every pair of reports and every check: in which of the four lists it is, told from the verdicts the two raw reports give it |
| `ReviewLists.GateListsAscend` | scripts/mcp_conformance/review_regressions.py:1070-1110 | each list is in strictly ascending order of mode, transport and id, so without repeats |
| `ReviewLists.GateAccountsForAll` | scripts/mcp_conformance/review_regressions.py:1070-1110 | new and known failures partition the candidate's failures, and every check of the baseline is accounted for |
| `ReviewLists.GateErrorIff` | scripts/mcp_conformance/review_regressions.py:1070-1085 | the errors are the problems of the two reports, each under the report it is about |
| `ReviewLists.CompactRecords` | scripts/mcp_conformance/review_regressions.py:1032-1067 | a compact baseline records in each bucket, in ascending order, exactly the checks with that verdict |
| `ReviewGate.GateOnCompactBaseline` | scripts/mcp_conformance/review_regressions.py:1070-1110 | gating against the compact baseline equals gating against the full report |
| `ReviewGate.GatePassesIff` | scripts/mcp_conformance/review_regressions.py:1070-1110 | the gate passes if and only if both reports are valid, no failure was gained and no check lost |
| `ReviewGate.GateIsReflexive` | scripts/mcp_conformance/review_regressions.py:1070-1110 | a report passes against itself if and only if it is valid |
| `ReviewGate.GateIsTransitive` | scripts/mcp_conformance/review_regressions.py:1070-1110 | passing composes |
| `AppServer.AppServerClient.constructor` | scripts/mcp_conformance/run_codex_compliance.py:159-200 | ids start at 1 and nothing is recorded |
| `AppServer.AppServerClient.Send` | scripts/mcp_conformance/run_codex_compliance.py:228-237 | a message is written, or nothing changes and the process has exited |
| `AppServer.AppServerClient.Notify` | scripts/mcp_conformance/run_codex_compliance.py:239-240 | the whole new state of a notification |
| `AppServer.AppServerClient.HandleServerRequest` | scripts/mcp_conformance/run_codex_compliance.py:319-353 | the request is recorded, elicitations noted, and one reply written under its id |
| `AppServer.AppServerClient.SendRequest` | scripts/mcp_conformance/run_codex_compliance.py:242-276 | the loop that waits for a response computes the outcome and state that `AppServerOutcomes.RequestedIff` tells from the queue |
| `AppServer.AppServerClient.WaitForNotification` | scripts/mcp_conformance/run_codex_compliance.py:278-317 | the scan and the waiting loop compute the outcome and state that `AppServerOutcomes.WaitedIff` tells from the recorded events and the queue |
| `AppServerOutcomes.RequestedIff` | scripts/mcp_conformance/run_codex_compliance.py:242-276 | outcome and new state of a request for every queue and budget: it writes the request under the next id, then ends at the first entry that is its response, the end of the stream or a server request it cannot answer, or when time or queue runs out; everything before is recorded and answered |
| `AppServerOutcomes.ResponseReturnedIff` | scripts/mcp_conformance/run_codex_compliance.py:242-276 | a message is returned if and only if it answers the id, arrives in time, nothing before it does or ends the stream, and the writes cover the request and the server requests before it |
| `AppServerOutcomes.WaitedIff` | scripts/mcp_conformance/run_codex_compliance.py:278-317 | outcome and new state of a wait: the first recorded match from the start index, or else the first fitting notification, end of stream, unanswerable server request or timeout of the queue |
| `AppServerOutcomes.NotifiedIff` | scripts/mcp_conformance/run_codex_compliance.py:239-240 | a notification is the next message written, or the process has exited and nothing changes |
| `AppServerOutcomes.AcceptedIff` | scripts/mcp_conformance/run_codex_compliance.py:319-353 | an elicitation, and no other server request, is accepted, with the answer to its own parameters and under its id |
| `AppServerOutcomes.RefusedIff` | scripts/mcp_conformance/run_codex_compliance.py:319-353 | every other server request is refused under its id and method |
| `AppServerRuns.RunConservesMessages` | scripts/mcp_conformance/run_codex_compliance.py:242-353 | over any run every message taken is returned or recorded, once and in order; the replies written answer the server requests in order, each once and under its id, from the first on, and all of them unless nothing more can be written |
| `AppServerRuns.ServerRequestsAnsweredIff` | scripts/mcp_conformance/run_codex_compliance.py:228-353 | over any run every server request taken is answered if and only if the process accepts that many replies besides the client's own writes; otherwise as many as it accepts, from the first on |
| `AppServerRuns.ServerRequestLeftUnanswered` | scripts/mcp_conformance/run_codex_compliance.py:319-353 | a concrete inbox and an exited process: the request is recorded and not answered |
| `AppServerWrites.NoWriteFailsIff` | scripts/mcp_conformance/run_codex_compliance.py:228-353 | no call of a run fails to write if and only if the process accepts the writes needed, a number that depends on the calls and the inbox only |
| `AppServerWrites.RunShifts` | scripts/mcp_conformance/run_codex_compliance.py:228-353 | a run meets no failed write if and only if it leaves any additional writes unused, and then they change nothing |
| `AppServerWrites.EnoughWrites` | scripts/mcp_conformance/run_codex_compliance.py:228-353 | one write per call and per queued message is always enough |
| `AppServerRuns.RequestsGetTheirOwnResponses` | scripts/mcp_conformance/run_codex_compliance.py:242-276 | the n-th request of any run returns only a response under the n-th id |
| `AppServerRuns.WaitReturnsEarliestIff` | scripts/mcp_conformance/run_codex_compliance.py:278-317 | for every start index a wait returns the earliest match from there if and only if one was recorded already, or no notification waited for is queued ahead of the start and the first match queued from there on is no server request |
| `AppServerRuns.WaitReturnsEarliest` | scripts/mcp_conformance/run_codex_compliance.py:278-317 | with no server request of the awaited method queued, a wait always returns the earliest match |
| `AppServerRuns.WaitReturnsBelowStart` | scripts/mcp_conformance/run_codex_compliance.py:278-317 | a concrete start index beyond the recorded events, for which a message below it is returned |
| `AppServerRuns.WaitMissesNothing` | scripts/mcp_conformance/run_codex_compliance.py:278-317 | a wait without result leaves no match behind except server requests that arrived meanwhile |
| `AppServerRuns.WaitPassesOverServerRequest` | scripts/mcp_conformance/run_codex_compliance.py:278-317 | a concrete inbox on which a matching server request is passed over |
| `ProtocolServer.HandleMessage` | scripts/mcp_conformance/server.py:306-572 | the dispatcher computes the connection state that `StateIsHandshake` and the reply that the rows of `ProtocolReplies` tell from the messages |
| `ProtocolReplies.ResultIff` | scripts/mcp_conformance/server.py:306-572 | a message on any connection in any mode gets this result, id and notifications if and only if it is a request and they are due: `initialize` with a version, after the handshake `ping`, `logging/setLevel` or what a handler answers; on a modern server, with the modern version and capabilities, discovery or what a handler answers |
| `ProtocolReplies.ErrorIff` | scripts/mcp_conformance/server.py:306-572 | it gets this error code and status if and only if they belong to the first condition it fails |
| `ProtocolReplies.SilenceIff` | scripts/mcp_conformance/server.py:306-360 | it gets no reply if and only if it is a notification |
| `ProtocolReplies.ResultWrittenIff` | scripts/mcp_conformance/server.py:1641-1671 | on stdio, after any input, the next line makes the server write notifications and then this result if and only if they are due, the handshake told from the lines before |
| `ProtocolReplies.ErrorWrittenIff` | scripts/mcp_conformance/server.py:1641-1671 | it makes the server write this error and nothing else if and only if the error is due |
| `ProtocolReplies.NothingWrittenIff` | scripts/mcp_conformance/server.py:1641-1671 | it makes the server write nothing if and only if it is a notification |
| `ProtocolServer.WritePlan` | scripts/mcp_conformance/server.py:1641-1671 | a reply is written as its notifications in order, then the response |
| `ProtocolServer.RunStdio` | scripts/mcp_conformance/server.py:1641-1671 | the stdio loop's output over a whole input |
| `ProtocolServer.StateIsHandshake` | scripts/mcp_conformance/server.py:487-572 | after any input the two flags say exactly whether `initialize` was accepted and later confirmed |
| `ProtocolServer.ResultsNeedHandshake` | scripts/mcp_conformance/server.py:487-572 | no result other than to `initialize` before the handshake; after it a `ping` gets one |
| `ProtocolServer.AnsweredUnderOwnIdIff` | scripts/mcp_conformance/server.py:306-485 | a reply carries the request's id if and only if it is not a discovery request in a deliberately wrong profile |
| `ProtocolServer.WrongProfilesAnswerUnderOtherIds` | scripts/mcp_conformance/server.py:364-485 | a concrete discovery request and the wrong ids it is answered under |
| `ProtocolServer.RepliesFollowRequestsIff` | scripts/mcp_conformance/server.py:1641-1671 | over a whole stdio run the replies are one per request in order, under their ids, if and only if no discovery request meets such a profile |
| `HttpSessions.SessionTable.constructor` | scripts/mcp_conformance/server.py:1377-1392 | a new table has no sessions |
| `HttpSessions.SessionTable.LegacyState` | scripts/mcp_conformance/server.py:1542-1568 | which connection state a request works on, and that no two sessions share one |
| `HttpSessions.SessionTable.ServeModern` | scripts/mcp_conformance/server.py:1490-1510 | a modern server checks the headers of requests and changes no session |
| `HttpSessions.SessionTable.ServePost` | scripts/mcp_conformance/server.py:1433-1540 | the new session table and reply of a POST, in every mode |
| `HttpSessions.SessionTable.ServeDelete` | scripts/mcp_conformance/server.py:1412-1431 | exactly the named session goes away; a modern server refuses |
| `HttpSessions.OtherTrafficIsInvisible` | scripts/mcp_conformance/server.py:1433-1568 | a request aimed elsewhere leaves a session alone |
| `HttpSessions.OwnTrafficIsLocal` | scripts/mcp_conformance/server.py:1433-1568 | a request's reply and effect depend only on its own session |
| `HttpSessions.SessionsAreIndependent` | scripts/mcp_conformance/server.py:1433-1568 | after any traffic a session is as its own requests alone would have left it, and answers alike |
| `HttpSessions.SessionStateIsHandshake` | scripts/mcp_conformance/server.py:1433-1568 | after any traffic a session exists, has been opened, and has been confirmed, if and only if its own requests since it was last created say so |
| `HttpSessions.HttpResultsNeedHandshake` | scripts/mcp_conformance/server.py:1433-1568 | over any HTTP traffic a session gets a result only after its handshake since it was last opened, and a `ping` gets one exactly then |
| `HttpReplies.HttpResultIff` | scripts/mcp_conformance/server.py:1433-1568 | after any traffic a POST gets this result if and only if it is admitted (headers on a modern server, a live session on a legacy one) and the result is due on its session |
| `HttpReplies.HttpErrorIff` | scripts/mcp_conformance/server.py:1433-1568 | it gets this error if and only if it is turned away with it, for mismatched headers or an unknown session, or admitted and the error is due |
| `HttpReplies.HttpSilenceIff` | scripts/mcp_conformance/server.py:1433-1568 | it gets an empty reply if and only if it is an admitted notification |
| `HttpReplies.DeleteReply` | scripts/mcp_conformance/server.py:1412-1431 | the status of a DELETE after any traffic, and that it ends exactly the named live session |
| `EventStream.ParseEncoded` | scripts/mcp_conformance/server.py:1344-1371 | in every framing a conforming parser gets back exactly the messages, in order |
| `EventStream.EncodedLines` | scripts/mcp_conformance/server.py:1344-1371 | the lines of a body: the comment lines of its framing, then a data line and an empty line per message |
| `EventStream.EncodedEnds` | scripts/mcp_conformance/server.py:1344-1371 | plain bodies hold no CR and the other framings no LF |
| `EventStream.FloodExceedsEventLimit` | scripts/mcp_conformance/server.py:1344-1371 | the comment flood alone exceeds 8 MiB, in lines of exactly 2048 bytes |
| `AgentRoles.DeclareRoles` | codex-rs/agent-roles/src/loader.rs:46-73 | the declaration loop computes the declared roles, files and warnings |
| `AgentRoles.DiscoverRoles` | codex-rs/agent-roles/src/loader.rs:290-335 | the discovery loop skips declared files and computes roles and warnings |
| `AgentRoles.AddDiscovered` | codex-rs/agent-roles/src/loader.rs:75-98 | declared roles win over discovered ones, each clash warned about |
| `AgentRoles.MergeRoles` | codex-rs/agent-roles/src/loader.rs:100-113 | the merge loop over a layer's roles, with its description warnings |
| `AgentRoles.ReadLayer` | codex-rs/agent-roles/src/loader.rs:36-98 | a layer's own roles and warnings |
| `AgentRoles.AddLayer` | codex-rs/agent-roles/src/loader.rs:35-114 | one more layer on top of the roles so far |
| `AgentRoles.LoadAgentRoles` | codex-rs/agent-roles/src/loader.rs:23-117 | loading over all layers computes the roles and warnings that the rows of `AgentRoleSources` tell from the raw entries and files, or fails |
| `AgentRoleSources.EntryReadIff` | codex-rs/agent-roles/src/loader.rs:147-164 | what an entry defines: its own name and fields, or with a config file the file's name, and the file's description and nicknames before its own; and when it cannot be read |
| `AgentRoleSources.FileReadIff` | codex-rs/agent-roles/src/loader.rs:290-335 | what a discovered file defines, with itself as the config file |
| `AgentRoleSources.SkippedIff` | codex-rs/agent-roles/src/loader.rs:57-59 | the files discovery skips are exactly the config files of readable entries |
| `AgentRoleSources.LayerRoleIff` | codex-rs/agent-roles/src/loader.rs:36-98 | a layer has a role if and only if some raw entry or unskipped file defines it and no earlier one of the same name comes first, entries before files |
| `AgentRoleSources.LoadedRoleIff` | codex-rs/agent-roles/src/loader.rs:23-173 | a role is loaded if and only if some layer describes it, and each of its fields holds exactly what the raw entry or file of the highest layer that sets it says |
| `AgentRoleSources.LoadFailsIff` | codex-rs/agent-roles/src/loader.rs:23-117 | loading fails if and only if a folder of some layer cannot be listed |
| `AgentRoleSources.WarningGivenIff` | codex-rs/agent-roles/src/loader.rs:23-117 | each warning is given if and only if a layer has what it is about |
| `AgentRoleTheorems.MergeAllResolves` | codex-rs/agent-roles/src/loader.rs:100-173 | merging any layers resolves each field from the highest layer that sets it |
| `AgentRoleTheorems.LoadedRoleResolvesFields` | codex-rs/agent-roles/src/loader.rs:23-173 | each field of a loaded role is that of the highest layer that sets it, counting from the first layer that describes the role |
| `AgentRoleTheorems.RolesPersist` | codex-rs/agent-roles/src/loader.rs:100-116 | more layers never remove a role or its description |
| `AgentRoleTheorems.FirstDeclarationWins` | codex-rs/agent-roles/src/loader.rs:46-73 | the first readable declaration of a name is the one kept |
| `AgentRoleTheorems.FirstFileWins` | codex-rs/agent-roles/src/loader.rs:290-335 | the first readable undeclared file of a name is the one kept |
| `AgentRoleTheorems.LayerRoleIsFirstDefinition` | codex-rs/agent-roles/src/loader.rs:36-98 | a layer's role is its first declaration, or failing that its first discovered file |
| `AgentRoleTheorems.LayerConservation` | codex-rs/agent-roles/src/loader.rs:35-114 | every declaration and undeclared file of a layer is stored or warned about, counted exactly |
| `RoleFiles.CollectAgentRoleFiles` | codex-rs/agent-roles/src/discovery.rs:7-40 | the stack walk returns every role file as often as it occurs, sorted, or fails exactly when a directory is unreadable |
| `RoleFiles.ReadEntries` | codex-rs/agent-roles/src/discovery.rs:21-35 | reading one directory moves its files and sub-directories without losing any |
| `RoleFiles.ListedIffThere` | codex-rs/agent-roles/src/discovery.rs:7-40 | a path is listed exactly when the tree has that role file |
| `RoleFiles.FilesAreDistinct` | codex-rs/agent-roles/src/discovery.rs:7-40 | no file is listed twice |
| `RoleFiles.WalkResult` | codex-rs/agent-roles/src/discovery.rs:7-40 | the result holds each role file once and nothing else, in ascending order of path components |
| `RoleFiles.IsTomlIff` | codex-rs/agent-roles/src/discovery.rs:27-31 | a role file is a non-empty stem followed by `.toml` |
| `RoleFiles.WalkIgnoresListingOrder` | codex-rs/agent-roles/src/discovery.rs:7-40 | directories that list their entries in another order give the same result, or the same failure |
| `AnalyticsQueue.StepKeepsInvariant` | codex-rs/analytics/src/client.rs:157-194 | no step of a sender, a flusher or the worker breaks the queue invariant |
| `AnalyticsQueue.RunKeepsInvariant` | codex-rs/analytics/src/client.rs:157-276 | the invariant holds after every run |
| `AnalyticsQueue.FlushIsABarrier` | codex-rs/analytics/src/client.rs:255-276 | when a flush is acknowledged everything accepted before it has been reduced and sent, in order, and nothing accepted after it |
| `AnalyticsQueue.DropsOnlyWhenFullOrClosed` | codex-rs/analytics/src/client.rs:185-194 | a fact is dropped if and only if the channel is full or closed |
| `AnalyticsProgress.TakesEffectIff` | codex-rs/analytics/src/client.rs:157-276 | which steps change anything, and when |
| `AnalyticsProgress.WorkerDrains` | codex-rs/analytics/src/client.rs:157-183 | left alone, the worker reduces and sends everything accepted, in order, and acknowledges every flush |
| `AnalyticsProgress.FlushGetsIn` | codex-rs/analytics/src/client.rs:255-276 | a flush that finds a free slot gets its message in, behind all others |
| `AnalyticsProgress.ReservedIff` | codex-rs/analytics/src/client.rs:255-276 | a slot stays reserved until its own flush uses it or gives it up |
| `AnalyticsProgress.AbortIsFinal` | codex-rs/analytics/src/client.rs:157-183 | once the worker is gone nothing is accepted, sent or acknowledged any more |
| `AnalyticsProgress.MessageEffect` | codex-rs/analytics/src/client.rs:157-183 | what one more fact or flush adds to the events, the reducer and the acknowledgements |
| `AnalyticsQueue.Work` | codex-rs/analytics/src/client.rs:157-183 | the worker loop sends the events and acknowledges the flushes of its messages, in order |
| `AnalyticsDedupe.DedupeSet.constructor` | codex-rs/analytics/src/client.rs:157-183 | the set starts empty |
| `AnalyticsDedupe.DedupeSet.ShouldEnqueueAppUsed` | codex-rs/analytics/src/client.rs:196-212 | the answer and the new set, including the clearing of a full one |
| `AnalyticsDedupe.DedupeSet.ShouldEnqueuePluginUsed` | codex-rs/analytics/src/client.rs:214-235 | the same for plugins |
| `AnalyticsDedupe.AdmissionsBalance` | codex-rs/analytics/src/client.rs:196-235 | over any run admissions equal 4096 per clearing plus what the set holds, which is at most 4096 |
| `AnalyticsDedupe.KeyNeedsClearToReturn` | codex-rs/analytics/src/client.rs:196-235 | a key is admitted at most once per clearing, and once more while it is in the set |
| `AnalyticsDedupe.AdmittedTwiceMeansCleared` | codex-rs/analytics/src/client.rs:196-235 | between two admissions of a key the set was cleared |
| `AnalyticsDedupe.RepeatsAreRare` | codex-rs/analytics/src/client.rs:196-235 | repeats of a key are bounded by one in 4096 admissions |
| `AnalyticsDedupe.AdmittedIff` | codex-rs/analytics/src/client.rs:196-235 | over any run a call is admitted if and only if it has no key or its key was not used since the last call that found 4096 keys |
| `AcceptedLines.AcceptedLineCounts` | codex-rs/analytics/src/accepted_lines.rs:27-61 | the counting loop computes the count the theorems are about |
| `AcceptedLines.ScanBody` | codex-rs/analytics/src/accepted_lines.rs:27-61 | inside a hunk every line counts for what it is, even one that looks like a file header |
| `AcceptedLines.CountsAddUp` | codex-rs/analytics/src/accepted_lines.rs:27-61 | appending any diff to a text that is empty or ends in a newline adds its counts |
| `AcceptedLines.PrintedDiffIsCountedRight` | codex-rs/analytics/src/accepted_lines.rs:27-61 | the counts of any printed diff are its added and deleted body lines |
| `AcceptedLineTheorems.CountsExactly` | codex-rs/analytics/src/accepted_lines.rs:27-61 | any text counts as many added and deleted lines as it has lines that start with the mark and, outside a hunk, are not file names |
| `AcceptedLineTheorems.WrittenReadsBack` | codex-rs/analytics/src/accepted_lines.rs:27-61 | lines are read back as written, with either line end each, and so is an unfinished last one |
| `ReleaseVersion.NormalizeIsIdempotent` | sdk/python/release_version.py:68-82 | normalising a normalised version changes nothing |
| `ReleaseVersion.NormalFormsAreStable` | sdk/python/release_version.py:68-82 | every normal form normalises to itself |
| `ReleaseSpellings.SpellingNormalizes` | sdk/python/release_version.py:68-82 | every spelling of a valid version, dashed with or without its dot, with a prefix and spaces, normalises to it |
| `ReleaseSpellings.OnlySpellingsNormalize` | sdk/python/release_version.py:68-82 | whatever normalises is one of these spellings |
| `ReleaseSpellings.GarbledBetaNormalizes` | sdk/python/release_version.py:68-82 | a concrete spelling nobody would write, `1-bet-alpha5`, is accepted as the beta `1b5` |
| `ReleaseVersion.ReleaseNameOf` | sdk/python/release_version.py:49-66 | the release name of each normal form |
| `ReleaseVersion.TagNormalizesBack` | sdk/python/release_version.py:45-82 | a version's release tag normalises to that version |
| `ReleaseVersion.RuntimeTagsAreDistinct` | sdk/python/release_version.py:35-47 | every accepted runtime version has a tag, and no two share one |
| `ReleaseTags.RuntimeReleaseIff` | sdk/python/release_version.py:35-66 | a version resolves to a tag if and only if they are the two texts of one stable, alpha or alpha hotfix version of three numbers |
| `ReleaseTags.SpellingTag` | sdk/python/release_version.py:45-82 | the tag of every spelling of every version, written out |
| `ReleaseTags.SpaceIff` | sdk/python/release_version.py:69 | which characters are stripped |
| `WrapperArgs.ParseWrapperArgs` | tools/argument-comment-lint/wrapper_common.py:53-102 | the argument loop computes the parse that `WrapperMeaning.ParseIs` tells from the arguments |
| `WrapperArgs.BuildFinalArgs` | tools/argument-comment-lint/wrapper_common.py:105-120 | the building steps compute the arguments that `WrapperMeaning.BuiltSays` describes |
| `WrapperMeaning.ClassifyIff` | tools/argument-comment-lint/wrapper_common.py:53-102 | which argument means what, and that none means two things |
| `WrapperMeaning.ParseIs` | tools/argument-comment-lint/wrapper_common.py:53-102 | for every command line: its arguments before and after the first separator, and each flag told from the arguments that are not values of others |
| `WrapperMeaning.BuiltSays` | tools/argument-comment-lint/wrapper_common.py:53-120 | the completed arguments keep the user's, name a manifest, select the workspace, leave out dependencies and select targets exactly where the user's do not |
| `WrapperArgs.ParseBuilt` | tools/argument-comment-lint/wrapper_common.py:53-120 | parsing built arguments gives the user's arguments with the defaults filled in |
| `WrapperArgs.BuildIsIdempotentIff` | tools/argument-comment-lint/wrapper_common.py:53-120 | building twice is building once if and only if the manifest path is not a separator that has to be injected |
| `WrapperArgs.SeparatorManifestGrows` | tools/argument-comment-lint/wrapper_common.py:53-120 | with no user arguments and the manifest path `--`, building again adds arguments |
| `WrapperArgs.UserArgumentsSurviveIff` | tools/argument-comment-lint/wrapper_common.py:53-120 | the user's lint arguments stay before the separator, after the injected ones, if and only if the manifest path is not a separator to be injected; then the cargo arguments stay behind it, and otherwise the lint arguments end up there |
| `WrapperArgs.SeparatorManifestDisplaces` | tools/argument-comment-lint/wrapper_common.py:53-120 | with the manifest path `--` a concrete lint argument ends up behind the separator |
| `HostPath.JoinAppendsComponentIff` | codex-rs/app-server-client/src/path.rs:21-43 | for every path and segment, joining appends one component if and only if the path is not a bare Windows root and the segment is non-empty and free of the joined path's separators |
| `HostPath.BareRootSwallowsSeparator` | codex-rs/app-server-client/src/path.rs:21-43 | joining `a` to `//` gives the one component `\a` |
| `HostPath.BareDriveSplitsSegment` | codex-rs/app-server-client/src/path.rs:21-58 | joining `a\b` to `C:` does not append it, although `\` is no separator in `C:` |
| `HostPath.PosixJoin` | codex-rs/app-server-client/src/path.rs:33-58 | joining makes a POSIX path a Windows path if and only if it is a bare drive, or empty or `/` before a segment that starts with `/` |
| `HostPath.WindowsStaysWindows` | codex-rs/app-server-client/src/path.rs:33-58 | joining keeps a Windows path one if and only if it is not a bare root or the segment starts with `\` |
| `HostPath.WindowsIff` | codex-rs/app-server-client/src/path.rs:51-59 | a path is a Windows path if and only if it begins with a letter, colon and separator, or with two separators of one kind |
| `HostPath.JoinAllAppendsIff` | codex-rs/app-server-client/src/path.rs:21-43 | any sequence of joins appends its segments if and only if there are none, or the path is no bare root and all are segments by the rules of the first joined path |

## Left out

- Reports are typed fields rather than JSON: Python's equality of booleans and integers, and the type errors raised for unhashable values, are not modelled.
- `isdecimal` is taken over the ASCII digits.
- Error, warning and label texts are datatypes; only which problem is reported, about what, and in which order is modelled.
- The pinned scenario catalogue, its repository and reference, and the review probes' modes, cases and name are parameters, so the theorems hold for any of them.
- Running the conformance suites, driving processes, human-readable output and command-line parsing.
- AppServerRuns.WaitReturnsEarliestIff: a negative start index, which Python counts from the end of the list, is not modelled.
- AppServerRuns.RunConservesMessages: timeouts are a budget of messages to look at, and the reader threads are the inbox they fill.
- ProtocolServer.HandleMessage: the results of tools, resources, prompts and subscriptions come from a parameter, since they are fixed replies.
- HttpSessions.SessionTable.ServePost: origin, path, content-type and length checks are one rejected request, header validation is a boolean, and requests are served one at a time.
- EventStream.ParseEncoded: bytes are characters, so UTF-8 is not modelled.
- AgentRoles.LoadAgentRoles: reading and parsing a role file are given as outcomes, and loading without configuration layers is not modelled.
- RoleFiles.CollectAgentRoleFiles: the tree is fixed during the walk, and symbolic links are not modelled.
- AnalyticsQueue.RunKeepsInvariant: the reducer is a parameter, and sending events over the network always succeeds.
- SpawnGraph.AgentGraphStore.ListThreadSpawnDescendants: `None` stands for the query that does not end; thread ids are numbers in the order of their text.
- Spawn edges inserted only if absent, their deletion with a thread, lookup by agent path, and SQLite errors.
- OAuth registration checks, plugin and hook tracking, and the remaining analytics facts.
