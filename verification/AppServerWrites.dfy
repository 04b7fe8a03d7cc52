/** When a run of the app-server client meets no failed write: how many writes it needs. */
module AppServerWrites {
  import opened AppServer
  import opened AppServerRuns

  /** The same client, its process accepting `d` more writes. */
  function More(s: State, d: nat): State { s.(writable := s.writable + d) }

  /** With `d` more writes a call that met no failure does the same; one that did uses some of them. */
  ghost predicate Shifted(a: (State, Outcome), b: (State, Outcome), d: nat) {
    if a.1 == ProcessExited then b.0.writable < d else b == (More(a.0, d), a.1)
  }

  lemma NotedShifts(answer: Answer, s: State, d: nat)
    requires d > 0 && s.inbox != [] && s.inbox[0].Some?
    ensures var (a, ok) := Noted(answer, s); var (b, ok') := Noted(answer, More(s, d));
      ok' && if ok then b == More(a, d) else b.writable < d
  {
  }

  lemma {:induction false} ResponseShifts(answer: Answer, s: State, id: int, budget: nat, d: nat)
    requires d > 0
    ensures Shifted(AwaitResponse(answer, s, id, budget), AwaitResponse(answer, More(s, d), id, budget), d)
    decreases budget
  {
    if budget > 0 && s.inbox != [] && s.inbox[0].Some? && !IsResponseTo(s.inbox[0].value, id) {
      NotedShifts(answer, s, d);
      var (a, ok) := Noted(answer, s);
      if ok {
        ResponseShifts(answer, a, id, budget - 1, d);
      } else {
        var t := ResponseTrace(answer, Noted(answer, More(s, d)).0, id, budget - 1);
      }
    }
  }

  lemma {:induction false} NotificationShifts(answer: Answer, s: State, w: Wanted, budget: nat, d: nat)
    requires d > 0
    ensures Shifted(AwaitNotification(answer, s, w, budget), AwaitNotification(answer, More(s, d), w, budget), d)
    decreases budget
  {
    if budget > 0 && s.inbox != [] && s.inbox[0].Some? {
      NotedShifts(answer, s, d);
      var (a, ok) := Noted(answer, s);
      if ok {
        NotificationShifts(answer, a, w, budget - 1, d);
      } else {
        var t := NotificationTrace(answer, Noted(answer, More(s, d)).0, w, budget - 1);
      }
    }
  }

  lemma PerformShifts(answer: Answer, s: State, call: Call, d: nat)
    requires d > 0
    ensures Shifted(Perform(answer, s, call), Perform(answer, More(s, d), call), d)
  {
    match call
    case RequestCall(verb, params, budget) =>
      var written := s.(nextId := s.nextId + 1, sent := s.sent + [Request(s.nextId, verb, params)]);
      if s.writable == 0 {
        var t := ResponseTrace(answer, written.(writable := d - 1), s.nextId, budget);
      } else {
        ResponseShifts(answer, written.(writable := s.writable - 1), s.nextId, budget, d);
      }
    case WaitCall(wanted, start, budget) =>
      NotificationShifts(answer, s, wanted, budget, d);
    case NotifyCall(verb) =>
  }

  /** A run meets no failed write exactly when it leaves all `d` additional writes unused. */
  lemma {:induction false} RunShifts(answer: Answer, s: State, calls: seq<Call>, d: nat)
    requires d > 0
    ensures var (a, outcomes) := Run(answer, s, calls); var (b, more) := Run(answer, More(s, d), calls);
      && (ProcessExited !in outcomes <==> b.writable >= d)
      && (ProcessExited !in outcomes ==> b == More(a, d) && more == outcomes)
    decreases |calls|
  {
    if calls != [] {
      PerformShifts(answer, s, calls[0], d);
      var (a, outcome) := Perform(answer, s, calls[0]);
      var (b, outcome') := Perform(answer, More(s, d), calls[0]);
      var outcomes := Run(answer, a, calls[1..]).1;
      assert ProcessExited !in [outcome] + outcomes <==> outcome != ProcessExited && ProcessExited !in outcomes;
      if outcome == ProcessExited {
        var t := RunConservesMessages(answer, b, calls[1..]);
      } else {
        RunShifts(answer, a, calls[1..], d);
      }
    }
  }

  // ----- How many writes are enough

  lemma {:induction false} AwaitLeaves(answer: Answer, s: State, id: int, w: Wanted, budget: nat)
    requires s.writable >= |s.inbox|
    ensures var (a, outcome) := AwaitResponse(answer, s, id, budget);
      outcome != ProcessExited && a.writable - |a.inbox| >= s.writable - |s.inbox|
    ensures var (a, outcome) := AwaitNotification(answer, s, w, budget);
      outcome != ProcessExited && a.writable - |a.inbox| >= s.writable - |s.inbox|
    decreases budget
  {
    if budget > 0 && s.inbox != [] && s.inbox[0].Some? {
      AwaitLeaves(answer, Noted(answer, s).0, id, w, budget - 1);
    }
  }

  lemma PerformLeaves(answer: Answer, s: State, call: Call)
    requires s.writable > |s.inbox|
    ensures var (a, outcome) := Perform(answer, s, call);
      outcome != ProcessExited && a.writable - |a.inbox| >= s.writable - |s.inbox| - 1
  {
    match call
    case RequestCall(verb, params, budget) =>
      var mid := s.(nextId := s.nextId + 1, sent := s.sent + [Request(s.nextId, verb, params)],
        writable := s.writable - 1);
      AwaitLeaves(answer, mid, s.nextId, Wanted("", _ => true), budget);
    case WaitCall(wanted, start, budget) =>
      AwaitLeaves(answer, s, 0, wanted, budget);
    case NotifyCall(verb) =>
  }

  /** One write per call and per queued message is always enough. */
  lemma {:induction false} EnoughWrites(answer: Answer, s: State, calls: seq<Call>)
    requires s.writable >= |s.inbox| + |calls|
    ensures ProcessExited !in Run(answer, s, calls).1
    decreases |calls|
  {
    if calls != [] {
      PerformLeaves(answer, s, calls[0]);
      EnoughWrites(answer, Perform(answer, s, calls[0]).0, calls[1..]);
    }
  }

  function Unhindered(s: State, calls: seq<Call>): State { s.(writable := |s.inbox| + |calls|) }

  /** How many writes the calls make when the process takes them all. */
  function WritesNeeded(answer: Answer, s: State, calls: seq<Call>): int {
    |s.inbox| + |calls| - Run(answer, Unhindered(s, calls), calls).0.writable
  }

  /** Whatever the calls and the queue: no call fails to write exactly when the process accepts the writes
      needed, which do not depend on what it accepts; and then every server request is answered. */
  lemma NoWriteFailsIff(answer: Answer, s: State, calls: seq<Call>) returns (t: Trace)
    ensures ProcessExited !in Run(answer, s, calls).1 <==> WritesNeeded(answer, s, calls) <= s.writable
    ensures 0 <= WritesNeeded(answer, s, calls) <= |s.inbox| + |calls|
    ensures Explains(answer, s, Run(answer, s, calls).0, t, WritesNeeded(answer, s, calls) <= s.writable)
  {
    var full := Unhindered(s, calls);
    var u := RunConservesMessages(answer, full, calls);
    EnoughWrites(answer, full, calls);
    if s.writable < full.writable {
      assert More(s, full.writable - s.writable) == full;
      RunShifts(answer, s, calls, full.writable - s.writable);
    } else {
      EnoughWrites(answer, s, calls);
    }
    t := RunConservesMessages(answer, s, calls);
  }
}
