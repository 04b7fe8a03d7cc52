/** What holds over every run of requests, waits and notifications of one app-server client. */
module AppServerRuns {
  import opened Wrappers
  import opened AppServer

  datatype Call =
    | RequestCall(verb: string, params: Option<string>, budget: nat)
    | WaitCall(wanted: Wanted, start: nat, budget: nat)
    | NotifyCall(verb: string)

  function Perform(answer: Answer, s: State, call: Call): (State, Outcome) {
    match call
    case RequestCall(verb, params, budget) => Requested(answer, s, verb, params, budget)
    case WaitCall(wanted, start, budget) => Waited(answer, s, wanted, start, budget)
    case NotifyCall(verb) => Notified(s, verb)
  }

  function Run(answer: Answer, s: State, calls: seq<Call>): (r: (State, seq<Outcome>))
    ensures |r.1| == |calls|
    decreases |calls|
  {
    if calls == [] then (s, [])
    else
      var (s', outcome) := Perform(answer, s, calls[0]);
      var (final, outcomes) := Run(answer, s', calls[1..]);
      (final, [outcome] + outcomes)
  }

  // ----- Accounting for every message

  /** What a stretch of the run took off the queue, returned as responses, noted as events and wrote. */
  datatype Trace = Trace(taken: seq<Option<Message>>, returned: seq<Message>, noted: seq<Message>,
    written: seq<Outgoing>)

  function Messages(taken: seq<Option<Message>>): seq<Message> {
    if taken == [] then []
    else if taken[0].None? then Messages(taken[1..])
    else [taken[0].value] + Messages(taken[1..])
  }

  /** `all` is `a` and `b` shuffled together, each in its own order. */
  ghost predicate Interleaves(all: seq<Message>, a: seq<Message>, b: seq<Message>) {
    if all == [] then a == [] && b == []
    else
      || (a != [] && all[0] == a[0] && Interleaves(all[1..], a[1..], b))
      || (b != [] && all[0] == b[0] && Interleaves(all[1..], a, b[1..]))
  }

  function Replies(written: seq<Outgoing>): seq<Outgoing> {
    if written == [] then []
    else if written[0].Accept? || written[0].Unsupported? then [written[0]] + Replies(written[1..])
    else Replies(written[1..])
  }

  function ReplyAll(answer: Answer, noted: seq<Message>): seq<Outgoing> {
    if noted == [] then []
    else if IsServerRequest(noted[0]) then [ReplyTo(answer, noted[0])] + ReplyAll(answer, noted[1..])
    else ReplyAll(answer, noted[1..])
  }

  function Elicited(noted: seq<Message>): seq<string> {
    if noted == [] then []
    else if IsServerRequest(noted[0]) && noted[0].verb.name == ELICITATION && noted[0].params.Some?
      then [noted[0].params.value] + Elicited(noted[1..])
    else Elicited(noted[1..])
  }

  /** The queue gave exactly the returned responses and the new events. The replies written answer the
      server requests among them in order, each once and under its own id, from the first on; some are
      left unanswered only once nothing more can be written. `allWritten`: no write failed. */
  ghost predicate Explains(answer: Answer, s: State, s': State, t: Trace, allWritten: bool) {
    && s.inbox == t.taken + s'.inbox
    && s'.events == s.events + t.noted
    && s'.sent == s.sent + t.written
    && s'.elicitations == s.elicitations + Elicited(t.noted)
    && Interleaves(Messages(t.taken), t.returned, t.noted)
    && s.writable == |t.written| + s'.writable
    && Replies(t.written) <= ReplyAll(answer, t.noted)
    && (allWritten || s'.writable > 0 ==> Replies(t.written) == ReplyAll(answer, t.noted))
  }

  function Join(t: Trace, u: Trace): Trace {
    Trace(t.taken + u.taken, t.returned + u.returned, t.noted + u.noted, t.written + u.written)
  }

  lemma {:induction false} MessagesAppend(a: seq<Option<Message>>, b: seq<Option<Message>>)
    ensures Messages(a + b) == Messages(a) + Messages(b)
  {
    if a == [] { assert a + b == b; } else {
      assert (a + b)[1..] == a[1..] + b;
      MessagesAppend(a[1..], b);
    }
  }

  lemma {:induction false} RepliesAppend(a: seq<Outgoing>, b: seq<Outgoing>)
    ensures Replies(a + b) == Replies(a) + Replies(b)
  {
    if a == [] { assert a + b == b; } else {
      assert (a + b)[1..] == a[1..] + b;
      RepliesAppend(a[1..], b);
    }
  }

  lemma {:induction false} ReplyAllAppend(answer: Answer, a: seq<Message>, b: seq<Message>)
    ensures ReplyAll(answer, a + b) == ReplyAll(answer, a) + ReplyAll(answer, b)
    decreases |a|
  {
    if a == [] { assert a + b == b; } else {
      assert (a + b)[1..] == a[1..] + b;
      ReplyAllAppend(answer, a[1..], b);
    }
  }

  lemma {:induction false} ElicitedAppend(a: seq<Message>, b: seq<Message>)
    ensures Elicited(a + b) == Elicited(a) + Elicited(b)
  {
    if a == [] { assert a + b == b; } else {
      assert (a + b)[1..] == a[1..] + b;
      ElicitedAppend(a[1..], b);
    }
  }

  lemma {:induction false} InterleavesAppend(
    x: seq<Message>, a: seq<Message>, b: seq<Message>, y: seq<Message>, c: seq<Message>, d: seq<Message>)
    requires Interleaves(x, a, b) && Interleaves(y, c, d)
    ensures Interleaves(x + y, a + c, b + d)
    decreases |x|
  {
    if x == [] {
      assert x + y == y && a + c == c && b + d == d;
    } else {
      assert (x + y)[1..] == x[1..] + y;
      if a != [] && x[0] == a[0] && Interleaves(x[1..], a[1..], b) {
        InterleavesAppend(x[1..], a[1..], b, y, c, d);
        assert (a + c)[1..] == a[1..] + c;
      } else {
        InterleavesAppend(x[1..], a, b[1..], y, c, d);
        assert (b + d)[1..] == b[1..] + d;
      }
    }
  }

  lemma Regroup<T>(a: seq<T>, b: seq<T>, c: seq<T>)
    ensures a + (b + c) == a + b + c
  {
  }

  lemma RepliesJoin(answer: Answer, mid: State, s': State, t: Trace, u: Trace)
    requires Replies(t.written) <= ReplyAll(answer, t.noted) && Replies(u.written) <= ReplyAll(answer, u.noted)
    requires mid.writable > 0 ==> Replies(t.written) == ReplyAll(answer, t.noted)
    requires mid.writable == |u.written| + s'.writable
    ensures Replies(t.written) + Replies(u.written) <= ReplyAll(answer, t.noted) + ReplyAll(answer, u.noted)
  {
    if mid.writable == 0 { assert u.written == []; }
  }

  lemma AccountsJoin(answer: Answer, t: Trace, u: Trace)
    requires Interleaves(Messages(t.taken), t.returned, t.noted) && Interleaves(Messages(u.taken), u.returned, u.noted)
    ensures var j := Join(t, u);
      && Interleaves(Messages(j.taken), j.returned, j.noted)
      && Replies(j.written) == Replies(t.written) + Replies(u.written)
      && ReplyAll(answer, j.noted) == ReplyAll(answer, t.noted) + ReplyAll(answer, u.noted)
      && Elicited(j.noted) == Elicited(t.noted) + Elicited(u.noted)
  {
    MessagesAppend(t.taken, u.taken);
    RepliesAppend(t.written, u.written);
    ReplyAllAppend(answer, t.noted, u.noted);
    ElicitedAppend(t.noted, u.noted);
    InterleavesAppend(Messages(t.taken), t.returned, t.noted, Messages(u.taken), u.returned, u.noted);
  }

  lemma ExplainsJoin(answer: Answer, s: State, mid: State, s': State, t: Trace, u: Trace, p: bool, q: bool)
    requires Explains(answer, s, mid, t, p) && Explains(answer, mid, s', u, q)
    ensures Explains(answer, s, s', Join(t, u), p && q)
  {
    AccountsJoin(answer, t, u);
    RepliesJoin(answer, mid, s', t, u);
    Regroup(t.taken, u.taken, s'.inbox);
    Regroup(s.events, t.noted, u.noted);
    Regroup(s.sent, t.written, u.written);
    Regroup(s.elicitations, Elicited(t.noted), Elicited(u.noted));
  }

  const NOTHING := Trace([], [], [], [])

  lemma Unchanged(answer: Answer, s: State)
    ensures Explains(answer, s, s, NOTHING, true)
  {
  }

  lemma TakeEnd(answer: Answer, s: State)
    requires s.inbox != [] && s.inbox[0].None?
    ensures Explains(answer, s, Dequeued(s), Trace([None], [], [], []), true)
  {
    assert s.inbox == [s.inbox[0]] + s.inbox[1..];
    assert Messages([None]) == [];
  }

  lemma TakeResponse(answer: Answer, s: State)
    requires s.inbox != [] && s.inbox[0].Some?
    ensures Explains(answer, s, Dequeued(s), Trace([s.inbox[0]], [s.inbox[0].value], [], []), true)
  {
    assert s.inbox == [s.inbox[0]] + s.inbox[1..];
    assert Messages([s.inbox[0]]) == [s.inbox[0].value];
  }

  lemma TakeEvent(answer: Answer, s: State)
    requires s.inbox != [] && s.inbox[0].Some? && !IsServerRequest(s.inbox[0].value)
    ensures var m := s.inbox[0].value;
      Explains(answer, s, Dequeued(s).(events := s.events + [m]), Trace([s.inbox[0]], [], [m], []), true)
  {
    assert s.inbox == [s.inbox[0]] + s.inbox[1..];
    assert Messages([s.inbox[0]]) == [s.inbox[0].value];
  }

  lemma TakeServerRequest(answer: Answer, s: State) returns (t: Trace)
    requires s.inbox != [] && s.inbox[0].Some? && IsServerRequest(s.inbox[0].value)
    ensures var (s', ok) := Handle(answer, Dequeued(s), s.inbox[0].value);
      Explains(answer, s, s', t, ok) && t.returned == []
  {
    var m := s.inbox[0].value;
    t := Trace([s.inbox[0]], [], [m], if s.writable == 0 then [] else [ReplyTo(answer, m)]);
    assert s.inbox == [s.inbox[0]] + s.inbox[1..];
    assert Messages([s.inbox[0]]) == [m];
    assert ReplyAll(answer, [m]) == [ReplyTo(answer, m)];
  }

  /** The state after the next message is noted as an event, and whether the call can go on. */
  function Noted(answer: Answer, s: State): (State, bool)
    requires s.inbox != [] && s.inbox[0].Some?
  {
    var m := s.inbox[0].value;
    if IsServerRequest(m) then Handle(answer, Dequeued(s), m) else (Dequeued(s).(events := s.events + [m]), true)
  }

  lemma TakeNoted(answer: Answer, s: State) returns (t: Trace)
    requires s.inbox != [] && s.inbox[0].Some?
    ensures Explains(answer, s, Noted(answer, s).0, t, Noted(answer, s).1) && t.returned == []
  {
    if IsServerRequest(s.inbox[0].value) {
      t := TakeServerRequest(answer, s);
    } else {
      TakeEvent(answer, s);
      t := Trace([s.inbox[0]], [], [s.inbox[0].value], []);
    }
  }

  lemma {:induction false} ResponseTrace(answer: Answer, s: State, id: int, budget: nat) returns (t: Trace)
    ensures var (s', outcome) := AwaitResponse(answer, s, id, budget);
      && Explains(answer, s, s', t, outcome != ProcessExited)
      && t.returned == (if outcome.Got? then [outcome.message] else [])
      && (outcome.Got? ==> IsResponseTo(outcome.message, id))
    decreases budget
  {
    if budget == 0 || s.inbox == [] {
      Unchanged(answer, s);
      t := NOTHING;
    } else if s.inbox[0].None? {
      TakeEnd(answer, s);
      t := Trace([None], [], [], []);
    } else if IsResponseTo(s.inbox[0].value, id) {
      TakeResponse(answer, s);
      t := Trace([s.inbox[0]], [s.inbox[0].value], [], []);
    } else {
      t := TakeNoted(answer, s);
      var (mid, ok) := Noted(answer, s);
      if ok {
        var rest := ResponseTrace(answer, mid, id, budget - 1);
        var (s', outcome) := AwaitResponse(answer, mid, id, budget - 1);
        ExplainsJoin(answer, s, mid, s', t, rest, true, outcome != ProcessExited);
        t := Join(t, rest);
      }
    }
  }

  lemma {:induction false} NotificationTrace(answer: Answer, s: State, w: Wanted, budget: nat) returns (t: Trace)
    ensures var (s', outcome) := AwaitNotification(answer, s, w, budget);
      Explains(answer, s, s', t, outcome != ProcessExited) && t.returned == []
    decreases budget
  {
    if budget == 0 || s.inbox == [] {
      Unchanged(answer, s);
      t := NOTHING;
    } else if s.inbox[0].None? {
      TakeEnd(answer, s);
      t := Trace([None], [], [], []);
    } else {
      t := TakeNoted(answer, s);
      var (mid, ok) := Noted(answer, s);
      if ok && (IsServerRequest(s.inbox[0].value) || !Matches(w, s.inbox[0].value)) {
        var rest := NotificationTrace(answer, mid, w, budget - 1);
        var (s', outcome) := AwaitNotification(answer, mid, w, budget - 1);
        ExplainsJoin(answer, s, mid, s', t, rest, true, outcome != ProcessExited);
        t := Join(t, rest);
      }
    }
  }

  lemma WriteTrace(answer: Answer, s: State, message: Outgoing, s': State)
    requires !message.Accept? && !message.Unsupported?
    requires s' == s.(sent := s.sent + [message], nextId := s'.nextId, writable := s'.writable)
    requires s.writable == s'.writable + 1
    ensures Explains(answer, s, s', Trace([], [], [], [message]), true)
  {
    assert Replies([message]) == [];
  }

  lemma RequestTrace(answer: Answer, s: State, verb: string, params: Option<string>, budget: nat) returns (t: Trace)
    ensures var (s', outcome) := Requested(answer, s, verb, params, budget);
      && Explains(answer, s, s', t, outcome != ProcessExited)
      && t.returned == (if outcome.Got? then [outcome.message] else [])
      && s'.nextId == s.nextId + 1 && (outcome.Got? ==> IsResponseTo(outcome.message, s.nextId))
  {
    if s.writable == 0 {
      t := NOTHING;
    } else {
      var message := Request(s.nextId, verb, params);
      var mid := s.(nextId := s.nextId + 1, sent := s.sent + [message], writable := s.writable - 1);
      WriteTrace(answer, s, message, mid);
      var rest := ResponseTrace(answer, mid, s.nextId, budget);
      KeepsNextId(answer, mid, s.nextId, Wanted("", _ => true), budget);
      var (s', outcome) := AwaitResponse(answer, mid, s.nextId, budget);
      ExplainsJoin(answer, s, mid, s', Trace([], [], [], [message]), rest, true, outcome != ProcessExited);
      t := Join(Trace([], [], [], [message]), rest);
    }
  }

  lemma PerformTrace(answer: Answer, s: State, call: Call) returns (t: Trace)
    ensures var (s', outcome) := Perform(answer, s, call);
      && Explains(answer, s, s', t, outcome != ProcessExited)
      && t.returned == (if call.RequestCall? && outcome.Got? then [outcome.message] else [])
      && s'.nextId == s.nextId + (if call.RequestCall? then 1 else 0)
      && (call.RequestCall? && outcome.Got? ==> IsResponseTo(outcome.message, s.nextId))
  {
    match call
    case RequestCall(verb, params, budget) =>
      t := RequestTrace(answer, s, verb, params, budget);
    case WaitCall(wanted, start, budget) =>
      if FirstMatch(wanted, s.events, start) < |s.events| {
        Unchanged(answer, s);
        t := NOTHING;
      } else {
        t := NotificationTrace(answer, s, wanted, budget);
        KeepsNextId(answer, s, 0, wanted, budget);
      }
    case NotifyCall(verb) =>
      if s.writable == 0 {
        Unchanged(answer, s);
        t := NOTHING;
      } else {
        WriteTrace(answer, s, Notification(verb), Notified(s, verb).0);
        t := Trace([], [], [], [Notification(verb)]);
      }
  }

  lemma {:induction false} KeepsNextId(answer: Answer, s: State, id: int, w: Wanted, budget: nat)
    ensures AwaitResponse(answer, s, id, budget).0.nextId == s.nextId
    ensures AwaitNotification(answer, s, w, budget).0.nextId == s.nextId
    decreases budget
  {
    if budget > 0 && s.inbox != [] && s.inbox[0].Some? {
      var m, s' := s.inbox[0].value, Dequeued(s);
      if IsServerRequest(m) {
        KeepsNextId(answer, Handle(answer, s', m).0, id, w, budget - 1);
      }
      KeepsNextId(answer, s'.(events := s'.events + [m]), id, w, budget - 1);
    }
  }

  /** The responses handed back by the request calls of a run, in order. */
  function Responses(calls: seq<Call>, outcomes: seq<Outcome>): seq<Message>
    requires |calls| == |outcomes|
  {
    if calls == [] then []
    else
      var first := if calls[0].RequestCall? && outcomes[0].Got? then [outcomes[0].message] else [];
      first + Responses(calls[1..], outcomes[1..])
  }

  /** Over any run: nothing taken off the queue is lost, invented or reordered, and if no write
      failed every server request was answered exactly once, in order, under its own id. */
  lemma {:induction false} RunConservesMessages(answer: Answer, s: State, calls: seq<Call>) returns (t: Trace)
    ensures var (s', outcomes) := Run(answer, s, calls);
      Explains(answer, s, s', t, ProcessExited !in outcomes) && t.returned == Responses(calls, outcomes)
    decreases |calls|
  {
    if calls == [] {
      Unchanged(answer, s);
      t := NOTHING;
    } else {
      var first := PerformTrace(answer, s, calls[0]);
      var (mid, outcome) := Perform(answer, s, calls[0]);
      var rest := RunConservesMessages(answer, mid, calls[1..]);
      var (s', outcomes) := Run(answer, mid, calls[1..]);
      ExplainsJoin(answer, s, mid, s', first, rest, outcome != ProcessExited, ProcessExited !in outcomes);
      t := Join(first, rest);
      assert ([outcome] + outcomes)[1..] == outcomes;
      assert ProcessExited !in [outcome] + outcomes <==> outcome != ProcessExited && ProcessExited !in outcomes;
    }
  }

  /** Writes other than replies: requests and notifications of the client itself. */
  function OwnWrites(written: seq<Outgoing>): nat {
    if written == [] then 0
    else (if written[0].Accept? || written[0].Unsupported? then 0 else 1) + OwnWrites(written[1..])
  }

  lemma {:induction false} WritesAreRepliesAndOwn(written: seq<Outgoing>)
    ensures |written| == |Replies(written)| + OwnWrites(written)
  {
    if written != [] { WritesAreRepliesAndOwn(written[1..]); }
  }

  lemma AnsweredIff(answer: Answer, s: State, s': State, t: Trace, allWritten: bool)
    requires Explains(answer, s, s', t, allWritten)
    ensures Replies(t.written) == ReplyAll(answer, t.noted)
      <==> |ReplyAll(answer, t.noted)| + OwnWrites(t.written) <= s.writable
  {
    WritesAreRepliesAndOwn(t.written);
    if |Replies(t.written)| == |ReplyAll(answer, t.noted)| {
      assert Replies(t.written) == ReplyAll(answer, t.noted);
    }
  }

  /** Over any run every server request taken off the queue is answered, in order and under its own id,
      exactly when the process accepts that many replies besides the client's own writes; otherwise the
      first of them are answered, as many as it accepts. */
  lemma ServerRequestsAnsweredIff(answer: Answer, s: State, calls: seq<Call>) returns (t: Trace)
    ensures var s' := Run(answer, s, calls).0;
      && s'.events == s.events + t.noted && s'.sent == s.sent + t.written
      && Replies(t.written) <= ReplyAll(answer, t.noted)
      && (Replies(t.written) == ReplyAll(answer, t.noted)
        <==> |ReplyAll(answer, t.noted)| + OwnWrites(t.written) <= s.writable)
      && (Replies(t.written) != ReplyAll(answer, t.noted) ==> |Replies(t.written)| == s.writable - OwnWrites(t.written))
  {
    t := RunConservesMessages(answer, s, calls);
    var (s', outcomes) := Run(answer, s, calls);
    AnsweredIff(answer, s, s', t, ProcessExited !in outcomes);
    WritesAreRepliesAndOwn(t.written);
  }

  /** A server request that reaches a client whose process has exited is noted and never answered. */
  lemma ServerRequestLeftUnanswered(answer: Answer)
    ensures var request := Message(Some(Number(7)), Name("x"), Some("{}"), "");
      var s := State(1, [Some(request)], [], [], [], 0);
      var (s', outcomes) := Run(answer, s, [WaitCall(Wanted("y", _ => true), 0, 1)]);
      && outcomes == [ProcessExited] && s'.events == [request] && s'.sent == []
      && ReplyAll(answer, s'.events) == [Unsupported(Number(7), "x")]
  {
    var request := Message(Some(Number(7)), Name("x"), Some("{}"), "");
    var s := State(1, [Some(request)], [], [], [], 0);
    var w := Wanted("y", _ => true);
    assert "x"[0] != ELICITATION[0];
    assert FirstMatch(w, [], 0) == 0;
    assert s.events + [request] == [request];
    assert Handle(answer, Dequeued(s), request) == (Dequeued(s).(events := [request]), false);
    assert AwaitNotification(answer, s, w, 1) == (Dequeued(s).(events := [request]), ProcessExited);
    var calls := [WaitCall(w, 0, 1)];
    assert calls[1..] == [];
    assert Perform(answer, s, calls[0]) == AwaitNotification(answer, s, w, 1);
    var s' := Dequeued(s).(events := [request]);
    assert Run(answer, s', calls[1..]) == (s', []);
    assert [ProcessExited] + [] == [ProcessExited];
    assert [request][1..] == [];
  }

  function RequestsBefore(calls: seq<Call>, k: nat): nat
    requires k <= |calls|
  {
    if k == 0 then 0 else RequestsBefore(calls, k - 1) + if calls[k-1].RequestCall? then 1 else 0
  }

  lemma {:induction false} RequestsAfterFirst(calls: seq<Call>, k: nat)
    requires 0 < k <= |calls|
    ensures RequestsBefore(calls, k) == (if calls[0].RequestCall? then 1 else 0) + RequestsBefore(calls[1..], k - 1)
  {
    if k > 1 { RequestsAfterFirst(calls, k - 1); }
  }

  /** The n-th request of a run only ever returns a response under the n-th id, however messages interleave. */
  lemma {:induction false} RequestsGetTheirOwnResponses(answer: Answer, s: State, calls: seq<Call>, k: nat)
    requires k < |calls| && calls[k].RequestCall? && Run(answer, s, calls).1[k].Got?
    ensures IsResponseTo(Run(answer, s, calls).1[k].message, s.nextId + RequestsBefore(calls, k))
    decreases k
  {
    var t := PerformTrace(answer, s, calls[0]);
    if k > 0 {
      var (mid, outcome) := Perform(answer, s, calls[0]);
      RequestsGetTheirOwnResponses(answer, mid, calls[1..], k - 1);
      RequestsAfterFirst(calls, k);
    }
  }

  // ----- Waiting for a notification

  lemma {:induction false} AwaitFindsFirst(answer: Answer, s: State, w: Wanted, budget: nat)
    ensures var (s', outcome) := AwaitNotification(answer, s, w, budget);
      && s.events <= s'.events
      && (forall i :: |s.events| <= i < |s'.events| && !(outcome.Got? && i == |s'.events| - 1)
            ==> !Matches(w, s'.events[i]) || IsServerRequest(s'.events[i]))
      && (outcome.Got? ==>
            && |s'.events| > |s.events| && s'.events[|s'.events|-1] == outcome.message
            && Matches(w, outcome.message) && !IsServerRequest(outcome.message))
    decreases budget
  {
    if budget > 0 && s.inbox != [] && s.inbox[0].Some? {
      var m, s' := s.inbox[0].value, Dequeued(s);
      if IsServerRequest(m) {
        AwaitFindsFirst(answer, Handle(answer, s', m).0, w, budget - 1);
      } else if !Matches(w, m) {
        AwaitFindsFirst(answer, s'.(events := s'.events + [m]), w, budget - 1);
      }
    }
  }

  /** The new events are the messages at the head of the queue, one by one. */
  ghost predicate FromInbox(s: State, events: seq<Message>) {
    && |s.events| <= |events| <= |s.events| + |s.inbox|
    && forall i :: |s.events| <= i < |events| ==> s.inbox[i - |s.events|] == Some(events[i])
  }

  lemma FromInboxStep(s: State, next: State, events: seq<Message>)
    requires s.inbox != [] && s.inbox[0].Some? && FromInbox(next, events) && next.events <= events
    requires next.inbox == s.inbox[1..] && next.events == s.events + [s.inbox[0].value]
    ensures FromInbox(s, events)
  {
    forall i | |s.events| <= i < |events| ensures s.inbox[i - |s.events|] == Some(events[i]) {
      if i == |s.events| {
        assert events[i] == next.events[i];
      } else {
        assert next.inbox[i - |next.events|] == s.inbox[i - |s.events|];
      }
    }
  }

  lemma {:induction false} AwaitTakesInOrder(answer: Answer, s: State, w: Wanted, budget: nat)
    ensures FromInbox(s, AwaitNotification(answer, s, w, budget).0.events)
    decreases budget
  {
    if budget > 0 && s.inbox != [] && s.inbox[0].Some? {
      var m, s' := s.inbox[0].value, Dequeued(s);
      if IsServerRequest(m) {
        var next := Handle(answer, s', m).0;
        AwaitTakesInOrder(answer, next, w, budget - 1);
        AwaitFindsFirst(answer, next, w, budget - 1);
        FromInboxStep(s, next, AwaitNotification(answer, next, w, budget - 1).0.events);
      } else {
        var next := s'.(events := s'.events + [m]);
        AwaitTakesInOrder(answer, next, w, budget - 1);
        AwaitFindsFirst(answer, next, w, budget - 1);
        FromInboxStep(s, next, AwaitNotification(answer, next, w, budget - 1).0.events);
      }
    }
  }

  /** Where in the final events a successful wait found its message. */
  ghost function FoundAt(w: Wanted, s: State, s': State, start: nat): int {
    var at := FirstMatch(w, s.events, start);
    if at < |s.events| then at else |s'.events| - 1
  }

  predicate MatchesAt(w: Wanted, inbox: seq<Option<Message>>, i: nat)
    requires i < |inbox|
  {
    inbox[i].Some? && Matches(w, inbox[i].value)
  }

  /** The index of the first matching message of the queue at or after `from`, or its length. */
  function FirstQueued(w: Wanted, inbox: seq<Option<Message>>, from: nat): (r: nat)
    requires from <= |inbox|
    ensures from <= r <= |inbox| && (r < |inbox| ==> MatchesAt(w, inbox, r))
    ensures forall i :: from <= i < r ==> !MatchesAt(w, inbox, i)
    decreases |inbox| - from
  {
    if from == |inbox| || MatchesAt(w, inbox, from) then from else FirstQueued(w, inbox, from + 1)
  }

  /** How much of the queue comes before the start index. */
  function Ahead(s: State, start: nat): (r: nat)
    ensures r <= |s.inbox|
  {
    if start <= |s.events| then 0 else if start - |s.events| <= |s.inbox| then start - |s.events| else |s.inbox|
  }

  /** No notification waited for is queued ahead of the start index, and the first match queued from
      there on is not a server request. */
  predicate NoneInTheWay(w: Wanted, s: State, start: nat) {
    var from := Ahead(s, start);
    var first := FirstQueued(w, s.inbox, from);
    && (forall i :: 0 <= i < from && MatchesAt(w, s.inbox, i) ==> IsServerRequest(s.inbox[i].value))
    && (first < |s.inbox| ==> !IsServerRequest(s.inbox[first].value))
  }

  /** A wait that goes to the queue returns the first match there that is no server request. */
  lemma AwaitReturnsFirstNotice(answer: Answer, s: State, w: Wanted, budget: nat) returns (k: nat)
    requires AwaitNotification(answer, s, w, budget).1.Got?
    ensures var (s', outcome) := AwaitNotification(answer, s, w, budget);
      && k < |s.inbox| && |s'.events| == |s.events| + k + 1 && s.inbox[k] == Some(outcome.message)
      && s.events <= s'.events && FromInbox(s, s'.events)
      && MatchesAt(w, s.inbox, k) && !IsServerRequest(s.inbox[k].value)
      && (forall i :: 0 <= i < k && MatchesAt(w, s.inbox, i) ==> IsServerRequest(s.inbox[i].value))
  {
    AwaitFindsFirst(answer, s, w, budget);
    AwaitTakesInOrder(answer, s, w, budget);
    var (s', outcome) := AwaitNotification(answer, s, w, budget);
    k := |s'.events| - |s.events| - 1;
    forall i | 0 <= i < k && MatchesAt(w, s.inbox, i) ensures IsServerRequest(s.inbox[i].value) {
      assert s.inbox[i] == Some(s'.events[|s.events| + i]);
    }
  }

  /** Searching the events from the start index is searching the queue from what lies ahead of it. */
  lemma SearchQueue(w: Wanted, s: State, events: seq<Message>, i: nat)
    requires FromInbox(s, events) && |s.events| <= i < |events|
    ensures Matches(w, events[i]) <==> MatchesAt(w, s.inbox, i - |s.events|)
  {
    assert s.inbox[i - |s.events|] == Some(events[i]);
  }

  lemma FirstEventIsQueued(w: Wanted, s: State, events: seq<Message>, start: nat, k: nat)
    requires FromInbox(s, events) && |events| == |s.events| + k + 1 && FirstMatch(w, events, start) == |s.events| + k
    ensures Ahead(s, start) <= k && FirstQueued(w, s.inbox, Ahead(s, start)) == k
  {
    SearchQueue(w, s, events, |s.events| + k);
    forall i | Ahead(s, start) <= i < k ensures !MatchesAt(w, s.inbox, i) {
      SearchQueue(w, s, events, |s.events| + i);
    }
  }

  lemma FirstQueuedIsEvent(w: Wanted, s: State, events: seq<Message>, start: nat, k: nat)
    requires FromInbox(s, events) && s.events <= events && |events| == |s.events| + k + 1
    requires FirstMatch(w, s.events, start) >= |s.events| && Ahead(s, start) <= k
    requires FirstQueued(w, s.inbox, Ahead(s, start)) == k && MatchesAt(w, s.inbox, k)
    ensures FirstMatch(w, events, start) == |s.events| + k
  {
    SearchQueue(w, s, events, |s.events| + k);
    forall i | start <= i < |s.events| + k ensures !Matches(w, events[i]) {
      if i < |s.events| {
        assert events[i] == s.events[i];
      } else {
        SearchQueue(w, s, events, i);
      }
    }
  }

  /** First among the events is first in the queue. */
  lemma QueuedIsFirst(w: Wanted, s: State, events: seq<Message>, start: nat, k: nat)
    requires FromInbox(s, events) && s.events <= events && |events| == |s.events| + k + 1
    requires FirstMatch(w, s.events, start) >= |s.events| && MatchesAt(w, s.inbox, k)
    ensures |s.events| + k == FirstMatch(w, events, start)
       <==> Ahead(s, start) <= k && FirstQueued(w, s.inbox, Ahead(s, start)) == k
  {
    if FirstMatch(w, events, start) == |s.events| + k {
      FirstEventIsQueued(w, s, events, start, k);
    } else if Ahead(s, start) <= k && FirstQueued(w, s.inbox, Ahead(s, start)) == k {
      FirstQueuedIsEvent(w, s, events, start, k);
    }
  }

  /** A wait returns the earliest match from its start index, over events noted before and during the
      wait, exactly when one was noted already, or nothing in the queue stands in its way. */
  lemma WaitReturnsEarliestIff(answer: Answer, s: State, w: Wanted, start: nat, budget: nat)
    requires Waited(answer, s, w, start, budget).1.Got?
    ensures var (s', outcome) := Waited(answer, s, w, start, budget);
      && 0 <= FoundAt(w, s, s', start) < |s'.events|
      && outcome.message == s'.events[FoundAt(w, s, s', start)]
      && (start <= |s.events| ==> start <= FoundAt(w, s, s', start))
      && (FoundAt(w, s, s', start) == FirstMatch(w, s'.events, start)
          <==> FirstMatch(w, s.events, start) < |s.events| || NoneInTheWay(w, s, start))
  {
    if FirstMatch(w, s.events, start) >= |s.events| {
      var (s', outcome) := Waited(answer, s, w, start, budget);
      var k := AwaitReturnsFirstNotice(answer, s, w, budget);
      QueuedIsFirst(w, s, s'.events, start, k);
      NoneInTheWayIff(w, s, start, k);
    }
  }

  lemma NoneInTheWayIff(w: Wanted, s: State, start: nat, k: nat)
    requires k < |s.inbox| && MatchesAt(w, s.inbox, k) && !IsServerRequest(s.inbox[k].value)
    requires forall i :: 0 <= i < k && MatchesAt(w, s.inbox, i) ==> IsServerRequest(s.inbox[i].value)
    ensures NoneInTheWay(w, s, start) <==> Ahead(s, start) <= k && FirstQueued(w, s.inbox, Ahead(s, start)) == k
  {
    var from := Ahead(s, start);
    var first := FirstQueued(w, s.inbox, from);
    if from <= k {
      assert first <= k;
    }
  }

  /** With no server request of the awaited method in the queue a wait always returns the earliest match. */
  lemma WaitReturnsEarliest(answer: Answer, s: State, w: Wanted, start: nat, budget: nat)
    requires start <= |s.events| && Waited(answer, s, w, start, budget).1.Got?
    requires forall i :: 0 <= i < |s.inbox| && s.inbox[i].Some? && IsServerRequest(s.inbox[i].value)
               ==> s.inbox[i].value.verb.name != w.verb
    ensures var (s', outcome) := Waited(answer, s, w, start, budget);
      && FirstMatch(w, s'.events, start) < |s'.events|
      && outcome.message == s'.events[FirstMatch(w, s'.events, start)]
  {
    WaitReturnsEarliestIff(answer, s, w, start, budget);
    var first := FirstQueued(w, s.inbox, 0);
    assert first < |s.inbox| ==> !IsServerRequest(s.inbox[first].value);
    assert NoneInTheWay(w, s, start);
  }

  /** A start index beyond what is noted: the wait returns a message noted below it. */
  lemma WaitReturnsBelowStart(answer: Answer)
    ensures var notice := Message(None, Name("x"), Some("{}"), "");
      var s := State(1, [Some(notice)], [], [], [], 0);
      var (s', outcome) := Waited(answer, s, Wanted("x", _ => true), 1, 1);
      outcome == Got(notice) && s'.events == [notice] && FirstMatch(Wanted("x", _ => true), s'.events, 1) == |s'.events|
  {
    var notice := Message(None, Name("x"), Some("{}"), "");
    var s := State(1, [Some(notice)], [], [], [], 0);
    var w := Wanted("x", _ => true);
    assert Matches(w, notice) && !IsServerRequest(notice);
    assert s.events + [notice] == [notice];
    assert AwaitNotification(answer, s, w, 1) == (Dequeued(s).(events := [notice]), Got(notice));
  }

  /** A wait that returns nothing leaves no match behind, except server requests that arrived while it waited. */
  lemma WaitMissesNothing(answer: Answer, s: State, w: Wanted, start: nat, budget: nat, i: nat)
    requires !Waited(answer, s, w, start, budget).1.Got?
    requires start <= i < |Waited(answer, s, w, start, budget).0.events|
    requires Matches(w, Waited(answer, s, w, start, budget).0.events[i])
    ensures i >= |s.events| && IsServerRequest(Waited(answer, s, w, start, budget).0.events[i])
  {
    AwaitFindsFirst(answer, s, w, budget);
  }

  /** The condition matters: here a server request of the awaited method is passed over for a later notification. */
  lemma WaitPassesOverServerRequest(answer: Answer)
    ensures var request, notice := Message(Some(Number(7)), Name("x"), Some("{}"), ""),
      Message(None, Name("x"), Some("{}"), "");
      var s := State(1, [Some(request), Some(notice)], [], [], [], 1);
      var (s', outcome) := Waited(answer, s, Wanted("x", _ => true), 0, 2);
      outcome == Got(notice) && s'.events == [request, notice] && FirstMatch(Wanted("x", _ => true), s'.events, 0) == 0
  {
    var request, notice := Message(Some(Number(7)), Name("x"), Some("{}"), ""),
      Message(None, Name("x"), Some("{}"), "");
    var s := State(1, [Some(request), Some(notice)], [], [], [], 1);
    var w := Wanted("x", _ => true);
    var (mid, ok) := Handle(answer, Dequeued(s), request);
    assert mid.inbox == [Some(notice)] && mid.events == [request];
    assert Matches(w, notice) && mid.events + [notice] == [request, notice];
    assert AwaitNotification(answer, mid, w, 1) == (Dequeued(mid).(events := [request, notice]), Got(notice));
    assert FirstMatch(w, [], 0) == 0;
    assert Waited(answer, s, w, 0, 2) == AwaitNotification(answer, s, w, 2);
  }
}
