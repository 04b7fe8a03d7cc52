/** How every request and wait of the app-server client ends, told from the messages on its queue. */
module AppServerOutcomes {
  import opened Wrappers
  import opened AppServer
  import opened AppServerRuns

  // ----- Replies

  /** An elicitation, and no other server request, is accepted, with the answer to its own parameters. */
  lemma AcceptedIff(answer: Answer, m: Message, id: Id, content: string)
    requires IsServerRequest(m)
    ensures ReplyTo(answer, m) == Accept(id, content) <==>
      && m.verb == Name("mcpServer/elicitation/request") && m.id == Some(id)
      && content == answer(match m.params case Some(params) => params case None => "{}")
  {
  }

  /** Every other server request is refused under its id and method. */
  lemma RefusedIff(answer: Answer, m: Message, id: Id, verb: string)
    requires IsServerRequest(m)
    ensures ReplyTo(answer, m) == Unsupported(id, verb) <==>
      m.id == Some(id) && m.verb == Name(verb) && verb != "mcpServer/elicitation/request"
  {
  }

  // ----- The first messages of a queue

  /** The server requests among the first `k` entries. */
  function Asked(inbox: seq<Option<Message>>, k: nat): (r: seq<Message>)
    requires k <= |inbox|
    ensures forall m :: m in r ==> IsServerRequest(m)
  {
    if k == 0 then []
    else
      (if inbox[0].Some? && inbox[0].value.id.Some? && inbox[0].value.verb.Name? then [inbox[0].value] else [])
      + Asked(inbox[1..], k - 1)
  }

  // ----- Ends

  /** Nothing among the first `k` entries ends the call. */
  ghost predicate Calm(inbox: seq<Option<Message>>, k: nat, stops: Message -> bool) {
    k <= |inbox| && forall i :: 0 <= i < k ==> inbox[i].Some? && !stops(inbox[i].value)
  }

  /** The call goes through `k` entries, answering the server requests among them, and ends this way at the next. */
  ghost predicate Ends(
    inbox: seq<Option<Message>>, room: nat, budget: nat, stops: Message -> bool, k: nat, outcome: Outcome)
  {
    && Calm(inbox, k, stops) && k <= budget && |Asked(inbox, k)| <= room
    && match outcome
       case Got(m) => k < budget && k < |inbox| && inbox[k] == Some(m) && stops(m)
       case StreamClosed => k < budget && k < |inbox| && inbox[k] == None
       case TimedOut => k == budget || k == |inbox|
       case ProcessExited =>
         && k < budget && Calm(inbox, k + 1, stops) && IsServerRequest(inbox[k].value) && |Asked(inbox, k)| == room
       case Sent => false
  }

  lemma {:induction false} AskedSnoc(inbox: seq<Option<Message>>, k: nat)
    requires k < |inbox|
    ensures Asked(inbox, k + 1)
      == Asked(inbox, k) + if inbox[k].Some? && IsServerRequest(inbox[k].value) then [inbox[k].value] else []
  {
    if k > 0 { AskedSnoc(inbox[1..], k - 1); }
  }

  lemma {:induction false} AskedGrows(inbox: seq<Option<Message>>, j: nat, k: nat)
    requires j <= k <= |inbox|
    ensures |Asked(inbox, j)| <= |Asked(inbox, k)|
    decreases k
  {
    if j < k {
      AskedGrows(inbox, j, k - 1);
      AskedSnoc(inbox, k - 1);
    }
  }

  lemma NoEarlierEnd(
    inbox: seq<Option<Message>>, room: nat, budget: nat, stops: Message -> bool,
    j: nat, early: Outcome, k: nat, late: Outcome)
    requires Ends(inbox, room, budget, stops, j, early) && Ends(inbox, room, budget, stops, k, late)
    ensures j >= k
  {
    if j < k {
      AskedSnoc(inbox, j);
      AskedGrows(inbox, j + 1, k);
    }
  }

  /** A call ends in at most one way. */
  lemma OneEnd(
    inbox: seq<Option<Message>>, room: nat, budget: nat, stops: Message -> bool,
    j: nat, early: Outcome, k: nat, late: Outcome)
    requires Ends(inbox, room, budget, stops, j, early) && Ends(inbox, room, budget, stops, k, late)
    ensures j == k && early == late
  {
    NoEarlierEnd(inbox, room, budget, stops, j, early, k, late);
    NoEarlierEnd(inbox, room, budget, stops, k, late, j, early);
  }

  /** A call that ends at all goes on past an entry that does not end it. */
  lemma EndsShift(
    inbox: seq<Option<Message>>, room: nat, budget: nat, stops: Message -> bool, k: nat, outcome: Outcome)
    requires inbox != [] && inbox[0].Some? && !stops(inbox[0].value) && budget > 0
    requires IsServerRequest(inbox[0].value) ==> room > 0
    requires var rest := if IsServerRequest(inbox[0].value) then room - 1 else room;
      Ends(inbox[1..], rest, budget - 1, stops, k, outcome)
    ensures Ends(inbox, room, budget, stops, k + 1, outcome)
  {
    assert forall i :: 0 < i < |inbox| ==> inbox[i] == inbox[1..][i-1];
  }

  // ----- The state along the way

  /** The state after `k` entries that did not end the call: all noted, the server requests answered. */
  function Through(answer: Answer, s: State, k: nat): State
    requires k <= |s.inbox| && |Asked(s.inbox, k)| <= s.writable
  {
    var asked := Asked(s.inbox, k);
    s.(inbox := s.inbox[k..], events := s.events + Messages(s.inbox[..k]),
       elicitations := s.elicitations + Elicited(asked),
       sent := s.sent + ReplyAll(answer, asked), writable := s.writable - |asked|)
  }

  function Step(answer: Answer, s: State): State
    requires s.inbox != [] && s.inbox[0].Some?
  {
    if IsServerRequest(s.inbox[0].value) then Handle(answer, Dequeued(s), s.inbox[0].value).0
    else Dequeued(s).(events := s.events + [s.inbox[0].value])
  }

  /** The state a call leaves: what ended it is off the queue, and noted when `keeps` says so. */
  function Left(answer: Answer, s: State, k: nat, outcome: Outcome, keeps: bool): State
    requires k <= |s.inbox| && |Asked(s.inbox, k)| <= s.writable
    requires outcome.TimedOut? || k < |s.inbox|
    requires outcome.ProcessExited? ==> s.inbox[k].Some?
  {
    var before := Through(answer, s, k);
    match outcome
    case Got(m) => before.(inbox := s.inbox[k+1..], events := before.events + if keeps then [m] else [])
    case ProcessExited =>
      before.(inbox := s.inbox[k+1..], events := before.events + [s.inbox[k].value],
              elicitations := before.elicitations + Elicited([s.inbox[k].value]))
    case TimedOut => before
    case _ => before.(inbox := s.inbox[k+1..])
  }

  lemma ThroughRequest(answer: Answer, s: State, k: nat, m: Message)
    requires 0 < k <= |s.inbox| && s.inbox[0] == Some(m) && IsServerRequest(m) && |Asked(s.inbox, k)| <= s.writable
    ensures Through(answer, Step(answer, s), k - 1) == Through(answer, s, k)
  {
    var later := Asked(s.inbox[1..], k - 1);
    assert Asked(s.inbox, k) == [m] + later;
    assert s.inbox[1..][k-1..] == s.inbox[k..];
    Regroup(s.events, [m], Messages(s.inbox[1..][..k-1]));
    OneMoreMessage(s.inbox, k, m);
    ReplyAllAppend(answer, [m], later);
    ElicitedAppend([m], later);
    Regroup(s.sent, [ReplyTo(answer, m)], ReplyAll(answer, later));
    Regroup(s.elicitations, Elicited([m]), Elicited(later));
    HandledIs(answer, s, m);
  }

  lemma OneMoreMessage(inbox: seq<Option<Message>>, k: nat, m: Message)
    requires 0 < k <= |inbox| && inbox[0] == Some(m)
    ensures Messages(inbox[..k]) == [m] + Messages(inbox[1..][..k-1])
  {
    assert inbox[..k][1..] == inbox[1..][..k-1];
  }

  lemma HandledIs(answer: Answer, s: State, m: Message)
    requires s.inbox != [] && s.inbox[0] == Some(m) && IsServerRequest(m) && s.writable > 0
    ensures Step(answer, s) == s.(
      inbox := s.inbox[1..], events := s.events + [m], elicitations := s.elicitations + Elicited([m]),
      sent := s.sent + [ReplyTo(answer, m)], writable := s.writable - 1)
  {
    assert [m][1..] == [];
  }

  lemma ThroughOther(answer: Answer, s: State, k: nat, m: Message)
    requires 0 < k <= |s.inbox| && s.inbox[0] == Some(m) && !IsServerRequest(m) && |Asked(s.inbox, k)| <= s.writable
    ensures Through(answer, Step(answer, s), k - 1) == Through(answer, s, k)
  {
    assert Asked(s.inbox, k) == Asked(s.inbox[1..], k - 1);
    assert s.inbox[1..][k-1..] == s.inbox[k..];
    Regroup(s.events, [m], Messages(s.inbox[1..][..k-1]));
    OneMoreMessage(s.inbox, k, m);
  }

  lemma LeftStep(answer: Answer, s: State, k: nat, outcome: Outcome, keeps: bool)
    requires 0 < k <= |s.inbox| && s.inbox[0].Some? && |Asked(s.inbox, k)| <= s.writable
    requires outcome.TimedOut? || k < |s.inbox|
    requires outcome.ProcessExited? ==> s.inbox[k].Some?
    ensures Left(answer, Step(answer, s), k - 1, outcome, keeps) == Left(answer, s, k, outcome, keeps)
  {
    var m := s.inbox[0].value;
    if IsServerRequest(m) { ThroughRequest(answer, s, k, m); } else { ThroughOther(answer, s, k, m); }
    if k < |s.inbox| {
      assert s.inbox[1..][k-1] == s.inbox[k] && s.inbox[1..][k-1+1..] == s.inbox[k+1..];
    }
  }

  // ----- Requests

  ghost predicate EndsSo(
    answer: Answer, s: State, budget: nat, stops: Message -> bool, keeps: bool, k: nat, result: (State, Outcome))
  {
    && Ends(s.inbox, s.writable, budget, stops, k, result.1)
    && result.0 == Left(answer, s, k, result.1, keeps)
  }

  lemma LeftAtOnce(answer: Answer, s: State, outcome: Outcome, keeps: bool)
    requires outcome.TimedOut? || s.inbox != []
    requires outcome.ProcessExited? ==> s.inbox[0].Some? && IsServerRequest(s.inbox[0].value) && s.writable == 0
    ensures Left(answer, s, 0, outcome, keeps) ==
      match outcome
      case Got(m) => Dequeued(s).(events := s.events + if keeps then [m] else [])
      case ProcessExited => Handle(answer, Dequeued(s), s.inbox[0].value).0
      case TimedOut => s
      case _ => Dequeued(s)
  {
    assert Through(answer, s, 0) == s;
    assert s.events + [] == s.events && s.elicitations + [] == s.elicitations;
    if s.inbox != [] && s.inbox[0].Some? { assert [s.inbox[0].value][1..] == []; }
  }

  /** The entry at the head of the queue, if there is one and time for it, does not end the call. */
  predicate GoesOn(s: State, budget: nat, stops: Message -> bool) {
    && budget > 0 && s.inbox != [] && s.inbox[0].Some? && !stops(s.inbox[0].value)
    && (IsServerRequest(s.inbox[0].value) ==> s.writable > 0)
  }

  lemma EndsLater(
    answer: Answer, s: State, budget: nat, stops: Message -> bool, keeps: bool, k: nat, result: (State, Outcome))
    requires GoesOn(s, budget, stops) && EndsSo(answer, Step(answer, s), budget - 1, stops, keeps, k, result)
    ensures EndsSo(answer, s, budget, stops, keeps, k + 1, result)
  {
    EndsShift(s.inbox, s.writable, budget, stops, k, result.1);
    LeftStep(answer, s, k + 1, result.1, keeps);
  }

  /** What ends a request: a message with its id and no method. */
  function Responding(id: int): Message -> bool { (m: Message) => m.id == Some(Number(id)) && m.verb == NoMethod }

  lemma ResponseAtOnce(answer: Answer, s: State, id: int, budget: nat)
    requires !GoesOn(s, budget, Responding(id))
    ensures EndsSo(answer, s, budget, Responding(id), false, 0, AwaitResponse(answer, s, id, budget))
  {
    LeftAtOnce(answer, s, AwaitResponse(answer, s, id, budget).1, false);
  }

  lemma ResponseGoesOn(answer: Answer, s: State, id: int, budget: nat)
    requires GoesOn(s, budget, Responding(id))
    ensures AwaitResponse(answer, s, id, budget) == AwaitResponse(answer, Step(answer, s), id, budget - 1)
  {
  }

  lemma {:induction false} ResponseEnds(answer: Answer, s: State, id: int, budget: nat)
    returns (k: nat, result: (State, Outcome))
    ensures result == AwaitResponse(answer, s, id, budget)
    ensures EndsSo(answer, s, budget, Responding(id), false, k, result)
    decreases budget
  {
    if GoesOn(s, budget, Responding(id)) {
      var j;
      j, result := ResponseEnds(answer, Step(answer, s), id, budget - 1);
      assert result == AwaitResponse(answer, s, id, budget) by { ResponseGoesOn(answer, s, id, budget); }
      EndsLater(answer, s, budget, Responding(id), false, j, result);
      k := j + 1;
    } else {
      ResponseAtOnce(answer, s, id, budget);
      k, result := 0, AwaitResponse(answer, s, id, budget);
    }
  }

  // ----- Waits

  predicate Fits(w: Wanted, m: Message) { m.verb == Name(w.verb) && m.params.Some? && w.accepts(m.params.value) }

  /** What ends a wait: a fitting message that is not a server request. */
  function Noticing(w: Wanted): Message -> bool { (m: Message) => m.id.None? && Fits(w, m) }

  lemma NotificationAtOnce(answer: Answer, s: State, w: Wanted, budget: nat)
    requires !GoesOn(s, budget, Noticing(w))
    ensures EndsSo(answer, s, budget, Noticing(w), true, 0, AwaitNotification(answer, s, w, budget))
  {
    LeftAtOnce(answer, s, AwaitNotification(answer, s, w, budget).1, true);
  }

  lemma NotificationGoesOn(answer: Answer, s: State, w: Wanted, budget: nat)
    requires GoesOn(s, budget, Noticing(w))
    ensures AwaitNotification(answer, s, w, budget) == AwaitNotification(answer, Step(answer, s), w, budget - 1)
  {
  }

  lemma {:induction false} NotificationEnds(answer: Answer, s: State, w: Wanted, budget: nat)
    returns (k: nat, result: (State, Outcome))
    ensures result == AwaitNotification(answer, s, w, budget)
    ensures EndsSo(answer, s, budget, Noticing(w), true, k, result)
    decreases budget
  {
    if GoesOn(s, budget, Noticing(w)) {
      var j;
      j, result := NotificationEnds(answer, Step(answer, s), w, budget - 1);
      assert result == AwaitNotification(answer, s, w, budget) by { NotificationGoesOn(answer, s, w, budget); }
      EndsLater(answer, s, budget, Noticing(w), true, j, result);
      k := j + 1;
    } else {
      NotificationAtOnce(answer, s, w, budget);
      k, result := 0, AwaitNotification(answer, s, w, budget);
    }
  }

  // ----- What every call does

  /** The state once a request is written: its id is used up, and it is the next message sent. */
  function Asking(s: State, verb: string, params: Option<string>): State
    requires s.writable > 0
  {
    s.(nextId := s.nextId + 1, sent := s.sent + [Request(s.nextId, verb, params)], writable := s.writable - 1)
  }

  lemma RequestAwaits(answer: Answer, s: State, verb: string, params: Option<string>, budget: nat)
    requires s.writable > 0
    ensures Requested(answer, s, verb, params, budget)
      == AwaitResponse(answer, Asking(s, verb, params), s.nextId, budget)
  {
  }

  lemma SoleEnd(
    answer: Answer, s: State, budget: nat, stops: Message -> bool, keeps: bool,
    k: nat, actual: (State, Outcome), result: (State, Outcome))
    requires EndsSo(answer, s, budget, stops, keeps, k, actual)
    ensures actual == result <==> exists j :: EndsSo(answer, s, budget, stops, keeps, j, result)
  {
    if j :| EndsSo(answer, s, budget, stops, keeps, j, result) {
      OneEnd(s.inbox, s.writable, budget, stops, j, result.1, k, actual.1);
    }
  }

  /** How a request ends. One that cannot be written exits at once, using up its id. One that can be written ends
      at the first queue entry that is its response, the end of the stream, or a server request it cannot answer,
      or when time or the queue runs out. */
  lemma RequestedIff(
    answer: Answer, s: State, verb: string, params: Option<string>, budget: nat, result: (State, Outcome))
    ensures Requested(answer, s, verb, params, budget) == result <==>
      if s.writable == 0 then result == (s.(nextId := s.nextId + 1), ProcessExited)
      else exists k :: EndsSo(answer, Asking(s, verb, params), budget, Responding(s.nextId), false, k, result)
  {
    if s.writable > 0 {
      var start := Asking(s, verb, params);
      RequestAwaits(answer, s, verb, params, budget);
      var k, actual := ResponseEnds(answer, start, s.nextId, budget);
      SoleEnd(answer, start, budget, Responding(s.nextId), false, k, actual, result);
    }
  }

  /** How a wait ends: with the first match among the events from `start`, or else as a request does, at a
      notification that matches. */
  lemma WaitedIff(answer: Answer, s: State, w: Wanted, start: nat, budget: nat, result: (State, Outcome))
    ensures Waited(answer, s, w, start, budget) == result <==>
      || (exists i :: start <= i < |s.events| && Fits(w, s.events[i]) && result == (s, Got(s.events[i]))
            && forall j :: start <= j < i ==> !Fits(w, s.events[j]))
      || ((forall i :: start <= i < |s.events| ==> !Fits(w, s.events[i]))
          && exists k :: EndsSo(answer, s, budget, Noticing(w), true, k, result))
  {
    var at := FirstMatch(w, s.events, start);
    if at >= |s.events| {
      var k, actual := NotificationEnds(answer, s, w, budget);
      SoleEnd(answer, s, budget, Noticing(w), true, k, actual, result);
    }
  }

  /** A notification is written, or the process has exited and nothing changes. */
  lemma NotifiedIff(s: State, verb: string, result: (State, Outcome))
    ensures Notified(s, verb) == result <==>
      || (s.writable == 0 && result == (s, ProcessExited))
      || (s.writable > 0 && result.1 == Sent
          && result.0 == s.(sent := s.sent + [Notification(verb)], writable := s.writable - 1))
  {
  }

  /** A request returns `m` exactly when `m` answers its id, arrives within the budget, nothing before it does or
      ends the stream, and the writes cover the request and the server requests before it. */
  lemma ResponseReturnedIff(
    answer: Answer, s: State, verb: string, params: Option<string>, budget: nat, m: Message)
    ensures Requested(answer, s, verb, params, budget).1 == Got(m) <==>
      exists k: nat ::
        && k < budget && k < |s.inbox| && s.inbox[k] == Some(m) && Responding(s.nextId)(m)
        && (forall i :: 0 <= i < k ==> s.inbox[i].Some? && !Responding(s.nextId)(s.inbox[i].value))
        && 1 + |Asked(s.inbox, k)| <= s.writable
  {
    if s.writable > 0 {
      var start, stops := Asking(s, verb, params), Responding(s.nextId);
      RequestAwaits(answer, s, verb, params, budget);
      var j, actual := ResponseEnds(answer, start, s.nextId, budget);
      if k: nat :|
        && k < budget && k < |s.inbox| && s.inbox[k] == Some(m) && Responding(s.nextId)(m)
        && (forall i :: 0 <= i < k ==> s.inbox[i].Some? && !Responding(s.nextId)(s.inbox[i].value))
        && 1 + |Asked(s.inbox, k)| <= s.writable
      {
        assert Ends(s.inbox, s.writable - 1, budget, stops, k, Got(m));
        OneEnd(s.inbox, s.writable - 1, budget, stops, j, actual.1, k, Got(m));
      }
    }
  }
}
