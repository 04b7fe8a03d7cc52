/** The JSONL app-server client: one queue carries responses, server requests and notifications.

`inbox` is what the reader thread puts on the queue, in order; `None` is the end-of-output marker.
The deadline is a `budget`: how many messages arrive before it passes. `writable` is how many more
writes the process accepts before it is found to have exited.
*/
module AppServer {
  import opened Wrappers

  datatype Id = Number(n: int) | OtherId(json: string)

  datatype Method = NoMethod | Name(name: string) | NotAString

  /** A JSON object: `id` and `method` as the client looks at them, `params` when it is an object. */
  datatype Message = Message(id: Option<Id>, verb: Method, params: Option<string>, payload: string)

  datatype Outgoing =
    | Request(id: int, verb: string, params: Option<string>)
    | Notification(verb: string)
    | Accept(replyTo: Id, content: string)
    | Unsupported(replyTo: Id, verb: string)

  datatype Outcome = Got(message: Message) | Sent | TimedOut | StreamClosed | ProcessExited

  datatype State = State(
    nextId: int, inbox: seq<Option<Message>>, events: seq<Message>, elicitations: seq<string>,
    sent: seq<Outgoing>, writable: nat)

  const ELICITATION: string := "mcpServer/elicitation/request"

  predicate IsResponseTo(m: Message, id: int) { m.id == Some(Number(id)) && m.verb.NoMethod? }

  predicate IsServerRequest(m: Message) { m.id.Some? && m.verb.Name? }

  /** The content an accepted elicitation is answered with, given the parameters of the request. */
  type Answer = string -> string

  // ----- What the client does, as functions of its state

  /** The reply a server request gets. */
  function ReplyTo(answer: Answer, m: Message): Outgoing
    requires IsServerRequest(m)
  {
    if m.verb.name == ELICITATION then Accept(m.id.value, answer(if m.params.Some? then m.params.value else "{}"))
    else Unsupported(m.id.value, m.verb.name)
  }

  /** The state after a server request, and whether the reply could be written. */
  function Handle(answer: Answer, s: State, m: Message): (State, bool)
    requires IsServerRequest(m)
  {
    var noted := s.(events := s.events + [m],
                    elicitations := if m.verb.name == ELICITATION
                      && m.params.Some? then s.elicitations + [m.params.value] else s.elicitations);
    if s.writable == 0 then (noted, false)
    else (noted.(sent := s.sent + [ReplyTo(answer, m)], writable := s.writable - 1), true)
  }

  function Dequeued(s: State): State
    requires s.inbox != []
  {
    s.(inbox := s.inbox[1..])
  }

  function AwaitResponse(answer: Answer, s: State, id: int, budget: nat): (State, Outcome)
    decreases budget
  {
    if budget == 0 || s.inbox == [] then (s, TimedOut)
    else if s.inbox[0].None? then (Dequeued(s), StreamClosed)
    else
      var m, s' := s.inbox[0].value, Dequeued(s);
      if IsResponseTo(m, id) then (s', Got(m))
      else if IsServerRequest(m) then
        var (handled, ok) := Handle(answer, s', m);
        if ok then AwaitResponse(answer, handled, id, budget - 1) else (handled, ProcessExited)
      else AwaitResponse(answer, s'.(events := s'.events + [m]), id, budget - 1)
  }

  function Requested(answer: Answer, s: State, verb: string, params: Option<string>, budget: nat): (State, Outcome) {
    var numbered := s.(nextId := s.nextId + 1);
    if s.writable == 0 then (numbered, ProcessExited)
    else AwaitResponse(answer, numbered.(sent := s.sent + [Request(s.nextId, verb, params)],
      writable := s.writable - 1), s.nextId, budget)
  }

  /** What a wait is for: a method name and a condition on the parameters. */
  datatype Wanted = Wanted(verb: string, accepts: string -> bool)

  predicate Matches(w: Wanted, m: Message) {
    m.verb == Name(w.verb) && m.params.Some? && w.accepts(m.params.value)
  }

  /** The index of the first match at or after `start`, or the length of the list. */
  function FirstMatch(w: Wanted, events: seq<Message>, start: nat): (r: nat)
    ensures start <= |events| ==> start <= r <= |events|
    ensures start <= r < |events| ==> Matches(w, events[r])
    ensures forall i :: start <= i < r && i < |events| ==> !Matches(w, events[i])
    decreases |events| - start
  {
    if start >= |events| then start
    else if Matches(w, events[start]) then start
    else FirstMatch(w, events, start + 1)
  }

  function AwaitNotification(answer: Answer, s: State, w: Wanted, budget: nat): (State, Outcome)
    decreases budget
  {
    if budget == 0 || s.inbox == [] then (s, TimedOut)
    else if s.inbox[0].None? then (Dequeued(s), StreamClosed)
    else
      var m, s' := s.inbox[0].value, Dequeued(s);
      if IsServerRequest(m) then
        var (handled, ok) := Handle(answer, s', m);
        if ok then AwaitNotification(answer, handled, w, budget - 1) else (handled, ProcessExited)
      else
        var noted := s'.(events := s'.events + [m]);
        if Matches(w, m) then (noted, Got(m)) else AwaitNotification(answer, noted, w, budget - 1)
  }

  function Waited(answer: Answer, s: State, w: Wanted, start: nat, budget: nat): (State, Outcome) {
    var at := FirstMatch(w, s.events, start);
    if at < |s.events| then (s, Got(s.events[at])) else AwaitNotification(answer, s, w, budget)
  }

  function Notified(s: State, verb: string): (State, Outcome) {
    if s.writable == 0 then (s, ProcessExited)
    else (s.(sent := s.sent + [Notification(verb)], writable := s.writable - 1), Sent)
  }

  // ----- The client object

  class AppServerClient {
    const answer: Answer
    var nextId: int
    var inbox: seq<Option<Message>>
    var events: seq<Message>
    var elicitations: seq<string>
    var sent: seq<Outgoing>
    var writable: nat

    ghost function Now(): State
      reads this
    {
      State(nextId, inbox, events, elicitations, sent, writable)
    }

    constructor (answer: Answer, inbox: seq<Option<Message>>, writable: nat)
      ensures Now() == State(1, inbox, [], [], [], writable) && this.answer == answer
    {
      this.answer := answer;
      this.inbox, this.writable := inbox, writable;
      nextId, events, elicitations, sent := 1, [], [], [];
    }

    method Send(message: Outgoing) returns (ok: bool)
      modifies this
      ensures ok == (old(writable) > 0)
      ensures Now() == if ok then old(Now()).(sent := old(sent) + [message], writable := old(writable) - 1)
        else old(Now())
    {
      if writable == 0 { return false; }
      sent, writable := sent + [message], writable - 1;
      return true;
    }

    method Notify(verb: string) returns (outcome: Outcome)
      modifies this
      ensures (Now(), outcome) == Notified(old(Now()), verb)
    {
      var ok := Send(Notification(verb));
      return if ok then Sent else ProcessExited;
    }

    method HandleServerRequest(m: Message) returns (ok: bool)
      requires IsServerRequest(m)
      modifies this
      ensures (Now(), ok) == Handle(answer, old(Now()), m)
    {
      events := events + [m];
      if m.verb.name == ELICITATION {
        var params := "{}";
        if m.params.Some? {
          params := m.params.value;
          elicitations := elicitations + [params];
        }
        ok := Send(Accept(m.id.value, answer(params)));
        return;
      }
      ok := Send(Unsupported(m.id.value, m.verb.name));
    }

    method SendRequest(verb: string, params: Option<string>, budget: nat) returns (outcome: Outcome)
      modifies this
      ensures (Now(), outcome) == Requested(answer, old(Now()), verb, params, budget)
    {
      var id := nextId;
      nextId := nextId + 1;
      var ok := Send(Request(id, verb, params));
      if !ok { return ProcessExited; }
      var left := budget;
      ghost var final := AwaitResponse(answer, Now(), id, left);
      while true
        invariant AwaitResponse(answer, Now(), id, left) == final
        decreases left
      {
        if left == 0 || inbox == [] { return TimedOut; }
        var head := inbox[0];
        inbox, left := inbox[1..], left - 1;
        if head.None? { return StreamClosed; }
        var m := head.value;
        if IsResponseTo(m, id) { return Got(m); }
        if IsServerRequest(m) {
          ok := HandleServerRequest(m);
          if !ok { return ProcessExited; }
        } else {
          events := events + [m];
        }
      }
    }

    method WaitForNotification(w: Wanted, start: nat, budget: nat) returns (outcome: Outcome)
      modifies this
      ensures (Now(), outcome) == Waited(answer, old(Now()), w, start, budget)
    {
      var i := start;
      while i < |events|
        invariant FirstMatch(w, events, start) == FirstMatch(w, events, i)
        invariant Now() == old(Now())
      {
        if Matches(w, events[i]) { return Got(events[i]); }
        i := i + 1;
      }
      var left := budget;
      ghost var final := AwaitNotification(answer, Now(), w, left);
      while true
        invariant AwaitNotification(answer, Now(), w, left) == final
        decreases left
      {
        if left == 0 || inbox == [] { return TimedOut; }
        var head := inbox[0];
        inbox, left := inbox[1..], left - 1;
        if head.None? { return StreamClosed; }
        var m := head.value;
        if IsServerRequest(m) {
          var ok := HandleServerRequest(m);
          if !ok { return ProcessExited; }
          continue;
        }
        events := events + [m];
        if Matches(w, m) { return Got(m); }
      }
    }
  }
}
