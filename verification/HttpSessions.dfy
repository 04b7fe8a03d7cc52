/** HTTP sessions of the fixture server: a dictionary of connection states. */
module HttpSessions {
  import opened Wrappers
  import opened ProtocolServer

  const HEADER_MISMATCH := -32020
  const METHOD_NOT_ALLOWED := 405

  /** A request: `newSession` is the random id drawn for an `initialize`. `Rejected` is one turned
      away before its message is looked at (path, origin, content type, length, malformed JSON). */
  datatype HttpRequest =
    | Post(session: Option<string>, newSession: string, headersValid: bool, message: Message)
    | Delete(session: Option<string>)
    | Rejected

  type Sessions = map<string, Conn>

  function DoPost(server: Server, sessions: Sessions, r: HttpRequest): (Sessions, Plan)
    requires r.Post?
  {
    var m, input := r.message, Parsed(r.message);
    var id := if m.id.Some? then m.id.value else Null;
    if server.mode == Modern then
      if m.id.Some? && !r.headersValid then (sessions, Fail(id, HEADER_MISMATCH, BAD_REQUEST))
      else (sessions, Handle(server, input, NEW_CONN).1)
    else if m.verb == Some(Initialize) then
      var (conn, plan) := Handle(server, input, NEW_CONN);
      (sessions[r.newSession := conn], plan)
    else if m.verb == Some(Discover) then (sessions, Handle(server, input, NEW_CONN).1)
    else if r.session.None? || r.session.value !in sessions then (sessions, Fail(id, INVALID_REQUEST, BAD_REQUEST))
    else
      var (conn, plan) := Handle(server, input, sessions[r.session.value]);
      (sessions[r.session.value := conn], plan)
  }

  function Serve(server: Server, sessions: Sessions, r: HttpRequest): (Sessions, Plan) {
    match r
    case Post(_, _, _, _) => DoPost(server, sessions, r)
    case Delete(session) =>
      if server.mode == Modern then (sessions, Silent(METHOD_NOT_ALLOWED))
      else if session.Some? && session.value in sessions then (sessions - {session.value}, Silent(OK))
      else (sessions, Silent(NOT_FOUND))
    case Rejected => (sessions, Silent(BAD_REQUEST))
  }

  // ----- The session dictionary as objects

  class SessionTable {
    const server: Server
    var sessions: map<string, ConnectionState>

    constructor (server: Server)
      ensures Valid() && Value() == map[] && this.server == server
    {
      this.server := server;
      sessions := map[];
    }

    /** No two session ids share a state object. */
    ghost predicate Valid()
      reads this
    {
      forall x, y :: x in sessions && y in sessions && x != y ==> sessions[x] != sessions[y]
    }

    ghost function Value(): Sessions
      reads this, sessions.Values
    {
      map x | x in sessions :: sessions[x].Value()
    }

    /** The state a legacy request works on: a new session, a throw-away one, or the one named by its header. */
    method LegacyState(r: HttpRequest) returns (state: ConnectionState?)
      requires Valid() && r.Post?
      modifies this
      ensures Valid()
      ensures r.message.verb == Some(Initialize) ==>
        && state != null && fresh(state) && state.Value() == NEW_CONN
          && sessions == old(sessions)[r.newSession := state]
        && Value() == old(Value())[r.newSession := NEW_CONN]
      ensures r.message.verb != Some(Initialize) ==> sessions == old(sessions) && Value() == old(Value())
      ensures r.message.verb == Some(Discover) ==> state != null && fresh(state) && state.Value() == NEW_CONN
      ensures r.message.verb != Some(Initialize) && r.message.verb != Some(Discover) ==>
        state == if r.session.Some? && r.session.value in sessions then sessions[r.session.value] else null
    {
      if r.message.verb == Some(Initialize) {
        state := new ConnectionState();
        sessions := sessions[r.newSession := state];
        assert Value() == old(Value())[r.newSession := NEW_CONN];
      } else if r.message.verb == Some(Discover) {
        state := new ConnectionState();
      } else if r.session.Some? && r.session.value in sessions {
        state := sessions[r.session.value];
      } else {
        state := null;
      }
    }

    /** A request answered on a state no session holds. */
    method ServeApart(r: HttpRequest, state: ConnectionState) returns (plan: Plan)
      requires r.Post? && state !in sessions.Values
      modifies state
      ensures Value() == old(Value()) && plan == Handle(server, Parsed(r.message), old(state.Value())).1
    {
      plan := HandleMessage(server, Parsed(r.message), state);
      assert Value() == old(Value());
    }

    /** A request that works on a state of its own, not (or no longer) shared with another session. */
    method ServeOn(r: HttpRequest, state: ConnectionState, id: string) returns (plan: Plan)
      requires Valid() && r.Post? && id in sessions && sessions[id] == state
      modifies state
      ensures Valid() && sessions == old(sessions)
      ensures (Value(), plan) == (old(Value())[id := Handle(server, Parsed(r.message), old(state.Value())).0],
                                  Handle(server, Parsed(r.message), old(state.Value())).1)
    {
      plan := HandleMessage(server, Parsed(r.message), state);
      assert Value() == old(Value())[id := state.Value()];
    }

    /** A modern server checks the headers of requests and keeps no sessions. */
    method ServeModern(r: HttpRequest) returns (plan: Plan)
      requires r.Post? && server.mode == Modern
      ensures Value() == old(Value()) && plan == DoPost(server, Value(), r).1
    {
      if r.message.id.Some? && !r.headersValid {
        return Fail(r.message.id.value, HEADER_MISMATCH, BAD_REQUEST);
      }
      var state := new ConnectionState();
      plan := ServeApart(r, state);
    }

    method ServePost(r: HttpRequest) returns (plan: Plan)
      requires Valid() && r.Post?
      modifies this, sessions.Values
      ensures Valid()
      ensures (Value(), plan) == DoPost(server, old(Value()), r)
    {
      if server.mode == Modern {
        plan := ServeModern(r);
        return;
      }
      var state := LegacyState(r);
      if state == null {
        var id := if r.message.id.Some? then r.message.id.value else Null;
        plan := Fail(id, INVALID_REQUEST, BAD_REQUEST);
      } else if r.message.verb == Some(Initialize) {
        plan := ServeOn(r, state, r.newSession);
        ghost var was, conn := old(Value()), Handle(server, Parsed(r.message), NEW_CONN).0;
        assert was[r.newSession := NEW_CONN][r.newSession := conn] == was[r.newSession := conn];
      } else if r.message.verb == Some(Discover) {
        plan := ServeApart(r, state);
      } else {
        plan := ServeOn(r, state, r.session.value);
      }
    }

    method ServeDelete(session: Option<string>) returns (plan: Plan)
      requires Valid()
      modifies this
      ensures Valid()
      ensures (Value(), plan) == Serve(server, old(Value()), Delete(session))
    {
      if server.mode == Modern { return Silent(METHOD_NOT_ALLOWED); }
      if session.Some? && session.value in sessions {
        sessions := sessions - {session.value};
        assert Value() == old(Value()) - {session.value};
        return Silent(OK);
      }
      return Silent(NOT_FOUND);
    }
  }

  // ----- Sessions do not interfere

  /** The session a request can read or change. */
  function Target(server: Server, r: HttpRequest): Option<string> {
    if server.mode == Modern then None
    else match r
      case Post(session, newSession, _, m) =>
        if m.verb == Some(Initialize) then Some(newSession) else if m.verb == Some(Discover) then None else session
      case Delete(session) => session
      case Rejected => None
  }

  function Lookup(sessions: Sessions, x: string): Option<Conn> {
    if x in sessions then Some(sessions[x]) else None
  }

  function SessionsAfter(server: Server, start: Sessions, rs: seq<HttpRequest>): Sessions
    decreases |rs|
  {
    if rs == [] then start else Serve(server, SessionsAfter(server, start, rs[..|rs|-1]), rs[|rs|-1]).0
  }

  /** The requests that address one session, in order. */
  function OnlyFor(server: Server, rs: seq<HttpRequest>, x: string): seq<HttpRequest> {
    if rs == [] then []
    else
      var before, last := OnlyFor(server, rs[..|rs|-1], x), rs[|rs|-1];
      if Target(server, last) == Some(x) then before + [last] else before
  }

  lemma OtherTrafficIsInvisible(server: Server, sessions: Sessions, r: HttpRequest, x: string)
    requires Target(server, r) != Some(x)
    ensures Lookup(Serve(server, sessions, r).0, x) == Lookup(sessions, x)
  {
  }

  lemma OwnTrafficIsLocal(server: Server, a: Sessions, b: Sessions, r: HttpRequest, x: string)
    requires Target(server, r) == Some(x) && Lookup(a, x) == Lookup(b, x)
    ensures Serve(server, a, r).1 == Serve(server, b, r).1
    ensures Lookup(Serve(server, a, r).0, x) == Lookup(Serve(server, b, r).0, x)
  {
  }

  /** A session ends up in the state its own requests alone would have given it, and they are answered alike. */
  lemma {:induction false} SessionsAreIndependent(server: Server, start: Sessions, rs: seq<HttpRequest>, x: string)
    ensures Lookup(SessionsAfter(server, start, rs), x)
      == Lookup(SessionsAfter(server, start, OnlyFor(server, rs, x)), x)
    ensures forall r :: Target(server, r) == Some(x) ==>
      Serve(server, SessionsAfter(server, start, rs), r).1
        == Serve(server, SessionsAfter(server, start, OnlyFor(server, rs, x)), r).1
    decreases |rs|
  {
    if rs != [] {
      var init, last := rs[..|rs|-1], rs[|rs|-1];
      SessionsAreIndependent(server, start, init, x);
      var all, own := SessionsAfter(server, start, init), SessionsAfter(server, start, OnlyFor(server, init, x));
      if Target(server, last) == Some(x) {
        var mine := OnlyFor(server, init, x) + [last];
        assert mine[..|mine|-1] == OnlyFor(server, init, x) && mine[|mine|-1] == last;
        OwnTrafficIsLocal(server, all, own, last, x);
      } else {
        OtherTrafficIsInvisible(server, all, last, x);
      }
    }
    var all', own' := SessionsAfter(server, start, rs), SessionsAfter(server, start, OnlyFor(server, rs, x));
    forall r | Target(server, r) == Some(x) ensures Serve(server, all', r).1 == Serve(server, own', r).1 {
      OwnTrafficIsLocal(server, all', own', r, x);
    }
  }

  // ----- The handshake over HTTP

  ghost predicate OpensSession(r: HttpRequest, x: string) {
    r.Post? && r.newSession == x && AcceptedInitialize(Parsed(r.message))
  }

  ghost predicate ConfirmsSession(r: HttpRequest, x: string) {
    r.Post? && r.session == Some(x) && InitializedNotice(Parsed(r.message))
  }

  /** An `initialize` that draws this session id, accepted or not: it replaces any earlier session. */
  ghost predicate CreatesSession(r: HttpRequest, x: string) {
    r.Post? && r.newSession == x && r.message.verb == Some(Initialize)
  }

  ghost predicate DeletesSession(r: HttpRequest, x: string) { r == Delete(Some(x)) }

  ghost predicate ResetsSession(r: HttpRequest, x: string) { CreatesSession(r, x) || DeletesSession(r, x) }

  /** From request `i` on the session is neither deleted nor replaced. */
  ghost predicate Undisturbed(rs: seq<HttpRequest>, i: nat, x: string) {
    forall k :: i < k < |rs| ==> !ResetsSession(rs[k], x)
  }

  ghost predicate Live(rs: seq<HttpRequest>, x: string) {
    exists i :: 0 <= i < |rs| && CreatesSession(rs[i], x) && Undisturbed(rs, i, x)
  }

  /** The session as it stands now was opened by an accepted `initialize`. */
  ghost predicate Opened(rs: seq<HttpRequest>, x: string) {
    exists i :: 0 <= i < |rs| && OpensSession(rs[i], x) && Undisturbed(rs, i, x)
  }

  /** The session as it stands now was opened, and later confirmed. */
  ghost predicate SessionHandshake(rs: seq<HttpRequest>, x: string) {
    exists i, j :: 0 <= i < j < |rs| && OpensSession(rs[i], x) && ConfirmsSession(rs[j], x) && Undisturbed(rs, i, x)
  }

  lemma UndisturbedStep(rs: seq<HttpRequest>, i: nat, x: string)
    requires i + 1 < |rs|
    ensures Undisturbed(rs, i, x) <==> Undisturbed(rs[..|rs|-1], i, x) && !ResetsSession(rs[|rs|-1], x)
  {
    var init := rs[..|rs|-1];
    if Undisturbed(init, i, x) && !ResetsSession(rs[|rs|-1], x) {
      forall k | i < k < |rs| ensures !ResetsSession(rs[k], x) {
        assert k < |init| ==> init[k] == rs[k];
      }
    }
    if Undisturbed(rs, i, x) {
      forall k | i < k < |init| ensures !ResetsSession(init[k], x) {
        assert init[k] == rs[k];
      }
    }
  }

  lemma LiveStep(rs: seq<HttpRequest>, x: string)
    requires rs != []
    ensures var init, last := rs[..|rs|-1], rs[|rs|-1];
      Live(rs, x) <==> CreatesSession(last, x) || (!ResetsSession(last, x) && Live(init, x))
  {
    var n := |rs| - 1;
    var init := rs[..n];
    if i :| 0 <= i < |rs| && CreatesSession(rs[i], x) && Undisturbed(rs, i, x) && i < n {
      UndisturbedStep(rs, i, x);
      assert CreatesSession(init[i], x);
    }
    if CreatesSession(rs[n], x) {
      assert Undisturbed(rs, n, x);
    } else if !ResetsSession(rs[n], x) && Live(init, x) {
      var i :| 0 <= i < n && CreatesSession(init[i], x) && Undisturbed(init, i, x);
      UndisturbedStep(rs, i, x);
      assert CreatesSession(rs[i], x);
    }
  }

  lemma OpenedStep(rs: seq<HttpRequest>, x: string)
    requires rs != []
    ensures var init, last := rs[..|rs|-1], rs[|rs|-1];
      Opened(rs, x) <==> OpensSession(last, x) || (!ResetsSession(last, x) && Opened(init, x))
  {
    var n := |rs| - 1;
    var init := rs[..n];
    if i :| 0 <= i < |rs| && OpensSession(rs[i], x) && Undisturbed(rs, i, x) && i < n {
      UndisturbedStep(rs, i, x);
      assert OpensSession(init[i], x);
    }
    if OpensSession(rs[n], x) {
      assert Undisturbed(rs, n, x);
    } else if !ResetsSession(rs[n], x) && Opened(init, x) {
      var i :| 0 <= i < n && OpensSession(init[i], x) && Undisturbed(init, i, x);
      UndisturbedStep(rs, i, x);
      assert OpensSession(rs[i], x);
    }
  }

  lemma HandshakeGoesBack(rs: seq<HttpRequest>, x: string)
    requires SessionHandshake(rs, x)
    ensures var init, last := rs[..|rs|-1], rs[|rs|-1];
      !ResetsSession(last, x) && (SessionHandshake(init, x) || (Opened(init, x) && ConfirmsSession(last, x)))
  {
    var init := rs[..|rs|-1];
    var i, j :| 0 <= i < j < |rs| && OpensSession(rs[i], x) && ConfirmsSession(rs[j], x) && Undisturbed(rs, i, x);
    UndisturbedStep(rs, i, x);
    assert OpensSession(init[i], x);
    assert j < |init| ==> ConfirmsSession(init[j], x);
  }

  lemma HandshakeGoesOn(rs: seq<HttpRequest>, x: string)
    requires rs != [] && !ResetsSession(rs[|rs|-1], x)
    requires SessionHandshake(rs[..|rs|-1], x) || (Opened(rs[..|rs|-1], x) && ConfirmsSession(rs[|rs|-1], x))
    ensures SessionHandshake(rs, x)
  {
    var init := rs[..|rs|-1];
    if SessionHandshake(init, x) {
      var i, j :| 0 <= i < j < |init| && OpensSession(init[i], x) && ConfirmsSession(init[j], x)
        && Undisturbed(init, i, x);
      UndisturbedStep(rs, i, x);
      assert OpensSession(rs[i], x) && ConfirmsSession(rs[j], x);
    } else {
      var i :| 0 <= i < |init| && OpensSession(init[i], x) && Undisturbed(init, i, x);
      UndisturbedStep(rs, i, x);
      assert OpensSession(rs[i], x) && ConfirmsSession(rs[|init|], x);
    }
  }

  /** After any traffic a session exists exactly when it was created and neither deleted nor replaced since,
      and its two flags say exactly how far its own handshake has got since then. */
  lemma {:induction false} SessionStateIsHandshake(server: Server, rs: seq<HttpRequest>, x: string)
    requires server.mode != Modern
    ensures var sessions := SessionsAfter(server, map[], rs);
      && (x in sessions <==> Live(rs, x))
      && (x in sessions && sessions[x].initializeSeen <==> Opened(rs, x))
      && (x in sessions && sessions[x].initialized <==> SessionHandshake(rs, x))
    decreases |rs|
  {
    if rs != [] {
      SessionStateIsHandshake(server, rs[..|rs|-1], x);
      LiveStep(rs, x);
      OpenedStep(rs, x);
      if SessionHandshake(rs, x) { HandshakeGoesBack(rs, x); }
      OneMoreRequest(server, SessionsAfter(server, map[], rs[..|rs|-1]), rs[|rs|-1], x);
      var after := SessionsAfter(server, map[], rs);
      if x in after && after[x].initialized { HandshakeGoesOn(rs, x); }
    }
  }

  lemma OneMoreRequest(server: Server, before: Sessions, r: HttpRequest, x: string)
    requires server.mode != Modern
    ensures var after := Serve(server, before, r).0;
      && (x in after <==> CreatesSession(r, x) || (x in before && !ResetsSession(r, x)))
      && (x in after && after[x].initializeSeen <==>
            OpensSession(r, x) || (x in before && before[x].initializeSeen && !ResetsSession(r, x)))
      && (x in after && after[x].initialized <==>
            && !ResetsSession(r, x) && x in before
            && (before[x].initialized || (before[x].initializeSeen && ConfirmsSession(r, x))))
  {
  }

  predicate PlainPing(m: Message) {
    m.isJsonRpc2 && m.verb == Some(Ping) && m.id.Some? && !m.params.NotAnObject?
  }

  /** Over any HTTP traffic, a legacy session answers anything but `initialize` with a result only after its
      handshake since it was last opened, and a `ping` exactly then. */
  lemma HttpResultsNeedHandshake(server: Server, rs: seq<HttpRequest>, r: HttpRequest)
    requires server.mode != Modern && r.Post? && r.message.verb != Some(Initialize)
    ensures var plan := Serve(server, SessionsAfter(server, map[], rs), r).1;
      && (plan.response.Some? && plan.response.value.body.Result?
        ==> r.session.Some? && SessionHandshake(rs, r.session.value))
      && (PlainPing(r.message) ==>
            (plan.response == Some(Response(r.message.id.value, Result("{}")))
             <==> r.session.Some? && SessionHandshake(rs, r.session.value)))
  {
    SessionStateIsHandshake(server, rs, if r.session.Some? then r.session.value else "");
  }
}
