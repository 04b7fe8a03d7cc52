/** Which reply every HTTP request gets, told from the requests before it. */
module HttpReplies {
  import opened Wrappers
  import opened ProtocolServer
  import opened ProtocolReplies
  import opened HttpSessions

  /** The request's message is looked at: on a modern server it is a notification or has matching headers; on a
      legacy one it is `initialize`, discovery, or names a live session. */
  ghost predicate Admitted(server: Server, rs: seq<HttpRequest>, r: HttpRequest)
    requires r.Post?
  {
    if server.mode == Modern then r.message.id.None? || r.headersValid
    else
      || r.message.verb in {Some(Initialize), Some(Discover)}
      || (r.session.Some? && Live(rs, r.session.value))
  }

  /** The connection the message is handled on is past its handshake. */
  ghost predicate Ready(rs: seq<HttpRequest>, r: HttpRequest)
    requires r.Post?
  {
    && r.message.verb !in {Some(Initialize), Some(Discover)}
    && r.session.Some? && SessionHandshake(rs, r.session.value)
  }

  /** What a request that is not admitted is told. */
  ghost predicate TurnedAway(server: Server, r: HttpRequest, id: Id, code: int, status: int)
    requires r.Post?
  {
    && (r.message.id == Some(id) || (r.message.id.None? && id == Null))
    && status == 400 && code == if server.mode == Modern then -32020 else -32600
  }

  ghost function Connection(server: Server, sessions: Sessions, r: HttpRequest): Conn
    requires r.Post?
  {
    if server.mode != Modern && r.message.verb !in {Some(Initialize), Some(Discover)}
       && r.session.Some? && r.session.value in sessions
    then sessions[r.session.value] else NEW_CONN
  }

  lemma PostIs(server: Server, rs: seq<HttpRequest>, r: HttpRequest)
    requires r.Post?
    ensures var sessions := SessionsAfter(server, map[], rs);
      var conn := Connection(server, sessions, r);
      && (Admitted(server, rs, r) ==>
            && Serve(server, sessions, r).1 == Handle(server, Parsed(r.message), conn).1
            && (server.mode != Modern ==> conn.initialized == Ready(rs, r)))
      && (!Admitted(server, rs, r) ==>
            forall id, code, status ::
              Serve(server, sessions, r).1 == Plan(Some(Response(id, Error(code))), [], status)
              <==> TurnedAway(server, r, id, code, status))
      && (!Admitted(server, rs, r) ==>
            && Serve(server, sessions, r).1.response.Some?
            && Serve(server, sessions, r).1.response.value.body.Error?)
  {
    if server.mode != Modern && r.session.Some? { SessionStateIsHandshake(server, rs, r.session.value); }
  }

  /** A request is answered with a result exactly when it is admitted and the result is due. */
  lemma HttpResultIff(
    server: Server, rs: seq<HttpRequest>, r: HttpRequest, id: Id, payload: string, notes: seq<string>)
    requires r.Post?
    ensures Serve(server, SessionsAfter(server, map[], rs), r).1
        == Plan(Some(Response(id, Result(payload))), notes, 200)
      <==> Admitted(server, rs, r) && ResultDue(server, Parsed(r.message), Ready(rs, r), id, payload, notes)
  {
    PostIs(server, rs, r);
    if Admitted(server, rs, r) {
      var conn := Connection(server, SessionsAfter(server, map[], rs), r);
      ResultIff(server, Parsed(r.message), conn, id, payload, notes);
      ShakenIsEnough(server, Parsed(r.message), conn.initialized, Ready(rs, r));
    }
  }

  /** It is answered with an error exactly when it is turned away with it, or admitted and the error is due. */
  lemma HttpErrorIff(server: Server, rs: seq<HttpRequest>, r: HttpRequest, id: Id, code: int, status: int)
    requires r.Post?
    ensures Serve(server, SessionsAfter(server, map[], rs), r).1 == Plan(Some(Response(id, Error(code))), [], status)
      <==> if Admitted(server, rs, r) then ErrorDue(server, Parsed(r.message), Ready(rs, r), id, code, status)
           else TurnedAway(server, r, id, code, status)
  {
    PostIs(server, rs, r);
    if Admitted(server, rs, r) {
      var conn := Connection(server, SessionsAfter(server, map[], rs), r);
      ErrorIff(server, Parsed(r.message), conn, id, code, status);
      ShakenIsEnough(server, Parsed(r.message), conn.initialized, Ready(rs, r));
    }
  }

  /** A request without a body in its reply: an admitted notification. */
  lemma HttpSilenceIff(server: Server, rs: seq<HttpRequest>, r: HttpRequest, status: int)
    requires r.Post?
    ensures Serve(server, SessionsAfter(server, map[], rs), r).1 == Plan(None, [], status)
      <==> Admitted(server, rs, r) && SilenceDue(Parsed(r.message), status)
  {
    PostIs(server, rs, r);
    if Admitted(server, rs, r) {
      SilenceIff(server, Parsed(r.message), Connection(server, SessionsAfter(server, map[], rs), r), status);
    }
  }

  /** Deleting is not allowed on a modern server, done for a live session, and otherwise finds nothing; it ends
      that session and leaves every other as it is. */
  lemma DeleteReply(server: Server, rs: seq<HttpRequest>, session: Option<string>)
    ensures var sessions := SessionsAfter(server, map[], rs);
      var live := server.mode != Modern && session.Some? && Live(rs, session.value);
      && Serve(server, sessions, Delete(session)).1
           == Plan(None, [], if server.mode == Modern then 405 else if live then 200 else 404)
      && forall x ::
           Lookup(Serve(server, sessions, Delete(session)).0, x)
           == if live && x == session.value then None else Lookup(sessions, x)
  {
    if server.mode != Modern && session.Some? { SessionStateIsHandshake(server, rs, session.value); }
  }
}
