/** The MCP fixture server: message handling, the legacy handshake, stdio and HTTP sessions.

The leaf handlers (`tools/list`, `tools/call`, resources, prompts, `subscriptions/listen`)
answer under the request's own id and touch no connection state; they are a parameter, `leaf`.
*/
module ProtocolServer {
  import opened Wrappers

  /** A JSON-RPC id; `Other` holds numbers and other values by their printed form. */
  datatype Id = Null | Text(text: string) | Other(printed: string)

  datatype Meta = Meta(version: Option<string>, hasCapabilities: bool)

  /** The params object, as far as the protocol layer looks into it. */
  datatype Params = Params(protocolVersion: Option<string>, meta: Option<Meta>, rest: string)

  datatype ParamsField = Absent | Object(params: Params) | NotAnObject

  /** The methods the server tells apart. */
  datatype Verb =
    | Initialize | InitializedNotification | Discover | Ping | SetLevel
    | ToolsList | ToolsCall | ResourcesList | ResourceTemplatesList | ResourcesRead | PromptsList | PromptsGet
    | SubscriptionsListen
    | OtherVerb(name: string)

  /** A JSON object; `id` is `None` when the key is absent, which makes the message a notification. */
  datatype Message = Message(isJsonRpc2: bool, verb: Option<Verb>, id: Option<Id>, params: ParamsField)

  /** A line of input. */
  datatype Input = Unparsable | NotAnObjectValue | Parsed(message: Message)

  datatype Mode = Shipping | Legacy | Modern

  datatype Profile = Default | MismatchedDiscoveryId | NullDiscoveryId | OtherProfile

  datatype Body = Result(payload: string) | Error(code: int)

  datatype Response = Response(id: Id, body: Body)

  datatype Plan = Plan(response: Option<Response>, notifications: seq<string>, status: int)

  datatype Answer = Answered(payload: string, notifications: seq<string>) | Refused(code: int, status: int)

  datatype Server = Server(mode: Mode, profile: Profile, leaf: (Verb, Params) -> Answer)

  const PARSE_ERROR := -32700
  const INVALID_REQUEST := -32600
  const METHOD_NOT_FOUND := -32601
  const INVALID_PARAMS := -32602
  const UNSUPPORTED_PROTOCOL_VERSION := -32022
  const MODERN_VERSION: string := "2026-07-28"

  const OK := 200
  const ACCEPTED := 202
  const BAD_REQUEST := 400
  const NOT_FOUND := 404

  /** The value of a connection's state. */
  datatype Conn = Conn(initializeSeen: bool, initialized: bool)

  const NEW_CONN := Conn(false, false)

  function Fail(id: Id, code: int, status: int): Plan { Plan(Some(Response(id, Error(code))), [], status) }

  function Succeed(id: Id, payload: string, notifications: seq<string>): Plan {
    Plan(Some(Response(id, Result(payload))), notifications, OK)
  }

  function Silent(status: int): Plan { Plan(None, [], status) }

  function FromLeaf(id: Id, answer: Answer): Plan {
    match answer
    case Answered(payload, notifications) => Succeed(id, payload, notifications)
    case Refused(code, status) => Fail(id, code, status)
  }

  predicate LegacyLeaf(verb: Verb) {
    || verb.ToolsList? || verb.ToolsCall? || verb.ResourcesList? || verb.ResourceTemplatesList? || verb.ResourcesRead?
    || verb.PromptsList? || verb.PromptsGet?
  }

  predicate ModernLeaf(verb: Verb) { LegacyLeaf(verb) || verb.SubscriptionsListen? }

  function Handle(server: Server, input: Input, conn: Conn): (Conn, Plan) {
    match input
    case Unparsable => (conn, Fail(Null, PARSE_ERROR, BAD_REQUEST))
    case NotAnObjectValue => (conn, Fail(Null, INVALID_REQUEST, BAD_REQUEST))
    case Parsed(m) =>
      if !m.isJsonRpc2 || m.verb.None? then
        (conn, Fail(if m.id.Some? then m.id.value else Null, INVALID_REQUEST, BAD_REQUEST))
      else if m.params.NotAnObject? then
        (conn, if m.id.None? then Silent(BAD_REQUEST) else Fail(m.id.value, INVALID_PARAMS, BAD_REQUEST))
      else
        var params := if m.params.Object? then m.params.params else Params(None, None, "{}");
        if m.id.None? then (HandleNotification(server, m.verb.value, conn), Silent(ACCEPTED))
        else if server.mode == Modern then (conn, HandleModern(server, m.id.value, m.verb.value, params))
        else HandleLegacy(server, m.id.value, m.verb.value, params, conn)
  }

  function HandleNotification(server: Server, verb: Verb, conn: Conn): Conn {
    if server.mode != Modern && verb == InitializedNotification
      && conn.initializeSeen then conn.(initialized := true) else conn
  }

  function HandleModern(server: Server, id: Id, verb: Verb, params: Params): Plan {
    if verb == Initialize then Fail(id, METHOD_NOT_FOUND, NOT_FOUND)
    else if params.meta.None? then Fail(id, INVALID_PARAMS, BAD_REQUEST)
    else if params.meta.value.version.None? || !params.meta.value.hasCapabilities
      then Fail(id, INVALID_PARAMS, BAD_REQUEST)
    else if params.meta.value.version.value != MODERN_VERSION then Fail(id, UNSUPPORTED_PROTOCOL_VERSION, BAD_REQUEST)
    else if verb == Discover then Succeed(DiscoveryId(server.profile, id), "server/discover", [])
    else if ModernLeaf(verb) then FromLeaf(id, server.leaf(verb, params))
    else Fail(id, METHOD_NOT_FOUND, NOT_FOUND)
  }

  /** Two fixture profiles deliberately answer discovery under a wrong id. */
  function DiscoveryId(profile: Profile, id: Id): Id {
    match profile
    case MismatchedDiscoveryId => Text("review-mismatched-"
      + (match id case Null => "None" case Text(t) => t case Other(p) => p))
    case NullDiscoveryId => Null
    case _ => id
  }

  function HandleLegacy(server: Server, id: Id, verb: Verb, params: Params, conn: Conn): (Conn, Plan) {
    if verb == Initialize then
      if params.protocolVersion.None? then (conn, Fail(id, INVALID_PARAMS, OK))
      else (conn.(initializeSeen := true), Succeed(id, "initialize", []))
    else if verb == Discover then (conn, Fail(id, METHOD_NOT_FOUND, NOT_FOUND))
    else if !conn.initialized then (conn, Fail(id, INVALID_REQUEST, OK))
    else if verb.Ping? || verb.SetLevel? then (conn, Succeed(id, "{}", []))
    else if LegacyLeaf(verb) then (conn, FromLeaf(id, server.leaf(verb, params)))
    else (conn, Fail(id, METHOD_NOT_FOUND, NOT_FOUND))
  }

  // ----- Connection objects

  class ConnectionState {
    var initializeSeen: bool
    var initialized: bool

    ghost function Value(): Conn
      reads this
    {
      Conn(initializeSeen, initialized)
    }

    constructor ()
      ensures Value() == NEW_CONN
    {
      initializeSeen, initialized := false, false;
    }
  }

  method HandleMessage(server: Server, input: Input, state: ConnectionState) returns (plan: Plan)
    modifies state
    ensures (state.Value(), plan) == Handle(server, input, old(state.Value()))
  {
    match input
    case Unparsable => return Fail(Null, PARSE_ERROR, BAD_REQUEST);
    case NotAnObjectValue => return Fail(Null, INVALID_REQUEST, BAD_REQUEST);
    case Parsed(m) =>
      if !m.isJsonRpc2 || m.verb.None? {
        return Fail(if m.id.Some? then m.id.value else Null, INVALID_REQUEST, BAD_REQUEST);
      }
      if m.params.NotAnObject? {
        return if m.id.None? then Silent(BAD_REQUEST) else Fail(m.id.value, INVALID_PARAMS, BAD_REQUEST);
      }
      var verb, params := m.verb.value, if m.params.Object? then m.params.params else Params(None, None, "{}");
      if m.id.None? {
        if server.mode != Modern && verb == InitializedNotification && state.initializeSeen {
          state.initialized := true;
        }
        return Silent(ACCEPTED);
      }
      if server.mode == Modern {
        return HandleModern(server, m.id.value, verb, params);
      }
      if verb == Initialize && params.protocolVersion.Some? {
        state.initializeSeen := true;
        return Succeed(m.id.value, "initialize", []);
      }
      return HandleLegacy(server, m.id.value, verb, params, Conn(state.initializeSeen, state.initialized)).1;
  }

  // ----- Stdio

  datatype Line = Note(text: string) | Reply(response: Response)

  function NoteLines(notifications: seq<string>): (r: seq<Line>)
    ensures |r| == |notifications| && forall i :: 0 <= i < |r| ==> r[i] == Note(notifications[i])
  {
    seq(|notifications|, i requires 0 <= i < |notifications| => Note(notifications[i]))
  }

  /** Notifications are written before the response they belong to. */
  function PlanLines(plan: Plan): seq<Line> {
    NoteLines(plan.notifications) + if plan.response.Some? then [Reply(plan.response.value)] else []
  }

  function ConnAfter(server: Server, inputs: seq<Input>, n: nat): Conn
    requires n <= |inputs|
  {
    if n == 0 then NEW_CONN else Handle(server, inputs[n-1], ConnAfter(server, inputs, n - 1)).0
  }

  function PlanAt(server: Server, inputs: seq<Input>, k: nat): Plan
    requires k < |inputs|
  {
    Handle(server, inputs[k], ConnAfter(server, inputs, k)).1
  }

  /** What each input line makes the server write. */
  function Blocks(server: Server, inputs: seq<Input>): (r: seq<seq<Line>>)
    ensures |r| == |inputs| && forall k :: 0 <= k < |inputs| ==> r[k] == PlanLines(PlanAt(server, inputs, k))
  {
    seq(|inputs|, k requires 0 <= k < |inputs| => PlanLines(PlanAt(server, inputs, k)))
  }

  function Concat(blocks: seq<seq<Line>>, n: nat): seq<Line>
    requires n <= |blocks|
  {
    if n == 0 then [] else Concat(blocks, n - 1) + blocks[n-1]
  }

  function Output(server: Server, inputs: seq<Input>): seq<Line> {
    Concat(Blocks(server, inputs), |inputs|)
  }

  /** Notifications first, then the response if there is one. */
  method WritePlan(plan: Plan, before: seq<Line>) returns (out: seq<Line>)
    ensures out == before + PlanLines(plan)
  {
    out := before;
    for j := 0 to |plan.notifications|
      invariant out == before + NoteLines(plan.notifications)[..j]
    {
      out := out + [Note(plan.notifications[j])];
    }
    if plan.response.Some? {
      out := out + [Reply(plan.response.value)];
    }
  }

  method RunStdio(server: Server, inputs: seq<Input>) returns (out: seq<Line>)
    ensures out == Output(server, inputs)
  {
    out := [];
    ghost var blocks := Blocks(server, inputs);
    var state := new ConnectionState();
    for i := 0 to |inputs|
      invariant fresh(state) && state.Value() == ConnAfter(server, inputs, i)
      invariant out == Concat(blocks, i)
    {
      assert blocks[i] == PlanLines(PlanAt(server, inputs, i));
      if inputs[i].Unparsable? {
        out := out + [Reply(Response(Null, Error(PARSE_ERROR)))];
        continue;
      }
      var plan := HandleMessage(server, inputs[i], state);
      out := WritePlan(plan, out);
    }
  }

  // ----- The handshake

  predicate AcceptedInitialize(input: Input) {
    && input.Parsed? && input.message.isJsonRpc2 && input.message.verb == Some(Initialize) && input.message.id.Some?
    && input.message.params.Object? && input.message.params.params.protocolVersion.Some?
  }

  predicate InitializedNotice(input: Input) {
    && input.Parsed? && input.message.isJsonRpc2 && input.message.verb == Some(InitializedNotification)
      && input.message.id.None?
    && !input.message.params.NotAnObject?
  }

  ghost predicate SawInitialize(inputs: seq<Input>, n: nat)
    requires n <= |inputs|
  {
    exists i :: 0 <= i < n && AcceptedInitialize(inputs[i])
  }

  /** An accepted `initialize` with a later `notifications/initialized`, among the first `n` messages. */
  ghost predicate Handshake(inputs: seq<Input>, n: nat)
    requires n <= |inputs|
  {
    exists i, j :: 0 <= i < j < n && AcceptedInitialize(inputs[i]) && InitializedNotice(inputs[j])
  }

  lemma {:induction false} StateIsHandshake(server: Server, inputs: seq<Input>, n: nat)
    requires server.mode != Modern && n <= |inputs|
    ensures ConnAfter(server, inputs, n).initializeSeen <==> SawInitialize(inputs, n)
    ensures ConnAfter(server, inputs, n).initialized <==> Handshake(inputs, n)
  {
    if n > 0 {
      StateIsHandshake(server, inputs, n - 1);
      var before, after, input := ConnAfter(server, inputs, n - 1), ConnAfter(server, inputs, n), inputs[n-1];
      assert after.initializeSeen <==> before.initializeSeen || AcceptedInitialize(input);
      assert after.initialized <==> before.initialized || (before.initializeSeen && InitializedNotice(input));
      assert SawInitialize(inputs, n) <==> SawInitialize(inputs, n - 1) || AcceptedInitialize(input);
      assert Handshake(inputs, n) <==>
        Handshake(inputs, n - 1) || (SawInitialize(inputs, n - 1) && InitializedNotice(input));
    }
  }

  /** A legacy connection answers anything but `initialize` with a result only after the handshake,
      and after the handshake a `ping` always gets one. */
  lemma ResultsNeedHandshake(server: Server, inputs: seq<Input>, k: nat)
    requires server.mode != Modern && k < |inputs| && inputs[k].Parsed?
    ensures var plan := PlanAt(server, inputs, k);
      plan.response.Some? && plan.response.value.body.Result? && inputs[k].message.verb != Some(Initialize) ==>
        Handshake(inputs, k)
    ensures var m := inputs[k].message;
      m.isJsonRpc2 && m.verb == Some(Ping) && m.id.Some? && !m.params.NotAnObject? ==>
        (PlanAt(server, inputs, k).response == Some(Response(m.id.value, Result("{}"))) <==> Handshake(inputs, k))
  {
    StateIsHandshake(server, inputs, k);
  }

  // ----- One response per request

  function ReplyIds(lines: seq<Line>): seq<Id> {
    if lines == [] then []
    else if lines[0].Reply? then [lines[0].response.id] + ReplyIds(lines[1..])
    else ReplyIds(lines[1..])
  }

  predicate WellFormed(input: Input) {
    input.Parsed? && input.message.isJsonRpc2 && input.message.verb.Some?
  }

  /** The id a line of input must be answered under; `None` when it must not be answered. */
  function OwnId(input: Input): Option<Id> {
    if WellFormed(input) then input.message.id
    else if input.Parsed? && input.message.id.Some? then input.message.id
    else Some(Null)
  }

  /** A discovery request that a modern server accepts. */
  predicate Discovers(server: Server, input: Input) {
    && server.mode == Modern && WellFormed(input) && input.message.verb == Some(Discover) && input.message.id.Some?
    && input.message.params.Object? && input.message.params.params.meta == Some(Meta(Some(MODERN_VERSION), true))
  }

  predicate AnsweredUnderWrongId(server: Server, input: Input) {
    && Discovers(server, input)
    && (server.profile == MismatchedDiscoveryId
      || (server.profile == NullDiscoveryId && input.message.id != Some(Null)))
  }

  function IdOf(plan: Plan): Option<Id> {
    if plan.response.Some? then Some(plan.response.value.id) else None
  }

  /** Each message is answered under its own id, or not at all if it is a notification,
      exactly when it is not a discovery request in one of the two deliberately wrong profiles. */
  lemma AnsweredUnderOwnIdIff(server: Server, input: Input, conn: Conn)
    ensures IdOf(Handle(server, input, conn).1) == OwnId(input) <==> !AnsweredUnderWrongId(server, input)
  {
    if Discovers(server, input) {
      var id := input.message.id.value;
      assert id.Text? ==> |"review-mismatched-" + id.text| > |id.text|;
    }
  }

  /** One discovery request of each deliberately wrong profile. */
  lemma WrongProfilesAnswerUnderOtherIds(leaf: (Verb, Params) -> Answer, conn: Conn)
    ensures var request := Parsed(Message(true, Some(Discover), Some(Text("1")),
      Object(Params(None, Some(Meta(Some(MODERN_VERSION), true)), ""))));
      && IdOf(Handle(Server(Modern, MismatchedDiscoveryId, leaf), request, conn).1) == Some(Text("review-mismatched-1"))
      && IdOf(Handle(Server(Modern, NullDiscoveryId, leaf), request, conn).1) == Some(Null)
  {
    assert "review-mismatched-" + "1" == "review-mismatched-1";
  }

  function AsList(id: Option<Id>): seq<Id> {
    match id case Some(id) => [id] case None => []
  }

  function Join(ids: seq<seq<Id>>, n: nat): seq<Id>
    requires n <= |ids|
  {
    if n == 0 then [] else Join(ids, n - 1) + ids[n-1]
  }

  /** Per input line, the ids it must be answered under: one or none. */
  function OwnIds(inputs: seq<Input>): (r: seq<seq<Id>>)
    ensures |r| == |inputs| && forall k :: 0 <= k < |inputs| ==> r[k] == AsList(OwnId(inputs[k]))
  {
    seq(|inputs|, k requires 0 <= k < |inputs| => AsList(OwnId(inputs[k])))
  }

  lemma {:induction false} ReplyIdsAppend(a: seq<Line>, b: seq<Line>)
    ensures ReplyIds(a + b) == ReplyIds(a) + ReplyIds(b)
  {
    if a == [] { assert a + b == b; } else {
      assert (a + b)[1..] == a[1..] + b;
      ReplyIdsAppend(a[1..], b);
    }
  }

  lemma {:induction false} NotesHaveNoReplies(lines: seq<Line>)
    requires forall i :: 0 <= i < |lines| ==> lines[i].Note?
    ensures ReplyIds(lines) == []
  {
    if lines != [] { NotesHaveNoReplies(lines[1..]); }
  }

  lemma PlanReplyIds(plan: Plan)
    ensures ReplyIds(PlanLines(plan)) == AsList(IdOf(plan))
  {
    var tail := if plan.response.Some? then [Reply(plan.response.value)] else [];
    ReplyIdsAppend(NoteLines(plan.notifications), tail);
    NotesHaveNoReplies(NoteLines(plan.notifications));
  }

  lemma ReplyStep(server: Server, input: Input, conn: Conn)
    ensures var ids := ReplyIds(PlanLines(Handle(server, input, conn).1));
      && |ids| == |AsList(OwnId(input))|
      && (ids == AsList(OwnId(input)) <==> !AnsweredUnderWrongId(server, input))
  {
    AnsweredUnderOwnIdIff(server, input, conn);
    PlanReplyIds(Handle(server, input, conn).1);
  }

  lemma SameBlocks(a: seq<Id>, b: seq<Id>, a': seq<Id>, b': seq<Id>)
    requires |a| == |a'|
    ensures a + b == a' + b' <==> a == a' && b == b'
  {
    if a + b == a' + b' {
      assert a == (a + b)[..|a|] && b == (a + b)[|a|..];
      assert a' == (a' + b')[..|a|] && b' == (a' + b')[|a|..];
    }
  }

  function BlockIds(blocks: seq<seq<Line>>): (r: seq<seq<Id>>)
    ensures |r| == |blocks| && forall k :: 0 <= k < |blocks| ==> r[k] == ReplyIds(blocks[k])
  {
    seq(|blocks|, k requires 0 <= k < |blocks| => ReplyIds(blocks[k]))
  }

  lemma {:induction false} RepliesOfBlocks(blocks: seq<seq<Line>>, n: nat)
    requires n <= |blocks|
    ensures ReplyIds(Concat(blocks, n)) == Join(BlockIds(blocks), n)
  {
    if n > 0 {
      RepliesOfBlocks(blocks, n - 1);
      ReplyIdsAppend(Concat(blocks, n - 1), blocks[n-1]);
    }
  }

  /** Lists of blocks that agree in block lengths agree when joined exactly when they agree block by block. */
  lemma {:induction false} JoinIff(a: seq<seq<Id>>, b: seq<seq<Id>>, n: nat)
    requires n <= |a| == |b| && forall k :: 0 <= k < n ==> |a[k]| == |b[k]|
    ensures |Join(a, n)| == |Join(b, n)|
    ensures Join(a, n) == Join(b, n) <==> a[..n] == b[..n]
  {
    if n > 0 {
      JoinIff(a, b, n - 1);
      SameBlocks(Join(a, n - 1), a[n-1], Join(b, n - 1), b[n-1]);
      assert a[..n] == a[..n-1] + [a[n-1]] && b[..n] == b[..n-1] + [b[n-1]];
    }
  }

  /** On stdio the responses are, in request order, one per request under its own id and none per
      notification, exactly when no discovery request meets a deliberately wrong profile. */
  lemma RepliesFollowRequestsIff(server: Server, inputs: seq<Input>)
    ensures ReplyIds(Output(server, inputs)) == Join(OwnIds(inputs), |inputs|)
       <==> forall k :: 0 <= k < |inputs| ==> !AnsweredUnderWrongId(server, inputs[k])
  {
    var blocks, own := Blocks(server, inputs), OwnIds(inputs);
    var got := BlockIds(blocks);
    forall k | 0 <= k < |inputs|
      ensures |got[k]| == |own[k]|
      ensures got[k] == own[k] <==> !AnsweredUnderWrongId(server, inputs[k])
    {
      ReplyStep(server, inputs[k], ConnAfter(server, inputs, k));
    }
    RepliesOfBlocks(blocks, |inputs|);
    JoinIff(got, own, |inputs|);
    assert got[..|inputs|] == got && own[..|inputs|] == own;
  }
}
