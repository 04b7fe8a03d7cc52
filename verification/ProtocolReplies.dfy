/** Which reply every line of input gets, told from the lines before it. */
module ProtocolReplies {
  import opened Wrappers
  import opened ProtocolServer

  /** A request with usable params. */
  predicate Asks(input: Input, verb: Verb, id: Id, params: Params) {
    && input.Parsed? && input.message.isJsonRpc2 && input.message.verb == Some(verb) && input.message.id == Some(id)
    && (input.message.params == Object(params)
        || (input.message.params.Absent? && params == Params(None, None, "{}")))
  }

  predicate AsksSomething(input: Input) {
    && WellFormed(input) && input.message.id.Some? && !input.message.params.NotAnObject?
  }

  // ----- Results

  /** A legacy connection answers `initialize` with a version; after the handshake also `ping`, `logging/setLevel`
      and what its handlers answer. */
  ghost predicate LegacyAnswers(
    server: Server, verb: Verb, params: Params, shaken: bool, payload: string, notes: seq<string>)
  {
    || (verb == Initialize && params.protocolVersion.Some? && payload == "initialize" && notes == [])
    || (shaken && verb in {Ping, SetLevel} && payload == "{}" && notes == [])
    || (shaken && server.leaf(verb, params) == Answered(payload, notes)
        && verb in {ToolsList, ToolsCall, ResourcesList, ResourceTemplatesList, ResourcesRead, PromptsList, PromptsGet})
  }

  /** A modern server answers, under the modern version with capabilities, discovery and what its handlers answer. */
  ghost predicate ModernAnswers(server: Server, verb: Verb, params: Params, payload: string, notes: seq<string>) {
    && params.meta == Some(Meta(Some("2026-07-28"), true))
    && (|| (verb == Discover && payload == "server/discover" && notes == [])
        || (server.leaf(verb, params) == Answered(payload, notes)
            && verb in {ToolsList, ToolsCall, ResourcesList, ResourceTemplatesList, ResourcesRead, PromptsList,
                        PromptsGet, SubscriptionsListen}))
  }

  /** The id of a result is the request's own, except for discovery in two fixture profiles. */
  ghost predicate Under(server: Server, verb: Verb, own: Id, id: Id) {
    if server.mode == Modern && verb == Discover && server.profile == NullDiscoveryId then id == Null
    else if server.mode == Modern && verb == Discover && server.profile == MismatchedDiscoveryId then
      match own
      case Null => id == Text("review-mismatched-None")
      case Text(t) => id == Text("review-mismatched-" + t)
      case Other(printed) => id == Text("review-mismatched-" + printed)
    else id == own
  }

  ghost predicate Answers(
    server: Server, verb: Verb, params: Params, own: Id, shaken: bool, id: Id, payload: string, notes: seq<string>)
  {
    && Under(server, verb, own, id)
    && if server.mode == Modern then ModernAnswers(server, verb, params, payload, notes)
       else LegacyAnswers(server, verb, params, shaken, payload, notes)
  }

  /** What a request is answered. */
  function PlanFor(server: Server, verb: Verb, params: Params, own: Id, conn: Conn): Plan {
    if server.mode == Modern then HandleModern(server, own, verb, params)
    else HandleLegacy(server, own, verb, params, conn).1
  }

  lemma UnderIff(server: Server, verb: Verb, own: Id, id: Id)
    ensures Under(server, verb, own, id) <==>
      id == if server.mode == Modern && verb == Discover then DiscoveryId(server.profile, own) else own
  {
    assert "review-mismatched-" + "None" == "review-mismatched-None";
  }

  lemma LegacyResultIff(
    server: Server, verb: Verb, params: Params, own: Id, conn: Conn, id: Id, payload: string, notes: seq<string>)
    requires server.mode != Modern
    ensures PlanFor(server, verb, params, own, conn) == Plan(Some(Response(id, Result(payload))), notes, 200)
       <==> id == own && LegacyAnswers(server, verb, params, conn.initialized, payload, notes)
  {
  }

  lemma ModernResultIff(
    server: Server, verb: Verb, params: Params, own: Id, conn: Conn, id: Id, payload: string, notes: seq<string>)
    requires server.mode == Modern
    ensures PlanFor(server, verb, params, own, conn) == Plan(Some(Response(id, Result(payload))), notes, 200)
       <==> id == (if verb == Discover then DiscoveryId(server.profile, own) else own)
              && ModernAnswers(server, verb, params, payload, notes)
  {
  }

  lemma RequestResultIff(
    server: Server, verb: Verb, params: Params, own: Id, conn: Conn, id: Id, payload: string, notes: seq<string>)
    ensures PlanFor(server, verb, params, own, conn) == Plan(Some(Response(id, Result(payload))), notes, 200)
       <==> Answers(server, verb, params, own, conn.initialized, id, payload, notes)
  {
    UnderIff(server, verb, own, id);
    if server.mode == Modern {
      ModernResultIff(server, verb, params, own, conn, id, payload, notes);
    } else {
      LegacyResultIff(server, verb, params, own, conn, id, payload, notes);
    }
  }

  // ----- Errors

  /** The first condition of a legacy connection that the request fails. */
  ghost predicate LegacyRefuses(server: Server, verb: Verb, params: Params, shaken: bool, code: int, status: int) {
    || (verb == Initialize && params.protocolVersion.None? && code == -32602 && status == 200)
    || (verb == Discover && code == -32601 && status == 404)
    || (verb !in {Initialize, Discover} && !shaken && code == -32600 && status == 200)
    || (shaken && server.leaf(verb, params) == Refused(code, status)
        && verb in {ToolsList, ToolsCall, ResourcesList, ResourceTemplatesList, ResourcesRead, PromptsList, PromptsGet})
    || (shaken && (verb in {InitializedNotification, SubscriptionsListen} || verb.OtherVerb?)
        && code == -32601 && status == 404)
  }

  /** The first condition of a modern server that the request fails. */
  ghost predicate ModernRefuses(server: Server, verb: Verb, params: Params, code: int, status: int) {
    var complete := params.meta.Some? && params.meta.value.version.Some? && params.meta.value.hasCapabilities;
    var modern := complete && params.meta.value.version.value == "2026-07-28";
    || (verb == Initialize && code == -32601 && status == 404)
    || (verb != Initialize && !complete && code == -32602 && status == 400)
    || (verb != Initialize && complete && !modern && code == -32022 && status == 400)
    || (modern && server.leaf(verb, params) == Refused(code, status)
        && verb in {ToolsList, ToolsCall, ResourcesList, ResourceTemplatesList, ResourcesRead, PromptsList,
                    PromptsGet, SubscriptionsListen})
    || (modern && (verb in {InitializedNotification, Ping, SetLevel} || verb.OtherVerb?)
        && code == -32601 && status == 404)
  }

  ghost predicate Refuses(server: Server, verb: Verb, params: Params, shaken: bool, code: int, status: int) {
    if server.mode == Modern then ModernRefuses(server, verb, params, code, status)
    else LegacyRefuses(server, verb, params, shaken, code, status)
  }

  lemma RequestRefusedIff(
    server: Server, verb: Verb, params: Params, own: Id, conn: Conn, code: int, status: int)
    ensures PlanFor(server, verb, params, own, conn) == Plan(Some(Response(own, Error(code))), [], status)
       <==> Refuses(server, verb, params, conn.initialized, code, status)
  {
  }

  /** What is not a request: it is not JSON, not an object, not JSON-RPC 2.0, without a method or usable params. */
  ghost predicate Malformed(input: Input, id: Id, code: int, status: int) {
    || (input == Unparsable && id == Null && code == -32700 && status == 400)
    || (input == NotAnObjectValue && id == Null && code == -32600 && status == 400)
    || (input.Parsed? && (!input.message.isJsonRpc2 || input.message.verb.None?) && code == -32600 && status == 400
        && (input.message.id == Some(id) || (input.message.id.None? && id == Null)))
    || (WellFormed(input) && input.message.params.NotAnObject? && input.message.id == Some(id)
        && code == -32602 && status == 400)
  }

  // ----- Every line of input

  /** The answer to a line is this result; `shaken` says whether a legacy connection is past its handshake. */
  ghost predicate ResultDue(server: Server, input: Input, shaken: bool, id: Id, payload: string, notes: seq<string>) {
    exists verb, own, params ::
      Asks(input, verb, own, params) && Answers(server, verb, params, own, shaken, id, payload, notes)
  }

  ghost predicate ErrorDue(server: Server, input: Input, shaken: bool, id: Id, code: int, status: int) {
    || Malformed(input, id, code, status)
    || exists verb, params :: Asks(input, verb, id, params) && Refuses(server, verb, params, shaken, code, status)
  }

  /** Notifications are not answered, whether taken in or not. */
  ghost predicate SilenceDue(input: Input, status: int) {
    && WellFormed(input) && input.message.id.None?
    && status == if input.message.params.NotAnObject? then 400 else 202
  }

  lemma AsksOnce(input: Input)
    requires AsksSomething(input)
    ensures var m := input.message;
      var params := if m.params.Object? then m.params.params else Params(None, None, "{}");
      && Asks(input, m.verb.value, m.id.value, params)
      && forall verb, own, p ::
           Asks(input, verb, own, p) ==> verb == m.verb.value && own == m.id.value && p == params
  {
  }

  lemma HandleRequest(server: Server, input: Input, conn: Conn, verb: Verb, own: Id, params: Params)
    requires Asks(input, verb, own, params)
    ensures Handle(server, input, conn).1 == PlanFor(server, verb, params, own, conn)
  {
  }

  /** A line is answered with a result and notifications exactly when they are due. */
  lemma ResultIff(server: Server, input: Input, conn: Conn, id: Id, payload: string, notes: seq<string>)
    ensures Handle(server, input, conn).1 == Plan(Some(Response(id, Result(payload))), notes, 200)
       <==> ResultDue(server, input, conn.initialized, id, payload, notes)
  {
    if AsksSomething(input) {
      var m := input.message;
      var params := if m.params.Object? then m.params.params else Params(None, None, "{}");
      AsksOnce(input);
      HandleRequest(server, input, conn, m.verb.value, m.id.value, params);
      RequestResultIff(server, m.verb.value, params, m.id.value, conn, id, payload, notes);
    }
  }

  predicate ErrorsUnder(plan: Plan, own: Id) {
    && plan.response.Some?
    && (plan.response.value.body.Error? ==> plan.response.value.id == own && plan.notifications == [])
  }

  lemma ModernErrorId(server: Server, verb: Verb, params: Params, own: Id)
    ensures ErrorsUnder(HandleModern(server, own, verb, params), own)
  {
  }

  lemma LegacyErrorId(server: Server, verb: Verb, params: Params, own: Id, conn: Conn)
    ensures ErrorsUnder(HandleLegacy(server, own, verb, params, conn).1, own)
  {
  }

  lemma ErrorId(server: Server, verb: Verb, params: Params, own: Id, conn: Conn)
    ensures ErrorsUnder(PlanFor(server, verb, params, own, conn), own)
  {
    ModernErrorId(server, verb, params, own);
    LegacyErrorId(server, verb, params, own, conn);
  }

  /** A line is answered with an error exactly when it is due. */
  lemma ErrorIff(server: Server, input: Input, conn: Conn, id: Id, code: int, status: int)
    ensures Handle(server, input, conn).1 == Plan(Some(Response(id, Error(code))), [], status)
       <==> ErrorDue(server, input, conn.initialized, id, code, status)
  {
    if AsksSomething(input) {
      var m := input.message;
      var params := if m.params.Object? then m.params.params else Params(None, None, "{}");
      AsksOnce(input);
      HandleRequest(server, input, conn, m.verb.value, m.id.value, params);
      RequestRefusedIff(server, m.verb.value, params, m.id.value, conn, code, status);
      ErrorId(server, m.verb.value, params, m.id.value, conn);
    }
  }

  /** A line is not answered exactly when it is a notification. */
  lemma SilenceIff(server: Server, input: Input, conn: Conn, status: int)
    ensures Handle(server, input, conn).1 == Plan(None, [], status) <==> SilenceDue(input, status)
  {
    if AsksSomething(input) {
      var m := input.message;
      var params := if m.params.Object? then m.params.params else Params(None, None, "{}");
      HandleRequest(server, input, conn, m.verb.value, m.id.value, params);
      ErrorId(server, m.verb.value, params, m.id.value, conn);
    }
  }

  /** The handshake only matters to a legacy server. */
  lemma ShakenIsEnough(server: Server, input: Input, shaken: bool, other: bool)
    requires server.mode != Modern ==> shaken == other
    ensures forall id, payload, notes ::
      ResultDue(server, input, shaken, id, payload, notes) == ResultDue(server, input, other, id, payload, notes)
    ensures forall id, code, status ::
      ErrorDue(server, input, shaken, id, code, status) == ErrorDue(server, input, other, id, code, status)
  {
  }

  lemma ShakenAt(server: Server, inputs: seq<Input>, k: nat)
    requires k < |inputs| && server.mode != Modern
    ensures ConnAfter(server, inputs, k).initialized <==> Handshake(inputs, k)
  {
    StateIsHandshake(server, inputs, k);
  }

  // ----- What is written

  lemma {:induction false} ConnOfPrefix(server: Server, inputs: seq<Input>, n: nat, k: nat)
    requires k <= n <= |inputs|
    ensures ConnAfter(server, inputs[..n], k) == ConnAfter(server, inputs, k)
    decreases k
  {
    if k > 0 { ConnOfPrefix(server, inputs, n, k - 1); }
  }

  lemma {:induction false} ConcatOfPrefix(blocks: seq<seq<Line>>, n: nat, k: nat)
    requires k <= n <= |blocks|
    ensures Concat(blocks[..n], k) == Concat(blocks, k)
    decreases k
  {
    if k > 0 { ConcatOfPrefix(blocks, n, k - 1); }
  }

  lemma {:induction false} ConcatGrows(blocks: seq<seq<Line>>, k: nat, n: nat)
    requires k <= n <= |blocks|
    ensures Concat(blocks, k) <= Concat(blocks, n)
    decreases n
  {
    if k < n { ConcatGrows(blocks, k, n - 1); }
  }

  lemma OutputOfPrefix(server: Server, inputs: seq<Input>, k: nat)
    requires k <= |inputs|
    ensures Output(server, inputs[..k]) == Concat(Blocks(server, inputs), k)
  {
    var blocks, some := Blocks(server, inputs), Blocks(server, inputs[..k]);
    forall i | 0 <= i < k ensures some[i] == blocks[i] { ConnOfPrefix(server, inputs, k, i); }
    assert some == blocks[..k];
    ConcatOfPrefix(blocks, k, k);
  }

  /** The server writes what the first `k` lines are due before it writes what the next is due. */
  lemma OutputGrows(server: Server, inputs: seq<Input>, k: nat)
    requires k < |inputs|
    ensures Output(server, inputs[..k+1]) == Output(server, inputs[..k]) + PlanLines(PlanAt(server, inputs, k))
    ensures Output(server, inputs[..k+1]) <= Output(server, inputs)
  {
    OutputOfPrefix(server, inputs, k);
    OutputOfPrefix(server, inputs, k + 1);
    OutputOfPrefix(server, inputs, |inputs|);
    assert inputs[..|inputs|] == inputs;
    ConcatGrows(Blocks(server, inputs), k + 1, |inputs|);
  }

  lemma NotesDiffer(a: seq<string>, b: seq<string>)
    requires NoteLines(a) == NoteLines(b)
    ensures a == b
  {
    assert |a| == |NoteLines(a)| == |b|;
    forall i | 0 <= i < |a| ensures a[i] == b[i] { assert NoteLines(a)[i] == NoteLines(b)[i]; }
  }

  lemma LinesOfPlan(plan: Plan, notes: seq<string>, response: Response)
    ensures PlanLines(plan) == NoteLines(notes) + [Reply(response)]
       <==> plan.response == Some(response) && plan.notifications == notes
  {
    var lines, other := PlanLines(plan), NoteLines(notes) + [Reply(response)];
    assert plan.response.None? ==> lines == NoteLines(plan.notifications);
    if lines == other {
      var n := |NoteLines(notes)|;
      assert other[n] == Reply(response);
      assert lines[..n] == NoteLines(plan.notifications) && other[..n] == NoteLines(notes);
      NotesDiffer(plan.notifications, notes);
    }
  }

  lemma PlanShape(server: Server, inputs: seq<Input>, k: nat)
    requires k < |inputs|
    ensures var plan := PlanAt(server, inputs, k);
      if plan.response.None? then plan.notifications == []
      else if plan.response.value.body.Result? then plan.status == 200
      else plan.notifications == []
  {
  }

  lemma SameStart(a: seq<Line>, b: seq<Line>, c: seq<Line>)
    ensures a + b == a + c <==> b == c
  {
    if a + b == a + c { assert b == (a + b)[|a|..] && c == (a + c)[|a|..]; }
  }

  lemma WrittenIff(server: Server, inputs: seq<Input>, k: nat, notes: seq<string>, response: Response)
    requires k < |inputs|
    ensures var plan := PlanAt(server, inputs, k);
      Output(server, inputs[..k+1]) == Output(server, inputs[..k]) + (NoteLines(notes) + [Reply(response)])
      <==> plan == Plan(Some(response), notes, plan.status)
  {
    var plan := PlanAt(server, inputs, k);
    OutputGrows(server, inputs, k);
    SameStart(Output(server, inputs[..k]), PlanLines(plan), NoteLines(notes) + [Reply(response)]);
    LinesOfPlan(plan, notes, response);
  }

  /** On stdio the next line makes the server write a result after its notifications exactly when it is due. */
  lemma ResultWrittenIff(server: Server, inputs: seq<Input>, k: nat, id: Id, payload: string, notes: seq<string>)
    requires k < |inputs|
    ensures Output(server, inputs[..k+1])
        == Output(server, inputs[..k]) + (NoteLines(notes) + [Reply(Response(id, Result(payload)))])
      <==> ResultDue(server, inputs[k], Handshake(inputs, k), id, payload, notes)
  {
    var conn := ConnAfter(server, inputs, k);
    WrittenIff(server, inputs, k, notes, Response(id, Result(payload)));
    ResultIff(server, inputs[k], conn, id, payload, notes);
    if server.mode != Modern { ShakenAt(server, inputs, k); }
    ShakenIsEnough(server, inputs[k], conn.initialized, Handshake(inputs, k));
    PlanShape(server, inputs, k);
  }

  /** It makes the server write an error and nothing else exactly when the error is due. */
  lemma ErrorWrittenIff(server: Server, inputs: seq<Input>, k: nat, id: Id, code: int)
    requires k < |inputs|
    ensures Output(server, inputs[..k+1]) == Output(server, inputs[..k]) + [Reply(Response(id, Error(code)))]
       <==> exists status :: ErrorDue(server, inputs[k], Handshake(inputs, k), id, code, status)
  {
    var plan, conn := PlanAt(server, inputs, k), ConnAfter(server, inputs, k);
    assert NoteLines([]) + [Reply(Response(id, Error(code)))] == [Reply(Response(id, Error(code)))];
    WrittenIff(server, inputs, k, [], Response(id, Error(code)));
    if server.mode != Modern { ShakenAt(server, inputs, k); }
    ShakenIsEnough(server, inputs[k], conn.initialized, Handshake(inputs, k));
    forall status ensures plan == Plan(Some(Response(id, Error(code))), [], status)
      <==> ErrorDue(server, inputs[k], Handshake(inputs, k), id, code, status) {
      ErrorIff(server, inputs[k], conn, id, code, status);
    }
  }

  /** It makes the server write nothing exactly when it is a notification. */
  lemma NothingWrittenIff(server: Server, inputs: seq<Input>, k: nat)
    requires k < |inputs|
    ensures Output(server, inputs[..k+1]) == Output(server, inputs[..k])
       <==> WellFormed(inputs[k]) && inputs[k].message.id.None?
  {
    var plan := PlanAt(server, inputs, k);
    OutputGrows(server, inputs, k);
    SilenceIff(server, inputs[k], ConnAfter(server, inputs, k), plan.status);
    PlanShape(server, inputs, k);
    assert |PlanLines(plan)| == |plan.notifications| + if plan.response.Some? then 1 else 0;
  }
}
