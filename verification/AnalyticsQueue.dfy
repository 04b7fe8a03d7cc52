/** The analytics queue: fact senders, flushers and one worker around a bounded channel.

The reducer is a parameter. A flush waits for a slot in the channel (`Reserve`), puts its message
into it (`Push`), or gives up (`Cancel`); a fact is offered once and dropped if there is no free slot.
The worker stops for good when its task is dropped (`Abort`).
*/
module AnalyticsQueue {
  const QUEUE_SIZE := 256

  type Fact = nat
  type Event = nat
  type FlushId = nat

  datatype Message = FactMessage(fact: Fact) | FlushMessage(id: FlushId)

  datatype Reducer<!R> = Reducer(
    initial: R,
    ingest: (R, Fact) -> (R, seq<Event>),
    flush: R -> (R, seq<Event>))

  /** Between two receives the worker has either a message to reduce or events to send. */
  datatype Worker = Idle | Reducing(message: Message) | Sending(events: seq<Event>, message: Message) | Gone

  datatype State<R> = State(
    queue: seq<Message>,
    reserved: set<FlushId>,
    worker: Worker,
    reducer: R,
    sent: seq<Event>,            // every event handed to delivery, in order
    acknowledged: seq<FlushId>,  // flushes answered, in order
    accepted: seq<Message>,      // every message the channel ever took, in order
    finished: nat)               // how many of those the worker is done with

  datatype Step =
    | Offer(fact: Fact)
    | Reserve(id: FlushId)
    | Push(id: FlushId)
    | Cancel(id: FlushId)
    | Receive
    | Reduce
    | Deliver
    | Abort

  function Initial<R>(reducer: Reducer<R>): State<R> {
    State([], {}, Idle, reducer.initial, [], [], [], 0)
  }

  predicate Full<R>(s: State<R>) { |s.queue| + |s.reserved| >= QUEUE_SIZE }

  predicate Closed<R>(s: State<R>) { s.worker.Gone? }

  /** A step that some task can take now. Offering a fact is always possible: it may be dropped. */
  predicate Enabled<R>(s: State<R>, step: Step) {
    match step
    case Offer(_) => true
    case Reserve(id) => !Closed(s) && !Full(s) && id !in s.reserved
    case Push(id) => !Closed(s) && id in s.reserved
    case Cancel(id) => id in s.reserved
    case Receive => s.worker.Idle? && s.queue != []
    case Reduce => s.worker.Reducing?
    case Deliver => s.worker.Sending?
    case Abort => !Closed(s)
  }

  predicate Dropped<R>(s: State<R>, step: Step) { step.Offer? && (Full(s) || Closed(s)) }

  function Enqueue<R>(s: State<R>, m: Message): State<R> {
    s.(queue := s.queue + [m], accepted := s.accepted + [m])
  }

  function ReduceMessage<R>(reducer: Reducer<R>, r: R, m: Message): (R, seq<Event>) {
    match m
    case FactMessage(fact) => reducer.ingest(r, fact)
    case FlushMessage(_) => reducer.flush(r)
  }

  /** The state after a step; one that no task can take now changes nothing. */
  function Next<R>(reducer: Reducer<R>, s: State<R>, step: Step): State<R> {
    if !Enabled(s, step) then s
    else match step
    case Offer(fact) => if Dropped(s, step) then s else Enqueue(s, FactMessage(fact))
    case Reserve(id) => s.(reserved := s.reserved + {id})
    case Push(id) => Enqueue(s.(reserved := s.reserved - {id}), FlushMessage(id))
    case Cancel(id) => s.(reserved := s.reserved - {id})
    case Receive => s.(queue := s.queue[1..], worker := Reducing(s.queue[0]))
    case Reduce =>
      var (r, events) := ReduceMessage(reducer, s.reducer, s.worker.message);
      s.(reducer := r, worker := Sending(events, s.worker.message))
    case Deliver =>
      var done := s.(sent := s.sent + s.worker.events, worker := Idle, finished := s.finished + 1);
      if s.worker.message.FlushMessage? then done.(acknowledged := s.acknowledged + [s.worker.message.id]) else done
    case Abort => s.(worker := Gone, queue := [])
  }

  /** The state after the first `n` steps of an interleaving. */
  function At<R>(reducer: Reducer<R>, steps: seq<Step>, n: nat): State<R>
    requires n <= |steps|
  {
    if n == 0 then Initial(reducer) else Next(reducer, At(reducer, steps, n - 1), steps[n-1])
  }

  // ----- The invariant

  /** The reducer after the given messages, one after the other. */
  function ReducedBy<R>(reducer: Reducer<R>, messages: seq<Message>): R {
    if messages == [] then reducer.initial
    else ReduceMessage(reducer, ReducedBy(reducer, messages[..|messages|-1]), messages[|messages|-1]).0
  }

  /** The events the given messages give rise to, in order. */
  function EventsOf<R>(reducer: Reducer<R>, messages: seq<Message>): seq<Event> {
    if messages == [] then []
    else
      var before := messages[..|messages|-1];
      EventsOf(reducer, before) + ReduceMessage(reducer, ReducedBy(reducer, before), messages[|messages|-1]).1
  }

  function FlushesIn(messages: seq<Message>): seq<FlushId> {
    if messages == [] then []
    else
      var before, last := FlushesIn(messages[..|messages|-1]), messages[|messages|-1];
      if last.FlushMessage? then before + [last.id] else before
  }

  function InHand(w: Worker): seq<Message> {
    if w.Reducing? || w.Sending? then [w.message] else []
  }

  ghost predicate Invariant<R>(reducer: Reducer<R>, s: State<R>) {
    && |s.queue| + |s.reserved| <= QUEUE_SIZE
    && s.finished <= |s.accepted|
    // first in, first out: done, in hand, waiting; only an abort loses what is not done
    && (!Closed(s) ==> s.accepted == s.accepted[..s.finished] + InHand(s.worker) + s.queue)
    && s.sent == EventsOf(reducer, s.accepted[..s.finished])
    && s.acknowledged == FlushesIn(s.accepted[..s.finished])
    && ReducerState(reducer, s)
  }

  ghost predicate ReducerState<R>(reducer: Reducer<R>, s: State<R>)
    requires s.finished <= |s.accepted|
  {
    var done := s.accepted[..s.finished];
    match s.worker
    case Sending(events, m) =>
      (s.reducer, events) == ReduceMessage(reducer, ReducedBy(reducer, done), m)
    case Gone => true
    case _ => s.reducer == ReducedBy(reducer, done)
  }

  lemma EnqueueKeeps<R>(reducer: Reducer<R>, s: State<R>, m: Message)
    requires Invariant(reducer, s) && !Closed(s) && !Full(s)
    ensures Invariant(reducer, Enqueue(s, m))
  {
    var t := Enqueue(s, m);
    assert t.accepted[..t.finished] == s.accepted[..s.finished];
    assert s.accepted + [m] == s.accepted[..s.finished] + InHand(s.worker) + (s.queue + [m]);
  }

  lemma DeliverKeeps<R>(reducer: Reducer<R>, s: State<R>)
    requires Invariant(reducer, s) && s.worker.Sending?
    ensures Invariant(reducer, Next(reducer, s, Deliver))
  {
    var t, m := Next(reducer, s, Deliver), s.worker.message;
    var done := s.accepted[..s.finished];
    assert s.accepted == done + [m] + s.queue;
    assert s.accepted[s.finished] == m;
    var more := t.accepted[..t.finished];
    assert more == done + [m];
    assert more[..|more|-1] == done && more[|more|-1] == m;
    assert t.accepted == more + [] + s.queue;
  }

  lemma ReceiveKeeps<R>(reducer: Reducer<R>, s: State<R>)
    requires Invariant(reducer, s) && Enabled(s, Receive)
    ensures Invariant(reducer, Next(reducer, s, Receive))
  {
    assert s.queue == [s.queue[0]] + s.queue[1..];
    var done := s.accepted[..s.finished];
    assert done + [] + s.queue == done + [s.queue[0]] + s.queue[1..];
  }

  /** No step of any task breaks the invariant. */
  lemma StepKeepsInvariant<R>(reducer: Reducer<R>, s: State<R>, step: Step)
    requires Invariant(reducer, s)
    ensures Invariant(reducer, Next(reducer, s, step))
  {
    if !Enabled(s, step) { return; }
    match step
    case Offer(fact) => if !Dropped(s, step) { EnqueueKeeps(reducer, s, FactMessage(fact)); }
    case Push(id) =>
      var t := s.(reserved := s.reserved - {id});
      assert |t.reserved| == |s.reserved| - 1;
      assert Invariant(reducer, t);
      EnqueueKeeps(reducer, t, FlushMessage(id));
    case Receive => ReceiveKeeps(reducer, s);
    case Deliver => DeliverKeeps(reducer, s);
    case Reserve(id) =>
    case Cancel(id) =>
    case Reduce =>
    case Abort =>
  }

  lemma {:induction false} RunKeepsInvariant<R>(reducer: Reducer<R>, steps: seq<Step>, n: nat)
    requires n <= |steps|
    ensures Invariant(reducer, At(reducer, steps, n))
  {
    if n > 0 {
      RunKeepsInvariant(reducer, steps, n - 1);
      StepKeepsInvariant(reducer, At(reducer, steps, n - 1), steps[n-1]);
    }
  }

  // ----- The flush barrier

  ghost predicate Acknowledges<R>(s: State<R>, step: Step, id: FlushId) {
    step.Deliver? && s.worker.Sending? && s.worker.message == FlushMessage(id)
  }

  /** In every interleaving: when a flush is acknowledged, everything accepted before its message has
      been reduced and sent, in the order of acceptance, and nothing accepted after it has. */
  lemma FlushIsABarrier<R>(reducer: Reducer<R>, steps: seq<Step>, n: nat, id: FlushId)
    requires n < |steps| && Acknowledges(At(reducer, steps, n), steps[n], id)
    ensures var t := At(reducer, steps, n + 1);
      && 0 < t.finished <= |t.accepted|
      && t.accepted[t.finished-1] == FlushMessage(id)
      && t.sent == EventsOf(reducer, t.accepted[..t.finished])
      && t.acknowledged[|t.acknowledged|-1..] == [id]
  {
    var s, t := At(reducer, steps, n), At(reducer, steps, n + 1);
    RunKeepsInvariant(reducer, steps, n);
    RunKeepsInvariant(reducer, steps, n + 1);
    assert s.accepted == s.accepted[..s.finished] + [s.worker.message] + s.queue;
    assert t.acknowledged == s.acknowledged + [id];
  }

  /** The channel never holds more than its capacity, and only a full or closed channel drops a fact. */
  lemma DropsOnlyWhenFullOrClosed<R>(reducer: Reducer<R>, steps: seq<Step>, n: nat)
    requires n < |steps| && steps[n].Offer?
    ensures var s, t := At(reducer, steps, n), At(reducer, steps, n + 1);
      && |s.queue| <= QUEUE_SIZE
      && (t.accepted == s.accepted <==> |s.queue| + |s.reserved| == QUEUE_SIZE || s.worker.Gone?)
      && (t.accepted != s.accepted ==> t.accepted == s.accepted + [FactMessage(steps[n].fact)])
  {
    RunKeepsInvariant(reducer, steps, n);
    var s := At(reducer, steps, n);
    assert |s.accepted + [FactMessage(steps[n].fact)]| > |s.accepted|;
  }

  // ----- The worker's loop

  /** The worker on the messages of a channel whose senders are all gone. */
  method Work<R>(reducer: Reducer<R>, messages: seq<Message>) returns (sent: seq<Event>, acknowledged: seq<FlushId>)
    ensures sent == EventsOf(reducer, messages)
    ensures acknowledged == FlushesIn(messages)
  {
    sent, acknowledged := [], [];
    var r := reducer.initial;
    for i := 0 to |messages|
      invariant r == ReducedBy(reducer, messages[..i])
      invariant sent == EventsOf(reducer, messages[..i])
      invariant acknowledged == FlushesIn(messages[..i])
    {
      assert messages[..i+1][..i] == messages[..i];
      match messages[i]
      case FactMessage(fact) =>
        var (r', events) := reducer.ingest(r, fact);
        r, sent := r', sent + events;
      case FlushMessage(id) =>
        var (r', events) := reducer.flush(r);
        r, sent := r', sent + events;
        acknowledged := acknowledged + [id];
    }
    assert messages[..|messages|] == messages;
  }
}
