/** What each step of the analytics queue does, and that the worker gets through everything accepted. */
module AnalyticsProgress {
  import opened AnalyticsQueue

  /** When a step changes anything. */
  lemma TakesEffectIff<R>(reducer: Reducer<R>, s: State<R>, step: Step)
    ensures Next(reducer, s, step) != s <==>
      match step
      case Offer(_) => !s.worker.Gone? && |s.queue| + |s.reserved| < 256
      case Reserve(id) => !s.worker.Gone? && |s.queue| + |s.reserved| < 256 && id !in s.reserved
      case Push(id) => !s.worker.Gone? && id in s.reserved
      case Cancel(id) => id in s.reserved
      case Receive => s.worker.Idle? && s.queue != []
      case Reduce => s.worker.Reducing?
      case Deliver => s.worker.Sending?
      case Abort => !s.worker.Gone?
  {
    var t := Next(reducer, s, step);
    assert |t.queue| == |s.queue| || t != s;
  }

  /** A slot stays reserved until its own flush pushes into it or gives it up. */
  lemma ReservedIff<R>(reducer: Reducer<R>, s: State<R>, step: Step, id: FlushId)
    ensures id in Next(reducer, s, step).reserved <==>
      || (id in s.reserved && step != Cancel(id) && (step != Push(id) || s.worker.Gone?))
      || (step == Reserve(id) && !s.worker.Gone? && |s.queue| + |s.reserved| < 256)
  {
  }

  /** What is sent and acknowledged, one message after the other. */
  lemma MessageEffect<R>(reducer: Reducer<R>, before: seq<Message>, fact: Fact, id: FlushId)
    ensures EventsOf(reducer, before + [FactMessage(fact)])
      == EventsOf(reducer, before) + reducer.ingest(ReducedBy(reducer, before), fact).1
    ensures ReducedBy(reducer, before + [FactMessage(fact)]) == reducer.ingest(ReducedBy(reducer, before), fact).0
    ensures EventsOf(reducer, before + [FlushMessage(id)])
      == EventsOf(reducer, before) + reducer.flush(ReducedBy(reducer, before)).1
    ensures ReducedBy(reducer, before + [FlushMessage(id)]) == reducer.flush(ReducedBy(reducer, before)).0
    ensures FlushesIn(before + [FactMessage(fact)]) == FlushesIn(before)
    ensures FlushesIn(before + [FlushMessage(id)]) == FlushesIn(before) + [id]
  {
    var facts, flushes := before + [FactMessage(fact)], before + [FlushMessage(id)];
    assert facts[..|facts|-1] == before && flushes[..|flushes|-1] == before;
  }

  /** Once the worker is gone nothing waits, and nothing is accepted, sent or acknowledged any more. */
  lemma {:induction false} AbortIsFinal<R>(reducer: Reducer<R>, s: State<R>, steps: seq<Step>)
    requires !s.worker.Gone?
    ensures var t := After(reducer, Next(reducer, s, Abort), steps);
      t.worker.Gone? && t.queue == [] && t.accepted == s.accepted && t.sent == s.sent
      && t.acknowledged == s.acknowledged
    decreases |steps|
  {
    GoneStays(reducer, Next(reducer, s, Abort), steps);
  }

  lemma {:induction false} GoneStays<R>(reducer: Reducer<R>, s: State<R>, steps: seq<Step>)
    requires s.worker.Gone?
    ensures var t := After(reducer, s, steps);
      t.worker.Gone? && t.queue == s.queue && t.accepted == s.accepted && t.sent == s.sent
      && t.acknowledged == s.acknowledged
    decreases |steps|
  {
    if steps != [] { GoneStays(reducer, Next(reducer, s, steps[0]), steps[1..]); }
  }

  /** A flush that reserved a slot before gets its message in, behind all others. */
  lemma FlushGetsIn<R>(reducer: Reducer<R>, s: State<R>, id: FlushId)
    requires !s.worker.Gone? && |s.queue| + |s.reserved| < 256 && id !in s.reserved
    ensures var t := Next(reducer, Next(reducer, s, Reserve(id)), Push(id));
      t == s.(queue := s.queue + [FlushMessage(id)], accepted := s.accepted + [FlushMessage(id)])
  {
    assert s.reserved + {id} - {id} == s.reserved;
  }

  /** The state after some steps. */
  function After<R>(reducer: Reducer<R>, s: State<R>, steps: seq<Step>): State<R>
    decreases |steps|
  {
    if steps == [] then s else After(reducer, Next(reducer, s, steps[0]), steps[1..])
  }

  function Cycle(n: nat): seq<Step> {
    if n == 0 then [] else [Receive, Reduce, Deliver] + Cycle(n - 1)
  }

  lemma ThreeSteps<R>(reducer: Reducer<R>, s: State<R>, a: Step, b: Step, c: Step, rest: seq<Step>)
    ensures After(reducer, s, [a, b, c] + rest)
      == After(reducer, Next(reducer, Next(reducer, Next(reducer, s, a), b), c), rest)
  {
    var all := [a, b, c] + rest;
    assert all[1..] == [b, c] + rest && ([b, c] + rest)[1..] == [c] + rest && ([c] + rest)[1..] == rest;
    assert After(reducer, Next(reducer, s, a), [b, c] + rest)
      == After(reducer, Next(reducer, Next(reducer, s, a), b), [c] + rest);
  }

  /** One message, from the queue to its events and, for a flush, its acknowledgement. */
  lemma OneMessage<R>(reducer: Reducer<R>, s: State<R>)
    requires Invariant(reducer, s) && s.worker.Idle? && s.queue != []
    ensures var t := Next(reducer, Next(reducer, Next(reducer, s, Receive), Reduce), Deliver);
      && t.worker.Idle? && t.queue == s.queue[1..] && t.accepted == s.accepted && t.finished == s.finished + 1
      && Invariant(reducer, t)
  {
    StepKeepsInvariant(reducer, s, Receive);
    var received := Next(reducer, s, Receive);
    StepKeepsInvariant(reducer, received, Reduce);
    StepKeepsInvariant(reducer, Next(reducer, received, Reduce), Deliver);
  }

  /** Left alone, the worker reduces and sends everything that waits, in order, and acknowledges every flush. */
  lemma {:induction false} WorkerDrains<R>(reducer: Reducer<R>, s: State<R>)
    requires Invariant(reducer, s) && s.worker.Idle?
    ensures var t := After(reducer, s, Cycle(|s.queue|));
      && t.worker.Idle? && t.queue == [] && t.accepted == s.accepted && t.finished == |s.accepted|
      && t.sent == EventsOf(reducer, s.accepted) && t.acknowledged == FlushesIn(s.accepted)
    decreases |s.queue|
  {
    if s.queue == [] {
      assert s.accepted == s.accepted[..s.finished] + [] + [];
      assert s.accepted[..s.finished] == s.accepted;
    } else {
      OneMessage(reducer, s);
      var t := Next(reducer, Next(reducer, Next(reducer, s, Receive), Reduce), Deliver);
      ThreeSteps(reducer, s, Receive, Reduce, Deliver, Cycle(|s.queue| - 1));
      WorkerDrains(reducer, t);
    }
  }
}
