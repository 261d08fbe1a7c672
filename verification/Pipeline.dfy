/** The ingest pipeline around an engine and its dispatcher: what the sinks hold in any interleaving. */
module Pipeline {
  import opened Wrappers
  import opened Evaluation
  import opened Rules
  import opened EngineModel
  import opened EngineSpec
  import opened RuleEngine
  import opened EngineRuns
  import opened Dispatch
  import opened Serving
  import Ingest

  /** The messages of deliveries, in their order. */
  function Messages(deliveries: seq<nat>, messageOf: nat -> Message): seq<Message> {
    seq(|deliveries|, i requires 0 <= i < |deliveries| => messageOf(deliveries[i]))
  }

  /** The results the worker holds between evaluating a delivery and dispatching it. */
  ghost predicate Holds(lib: Library, decoder: Decoder, t: Table, messageOf: nat -> Message, worker: Ingest.Worker,
                        results: seq<RuleEvaluation>)
  {
    worker.Evaluated? || worker.Acked? ==> AnswersTable(lib, decoder, t, messageOf(worker.d), results)
  }

  lemma {:induction false} PrefixRuns(capacity: nat, producers: nat, steps: seq<Ingest.Step>, n: nat)
    requires n <= |steps| && Ingest.Run(capacity, producers, steps).Some?
    ensures Ingest.Run(capacity, producers, steps[..n]).Some?
    decreases |steps|
  {
    if n < |steps| {
      PrefixRuns(capacity, producers, steps[..|steps| - 1], n);
      assert steps[..|steps| - 1][..n] == steps[..n];
    } else {
      assert steps[..n] == steps;
    }
  }

  lemma NextState(capacity: nat, producers: nat, steps: seq<Ingest.Step>, n: nat)
    requires n < |steps| && Ingest.Run(capacity, producers, steps).Some?
    ensures Ingest.Run(capacity, producers, steps[..n]).Some? && Ingest.Run(capacity, producers, steps[..n + 1]).Some?
    ensures Ingest.Take(capacity, Ingest.Run(capacity, producers, steps[..n]).value, steps[n]) ==
            Ingest.Run(capacity, producers, steps[..n + 1])
  {
    PrefixRuns(capacity, producers, steps, n);
    PrefixRuns(capacity, producers, steps, n + 1);
    assert steps[..n + 1][..n] == steps[..n];
  }

  /** Dispatching held results adds the message's deliveries to the sinks. */
  method DispatchAnswer(dispatcher: Dispatcher, results: seq<RuleEvaluation>, ghost lib: Library,
                        ghost decoder: Decoder,
                        ghost t: Table, ghost message: Message)
    returns (ghost part: seq<Delivery>)
    requires BuiltFor(dispatcher.sinks, dispatcher.metadata, t) && AnswersTable(lib, decoder, t, message, results)
    modifies dispatcher
    ensures SendsOne(lib, decoder, t, message, part) && dispatcher.sent == old(dispatcher.sent) + part
    ensures dispatcher.unknown == old(dispatcher.unknown) && dispatcher.unsupported == old(dispatcher.unsupported)
  {
    AnswerIsSent(lib, decoder, t, message, results);
    part := DeliveriesOf(t, results);
    DispatchResults(dispatcher, results, t);
  }

  lemma DispatchedNext(lib: Library, decoder: Decoder, t: Table, messageOf: nat -> Message, dispatched: seq<nat>,
                       d: nat,
                       sent: seq<Delivery>, parts: seq<seq<Delivery>>, part: seq<Delivery>)
    requires SendsEach(lib, decoder, t, Messages(dispatched, messageOf), parts) &&
             SendsOne(lib, decoder, t, messageOf(d), part)
    ensures SendsEach(lib, decoder, t, Messages(dispatched + [d], messageOf), parts + [part])
    ensures sent + Concat(parts) + part == sent + Concat(parts + [part])
  {
    var messages, n := Messages(dispatched + [d], messageOf), |dispatched|;
    assert messages[..n] == Messages(dispatched, messageOf) && messages[n] == messageOf(d) &&
           messages[..n + 1] == messages;
    SendsNext(lib, decoder, t, messages, n, parts, part);
    Associates(sent, Concat(parts), part);
  }

  /** Evaluating comes after counting and dispatching after acknowledging; other steps keep what is held. */
  lemma HoldsNext(capacity: nat, s: Ingest.State, step: Ingest.Step, lib: Library, decoder: Decoder, t: Table,
                  messageOf: nat -> Message, results: seq<RuleEvaluation>)
    requires Ingest.Take(capacity, s, step).Some? && Holds(lib, decoder, t, messageOf, s.worker, results)
    ensures var next := Ingest.Take(capacity, s, step).value;
            && (step.Evaluate? ==> s.worker.Counted? && next.worker == Ingest.Evaluated(s.worker.d))
            && (!step.Evaluate? ==> Holds(lib, decoder, t, messageOf, next.worker, results))
            && (step.Dispatch? ==> s.worker.Acked?)
  {}

  /** What a step sends: the deliveries of the answer when it dispatches, nothing otherwise. */
  ghost predicate Sends(lib: Library, decoder: Decoder, t: Table, messageOf: nat -> Message, s: Ingest.State,
                        step: Ingest.Step, part: seq<Delivery>)
  {
    if step.Dispatch? && s.worker.Acked? then SendsOne(lib, decoder, t, messageOf(s.worker.d), part) else part == []
  }

  /** The engine's share of a step: it evaluates when the step does. */
  method EvaluateStep(engine: RuleEngine, ghost capacity: nat, s: Ingest.State, step: Ingest.Step,
                      results: seq<RuleEvaluation>, messageOf: nat -> Message, ghost t: Table)
    returns (held: seq<RuleEvaluation>)
    requires Ingest.Take(capacity, s, step).Some? && Represents(engine, t)
    requires Holds(engine.lib, engine.runtime.decoder, t, messageOf, s.worker, results)
    modifies engine.Repr
    ensures Represents(engine, t) && engine.Repr == old(engine.Repr)
    ensures Holds(engine.lib, engine.runtime.decoder, t, messageOf, Ingest.Take(capacity, s, step).value.worker, held)
  {
    HoldsNext(capacity, s, step, engine.lib, engine.runtime.decoder, t, messageOf, results);
    held := results;
    if step.Evaluate? {
      var reply := PerformAsk(engine, messageOf(s.worker.d), t);
      held := reply.results;
    }
  }

  /** The dispatcher's share of a step: it sends what is held when the step dispatches. */
  method DispatchStep(dispatcher: Dispatcher, ghost capacity: nat, s: Ingest.State, step: Ingest.Step,
                      results: seq<RuleEvaluation>, messageOf: nat -> Message, ghost lib: Library,
                      ghost decoder: Decoder,
                      ghost t: Table)
    returns (ghost part: seq<Delivery>)
    requires Ingest.Take(capacity, s, step).Some? && BuiltFor(dispatcher.sinks, dispatcher.metadata, t)
    requires Holds(lib, decoder, t, messageOf, s.worker, results)
    modifies dispatcher
    ensures Sends(lib, decoder, t, messageOf, s, step, part) && dispatcher.sent == old(dispatcher.sent) + part
    ensures dispatcher.unknown == old(dispatcher.unknown) && dispatcher.unsupported == old(dispatcher.unsupported)
  {
    HoldsNext(capacity, s, step, lib, decoder, t, messageOf, results);
    part := [];
    if step.Dispatch? {
      part := DispatchAnswer(dispatcher, results, lib, decoder, t, messageOf(s.worker.d));
    }
  }

  method TakeStep(engine: RuleEngine, dispatcher: Dispatcher, ghost capacity: nat, s: Ingest.State, step: Ingest.Step,
                  results: seq<RuleEvaluation>, messageOf: nat -> Message, ghost t: Table)
    returns (held: seq<RuleEvaluation>, ghost part: seq<Delivery>)
    requires Ingest.Take(capacity, s, step).Some?
    requires Holds(engine.lib, engine.runtime.decoder, t, messageOf, s.worker, results)
    requires Represents(engine, t) && BuiltFor(dispatcher.sinks, dispatcher.metadata, t) && dispatcher !in engine.Repr
    modifies engine.Repr, dispatcher
    ensures Represents(engine, t) && engine.Repr == old(engine.Repr)
    ensures Holds(engine.lib, engine.runtime.decoder, t, messageOf, Ingest.Take(capacity, s, step).value.worker, held)
    ensures Sends(engine.lib, engine.runtime.decoder, t, messageOf, s, step, part)
    ensures dispatcher.sent == old(dispatcher.sent) + part
    ensures dispatcher.unknown == old(dispatcher.unknown) && dispatcher.unsupported == old(dispatcher.unsupported)
  {
    part := DispatchStep(dispatcher, capacity, s, step, results, messageOf, engine.lib, engine.runtime.decoder, t);
    held := EvaluateStep(engine, capacity, s, step, results, messageOf, t);
  }

  /** The parts sent so far, with the part a step adds. */
  ghost function PartsNext(parts: seq<seq<Delivery>>, step: Ingest.Step, part: seq<Delivery>): seq<seq<Delivery>> {
    if step.Dispatch? then parts + [part] else parts
  }

  lemma PartsGrow(capacity: nat, s: Ingest.State, step: Ingest.Step, lib: Library, decoder: Decoder, t: Table,
                  messageOf: nat -> Message, sent: seq<Delivery>, parts: seq<seq<Delivery>>, part: seq<Delivery>)
    requires Ingest.Take(capacity, s, step).Some? && Sends(lib, decoder, t, messageOf, s, step, part)
    requires SendsEach(lib, decoder, t, Messages(s.dispatched, messageOf), parts)
    ensures SendsEach(lib, decoder, t, Messages(Ingest.Take(capacity, s, step).value.dispatched, messageOf),
                      PartsNext(parts, step, part))
    ensures sent + Concat(parts) + part == sent + Concat(PartsNext(parts, step, part))
  {
    DispatchedBy(capacity, s, step);
    if step.Dispatch? {
      DispatchedNext(lib, decoder, t, messageOf, s.dispatched, s.worker.d, sent, parts, part);
    } else {
      assert sent + Concat(parts) + [] == sent + Concat(parts);
    }
  }

  lemma DispatchedBy(capacity: nat, s: Ingest.State, step: Ingest.Step)
    requires Ingest.Take(capacity, s, step).Some?
    ensures var next := Ingest.Take(capacity, s, step).value;
            && (step.Dispatch? ==> s.worker.Acked? && next.dispatched == s.dispatched + [s.worker.d])
            && (!step.Dispatch? ==> next.dispatched == s.dispatched)
  {}

  /** Any interleaving of producers, worker and stop, with the worker's steps done by the engine and the dispatcher:
      the sinks hold exactly the deliveries of the answers to the dispatched messages, one after the other, and these
      are the first of what was enqueued; all of it once the worker has exited unforced. */
  method RunInterleaved(engine: RuleEngine, dispatcher: Dispatcher, capacity: nat, producers: nat,
                        steps: seq<Ingest.Step>,
                        messageOf: nat -> Message, ghost t: Table)
    returns (s: Ingest.State, ghost parts: seq<seq<Delivery>>)
    requires Ingest.Run(capacity, producers, steps).Some?
    requires Represents(engine, t) && BuiltFor(dispatcher.sinks, dispatcher.metadata, t) && dispatcher !in engine.Repr
    modifies engine.Repr, dispatcher
    ensures Represents(engine, t) && Some(s) == Ingest.Run(capacity, producers, steps)
    ensures SendsEach(engine.lib, engine.runtime.decoder, t, Messages(s.dispatched, messageOf), parts)
    ensures dispatcher.sent == old(dispatcher.sent) + Concat(parts)
    ensures dispatcher.unknown == old(dispatcher.unknown) && dispatcher.unsupported == old(dispatcher.unsupported)
    ensures s.dispatched <= s.enqueued
    ensures s.worker.Stopped? && !s.force ==> s.dispatched == s.enqueued
  {
    s, parts := Ingest.Initial(producers), [];
    var results := [];
    for n := 0 to |steps|
      invariant Represents(engine, t) && engine.Repr == old(engine.Repr)
      invariant Ingest.Run(capacity, producers, steps[..n]) == Some(s)
      invariant Holds(engine.lib, engine.runtime.decoder, t, messageOf, s.worker, results)
      invariant SendsEach(engine.lib, engine.runtime.decoder, t, Messages(s.dispatched, messageOf), parts)
      invariant dispatcher.sent == old(dispatcher.sent) + Concat(parts)
      invariant dispatcher.unknown == old(dispatcher.unknown) && dispatcher.unsupported == old(dispatcher.unsupported)
    {
      NextState(capacity, producers, steps, n);
      ghost var part;
      results, part := TakeStep(engine, dispatcher, capacity, s, steps[n], results, messageOf, t);
      PartsGrow(capacity, s, steps[n], engine.lib, engine.runtime.decoder, t, messageOf, old(dispatcher.sent), parts,
                part);
      parts := PartsNext(parts, steps[n], part);
      s := Ingest.Take(capacity, s, steps[n]).value;
    }
    assert steps[..|steps|] == steps;
    DispatchedOfEnqueued(capacity, producers, steps);
  }

  lemma DispatchedOfEnqueued(capacity: nat, producers: nat, steps: seq<Ingest.Step>)
    requires Ingest.Run(capacity, producers, steps).Some?
    ensures var s := Ingest.Run(capacity, producers, steps).value;
            && s.dispatched <= s.enqueued
            && (s.worker.Stopped? && !s.force ==> s.dispatched == s.enqueued)
  {
    Ingest.AcksAreSafe(capacity, producers, steps);
    var s := Ingest.Run(capacity, producers, steps).value;
    if s.worker.Stopped? && !s.force {
      Ingest.ExitMeansDrained(capacity, producers, steps);
    }
  }
}
