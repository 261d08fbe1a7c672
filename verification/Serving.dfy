/** An engine and the dispatcher built from its rules: every result reaches the destinations of its rule. */
module Serving {
  import opened Wrappers
  import opened Evaluation
  import opened Rules
  import opened EngineModel
  import opened EngineSpec
  import opened RuleEngine
  import opened EngineRuns
  import opened Dispatch

  /** Some occupied slot lists the destination. */
  ghost predicate Listed(t: Table, destination: string) {
    exists i: nat :: Occupied(t, i) && destination in t.slots[i].value.destinations
  }

  /** Every destination of the table's definitions is a configured sink that can be created. */
  ghost predicate Configured(t: Table, config: map<string, SinkDefinition>, refuses: string -> bool) {
    forall d :: Listed(t, d) ==> d in config && Creatable(d, config[d], refuses)
  }

  /** All listed destinations that are missing, or, when none is, a listed Kafka sink and the first thing wrong
      with it. */
  ghost predicate Refuses(t: Table, config: map<string, SinkDefinition>, refuses: string -> bool, error: ConfigError) {
    match error
    case Unconfigured(missing) => missing != {} && forall d :: d in missing <==> Listed(t, d) && d !in config
    case EmptyBootstrapServers(d) => ListedKafka(t, config, d) && config[d].bootstrapServers == []
    case EmptyTopic(d) => ListedKafka(t, config, d) && config[d].bootstrapServers != [] && config[d].topic == ""
    case ProducerRefused(d) =>
      ListedKafka(t, config, d) && config[d].bootstrapServers != [] && config[d].topic != "" && refuses(d)
  }

  /** Every listed destination is configured, and this one as a Kafka sink. */
  ghost predicate ListedKafka(t: Table, config: map<string, SinkDefinition>, destination: string) {
    && (forall d :: Listed(t, d) ==> d in config)
    && Listed(t, destination) && config[destination].Kafka?
  }

  lemma ListedIsUsed(t: Table, metadata: seq<RuleMetadata>, destination: string)
    requires Describes(t, metadata)
    ensures Listed(t, destination) <==> Used(metadata, destination)
  {
    if i: nat :| Occupied(t, i) && destination in t.slots[i].value.destinations {
      assert RuleMetadata(i, t.slots[i].value.destinations) in metadata;
    }
    if m :| m in metadata && destination in m.destinations {
      assert m == RuleMetadata(m.ruleIndex, m.destinations);
      assert Occupied(t, m.ruleIndex);
    }
  }

  /** The dispatcher exists exactly when every destination is configured, and then knows all rules; otherwise the
      error names what is wrong. */
  method BuildDispatcher(engine: RuleEngine, config: map<string, SinkDefinition>, refuses: string -> bool,
                         ghost t: Table)
    returns (r: Result<Dispatcher, ConfigError>)
    requires Represents(engine, t)
    ensures r.Ok? <==> Configured(t, config, refuses)
    ensures r.Err? ==> Refuses(t, config, refuses, r.error)
    ensures r.Ok? ==> fresh(r.value) && r.value.sent == [] && r.value.unknown == 0 && r.value.unsupported == 0
    ensures r.Ok? ==> BuiltFor(r.value.sinks, r.value.metadata, t)
    ensures r.Ok? ==> forall d :: d in r.value.sinks ==> d in config && r.value.sinks[d] == config[d]
  {
    var metadata := engine.ListRuleMetadata();
    assert Describes(t, metadata);
    r := NewDispatcher(config, metadata, refuses);
    forall d ensures Listed(t, d) <==> Used(metadata, d) { ListedIsUsed(t, metadata, d); }
    if r.Ok? {
      MetadataBuilds(r.value.sinks, metadata, t);
    }
  }

  // ----- messages -----

  /** Some answer to the message, sent to the destinations of its rules. */
  ghost predicate SendsOne(lib: Library, decoder: Decoder, t: Table, message: Message, sent: seq<Delivery>) {
    exists results ::
      AnswersTable(lib, decoder, t, message, results) && AllOccupied(t, results) &&
      sent == DeliveriesOf(t, results)
  }

  ghost predicate AllOccupied(t: Table, results: seq<RuleEvaluation>) {
    forall k :: 0 <= k < |results| ==> Occupied(t, results[k].ruleIndex)
  }

  /** One part for each message, the message's own deliveries. */
  ghost predicate SendsEach(lib: Library, decoder: Decoder, t: Table, messages: seq<Message>, parts: seq<seq<Delivery>>)
  {
    |parts| == |messages| && forall k :: 0 <= k < |parts| ==> SendsOne(lib, decoder, t, messages[k], parts[k])
  }

  function Concat(parts: seq<seq<Delivery>>): seq<Delivery> {
    if parts == [] then [] else Concat(parts[..|parts| - 1]) + parts[|parts| - 1]
  }

  lemma {:induction false} ConcatHolds(parts: seq<seq<Delivery>>, delivery: Delivery)
    ensures delivery in Concat(parts) <==> exists k :: 0 <= k < |parts| && delivery in parts[k]
  {
    if parts != [] {
      var n := |parts| - 1;
      ConcatHolds(parts[..n], delivery);
      assert forall k :: 0 <= k < n ==> parts[..n][k] == parts[k];
    }
  }

  lemma AnswersAreOccupied(lib: Library, decoder: Decoder, t: Table, message: Message, results: seq<RuleEvaluation>)
    requires AnswersTable(lib, decoder, t, message, results)
    ensures AllOccupied(t, results)
  {
    forall k | 0 <= k < |results| ensures Occupied(t, results[k].ruleIndex) {
      assert RuleEvaluation(results[k].ruleIndex, results[k].message) in results;
    }
  }

  lemma AnswerIsSent(lib: Library, decoder: Decoder, t: Table, message: Message, results: seq<RuleEvaluation>)
    requires AnswersTable(lib, decoder, t, message, results)
    ensures AllOccupied(t, results) && SendsOne(lib, decoder, t, message, DeliveriesOf(t, results))
  {
    AnswersAreOccupied(lib, decoder, t, message, results);
  }

  method HandleMessage(engine: RuleEngine, dispatcher: Dispatcher, message: Message, ghost t: Table)
    returns (ghost part: seq<Delivery>)
    requires Represents(engine, t) && BuiltFor(dispatcher.sinks, dispatcher.metadata, t) && dispatcher !in engine.Repr
    modifies engine.Repr, dispatcher
    ensures Represents(engine, t) && engine.Repr == old(engine.Repr)
    ensures SendsOne(engine.lib, engine.runtime.decoder, t, message, part)
    ensures dispatcher.sent == old(dispatcher.sent) + part
    ensures dispatcher.unknown == old(dispatcher.unknown) && dispatcher.unsupported == old(dispatcher.unsupported)
  {
    var reply := PerformAsk(engine, message, t);
    AnswerIsSent(engine.lib, engine.runtime.decoder, t, message, reply.results);
    part := DeliveriesOf(t, reply.results);
    DispatchResults(dispatcher, reply.results, t);
  }

  /** Over any messages, while the rules do not change, every result goes to exactly its rule's destinations in
      listed order, and no result has an unknown rule or an unsupported destination. */
  method HandleMessages(engine: RuleEngine, dispatcher: Dispatcher, messages: seq<Message>, ghost t: Table)
    returns (ghost parts: seq<seq<Delivery>>)
    requires Represents(engine, t) && BuiltFor(dispatcher.sinks, dispatcher.metadata, t) && dispatcher !in engine.Repr
    modifies engine.Repr, dispatcher
    ensures Represents(engine, t) && engine.Repr == old(engine.Repr)
    ensures SendsEach(engine.lib, engine.runtime.decoder, t, messages, parts)
    ensures dispatcher.sent == old(dispatcher.sent) + Concat(parts)
    ensures dispatcher.unknown == old(dispatcher.unknown) && dispatcher.unsupported == old(dispatcher.unsupported)
  {
    parts := [];
    for n := 0 to |messages|
      invariant Represents(engine, t) && engine.Repr == old(engine.Repr)
      invariant SendsEach(engine.lib, engine.runtime.decoder, t, messages[..n], parts)
      invariant dispatcher.sent == old(dispatcher.sent) + Concat(parts)
      invariant dispatcher.unknown == old(dispatcher.unknown) && dispatcher.unsupported == old(dispatcher.unsupported)
    {
      ghost var part := HandleMessage(engine, dispatcher, messages[n], t);
      SendsNext(engine.lib, engine.runtime.decoder, t, messages, n, parts, part);
      Associates(old(dispatcher.sent), Concat(parts), part);
      parts := parts + [part];
    }
    assert messages[..|messages|] == messages;
  }

  lemma Associates<T>(a: seq<T>, b: seq<T>, c: seq<T>)
    ensures (a + b) + c == a + (b + c)
  {}

  lemma SendsNext(lib: Library, decoder: Decoder, t: Table, messages: seq<Message>, n: nat, parts: seq<seq<Delivery>>,
                  part: seq<Delivery>)
    requires n < |messages| && SendsEach(lib, decoder, t, messages[..n], parts) &&
             SendsOne(lib, decoder, t, messages[n], part)
    ensures SendsEach(lib, decoder, t, messages[..n + 1], parts + [part])
    ensures Concat(parts + [part]) == Concat(parts) + part
  {
    assert (parts + [part])[..n] == parts;
    forall k | 0 <= k <= n ensures SendsOne(lib, decoder, t, messages[..n + 1][k], (parts + [part])[k]) {
      if k < n {
        assert messages[..n + 1][k] == messages[..n][k] && (parts + [part])[k] == parts[k];
      }
    }
  }

  ghost predicate Yields(lib: Library, decoder: Decoder, t: Table, message: Message, d: string, i: nat, output: Message)
  {
    Occupied(t, i) && OutputFor(lib, decoder, t, i, message) == Some(output) && d in t.slots[i].value.destinations
  }

  lemma SentOneAre(lib: Library, decoder: Decoder, t: Table, message: Message, sent: seq<Delivery>, d: string, i: nat,
                   output: Message)
    requires SendsOne(lib, decoder, t, message, sent)
    ensures Delivery(d, i, output) in sent <==> Yields(lib, decoder, t, message, d, i, output)
  {
    var results :| AnswersTable(lib, decoder, t, message, results) && AllOccupied(t, results) &&
                    sent == DeliveriesOf(t, results);
    DeliveriesHold(t, results, d, i, output);
  }

  /** A delivery is sent exactly when for some message the definition yields it and lists the destination. */
  lemma SentAre(lib: Library, decoder: Decoder, t: Table, messages: seq<Message>, parts: seq<seq<Delivery>>,
                d: string, i: nat, output: Message)
    requires SendsEach(lib, decoder, t, messages, parts)
    ensures Delivery(d, i, output) in Concat(parts) <==>
            exists k :: 0 <= k < |messages| && Yields(lib, decoder, t, messages[k], d, i, output)
  {
    ConcatHolds(parts, Delivery(d, i, output));
    forall k | 0 <= k < |parts|
      ensures Delivery(d, i, output) in parts[k] <==> Yields(lib, decoder, t, messages[k], d, i, output)
    {
      SentOneAre(lib, decoder, t, messages[k], parts[k], d, i, output);
    }
  }
}
