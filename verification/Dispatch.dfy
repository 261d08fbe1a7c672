/** Sending results to the sinks of their rules. */
module Dispatch {
  import opened Wrappers
  import opened Evaluation
  import opened Rules
  import opened EngineModel
  import opened EngineSpec

  datatype SinkDefinition = Noop | Log | Kafka(bootstrapServers: seq<string>, topic: string)

  /** A message handed to a sink. */
  datatype Delivery = Delivery(destination: string, ruleIndex: nat, message: Message)

  datatype ConfigError =
    | Unconfigured(destinations: set<string>)
    | EmptyBootstrapServers(destination: string)
    | EmptyTopic(destination: string)
    | ProducerRefused(destination: string)

  // ----- construction -----

  ghost predicate Used(metadata: seq<RuleMetadata>, destination: string) {
    exists m :: m in metadata && destination in m.destinations
  }

  method UsedDestinations(metadata: seq<RuleMetadata>) returns (used: set<string>)
    ensures forall d :: d in used <==> Used(metadata, d)
  {
    used := {};
    for n := 0 to |metadata|
      invariant forall d :: d in used <==> Used(metadata[..n], d)
    {
      used := used + set d | d in metadata[n].destinations;
      assert metadata[..n + 1] == metadata[..n] + [metadata[n]];
    }
    assert metadata[..|metadata|] == metadata;
  }

  /** Why a sink cannot be created; refuses says for which destinations the Kafka client fails. */
  function SinkError(destination: string, definition: SinkDefinition, refuses: string -> bool): Option<ConfigError> {
    match definition
    case Kafka(servers, topic) =>
      if servers == [] then Some(EmptyBootstrapServers(destination))
      else if topic == "" then Some(EmptyTopic(destination))
      else if refuses(destination) then Some(ProducerRefused(destination))
      else None
    case _ => None
  }

  /** A Kafka sink needs servers, a topic and a client that accepts them; the other sinks need nothing. */
  predicate Creatable(destination: string, definition: SinkDefinition, refuses: string -> bool) {
    definition.Kafka? ==>
      definition.bootstrapServers != [] && definition.topic != "" && !refuses(destination)
  }

  /** Every destination of the rules is a configured sink that can be created. */
  ghost predicate Deliverable(config: map<string, SinkDefinition>, metadata: seq<RuleMetadata>, refuses: string -> bool)
  {
    forall d :: Used(metadata, d) ==> d in config && Creatable(d, config[d], refuses)
  }

  /** The destination is used and is a configured Kafka sink. */
  ghost predicate UsedKafka(config: map<string, SinkDefinition>, metadata: seq<RuleMetadata>, destination: string) {
    Used(metadata, destination) && destination in config && config[destination].Kafka?
  }

  /** All that are missing, or, when none is, a used Kafka sink and the first thing wrong with it. */
  ghost predicate Excuses(config: map<string, SinkDefinition>, metadata: seq<RuleMetadata>, refuses: string -> bool,
                          error: ConfigError)
  {
    match error
    case Unconfigured(missing) => missing != {} && forall d :: d in missing <==> Used(metadata, d) && d !in config
    case EmptyBootstrapServers(d) =>
      AllConfigured(config, metadata) && UsedKafka(config, metadata, d) && config[d].bootstrapServers == []
    case EmptyTopic(d) =>
      AllConfigured(config, metadata) && UsedKafka(config, metadata, d) && config[d].bootstrapServers != [] &&
      config[d].topic == ""
    case ProducerRefused(d) =>
      AllConfigured(config, metadata) && UsedKafka(config, metadata, d) && config[d].bootstrapServers != [] &&
      config[d].topic != "" && refuses(d)
  }

  ghost predicate AllConfigured(config: map<string, SinkDefinition>, metadata: seq<RuleMetadata>) {
    forall d :: Used(metadata, d) ==> d in config
  }

  /** The later entry wins when two have the same index. */
  function ByRuleIndex(metadata: seq<RuleMetadata>): map<nat, RuleMetadata> {
    if metadata == [] then map[]
    else ByRuleIndex(metadata[..|metadata| - 1])[metadata[|metadata| - 1].ruleIndex := metadata[|metadata| - 1]]
  }

  method NewDispatcher(config: map<string, SinkDefinition>, metadata: seq<RuleMetadata>, refuses: string -> bool)
    returns (r: Result<Dispatcher, ConfigError>)
    ensures r.Ok? <==> Deliverable(config, metadata, refuses)
    ensures r.Err? ==> Excuses(config, metadata, refuses, r.error)
    ensures r.Ok? ==>
              && fresh(r.value) && r.value.sent == [] && r.value.unsupported == 0 && r.value.unknown == 0
              && r.value.metadata == ByRuleIndex(metadata)
              && (forall d :: d in r.value.sinks <==> Used(metadata, d))
              && forall d :: d in r.value.sinks ==> d in config && r.value.sinks[d] == config[d]
  {
    var used := UsedDestinations(metadata);
    var missing := used - config.Keys;
    if missing != {} {
      assert forall d :: d in missing <==> Used(metadata, d) && d !in config;
      return Err(Unconfigured(missing));
    }
    forall d | Used(metadata, d) ensures d in config { assert d !in missing; }
    var sinks, remaining := map[], config.Keys;
    while remaining != {}
      invariant remaining <= config.Keys
      invariant forall d :: d in sinks <==> d in config && d !in remaining && Used(metadata, d)
      invariant forall d :: d in sinks ==> Creatable(d, config[d], refuses) && sinks[d] == config[d]
      decreases remaining
    {
      var destination :| destination in remaining;
      remaining := remaining - {destination};
      if destination in used {
        var error := SinkError(destination, config[destination], refuses);
        if error.Some? {
          assert UsedKafka(config, metadata, destination);
          return Err(error.value);
        }
        sinks := sinks[destination := config[destination]];
      }
    }
    var dispatcher := new Dispatcher(sinks, ByRuleIndex(metadata));
    return Ok(dispatcher);
  }

  // ----- dispatch -----

  /** What is handed to the sinks for one result: one delivery for each destination that has a sink, in order. */
  function Handed(sinks: map<string, SinkDefinition>, destinations: seq<string>, ruleIndex: nat,
                  message: Message): seq<Delivery>
  {
    if destinations == [] then []
    else
      var n := |destinations| - 1;
      Handed(sinks, destinations[..n], ruleIndex, message) +
      if destinations[n] in sinks then [Delivery(destinations[n], ruleIndex, message)] else []
  }

  class Dispatcher {
    const sinks: map<string, SinkDefinition>
    const metadata: map<nat, RuleMetadata>
    var sent: seq<Delivery>
    var unsupported: nat
    var unknown: nat

    constructor (sinks: map<string, SinkDefinition>, metadata: map<nat, RuleMetadata>)
      ensures this.sinks == sinks && this.metadata == metadata && sent == [] && unsupported == 0 && unknown == 0
    {
      this.sinks, this.metadata := sinks, metadata;
      sent, unsupported, unknown := [], 0, 0;
    }

    method Dispatch(ruleIndex: nat, message: Message)
      modifies this
      ensures ruleIndex !in metadata ==>
                unknown == old(unknown) + 1 && sent == old(sent) && unsupported == old(unsupported)
      ensures ruleIndex in metadata ==>
                var handed := Handed(sinks, metadata[ruleIndex].destinations, ruleIndex, message);
                && unknown == old(unknown) && sent == old(sent) + handed
                && unsupported == old(unsupported) + |metadata[ruleIndex].destinations| - |handed|
    {
      if ruleIndex !in metadata {
        unknown := unknown + 1;
        return;
      }
      var destinations := metadata[ruleIndex].destinations;
      for n := 0 to |destinations|
        invariant unknown == old(unknown)
        invariant sent == old(sent) + Handed(sinks, destinations[..n], ruleIndex, message)
        invariant unsupported == old(unsupported) + n - |Handed(sinks, destinations[..n], ruleIndex, message)|
      {
        assert destinations[..n + 1][..n] == destinations[..n];
        if destinations[n] !in sinks {
          unsupported := unsupported + 1;
        } else {
          sent := sent + [Delivery(destinations[n], ruleIndex, message)];
        }
      }
      assert destinations[..|destinations|] == destinations;
    }
  }

  // ----- the rules' own destinations -----

  /** One delivery for every destination, in listed order. */
  function ToAll(destinations: seq<string>, ruleIndex: nat, message: Message): seq<Delivery> {
    seq(|destinations|, i requires 0 <= i < |destinations| => Delivery(destinations[i], ruleIndex, message))
  }

  /** All destinations are handed the message exactly when all have sinks. */
  lemma {:induction false} HandedToAll(sinks: map<string, SinkDefinition>, destinations: seq<string>, ruleIndex: nat,
                                       message: Message)
    ensures |Handed(sinks, destinations, ruleIndex, message)| <= |destinations|
    ensures Handed(sinks, destinations, ruleIndex, message) == ToAll(destinations, ruleIndex, message) <==>
            forall d :: d in destinations ==> d in sinks
  {
    if destinations != [] {
      var n := |destinations| - 1;
      HandedToAll(sinks, destinations[..n], ruleIndex, message);
      assert destinations == destinations[..n] + [destinations[n]];
      assert ToAll(destinations, ruleIndex, message) ==
             ToAll(destinations[..n], ruleIndex, message) + [Delivery(destinations[n], ruleIndex, message)];
      var before := Handed(sinks, destinations[..n], ruleIndex, message);
      assert Handed(sinks, destinations, ruleIndex, message)[..|before|] == before;
      assert ToAll(destinations, ruleIndex, message)[..n] == ToAll(destinations[..n], ruleIndex, message);
    }
  }

  // ----- metadata of an engine -----

  /** The metadata lists every occupied slot with its definition's destinations. */
  ghost predicate Describes(t: Table, metadata: seq<RuleMetadata>) {
    forall i: nat, ds :: RuleMetadata(i, ds) in metadata <==> Occupied(t, i) && t.slots[i].value.destinations == ds
  }

  lemma {:induction false} ByRuleIndexFinds(metadata: seq<RuleMetadata>, i: nat)
    ensures i in ByRuleIndex(metadata) ==>
              ByRuleIndex(metadata)[i] in metadata && ByRuleIndex(metadata)[i].ruleIndex == i
    ensures forall ds :: RuleMetadata(i, ds) in metadata ==> i in ByRuleIndex(metadata)
  {
    if metadata != [] {
      var n := |metadata| - 1;
      ByRuleIndexFinds(metadata[..n], i);
      assert metadata == metadata[..n] + [metadata[n]];
    }
  }

  /** The dispatcher knows every occupied slot, and has a sink for each of its definition's destinations. */
  ghost predicate BuiltFor(sinks: map<string, SinkDefinition>, byIndex: map<nat, RuleMetadata>, t: Table) {
    && (forall i: nat :: i in byIndex <==> Occupied(t, i))
    && (forall i: nat :: Occupied(t, i) ==> byIndex[i].destinations == t.slots[i].value.destinations)
    && (forall i: nat, d :: Occupied(t, i) && d in t.slots[i].value.destinations ==> d in sinks)
  }

  lemma MetadataBuilds(sinks: map<string, SinkDefinition>, metadata: seq<RuleMetadata>, t: Table)
    requires Describes(t, metadata) && forall d :: d in sinks <==> Used(metadata, d)
    ensures BuiltFor(sinks, ByRuleIndex(metadata), t)
  {
    forall i: nat
      ensures i in ByRuleIndex(metadata) <==> Occupied(t, i)
      ensures Occupied(t, i) ==> ByRuleIndex(metadata)[i].destinations == t.slots[i].value.destinations
    {
      ByRuleIndexFinds(metadata, i);
      if i in ByRuleIndex(metadata) {
        assert ByRuleIndex(metadata)[i] == RuleMetadata(i, ByRuleIndex(metadata)[i].destinations);
      }
      if Occupied(t, i) {
        assert RuleMetadata(i, t.slots[i].value.destinations) in metadata;
      }
    }
    forall i: nat, d | Occupied(t, i) && d in t.slots[i].value.destinations ensures d in sinks {
      assert RuleMetadata(i, t.slots[i].value.destinations) in metadata;
    }
  }

  /** After any commands, a dispatcher built before them knows exactly the rules that were there already, and
      still sends each to its own destinations. */
  lemma DispatcherAfter(lib: Library, decoder: Decoder, sinks: map<string, SinkDefinition>,
                        byIndex: map<nat, RuleMetadata>, t: Table, commands: seq<Command>, i: nat)
    requires SoundTable(lib, t) && BuiltFor(sinks, byIndex, t)
    requires Occupied(After(lib, decoder, t, commands), i)
    ensures i in byIndex <==> i < |t.slots|
    ensures i in byIndex ==>
              var destinations := After(lib, decoder, t, commands).slots[i].value.destinations;
              byIndex[i].destinations == destinations && forall d :: d in destinations ==> d in sinks
  {
    SlotsNeverMove(lib, decoder, t, commands);
  }

  // ----- sending a whole answer -----

  /** Every result goes to all destinations of its definition. */
  ghost function DeliveriesOf(t: Table, results: seq<RuleEvaluation>): seq<Delivery>
    requires forall k :: 0 <= k < |results| ==> Occupied(t, results[k].ruleIndex)
  {
    if results == [] then []
    else
      var n := |results| - 1;
      var last := results[n];
      assert Occupied(t, results[n].ruleIndex);
      DeliveriesOf(t, results[..n]) + ToAll(t.slots[last.ruleIndex].value.destinations, last.ruleIndex, last.message)
  }

  lemma {:induction false} DeliveriesHold(t: Table, results: seq<RuleEvaluation>, d: string, i: nat, output: Message)
    requires forall k :: 0 <= k < |results| ==> Occupied(t, results[k].ruleIndex)
    ensures Delivery(d, i, output) in DeliveriesOf(t, results) <==>
            RuleEvaluation(i, output) in results && d in t.slots[i].value.destinations
  {
    if results != [] {
      var n := |results| - 1;
      DeliveriesHold(t, results[..n], d, i, output);
      assert results == results[..n] + [results[n]];
      var destinations := t.slots[results[n].ruleIndex].value.destinations;
      var last := ToAll(destinations, results[n].ruleIndex, results[n].message);
      assert DeliveriesOf(t, results) == DeliveriesOf(t, results[..n]) + last;
      assert Delivery(d, i, output) in last <==> results[n] == RuleEvaluation(i, output) && d in destinations by {
        if results[n] == RuleEvaluation(i, output) && d in destinations {
          var k :| 0 <= k < |destinations| && destinations[k] == d;
          assert last[k] == Delivery(d, i, output);
        }
      }
    }
  }

  /** Dispatching results of known rules sends each to exactly its destinations, in order, and nothing else. */
  method DispatchResults(dispatcher: Dispatcher, results: seq<RuleEvaluation>, ghost t: Table)
    requires BuiltFor(dispatcher.sinks, dispatcher.metadata, t)
    requires forall k :: 0 <= k < |results| ==> Occupied(t, results[k].ruleIndex)
    modifies dispatcher
    ensures dispatcher.sent == old(dispatcher.sent) + DeliveriesOf(t, results)
    ensures dispatcher.unknown == old(dispatcher.unknown) && dispatcher.unsupported == old(dispatcher.unsupported)
  {
    for n := 0 to |results|
      invariant dispatcher.sent == old(dispatcher.sent) + DeliveriesOf(t, results[..n])
      invariant dispatcher.unknown == old(dispatcher.unknown) && dispatcher.unsupported == old(dispatcher.unsupported)
    {
      assert results[..n + 1][..n] == results[..n];
      var r := results[n];
      HandedToAll(dispatcher.sinks, t.slots[r.ruleIndex].value.destinations, r.ruleIndex, r.message);
      dispatcher.Dispatch(r.ruleIndex, r.message);
    }
    assert results[..|results|] == results;
  }
}
