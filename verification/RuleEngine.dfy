/** The rule engine: slots, ids, topic index, caches and counters kept together. */
module RuleEngine {
  import opened Wrappers
  import opened Text
  import opened Evaluation
  import opened Rules
  import opened PayloadRuntime
  import opened Metrics
  import opened EngineModel
  import opened SchemaGroups
  import opened Attempting
  import opened GroupEvaluation

  const DEFAULT_PARALLEL_THRESHOLD: nat := 64

  class RuleEngine {
    const lib: Library
    const matcher: TopicTrie.TopicTrie
    const metrics: EvalMetrics
    const runtime: PayloadRuntime
    var rules: Slots
    var ruleIndexById: map<string, nat>
    var evalParallelThreshold: nat
    const poolThreads: nat
    ghost var Repr: set<object>

    /** The parts are sound and share nothing. */
    ghost predicate Parts()
      reads this, Repr
    {
      && this in Repr && metrics in Repr && this !in runtime.Repr() && metrics !in runtime.Repr()
      && runtime.Repr() <= Repr && matcher in Repr && matcher.Repr <= Repr
      && this !in matcher.Repr && metrics !in matcher.Repr && runtime.Repr() !! matcher.Repr
      && matcher.Valid() && metrics.Valid() && runtime.Valid()
    }

    /** Rules, ids and index agree, and every cached answer is the current trie's. */
    ghost predicate Valid()
      reads this, Repr
    {
      && Parts()
      && SoundLibrary(lib) && Tables(lib, runtime.decoder, rules, ruleIndexById, matcher.view)
      && runtime.Agrees(matcher.view, rules)
    }

    /** An engine without rules, made of fresh parts. */
    constructor (lib: Library, metrics: EvalMetrics, runtime: PayloadRuntime, matcher: TopicTrie.TopicTrie,
                 poolThreads: nat)
      requires SoundLibrary(lib) && metrics.Valid() && runtime.Valid() && matcher.Valid()
      requires metrics !in runtime.Repr() && metrics !in matcher.Repr && runtime.Repr() !! matcher.Repr &&
               matcher in matcher.Repr
      requires runtime.Empty() && matcher.view == T.EMPTY
      ensures Valid() && Repr == {this, metrics} + runtime.Repr() + matcher.Repr
      ensures rules == [] && ruleIndexById == map[]
      ensures this.lib == lib && this.runtime == runtime && this.metrics == metrics
    {
      this.lib, this.metrics, this.runtime, this.matcher := lib, metrics, runtime, matcher;
      rules, ruleIndexById := [], map[];
      this.poolThreads, evalParallelThreshold := poolThreads, DEFAULT_PARALLEL_THRESHOLD;
      Repr := {this, metrics} + runtime.Repr() + matcher.Repr;
      new;
      TablesStart(lib, runtime.decoder);
      runtime.EmptyAgrees(matcher.view, []);
    }

    method AddRule(def: RuleDefinition) returns (r: Result<string, RuleError>)
      requires Valid()
      modifies Repr
      ensures Valid() && fresh(Repr - old(Repr))
      ensures Refusal(lib, runtime.decoder, def) == if r.Err? then Some(r.error) else None
      ensures r.Err? ==> rules == old(rules) && ruleIndexById == old(ruleIndexById)
      ensures r.Ok? ==> exists rule :: CompiledFrom(lib, def, rule) && r.value == rule.id &&
                          rules == old(rules) + [Some(rule)] &&
                          ruleIndexById == old(ruleIndexById)[rule.id := |old(rules)|]
      ensures metrics.counts == old(metrics.counts)
    {
      if !runtime.RequiresSchema() && def.schema.Some? {
        return Err(UnexpectedSchemaName);
      }
      if runtime.RequiresSchema() && def.schema.None? {
        return Err(MissingSchemaName);
      }
      var compiled := CompileRule(lib, def);
      if compiled.Err? {
        return Err(compiled.error);
      }
      Store(compiled.value);
      return Ok(compiled.value.id);
    }

    method ForgetMatches()
      requires Parts()
      modifies runtime.Repr()
      ensures Parts() && runtime.Empty()
    {
      runtime.ClearCache();
    }

    method InsertFilter(filter: string, index: nat)
      requires Parts()
      modifies matcher.Repr, this`Repr
      ensures Parts() && fresh(Repr - old(Repr))
      ensures matcher.view == T.Insert(old(matcher.view), Split(filter, '/'), index)
    {
      matcher.Insert(filter, index);
      Repr := Repr + matcher.Repr;
    }

    method RemoveFilter(filter: string, index: nat)
      requires Parts()
      modifies matcher.Repr, this`Repr
      ensures Parts() && fresh(Repr - old(Repr))
      ensures matcher.view == T.Remove(old(matcher.view), Split(filter, '/'), index)
    {
      matcher.Remove(filter, index);
      Repr := Repr + matcher.Repr;
    }

    /** Stores the rule in the topic index and forgets all cached matches. */
    method IndexRule(filter: string, index: nat)
      requires Parts()
      modifies matcher.Repr, runtime.Repr(), this`Repr
      ensures Parts() && fresh(Repr - old(Repr)) && runtime.Empty()
      ensures matcher.view == T.Insert(old(matcher.view), Split(filter, '/'), index)
    {
      InsertFilter(filter, index);
      ForgetMatches();
    }

    method UnindexRule(filter: string, index: nat)
      requires Parts()
      modifies matcher.Repr, runtime.Repr(), this`Repr
      ensures Parts() && fresh(Repr - old(Repr)) && runtime.Empty()
      ensures matcher.view == T.Remove(old(matcher.view), Split(filter, '/'), index)
    {
      RemoveFilter(filter, index);
      ForgetMatches();
    }

    method SetSlots(slots: Slots, ids: map<string, nat>)
      requires Parts() && runtime.Empty()
      requires SoundLibrary(lib) && Tables(lib, runtime.decoder, slots, ids, matcher.view)
      modifies this`rules, this`ruleIndexById
      ensures Valid() && rules == slots && ruleIndexById == ids
    {
      rules, ruleIndexById := slots, ids;
      runtime.EmptyAgrees(matcher.view, rules);
    }

    /** A compiled rule takes the next slot, and its id now leads there. */
    method Store(rule: CompiledRule)
      requires Valid() && WellCompiled(lib, rule) && (rule.binding.JsonBinding? <==> runtime.decoder.JsonDecoder?)
      modifies Repr
      ensures Valid() && fresh(Repr - old(Repr))
      ensures rules == old(rules) + [Some(rule)] && ruleIndexById == old(ruleIndexById)[rule.id := |old(rules)|]
      ensures metrics.counts == old(metrics.counts)
    {
      TablesAdd(lib, runtime.decoder, rules, ruleIndexById, matcher.view, rule);
      var index := |rules|;
      IndexRule(rule.topicFilter, index);
      SetSlots(rules + [Some(rule)], ruleIndexById[rule.id := index]);
    }

    /** A slot that an id leads to is emptied, and the id forgotten. */
    method Drop(id: string)
      requires Valid() && id in ruleIndexById
      modifies Repr
      ensures Valid() && fresh(Repr - old(Repr))
      ensures rules == old(rules)[old(ruleIndexById)[id] := None] && ruleIndexById == old(ruleIndexById) - {id}
      ensures metrics.counts == old(metrics.counts)
    {
      TablesRemove(lib, runtime.decoder, rules, ruleIndexById, matcher.view, id);
      var index := ruleIndexById[id];
      var slots, ids := rules[index := None], ruleIndexById - {id};
      UnindexRule(rules[index].value.topicFilter, index);
      assert Tables(lib, runtime.decoder, slots, ids, matcher.view);
      SetSlots(slots, ids);
    }

    /** The newest rule with the id leaves its slot empty; all other slots keep their rules and their indexes. */
    method RemoveRule(id: string) returns (removed: bool)
      requires Valid()
      modifies Repr
      ensures Valid() && fresh(Repr - old(Repr))
      ensures removed <==> id in old(ruleIndexById)
      ensures !removed ==> rules == old(rules) && ruleIndexById == old(ruleIndexById)
      ensures removed ==>
                rules == old(rules)[old(ruleIndexById)[id] := None] && ruleIndexById == old(ruleIndexById) - {id}
      ensures metrics.counts == old(metrics.counts)
    {
      if id !in ruleIndexById {
        return false;
      }
      Drop(id);
      return true;
    }

    /** The live rules with their slots and destinations, in slot order. */
    method ListRuleMetadata() returns (metadata: seq<RuleMetadata>)
      ensures forall i: nat, ds :: RuleMetadata(i, ds) in metadata <==>
              Live(rules, i) && rules[i].value.destinations == ds
      ensures forall j, k :: 0 <= j < k < |metadata| ==> metadata[j].ruleIndex < metadata[k].ruleIndex
    {
      metadata := [];
      for n := 0 to |rules|
        invariant forall i: nat, ds :: RuleMetadata(i, ds) in metadata <==>
                  i < n && Live(rules, i) && rules[i].value.destinations == ds
        invariant forall k :: 0 <= k < |metadata| ==> metadata[k].ruleIndex < n
        invariant forall j, k :: 0 <= j < k < |metadata| ==> metadata[j].ruleIndex < metadata[k].ruleIndex
      {
        if Live(rules, n) {
          metadata := metadata + [RuleMetadata(n, rules[n].value.destinations)];
        }
      }
    }

    method SetEvalParallelThreshold(threshold: Option<nat>)
      requires Valid()
      modifies this`evalParallelThreshold
      ensures Valid() && evalParallelThreshold >= 1
      ensures evalParallelThreshold == match threshold
                case None => DEFAULT_PARALLEL_THRESHOLD
                case Some(n) => if n == 0 then 1 else n
    {
      var wanted := match threshold case Some(n) => n case None => DEFAULT_PARALLEL_THRESHOLD;
      evalParallelThreshold := if wanted == 0 then 1 else wanted;
    }

    /** The answer to a message, with every rule that is handed a payload counted once. */
    method Evaluate(message: Message) returns (results: seq<RuleEvaluation>)
      requires Valid()
      modifies runtime.Repr(), metrics
      ensures Valid() && Answers(lib, runtime.decoder, rules, message, results)
      ensures metrics.counts == old(metrics.counts).Plus(MessageCounts(lib, runtime.decoder, rules, message))
    {
      match runtime.decoder
      case JsonDecoder => results := EvaluateJsonMessage(message);
      case ProtobufDecoder => results := EvaluateProtobufMessage(message);
    }

    method MatchRuleIndexesWithCache(topic: string) returns (matched: seq<nat>)
      requires Valid()
      modifies runtime.Repr()
      ensures Valid() && MatchedFor(matcher.view, topic, matched)
    {
      matched := runtime.MatchRuleIndexes(topic, matcher, rules);
    }

    method MatchRuleGroupsWithCache(topic: string) returns (groups: seq<SchemaRuleGroup>)
      requires Valid()
      modifies runtime.Repr()
      ensures Valid() && GroupedFor(matcher.view, rules, topic, groups)
    {
      groups := runtime.MatchSchemaGroups(topic, matcher, rules);
    }

    method EvaluateJsonMessage(message: Message) returns (results: seq<RuleEvaluation>)
      requires Valid() && runtime.decoder.JsonDecoder?
      modifies runtime.Repr(), metrics
      ensures Valid() && Answers(lib, runtime.decoder, rules, message, results)
      ensures metrics.counts == old(metrics.counts).Plus(MessageCounts(lib, runtime.decoder, rules, message))
    {
      var matched := MatchRuleIndexesWithCache(message.topic);
      results := EvaluateMatchedRules(message, matched);
    }

    method EvaluateMatchedRules(message: Message, matched: seq<nat>) returns (results: seq<RuleEvaluation>)
      requires Valid() && runtime.decoder.JsonDecoder? && MatchedFor(matcher.view, message.topic, matched)
      modifies metrics
      ensures Valid() && Answers(lib, runtime.decoder, rules, message, results)
      ensures metrics.counts == old(metrics.counts).Plus(MessageCounts(lib, runtime.decoder, rules, message))
    {
      results := AnswerJson(lib, rules, metrics, message, matched, evalParallelThreshold, poolThreads, matcher.view);
    }

    method EvaluateProtobufMessage(message: Message) returns (results: seq<RuleEvaluation>)
      requires Valid() && runtime.decoder.ProtobufDecoder?
      modifies runtime.Repr(), metrics
      ensures Valid() && Answers(lib, runtime.decoder, rules, message, results)
      ensures metrics.counts == old(metrics.counts).Plus(MessageCounts(lib, runtime.decoder, rules, message))
    {
      var groups := MatchRuleGroupsWithCache(message.topic);
      results := EvaluateRuleGroups(message, groups);
    }

    method EvaluateRuleGroups(message: Message, groups: seq<SchemaRuleGroup>) returns (results: seq<RuleEvaluation>)
      requires Valid() && runtime.decoder.ProtobufDecoder? && GroupedFor(matcher.view, rules, message.topic, groups)
      modifies metrics
      ensures Valid() && Answers(lib, runtime.decoder, rules, message, results)
      ensures metrics.counts == old(metrics.counts).Plus(MessageCounts(lib, runtime.decoder, rules, message))
    {
      results := AnswerProtobuf(lib, rules, metrics, message, groups, evalParallelThreshold, poolThreads, matcher.view);
    }
  }

  method NewEngine(lib: Library, decoder: Decoder, cacheCapacity: nat, poolThreads: nat) returns (engine: RuleEngine)
    requires SoundLibrary(lib)
    ensures engine.Valid() && fresh(engine.Repr)
    ensures engine.rules == [] && engine.ruleIndexById == map[] && engine.lib == lib &&
            engine.runtime.decoder == decoder
    ensures engine.metrics.counts == NOTHING
  {
    var metrics, runtime, matcher := NewParts(decoder, cacheCapacity);
    ghost var parts := {metrics} + runtime.Repr() + matcher.Repr;
    engine := new RuleEngine(lib, metrics, runtime, matcher, poolThreads);
    assert engine.Repr == {engine} + parts;
  }

  method NewParts(decoder: Decoder, cacheCapacity: nat)
    returns (metrics: EvalMetrics, runtime: PayloadRuntime, matcher: TopicTrie.TopicTrie)
    ensures fresh({metrics} + runtime.Repr() + matcher.Repr)
    ensures metrics.Valid() && runtime.Valid() && matcher.Valid() && matcher in matcher.Repr
    ensures metrics !in runtime.Repr() && metrics !in matcher.Repr && runtime.Repr() !! matcher.Repr
    ensures runtime.Empty() && matcher.view == T.EMPTY && runtime.decoder == decoder
    ensures metrics.counts == NOTHING
  {
    matcher := new TopicTrie.TopicTrie();
    metrics := new EvalMetrics();
    runtime := new PayloadRuntime(decoder, cacheCapacity);
  }
}
