/** The engine's specification: a table of rule definitions, without plans, index, caches or shared decoding. */
module EngineSpec {
  import opened Wrappers
  import opened Text
  import opened Topics
  import opened Evaluation
  import opened Rules
  import opened Metrics
  import opened EngineModel

  datatype Table = Table(slots: seq<Option<RuleDefinition>>, ids: map<string, nat>)

  const EMPTY_TABLE := Table([], map[])

  datatype Command = Add(def: RuleDefinition) | Remove(id: string) | Ask(message: Message)
  datatype Reply = Added(id: Result<string, RuleError>) | Removed(found: bool) | Answered(results: seq<RuleEvaluation>)

  predicate Occupied(t: Table, i: nat) {
    i < |t.slots| && t.slots[i].Some?
  }

  // ----- what a command does to the table -----

  ghost function Next(lib: Library, decoder: Decoder, t: Table, command: Command): Table {
    match command
    case Add(def) =>
      if Refusal(lib, decoder, def).Some? then t
      else Table(t.slots + [Some(def)], t.ids[lib.hash(def.expression) := |t.slots|])
    case Remove(id) =>
      if id in t.ids && t.ids[id] < |t.slots| then Table(t.slots[t.ids[id] := None], t.ids - {id}) else t
    case Ask(_) => t
  }

  ghost function After(lib: Library, decoder: Decoder, t: Table, commands: seq<Command>): Table {
    if commands == [] then t
    else Next(lib, decoder, After(lib, decoder, t, commands[..|commands| - 1]), commands[|commands| - 1])
  }

  // ----- what an answer is -----

  /** The definition's own filter matches the topic. */
  ghost predicate Asked(lib: Library, t: Table, i: nat, topic: string) {
    && Occupied(t, i) && lib.parseSql(t.slots[i].value.expression).Ok?
    && FilterMatches(lib.parseSql(t.slots[i].value.expression).value.topicFilter, topic)
  }

  /** Some expression of the definition names a payload key. */
  predicate ReadsPayload(lib: Library, def: RuleDefinition) {
    match lib.parseSql(def.expression)
    case Ok(parsed) => AllMentions(RuleExprs(parsed.select, parsed.whereExpr)) != {}
    case Err(_) => false
  }

  ghost predicate SomeoneReads(lib: Library, t: Table, topic: string) {
    exists i: nat :: Asked(lib, t, i, topic) && ReadsPayload(lib, t.slots[i].value)
  }

  /** The payload by direct path lookup, or decoded for this one rule under its schema. */
  ghost function PayloadOf(lib: Library, decoder: Decoder, t: Table, i: nat, message: Message): Option<FieldLookup>
    requires Occupied(t, i)
  {
    match decoder
    case JsonDecoder =>
      (match ParsedObject(lib, message.payload)
       case Some(entries) => Some(PathLookup(entries))
       case None => if SomeoneReads(lib, t, message.topic) then None else Some(NoFields()))
    case ProtobufDecoder =>
      match t.slots[i].value.schema
      case None => None
      case Some(schema) =>
        match lib.decodeProtobuf(schema, message.payload)
        case Ok(fields) => Some(fields)
        case Err(_) => None
  }

  /** What the text of definition i means for the message. */
  ghost function MeaningOf(lib: Library, decoder: Decoder, t: Table, i: nat, message: Message): Option<Outcome> {
    if !Asked(lib, t, i, message.topic) then None
    else
      match PayloadOf(lib, decoder, t, i, message)
      case None => None
      case Some(fields) =>
        var parsed := lib.parseSql(t.slots[i].value.expression).value;
        Some(RuleMeaning(lib, parsed.select, parsed.whereExpr, EvalContext(message, fields, Split(message.topic, '/'))))
  }

  ghost function OutputFor(lib: Library, decoder: Decoder, t: Table, i: nat, message: Message): Option<Message> {
    match MeaningOf(lib, decoder, t, i, message)
    case Some(Ok(output)) => output
    case _ => None
  }

  /** Exactly the outputs of the table's definitions, none twice. */
  ghost predicate AnswersTable(lib: Library, decoder: Decoder, t: Table, message: Message, results: seq<RuleEvaluation>)
  {
    && DistinctIndexes(results)
    && forall i: nat, output :: RuleEvaluation(i, output) in results <==>
         OutputFor(lib, decoder, t, i, message) == Some(output)
  }

  ghost predicate Replies(lib: Library, decoder: Decoder, t: Table, command: Command, reply: Reply) {
    match command
    case Add(def) =>
      reply == Added(match Refusal(lib, decoder, def) case Some(e) => Err(e) case None => Ok(lib.hash(def.expression)))
    case Remove(id) => reply == Removed(id in t.ids)
    case Ask(message) => reply.Answered? && AnswersTable(lib, decoder, t, message, reply.results)
  }

  /** The definitions a message is evaluated for, those of them that fail, and those with a type error. */
  ghost function Evaluations(lib: Library, decoder: Decoder, t: Table, message: Message): set<nat> {
    set i: nat | i < |t.slots| && MeaningOf(lib, decoder, t, i, message).Some?
  }

  ghost function Errors(lib: Library, decoder: Decoder, t: Table, message: Message): set<nat> {
    set i | i in Evaluations(lib, decoder, t, message) && MeaningOf(lib, decoder, t, i, message).value.Err?
  }

  ghost function TypeErrors(lib: Library, decoder: Decoder, t: Table, message: Message): set<nat> {
    set i | i in Errors(lib, decoder, t, message) && MeaningOf(lib, decoder, t, i, message).value.error.IsTypeError()
  }

  /** The schemas of definitions that are asked under which the payload does not decode. */
  ghost function SchemasAtFault(lib: Library, t: Table, message: Message, kind: PayloadErrorKind): set<string> {
    set i: nat | i < |t.slots| && Asked(lib, t, i, message.topic) && t.slots[i].value.schema.Some? &&
                 SchemaFails(lib, t.slots[i].value.schema.value, message.payload, kind) ::
      t.slots[i].value.schema.value
  }

  ghost function Faults(lib: Library, decoder: Decoder, t: Table, message: Message, kind: PayloadErrorKind): nat {
    match decoder
    case JsonDecoder =>
      if SomeoneReads(lib, t, message.topic) && JsonError(lib, message.payload) == Some(kind) then 1 else 0
    case ProtobufDecoder => |SchemasAtFault(lib, t, message, kind)|
  }

  /** What a command adds to the counters. */
  ghost function CommandCounts(lib: Library, decoder: Decoder, t: Table, command: Command): Counts {
    match command
    case Ask(message) =>
      Counts(|Evaluations(lib, decoder, t, message)|, |Errors(lib, decoder, t, message)|,
             |TypeErrors(lib, decoder, t, message)|,
             Faults(lib, decoder, t, message, SchemaError), Faults(lib, decoder, t, message, DecodeError),
             Faults(lib, decoder, t, message, BuildError))
    case _ => NOTHING
  }

  ghost function RunCounts(lib: Library, decoder: Decoder, t: Table, commands: seq<Command>): Counts {
    if commands == [] then NOTHING
    else
      var n := |commands| - 1;
      var before := After(lib, decoder, t, commands[..n]);
      RunCounts(lib, decoder, t, commands[..n]).Plus(CommandCounts(lib, decoder, before, commands[n]))
  }

  /** Every reply is the one the table gives after the commands before it. */
  ghost predicate Conversation(lib: Library, decoder: Decoder, t: Table, commands: seq<Command>, replies: seq<Reply>) {
    && |replies| == |commands|
    && forall k :: 0 <= k < |commands| ==>
         Replies(lib, decoder, After(lib, decoder, t, commands[..k]), commands[k], replies[k])
  }

  lemma AfterNext(lib: Library, decoder: Decoder, t: Table, commands: seq<Command>, n: nat)
    requires n < |commands|
    ensures var before, now, c := After(lib, decoder, t, commands[..n]), commands[..n + 1], commands[n];
            && After(lib, decoder, t, now) == Next(lib, decoder, before, c)
            && RunCounts(lib, decoder, t, now) ==
                 RunCounts(lib, decoder, t, commands[..n]).Plus(CommandCounts(lib, decoder, before, c))
  {
    assert commands[..n + 1][..n] == commands[..n];
  }

  lemma ConversationGrows(lib: Library, decoder: Decoder, t: Table, commands: seq<Command>, replies: seq<Reply>,
                          n: nat, reply: Reply)
    requires n < |commands| && Conversation(lib, decoder, t, commands[..n], replies)
    requires Replies(lib, decoder, After(lib, decoder, t, commands[..n]), commands[n], reply)
    ensures Conversation(lib, decoder, t, commands[..n + 1], replies + [reply])
  {
    forall k | 0 <= k <= n
      ensures Replies(lib, decoder, After(lib, decoder, t, commands[..n + 1][..k]), commands[..n + 1][k],
                      (replies + [reply])[k])
    {
      assert commands[..n + 1][..k] == commands[..k] && commands[..n + 1][k] == commands[k];
      if k < n {
        assert commands[..n][..k] == commands[..k] && commands[..n][k] == commands[k] &&
               (replies + [reply])[k] == replies[k];
      } else {
        assert (replies + [reply])[k] == reply;
      }
    }
  }

  // ----- the specification fixes every reply up to the order of results -----

  ghost predicate SameReply(a: Reply, b: Reply) {
    if a.Answered? && b.Answered? then
      |a.results| == |b.results| && forall r :: r in a.results <==> r in b.results
    else a == b
  }

  lemma RepliesAgree(lib: Library, decoder: Decoder, t: Table, command: Command, a: Reply, b: Reply)
    requires Replies(lib, decoder, t, command, a) && Replies(lib, decoder, t, command, b)
    ensures SameReply(a, b)
  {
    if command.Ask? {
      forall r ensures r in a.results <==> r in b.results {
        assert r == RuleEvaluation(r.ruleIndex, r.message);
      }
      IndexesCount(a.results);
      IndexesCount(b.results);
      assert IndexesOf(a.results) == IndexesOf(b.results);
    }
  }

  // ----- rules answer independently of each other -----

  ghost function Alone(t: Table, i: nat): Table
    requires Occupied(t, i)
  {
    Table([t.slots[i]], map[])
  }

  /** A rule means among others what it means alone, with one exception: a JSON payload that is no object is
      withheld from a rule that reads none of it when another rule that is asked reads it. */
  lemma AnsweredAlone(lib: Library, decoder: Decoder, t: Table, i: nat, message: Message)
    requires Occupied(t, i)
    ensures MeaningOf(lib, decoder, t, i, message) == MeaningOf(lib, decoder, Alone(t, i), 0, message) <==>
            !(decoder.JsonDecoder? && ParsedObject(lib, message.payload).None? && Asked(lib, t, i, message.topic) &&
              !ReadsPayload(lib, t.slots[i].value) && SomeoneReads(lib, t, message.topic))
  {
    var single := Alone(t, i);
    assert Asked(lib, single, 0, message.topic) <==> Asked(lib, t, i, message.topic);
    assert SomeoneReads(lib, single, message.topic) <==>
           Asked(lib, t, i, message.topic) && ReadsPayload(lib, t.slots[i].value) by {
      assert forall j: nat :: Occupied(single, j) ==> j == 0;
    }
    if Asked(lib, t, i, message.topic) {
      PayloadAlone(lib, decoder, t, i, message);
    }
  }

  lemma PayloadAlone(lib: Library, decoder: Decoder, t: Table, i: nat, message: Message)
    requires Occupied(t, i) && Asked(lib, t, i, message.topic)
    ensures PayloadOf(lib, decoder, t, i, message).Some? && PayloadOf(lib, decoder, Alone(t, i), 0, message).Some? ==>
              PayloadOf(lib, decoder, t, i, message) == PayloadOf(lib, decoder, Alone(t, i), 0, message)
    ensures decoder.ProtobufDecoder? ==>
              PayloadOf(lib, decoder, t, i, message) == PayloadOf(lib, decoder, Alone(t, i), 0, message)
  {}

  // ----- slots over whole runs -----

  /** Ids lead to occupied slots whose definitions hash to them. */
  ghost predicate SoundTable(lib: Library, t: Table) {
    forall id :: id in t.ids ==> Occupied(t, t.ids[id]) && lib.hash(t.slots[t.ids[id]].value.expression) == id
  }

  /** The definition's id leads to this slot. */
  ghost predicate Removable(lib: Library, t: Table, i: nat) {
    && Occupied(t, i)
    && lib.hash(t.slots[i].value.expression) in t.ids && t.ids[lib.hash(t.slots[i].value.expression)] == i
  }

  lemma NextKeepsSlots(lib: Library, decoder: Decoder, t: Table, command: Command)
    requires SoundTable(lib, t)
    ensures var t' := Next(lib, decoder, t, command);
            && SoundTable(lib, t') && |t.slots| <= |t'.slots|
            && (forall i: nat :: i < |t.slots| && t.slots[i].None? ==> t'.slots[i].None?)
            && (forall i: nat :: Occupied(t, i) && Occupied(t', i) ==> t'.slots[i] == t.slots[i])
            && (forall i: nat :: Occupied(t, i) && !Removable(lib, t, i) ==> Occupied(t', i) && !Removable(lib, t', i))
  {
    var t' := Next(lib, decoder, t, command);
    forall id | id in t'.ids ensures Occupied(t', t'.ids[id]) && lib.hash(t'.slots[t'.ids[id]].value.expression) == id {
      if id in t.ids {
        assert Occupied(t, t.ids[id]) && lib.hash(t.slots[t.ids[id]].value.expression) == id;
      }
    }
    if command.Remove? && command.id in t.ids {
      assert Removable(lib, t, t.ids[command.id]);
    }
  }

  /** Over any run no rule moves to another slot, and an emptied slot stays empty: a slot index names one rule
      for ever. */
  lemma {:induction false} SlotsNeverMove(lib: Library, decoder: Decoder, t: Table, commands: seq<Command>)
    requires SoundTable(lib, t)
    ensures var t' := After(lib, decoder, t, commands);
            && SoundTable(lib, t') && |t.slots| <= |t'.slots|
            && (forall i: nat :: i < |t.slots| && t.slots[i].None? ==> t'.slots[i].None?)
            && (forall i: nat :: Occupied(t, i) && Occupied(t', i) ==> t'.slots[i] == t.slots[i])
            && (forall i: nat :: Occupied(t, i) && !Removable(lib, t, i) ==> Occupied(t', i) && !Removable(lib, t', i))
  {
    if commands != [] {
      var n := |commands| - 1;
      SlotsNeverMove(lib, decoder, t, commands[..n]);
      NextKeepsSlots(lib, decoder, After(lib, decoder, t, commands[..n]), commands[n]);
    }
  }

  /** Some run removes a rule exactly when its id leads to its slot. A rule whose id was taken by a newer rule
      answers for ever. */
  lemma RemovableIff(lib: Library, decoder: Decoder, t: Table, i: nat)
    requires SoundTable(lib, t) && Occupied(t, i)
    ensures Removable(lib, t, i) <==> exists commands :: !Occupied(After(lib, decoder, t, commands), i)
  {
    if Removable(lib, t, i) {
      var commands := [Remove(lib.hash(t.slots[i].value.expression))];
      assert commands[..0] == [];
      assert !Occupied(After(lib, decoder, t, commands), i);
    } else {
      forall commands ensures Occupied(After(lib, decoder, t, commands), i) {
        SlotsNeverMove(lib, decoder, t, commands);
      }
    }
  }

  /** A command leaves a removable rule in place but unremovable exactly when it is the accepted addition of a
      definition with the same id. */
  lemma TwinsStrand(lib: Library, decoder: Decoder, t: Table, i: nat, command: Command)
    requires SoundTable(lib, t) && Removable(lib, t, i)
    ensures var t' := Next(lib, decoder, t, command);
            Occupied(t', i) && !Removable(lib, t', i) <==>
            && command.Add? && Refusal(lib, decoder, command.def).None?
            && lib.hash(command.def.expression) == lib.hash(t.slots[i].value.expression)
  {
    if command.Remove? && command.id in t.ids && t.ids[command.id] != i {
      assert lib.hash(t.slots[t.ids[command.id]].value.expression) == command.id;
    }
  }

  // ----- the engine's tables implement it -----

  /** The slots hold the compiled forms of the definitions, the ids are the same. */
  ghost predicate Implements(lib: Library, t: Table, rules: Slots, ids: map<string, nat>) {
    && ids == t.ids && |rules| == |t.slots|
    && forall i: nat :: i < |rules| ==>
         (rules[i].Some? <==> t.slots[i].Some?) &&
         (rules[i].Some? ==> CompiledFrom(lib, t.slots[i].value, rules[i].value))
  }

  /** An accepted definition's compiled rule implements its new slot. */
  lemma AddImplements(lib: Library, decoder: Decoder, t: Table, rules: Slots, ids: map<string, nat>,
                      def: RuleDefinition, rule: CompiledRule)
    requires Implements(lib, t, rules, ids) && CompiledFrom(lib, def, rule) && Refusal(lib, decoder, def).None?
    ensures Implements(lib, Next(lib, decoder, t, Add(def)), rules + [Some(rule)], ids[rule.id := |rules|])
    ensures Replies(lib, decoder, t, Add(def), Added(Ok(rule.id)))
  {
    assert Next(lib, decoder, t, Add(def)) == Table(t.slots + [Some(def)], t.ids[rule.id := |rules|]);
  }

  lemma RefusalReplies(lib: Library, decoder: Decoder, t: Table, def: RuleDefinition, error: RuleError)
    requires Refusal(lib, decoder, def) == Some(error)
    ensures Next(lib, decoder, t, Add(def)) == t && Replies(lib, decoder, t, Add(def), Added(Err(error)))
  {}

  lemma RemoveImplements(lib: Library, decoder: Decoder, t: Table, rules: Slots, ids: map<string, nat>, id: string)
    requires Implements(lib, t, rules, ids) && id in ids && ids[id] < |rules|
    ensures Implements(lib, Next(lib, decoder, t, Remove(id)), rules[ids[id] := None], ids - {id})
  {}

  lemma AppliesIsAsked(lib: Library, t: Table, rules: Slots, ids: map<string, nat>, topic: string)
    requires Implements(lib, t, rules, ids)
    ensures forall i: nat :: Applies(rules, i, topic) <==> Asked(lib, t, i, topic)
    ensures NeedsPayload(rules, topic) <==> SomeoneReads(lib, t, topic)
  {
    assert forall i: nat :: Live(rules, i) ==> CompiledFrom(lib, t.slots[i].value, rules[i].value);
    forall i: nat | Live(rules, i)
      ensures rules[i].value.requiredFields != [] <==> ReadsPayload(lib, t.slots[i].value)
    {
      FieldsAreReads(lib, t.slots[i].value, rules[i].value);
    }
  }

  lemma FieldsAreReads(lib: Library, def: RuleDefinition, rule: CompiledRule)
    requires CompiledFrom(lib, def, rule)
    ensures rule.requiredFields != [] <==> ReadsPayload(lib, def)
  {
    var keys := AllMentions(RuleExprs(rule.select, rule.whereExpr));
    assert KeysOf(rule.requiredFields, keys);
    if rule.requiredFields != [] {
      assert rule.requiredFields[0].key in keys;
    }
    if keys != {} {
      var k :| k in keys;
    }
  }

  lemma PayloadsAgree(lib: Library, decoder: Decoder, t: Table, rules: Slots, ids: map<string, nat>, message: Message,
                      i: nat)
    requires Implements(lib, t, rules, ids) && Live(rules, i)
    ensures Occupied(t, i) && PayloadFor(lib, decoder, rules, i, message) == PayloadOf(lib, decoder, t, i, message)
  {
    AppliesIsAsked(lib, t, rules, ids, message.topic);
    assert CompiledFrom(lib, t.slots[i].value, rules[i].value);
    match decoder
    case JsonDecoder =>
    case ProtobufDecoder =>
      var schema := t.slots[i].value.schema;
      match schema
      case None =>
      case Some(name) => assert rules[i].value.binding == ProtobufBinding(name);
  }

  /** Compiled slots mean what the texts of their definitions mean. */
  lemma MeaningsAgree(lib: Library, decoder: Decoder, t: Table, rules: Slots, ids: map<string, nat>, message: Message,
                      i: nat)
    requires Implements(lib, t, rules, ids)
    ensures MeaningFor(lib, decoder, rules, i, message) == MeaningOf(lib, decoder, t, i, message)
  {
    AppliesIsAsked(lib, t, rules, ids, message.topic);
    if Applies(rules, i, message.topic) {
      PayloadsAgree(lib, decoder, t, rules, ids, message, i);
      var rule := rules[i].value;
      assert lib.parseSql(t.slots[i].value.expression) == Ok(ParsedRule(rule.topicFilter, rule.select, rule.whereExpr));
    }
  }

  /** An engine's answer to a message is a reply of the table, with the same evaluations and errors. */
  lemma AnswersAgree(lib: Library, decoder: Decoder, t: Table, rules: Slots, ids: map<string, nat>, message: Message,
                     results: seq<RuleEvaluation>)
    requires Implements(lib, t, rules, ids) && Answers(lib, decoder, rules, message, results)
    ensures Replies(lib, decoder, t, Ask(message), Answered(results))
    ensures MessageCounts(lib, decoder, rules, message) == CommandCounts(lib, decoder, t, Ask(message))
  {
    forall i: nat ensures MeaningFor(lib, decoder, rules, i, message) == MeaningOf(lib, decoder, t, i, message) {
      MeaningsAgree(lib, decoder, t, rules, ids, message, i);
    }
    assert EvaluatedRules(lib, decoder, rules, message) == Evaluations(lib, decoder, t, message);
    assert FailedRules(lib, decoder, rules, message) == Errors(lib, decoder, t, message);
    assert TypeFailedRules(lib, decoder, rules, message) == TypeErrors(lib, decoder, t, message);
    FaultsAgree(lib, decoder, t, rules, ids, message, SchemaError);
    FaultsAgree(lib, decoder, t, rules, ids, message, DecodeError);
    FaultsAgree(lib, decoder, t, rules, ids, message, BuildError);
  }

  lemma FaultsAgree(lib: Library, decoder: Decoder, t: Table, rules: Slots, ids: map<string, nat>, message: Message,
                    kind: PayloadErrorKind)
    requires Implements(lib, t, rules, ids)
    ensures PayloadErrors(lib, decoder, rules, message, kind) == Faults(lib, decoder, t, message, kind)
  {
    AppliesIsAsked(lib, t, rules, ids, message.topic);
    var failed, faulty := FailedSchemas(lib, rules, message, kind), SchemasAtFault(lib, t, message, kind);
    forall i: nat | Applies(rules, i, message.topic)
      ensures rules[i].value.binding.ProtobufBinding? <==> t.slots[i].value.schema.Some?
      ensures rules[i].value.binding.ProtobufBinding? ==> rules[i].value.binding.schema == t.slots[i].value.schema.value
    {
      assert CompiledFrom(lib, t.slots[i].value, rules[i].value);
    }
    assert failed == faulty;
  }
}
