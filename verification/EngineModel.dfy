/** The engine's tables as values, and the simple specification its answers are held to. */
module EngineModel {
  import opened Wrappers
  import opened Text
  import opened Topics
  import T = TrieModel
  import opened Doubles
  import opened Values
  import opened Evaluation
  import opened EvaluationProofs
  import opened Rules
  import opened MsgIr
  import opened Metrics

  type Slots = seq<Option<CompiledRule>>

  datatype Decoder = JsonDecoder | ProtobufDecoder

  predicate Live(rules: Slots, i: nat) {
    i < |rules| && rules[i].Some?
  }

  /** Why a definition is refused: its schema does not fit the payload format, or the definition is rejected. */
  function Refusal(lib: Library, decoder: Decoder, def: RuleDefinition): Option<RuleError> {
    if decoder.JsonDecoder? && def.schema.Some? then Some(UnexpectedSchemaName)
    else if decoder.ProtobufDecoder? && def.schema.None? then Some(MissingSchemaName)
    else Rejection(lib, def)
  }

  // ----- the specification of an answer -----

  /** A live rule whose filter matches the topic. */
  ghost predicate Applies(rules: Slots, i: nat, topic: string) {
    Live(rules, i) && FilterMatches(rules[i].value.topicFilter, topic)
  }

  /** Some rule that applies reads the payload. */
  ghost predicate NeedsPayload(rules: Slots, topic: string) {
    exists i: nat :: Applies(rules, i, topic) && rules[i].value.requiredFields != []
  }

  function ParsedObject(lib: Library, payload: Bytes): Option<seq<(string, Json)>> {
    match lib.parseJson(payload)
    case Some(Object(entries)) => Some(entries)
    case _ => None
  }

  /** A parsed object read by dotted paths. */
  function PathLookup(entries: seq<(string, Json)>): FieldLookup {
    key => FieldAtPath(entries, key)
  }

  function NoFields(): FieldLookup {
    key => None
  }

  /** The payload as rule i reads it, by direct path lookup; None when the message is dropped for it. A JSON
      payload is not even parsed when no rule that applies reads it. */
  ghost function PayloadFor(lib: Library, decoder: Decoder, rules: Slots, i: nat, message: Message): Option<FieldLookup>
    requires Live(rules, i)
  {
    match decoder
    case JsonDecoder =>
      (match ParsedObject(lib, message.payload)
       case Some(entries) => Some(PathLookup(entries))
       case None => if NeedsPayload(rules, message.topic) then None else Some(NoFields()))
    case ProtobufDecoder =>
      match rules[i].value.binding
      case JsonBinding => None
      case ProtobufBinding(schema) =>
        match lib.decodeProtobuf(schema, message.payload)
        case Ok(fields) => Some(fields)
        case Err(_) => None
  }

  /** What rule i alone means for a message; None when it does not apply or is not handed a payload. */
  ghost function MeaningFor(lib: Library, decoder: Decoder, rules: Slots, i: nat, message: Message): Option<Outcome> {
    if !Applies(rules, i, message.topic) then None
    else
      match PayloadFor(lib, decoder, rules, i, message)
      case None => None
      case Some(fields) =>
        Some(RuleMeaning(lib, rules[i].value.select, rules[i].value.whereExpr,
                         EvalContext(message, fields, Split(message.topic, '/'))))
  }

  /** The message rule i alone yields, if any. */
  ghost function Expected(lib: Library, decoder: Decoder, rules: Slots, i: nat, message: Message): Option<Message> {
    match MeaningFor(lib, decoder, rules, i, message)
    case Some(Ok(output)) => output
    case _ => None
  }

  /** The rules a message is evaluated for: those that apply and are handed a payload. */
  ghost function EvaluatedRules(lib: Library, decoder: Decoder, rules: Slots, message: Message): set<nat> {
    set i: nat | i < |rules| && MeaningFor(lib, decoder, rules, i, message).Some?
  }

  /** The rules whose evaluation is an error. */
  ghost function FailedRules(lib: Library, decoder: Decoder, rules: Slots, message: Message): set<nat> {
    set i: nat | i < |rules| && MeaningFor(lib, decoder, rules, i, message).Some? &&
        MeaningFor(lib, decoder, rules, i, message).value.Err?
  }

  /** Those of them with a type error. */
  ghost function TypeFailedRules(lib: Library, decoder: Decoder, rules: Slots, message: Message): set<nat> {
    set i | i in FailedRules(lib, decoder, rules, message) &&
            MeaningFor(lib, decoder, rules, i, message).value.error.IsTypeError()
  }

  /** The rules whose predicate is false. */
  ghost function RejectingRules(lib: Library, decoder: Decoder, rules: Slots, message: Message): set<nat> {
    set i: nat | i < |rules| && MeaningFor(lib, decoder, rules, i, message) == Some(Ok(None))
  }

  /** What keeps a payload from being a JSON object. */
  function JsonError(lib: Library, payload: Bytes): Option<PayloadErrorKind> {
    match lib.parseJson(payload)
    case None => Some(DecodeError)
    case Some(j) => if j.Object? then None else Some(BuildError)
  }

  /** The payload does not decode under the schema, for a reason of this kind. */
  predicate SchemaFails(lib: Library, schema: string, payload: Bytes, kind: PayloadErrorKind) {
    lib.decodeProtobuf(schema, payload).Err? && lib.decodeProtobuf(schema, payload).error == kind
  }

  /** The schemas of rules that apply under which the payload does not decode. */
  ghost function FailedSchemas(lib: Library, rules: Slots, message: Message, kind: PayloadErrorKind): set<string> {
    set i: nat | i < |rules| && Applies(rules, i, message.topic) && rules[i].value.binding.ProtobufBinding? &&
                 SchemaFails(lib, rules[i].value.binding.schema, message.payload, kind) ::
      rules[i].value.binding.schema
  }

  /** A JSON payload is at fault at most once, and only when it is needed; a protobuf payload once a schema. */
  ghost function PayloadErrors(lib: Library, decoder: Decoder, rules: Slots, message: Message,
                               kind: PayloadErrorKind): nat
  {
    match decoder
    case JsonDecoder =>
      if NeedsPayload(rules, message.topic) && JsonError(lib, message.payload) == Some(kind) then 1 else 0
    case ProtobufDecoder => |FailedSchemas(lib, rules, message, kind)|
  }

  /** What a message adds to the counters. */
  ghost function MessageCounts(lib: Library, decoder: Decoder, rules: Slots, message: Message): Counts {
    Counts(|EvaluatedRules(lib, decoder, rules, message)|, |FailedRules(lib, decoder, rules, message)|,
           |TypeFailedRules(lib, decoder, rules, message)|, PayloadErrors(lib, decoder, rules, message, SchemaError),
           PayloadErrors(lib, decoder, rules, message, DecodeError),
           PayloadErrors(lib, decoder, rules, message, BuildError))
  }

  datatype RuleMetadata = RuleMetadata(ruleIndex: nat, destinations: seq<string>)

  datatype RuleEvaluation = RuleEvaluation(ruleIndex: nat, message: Message)

  ghost predicate DistinctIndexes(results: seq<RuleEvaluation>) {
    forall i, j :: 0 <= i < j < |results| ==> results[i].ruleIndex != results[j].ruleIndex
  }

  /** The answer holds exactly the expected outputs, no rule twice. */
  ghost predicate Answers(lib: Library, decoder: Decoder, rules: Slots, message: Message, results: seq<RuleEvaluation>)
  {
    && DistinctIndexes(results)
    && forall i: nat, output :: RuleEvaluation(i, output) in results <==>
         Expected(lib, decoder, rules, i, message) == Some(output)
  }

  /** Nothing is the answer when no rule means anything for the message. */
  lemma NothingToAnswer(lib: Library, decoder: Decoder, rules: Slots, message: Message)
    requires forall i: nat :: MeaningFor(lib, decoder, rules, i, message).None?
    ensures Answers(lib, decoder, rules, message, [])
    ensures EvaluatedRules(lib, decoder, rules, message) == FailedRules(lib, decoder, rules, message) ==
            TypeFailedRules(lib, decoder, rules, message) == {}
  {}

  /** Every evaluated rule gives one result, is an error, or has a false predicate. */
  lemma AnswersAddUp(lib: Library, decoder: Decoder, rules: Slots, message: Message, results: seq<RuleEvaluation>)
    requires Answers(lib, decoder, rules, message, results)
    ensures |EvaluatedRules(lib, decoder, rules, message)| ==
            |results| + |FailedRules(lib, decoder, rules, message)| + |RejectingRules(lib, decoder, rules, message)|
  {
    var evaluated, failed := EvaluatedRules(lib, decoder, rules, message), FailedRules(lib, decoder, rules, message);
    var rejecting, answered := RejectingRules(lib, decoder, rules, message), IndexesOf(results);
    forall i: nat ensures i in answered <==> i in evaluated && i !in failed && i !in rejecting {
      if i in answered {
        var r :| r in results && r.ruleIndex == i;
        assert r == RuleEvaluation(i, r.message);
      }
      if i in evaluated && i !in failed && i !in rejecting {
        assert RuleEvaluation(i, MeaningFor(lib, decoder, rules, i, message).value.value.value) in results;
      }
    }
    assert evaluated == answered + failed + rejecting && answered !! failed && answered !! rejecting &&
           failed !! rejecting;
    assert |evaluated| == |answered + failed| + |rejecting|;
    IndexesCount(results);
  }

  ghost function IndexesOf(results: seq<RuleEvaluation>): set<nat> {
    set r | r in results :: r.ruleIndex
  }

  lemma {:induction false} IndexesCount(results: seq<RuleEvaluation>)
    requires DistinctIndexes(results)
    ensures |IndexesOf(results)| == |results|
  {
    if results != [] {
      var n := |results| - 1;
      IndexesCount(results[..n]);
      assert IndexesOf(results) == IndexesOf(results[..n]) + {results[n].ruleIndex};
    }
  }

  // ----- libraries -----

  /** Parsers deliver finite doubles, and objects without repeated keys. */
  ghost predicate SoundLibrary(lib: Library) {
    && (forall b :: lib.parseJson(b).Some? ==> SoundJson(lib.parseJson(b).value))
    && (forall s, b :: lib.decodeProtobuf(s, b).Ok? ==> FiniteLookup(lib.decodeProtobuf(s, b).value))
  }

  lemma {:induction false} WalkIsSound(j: Json, segments: seq<string>)
    requires SoundJson(j) && Walk(j, segments).Some?
    ensures SoundJson(Walk(j, segments).value)
    decreases |segments|
  {
    if segments != [] {
      WalkIsSound(Get(j.entries, segments[0]).value, segments[1..]);
    }
  }

  lemma LookupIsFinite(entries: seq<(string, Json)>)
    requires SoundJson(Object(entries))
    ensures FiniteLookup(PathLookup(entries))
  {
    forall k | FieldAtPath(entries, k).Some? && FieldAtPath(entries, k).value.PNumber?
      ensures MaybeDouble(FieldAtPath(entries, k).value.number)
    {
      var found := LookupPath(entries, Split(k, '.'));
      assert found == Walk(Object(entries), Split(k, '.'));
      WalkIsSound(Object(entries), Split(k, '.'));
      FromJsonIsSound(found.value);
    }
  }

  // ----- the trie against the slots -----

  ghost predicate Holds(trie: T.Trie, path: seq<string>, i: nat) {
    i in T.At(trie, path)
  }

  ghost function HomeOf(rule: CompiledRule): seq<string> {
    Cut(Split(rule.topicFilter, '/'))
  }

  /** Live rules are stored under their cut filters, and only there; what else is stored is dead. */
  ghost predicate Indexed(rules: Slots, trie: T.Trie) {
    && (forall i: nat :: Live(rules, i) ==> Holds(trie, HomeOf(rules[i].value), i))
    && (forall path, i: nat :: Holds(trie, path, i) ==>
        i < |rules| && (Live(rules, i) ==> path == HomeOf(rules[i].value)))
  }

  lemma AddKeepsIndexed(rules: Slots, trie: T.Trie, rule: CompiledRule)
    requires Indexed(rules, trie)
    ensures Indexed(rules + [Some(rule)], T.Insert(trie, Split(rule.topicFilter, '/'), |rules|))
  {
    var levels := Split(rule.topicFilter, '/');
    var rules', trie' := rules + [Some(rule)], T.Insert(trie, levels, |rules|);
    forall path, i: nat
      ensures Holds(trie', path, i) <==> Holds(trie, path, i) || (path == Cut(levels) && i == |rules|)
    {
      T.AtInsert(trie, levels, |rules|, path);
    }
    forall i: nat | Live(rules', i) && i < |rules| ensures Live(rules, i) && rules'[i] == rules[i] {}
  }

  lemma RemoveKeepsIndexed(rules: Slots, trie: T.Trie, index: nat)
    requires Indexed(rules, trie) && Live(rules, index)
    ensures Indexed(rules[index := None], T.Remove(trie, Split(rules[index].value.topicFilter, '/'), index))
  {
    var levels := Split(rules[index].value.topicFilter, '/');
    var rules', trie' := rules[index := None], T.Remove(trie, levels, index);
    forall path, i: nat
      ensures Holds(trie', path, i) <==> Holds(trie, path, i) && !(path == levels && i == index)
    {
      T.AtRemove(trie, levels, index, path);
    }
    forall i: nat | Live(rules', i) ensures Live(rules, i) && rules'[i] == rules[i] && i != index {}
  }

  /** The trie finds a live rule exactly when the rule's filter matches the topic. */
  lemma IndexFindsLiveRules(rules: Slots, trie: T.Trie, topic: string, i: nat)
    requires Indexed(rules, trie)
    ensures Live(rules, i) ==>
              (T.StoredFor(trie, Split(topic, '/'), i) <==> FilterMatches(rules[i].value.topicFilter, topic))
    ensures T.StoredFor(trie, Split(topic, '/'), i) ==> i < |rules|
  {
    if Live(rules, i) {
      var levels := Split(rules[i].value.topicFilter, '/');
      CutFacts(levels, Split(topic, '/'));
      assert Holds(trie, Cut(levels), i);
    }
    if T.StoredFor(trie, Split(topic, '/'), i) {
      var path :| i in T.At(trie, path) && LevelsMatch(path, Split(topic, '/'));
      assert Holds(trie, path, i);
    }
  }

  // ----- attempts -----

  type Attempt = (nat, Outcome)

  /** The rules among the indexes that are live, evaluated in order. */
  function Attempts(lib: Library, rules: Slots, ctx: EvalContext, indexes: seq<nat>): seq<Attempt> {
    if indexes == [] then []
    else
      var n := |indexes| - 1;
      Attempts(lib, rules, ctx, indexes[..n]) +
      if Live(rules, indexes[n]) then [(indexes[n], EvalRule(lib, rules[indexes[n]].value, ctx))] else []
  }

  function OutputOf(attempt: Attempt): seq<RuleEvaluation> {
    if attempt.1.Ok? && attempt.1.value.Some? then [RuleEvaluation(attempt.0, attempt.1.value.value)] else []
  }

  function Outputs(attempts: seq<Attempt>): seq<RuleEvaluation> {
    if attempts == [] then [] else Outputs(attempts[..|attempts| - 1]) + OutputOf(attempts[|attempts| - 1])
  }

  lemma OutputsAppend(attempts: seq<Attempt>, last: Attempt)
    ensures Outputs(attempts + [last]) == Outputs(attempts) + OutputOf(last)
  {
    assert (attempts + [last])[..|attempts|] == attempts;
  }

  function Count(attempts: seq<Attempt>, p: Attempt -> bool): nat {
    if attempts == [] then 0
    else Count(attempts[..|attempts| - 1], p) + if p(attempts[|attempts| - 1]) then 1 else 0
  }

  lemma CountAppend(attempts: seq<Attempt>, last: Attempt, p: Attempt -> bool)
    ensures Count(attempts + [last], p) == Count(attempts, p) + if p(last) then 1 else 0
  {
    assert (attempts + [last])[..|attempts|] == attempts;
  }

  predicate Failed(attempt: Attempt) {
    attempt.1.Err?
  }

  predicate TypeFailed(attempt: Attempt) {
    attempt.1.Err? && attempt.1.error.IsTypeError()
  }

  predicate Rejected(attempt: Attempt) {
    attempt.1 == Ok(None)
  }

  /** What a list of attempts adds to the counters. */
  function AttemptCounts(attempts: seq<Attempt>): Counts {
    NOTHING.(evals := |attempts|, errors := Count(attempts, Failed), typeErrors := Count(attempts, TypeFailed))
  }

  /** Every attempt yields a result, a failure or a false predicate. */
  lemma {:induction false} AttemptsAddUp(attempts: seq<Attempt>)
    ensures |Outputs(attempts)| + Count(attempts, Failed) + Count(attempts, Rejected) == |attempts|
    ensures Count(attempts, TypeFailed) <= Count(attempts, Failed)
  {
    if attempts != [] {
      AttemptsAddUp(attempts[..|attempts| - 1]);
    }
  }

  /** Evaluating in any consecutive chunks and concatenating gives the sequential attempts. */
  lemma {:induction false} AttemptsConcat(lib: Library, rules: Slots, ctx: EvalContext, a: seq<nat>, b: seq<nat>)
    ensures Attempts(lib, rules, ctx, a + b) == Attempts(lib, rules, ctx, a) + Attempts(lib, rules, ctx, b)
    decreases |b|
  {
    if b == [] {
      assert a + b == a;
    } else {
      var n := |b| - 1;
      AttemptsConcat(lib, rules, ctx, a, b[..n]);
      assert (a + b)[..|a + b| - 1] == a + b[..n];
    }
  }

  lemma OutputsNext(lib: Library, rules: Slots, ctx: EvalContext, indexes: seq<nat>)
    requires indexes != []
    ensures var n := |indexes| - 1;
            Outputs(Attempts(lib, rules, ctx, indexes)) == Outputs(Attempts(lib, rules, ctx, indexes[..n])) +
              if Live(rules, indexes[n]) then OutputOf((indexes[n], EvalRule(lib, rules[indexes[n]].value, ctx)))
              else []
  {
    var n := |indexes| - 1;
    if Live(rules, indexes[n]) {
      OutputsAppend(Attempts(lib, rules, ctx, indexes[..n]), (indexes[n], EvalRule(lib, rules[indexes[n]].value, ctx)));
    } else {
      assert Attempts(lib, rules, ctx, indexes) == Attempts(lib, rules, ctx, indexes[..n]);
    }
  }

  lemma OutputOfHolds(attempt: Attempt, i: nat, output: Message)
    ensures RuleEvaluation(i, output) in OutputOf(attempt) <==> attempt == (i, Ok(Some(output)))
  {}

  lemma {:induction false} OutputsAre(lib: Library, rules: Slots, ctx: EvalContext, indexes: seq<nat>, i: nat,
                                      output: Message)
    ensures RuleEvaluation(i, output) in Outputs(Attempts(lib, rules, ctx, indexes)) <==>
            i in indexes && Live(rules, i) && EvalRule(lib, rules[i].value, ctx) == Ok(Some(output))
  {
    if indexes != [] {
      var n := |indexes| - 1;
      OutputsAre(lib, rules, ctx, indexes[..n], i, output);
      OutputsNext(lib, rules, ctx, indexes);
      assert i in indexes <==> i in indexes[..n] || i == indexes[n];
      if Live(rules, indexes[n]) {
        OutputOfHolds((indexes[n], EvalRule(lib, rules[indexes[n]].value, ctx)), i, output);
      }
    }
  }

  lemma {:induction false} OutputsAreDistinct(lib: Library, rules: Slots, ctx: EvalContext, indexes: seq<nat>)
    requires NoDuplicates(indexes)
    ensures DistinctIndexes(Outputs(Attempts(lib, rules, ctx, indexes)))
  {
    if indexes != [] {
      var n := |indexes| - 1;
      OutputsAreDistinct(lib, rules, ctx, indexes[..n]);
      OutputsNext(lib, rules, ctx, indexes);
      var rest := Outputs(Attempts(lib, rules, ctx, indexes[..n]));
      forall k | 0 <= k < |rest| ensures rest[k].ruleIndex != indexes[n] {
        OutputsAre(lib, rules, ctx, indexes[..n], rest[k].ruleIndex, rest[k].message);
        assert rest[k] == RuleEvaluation(rest[k].ruleIndex, rest[k].message) && rest[k] in rest;
      }
    }
  }

  // ----- an attempt against the specification -----

  /** Every live rule is well compiled and bound to the engine's payload format. */
  ghost predicate SoundSlots(lib: Library, decoder: Decoder, rules: Slots) {
    forall i: nat :: Live(rules, i) ==>
      WellCompiled(lib, rules[i].value) && (rules[i].value.binding.JsonBinding? <==> decoder.JsonDecoder?)
  }

  /** Every id leads to a live rule with that id. */
  ghost predicate SoundIds(rules: Slots, ids: map<string, nat>) {
    forall id :: id in ids ==> Live(rules, ids[id]) && rules[ids[id]].value.id == id
  }

  /** Rules, ids and index agree. */
  ghost predicate Tables(lib: Library, decoder: Decoder, rules: Slots, ids: map<string, nat>, trie: T.Trie) {
    SoundSlots(lib, decoder, rules) && SoundIds(rules, ids) && Indexed(rules, trie)
  }

  lemma TablesStart(lib: Library, decoder: Decoder)
    ensures Tables(lib, decoder, [], map[], T.EMPTY)
  {
    forall path, i: nat ensures !Holds(T.EMPTY, path, i) { T.EmptyFacts(path); }
  }

  lemma AddKeepsSlots(lib: Library, decoder: Decoder, rules: Slots, ids: map<string, nat>, rule: CompiledRule)
    requires SoundSlots(lib, decoder, rules) && SoundIds(rules, ids)
    requires WellCompiled(lib, rule) && (rule.binding.JsonBinding? <==> decoder.JsonDecoder?)
    ensures SoundSlots(lib, decoder, rules + [Some(rule)]) && SoundIds(rules + [Some(rule)], ids[rule.id := |rules|])
  {
    var rules', ids' := rules + [Some(rule)], ids[rule.id := |rules|];
    forall i: nat | Live(rules', i)
      ensures WellCompiled(lib, rules'[i].value) && (rules'[i].value.binding.JsonBinding? <==> decoder.JsonDecoder?)
    {
      assert if i < |rules| then rules'[i] == rules[i] && Live(rules, i) else rules'[i] == Some(rule);
    }
    forall id | id in ids' ensures Live(rules', ids'[id]) && rules'[ids'[id]].value.id == id {
      assert if id == rule.id then rules'[|rules|] == Some(rule)
             else Live(rules, ids[id]) && rules'[ids[id]] == rules[ids[id]];
    }
  }

  /** What adding a compiled rule makes of the slots, ids and index. */
  lemma TablesAdd(lib: Library, decoder: Decoder, rules: Slots, ids: map<string, nat>, trie: T.Trie, rule: CompiledRule)
    requires Tables(lib, decoder, rules, ids, trie)
    requires WellCompiled(lib, rule) && (rule.binding.JsonBinding? <==> decoder.JsonDecoder?)
    ensures Tables(lib, decoder, rules + [Some(rule)], ids[rule.id := |rules|],
                   T.Insert(trie, Split(rule.topicFilter, '/'), |rules|))
  {
    AddKeepsIndexed(rules, trie, rule);
    AddKeepsSlots(lib, decoder, rules, ids, rule);
  }

  lemma TablesRemove(lib: Library, decoder: Decoder, rules: Slots, ids: map<string, nat>, trie: T.Trie, id: string)
    requires Tables(lib, decoder, rules, ids, trie) && id in ids
    ensures Live(rules, ids[id])
    ensures Tables(lib, decoder, rules[ids[id] := None], ids - {id},
                   T.Remove(trie, Split(rules[ids[id]].value.topicFilter, '/'), ids[id]))
  {
    var index := ids[id];
    RemoveKeepsIndexed(rules, trie, index);
    var rules' := rules[index := None];
    assert forall i: nat :: Live(rules', i) ==> Live(rules, i) && rules'[i] == rules[i];
    forall k | k in ids - {id} ensures Live(rules', ids[k]) && rules'[ids[k]].value.id == k {
      assert Live(rules, ids[k]) && rules[ids[k]].value.id == k && rules[index].value.id == id;
    }
  }

  lemma PayloadIsFinite(lib: Library, decoder: Decoder, rules: Slots, i: nat, message: Message)
    requires SoundLibrary(lib) && Live(rules, i) && PayloadFor(lib, decoder, rules, i, message).Some?
    ensures FiniteLookup(PayloadFor(lib, decoder, rules, i, message).value)
  {
    if decoder.JsonDecoder? && ParsedObject(lib, message.payload).Some? {
      assert SoundJson(lib.parseJson(message.payload).value);
      LookupIsFinite(ParsedObject(lib, message.payload).value);
    }
  }

  ghost predicate RequiresKey(rule: CompiledRule, key: string) {
    exists j :: 0 <= j < |rule.requiredFields| && rule.requiredFields[j].key == key
  }

  /** The context used for a set of rules serves rule i when it holds what rule i requires. */
  ghost predicate Serves(used: EvalContext, rule: CompiledRule, message: Message, fields: FieldLookup) {
    && used.message == message
    && (forall k :: RequiresKey(rule, k) ==> used.field(k) == fields(k))
    && (rule.requiresTopicParts ==> used.topicParts == Split(message.topic, '/'))
  }

  lemma ServedAlike(lib: Library, rule: CompiledRule, message: Message, used: EvalContext, fields: FieldLookup)
    requires WellCompiled(lib, rule) && Serves(used, rule, message, fields)
    ensures EvalRule(lib, rule, used) == EvalRule(lib, rule, EvalContext(message, fields, Split(message.topic, '/')))
  {
    var keys := set j | 0 <= j < |rule.requiredFields| :: rule.requiredFields[j].key;
    assert forall k :: k in keys ==> RequiresKey(rule, k);
    RuleDependsOnItsFields(lib, rule, used, EvalContext(message, fields, Split(message.topic, '/')), keys);
  }

  /** Evaluated with shared decoding, a rule yields exactly what is expected of it alone. */
  lemma AttemptIsExpected(lib: Library, decoder: Decoder, rules: Slots, i: nat, message: Message, used: EvalContext,
                          output: Message)
    requires SoundLibrary(lib) && SoundSlots(lib, decoder, rules)
    requires Applies(rules, i, message.topic) && PayloadFor(lib, decoder, rules, i, message).Some?
    requires Serves(used, rules[i].value, message, PayloadFor(lib, decoder, rules, i, message).value)
    ensures EvalRule(lib, rules[i].value, used) == Ok(Some(output)) <==>
            Expected(lib, decoder, rules, i, message) == Some(output)
    ensures MeaningFor(lib, decoder, rules, i, message).Some?
    ensures SameClass(EvalRule(lib, rules[i].value, used), MeaningFor(lib, decoder, rules, i, message).value)
  {
    var rule, fields := rules[i].value, PayloadFor(lib, decoder, rules, i, message).value;
    var ctx := EvalContext(message, fields, Split(message.topic, '/'));
    PayloadIsFinite(lib, decoder, rules, i, message);
    assert FiniteLookup(ctx.field);
    RuleComputesItsMeaning(lib, rule, ctx);
    ServedAlike(lib, rule, message, used, fields);
    assert MeaningFor(lib, decoder, rules, i, message) == Some(RuleMeaning(lib, rule.select, rule.whereExpr, ctx));
  }

  lemma FailsAsItMeans(lib: Library, decoder: Decoder, rules: Slots, i: nat, message: Message, outcome: Outcome)
    requires i < |rules| && MeaningFor(lib, decoder, rules, i, message).Some?
    requires SameClass(outcome, MeaningFor(lib, decoder, rules, i, message).value)
    ensures Failed((i, outcome)) <==> i in FailedRules(lib, decoder, rules, message)
    ensures TypeFailed((i, outcome)) <==> i in TypeFailedRules(lib, decoder, rules, message)
  {}
}
