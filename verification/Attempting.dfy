/** Evaluating the matched rules of one message, and what the answers then are. */
module Attempting {
  import opened Wrappers
  import opened Text
  import opened Expressions
  import opened Evaluation
  import opened Rules
  import opened MsgIr
  import opened Metrics
  import opened EngineModel
  import opened PayloadRuntime

  // ----- required fields of the matched rules -----

  /** Some live rule among the indexes requires the key. */
  ghost predicate RequiredBy(rules: Slots, indexes: seq<nat>, key: string) {
    exists i :: i in indexes && Live(rules, i) && RequiresKey(rules[i].value, key)
  }

  /** The required fields of the live rules among the indexes, each once. */
  method CollectRequired(lib: Library, rules: Slots, indexes: seq<nat>) returns (fields: seq<Field>)
    requires forall i: nat :: Live(rules, i) ==> WellCompiled(lib, rules[i].value)
    ensures DistinctKeys(fields)
    ensures forall j :: 0 <= j < |fields| ==> fields[j] == FieldFromKey(fields[j].key)
    ensures forall k :: HasKey(fields, k) <==> RequiredBy(rules, indexes, k)
  {
    var seen := {};
    fields := [];
    for n := 0 to |indexes|
      invariant ListsFields(fields, seen)
      invariant forall k :: k in seen <==> RequiredBy(rules, indexes[..n], k)
    {
      if Live(rules, indexes[n]) {
        fields, seen := CollectFields(rules[indexes[n]].value.requiredFields, fields, seen);
      }
      RequiredByNext(rules, indexes, n);
    }
    assert indexes[..|indexes|] == indexes;
    forall k ensures HasKey(fields, k) <==> RequiredBy(rules, indexes, k) {
      assert KeysOf(fields, seen);
    }
  }

  method CollectFields(required: seq<Field>, fields: seq<Field>, seen: set<string>)
    returns (fields': seq<Field>, seen': set<string>)
    requires ListsFields(fields, seen) && forall j :: 0 <= j < |required| ==>
               required[j] == FieldFromKey(required[j].key)
    ensures ListsFields(fields', seen')
    ensures forall k :: k in seen' <==> k in seen || HasKey(required, k)
  {
    fields', seen' := fields, seen;
    for j := 0 to |required|
      invariant ListsFields(fields', seen')
      invariant forall k :: k in seen' <==> k in seen || exists i :: 0 <= i < j && required[i].key == k
    {
      fields', seen' := CollectFromPlan(PayloadField(required[j]), fields', seen');
    }
  }

  lemma RequiredByNext(rules: Slots, indexes: seq<nat>, n: nat)
    requires n < |indexes|
    ensures forall k :: RequiredBy(rules, indexes[..n + 1], k) <==>
              RequiredBy(rules, indexes[..n], k) || (Live(rules, indexes[n]) && RequiresKey(rules[indexes[n]].value, k))
  {
    assert indexes[..n + 1] == indexes[..n] + [indexes[n]];
  }

  // ----- decoding -----

  /** The payload fields asked for; when none are, the payload is not parsed. */
  method DecodeJson(lib: Library, payload: Bytes, fields: seq<Field>)
    returns (decoded: Result<FieldLookup, PayloadErrorKind>)
    requires forall j :: 0 <= j < |fields| ==> fields[j] == FieldFromKey(fields[j].key)
    ensures decoded.Err? <==> fields != [] && ParsedObject(lib, payload).None?
    ensures decoded.Err? ==> JsonError(lib, payload) == Some(decoded.error)
    ensures fields != [] && decoded.Ok? ==>
              forall k :: HasKey(fields, k) ==> decoded.value(k) == PathLookup(ParsedObject(lib, payload).value)(k)
  {
    if fields == [] {
      return Ok(NoFields());
    }
    var parsed := lib.parseJson(payload);
    if parsed.None? {
      return Err(DecodeError);
    }
    if !parsed.value.Object? {
      return Err(BuildError);
    }
    var ir := FromJsonObjectSparse(parsed.value.entries, fields);
    var store := ir.View();
    decoded := Ok(k => if k in store then Some(store[k]) else None);
    forall k | HasKey(fields, k) ensures decoded.value(k) == PathLookup(parsed.value.entries)(k) {
      assert ir.GetKey(k) == if k in store then Some(store[k]) else None;
    }
  }

  /** A protobuf payload is decoded whether or not a field is asked for. */
  method DecodeProtobuf(lib: Library, schema: string, payload: Bytes, fields: seq<Field>)
    returns (decoded: Result<FieldLookup, PayloadErrorKind>)
    ensures decoded.Err? <==> lib.decodeProtobuf(schema, payload).Err?
    ensures decoded.Err? ==> decoded.error == lib.decodeProtobuf(schema, payload).error
    ensures decoded.Ok? ==>
              forall k :: HasKey(fields, k) ==> decoded.value(k) == lib.decodeProtobuf(schema, payload).value(k)
  {
    var message := lib.decodeProtobuf(schema, payload);
    if message.Err? {
      return Err(message.error);
    }
    var keys := set j | 0 <= j < |fields| :: fields[j].key;
    var found := message.value;
    decoded := Ok(k => if k in keys then found(k) else None);
    assert forall k :: HasKey(fields, k) ==> k in keys;
  }

  // ----- attempts -----

  ghost predicate NeedParts(rules: Slots, indexes: seq<nat>) {
    exists i :: i in indexes && Live(rules, i) && rules[i].value.requiresTopicParts
  }

  method RequireTopicParts(rules: Slots, indexes: seq<nat>) returns (required: bool)
    ensures required <==> NeedParts(rules, indexes)
  {
    for n := 0 to |indexes|
      invariant forall i :: i in indexes[..n] && Live(rules, i) ==> !rules[i].value.requiresTopicParts
    {
      assert indexes[..n + 1] == indexes[..n] + [indexes[n]];
      if Live(rules, indexes[n]) && rules[indexes[n]].value.requiresTopicParts {
        return true;
      }
    }
    assert indexes[..|indexes|] == indexes;
    return false;
  }

  /** The context all matched rules share: the topic is split only if one of them asks for it. */
  ghost function SharedContext(rules: Slots, indexes: seq<nat>, message: Message, field: FieldLookup): EvalContext {
    EvalContext(message, field, if NeedParts(rules, indexes) then Split(message.topic, '/') else [])
  }

  method RunSequentially(lib: Library, rules: Slots, ctx: EvalContext, indexes: seq<nat>)
    returns (attempts: seq<Attempt>)
    ensures attempts == Attempts(lib, rules, ctx, indexes)
  {
    attempts := [];
    for n := 0 to |indexes|
      invariant attempts == Attempts(lib, rules, ctx, indexes[..n])
    {
      assert indexes[..n + 1][..n] == indexes[..n];
      if Live(rules, indexes[n]) {
        var outcome := EvaluateRule(lib, rules[indexes[n]].value, ctx);
        attempts := attempts + [(indexes[n], outcome)];
      }
    }
    assert indexes[..|indexes|] == indexes;
  }

  /** The indexes cut into consecutive chunks of any size, the chunks' attempts concatenated. */
  method RunInChunks(lib: Library, rules: Slots, ctx: EvalContext, indexes: seq<nat>) returns (attempts: seq<Attempt>)
    ensures attempts == Attempts(lib, rules, ctx, indexes)
  {
    attempts := [];
    var start := 0;
    while start < |indexes|
      invariant start <= |indexes| && attempts == Attempts(lib, rules, ctx, indexes[..start])
    {
      var end :| start < end <= |indexes|;
      var chunk := RunSequentially(lib, rules, ctx, indexes[start..end]);
      AttemptsConcat(lib, rules, ctx, indexes[..start], indexes[start..end]);
      assert indexes[..end] == indexes[..start] + indexes[start..end];
      attempts := attempts + chunk;
      start := end;
    }
    assert indexes[..|indexes|] == indexes;
  }

  /** Counts every attempt and keeps the outputs. */
  method Record(metrics: EvalMetrics, attempts: seq<Attempt>) returns (results: seq<RuleEvaluation>)
    requires metrics.Valid()
    modifies metrics
    ensures metrics.Valid() && results == Outputs(attempts)
    ensures metrics.counts == old(metrics.counts).Plus(AttemptCounts(attempts))
  {
    results := [];
    for n := 0 to |attempts|
      invariant metrics.Valid() && results == Outputs(attempts[..n])
      invariant metrics.counts == old(metrics.counts).Plus(AttemptCounts(attempts[..n]))
    {
      assert attempts[..n + 1][..n] == attempts[..n];
      var outcome := attempts[n].1;
      match outcome
      case Err(error) => metrics.RecordEvalError(error.IsTypeError());
      case Ok(output) =>
        metrics.RecordEvalSuccess();
        if output.Some? {
          results := results + [RuleEvaluation(attempts[n].0, output.value)];
        }
    }
    assert attempts[..|attempts|] == attempts;
  }

  /** Evaluates the live rules among the indexes with one decoded payload, in parallel from a threshold on. */
  method EvaluateMatched(lib: Library, rules: Slots, metrics: EvalMetrics, message: Message, field: FieldLookup,
                         indexes: seq<nat>, threshold: nat, poolThreads: nat) returns (results: seq<RuleEvaluation>)
    requires metrics.Valid()
    modifies metrics
    ensures var attempts := Attempts(lib, rules, SharedContext(rules, indexes, message, field), indexes);
            && metrics.Valid() && results == Outputs(attempts)
            && metrics.counts == old(metrics.counts).Plus(AttemptCounts(attempts))
  {
    var needParts := RequireTopicParts(rules, indexes);
    var parts := if needParts then Split(message.topic, '/') else [];
    var ctx := EvalContext(message, field, parts);
    var attempts;
    if |indexes| >= threshold && poolThreads > 1 {
      attempts := RunInChunks(lib, rules, ctx, indexes);
    } else {
      attempts := RunSequentially(lib, rules, ctx, indexes);
    }
    results := Record(metrics, attempts);
  }

  // ----- the answers -----

  /** Among matched rules, the outputs are exactly those expected, when the shared context serves each of them. */
  lemma MatchedAnswers(lib: Library, decoder: Decoder, rules: Slots, trie: T.Trie, message: Message,
                       indexes: seq<nat>, used: EvalContext, i: nat, output: Message)
    requires SoundLibrary(lib) && SoundSlots(lib, decoder, rules) && Indexed(rules, trie)
    requires i in indexes ==> T.StoredFor(trie, Split(message.topic, '/'), i)
    requires i in indexes && Live(rules, i) ==>
               PayloadFor(lib, decoder, rules, i, message).Some? &&
               Serves(used, rules[i].value, message, PayloadFor(lib, decoder, rules, i, message).value)
    ensures RuleEvaluation(i, output) in Outputs(Attempts(lib, rules, used, indexes)) <==>
            i in indexes && Expected(lib, decoder, rules, i, message) == Some(output)
    ensures i in indexes && Live(rules, i) ==>
              (Failed((i, EvalRule(lib, rules[i].value, used))) <==> i in FailedRules(lib, decoder, rules, message))
    ensures i in indexes && Live(rules, i) ==>
              (TypeFailed((i, EvalRule(lib, rules[i].value, used))) <==>
               i in TypeFailedRules(lib, decoder, rules, message))
  {
    OutputsAre(lib, rules, used, indexes, i, output);
    if i in indexes && Live(rules, i) {
      IndexFindsLiveRules(rules, trie, message.topic, i);
      AttemptIsExpected(lib, decoder, rules, i, message, used, output);
      FailsAsItMeans(lib, decoder, rules, i, message, EvalRule(lib, rules[i].value, used));
    }
  }

  /** Counting attempts of some kind is counting the listed live rules whose attempt is of that kind. */
  lemma {:induction false} CountIs(lib: Library, rules: Slots, ctx: EvalContext, indexes: seq<nat>,
                                   p: Attempt -> bool, chosen: set<nat>)
    requires NoDuplicates(indexes)
    requires forall i: nat :: i in chosen <==>
             i in indexes && Live(rules, i) && p((i, EvalRule(lib, rules[i].value, ctx)))
    ensures Count(Attempts(lib, rules, ctx, indexes), p) == |chosen|
  {
    if indexes != [] {
      var n := |indexes| - 1;
      assert indexes == indexes[..n] + [indexes[n]];
      CountIs(lib, rules, ctx, indexes[..n], p, chosen - {indexes[n]});
      var rest := Attempts(lib, rules, ctx, indexes[..n]);
      if Live(rules, indexes[n]) {
        var last := (indexes[n], EvalRule(lib, rules[indexes[n]].value, ctx));
        assert Attempts(lib, rules, ctx, indexes) == rest + [last];
        CountAppend(rest, last, p);
      } else {
        assert Attempts(lib, rules, ctx, indexes) == rest;
      }
    } else {
      assert chosen == {};
    }
  }

  lemma {:induction false} AttemptsCount(lib: Library, rules: Slots, ctx: EvalContext, indexes: seq<nat>,
                                         live: set<nat>)
    requires NoDuplicates(indexes) && forall i: nat :: i in live <==> i in indexes && Live(rules, i)
    ensures |Attempts(lib, rules, ctx, indexes)| == |live|
  {
    if indexes != [] {
      var n := |indexes| - 1;
      assert indexes == indexes[..n] + [indexes[n]];
      AttemptsCount(lib, rules, ctx, indexes[..n], live - {indexes[n]});
    } else {
      assert live == {};
    }
  }

  // ----- one JSON payload for all matched rules -----

  /** The matched rules, the fields collected from them and what was decoded for those fields. */
  ghost predicate JsonDecoded(lib: Library, rules: Slots, trie: T.Trie, message: Message, matched: seq<nat>,
                              fields: seq<Field>)
  {
    && SoundLibrary(lib) && SoundSlots(lib, JsonDecoder, rules) && Indexed(rules, trie)
    && MatchedFor(trie, message.topic, matched)
    && forall k :: HasKey(fields, k) <==> RequiredBy(rules, matched, k)
  }

  lemma AppliesIsMatched(rules: Slots, trie: T.Trie, topic: string, matched: seq<nat>, i: nat)
    requires Indexed(rules, trie) && MatchedFor(trie, topic, matched)
    ensures Applies(rules, i, topic) <==> i in matched && Live(rules, i)
  {
    IndexFindsLiveRules(rules, trie, topic, i);
  }

  /** A field is asked for exactly when some rule that applies reads the payload. */
  lemma FieldsNeedPayload(lib: Library, rules: Slots, trie: T.Trie, message: Message, matched: seq<nat>,
                          fields: seq<Field>)
    requires JsonDecoded(lib, rules, trie, message, matched, fields)
    ensures fields != [] <==> NeedsPayload(rules, message.topic)
  {
    if fields != [] {
      assert HasKey(fields, fields[0].key);
      var i :| i in matched && Live(rules, i) && RequiresKey(rules[i].value, fields[0].key);
      AppliesIsMatched(rules, trie, message.topic, matched, i);
    }
    if NeedsPayload(rules, message.topic) {
      var i: nat :| Applies(rules, i, message.topic) && rules[i].value.requiredFields != [];
      AppliesIsMatched(rules, trie, message.topic, matched, i);
      var key := rules[i].value.requiredFields[0].key;
      assert RequiresKey(rules[i].value, key) && RequiredBy(rules, matched, key);
      assert HasKey(fields, key);
    }
  }

  /** What was decoded for the fields asked for. */
  ghost predicate JsonRead(lib: Library, message: Message, fields: seq<Field>, field: FieldLookup) {
    fields != [] ==>
      ParsedObject(lib, message.payload).Some? &&
      forall k :: HasKey(fields, k) ==> field(k) == PathLookup(ParsedObject(lib, message.payload).value)(k)
  }

  lemma JsonServes(lib: Library, rules: Slots, trie: T.Trie, message: Message, matched: seq<nat>, fields: seq<Field>,
                   field: FieldLookup, i: nat)
    requires JsonDecoded(lib, rules, trie, message, matched, fields) && JsonRead(lib, message, fields, field)
    requires i in matched && Live(rules, i)
    ensures PayloadFor(lib, JsonDecoder, rules, i, message).Some?
    ensures Serves(SharedContext(rules, matched, message, field), rules[i].value, message,
                   PayloadFor(lib, JsonDecoder, rules, i, message).value)
  {
    FieldsNeedPayload(lib, rules, trie, message, matched, fields);
    assert forall k :: RequiresKey(rules[i].value, k) ==> RequiredBy(rules, matched, k);
    assert rules[i].value.requiresTopicParts ==> NeedParts(rules, matched);
  }

  /** The outputs of the matched rules answer the message. */
  lemma JsonAnswers(lib: Library, rules: Slots, trie: T.Trie, message: Message, matched: seq<nat>, fields: seq<Field>,
                    field: FieldLookup)
    requires JsonDecoded(lib, rules, trie, message, matched, fields) && JsonRead(lib, message, fields, field)
    ensures Answers(lib, JsonDecoder, rules, message,
                    Outputs(Attempts(lib, rules, SharedContext(rules, matched, message, field), matched)))
  {
    var used := SharedContext(rules, matched, message, field);
    OutputsAreDistinct(lib, rules, used, matched);
    forall i: nat, output
      ensures RuleEvaluation(i, output) in Outputs(Attempts(lib, rules, used, matched)) <==>
              Expected(lib, JsonDecoder, rules, i, message) == Some(output)
    {
      JsonAttempt(lib, rules, trie, message, matched, fields, field, i, output);
    }
  }

  /** The attempt of one rule: it is made when the rule is evaluated, and ends as the rule's meaning does. */
  lemma JsonAttempt(lib: Library, rules: Slots, trie: T.Trie, message: Message, matched: seq<nat>, fields: seq<Field>,
                    field: FieldLookup, i: nat, output: Message)
    requires JsonDecoded(lib, rules, trie, message, matched, fields) && JsonRead(lib, message, fields, field)
    ensures var used := SharedContext(rules, matched, message, field);
            && (RuleEvaluation(i, output) in Outputs(Attempts(lib, rules, used, matched)) <==>
                Expected(lib, JsonDecoder, rules, i, message) == Some(output))
            && (i in EvaluatedRules(lib, JsonDecoder, rules, message) <==> i in matched && Live(rules, i))
            && (i in FailedRules(lib, JsonDecoder, rules, message) <==>
                i in matched && Live(rules, i) && Failed((i, EvalRule(lib, rules[i].value, used))))
            && (i in TypeFailedRules(lib, JsonDecoder, rules, message) <==>
                i in matched && Live(rules, i) && TypeFailed((i, EvalRule(lib, rules[i].value, used))))
  {
    var used := SharedContext(rules, matched, message, field);
    AppliesIsMatched(rules, trie, message.topic, matched, i);
    if i in matched && Live(rules, i) {
      JsonServes(lib, rules, trie, message, matched, fields, field, i);
    }
    MatchedAnswers(lib, JsonDecoder, rules, trie, message, matched, used, i, output);
  }

  /** Every evaluated rule is attempted once, and the errors are those of the failing rules. */
  lemma JsonCounts(lib: Library, rules: Slots, trie: T.Trie, message: Message, matched: seq<nat>, fields: seq<Field>,
                   field: FieldLookup)
    requires JsonDecoded(lib, rules, trie, message, matched, fields) && JsonRead(lib, message, fields, field)
    ensures AttemptCounts(Attempts(lib, rules, SharedContext(rules, matched, message, field), matched)) ==
            MessageCounts(lib, JsonDecoder, rules, message)
  {
    var used := SharedContext(rules, matched, message, field);
    var evaluated, failed := EvaluatedRules(lib, JsonDecoder, rules, message),
        FailedRules(lib, JsonDecoder, rules, message);
    var typeFailed := TypeFailedRules(lib, JsonDecoder, rules, message);
    forall i: nat
      ensures i in evaluated <==> i in matched && Live(rules, i)
      ensures i in failed <==> i in matched && Live(rules, i) && Failed((i, EvalRule(lib, rules[i].value, used)))
      ensures i in typeFailed <==>
              i in matched && Live(rules, i) && TypeFailed((i, EvalRule(lib, rules[i].value, used)))
    {
      JsonAttempt(lib, rules, trie, message, matched, fields, field, i, message);
    }
    AttemptsCount(lib, rules, used, matched, evaluated);
    CountIs(lib, rules, used, matched, Failed, failed);
    CountIs(lib, rules, used, matched, TypeFailed, typeFailed);
    NoFault(lib, rules, trie, message, matched, fields, field, SchemaError);
    NoFault(lib, rules, trie, message, matched, fields, field, DecodeError);
    NoFault(lib, rules, trie, message, matched, fields, field, BuildError);
  }

  lemma NoFault(lib: Library, rules: Slots, trie: T.Trie, message: Message, matched: seq<nat>, fields: seq<Field>,
                field: FieldLookup, kind: PayloadErrorKind)
    requires JsonDecoded(lib, rules, trie, message, matched, fields) && JsonRead(lib, message, fields, field)
    ensures PayloadErrors(lib, JsonDecoder, rules, message, kind) == 0
  {
    FieldsNeedPayload(lib, rules, trie, message, matched, fields);
    assert ParsedObject(lib, message.payload).Some? ==> JsonError(lib, message.payload).None?;
  }

  /** A payload that is needed and is no object leaves nothing to evaluate, and is counted once. */
  lemma JsonDropped(lib: Library, rules: Slots, trie: T.Trie, message: Message, matched: seq<nat>, fields: seq<Field>)
    requires JsonDecoded(lib, rules, trie, message, matched, fields)
    requires fields != [] && ParsedObject(lib, message.payload).None?
    ensures Answers(lib, JsonDecoder, rules, message, []) && JsonError(lib, message.payload).Some?
    ensures MessageCounts(lib, JsonDecoder, rules, message) == PayloadError(JsonError(lib, message.payload).value)
  {
    FieldsNeedPayload(lib, rules, trie, message, matched, fields);
    forall i: nat ensures MeaningFor(lib, JsonDecoder, rules, i, message).None? {
      if Applies(rules, i, message.topic) {
        assert PayloadFor(lib, JsonDecoder, rules, i, message).None?;
      }
    }
    NothingToAnswer(lib, JsonDecoder, rules, message);
  }

  /** Decodes the payload once for all matched rules: the answer, and one evaluation for each rule it is handed to. */
  method AnswerJson(lib: Library, rules: Slots, metrics: EvalMetrics, message: Message, matched: seq<nat>,
                    threshold: nat, poolThreads: nat, ghost trie: T.Trie) returns (results: seq<RuleEvaluation>)
    requires metrics.Valid() && SoundLibrary(lib) && SoundSlots(lib, JsonDecoder, rules) && Indexed(rules, trie)
    requires MatchedFor(trie, message.topic, matched)
    modifies metrics
    ensures metrics.Valid() && Answers(lib, JsonDecoder, rules, message, results)
    ensures metrics.counts == old(metrics.counts).Plus(MessageCounts(lib, JsonDecoder, rules, message))
  {
    if matched == [] {
      NothingMatched(lib, rules, trie, message);
      return [];
    }
    var fields := CollectRequired(lib, rules, matched);
    var decoded := DecodeJson(lib, message.payload, fields);
    if decoded.Err? {
      metrics.RecordPayloadError(decoded.error);
      JsonDropped(lib, rules, trie, message, matched, fields);
      return [];
    }
    results := EvaluateMatched(lib, rules, metrics, message, decoded.value, matched, threshold, poolThreads);
    JsonAnswers(lib, rules, trie, message, matched, fields, decoded.value);
    JsonCounts(lib, rules, trie, message, matched, fields, decoded.value);
  }

  lemma NothingMatched(lib: Library, rules: Slots, trie: T.Trie, message: Message)
    requires Indexed(rules, trie) && MatchedFor(trie, message.topic, [])
    ensures Answers(lib, JsonDecoder, rules, message, []) && MessageCounts(lib, JsonDecoder, rules, message) == NOTHING
  {
    forall i: nat ensures !Applies(rules, i, message.topic) && MeaningFor(lib, JsonDecoder, rules, i, message).None? {
      AppliesIsMatched(rules, trie, message.topic, [], i);
    }
    NothingToAnswer(lib, JsonDecoder, rules, message);
  }
}
