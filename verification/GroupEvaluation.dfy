/** Evaluating matched protobuf rules schema by schema. */
module GroupEvaluation {
  import opened Wrappers
  import opened Expressions
  import opened Evaluation
  import opened Rules
  import opened MsgIr
  import opened Metrics
  import opened MatchCache
  import opened EngineModel
  import opened SchemaGroups
  import opened PayloadRuntime
  import opened Attempting

  /** The matched rules of a message and one group of them. */
  ghost predicate GroupMatched(lib: Library, rules: Slots, trie: T.Trie, message: Message, matched: seq<nat>,
                               group: SchemaRuleGroup)
  {
    && SoundLibrary(lib) && SoundSlots(lib, ProtobufDecoder, rules) && Indexed(rules, trie)
    && MatchedFor(trie, message.topic, matched)
    && group.ruleIndexes == OfSchema(rules, matched, group.schema)
  }

  /** A rule of the group applies, and reads the payload under the group's schema. */
  lemma GroupMember(lib: Library, rules: Slots, trie: T.Trie, message: Message, matched: seq<nat>,
                    group: SchemaRuleGroup, i: nat)
    requires GroupMatched(lib, rules, trie, message, matched, group) && i in group.ruleIndexes
    ensures Applies(rules, i, message.topic) && InSchema(rules, i, group.schema) && i in matched
    ensures var decoded := lib.decodeProtobuf(group.schema, message.payload);
            PayloadFor(lib, ProtobufDecoder, rules, i, message) == if decoded.Ok? then Some(decoded.value) else None
  {
    OfSchemaHolds(rules, matched, group.schema, i);
    AppliesIsMatched(rules, trie, message.topic, matched, i);
  }

  lemma GroupAnswers(lib: Library, rules: Slots, trie: T.Trie, message: Message, matched: seq<nat>,
                     group: SchemaRuleGroup,
                     fields: seq<Field>, field: FieldLookup, i: nat, output: Message)
    requires GroupMatched(lib, rules, trie, message, matched, group)
    requires forall k :: HasKey(fields, k) <==> RequiredBy(rules, group.ruleIndexes, k)
    requires lib.decodeProtobuf(group.schema, message.payload).Ok?
    requires forall k :: HasKey(fields, k) ==> field(k) == lib.decodeProtobuf(group.schema, message.payload).value(k)
    ensures RuleEvaluation(i, output) in
              Outputs(Attempts(lib, rules, SharedContext(rules, group.ruleIndexes, message, field),
                               group.ruleIndexes)) <==>
            i in group.ruleIndexes && Expected(lib, ProtobufDecoder, rules, i, message) == Some(output)
    ensures i in group.ruleIndexes ==>
              i in EvaluatedRules(lib, ProtobufDecoder, rules, message) &&
              var attempt := (i,
                              EvalRule(lib, rules[i].value, SharedContext(rules, group.ruleIndexes, message, field)));
              && (i in FailedRules(lib, ProtobufDecoder, rules, message) <==> Failed(attempt))
              && (i in TypeFailedRules(lib, ProtobufDecoder, rules, message) <==> TypeFailed(attempt))
  {
    var indexes := group.ruleIndexes;
    if i in indexes {
      GroupMember(lib, rules, trie, message, matched, group, i);
      IndexFindsLiveRules(rules, trie, message.topic, i);
      assert forall k :: RequiresKey(rules[i].value, k) ==> RequiredBy(rules, indexes, k);
      assert rules[i].value.requiresTopicParts ==> NeedParts(rules, indexes);
    }
    MatchedAnswers(lib, ProtobufDecoder, rules, trie, message, indexes, SharedContext(rules, indexes, message, field),
                   i, output);
  }

  /** The answer for one group: exactly what is expected of its rules, no rule twice. */
  ghost predicate AnswersGroup(lib: Library, rules: Slots, message: Message, group: SchemaRuleGroup,
                               results: seq<RuleEvaluation>)
  {
    && DistinctIndexes(results)
    && forall i: nat, output :: RuleEvaluation(i, output) in results <==>
         i in group.ruleIndexes && Expected(lib, ProtobufDecoder, rules, i, message) == Some(output)
  }

  function SchemaErrors(lib: Library, schema: string, payload: Bytes, kind: PayloadErrorKind): nat {
    if SchemaFails(lib, schema, payload, kind) then 1 else 0
  }

  /** What a group adds to the counters: its evaluations, and at most one payload error. */
  ghost function CountsOfGroup(lib: Library, rules: Slots, message: Message, group: SchemaRuleGroup): Counts {
    var members := Elements(group.ruleIndexes);
    Counts(|EvaluatedRules(lib, ProtobufDecoder, rules, message) * members|,
           |FailedRules(lib, ProtobufDecoder, rules, message) * members|,
           |TypeFailedRules(lib, ProtobufDecoder, rules, message) * members|,
           SchemaErrors(lib, group.schema, message.payload, SchemaError),
           SchemaErrors(lib, group.schema, message.payload, DecodeError),
           SchemaErrors(lib, group.schema, message.payload, BuildError))
  }

  /** One schema decodes the message once for all of its rules; when it fails only its rules are dropped. */
  method EvaluateGroup(lib: Library, rules: Slots, metrics: EvalMetrics, message: Message, group: SchemaRuleGroup,
                       threshold: nat, poolThreads: nat, ghost trie: T.Trie, ghost matched: seq<nat>)
    returns (results: seq<RuleEvaluation>)
    requires metrics.Valid() && GroupMatched(lib, rules, trie, message, matched, group)
    modifies metrics
    ensures metrics.Valid() && AnswersGroup(lib, rules, message, group, results)
    ensures metrics.counts == old(metrics.counts).Plus(CountsOfGroup(lib, rules, message, group))
  {
    var indexes := group.ruleIndexes;
    var fields := CollectRequired(lib, rules, indexes);
    var decoded := DecodeProtobuf(lib, group.schema, message.payload, fields);
    if decoded.Err? {
      metrics.RecordPayloadError(decoded.error);
      GroupDropped(lib, rules, trie, message, matched, group);
      return [];
    }
    results := EvaluateMatched(lib, rules, metrics, message, decoded.value, indexes, threshold, poolThreads);
    GroupCounts(lib, rules, trie, message, matched, group, fields, decoded.value);
    forall i: nat, output
      ensures RuleEvaluation(i, output) in results <==>
              i in indexes && Expected(lib, ProtobufDecoder, rules, i, message) == Some(output)
    {
      GroupAnswers(lib, rules, trie, message, matched, group, fields, decoded.value, i, output);
    }
  }

  /** A schema under which the payload does not decode leaves none of its rules to evaluate, and is counted once. */
  lemma GroupDropped(lib: Library, rules: Slots, trie: T.Trie, message: Message, matched: seq<nat>,
                     group: SchemaRuleGroup)
    requires GroupMatched(lib, rules, trie, message, matched, group)
    requires lib.decodeProtobuf(group.schema, message.payload).Err?
    ensures AnswersGroup(lib, rules, message, group, [])
    ensures CountsOfGroup(lib, rules, message, group) ==
            PayloadError(lib.decodeProtobuf(group.schema, message.payload).error)
  {
    forall i: nat | i in group.ruleIndexes ensures MeaningFor(lib, ProtobufDecoder, rules, i, message).None? {
      GroupMember(lib, rules, trie, message, matched, group, i);
    }
    assert EvaluatedRules(lib, ProtobufDecoder, rules, message) * Elements(group.ruleIndexes) == {};
    assert FailedRules(lib, ProtobufDecoder, rules, message) * Elements(group.ruleIndexes) == {};
    assert TypeFailedRules(lib, ProtobufDecoder, rules, message) * Elements(group.ruleIndexes) == {};
  }

  /** Every rule of a decoded group is attempted once; the failures are those of the failing rules. */
  lemma GroupCounts(lib: Library, rules: Slots, trie: T.Trie, message: Message, matched: seq<nat>,
                    group: SchemaRuleGroup,
                    fields: seq<Field>, field: FieldLookup)
    requires GroupMatched(lib, rules, trie, message, matched, group)
    requires forall k :: HasKey(fields, k) <==> RequiredBy(rules, group.ruleIndexes, k)
    requires lib.decodeProtobuf(group.schema, message.payload).Ok?
    requires forall k :: HasKey(fields, k) ==> field(k) == lib.decodeProtobuf(group.schema, message.payload).value(k)
    ensures var attempts := Attempts(lib, rules, SharedContext(rules, group.ruleIndexes, message, field),
                                     group.ruleIndexes);
            && DistinctIndexes(Outputs(attempts))
            && AttemptCounts(attempts) == CountsOfGroup(lib, rules, message, group)
  {
    var used := SharedContext(rules, group.ruleIndexes, message, field);
    var evaluated := EvaluatedRules(lib, ProtobufDecoder, rules, message) * Elements(group.ruleIndexes);
    var failed := FailedRules(lib, ProtobufDecoder, rules, message) * Elements(group.ruleIndexes);
    var typeFailed := TypeFailedRules(lib, ProtobufDecoder, rules, message) * Elements(group.ruleIndexes);
    OfSchemaDistinct(rules, matched, group.schema);
    OutputsAreDistinct(lib, rules, used, group.ruleIndexes);
    forall i: nat
      ensures i in evaluated <==> i in group.ruleIndexes && Live(rules, i)
      ensures i in failed <==>
              i in group.ruleIndexes && Live(rules, i) && Failed((i, EvalRule(lib, rules[i].value, used)))
      ensures i in typeFailed <==>
                i in group.ruleIndexes && Live(rules, i) && TypeFailed((i, EvalRule(lib, rules[i].value, used)))
    {
      OfSchemaHolds(rules, matched, group.schema, i);
      GroupAnswers(lib, rules, trie, message, matched, group, fields, field, i, message);
    }
    AttemptsCount(lib, rules, used, group.ruleIndexes, evaluated);
    CountIs(lib, rules, used, group.ruleIndexes, Failed, failed);
    CountIs(lib, rules, used, group.ruleIndexes, TypeFailed, typeFailed);
  }

  // ----- all groups -----

  /** Rule i is in one of the first n groups. */
  ghost predicate InGroups(groups: seq<SchemaRuleGroup>, n: nat, i: nat)
    requires n <= |groups|
  {
    exists g :: 0 <= g < n && i in groups[g].ruleIndexes
  }

  ghost predicate AnswersGroups(lib: Library, rules: Slots, message: Message, groups: seq<SchemaRuleGroup>, n: nat,
                                results: seq<RuleEvaluation>)
    requires n <= |groups|
  {
    && DistinctIndexes(results)
    && forall i: nat, output :: RuleEvaluation(i, output) in results <==>
         InGroups(groups, n, i) && Expected(lib, ProtobufDecoder, rules, i, message) == Some(output)
  }

  /** How many indexes of a set are in the first n groups, group by group. */
  ghost function PartCount(all: set<nat>, groups: seq<SchemaRuleGroup>, n: nat): nat
    requires n <= |groups|
  {
    if n == 0 then 0 else PartCount(all, groups, n - 1) + |all * Elements(groups[n - 1].ruleIndexes)|
  }

  /** How many of the first n groups have a schema under which the payload does not decode. */
  ghost function FaultCount(lib: Library, payload: Bytes, groups: seq<SchemaRuleGroup>, n: nat,
                            kind: PayloadErrorKind): nat
    requires n <= |groups|
  {
    if n == 0 then 0
    else FaultCount(lib, payload, groups, n - 1, kind) + SchemaErrors(lib, groups[n - 1].schema, payload, kind)
  }

  ghost function CountsIn(lib: Library, rules: Slots, message: Message, groups: seq<SchemaRuleGroup>, n: nat): Counts
    requires n <= |groups|
  {
    Counts(PartCount(EvaluatedRules(lib, ProtobufDecoder, rules, message), groups, n),
           PartCount(FailedRules(lib, ProtobufDecoder, rules, message), groups, n),
           PartCount(TypeFailedRules(lib, ProtobufDecoder, rules, message), groups, n),
           FaultCount(lib, message.payload, groups, n, SchemaError),
           FaultCount(lib, message.payload, groups, n, DecodeError),
           FaultCount(lib, message.payload, groups, n, BuildError))
  }

  lemma PartCountNext(all: set<nat>, groups: seq<SchemaRuleGroup>, n: nat)
    requires n < |groups|
    ensures PartCount(all, groups, 0) == 0
    ensures PartCount(all, groups, n + 1) == PartCount(all, groups, n) + |all * Elements(groups[n].ruleIndexes)|
  {}

  lemma FaultCountNext(lib: Library, payload: Bytes, groups: seq<SchemaRuleGroup>, n: nat, kind: PayloadErrorKind)
    requires n < |groups|
    ensures FaultCount(lib, payload, groups, n + 1, kind) ==
            FaultCount(lib, payload, groups, n, kind) + SchemaErrors(lib, groups[n].schema, payload, kind)
  {}

  lemma CountsNext(lib: Library, rules: Slots, message: Message, groups: seq<SchemaRuleGroup>, n: nat, total: Counts)
    requires n < |groups|
    ensures total.Plus(CountsIn(lib, rules, message, groups, n)).Plus(CountsOfGroup(lib, rules, message, groups[n])) ==
            total.Plus(CountsIn(lib, rules, message, groups, n + 1))
  {
    PartCountNext(EvaluatedRules(lib, ProtobufDecoder, rules, message), groups, n);
    PartCountNext(FailedRules(lib, ProtobufDecoder, rules, message), groups, n);
    PartCountNext(TypeFailedRules(lib, ProtobufDecoder, rules, message), groups, n);
    FaultCountNext(lib, message.payload, groups, n, SchemaError);
    FaultCountNext(lib, message.payload, groups, n, DecodeError);
    FaultCountNext(lib, message.payload, groups, n, BuildError);
  }

  /** Any grouping of the matched rules by schema, evaluated group by group: the answer to the message. */
  method AnswerProtobuf(lib: Library, rules: Slots, metrics: EvalMetrics, message: Message,
                        groups: seq<SchemaRuleGroup>,
                        threshold: nat, poolThreads: nat, ghost trie: T.Trie)
    returns (results: seq<RuleEvaluation>)
    requires metrics.Valid()
    requires SoundLibrary(lib) && SoundSlots(lib, ProtobufDecoder, rules) && Indexed(rules, trie)
    requires GroupedFor(trie, rules, message.topic, groups)
    modifies metrics
    ensures metrics.Valid() && Answers(lib, ProtobufDecoder, rules, message, results)
    ensures metrics.counts == old(metrics.counts).Plus(MessageCounts(lib, ProtobufDecoder, rules, message))
  {
    ghost var matched :| MatchedFor(trie, message.topic, matched) && GroupsOf(rules, matched, groups);
    results := EvaluateGroups(lib, rules, metrics, message, groups, threshold, poolThreads, trie, matched);
  }

  /** All groups, one after the other: the answer, whatever the order of the groups. */
  method EvaluateGroups(lib: Library, rules: Slots, metrics: EvalMetrics, message: Message,
                        groups: seq<SchemaRuleGroup>,
                        threshold: nat, poolThreads: nat, ghost trie: T.Trie, ghost matched: seq<nat>)
    returns (results: seq<RuleEvaluation>)
    requires metrics.Valid()
    requires SoundLibrary(lib) && SoundSlots(lib, ProtobufDecoder, rules) && Indexed(rules, trie)
    requires MatchedFor(trie, message.topic, matched) && GroupsOf(rules, matched, groups)
    modifies metrics
    ensures metrics.Valid() && Answers(lib, ProtobufDecoder, rules, message, results)
    ensures metrics.counts == old(metrics.counts).Plus(MessageCounts(lib, ProtobufDecoder, rules, message))
  {
    GroupsAreApart(rules, matched, groups);
    results := EvaluateEach(lib, rules, metrics, message, groups, threshold, poolThreads, trie, matched);
    AllAnswered(lib, rules, trie, message, matched, groups, results);
    AllCounted(lib, rules, trie, message, matched, groups);
  }

  ghost predicate AllMatched(lib: Library, rules: Slots, trie: T.Trie, message: Message, matched: seq<nat>,
                             groups: seq<SchemaRuleGroup>)
  {
    forall g :: 0 <= g < |groups| ==> GroupMatched(lib, rules, trie, message, matched, groups[g])
  }

  /** The loop over the groups. */
  method EvaluateEach(lib: Library, rules: Slots, metrics: EvalMetrics, message: Message, groups: seq<SchemaRuleGroup>,
                      threshold: nat, poolThreads: nat, ghost trie: T.Trie, ghost matched: seq<nat>)
    returns (results: seq<RuleEvaluation>)
    requires metrics.Valid() && Apart(groups) && AllMatched(lib, rules, trie, message, matched, groups)
    modifies metrics
    ensures metrics.Valid() && AnswersGroups(lib, rules, message, groups, |groups|, results)
    ensures metrics.counts == old(metrics.counts).Plus(CountsIn(lib, rules, message, groups, |groups|))
  {
    results := [];
    PlusAssociates(metrics.counts, NOTHING, NOTHING);
    for n := 0 to |groups|
      invariant metrics.Valid() && AnswersGroups(lib, rules, message, groups, n, results)
      invariant metrics.counts == old(metrics.counts).Plus(CountsIn(lib, rules, message, groups, n))
    {
      var some := EvaluateGroup(lib, rules, metrics, message, groups[n], threshold, poolThreads, trie, matched);
      NextGroupAnswers(lib, rules, message, groups, n, results, some);
      CountsNext(lib, rules, message, groups, n, old(metrics.counts));
      results := results + some;
    }
  }

  /** After all groups, the answer is that of the message. */
  lemma AllAnswered(lib: Library, rules: Slots, trie: T.Trie, message: Message, matched: seq<nat>,
                    groups: seq<SchemaRuleGroup>,
                    results: seq<RuleEvaluation>)
    requires SoundLibrary(lib) && SoundSlots(lib, ProtobufDecoder, rules) && Indexed(rules, trie)
    requires MatchedFor(trie, message.topic, matched) && GroupsOf(rules, matched, groups)
    requires AnswersGroups(lib, rules, message, groups, |groups|, results)
    ensures Answers(lib, ProtobufDecoder, rules, message, results)
  {
    forall i: nat ensures InGroups(groups, |groups|, i) <==> Applies(rules, i, message.topic) {
      GroupsCover(lib, rules, trie, message, matched, groups, i);
    }
  }

  /** And so are the counts. */
  lemma AllCounted(lib: Library, rules: Slots, trie: T.Trie, message: Message, matched: seq<nat>,
                   groups: seq<SchemaRuleGroup>)
    requires SoundLibrary(lib) && SoundSlots(lib, ProtobufDecoder, rules) && Indexed(rules, trie)
    requires MatchedFor(trie, message.topic, matched) && GroupsOf(rules, matched, groups)
    ensures CountsIn(lib, rules, message, groups, |groups|) == MessageCounts(lib, ProtobufDecoder, rules, message)
  {
    var evaluated, failed := EvaluatedRules(lib, ProtobufDecoder, rules, message),
        FailedRules(lib, ProtobufDecoder, rules, message);
    var typeFailed := TypeFailedRules(lib, ProtobufDecoder, rules, message);
    assert typeFailed <= failed <= evaluated;
    forall i: nat | i in evaluated ensures InGroups(groups, |groups|, i) {
      GroupsCover(lib, rules, trie, message, matched, groups, i);
    }
    PartsCover(rules, matched, groups, evaluated);
    PartsCover(rules, matched, groups, failed);
    PartsCover(rules, matched, groups, typeFailed);
    FaultsCover(lib, rules, trie, message, matched, groups, SchemaError);
    FaultsCover(lib, rules, trie, message, matched, groups, DecodeError);
    FaultsCover(lib, rules, trie, message, matched, groups, BuildError);
  }

  lemma DisjointCount<X>(a: set<X>, b: set<X>)
    requires forall x :: x in b ==> x !in a
    ensures |a + b| == |a| + |b|
  {
    assert a !! b;
  }

  /** The indexes of a set that are in the first n groups. */
  ghost function PartIn(all: set<nat>, groups: seq<SchemaRuleGroup>, n: nat): set<nat>
    requires n <= |groups|
  {
    set i | i in all && InGroups(groups, n, i)
  }

  /** No index is in two groups. */
  ghost predicate Apart(groups: seq<SchemaRuleGroup>) {
    forall g, h, i :: 0 <= g < h < |groups| && i in groups[g].ruleIndexes ==> i !in groups[h].ruleIndexes
  }

  lemma GroupsAreApart(rules: Slots, matched: seq<nat>, groups: seq<SchemaRuleGroup>)
    requires GroupsOf(rules, matched, groups)
    ensures Apart(groups)
  {
    forall g, h, i | 0 <= g < h < |groups| && i in groups[g].ruleIndexes ensures i !in groups[h].ruleIndexes {
      OfSchemaHolds(rules, matched, groups[g].schema, i);
      OfSchemaHolds(rules, matched, groups[h].schema, i);
    }
  }

  lemma PartGrows(groups: seq<SchemaRuleGroup>, n: nat, all: set<nat>)
    requires Apart(groups) && n < |groups|
    ensures |PartIn(all, groups, 0)| == 0
    ensures |PartIn(all, groups, n + 1)| == |PartIn(all, groups, n)| + |all * Elements(groups[n].ruleIndexes)|
  {
    assert PartIn(all, groups, 0) == {};
    PartSplits(groups, n, all);
    DisjointCount(PartIn(all, groups, n), all * Elements(groups[n].ruleIndexes));
  }

  lemma PartCountIs(groups: seq<SchemaRuleGroup>, all: set<nat>)
    requires Apart(groups)
    ensures PartCount(all, groups, |groups|) == |PartIn(all, groups, |groups|)|
  {
    assert PartIn(all, groups, 0) == {};
    for n := 0 to |groups|
      invariant PartCount(all, groups, n) == |PartIn(all, groups, n)|
    {
      PartCountNext(all, groups, n);
      PartGrows(groups, n, all);
    }
  }

  lemma PartSplits(groups: seq<SchemaRuleGroup>, n: nat, all: set<nat>)
    requires Apart(groups) && n < |groups|
    ensures PartIn(all, groups, n + 1) == PartIn(all, groups, n) + all * Elements(groups[n].ruleIndexes)
    ensures forall i: nat :: i in all * Elements(groups[n].ruleIndexes) ==> i !in PartIn(all, groups, n)
  {
    forall i: nat ensures InGroups(groups, n + 1, i) <==> InGroups(groups, n, i) || i in groups[n].ruleIndexes {}
  }

  /** A set of indexes that are all in some group is counted whole. */
  lemma PartsCover(rules: Slots, matched: seq<nat>, groups: seq<SchemaRuleGroup>, all: set<nat>)
    requires GroupsOf(rules, matched, groups) && forall i: nat :: i in all ==> InGroups(groups, |groups|, i)
    ensures PartCount(all, groups, |groups|) == |all|
  {
    GroupsAreApart(rules, matched, groups);
    PartCountIs(groups, all);
    assert PartIn(all, groups, |groups|) == all;
  }

  /** The schemas of the first n groups under which the payload does not decode. */
  ghost function SchemasIn(lib: Library, payload: Bytes, groups: seq<SchemaRuleGroup>, n: nat,
                           kind: PayloadErrorKind): set<string>
    requires n <= |groups|
  {
    set g | 0 <= g < n && SchemaFails(lib, groups[g].schema, payload, kind) :: groups[g].schema
  }

  ghost predicate OneGroupEach(groups: seq<SchemaRuleGroup>) {
    forall g, h :: 0 <= g < h < |groups| ==> groups[g].schema != groups[h].schema
  }

  lemma FaultCountIs(lib: Library, payload: Bytes, groups: seq<SchemaRuleGroup>, kind: PayloadErrorKind)
    requires OneGroupEach(groups)
    ensures FaultCount(lib, payload, groups, |groups|, kind) == |SchemasIn(lib, payload, groups, |groups|, kind)|
  {
    assert SchemasIn(lib, payload, groups, 0, kind) == {};
    for n := 0 to |groups|
      invariant FaultCount(lib, payload, groups, n, kind) == |SchemasIn(lib, payload, groups, n, kind)|
    {
      FaultCountNext(lib, payload, groups, n, kind);
      SchemasSplit(lib, payload, groups, n, kind);
      DisjointCount(SchemasIn(lib, payload, groups, n, kind), SchemaIfFaulty(lib, payload, groups[n].schema, kind));
    }
  }

  ghost function SchemaIfFaulty(lib: Library, payload: Bytes, schema: string, kind: PayloadErrorKind): set<string> {
    if SchemaFails(lib, schema, payload, kind) then {schema} else {}
  }

  lemma SchemasSplit(lib: Library, payload: Bytes, groups: seq<SchemaRuleGroup>, n: nat, kind: PayloadErrorKind)
    requires OneGroupEach(groups) && n < |groups|
    ensures SchemasIn(lib, payload, groups, n + 1, kind) ==
            SchemasIn(lib, payload, groups, n, kind) + SchemaIfFaulty(lib, payload, groups[n].schema, kind)
    ensures groups[n].schema !in SchemasIn(lib, payload, groups, n, kind)
  {}

  /** The faulty schemas of the groups are those of the rules that apply. */
  lemma FaultsCover(lib: Library, rules: Slots, trie: T.Trie, message: Message, matched: seq<nat>,
                    groups: seq<SchemaRuleGroup>,
                    kind: PayloadErrorKind)
    requires SoundLibrary(lib) && SoundSlots(lib, ProtobufDecoder, rules) && Indexed(rules, trie)
    requires MatchedFor(trie, message.topic, matched) && GroupsOf(rules, matched, groups)
    ensures FaultCount(lib, message.payload, groups, |groups|, kind) == |FailedSchemas(lib, rules, message, kind)|
  {
    FaultCountIs(lib, message.payload, groups, kind);
    SchemasCover(lib, rules, trie, message, matched, groups, kind);
  }

  lemma SchemasCover(lib: Library, rules: Slots, trie: T.Trie, message: Message, matched: seq<nat>,
                     groups: seq<SchemaRuleGroup>,
                     kind: PayloadErrorKind)
    requires SoundLibrary(lib) && SoundSlots(lib, ProtobufDecoder, rules) && Indexed(rules, trie)
    requires MatchedFor(trie, message.topic, matched) && GroupsOf(rules, matched, groups)
    ensures SchemasIn(lib, message.payload, groups, |groups|, kind) == FailedSchemas(lib, rules, message, kind)
  {
    var all := SchemasIn(lib, message.payload, groups, |groups|, kind);
    forall g | 0 <= g < |groups| && SchemaFails(lib, groups[g].schema, message.payload, kind)
      ensures groups[g].schema in FailedSchemas(lib, rules, message, kind)
    {
      var i := groups[g].ruleIndexes[0];
      GroupMember(lib, rules, trie, message, matched, groups[g], i);
    }
    forall i: nat | Applies(rules, i, message.topic) && rules[i].value.binding.ProtobufBinding? &&
                    SchemaFails(lib, rules[i].value.binding.schema, message.payload, kind)
      ensures rules[i].value.binding.schema in all
    {
      AppliesIsMatched(rules, trie, message.topic, matched, i);
      GroupsPartition(rules, matched, groups, i, rules[i].value.binding.schema);
    }
  }

  lemma NextGroupAnswers(lib: Library, rules: Slots, message: Message, groups: seq<SchemaRuleGroup>, n: nat,
                         results: seq<RuleEvaluation>, some: seq<RuleEvaluation>)
    requires Apart(groups) && n < |groups|
    requires AnswersGroups(lib, rules, message, groups, n, results) &&
             AnswersGroup(lib, rules, message, groups[n], some)
    ensures AnswersGroups(lib, rules, message, groups, n + 1, results + some)
  {
    forall j, k | 0 <= j < |results| && 0 <= k < |some| ensures results[j].ruleIndex != some[k].ruleIndex {
      assert RuleEvaluation(results[j].ruleIndex, results[j].message) in results;
      assert some[k] == RuleEvaluation(some[k].ruleIndex, some[k].message) && some[k] in some;
      assert some[k].ruleIndex in groups[n].ruleIndexes && InGroups(groups, n, results[j].ruleIndex);
    }
    assert forall i: nat :: InGroups(groups, n + 1, i) <==> InGroups(groups, n, i) || i in groups[n].ruleIndexes;
  }

  /** The groups together hold exactly the rules that apply. */
  lemma GroupsCover(lib: Library, rules: Slots, trie: T.Trie, message: Message, matched: seq<nat>,
                    groups: seq<SchemaRuleGroup>, i: nat)
    requires SoundLibrary(lib) && SoundSlots(lib, ProtobufDecoder, rules) && Indexed(rules, trie)
    requires MatchedFor(trie, message.topic, matched) && GroupsOf(rules, matched, groups)
    ensures InGroups(groups, |groups|, i) <==> Applies(rules, i, message.topic)
  {
    AppliesIsMatched(rules, trie, message.topic, matched, i);
    forall g | 0 <= g < |groups| && i in groups[g].ruleIndexes ensures Applies(rules, i, message.topic) {
      GroupMember(lib, rules, trie, message, matched, groups[g], i);
    }
    if Applies(rules, i, message.topic) {
      assert rules[i].value.binding.ProtobufBinding?;
      GroupsPartition(rules, matched, groups, i, rules[i].value.binding.schema);
    }
  }
}
