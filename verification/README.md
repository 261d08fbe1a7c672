# Verification of the TENON rule engine

A model of the TENON multi-rule MQTT transform engine in Dafny 4.11, with proofs that its shortcuts
agree with one simple specification: for every live rule whose filter matches the topic, evaluate its
WHERE and SELECT on the payload.

Verify with `dafny verify dfyconfig.toml`.

## How the project is laid out

The specification is `EngineSpec.dfy`: a table of rule definitions, in which a message is answered by
reading the expressions of each definition, with no plans, topic index, cache, shared decoding or grouping.
The engine is the class in `RuleEngine.dfy`, with slots, id map, topic index, two caches and counters
updated in place. `EngineRuns.dfy` proves that any sequence of add, remove and evaluate commands is
answered alike by both, with all counters. The parts it is built from:

- `Topics`, `TrieModel`, `TopicTrie`: the linear matcher, the trie as a value, and the linked nodes that
  are changed in place and shown to hold that value.
- `Expressions`, `Evaluation`, `EvaluationProofs`, `Rules`: compilation with constant folding, the JSON and
  the borrowed-value evaluation path, the meaning of an expression without either, required fields, and
  whole rules.
- `Semantics`, `Projection`: that meaning, and what a rule yields, in terms of numbers, texts, truth values
  and columns alone. The evaluators and the meaning share the operations on two values; here those are fixed
  from outside.
- `Doubles`, `Values`, `MsgIr`, `FullAgainstSparse`: numbers, JSON and payload values, the slot store,
  sparse decoding against full flattening.
- `XorShift`, `MatchCache`, `PayloadRuntime`: the bounded cache with random eviction and its consistency.
- `SchemaGroups`, `EngineModel`, `Attempting`, `GroupEvaluation`, `Metrics`: what one message does.
- `Dispatch`, `Serving`: sinks as logs, and the path from a message to the destinations of its rules.
- `Ingest`, `Pipeline`, `LatencyMax`: the worker pipeline as interleaved steps, the same with the engine and the
  dispatcher at work in it, and the lock-free maximum.
- `EngineExamples`: concrete definitions for two of the findings below.
- `ClientIds`, `Text`: the client-id file.

## Modelling decisions

- A finite f64 is its real value. Arithmetic results go through an arbitrary rounding function that may
  say "not finite", so the theorems hold for any rounding. Among integers the doubles are those with a
  53-bit significand; integer casts round to nearest, ties to even, because the number conversions depend
  on it. Equality is the source's comparison with epsilon.
- A JSON object is its entries in key order: serde_json's map is a sorted map when its `preserve_order`
  feature is off.
- `Library` holds what lies outside the model: SQL parsing, the id hash, rounding, JSON text and protobuf
  decoding. The engine theorems assume of it only that parsed numbers are finite doubles and parsed objects
  repeat no key.
- Iteration over hash sets and maps is an arbitrary choice; answers are compared as sets without repeats.
- The source has one runtime, with one cache, for each payload format; the model's `PayloadRuntime` holds
  both caches and uses the one of its format.
- Error values keep their kinds, operators and operand types, not the context labels of their texts.
- A chunked evaluation cuts the matched rules at arbitrary points and concatenates; that is all the model
  says about the thread pool.

## What the proofs brought to light

- Removal does not undo insertion for a filter with `#` before its last level: insertion stops at the first
  `#`, removal walks every level. It does exactly when `#` is only the last level (`RemoveUndoesInsert`), and
  over whole histories the index answers as the held filters do exactly when no other filter was removed for
  good (`HeldFiltersMatchIff`); a/#/b is an example (`MiddleHashStays`). The engine stays right, because the
  slot is emptied too.
- The two comparison paths can fail with different error classes; `FastErrorClass` says exactly when,
  `ErrorClassesCanDiffer` is an input. So a predicate has a verdict of its own (`Verdict`): its left side must
  be a scalar before its right side is looked at. Constant folding keeps the class all the same.
- A JSON rule that reads nothing from the payload is dropped with the others when the payload is no object
  and another matching rule reads it (`AnsweredAlone`, with the example `PayloadWithheld`). That is the one
  case in which rules influence each other, so the specification has it too, in `PayloadOf`.
- Two definitions with the same hash share an id. The newest takes it, and no run can remove the older one
  any more (`RemovableIff`, `TwinsStrand`, with the example `TwinStays`).
- A forced stop can abandon a delivery that is never counted as dequeued; then the depth gauge stays one too
  high (`GaugeAtRest`, with the run `StopCanAbandon`).
- Full flattening and path lookup can disagree on objects with dotted keys, exactly when some dotted member
  path spells a text that leads elsewhere than to the value last spelled by it (`FullAgreesIff`;
  `DottedKeyDiffers` and `DottedKeyCanAgree` are examples of both). The engine itself always decodes sparsely.

## Model

| member | source | states |
|---|---|---|
| `EngineRuns.RunNew` | engine/tenon-core/src/runtime.rs:102-231 | A new engine, with any cache capacity and any number of pool threads, answers every sequence of add, remove and evaluate exactly as the bare table of definitions does: same acceptances and ids, same removals, and for every message exactly the outputs its live definitions mean, no index twice. |
| `EngineRuns.Run` | engine/tenon-core/src/runtime.rs:102-301 | The same from any reachable engine, which goes on representing the table; all six counters - evaluations, errors, type errors and the three kinds of payload error - grow by exactly what the table says. |
| `EngineRuns.Perform` | engine/tenon-core/src/runtime.rs:102-136 | One command: the engine still represents the table after it, and its reply and counters are the table's. |
| `EngineRuns.PerformAdd` | engine/tenon-core/src/runtime.rs:102-118 | Adding answers with the id or with the reason for refusal that the text of the definition alone determines, and changes no counter. |
| `EngineRuns.PerformRemove` | engine/tenon-core/src/runtime.rs:120-132 | Removing answers whether the id was known, and empties the slot it led to. |
| `EngineRuns.PerformAsk` | engine/tenon-core/src/runtime.rs:134-136 | Evaluating changes no rule and answers as the table does. |
| `EngineSpec.AnswersAgree` | engine/tenon-core/src/runtime.rs:138-231 | An answer over compiled slots is an answer over the texts of their definitions, and adds the same to every counter. |
| `EngineSpec.MeaningsAgree` | engine/tenon-core/src/runtime.rs:553-595 | A compiled slot and the text of its definition mean the same for every message. |
| `EngineSpec.AddImplements` | engine/tenon-core/src/runtime.rs:102-118 | An accepted definition gets its hash as id and its compiled form implements the new slot. |
| `EngineSpec.RefusalReplies` | engine/tenon-core/src/runtime.rs:103-108 | A refused definition changes nothing, and the error is the first of: schema misfit, SQL error, unsupported expression. |
| `EngineSpec.RemoveImplements` | engine/tenon-core/src/runtime.rs:120-132 | Emptying the slot an id leads to implements the removal in the table. |
| `EngineSpec.RepliesAgree` | engine/tenon-core/src/runtime.rs:797-802 | The specification fixes every reply up to the order of results: two replies to one command hold the same results, equally many. |
| `EngineSpec.SlotsNeverMove` | engine/tenon-core/src/runtime.rs:102-132 | Over any run a slot index names one rule for ever: rules never move, emptied slots stay empty, and ids lead to live rules that hash to them. |
| `EngineSpec.RemovableIff` | engine/tenon-core/src/runtime.rs:120-132 | Some run removes a rule if and only if its id leads to its slot; a rule whose id a newer rule took answers for ever. |
| `EngineSpec.TwinsStrand` | engine/tenon-core/src/runtime.rs:102-132 | Of all commands, exactly the accepted addition of a definition with the same hash leaves a removable rule in place but unremovable. |
| `EngineExamples.TwinStays` | engine/tenon-core/src/runtime.rs:109-124 | Two definitions with one hash: no run removes the first. |
| `RuleEngine.RuleEngine.constructor` | engine/tenon-core/src/runtime.rs:49-77 | An engine of fresh parts represents no rules and meets the invariant: slots, ids, topic index and caches agree. |
| `RuleEngine.NewEngine` | engine/tenon-core/src/runtime.rs:45-77 | Builds the parts for either payload format and any cache capacity. |
| `RuleEngine.RuleEngine.AddRule` | engine/tenon-core/src/runtime.rs:102-118 | Refused exactly for the reason the definition gives, with no change, or the compiled rule takes the next slot and its id leads there; the invariant is kept. |
| `RuleEngine.RuleEngine.Store` | engine/tenon-core/src/runtime.rs:110-116 | Slots, id map, topic index and caches change together. |
| `RuleEngine.RuleEngine.RemoveRule` | engine/tenon-core/src/runtime.rs:120-132 | True exactly for a known id; its slot becomes empty, the id is forgotten, every other slot and id is unchanged, and the invariant is kept. |
| `RuleEngine.RuleEngine.Evaluate` | engine/tenon-core/src/runtime.rs:134-136 | The answer is exactly the expected outputs of the live rules that match; the counters grow by the evaluated, failing and type-failing rules and by the payload errors. |
| `RuleEngine.RuleEngine.EvaluateJsonMessage` | engine/tenon-core/src/runtime.rs:138-177 | The same for one JSON payload, decoded once for all matched rules. |
| `RuleEngine.RuleEngine.EvaluateProtobufMessage` | engine/tenon-core/src/runtime.rs:179-189 | The same for a protobuf payload, decoded once for each schema. |
| `RuleEngine.RuleEngine.EvaluateRuleGroups` | engine/tenon-core/src/runtime.rs:191-231 | The answer from any grouping of the matched rules that partitions them by schema. |
| `RuleEngine.RuleEngine.MatchRuleIndexesWithCache` | engine/tenon-core/src/runtime.rs:343-346 | Exactly the rules stored under a matching path, each once, whether cached or not; the cache stays consistent. |
| `RuleEngine.RuleEngine.MatchRuleGroupsWithCache` | engine/tenon-core/src/runtime.rs:348-355 | A grouping of exactly those rules, whether cached or not. |
| `RuleEngine.RuleEngine.ListRuleMetadata` | engine/tenon-core/src/runtime.rs:315-326 | Exactly the live slots with their destinations, in slot order. |
| `RuleEngine.RuleEngine.SetEvalParallelThreshold` | engine/tenon-core/src/runtime.rs:94-96 | The given threshold, the default of 64 when none is given, and 1 for 0. |
| `EngineModel.IndexFindsLiveRules` | engine/tenon-core/src/runtime.rs:797-821 | The topic index finds a live rule exactly when its filter matches the topic by the linear rule; what else it holds is dead. |
| `EngineModel.AddKeepsIndexed` | engine/tenon-core/src/runtime.rs:109-115 | Adding keeps every live rule stored under its filter and nowhere else. |
| `EngineModel.RemoveKeepsIndexed` | engine/tenon-core/src/runtime.rs:120-132 | So does removing, even for filters whose index entry survives the removal. |
| `EngineModel.TablesAdd` | engine/tenon-core/src/runtime.rs:109-116 | Slots, ids and index agree after adding a compiled rule. |
| `EngineModel.TablesRemove` | engine/tenon-core/src/runtime.rs:120-132 | And after removing one, with the id map shrunk by exactly that id. |
| `EngineModel.AttemptIsExpected` | engine/tenon-core/src/runtime.rs:553-595 | Evaluated with the shared payload, a rule yields exactly what its own text means on the payload read alone, and fails exactly when that is an error, with a type error exactly when that is one. |
| `EngineSpec.AnsweredAlone` | engine/tenon-core/src/runtime.rs:138-231 | A rule means among the others what it means alone, if and only if it is not a matching JSON rule that reads no payload while the payload is no object and another matching rule reads it. |
| `EngineExamples.PayloadWithheld` | engine/tenon-core/src/runtime.rs:149-171 | Two rules over a payload that is no object: the one that reads nothing means the message alone and nothing beside the other. |
| `EngineModel.AnswersAddUp` | engine/tenon-core/src/runtime.rs:286-299 | Evaluated rules = results + failing rules + rules with a false predicate, for every answer. |
| `EngineModel.AttemptsAddUp` | engine/tenon-core/src/runtime.rs:286-299 | Every attempt is a result, an error or a rejection, and type errors are errors. |
| `EngineModel.AttemptsConcat` | engine/tenon-core/src/runtime.rs:257-285 | Evaluating a list of rules in consecutive chunks and concatenating gives the sequential attempts. |
| `EngineModel.OutputsAre` | engine/tenon-core/src/runtime.rs:286-299 | The outputs are exactly those of the listed live rules that yield one. |
| `EngineModel.OutputsAreDistinct` | engine/tenon-core/src/runtime.rs:286-299 | No rule gives two outputs when no index is listed twice. |
| `Attempting.CollectRequired` | engine/tenon-core/src/runtime.rs:608-624 | The union of the required fields of the live matched rules, each once. |
| `Attempting.RequireTopicParts` | engine/tenon-core/src/runtime.rs:626-637 | True exactly when a live matched rule reads topic levels. |
| `Attempting.DecodeJson` | engine/tenon-core/src/payload.rs:170-209 | Fails exactly when a field is asked for and the bytes are no JSON object, with the kind of error the bytes determine; otherwise every field asked for is the one found by path lookup. |
| `Attempting.RunInChunks` | engine/tenon-core/src/runtime.rs:257-273 | Any cut into consecutive chunks gives the sequential attempts. |
| `Attempting.EvaluateMatched` | engine/tenon-core/src/runtime.rs:234-301 | The outputs in order, with the counters moved by the attempts, errors and type errors, on either branch. |
| `Attempting.Record` | engine/tenon-core/src/runtime.rs:286-299 | Counts every attempt once and keeps the outputs in order. |
| `Attempting.JsonServes` | engine/tenon-core/src/runtime.rs:149-177 | The fields collected from all matched rules hold what each of them requires, read by path. |
| `Attempting.JsonAnswers` | engine/tenon-core/src/runtime.rs:149-177 | So the joint evaluation is the answer to the message. |
| `Attempting.JsonCounts` | engine/tenon-core/src/runtime.rs:286-299 | And every evaluated rule is attempted once, with the errors and type errors of exactly the failing rules. |
| `Attempting.CountIs` | engine/tenon-core/src/runtime.rs:286-299 | Counting attempts of any kind is counting the listed live rules whose attempt is of that kind. |
| `Attempting.JsonDropped` | engine/tenon-core/src/runtime.rs:154-171 | A payload that is needed and is no object leaves nothing to evaluate and moves one payload-error counter, that of its fault. |
| `Attempting.AnswerJson` | engine/tenon-core/src/runtime.rs:144-177 | The whole JSON path after matching: answer and counters. |
| `SchemaGroups.BuildSchemaRuleGroups` | engine/tenon-core/src/runtime.rs:645-669 | One nonempty group for each schema that occurs, holding exactly the matched live rules of that schema in match order. |
| `SchemaGroups.GroupsPartition` | engine/tenon-core/src/runtime.rs:645-669 | Each matched live protobuf rule is in the group of its own schema and in no other. |
| `SchemaGroups.OfSchemaHolds` | engine/tenon-core/src/runtime.rs:645-669 | A schema's group holds exactly the matched live rules bound to it. |
| `GroupEvaluation.EvaluateGroup` | engine/tenon-core/src/runtime.rs:196-229 | A group answers for exactly its rules, each under the group's schema, and adds their evaluations or one payload error of the right kind to the counters. |
| `GroupEvaluation.GroupDropped` | engine/tenon-core/src/runtime.rs:208-224 | A decode failure in one schema removes only that group's results and evaluations, and is counted once under its kind. |
| `GroupEvaluation.GroupAnswers` | engine/tenon-core/src/runtime.rs:225-229 | Evaluating in the group gives what each rule gives alone under its schema. |
| `GroupEvaluation.EvaluateGroups` | engine/tenon-core/src/runtime.rs:191-231 | All groups in any order give the answer and exactly the message's counts. |
| `GroupEvaluation.AnswerProtobuf` | engine/tenon-core/src/runtime.rs:191-231 | So does any grouping of the matched rules that partitions them by schema. |
| `GroupEvaluation.FaultsCover` | engine/tenon-core/src/runtime.rs:208-224 | The payload errors of the groups are one for each schema of a matching rule under which the payload does not decode. |
| `GroupEvaluation.PartsCover` | engine/tenon-core/src/runtime.rs:191-231 | A set of rules is counted whole when it is counted group by group. |
| `GroupEvaluation.GroupsCover` | engine/tenon-core/src/runtime.rs:645-669 | The groups together hold exactly the rules that apply. |
| `PayloadRuntime.PayloadRuntime.MatchRuleIndexes` | engine/tenon-core/src/runtime.rs:421-430 | A cached or fresh answer is the current index's; caching it keeps every entry the current index's answer. |
| `PayloadRuntime.PayloadRuntime.MatchSchemaGroups` | engine/tenon-core/src/runtime.rs:495-506 | The same for groups. |
| `PayloadRuntime.PayloadRuntime.ClearCache` | engine/tenon-core/src/runtime.rs:479-482 | No entry is left, in either cache. |
| `MatchCache.TopicMatchCache.Insert` | engine/tenon-core/src/runtime.rs:707-723 | A new topic survives its own eviction, all other entries kept are unchanged, exactly the drawn topic goes when the cache is full and nothing below capacity, capacity 0 stores nothing, and the size bound and key list are kept. |
| `MatchCache.TopicMatchCache.EvictRandom` | engine/tenon-core/src/runtime.rs:725-733 | Exactly the entry at the drawn place goes, and the last key takes its place in the key list. |
| `MatchCache.TopicMatchCache.NextRandom` | engine/tenon-core/src/runtime.rs:735-743 | One generator step; the state stays nonzero. |
| `MatchCache.SwapRemoveLists` | engine/tenon-core/src/runtime.rs:729-732 | Moving the last key into the removed place keeps keys and entries in step, no key twice. |
| `XorShift.NextStateIsBijective` | engine/tenon-core/src/runtime.rs:736-739 | The generator step on 64-bit words has a two-sided inverse. |
| `XorShift.NextStateKeepsNonZero` | engine/tenon-core/src/runtime.rs:736-742 | So the zero state is reached only from the zero state. |
| `XorShift.BitsAreBinary` | engine/tenon-core/src/runtime.rs:674-692 | The bits of a word are the binary digits of its number, so the seed is the number given. |
| `TopicTrie.TrieNode.InsertFrom` | engine/tenon-core/src/runtime.rs:768-790 | Inserting into the linked nodes makes of their value exactly the inserted trie, with all frames and disjointness kept. |
| `TopicTrie.TrieNode.RemoveFrom` | engine/tenon-core/src/runtime.rs:823-868 | Removing makes exactly the pruned trie of the nodes and tells whether the node is empty. |
| `TopicTrie.TrieNode.ReplaceChild` | engine/tenon-core/src/runtime.rs:835-866 | Linking or dropping one child changes exactly that edge of the value. |
| `TopicTrie.TrieNode.MatchNode` | engine/tenon-core/src/runtime.rs:804-821 | Collects exactly what matching the value yields, besides what was collected before. |
| `TopicTrie.TopicTrie.Insert` | engine/tenon-core/src/runtime.rs:768-790 | The index changes by insertion of the split filter. |
| `TopicTrie.TopicTrie.Remove` | engine/tenon-core/src/runtime.rs:792-795 | The index changes by removal of the split filter. |
| `TopicTrie.TopicTrie.MatchTopicIndexes` | engine/tenon-core/src/runtime.rs:797-802 | Exactly the rules stored under a path that matches the topic, each once. |
| `TrieModel.InsertKeeps` | engine/tenon-core/src/runtime.rs:768-790 | Insertion keeps the trie pruned and its hash edges leaves. |
| `TrieModel.RemoveKeeps` | engine/tenon-core/src/runtime.rs:823-868 | Removal keeps the trie pruned: no empty node below the root. |
| `TrieModel.AtInsert` | engine/tenon-core/src/runtime.rs:778-783 | Insertion adds the rule under the filter cut at its first `#`, and changes nothing else. |
| `TrieModel.AtRemove` | engine/tenon-core/src/runtime.rs:841-845 | Removal removes the rule under the full filter, and changes nothing else. |
| `TrieModel.MatchIsLinear` | engine/tenon-core/src/runtime.rs:804-821 | The recursive matcher answers with exactly the rules stored under some path the linear rule matches. |
| `TrieModel.SameStoreSameTrie` | engine/tenon-core/src/runtime.rs:746-766 | A pruned trie is determined by what it stores. |
| `TrieModel.RemoveUndoesInsert` | engine/tenon-core/src/runtime.rs:768-795 | Removing a fresh insertion restores exactly the same trie if and only if `#` is only the last level of the filter. |
| `TrieModel.MiddleHashStays` | engine/tenon-core/src/runtime.rs:768-795 | Inserting and removing a/#/b leaves the trie answering for it. |
| `TrieModel.HistoryKeeps` | engine/tenon-core/src/runtime.rs:768-868 | After any history the trie is pruned and stores exactly the pairs the history leaves behind. |
| `TrieModel.HistoryMatches` | engine/tenon-core/src/runtime.rs:797-821 | After any history the answer is exactly the rules left under a matching path. |
| `TrieModel.OrderDoesNotMatter` | engine/tenon-core/src/runtime.rs:768-868 | Two histories that leave the same pairs build the same trie. |
| `TrieModel.HeldFiltersMatch` | engine/tenon-core/src/rule.rs:1103-1126 | When `#` is only ever last, or nothing is removed, the index answers with exactly the rules present under some filter that matches the topic. |
| `TrieModel.HeldFiltersMatchIff` | engine/tenon-core/src/runtime.rs:768-868 | When every rule has one filter, as the engine's fresh slots have, the index answers every topic as the held filters do if and only if every filter inserted with `#` before its last level is still held. |
| `Topics.MatchTopic` | engine/tenon-core/src/rule.rs:1103-1126 | The loop decides exactly the wildcard rule of section 4.7.1 of MQTT Version 5.0, the `$` exclusion of 4.7.2 aside. |
| `Topics.CutFacts` | engine/tenon-core/src/runtime.rs:778-783 | Cutting a filter at its first `#` matches the same topics, and changes the filter exactly when `#` is not only last. |
| `EvaluationProofs.FoldPreserves` | engine/tenon-core/src/rule.rs:297-425 | For every expression and context with finite numbers, folded and unfolded plan give the same value or both fail, with the same class of error, as value and as predicate. |
| `EvaluationProofs.CompileIsCorrect` | engine/tenon-core/src/rule.rs:297-380 | The compiled plan of every expression computes exactly its value and its verdict as a predicate, and fails with a type error exactly when they do. |
| `Semantics.NumbersAreOrdered` | engine/tenon-core/src/rule.rs:717-726 | `>`, `>=`, `<` and `<=` between expressions that mean numbers hold, as a value and as a predicate, exactly when the f64 values stand in that order. |
| `Semantics.NumbersAreEqual` | engine/tenon-core/src/rule.rs:717-726 | `=` between numbers holds exactly when their rounded difference is finite and below 2^-52 either way, and `!=` exactly when not. |
| `Semantics.TextsCompare` | engine/tenon-core/src/rule.rs:727-738 | Texts are equal or unequal as texts are; ordering them is a type error. |
| `Semantics.TruthsCompare` | engine/tenon-core/src/rule.rs:739-750 | Truth values likewise. |
| `Semantics.MixedCompare` | engine/tenon-core/src/rule.rs:751-757 | Comparing values of different kinds, nulls, arrays or objects is a type error. |
| `Semantics.FailingSidesCompare` | engine/tenon-core/src/rule.rs:616-629 | The left failure of a comparison comes first, then the right; in a predicate a left side that is no scalar is a type error before the right side is looked at. |
| `Semantics.ComparisonsTurn` | engine/tenon-core/src/rule.rs:711-757 | For any two expressions a > b decides as b < a does, and a >= b as b <= a. |
| `Semantics.ComparisonsNegate` | engine/tenon-core/src/rule.rs:711-757 | For any two expressions a >= b is the negation of a < b, and a != b of a = b; they fail together. |
| `Semantics.LogicalMeans` | engine/tenon-core/src/rule.rs:564-577 | AND and OR of the verdicts of both sides; both are evaluated, and the left failure comes first. |
| `Semantics.OnlyTruthsDecide` | engine/tenon-core/src/rule.rs:596-608 | Any other predicate decides as its value does, and a value that is no truth value is a type error. |
| `Semantics.ArithmeticMeans` | engine/tenon-core/src/rule.rs:860-890 | Arithmetic on numbers is the exact result rounded to f64; a division by zero or a result that is not finite is unsupported, which is no type error. |
| `Semantics.ArithmeticFails` | engine/tenon-core/src/rule.rs:860-890 | Arithmetic on anything else is a type error; a failing side is the failure, the left one first. |
| `Semantics.TopicLevelMeans` | engine/tenon-core/src/rule.rs:811-825 | topic_level(_, n) is the n-th level from 1, and the first for 0, whether n is an integer or a whole f64; a level the topic lacks is missing metadata. |
| `Semantics.TopicLevelMisfits` | engine/tenon-core/src/rule.rs:984-999 | A negative, fractional or too large number and any other value name no level: a type error. |
| `Semantics.PropertyMeans` | engine/tenon-core/src/rule.rs:826-845 | properties[k] is the property of that name, or missing; a key that is no text is a type error. |
| `Semantics.NamesMean` | engine/tenon-core/src/rule.rs:772-783 | clientId and username are the message's, or missing metadata. |
| `Semantics.ErrorClasses` | engine/tenon-core/src/rule.rs:141-148 | Type errors are all errors but missing fields, properties and metadata, unsupported expressions and failed serialization. |
| `Semantics.CompiledDecides` | engine/tenon-core/src/rule.rs:564-608 | What an expression decides, its compiled and folded plan decides on either evaluation path, and where it is a type error the plan has one. |
| `EvaluationProofs.VerdictIsMeaning` | engine/tenon-core/src/rule.rs:564-607 | The verdict of every predicate is the truth of its value, or both fail. |
| `EvaluationProofs.FastRefinesSlow` | engine/tenon-core/src/rule.rs:616-758 | The borrowed-value comparison answers only what the JSON path answers, fails only when it fails, and otherwise declines. |
| `EvaluationProofs.FastErrorClass` | engine/tenon-core/src/rule.rs:616-758 | When both fail they agree on being a type error except exactly when the left side is a value that is no scalar and the right side fails with another class. |
| `EvaluationProofs.ErrorClassesCanDiffer` | engine/tenon-core/src/rule.rs:616-758 | A concrete input on which the classes differ. |
| `EvaluationProofs.FoldedConstant` | engine/tenon-core/src/rule.rs:394-425 | A folded constant is what the unfolded operation evaluates to. |
| `EvaluationProofs.RuntimeAgrees` | engine/tenon-core/src/rule.rs:631-709 | A borrowed form is the scalar of the JSON value of the same plan, and fails with it or on a value that is no scalar. |
| `Expressions.CompileKeeps` | engine/tenon-core/src/rule.rs:434-517 | Compilation, with or without folding, loses no payload key and no topic level of the expression, and hides no unsupported part. |
| `Rules.CompileRule` | engine/tenon-core/src/rule.rs:173-222 | Rejects exactly texts that do not parse or hold an unsupported expression; a compiled rule carries the plans of its own expressions, each payload key they name exactly once, and whether they select topic levels. |
| `Rules.CollectFromPlan` | engine/tenon-core/src/rule.rs:494-517 | Appends exactly the plan's fields not seen before, none twice. |
| `Rules.CollectRequiredFields` | engine/tenon-core/src/rule.rs:446-457 | Exactly the fields of all of a rule's plans, none twice. |
| `Rules.PlanDependsOnItsKeys` | engine/tenon-core/src/rule.rs:459-517 | A plan evaluates alike on any two contexts that agree on its fields, and on topic parts if it reads levels. |
| `Rules.RuleDependsOnItsFields` | engine/tenon-core/src/rule.rs:519-556 | So does a whole rule on its required fields and on any topic parts when it does not require them. |
| `Rules.EvaluateRule` | engine/tenon-core/src/rule.rs:519-556 | The predicate-then-projection loop computes the rule's outcome, stopping at the first failing column. |
| `Rules.RuleComputesItsMeaning` | engine/tenon-core/src/rule.rs:519-556 | A compiled rule yields a message exactly when its expressions mean one, and the same message; it fails exactly when they do, with a type error exactly when they have one. |
| `Projection.WhereDecides` | engine/tenon-core/src/rule.rs:532-539 | A false predicate yields nothing, a failing one is the failure, and a true one leaves the rule to SELECT. |
| `Projection.AllYieldsTheMessage` | engine/tenon-core/src/rule.rs:542-543 | SELECT * yields the message as it came. |
| `Projection.FailingColumnFails` | engine/tenon-core/src/rule.rs:543-549 | The first failing column is the rule's failure. |
| `Projection.ColumnsYield` | engine/tenon-core/src/rule.rs:543-554 | Otherwise the rule yields a new message on the same topic, whose payload is the text of an ordered object with exactly the aliases as keys, each holding the meaning of the last column so named; all other fields are as in a fresh message. An object that cannot be written is an error. |
| `Projection.HeldColumnsAreOne` | engine/tenon-core/src/rule.rs:545-549 | Aliases and columns determine that object. |
| `Projection.CompiledColumnsYield` | engine/tenon-core/src/rule.rs:519-556 | Whatever message a compiled rule with columns yields is that message, and its predicate holds. |
| `MsgIr.LookupJsonPath` | engine/tenon-core/src/msg_ir.rs:283-293 | The loop follows the path through objects and stops where it leads nowhere. |
| `MsgIr.MsgIr.WithSparseLayout` | engine/tenon-core/src/msg_ir.rs:210-219 | Every required key gets a slot of its own, all empty. |
| `MsgIr.MsgIr.Insert` | engine/tenon-core/src/msg_ir.rs:187-197 | The store as a map gains exactly this key and value. |
| `MsgIr.MsgIr.InsertSparse` | engine/tenon-core/src/msg_ir.rs:221-227 | A layout slot is written; the store as a map gains exactly this key and value. |
| `MsgIr.MsgIr.Flatten` | engine/tenon-core/src/msg_ir.rs:327-334 | Writes a value under its path and every member of an object below its dotted path, in order. |
| `MsgIr.FromJsonObject` | engine/tenon-core/src/msg_ir.rs:229-235 | Full decoding stores exactly what flattening all members writes. |
| `MsgIr.FromJsonObjectSparse` | engine/tenon-core/src/msg_ir.rs:237-256 | Sparse decoding stores exactly the required keys whose paths lead somewhere, with the converted value found there. |
| `FullAgainstSparse.FullAgreesIff` | engine/tenon-core/src/msg_ir.rs:229-256 | For every parsed object, full flattening and direct path lookup agree on every key if and only if every member path with a dot in a name spells a text that leads to the value last spelled by it. |
| `FullAgainstSparse.FullAgrees` | engine/tenon-core/src/msg_ir.rs:229-256 | In particular they agree on every key when no key holds a dot. |
| `FullAgainstSparse.FlattenMembersAt` | engine/tenon-core/src/msg_ir.rs:327-334 | Whatever the keys, a flattened store holds under each key the last value, in entry order, whose path spells the key, or what was there before. |
| `FullAgainstSparse.ParsedIsDistinct` | engine/tenon-core/src/msg_ir.rs:85-107 | A parsed object lists no key twice at any depth. |
| `FullAgainstSparse.DottedKeyDiffers` | engine/tenon-core/src/msg_ir.rs:14-19 | A concrete object with a dotted key on which they differ. |
| `FullAgainstSparse.DottedKeyCanAgree` | engine/tenon-core/src/msg_ir.rs:229-256 | A concrete object with a dotted key on which they agree on every key all the same. |
| `Values.ToJsonNumberIsExact` | engine/tenon-core/src/msg_ir.rs:58-71 | Whichever of the u64, i64 and f64 forms is chosen, reading it back as f64 is exact, including the saturating cast at 2^64. |
| `Values.RoundTrip` | engine/tenon-core/src/msg_ir.rs:55-107 | Converting any payload value to JSON and back gives an equal value, objects compared as maps. |
| `Values.JsonNumberKeepsValue` | engine/tenon-core/src/msg_ir.rs:55-93 | A JSON number taken into the payload and back keeps its f64 value. |
| `Values.WholeNumbersAreIntegers` | engine/tenon-core/src/msg_ir.rs:58-71 | A whole payload number is written as an unsigned or signed 64-bit integer when it fits one, any other number as it is. |
| `Values.IntegersSurvive` | engine/tenon-core/src/msg_ir.rs:58-93 | A 64-bit integer comes back from the payload as the same integer if and only if it is a double, or the largest. |
| `Values.FromJsonIsSound` | engine/tenon-core/src/msg_ir.rs:85-107 | Converted payloads hold doubles and objects without repeated keys. |
| `Values.MapInsertKeepsOrder` | engine/tenon-core/src/rule.rs:533-555 | The projected object stays in key order, each alias once. |
| `Values.LessIsLexicographic` | engine/tenon-core/src/rule.rs:545-551 | Object keys are in lexicographic order: after a common prefix, an end or a smaller character. |
| `Doubles.RoundKeepsExactlyDoubles` | engine/tenon-core/src/msg_ir.rs:58-71 | Casting an integer to f64 gives a double, and keeps the integer if and only if it is one. |
| `Doubles.RoundsToNearest` | engine/tenon-core/src/msg_ir.rs:85-93 | No double is nearer to an integer than the one it is cast to. |
| `Doubles.TiesToEven` | engine/tenon-core/src/msg_ir.rs:85-93 | When another double is equally near, the one with the even significand is taken. |
| `Doubles.TiesOccur` | engine/tenon-core/src/msg_ir.rs:85-93 | Ties exist: 2^53 + 1 goes down to 2^53 and 2^53 + 3 up to 2^53 + 4. |
| `Doubles.WidthsAre` | engine/tenon-core/src/msg_ir.rs:58-71 | Significands have 53 bits and integers 64; the comparison epsilon is 2^-52. |
| `Text.SplitJoin` | engine/tenon-core/src/msg_ir.rs:14-19 | Splitting a joined list gives the list back exactly when it is nonempty and no part holds the delimiter. |
| `Text.JoinSplit` | engine/tenon-core/src/msg_ir.rs:14-19 | Joining what was split gives the text back. |
| `Metrics.EvalMetrics.RecordEvalError` | engine/tenon-core/src/metrics.rs:162-168 | One evaluation, one error, and a type error if it is one; nothing else. Type errors <= errors <= evaluations always, and the 64-bit words hold the counts modulo 2^64. |
| `Metrics.EvalMetrics.RecordEvalSuccess` | engine/tenon-core/src/metrics.rs:158-160 | One more evaluation, nothing else. |
| `Metrics.EvalMetrics.RecordPayloadError` | engine/tenon-core/src/metrics.rs:170-182 | Exactly the counter of the error's kind moves, by one. |
| `LatencyMax.MaximumIsSafe` | engine/tenon-core/src/metrics.rs:46-63 | In every reachable state of any interleaving the maximum is 0 or a recorded duration, is at least every finished duration, and no step lowers it. |
| `LatencyMax.FinallyExact` | engine/tenon-core/src/metrics.rs:46-63 | Once all threads are done the words hold the count, the sum modulo 2^64 and the true maximum. |
| `LatencyMax.RunKeeps` | engine/tenon-core/src/metrics.rs:46-63 | The invariant of every interleaving, with stale loads and spurious failures of the exchange. |
| `LatencyMax.FinishesAlone` | engine/tenon-core/src/metrics.rs:46-63 | From any reachable state a thread left undisturbed is done after at most four more steps: the loop is never stuck. |
| `Ingest.RunKeeps` | engine/tenon-oss/src/main.rs:337-389 | In every interleaving: queue within capacity, nothing lost, repeated or reordered, at most one delivery abandoned, and the depth gauge equation modulo 2^64. |
| `Ingest.OfferInRun` | engine/tenon-oss/src/main.rs:370-388 | After any run, an offered delivery goes to the end of the queue if the worker still receives and the queue is shorter than its capacity, and is dropped otherwise; a ready producer can offer any new delivery while the senders are open. |
| `Ingest.DroppedWhenFull` | engine/tenon-oss/src/main.rs:370-388 | Every dropped delivery was offered at a point of the run where the queue held its full capacity or the worker had stopped. |
| `Ingest.OfferOf` | engine/tenon-oss/src/main.rs:370-388 | And every enqueued one was offered at a point where there was room. |
| `Ingest.WorkerCanStep` | engine/tenon-oss/src/main.rs:349-372 | The worker can step if and only if it has not stopped and is not waiting at an empty queue with open senders. |
| `Ingest.OthersCanStep` | engine/tenon-oss/src/main.rs:349-388 | A producer that enqueued can count, a stop can be forced at any time and ends a worker that sees it, and the senders close once no producer is counting. |
| `Ingest.AcksAreSafe` | engine/tenon-oss/src/main.rs:361-367 | Acknowledgements follow enqueue order, each after its evaluation, none twice, none for a dropped, abandoned or queued delivery. |
| `Ingest.StepLosesNone` | engine/tenon-oss/src/main.rs:349-367 | Every step keeps: enqueued = evaluated, then in hand or abandoned, then queued. |
| `Ingest.ExitMeansDrained` | engine/tenon-oss/src/main.rs:353-371 | Without a forced stop an exited worker has dispatched everything ever enqueued. |
| `Ingest.DrainTerminates` | engine/tenon-oss/src/main.rs:353-371 | After the senders close the worker can always step, and every step of its leaves less to do. |
| `Ingest.GaugeAtRest` | engine/tenon-oss/src/metrics.rs:24-32 | At rest the gauge is the queue length if and only if nothing was abandoned; otherwise it is one too high. |
| `Ingest.StopCanAbandon` | engine/tenon-oss/src/main.rs:353-360 | A run that ends with an empty queue, one abandoned delivery and the gauge at 1. |
| `Ingest.StepKeepsDepth` | engine/tenon-oss/src/metrics.rs:24-32 | Every step keeps the gauge equation modulo 2^64, with transient wrap-around. |
| `Dispatch.UsedDestinations` | engine/tenon-oss/src/sink.rs:93-98 | Exactly the destinations some rule names. |
| `Dispatch.NewDispatcher` | engine/tenon-oss/src/sink.rs:20-76 | Succeeds exactly when every used destination is configured and every used Kafka sink has servers, a topic and a client that accepts them, and then has exactly the used sinks as configured; otherwise the error names all missing destinations, or one used Kafka sink and the first thing wrong with it: no servers, then no topic, then a refused client. |
| `Dispatch.Dispatcher.Dispatch` | engine/tenon-oss/src/sink.rs:78-90 | An unknown index is counted and sends nothing; a known one sends to its destinations that have sinks, in order, and counts the others. |
| `Dispatch.HandedToAll` | engine/tenon-oss/src/sink.rs:83-89 | All destinations are served in order if and only if all have sinks. |
| `Dispatch.MetadataBuilds` | engine/tenon-oss/src/sink.rs:66-75 | A dispatcher built from an engine's metadata knows exactly its rules and has a sink for each destination. |
| `Dispatch.DispatcherAfter` | engine/tenon-oss/src/sink.rs:78-82 | After any later commands it knows exactly the rules that were there when it was built, still under their own destinations. |
| `Dispatch.DispatchResults` | engine/tenon-oss/src/main.rs:368-370 | An answer's results go to exactly the destinations of their rules, in listed order; the two failure branches are not reached. |
| `Serving.BuildDispatcher` | engine/tenon-oss/src/main.rs:78-112 | The dispatcher exists exactly when every destination of the live rules is configured and can be created, in those same terms, and otherwise the error names what is wrong. |
| `Serving.HandleMessages` | engine/tenon-oss/src/main.rs:353-372 | Over any messages without rule changes, the sinks receive for each message the deliveries of an answer to it, and no result is unknown or unsupported. |
| `Serving.SentAre` | engine/tenon-oss/src/sink.rs:78-90 | A delivery is sent if and only if, for some message, the definition yields that output and lists that destination. |
| `Pipeline.RunInterleaved` | engine/tenon-oss/src/main.rs:337-389 | In every interleaving of producers, worker and forced stop, with the worker's steps done by the engine and the dispatcher, the sinks hold exactly the deliveries of the answers to the dispatched messages, which are the first of what was enqueued, and all of it once the worker has exited unforced. |
| `ClientIds.ParsePrint` | engine/tenon-coordinator/src/oss.rs:71-103 | Reading back a written list gives the list if and only if it is nonempty and its ids are nonempty, trimmed and free of newlines. |
| `ClientIds.ParsePrintParse` | engine/tenon-coordinator/src/oss.rs:71-103 | For any file that parses, writing and reading again gives the same list. |
| `ClientIds.ParsedAreClean` | engine/tenon-coordinator/src/oss.rs:90-103 | Whatever is parsed is a nonempty list of nonempty, trimmed, newline-free ids. |
| `ClientIds.LineAdds` | engine/tenon-coordinator/src/oss.rs:90-103 | A line ended by a newline adds its text without the blank space around it, if there is any, before the ids of the rest of the file. |
| `ClientIds.LastLine` | engine/tenon-coordinator/src/oss.rs:90-103 | A last line without a newline counts as well. |
| `ClientIds.EveryLineHolds` | engine/tenon-coordinator/src/oss.rs:90-103 | Every line is blank space around one clean id, or blank, so these two say what any file holds. |
| `ClientIds.WhitespaceIs` | engine/tenon-coordinator/src/oss.rs:92-95 | Blank space is the Unicode White_Space characters. |

## Left out

- RunNew: says nothing about payload numbers that are infinite or not a number, and about the order of results.
- CompileIsCorrect: compares failures by class, type error or not; which error of a class is reported may differ, and the source's counters see only the class.
- GroupAnswers: takes the decoded protobuf message as an abstract lookup from keys to values; protobuf wire decoding, descriptor pools and the full flattening of protobuf messages are not part of this model.
- InsertFrom: recurses from node to node where the source advances a cursor in a loop; the nodes are changed in place all the same.
- DispatchResults: sees a sink as a log of what was handed to it; what Kafka does with a record afterwards is not part of this model.
- RunInterleaved: dispatching all results of one delivery is a single step of an interleaving; `HandleMessages` has the results one by one.
- SQL parsing, normalisation of rule text, alias derivation and id hashing: library behaviour, arbitrary functions here.
- JSON text reading and writing: arbitrary functions on bytes.
- The `$`-topic exclusion of section 4.7.2 of MQTT Version 5.0: neither matcher of the source implements it.
- Floating-point rounding beyond the integer conversions, NaN, infinities and the sign of zero.
- Stage timers, latency snapshots and switching detailed latency metrics on and off.
- The thread pool's scheduling, the tokio runtime, the MQTT client, the Kafka client, logging, the metrics HTTP server, signals, command line, configuration files and file access.
- Loading rules from a JSON file: a sequence of additions that stops at the first refusal.
