/** Whole runs of an engine: any sequence of commands is answered as the table of definitions answers it. */
module EngineRuns {
  import opened Wrappers
  import opened Evaluation
  import opened Rules
  import opened Metrics
  import opened EngineModel
  import opened EngineSpec
  import opened RuleEngine

  /** The engine holds the compiled forms of the table's definitions. */
  ghost predicate Represents(engine: RuleEngine, t: Table)
    reads engine, engine.Repr
  {
    engine.Valid() && Implements(engine.lib, t, engine.rules, engine.ruleIndexById)
  }

  method PerformAdd(engine: RuleEngine, def: RuleDefinition, ghost t: Table) returns (reply: Reply)
    requires Represents(engine, t)
    modifies engine.Repr
    ensures fresh(engine.Repr - old(engine.Repr))
    ensures Represents(engine, Next(engine.lib, engine.runtime.decoder, t, Add(def)))
    ensures Replies(engine.lib, engine.runtime.decoder, t, Add(def), reply)
    ensures engine.metrics.counts ==
            old(engine.metrics.counts).Plus(CommandCounts(engine.lib, engine.runtime.decoder, t, Add(def)))
  {
    PlusAssociates(engine.metrics.counts, NOTHING, NOTHING);
    ghost var rules, ids := engine.rules, engine.ruleIndexById;
    var added := engine.AddRule(def);
    if added.Ok? {
      ghost var rule :| CompiledFrom(engine.lib, def, rule) && added.value == rule.id &&
                        engine.rules == rules + [Some(rule)] && engine.ruleIndexById == ids[rule.id := |rules|];
      AddImplements(engine.lib, engine.runtime.decoder, t, rules, ids, def, rule);
    } else {
      RefusalReplies(engine.lib, engine.runtime.decoder, t, def, added.error);
    }
    return Added(added);
  }

  method PerformRemove(engine: RuleEngine, id: string, ghost t: Table) returns (reply: Reply)
    requires Represents(engine, t)
    modifies engine.Repr
    ensures fresh(engine.Repr - old(engine.Repr))
    ensures Represents(engine, Next(engine.lib, engine.runtime.decoder, t, Remove(id)))
    ensures Replies(engine.lib, engine.runtime.decoder, t, Remove(id), reply)
    ensures engine.metrics.counts ==
            old(engine.metrics.counts).Plus(CommandCounts(engine.lib, engine.runtime.decoder, t, Remove(id)))
  {
    PlusAssociates(engine.metrics.counts, NOTHING, NOTHING);
    if id in engine.ruleIndexById {
      assert Live(engine.rules, engine.ruleIndexById[id]);
      RemoveImplements(engine.lib, engine.runtime.decoder, t, engine.rules, engine.ruleIndexById, id);
    }
    var removed := engine.RemoveRule(id);
    return Removed(removed);
  }

  method PerformAsk(engine: RuleEngine, message: Message, ghost t: Table) returns (reply: Reply)
    requires Represents(engine, t)
    modifies engine.Repr
    ensures engine.Repr == old(engine.Repr) && Represents(engine, t)
    ensures Replies(engine.lib, engine.runtime.decoder, t, Ask(message), reply)
    ensures engine.metrics.counts ==
            old(engine.metrics.counts).Plus(CommandCounts(engine.lib, engine.runtime.decoder, t, Ask(message)))
  {
    var results := engine.Evaluate(message);
    AnswersAgree(engine.lib, engine.runtime.decoder, t, engine.rules, engine.ruleIndexById, message, results);
    return Answered(results);
  }

  method Perform(engine: RuleEngine, command: Command, ghost t: Table) returns (reply: Reply)
    requires Represents(engine, t)
    modifies engine.Repr
    ensures fresh(engine.Repr - old(engine.Repr))
    ensures Represents(engine, Next(engine.lib, engine.runtime.decoder, t, command))
    ensures Replies(engine.lib, engine.runtime.decoder, t, command, reply)
    ensures engine.metrics.counts ==
            old(engine.metrics.counts).Plus(CommandCounts(engine.lib, engine.runtime.decoder, t, command))
  {
    match command
    case Add(def) => reply := PerformAdd(engine, def, t);
    case Remove(id) => reply := PerformRemove(engine, id, t);
    case Ask(message) => reply := PerformAsk(engine, message, t);
  }

  /** Every reply of a run is the one the table gives after the commands before it, and the counters count
      exactly the table's evaluations, errors, type errors and payload errors. */
  method Run(engine: RuleEngine, commands: seq<Command>, ghost t: Table) returns (replies: seq<Reply>)
    requires Represents(engine, t)
    modifies engine.Repr
    ensures fresh(engine.Repr - old(engine.Repr))
    ensures Represents(engine, After(engine.lib, engine.runtime.decoder, t, commands))
    ensures Conversation(engine.lib, engine.runtime.decoder, t, commands, replies)
    ensures engine.metrics.counts ==
            old(engine.metrics.counts).Plus(RunCounts(engine.lib, engine.runtime.decoder, t, commands))
    decreases |commands|
  {
    ghost var lib, decoder, counts := engine.lib, engine.runtime.decoder, engine.metrics.counts;
    PlusAssociates(counts, NOTHING, NOTHING);
    if commands == [] {
      return [];
    }
    ghost var n := |commands| - 1;
    replies := Run(engine, commands[..|commands| - 1], t);
    var reply := Perform(engine, commands[|commands| - 1], After(lib, decoder, t, commands[..n]));
    NextOfRun(lib, decoder, t, commands, replies, reply, counts);
    replies := replies + [reply];
  }

  lemma NextOfRun(lib: Library, decoder: Decoder, t: Table, commands: seq<Command>, replies: seq<Reply>, reply: Reply,
                  counts: Counts)
    requires commands != [] && Conversation(lib, decoder, t, commands[..|commands| - 1], replies)
    requires Replies(lib, decoder, After(lib, decoder, t, commands[..|commands| - 1]), commands[|commands| - 1], reply)
    ensures var n := |commands| - 1;
            var before := After(lib, decoder, t, commands[..n]);
            && After(lib, decoder, t, commands) == Next(lib, decoder, before, commands[n])
            && Conversation(lib, decoder, t, commands, replies + [reply])
            && counts.Plus(RunCounts(lib, decoder, t, commands[..n]))
                 .Plus(CommandCounts(lib, decoder, before, commands[n])) ==
               counts.Plus(RunCounts(lib, decoder, t, commands))
  {
    var n := |commands| - 1;
    assert commands[..n + 1] == commands;
    AfterNext(lib, decoder, t, commands, n);
    ConversationGrows(lib, decoder, t, commands, replies, n, reply);
    PlusAssociates(counts, RunCounts(lib, decoder, t, commands[..n]),
                   CommandCounts(lib, decoder, After(lib, decoder, t, commands[..n]), commands[n]));
  }

  /** A new engine, whatever its cache size and number of threads, answers any commands as the empty table does. */
  method RunNew(lib: Library, decoder: Decoder, cacheCapacity: nat, poolThreads: nat, commands: seq<Command>)
    returns (replies: seq<Reply>)
    requires SoundLibrary(lib)
    ensures Conversation(lib, decoder, EMPTY_TABLE, commands, replies)
  {
    var engine := NewEngine(lib, decoder, cacheCapacity, poolThreads);
    replies := Run(engine, commands, EMPTY_TABLE);
  }
}
