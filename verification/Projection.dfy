/** What a rule yields: the message itself, a new message with an object of its columns, or nothing. */
module Projection {
  import opened Wrappers
  import opened Doubles
  import opened Values
  import opened Expressions
  import opened Evaluation
  import opened EvaluationProofs
  import opened Rules

  /** A false predicate yields nothing, a failing one fails, and a true one leaves it to SELECT. */
  lemma WhereDecides(lib: Library, select: SelectSpec, condition: Expr, ctx: EvalContext)
    ensures match Verdict(lib.fp, condition, ctx)
            case Err(e) => RuleMeaning(lib, select, Some(condition), ctx) == Err(e)
            case Ok(false) => RuleMeaning(lib, select, Some(condition), ctx) == Ok(None)
            case Ok(true) => RuleMeaning(lib, select, Some(condition), ctx) == RuleMeaning(lib, select, None, ctx)
  {}

  /** SELECT * yields the message as it came. */
  lemma AllYieldsTheMessage(lib: Library, ctx: EvalContext)
    ensures RuleMeaning(lib, SelectAll, None, ctx) == Ok(Some(ctx.message))
  {}

  ghost predicate ColumnFails(fp: Rounding, columns: seq<SelectedColumn>, ctx: EvalContext, i: nat)
    requires i < |columns|
  {
    Meaning(fp, columns[i].expr, ctx).Err?
  }

  lemma PrefixSucceeds(fp: Rounding, columns: seq<SelectedColumn>, ctx: EvalContext, n: nat)
    requires n <= |columns| && forall j: nat :: j < n ==> !ColumnFails(fp, columns, ctx, j)
    ensures forall j: nat :: j < n ==> !ColumnFails(fp, columns[..n], ctx, j)
  {
    forall j: nat | j < n ensures !ColumnFails(fp, columns[..n], ctx, j) {
      assert !ColumnFails(fp, columns, ctx, j) && columns[..n][j] == columns[j];
    }
  }

  predicate HasAlias(columns: seq<SelectedColumn>, alias: string) {
    exists i :: 0 <= i < |columns| && columns[i].alias == alias
  }

  predicate LastOfItsAlias(columns: seq<SelectedColumn>, i: nat)
    requires i < |columns|
  {
    forall j :: i < j < |columns| ==> columns[j].alias != columns[i].alias
  }

  /** An ordered object whose keys are exactly the aliases, each with the value of the last column so named. */
  ghost predicate HoldsColumns(fp: Rounding, columns: seq<SelectedColumn>, ctx: EvalContext,
                               entries: seq<(string, Json)>)
  {
    && Ordered(entries)
    && (forall key :: Get(entries, key).Some? <==> HasAlias(columns, key))
    && forall i: nat :: i < |columns| && LastOfItsAlias(columns, i) ==>
         Meaning(fp, columns[i].expr, ctx) == Ok(Get(entries, columns[i].alias).value)
  }

  lemma {:induction false} ColumnsProject(fp: Rounding, columns: seq<SelectedColumn>, ctx: EvalContext)
    returns (entries: seq<(string, Json)>)
    requires forall i: nat :: i < |columns| ==> !ColumnFails(fp, columns, ctx, i)
    ensures ProjectMeaning(fp, columns, ctx) == Ok(entries) && HoldsColumns(fp, columns, ctx, entries)
  {
    entries := [];
    if columns != [] {
      var n := |columns| - 1;
      var last := columns[n];
      PrefixSucceeds(fp, columns, ctx, n);
      assert !ColumnFails(fp, columns, ctx, n);
      var before := ColumnsProject(fp, columns[..n], ctx);
      entries := MapInsert(before, last.alias, Meaning(fp, last.expr, ctx).value);
      MapInsertKeepsOrder(before, last.alias, Meaning(fp, last.expr, ctx).value);
      ColumnIsAdded(fp, columns, ctx, before, entries);
    }
  }

  lemma AliasIsAdded(columns: seq<SelectedColumn>, key: string)
    requires columns != []
    ensures var n := |columns| - 1;
            HasAlias(columns, key) <==> HasAlias(columns[..n], key) || columns[n].alias == key
  {
    var n := |columns| - 1;
    if HasAlias(columns[..n], key) {
      var i :| 0 <= i < n && columns[..n][i].alias == key;
      assert columns[i].alias == key;
    }
    if HasAlias(columns, key) && columns[n].alias != key {
      var i :| 0 <= i < |columns| && columns[i].alias == key;
      assert columns[..n][i].alias == key;
    }
  }

  lemma LastAmongFirst(columns: seq<SelectedColumn>, i: nat)
    requires i < |columns| - 1 && LastOfItsAlias(columns, i)
    ensures var first := columns[..|columns| - 1];
            first[i] == columns[i] && LastOfItsAlias(first, i) && columns[|columns| - 1].alias != columns[i].alias
  {}

  lemma ColumnIsAdded(fp: Rounding, columns: seq<SelectedColumn>, ctx: EvalContext, before: seq<(string, Json)>,
                      entries: seq<(string, Json)>)
    requires columns != [] && Ordered(entries)
    requires var n := |columns| - 1;
             && Meaning(fp, columns[n].expr, ctx).Ok? && HoldsColumns(fp, columns[..n], ctx, before)
             && entries == MapInsert(before, columns[n].alias, Meaning(fp, columns[n].expr, ctx).value)
    ensures HoldsColumns(fp, columns, ctx, entries)
  {
    var n := |columns| - 1;
    forall key ensures Get(entries, key).Some? <==> HasAlias(columns, key) {
      AliasIsAdded(columns, key);
    }
    forall i: nat | i < |columns| && LastOfItsAlias(columns, i)
      ensures Meaning(fp, columns[i].expr, ctx) == Ok(Get(entries, columns[i].alias).value)
    {
      if i < n { LastAmongFirst(columns, i); }
    }
  }

  lemma ProjectionFails(fp: Rounding, columns: seq<SelectedColumn>, ctx: EvalContext, n: nat)
    requires 0 < n <= |columns|
    ensures ProjectMeaning(fp, columns[..n - 1], ctx).Err? ==>
              ProjectMeaning(fp, columns[..n], ctx) == ProjectMeaning(fp, columns[..n - 1], ctx)
    ensures ProjectMeaning(fp, columns[..n - 1], ctx).Ok? && Meaning(fp, columns[n - 1].expr, ctx).Err? ==>
              ProjectMeaning(fp, columns[..n], ctx) == Err(Meaning(fp, columns[n - 1].expr, ctx).error)
  {
    assert columns[..n][..n - 1] == columns[..n - 1] && columns[..n][n - 1] == columns[n - 1];
  }

  lemma {:induction false} FailureStays(fp: Rounding, columns: seq<SelectedColumn>, ctx: EvalContext, i: nat, n: nat)
    requires i <= n <= |columns| && ProjectMeaning(fp, columns[..i], ctx).Err?
    ensures ProjectMeaning(fp, columns[..n], ctx) == ProjectMeaning(fp, columns[..i], ctx)
    decreases n
  {
    if i < n {
      FailureStays(fp, columns, ctx, i, n - 1);
      ProjectionFails(fp, columns, ctx, n);
    }
  }

  lemma FirstFailureProjects(fp: Rounding, columns: seq<SelectedColumn>, ctx: EvalContext, i: nat)
    requires i < |columns| && ColumnFails(fp, columns, ctx, i)
    requires forall j: nat :: j < i ==> !ColumnFails(fp, columns, ctx, j)
    ensures ProjectMeaning(fp, columns, ctx) == Err(Meaning(fp, columns[i].expr, ctx).error)
  {
    PrefixSucceeds(fp, columns, ctx, i);
    var entries := ColumnsProject(fp, columns[..i], ctx);
    ProjectionFails(fp, columns, ctx, i + 1);
    FailureStays(fp, columns, ctx, i + 1, |columns|);
    assert columns[..|columns|] == columns;
  }

  /** The first failing column is the rule's failure. */
  lemma FailingColumnFails(lib: Library, columns: seq<SelectedColumn>, ctx: EvalContext, i: nat)
    requires i < |columns| && ColumnFails(lib.fp, columns, ctx, i)
    requires forall j: nat :: j < i ==> !ColumnFails(lib.fp, columns, ctx, j)
    ensures RuleMeaning(lib, SelectColumns(columns), None, ctx) ==
            Err(Meaning(lib.fp, columns[i].expr, ctx).error)
  {
    FirstFailureProjects(lib.fp, columns, ctx, i);
  }

  /** With no failing column the rule yields a new message on the same topic. Its payload is the text of an ordered
      object whose keys are exactly the aliases, each with the meaning of the last column so named; everything else
      of it is as in a fresh message. When the object cannot be written, the rule fails. */
  lemma ColumnsYield(lib: Library, columns: seq<SelectedColumn>, ctx: EvalContext)
    returns (entries: seq<(string, Json)>)
    requires forall i: nat :: i < |columns| ==> !ColumnFails(lib.fp, columns, ctx, i)
    ensures HoldsColumns(lib.fp, columns, ctx, entries)
    ensures match lib.writeJson(Object(entries))
            case None => RuleMeaning(lib, SelectColumns(columns), None, ctx) == Err(ProjectionSerialization)
            case Some(bytes) =>
              RuleMeaning(lib, SelectColumns(columns), None, ctx) ==
              Ok(Some(Message(0, ctx.message.topic, bytes, 0, false, false, 0, None, None, map[])))
  {
    entries := ColumnsProject(lib.fp, columns, ctx);
  }

  /** An object with these columns is the only one. */
  lemma HeldColumnsAreOne(fp: Rounding, columns: seq<SelectedColumn>, ctx: EvalContext, a: seq<(string, Json)>,
                          b: seq<(string, Json)>)
    requires HoldsColumns(fp, columns, ctx, a) && HoldsColumns(fp, columns, ctx, b)
    ensures a == b
  {
    forall key ensures Get(a, key) == Get(b, key) {
      if HasAlias(columns, key) {
        var i := LastNamed(columns, key);
        assert columns[i].alias == key;
      }
    }
    OrderedAreOne(a, b);
  }

  lemma LastNamed(columns: seq<SelectedColumn>, alias: string) returns (i: nat)
    requires HasAlias(columns, alias)
    ensures i < |columns| && columns[i].alias == alias && LastOfItsAlias(columns, i)
  {
    i := |columns| - 1;
    while columns[i].alias != alias
      invariant i < |columns| && forall j :: i < j < |columns| ==> columns[j].alias != alias
      decreases i
    {
      var k :| 0 <= k < |columns| && columns[k].alias == alias;
      i := i - 1;
    }
  }

  // ----- the compiled rule -----

  /** A compiled rule yields that same message, whenever its predicate holds. */
  lemma CompiledColumnsYield(lib: Library, rule: CompiledRule, ctx: EvalContext, output: Message)
    requires WellCompiled(lib, rule) && FiniteLookup(ctx.field)
    requires EvalRule(lib, rule, ctx) == Ok(Some(output)) && rule.select.SelectColumns?
    ensures exists entries :: HoldsColumns(lib.fp, rule.select.columns, ctx, entries) &&
              lib.writeJson(Object(entries)) == Some(output.payload)
    ensures output == Message(0, ctx.message.topic, output.payload, 0, false, false, 0, None, None, map[])
    ensures rule.whereExpr.Some? ==> Verdict(lib.fp, rule.whereExpr.value, ctx) == Ok(true)
  {
    RuleComputesItsMeaning(lib, rule, ctx);
    if rule.whereExpr.Some? { WhereDecides(lib, rule.select, rule.whereExpr.value, ctx); }
    var i := FirstFailing(lib.fp, rule.select.columns, ctx);
    if i < |rule.select.columns| {
      FailingColumnFails(lib, rule.select.columns, ctx, i);
    } else {
      var entries := ColumnsYield(lib, rule.select.columns, ctx);
    }
  }

  lemma FirstFailing(fp: Rounding, columns: seq<SelectedColumn>, ctx: EvalContext) returns (i: nat)
    ensures i <= |columns| && (i < |columns| ==> ColumnFails(fp, columns, ctx, i))
    ensures forall j: nat :: j < i ==> !ColumnFails(fp, columns, ctx, j)
  {
    i := 0;
    while i < |columns| && !ColumnFails(fp, columns, ctx, i)
      invariant i <= |columns| && forall j: nat :: j < i ==> !ColumnFails(fp, columns, ctx, j)
    {
      i := i + 1;
    }
  }
}
