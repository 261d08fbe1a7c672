/** Rules: compilation, the payload fields a rule needs, and evaluation of one rule. */
module Rules {
  import opened Wrappers
  import opened Doubles
  import opened Values
  import opened Expressions
  import opened Evaluation
  import opened EvaluationProofs

  datatype RuleDefinition = RuleDefinition(expression: string, destinations: seq<string>, schema: Option<string>)

  datatype SelectedColumn = SelectedColumn(expr: Expr, alias: string)
  datatype SelectSpec = SelectAll | SelectColumns(columns: seq<SelectedColumn>)
  datatype PlannedColumn = PlannedColumn(plan: Plan, alias: string)
  datatype SelectPlan = All | Columns(columns: seq<PlannedColumn>)

  datatype PayloadBinding = JsonBinding | ProtobufBinding(schema: string)

  datatype RuleError = SqlParse | UnsupportedSql | MissingTopic | MissingSchemaName | UnexpectedSchemaName

  datatype ParsedRule = ParsedRule(topicFilter: string, select: SelectSpec, whereExpr: Option<Expr>)

  datatype CompiledRule = CompiledRule(
    id: string, topicFilter: string, select: SelectSpec, selectPlan: SelectPlan,
    whereExpr: Option<Expr>, wherePlan: Option<Plan>, destinations: seq<string>, binding: PayloadBinding,
    requiredFields: seq<Field>, requiresTopicParts: bool)

  datatype PayloadErrorKind = SchemaError | DecodeError | BuildError

  /** What the model leaves to libraries: SQL parsing, hashing, f64 rounding, JSON text and protobuf decoding. */
  datatype Library = Library(
    fp: Rounding,
    parseSql: string -> Result<ParsedRule, RuleError>,
    hash: string -> string,
    parseJson: Bytes -> Option<Json>,
    writeJson: Json -> Option<Bytes>,
    decodeProtobuf: (string, Bytes) -> Result<string -> Option<Payload>, PayloadErrorKind>)

  // ----- required payload fields and topic parts -----

  /** The plans of a rule: its columns, then its predicate. */
  function RulePlans(select: SelectPlan, wherePlan: Option<Plan>): seq<Plan> {
    (if select.Columns? then seq(|select.columns|, i requires 0 <= i < |select.columns| => select.columns[i].plan)
     else [])
    + if wherePlan.Some? then [wherePlan.value] else []
  }

  /** The expressions of a rule: its columns, then its predicate. */
  function RuleExprs(select: SelectSpec, whereExpr: Option<Expr>): seq<Expr> {
    (if select.SelectColumns? then seq(|select.columns|, i requires 0 <= i < |select.columns| => select.columns[i].expr)
     else [])
    + if whereExpr.Some? then [whereExpr.value] else []
  }

  predicate Any<T>(items: seq<T>, p: T -> bool) {
    exists i :: 0 <= i < |items| && p(items[i])
  }

  ghost predicate KeysOf(fields: seq<Field>, keys: set<string>) {
    forall k :: k in keys <==> exists i :: 0 <= i < |fields| && fields[i].key == k
  }

  ghost predicate DistinctKeys(fields: seq<Field>) {
    forall i, j :: 0 <= i < j < |fields| ==> fields[i].key != fields[j].key
  }

  /** A list of fields, none twice, with exactly these keys and the segments each key splits into. */
  ghost predicate ListsFields(fields: seq<Field>, keys: set<string>) {
    && KeysOf(fields, keys) && DistinctKeys(fields)
    && forall i :: 0 <= i < |fields| ==> fields[i] == FieldFromKey(fields[i].key)
  }

  /** Fields in plans are built from their keys. */
  ghost predicate FieldsFromKeys(plan: Plan) {
    match plan
    case PayloadField(field) => field == FieldFromKey(field.key)
    case Binary(l, _, r) => FieldsFromKeys(l) && FieldsFromKeys(r)
    case TopicLevel(level) => FieldsFromKeys(level)
    case PropertiesKey(key) => FieldsFromKeys(key)
    case _ => true
  }

  lemma {:induction false} CompileBuildsFields(fp: Rounding, e: Expr)
    ensures FieldsFromKeys(CompileExprPlan(fp, e))
    decreases e
  {
    match e
    case BinaryOp(left, op, right) =>
      CompileBuildsFields(fp, left);
      CompileBuildsFields(fp, right);
    case Nested(inner) =>
      CompileBuildsFields(fp, inner);
    case Function(name, args) =>
      if |args| == 2 && args[1].Unnamed? { CompileBuildsFields(fp, args[1].e); }
    case MapAccess(_, keys) =>
      if |keys| > 0 { CompileBuildsFields(fp, keys[0]); }
    case ArrayIndex(_, indexes) =>
      if |indexes| > 0 { CompileBuildsFields(fp, indexes[0]); }
    case _ =>
  }

  /** Appends the plan's fields that were not seen yet. */
  method CollectFromPlan(plan: Plan, fields: seq<Field>, seen: set<string>)
    returns (fields': seq<Field>, seen': set<string>)
    requires FieldsFromKeys(plan) && ListsFields(fields, seen)
    ensures ListsFields(fields', seen') && seen' == seen + PlanKeys(plan) && fields <= fields'
  {
    fields', seen' := fields, seen;
    match plan
    case PayloadField(field) =>
      if field.key !in seen {
        seen' := seen + {field.key};
        fields' := fields + [field];
        assert fields'[|fields|] == field;
        forall k ensures k in seen' <==> exists i :: 0 <= i < |fields'| && fields'[i].key == k {
          if k in seen {
            var i :| 0 <= i < |fields| && fields[i].key == k;
            assert fields'[i].key == k;
          }
        }
      }
    case Binary(l, _, r) =>
      fields', seen' := CollectFromPlan(l, fields', seen');
      fields', seen' := CollectFromPlan(r, fields', seen');
    case TopicLevel(level) =>
      fields', seen' := CollectFromPlan(level, fields', seen');
    case PropertiesKey(key) =>
      fields', seen' := CollectFromPlan(key, fields', seen');
    case _ =>
  }

  function PlansKeys(plans: seq<Plan>): set<string> {
    if plans == [] then {} else PlansKeys(plans[..|plans| - 1]) + PlanKeys(plans[|plans| - 1])
  }

  /** All payload keys the expressions name. */
  function AllMentions(exprs: seq<Expr>): set<string> {
    if exprs == [] then {} else AllMentions(exprs[..|exprs| - 1]) + Mentions(exprs[|exprs| - 1])
  }

  lemma {:induction false} AllMentionsHolds(exprs: seq<Expr>, i: nat)
    requires i < |exprs|
    ensures Mentions(exprs[i]) <= AllMentions(exprs)
  {
    if i < |exprs| - 1 {
      AllMentionsHolds(exprs[..|exprs| - 1], i);
    }
  }

  lemma PlansKeep(fp: Rounding, plans: seq<Plan>, exprs: seq<Expr>)
    requires |plans| == |exprs| && forall i :: 0 <= i < |exprs| ==> plans[i] == CompileExprPlan(fp, exprs[i])
    ensures PlansKeys(plans) == AllMentions(exprs)
    ensures Any(plans, HasUnknown) <==> Any(exprs, Unsupported)
    ensures Any(plans, PlanRequiresTopicParts) <==> Any(exprs, SelectsLevel)
  {
    PlansKeysKeep(fp, plans, exprs);
    forall i | 0 <= i < |exprs|
      ensures HasUnknown(plans[i]) <==> Unsupported(exprs[i])
      ensures PlanRequiresTopicParts(plans[i]) <==> SelectsLevel(exprs[i])
    {
      CompileKeeps(fp, true, exprs[i]);
    }
  }

  lemma {:induction false} PlansKeysKeep(fp: Rounding, plans: seq<Plan>, exprs: seq<Expr>)
    requires |plans| == |exprs| && forall i :: 0 <= i < |exprs| ==> plans[i] == CompileExprPlan(fp, exprs[i])
    ensures PlansKeys(plans) == AllMentions(exprs)
  {
    if exprs != [] {
      var n := |exprs| - 1;
      PlansKeysKeep(fp, plans[..n], exprs[..n]);
      CompileKeeps(fp, true, exprs[n]);
    }
  }

  /** The fields of all of a rule's plans, each once. */
  method CollectRequiredFields(plans: seq<Plan>) returns (fields: seq<Field>)
    requires forall i :: 0 <= i < |plans| ==> FieldsFromKeys(plans[i])
    ensures ListsFields(fields, PlansKeys(plans))
  {
    fields := [];
    var seen := {};
    for i := 0 to |plans|
      invariant ListsFields(fields, seen) && seen == PlansKeys(plans[..i])
    {
      fields, seen := CollectFromPlan(plans[i], fields, seen);
      assert plans[..i + 1][..i] == plans[..i];
    }
    assert plans[..|plans|] == plans;
  }

  // ----- compilation of a rule -----

  function CompileSelect(fp: Rounding, select: SelectSpec): SelectPlan {
    match select
    case SelectAll => All
    case SelectColumns(columns) =>
      Columns(seq(|columns|, i requires 0 <= i < |columns| =>
        PlannedColumn(CompileExprPlan(fp, columns[i].expr), columns[i].alias)))
  }

  function CompileWhere(fp: Rounding, whereExpr: Option<Expr>): Option<Plan> {
    match whereExpr
    case Some(e) => Some(CompileExprPlan(fp, e))
    case None => None
  }

  lemma RulePlansAre(fp: Rounding, select: SelectSpec, whereExpr: Option<Expr>)
    ensures var plans, exprs := RulePlans(CompileSelect(fp, select), CompileWhere(fp, whereExpr)),
            RuleExprs(select, whereExpr);
            |plans| == |exprs| && forall i :: 0 <= i < |exprs| ==> plans[i] == CompileExprPlan(fp, exprs[i])
  {}

  /** The plans of a rule are those of its expressions, and keep what the expressions name and need. */
  lemma RulePlansKeep(fp: Rounding, select: SelectSpec, whereExpr: Option<Expr>)
    ensures var plans, exprs := RulePlans(CompileSelect(fp, select), CompileWhere(fp, whereExpr)),
            RuleExprs(select, whereExpr);
            && |plans| == |exprs| && (forall i :: 0 <= i < |exprs| ==> plans[i] == CompileExprPlan(fp, exprs[i]))
            && PlansKeys(plans) == AllMentions(exprs)
            && (Any(plans, HasUnknown) <==> Any(exprs, Unsupported))
            && (Any(plans, PlanRequiresTopicParts) <==> Any(exprs, SelectsLevel))
  {
    RulePlansAre(fp, select, whereExpr);
    PlansKeep(fp, RulePlans(CompileSelect(fp, select), CompileWhere(fp, whereExpr)), RuleExprs(select, whereExpr));
  }

  /** The rule carries the plans of its own expressions, has no unsupported parts, and says what they need. */
  ghost predicate WellCompiled(lib: Library, rule: CompiledRule) {
    var exprs := RuleExprs(rule.select, rule.whereExpr);
    && rule.selectPlan == CompileSelect(lib.fp, rule.select)
    && rule.wherePlan == CompileWhere(lib.fp, rule.whereExpr)
    && !Any(exprs, Unsupported)
    && ListsFields(rule.requiredFields, AllMentions(exprs))
    && rule.requiresTopicParts == Any(exprs, SelectsLevel)
  }

  /** Why a definition is rejected: its text does not parse, or an expression of it is unsupported. */
  function Rejection(lib: Library, def: RuleDefinition): Option<RuleError> {
    match lib.parseSql(def.expression)
    case Err(e) => Some(e)
    case Ok(parsed) =>
      if Any(RuleExprs(parsed.select, parsed.whereExpr), Unsupported) then Some(UnsupportedSql) else None
  }

  /** What the definition and its parsed text fix of a compiled rule. */
  ghost predicate CompiledFrom(lib: Library, def: RuleDefinition, rule: CompiledRule) {
    && lib.parseSql(def.expression) == Ok(ParsedRule(rule.topicFilter, rule.select, rule.whereExpr))
    && rule.id == lib.hash(def.expression)
    && rule.destinations == def.destinations
    && rule.binding == (match def.schema case Some(s) => ProtobufBinding(s) case None => JsonBinding)
    && WellCompiled(lib, rule)
  }

  method CompileRule(lib: Library, def: RuleDefinition) returns (r: Result<CompiledRule, RuleError>)
    ensures r.Ok? ==> Rejection(lib, def).None? && CompiledFrom(lib, def, r.value)
    ensures r.Err? ==> Rejection(lib, def) == Some(r.error)
  {
    var parse := lib.parseSql(def.expression);
    if parse.Err? {
      return Err(parse.error);
    }
    var parsed := parse.value;
    var selectPlan := CompileSelect(lib.fp, parsed.select);
    var wherePlan := CompileWhere(lib.fp, parsed.whereExpr);
    var plans := RulePlans(selectPlan, wherePlan);
    RulePlansKeep(lib.fp, parsed.select, parsed.whereExpr);
    forall i | 0 <= i < |plans| ensures FieldsFromKeys(plans[i]) {
      CompileBuildsFields(lib.fp, RuleExprs(parsed.select, parsed.whereExpr)[i]);
    }
    var fields := CollectRequiredFields(plans);
    var requiresTopicParts := Any(plans, PlanRequiresTopicParts);
    if Any(plans, HasUnknown) {
      return Err(UnsupportedSql);
    }
    var binding := match def.schema case Some(s) => ProtobufBinding(s) case None => JsonBinding;
    r := Ok(CompiledRule(lib.hash(def.expression), parsed.topicFilter, parsed.select, selectPlan, parsed.whereExpr,
                         wherePlan, def.destinations, binding, fields, requiresTopicParts));
  }

  // ----- evaluation of one rule -----

  type Outcome = Result<Option<Message>, EvalError>

  function NewMessage(topic: string, payload: Bytes): Message {
    Message(0, topic, payload, 0, false, false, 0, None, None, map[])
  }

  function Project(fp: Rounding, columns: seq<PlannedColumn>, ctx: EvalContext): Result<seq<(string, Json)>, EvalError>
  {
    if columns == [] then Ok([])
    else
      var n := |columns| - 1;
      match Project(fp, columns[..n], ctx)
      case Err(e) => Err(e)
      case Ok(output) =>
        match EvalValue(fp, columns[n].plan, ctx)
        case Err(e) => Err(e)
        case Ok(v) => Ok(MapInsert(output, columns[n].alias, v))
  }

  function Emit(lib: Library, message: Message, output: Result<seq<(string, Json)>, EvalError>): Outcome {
    match output
    case Err(e) => Err(e)
    case Ok(entries) =>
      match lib.writeJson(Object(entries))
      case None => Err(ProjectionSerialization)
      case Some(bytes) => Ok(Some(NewMessage(message.topic, bytes)))
  }

  /** The message itself, or a new message with an object of the columns. */
  function EvalSelect(lib: Library, select: SelectPlan, ctx: EvalContext): Outcome {
    match select
    case All => Ok(Some(ctx.message))
    case Columns(columns) => Emit(lib, ctx.message, Project(lib.fp, columns, ctx))
  }

  /** The outcome of a compiled rule: its predicate, then its projection. */
  function EvalRule(lib: Library, rule: CompiledRule, ctx: EvalContext): Outcome {
    match (if rule.wherePlan.Some? then EvalBool(lib.fp, rule.wherePlan.value, ctx) else Ok(true))
    case Err(e) => Err(e)
    case Ok(false) => Ok(None)
    case Ok(true) => EvalSelect(lib, rule.selectPlan, ctx)
  }

  lemma {:induction false} ProjectFailsEarly(fp: Rounding, columns: seq<PlannedColumn>, n: nat, ctx: EvalContext)
    requires n <= |columns| && Project(fp, columns[..n], ctx).Err?
    ensures Project(fp, columns, ctx) == Project(fp, columns[..n], ctx)
    decreases |columns|
  {
    if n == |columns| {
      assert columns[..n] == columns;
    } else {
      assert columns[..|columns| - 1][..n] == columns[..n];
      ProjectFailsEarly(fp, columns[..|columns| - 1], n, ctx);
    }
  }

  method EvaluateRule(lib: Library, rule: CompiledRule, ctx: EvalContext) returns (r: Outcome)
    ensures r == EvalRule(lib, rule, ctx)
  {
    if rule.wherePlan.Some? {
      var holds := EvalBool(lib.fp, rule.wherePlan.value, ctx);
      if holds.Err? {
        return Err(holds.error);
      }
      if !holds.value {
        return Ok(None);
      }
    }
    match rule.selectPlan
    case All => return Ok(Some(ctx.message));
    case Columns(columns) =>
      var output := [];
      for i := 0 to |columns|
        invariant Project(lib.fp, columns[..i], ctx) == Ok(output)
      {
        assert columns[..i + 1][..i] == columns[..i];
        var value := EvalValue(lib.fp, columns[i].plan, ctx);
        if value.Err? {
          ProjectFailsEarly(lib.fp, columns, i + 1, ctx);
          return Err(value.error);
        }
        output := MapInsert(output, columns[i].alias, value.value);
      }
      assert columns[..|columns|] == columns;
      return Emit(lib, ctx.message, Ok(output));
  }

  // ----- a rule depends on nothing but what it declares -----

  ghost predicate Agree(a: EvalContext, b: EvalContext, keys: set<string>, parts: bool) {
    && a.message == b.message
    && (forall k :: k in keys ==> a.field(k) == b.field(k))
    && (parts ==> a.topicParts == b.topicParts)
  }

  lemma {:induction false} PlanDependsOnItsKeys(fp: Rounding, plan: Plan, a: EvalContext, b: EvalContext)
    requires Agree(a, b, PlanKeys(plan), PlanRequiresTopicParts(plan))
    ensures EvalValue(fp, plan, a) == EvalValue(fp, plan, b)
    ensures EvalBool(fp, plan, a) == EvalBool(fp, plan, b)
    ensures RuntimeOf(fp, plan, a) == RuntimeOf(fp, plan, b)
  {
    match plan
    case Binary(l, op, r) =>
      PlanDependsOnItsKeys(fp, l, a, b);
      PlanDependsOnItsKeys(fp, r, a, b);
      BinaryUnfolds(fp, l, op, r, a);
      BinaryUnfolds(fp, l, op, r, b);
    case TopicLevel(level) =>
      PlanDependsOnItsKeys(fp, level, a, b);
    case PropertiesKey(key) =>
      PlanDependsOnItsKeys(fp, key, a, b);
    case _ =>
  }

  lemma ExprDependsOnItsKeys(fp: Rounding, e: Expr, a: EvalContext, b: EvalContext)
    requires Agree(a, b, Mentions(e), SelectsLevel(e))
    ensures EvalValue(fp, CompileExprPlan(fp, e), a) == EvalValue(fp, CompileExprPlan(fp, e), b)
    ensures EvalBool(fp, CompileExprPlan(fp, e), a) == EvalBool(fp, CompileExprPlan(fp, e), b)
  {
    CompileKeeps(fp, true, e);
    PlanDependsOnItsKeys(fp, CompileExprPlan(fp, e), a, b);
  }

  /** The predicate and the projection depend on what their own expressions name. */
  lemma WhereDependsOnItsKeys(fp: Rounding, whereExpr: Option<Expr>, a: EvalContext, b: EvalContext)
    requires whereExpr.Some? ==> Agree(a, b, Mentions(whereExpr.value), SelectsLevel(whereExpr.value))
    ensures var plan := CompileWhere(fp, whereExpr);
            plan.Some? ==> EvalBool(fp, plan.value, a) == EvalBool(fp, plan.value, b)
  {
    if whereExpr.Some? {
      ExprDependsOnItsKeys(fp, whereExpr.value, a, b);
    }
  }

  lemma ProjectDependsOnItsKeys(fp: Rounding, planned: seq<PlannedColumn>, columns: seq<SelectedColumn>,
                                a: EvalContext, b: EvalContext)
    requires Planned(fp, planned, columns)
    requires forall i :: 0 <= i < |columns| ==> Agree(a, b, Mentions(columns[i].expr), SelectsLevel(columns[i].expr))
    ensures Project(fp, planned, a) == Project(fp, planned, b)
  {
    for n := 0 to |columns|
      invariant Project(fp, planned[..n], a) == Project(fp, planned[..n], b)
    {
      assert planned[..n + 1][..n] == planned[..n];
      ExprDependsOnItsKeys(fp, columns[n].expr, a, b);
    }
    assert planned[..|columns|] == planned;
  }

  lemma SelectDependsOnItsKeys(lib: Library, select: SelectSpec, a: EvalContext, b: EvalContext)
    requires a.message == b.message
    requires select.SelectColumns? ==>
               forall i :: 0 <= i < |select.columns| ==>
                 Agree(a, b, Mentions(select.columns[i].expr), SelectsLevel(select.columns[i].expr))
    ensures EvalSelect(lib, CompileSelect(lib.fp, select), a) == EvalSelect(lib, CompileSelect(lib.fp, select), b)
  {
    if select.SelectColumns? {
      ProjectDependsOnItsKeys(lib.fp, CompileSelect(lib.fp, select).columns, select.columns, a, b);
    }
  }

  ghost predicate Planned(fp: Rounding, planned: seq<PlannedColumn>, columns: seq<SelectedColumn>) {
    && |planned| == |columns|
    && forall i :: 0 <= i < |columns| ==>
         planned[i] == PlannedColumn(CompileExprPlan(fp, columns[i].expr), columns[i].alias)
  }

  /** A rule has the same outcome on any two payloads that agree on its required fields, and on any topic
      parts unless it requires them. */
  lemma RuleDependsOnItsFields(lib: Library, rule: CompiledRule, a: EvalContext, b: EvalContext, keys: set<string>)
    requires WellCompiled(lib, rule)
    requires forall i :: 0 <= i < |rule.requiredFields| ==> rule.requiredFields[i].key in keys
    requires Agree(a, b, keys, rule.requiresTopicParts)
    ensures EvalRule(lib, rule, a) == EvalRule(lib, rule, b)
  {
    forall i | 0 <= i < |RuleExprs(rule.select, rule.whereExpr)|
      ensures var e := RuleExprs(rule.select, rule.whereExpr)[i]; Agree(a, b, Mentions(e), SelectsLevel(e))
    {
      AllMentionsHolds(RuleExprs(rule.select, rule.whereExpr), i);
    }
    PartsAgree(rule.select, rule.whereExpr, a, b);
    WhereDependsOnItsKeys(lib.fp, rule.whereExpr, a, b);
    SelectDependsOnItsKeys(lib, rule.select, a, b);
  }

  /** What holds of all expressions of a rule holds of its predicate and of its columns. */
  lemma PartsAgree(select: SelectSpec, whereExpr: Option<Expr>, a: EvalContext, b: EvalContext)
    requires forall i :: 0 <= i < |RuleExprs(select, whereExpr)| ==>
               var e := RuleExprs(select, whereExpr)[i]; Agree(a, b, Mentions(e), SelectsLevel(e))
    ensures whereExpr.Some? ==> Agree(a, b, Mentions(whereExpr.value), SelectsLevel(whereExpr.value))
    ensures select.SelectColumns? ==>
              forall i :: 0 <= i < |select.columns| ==>
                Agree(a, b, Mentions(select.columns[i].expr), SelectsLevel(select.columns[i].expr))
  {
    var exprs := RuleExprs(select, whereExpr);
    assert whereExpr.Some? ==> exprs[|exprs| - 1] == whereExpr.value;
    assert select.SelectColumns? ==> forall i :: 0 <= i < |select.columns| ==> exprs[i] == select.columns[i].expr;
  }

  // ----- what a rule means -----

  function ProjectMeaning(fp: Rounding, columns: seq<SelectedColumn>, ctx: EvalContext)
    : Result<seq<(string, Json)>, EvalError>
  {
    if columns == [] then Ok([])
    else
      var n := |columns| - 1;
      match (ProjectMeaning(fp, columns[..n], ctx), Meaning(fp, columns[n].expr, ctx))
      case (Ok(output), Ok(v)) => Ok(MapInsert(output, columns[n].alias, v))
      case (Err(e), _) => Err(e)
      case (_, Err(e)) => Err(e)
  }

  /** The verdict of WHERE, then SELECT gives the message itself or an object of its columns. */
  function RuleMeaning(lib: Library, select: SelectSpec, whereExpr: Option<Expr>, ctx: EvalContext): Outcome {
    match (if whereExpr.Some? then Verdict(lib.fp, whereExpr.value, ctx) else Ok(true))
    case Err(e) => Err(e)
    case Ok(false) => Ok(None)
    case Ok(true) => SelectMeaning(lib, select, ctx)
  }

  function SelectMeaning(lib: Library, select: SelectSpec, ctx: EvalContext): Outcome {
    match select
    case SelectAll => Ok(Some(ctx.message))
    case SelectColumns(columns) => Emit(lib, ctx.message, ProjectMeaning(lib.fp, columns, ctx))
  }

  lemma {:induction false} ProjectComputes(fp: Rounding, planned: seq<PlannedColumn>, columns: seq<SelectedColumn>,
                                           ctx: EvalContext)
    requires FiniteLookup(ctx.field) && Planned(fp, planned, columns)
    ensures SameClass(Project(fp, planned, ctx), ProjectMeaning(fp, columns, ctx))
  {
    if columns != [] {
      var n := |columns| - 1;
      ProjectComputes(fp, planned[..n], columns[..n], ctx);
      CompileIsCorrect(fp, columns[n].expr, ctx);
    }
  }

  lemma SelectComputes(lib: Library, select: SelectSpec, ctx: EvalContext)
    requires FiniteLookup(ctx.field)
    ensures SameClass(EvalSelect(lib, CompileSelect(lib.fp, select), ctx), SelectMeaning(lib, select, ctx))
  {
    if select.SelectColumns? {
      ProjectComputes(lib.fp, CompileSelect(lib.fp, select).columns, select.columns, ctx);
    }
  }

  lemma WhereComputes(fp: Rounding, whereExpr: Option<Expr>, ctx: EvalContext)
    requires FiniteLookup(ctx.field)
    ensures var plan := CompileWhere(fp, whereExpr);
            plan.Some? ==> SameClass(EvalBool(fp, plan.value, ctx), Verdict(fp, whereExpr.value, ctx))
  {
    if whereExpr.Some? {
      CompileIsCorrect(fp, whereExpr.value, ctx);
    }
  }

  /** A compiled rule yields a message exactly when its expressions mean one, and the same message; it fails
      exactly when they do, with a type error exactly when they have one. */
  lemma RuleComputesItsMeaning(lib: Library, rule: CompiledRule, ctx: EvalContext)
    requires WellCompiled(lib, rule) && FiniteLookup(ctx.field)
    ensures SameClass(EvalRule(lib, rule, ctx), RuleMeaning(lib, rule.select, rule.whereExpr, ctx))
  {
    WhereComputes(lib.fp, rule.whereExpr, ctx);
    SelectComputes(lib, rule.select, ctx);
    if rule.wherePlan.Some? {
      assert SameClass(EvalBool(lib.fp, rule.wherePlan.value, ctx), Verdict(lib.fp, rule.whereExpr.value, ctx));
    }
  }
}
