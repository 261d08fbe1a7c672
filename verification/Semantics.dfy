/** What each operator and selection of an expression means, in terms of numbers, texts and truth values alone. */
module Semantics {
  import opened Wrappers
  import opened Doubles
  import opened Values
  import opened Expressions
  import opened Evaluation
  import opened EvaluationProofs

  // ----- values and failures -----

  /** The expression has a JSON number whose f64 value is x. */
  ghost predicate MeansNumber(fp: Rounding, e: Expr, ctx: EvalContext, x: real) {
    var m := Meaning(fp, e, ctx);
    m.Ok? && m.value.Number? && AsF64(m.value.number) == x
  }

  ghost predicate MeansText(fp: Rounding, e: Expr, ctx: EvalContext, text: string) {
    Meaning(fp, e, ctx) == Ok(String(text))
  }

  ghost predicate MeansTruth(fp: Rounding, e: Expr, ctx: EvalContext, b: bool) {
    Meaning(fp, e, ctx) == Ok(Bool(b))
  }

  /** The expression is the truth value b, both as a value and as a predicate. */
  ghost predicate Decides(fp: Rounding, e: Expr, ctx: EvalContext, b: bool) {
    Meaning(fp, e, ctx) == Ok(Bool(b)) && Verdict(fp, e, ctx) == Ok(b)
  }

  /** The expression fails with a type error, both as a value and as a predicate. */
  ghost predicate Misfits(fp: Rounding, e: Expr, ctx: EvalContext) {
    Meaning(fp, e, ctx).Err? && Meaning(fp, e, ctx).error.IsTypeError() && IsTypeFailure(Verdict(fp, e, ctx))
  }

  predicate IsTypeFailure(t: Truth) {
    t.Err? && t.error.IsTypeError()
  }

  /** The expression fails with this error, both as a value and as a predicate. */
  ghost predicate Fails(fp: Rounding, e: Expr, ctx: EvalContext, error: EvalError) {
    Meaning(fp, e, ctx) == Err(error) && Verdict(fp, e, ctx) == Err(error)
  }

  /** Everything that is missing, unsupported or cannot be written is no type error; all other errors are. */
  lemma ErrorClasses(error: EvalError)
    ensures error.IsTypeError() <==>
            !(error.MissingPayloadField? || error.MissingProperty? || error.MissingMetadata? ||
              error.UnsupportedExpression? || error.ProjectionSerialization?)
  {}

  /** A predicate that is no truth value fails with a type error; any other predicate has its value. */
  lemma OnlyTruthsDecide(fp: Rounding, e: Expr, ctx: EvalContext)
    requires !e.Nested? && !(e.BinaryOp? && e.op.IsComparison())
    ensures var m, v := Meaning(fp, e, ctx), Verdict(fp, e, ctx);
            && (m.Err? ==> v == Err(m.error))
            && (m.Ok? ==> if m.value.Bool? then v == Ok(m.value.b) else IsTypeFailure(v))
  {}

  // ----- comparisons -----

  lemma ComparisonMeans(fp: Rounding, a: Expr, op: BinaryOperator, b: Expr, ctx: EvalContext)
    requires op.IsComparison()
    ensures var e, l, r := BinaryOp(a, op, b), Meaning(fp, a, ctx), Meaning(fp, b, ctx);
            && Meaning(fp, e, ctx) == Operate(fp, l, op, r)
            && Verdict(fp, e, ctx) == CompareChecked(fp, l, op, r)
  {}

  /** `>`, `>=`, `<` and `<=` compare the f64 values. */
  lemma NumbersAreOrdered(fp: Rounding, a: Expr, op: BinaryOperator, b: Expr, ctx: EvalContext, x: real, y: real)
    requires MeansNumber(fp, a, ctx, x) && MeansNumber(fp, b, ctx, y)
    ensures match op
            case Gt => Decides(fp, BinaryOp(a, op, b), ctx, x > y)
            case GtEq => Decides(fp, BinaryOp(a, op, b), ctx, x >= y)
            case Lt => Decides(fp, BinaryOp(a, op, b), ctx, x < y)
            case LtEq => Decides(fp, BinaryOp(a, op, b), ctx, x <= y)
            case _ => true
  {
    if op.IsComparison() {
      ComparisonMeans(fp, a, op, b, ctx);
    }
  }

  /** The f64 difference is finite and less than 2^-52 either way. */
  predicate Indistinct(difference: Option<real>) {
    difference.Some? && -1.0 < difference.value * 4503599627370496.0 < 1.0
  }

  /** Numbers are equal when their rounded difference is less than 2^-52 either way, and unequal otherwise. */
  lemma NumbersAreEqual(fp: Rounding, a: Expr, b: Expr, ctx: EvalContext, x: real, y: real)
    requires MeansNumber(fp, a, ctx, x) && MeansNumber(fp, b, ctx, y)
    ensures Decides(fp, BinaryOp(a, Eq, b), ctx, Indistinct(fp(x - y)))
    ensures Decides(fp, BinaryOp(a, NotEq, b), ctx, !Indistinct(fp(x - y)))
  {
    ComparisonMeans(fp, a, Eq, b, ctx);
    ComparisonMeans(fp, a, NotEq, b, ctx);
  }

  /** Texts are compared for equality only. */
  lemma TextsCompare(fp: Rounding, a: Expr, op: BinaryOperator, b: Expr, ctx: EvalContext, s: string, t: string)
    requires op.IsComparison() && MeansText(fp, a, ctx, s) && MeansText(fp, b, ctx, t)
    ensures match op
            case Eq => Decides(fp, BinaryOp(a, op, b), ctx, s == t)
            case NotEq => Decides(fp, BinaryOp(a, op, b), ctx, s != t)
            case _ => Misfits(fp, BinaryOp(a, op, b), ctx)
  {
    ComparisonMeans(fp, a, op, b, ctx);
  }

  /** So are truth values. */
  lemma TruthsCompare(fp: Rounding, a: Expr, op: BinaryOperator, b: Expr, ctx: EvalContext, s: bool, t: bool)
    requires op.IsComparison() && MeansTruth(fp, a, ctx, s) && MeansTruth(fp, b, ctx, t)
    ensures match op
            case Eq => Decides(fp, BinaryOp(a, op, b), ctx, s == t)
            case NotEq => Decides(fp, BinaryOp(a, op, b), ctx, s != t)
            case _ => Misfits(fp, BinaryOp(a, op, b), ctx)
  {
    ComparisonMeans(fp, a, op, b, ctx);
  }

  /** Two numbers, two texts or two truth values. */
  predicate Comparable(l: Json, r: Json) {
    (l.Number? && r.Number?) || (l.String? && r.String?) || (l.Bool? && r.Bool?)
  }

  /** Comparing anything else is a type error. */
  lemma MixedCompare(fp: Rounding, a: Expr, op: BinaryOperator, b: Expr, ctx: EvalContext)
    requires op.IsComparison() && Meaning(fp, a, ctx).Ok? && Meaning(fp, b, ctx).Ok?
    requires !Comparable(Meaning(fp, a, ctx).value, Meaning(fp, b, ctx).value)
    ensures Misfits(fp, BinaryOp(a, op, b), ctx)
  {
    ComparisonMeans(fp, a, op, b, ctx);
  }

  /** The left side's failure is the comparison's, then the right side's, but in a predicate a left side that is
      null, an array or an object is a type error first. */
  lemma FailingSidesCompare(fp: Rounding, a: Expr, op: BinaryOperator, b: Expr, ctx: EvalContext)
    requires op.IsComparison()
    ensures var e, l, r := BinaryOp(a, op, b), Meaning(fp, a, ctx), Meaning(fp, b, ctx);
            && (l.Err? ==> Fails(fp, e, ctx, l.error))
            && (l.Ok? && r.Err? ==> Meaning(fp, e, ctx) == Err(r.error))
            && (l.Ok? && r.Err? && (l.value.Number? || l.value.String? || l.value.Bool?) ==>
                Fails(fp, e, ctx, r.error))
            && (l.Ok? && r.Err? && (l.value.Null? || l.value.Array? || l.value.Object?) ==>
                IsTypeFailure(Verdict(fp, e, ctx)))
  {
    ComparisonMeans(fp, a, op, b, ctx);
  }

  function Not(t: Truth): Truth {
    match t
    case Ok(b) => Ok(!b)
    case Err(e) => Err(e)
  }

  /** The same decision, or a failure of both. */
  lemma GreaterTurns(fp: Rounding, l: Value, r: Value)
    ensures SameOk(CompareChecked(fp, l, Gt, r), CompareChecked(fp, r, Lt, l))
  {}

  lemma GreaterOrEqualTurns(fp: Rounding, l: Value, r: Value)
    ensures SameOk(CompareChecked(fp, l, GtEq, r), CompareChecked(fp, r, LtEq, l))
  {}

  lemma LessNegates(fp: Rounding, l: Value, r: Value)
    ensures SameOk(CompareChecked(fp, l, GtEq, r), Not(CompareChecked(fp, l, Lt, r)))
  {}

  lemma EqualNegates(fp: Rounding, l: Value, r: Value)
    ensures SameOk(CompareChecked(fp, l, NotEq, r), Not(CompareChecked(fp, l, Eq, r)))
  {}

  /** For any two sides, `a > b` is `b < a`, and `a >= b` is `b <= a`. */
  lemma ComparisonsTurn(fp: Rounding, a: Expr, b: Expr, ctx: EvalContext)
    ensures SameOk(Verdict(fp, BinaryOp(a, Gt, b), ctx), Verdict(fp, BinaryOp(b, Lt, a), ctx))
    ensures SameOk(Verdict(fp, BinaryOp(a, GtEq, b), ctx), Verdict(fp, BinaryOp(b, LtEq, a), ctx))
  {
    GreaterTurns(fp, Meaning(fp, a, ctx), Meaning(fp, b, ctx));
    GreaterOrEqualTurns(fp, Meaning(fp, a, ctx), Meaning(fp, b, ctx));
  }

  /** And `a >= b` is the negation of `a < b`, as `a != b` is of `a = b`. */
  lemma ComparisonsNegate(fp: Rounding, a: Expr, b: Expr, ctx: EvalContext)
    ensures SameOk(Verdict(fp, BinaryOp(a, GtEq, b), ctx), Not(Verdict(fp, BinaryOp(a, Lt, b), ctx)))
    ensures SameOk(Verdict(fp, BinaryOp(a, NotEq, b), ctx), Not(Verdict(fp, BinaryOp(a, Eq, b), ctx)))
  {
    LessNegates(fp, Meaning(fp, a, ctx), Meaning(fp, b, ctx));
    EqualNegates(fp, Meaning(fp, a, ctx), Meaning(fp, b, ctx));
  }

  // ----- AND and OR -----

  /** AND and OR of two verdicts; both sides are evaluated, and the left failure comes first. */
  lemma LogicalMeans(fp: Rounding, a: Expr, op: BinaryOperator, b: Expr, ctx: EvalContext)
    requires op.IsLogical()
    ensures var e, l, r := BinaryOp(a, op, b), Verdict(fp, a, ctx), Verdict(fp, b, ctx);
            && (l.Err? ==> Fails(fp, e, ctx, l.error))
            && (l.Ok? && r.Err? ==> Fails(fp, e, ctx, r.error))
            && (l.Ok? && r.Ok? ==>
                Decides(fp, e, ctx, if op == And then l.value && r.value else l.value || r.value))
  {
    BinaryMeans(fp, a, op, b, ctx);
  }

  // ----- arithmetic -----

  /** The exact result of an arithmetic operator, before it is rounded; None for a division by zero. */
  function Exact(x: real, op: BinaryOperator, y: real): Option<real>
    requires op.IsArithmetic()
  {
    if op == Plus then Some(x + y)
    else if op == Minus then Some(x - y)
    else if op == Multiply then Some(x * y)
    else if y != 0.0 then Some(x / y)
    else None
  }

  /** Arithmetic rounds the exact result; without a finite one it is unsupported, which is no type error. */
  lemma ArithmeticMeans(fp: Rounding, a: Expr, op: BinaryOperator, b: Expr, ctx: EvalContext, x: real, y: real)
    requires op.IsArithmetic() && MeansNumber(fp, a, ctx, x) && MeansNumber(fp, b, ctx, y)
    ensures if Exact(x, op, y).Some? && fp(Exact(x, op, y).value).Some? then
              MeansNumber(fp, BinaryOp(a, op, b), ctx, fp(Exact(x, op, y).value).value)
            else Fails(fp, BinaryOp(a, op, b), ctx, UnsupportedExpression)
  {
    BinaryMeans(fp, a, op, b, ctx);
  }

  /** Arithmetic on anything but two numbers is a type error; a failing side is the failure, the left one first. */
  lemma ArithmeticFails(fp: Rounding, a: Expr, op: BinaryOperator, b: Expr, ctx: EvalContext)
    requires op.IsArithmetic()
    ensures var e, l, r := BinaryOp(a, op, b), Meaning(fp, a, ctx), Meaning(fp, b, ctx);
            && (l.Err? ==> Fails(fp, e, ctx, l.error))
            && (l.Ok? && r.Err? ==> Fails(fp, e, ctx, r.error))
            && (l.Ok? && r.Ok? && !(l.value.Number? && r.value.Number?) ==> Misfits(fp, e, ctx))
  {
    BinaryMeans(fp, a, op, b, ctx);
  }

  /** Other operators are unsupported. */
  lemma OtherOperatorsFail(fp: Rounding, a: Expr, op: BinaryOperator, b: Expr, ctx: EvalContext)
    requires op.OtherOperator? && Meaning(fp, a, ctx).Ok? && Meaning(fp, b, ctx).Ok?
    ensures Fails(fp, BinaryOp(a, op, b), ctx, UnsupportedExpression)
  {
    BinaryMeans(fp, a, op, b, ctx);
  }

  // ----- names and selections -----

  /** A text that may be missing. */
  ghost predicate MeansTextOr(fp: Rounding, e: Expr, ctx: EvalContext, text: Option<string>, error: EvalError) {
    match text
    case Some(s) => MeansText(fp, e, ctx, s)
    case None => Fails(fp, e, ctx, error)
  }

  /** `clientId` and `username` are the message's, and missing when it has none. */
  lemma NamesMean(fp: Rounding, ctx: EvalContext)
    ensures MeansTextOr(fp, Identifier("clientId"), ctx, ctx.message.clientId, MissingMetadata("clientId"))
    ensures MeansTextOr(fp, Identifier("username"), ctx, ctx.message.username, MissingMetadata("username"))
  {
    OnlyTruthsDecide(fp, Identifier("clientId"), ctx);
    OnlyTruthsDecide(fp, Identifier("username"), ctx);
  }

  /** The call `topic_level(_, argument)`, or the access `properties[argument]`. */
  function LevelOf(column: FunctionArg, argument: Expr): Expr {
    Function("topic_level", [column, Unnamed(argument)])
  }

  function PropertyOf(argument: Expr): Expr {
    MapAccess(Identifier("properties"), [argument])
  }

  lemma SelectionMeans(fp: Rounding, column: FunctionArg, argument: Expr, ctx: EvalContext)
    ensures var m, level, property := Meaning(fp, argument, ctx),
            Meaning(fp, LevelOf(column, argument), ctx), Meaning(fp, PropertyOf(argument), ctx);
            && (m.Err? ==> level == m && property == m)
            && (m.Ok? ==> level == AsString(TopicPart(ctx, m.value)) && property == AsString(Property(ctx, m.value)))
  {
    assert Argument(LevelOf(column, argument)) == Some(argument);
    assert Argument(PropertyOf(argument)) == Some(argument);
  }

  /** The topic level a number selects, counted from 1; 0 selects the first as well. */
  function LevelAt(parts: seq<string>, n: nat): Option<string> {
    if n == 0 && parts != [] then Some(parts[0])
    else if 1 <= n <= |parts| then Some(parts[n - 1])
    else None
  }

  /** A number that is whole and from 0 to 2^64 - 1 selects that level, whether it is written as an integer or as
      an f64; a level the topic does not have is missing. */
  lemma TopicLevelMeans(fp: Rounding, column: FunctionArg, argument: Expr, ctx: EvalContext, n: nat)
    requires n < TWO_64
    requires Meaning(fp, argument, ctx) == Ok(Number(PosInt(n))) ||
             Meaning(fp, argument, ctx) == Ok(Number(Float(n as real)))
    ensures MeansTextOr(fp, LevelOf(column, argument), ctx, LevelAt(ctx.topicParts, n), MissingMetadata("topic level"))
  {
    SelectionMeans(fp, column, argument, ctx);
    OnlyTruthsDecide(fp, LevelOf(column, argument), ctx);
  }

  predicate WholeU64(x: real) {
    0.0 <= x <= TWO_64 as real && x == x.Floor as real
  }

  /** A negative, fractional or too large number and any other value select no level: a type error. */
  lemma TopicLevelMisfits(fp: Rounding, column: FunctionArg, argument: Expr, ctx: EvalContext)
    requires Meaning(fp, argument, ctx).Ok?
    requires var j := Meaning(fp, argument, ctx).value;
             !j.Number? || (!j.number.PosInt? && !WholeU64(AsF64(j.number)))
    ensures Misfits(fp, LevelOf(column, argument), ctx)
  {
    SelectionMeans(fp, column, argument, ctx);
    OnlyTruthsDecide(fp, LevelOf(column, argument), ctx);
  }

  /** A text selects the property of that name; a property the message does not have is missing, and a key that is
      no text is a type error. */
  lemma PropertyMeans(fp: Rounding, argument: Expr, ctx: EvalContext)
    requires Meaning(fp, argument, ctx).Ok?
    ensures var key, properties := Meaning(fp, argument, ctx).value, ctx.message.properties;
            if key.String? then
              MeansTextOr(fp, PropertyOf(argument), ctx,
                          if key.text in properties then Some(properties[key.text]) else None,
                          MissingProperty(key.text))
            else Misfits(fp, PropertyOf(argument), ctx)
  {
    SelectionMeans(fp, OtherArg, argument, ctx);
    OnlyTruthsDecide(fp, PropertyOf(argument), ctx);
  }

  /** A failing argument is the selection's failure. */
  lemma SelectionFails(fp: Rounding, column: FunctionArg, argument: Expr, ctx: EvalContext)
    requires Meaning(fp, argument, ctx).Err?
    ensures Fails(fp, LevelOf(column, argument), ctx, Meaning(fp, argument, ctx).error)
    ensures Fails(fp, PropertyOf(argument), ctx, Meaning(fp, argument, ctx).error)
  {
    SelectionMeans(fp, column, argument, ctx);
    OnlyTruthsDecide(fp, LevelOf(column, argument), ctx);
    OnlyTruthsDecide(fp, PropertyOf(argument), ctx);
  }

  // ----- the compiled plan -----

  /** What an expression decides its compiled plan decides, and where it misfits its plan fails with a type error. */
  lemma CompiledDecides(fp: Rounding, e: Expr, ctx: EvalContext, b: bool)
    requires FiniteLookup(ctx.field)
    ensures Decides(fp, e, ctx, b) ==> EvalBool(fp, CompileExprPlan(fp, e), ctx) == Ok(b)
    ensures Misfits(fp, e, ctx) ==> IsTypeFailure(EvalBool(fp, CompileExprPlan(fp, e), ctx))
  {
    CompileIsCorrect(fp, e, ctx);
  }

  /** `WHERE a > b` is decided by the plan as the numbers are ordered. */
  lemma CompiledGreater(fp: Rounding, a: Expr, b: Expr, ctx: EvalContext, x: real, y: real)
    requires FiniteLookup(ctx.field) && MeansNumber(fp, a, ctx, x) && MeansNumber(fp, b, ctx, y)
    ensures EvalBool(fp, CompileExprPlan(fp, BinaryOp(a, Gt, b)), ctx) == Ok(x > y)
  {
    NumbersAreOrdered(fp, a, Gt, b, ctx, x, y);
    CompiledDecides(fp, BinaryOp(a, Gt, b), ctx, x > y);
  }
}
