/** SQL expressions as the parser hands them over, and their compilation to evaluation plans. */
module Expressions {
  import opened Wrappers
  import opened Text
  import opened Doubles
  import opened Values

  datatype BinaryOperator =
    | Plus | Minus | Multiply | Divide
    | Gt | GtEq | Lt | LtEq | Eq | NotEq
    | And | Or
    | OtherOperator(name: string)
  {
    predicate IsArithmetic() { Plus? || Minus? || Multiply? || Divide? }
    predicate IsComparison() { Gt? || GtEq? || Lt? || LtEq? || Eq? || NotEq? }
    predicate IsLogical() { And? || Or? }
  }

  /** NumberLiteral holds the f64 its text parses to, None when there is no finite one. */
  datatype Expr =
    | Identifier(name: string)
    | CompoundIdentifier(names: seq<string>)
    | NumberLiteral(parsed: Option<real>)
    | StringLiteral(text: string)
    | BooleanLiteral(b: bool)
    | BinaryOp(left: Expr, op: BinaryOperator, right: Expr)
    | Nested(inner: Expr)
    | Function(lowerName: string, args: seq<FunctionArg>)
    | MapAccess(column: Expr, keys: seq<Expr>)
    | ArrayIndex(obj: Expr, indexes: seq<Expr>)
    | OtherExpr

  datatype FunctionArg = Unnamed(e: Expr) | OtherArg

  /** A payload field with its dotted path split into segments. */
  datatype Field = Field(key: string, segments: seq<string>)

  function FieldFromKey(key: string): Field {
    Field(key, Split(key, '.'))
  }

  datatype Plan =
    | Const(value: Json)
    | PayloadField(field: Field)
    | MetaQos | MetaRetain | MetaDup | MetaTimestamp | MetaClientId | MetaUsername
    | Binary(left: Plan, op: BinaryOperator, right: Plan)
    | TopicLevel(level: Plan)
    | PropertiesKey(key: Plan)
    | Unknown

  // ----- operations on JSON values -----

  /** left op right rounded to f64; None for a division by zero or a result that is not finite. */
  function ArithmeticResult(fp: Rounding, l: real, r: real, op: BinaryOperator): Option<real> {
    match op
    case Plus => fp(l + r)
    case Minus => fp(l - r)
    case Multiply => fp(l * r)
    case Divide => if r == 0.0 then None else fp(l / r)
    case _ => None
  }

  function EvaluateArithmetic(fp: Rounding, left: Json, right: Json, op: BinaryOperator): Option<Json> {
    if !left.Number? || !right.Number? then None
    else
      match ArithmeticResult(fp, AsF64(left.number), AsF64(right.number), op)
      case Some(x) => Some(Number(Float(x)))
      case None => None
  }

  /** |l - r| < EPSILON in f64; a difference that overflows is infinite. */
  predicate Near(fp: Rounding, l: real, r: real) {
    match fp(l - r)
    case Some(d) => -EPSILON < d < EPSILON
    case None => false
  }

  function CompareNumbers(fp: Rounding, l: real, r: real, op: BinaryOperator): Option<bool> {
    match op
    case Gt => Some(l > r)
    case GtEq => Some(l >= r)
    case Lt => Some(l < r)
    case LtEq => Some(l <= r)
    case Eq => Some(Near(fp, l, r))
    case NotEq => Some(!Near(fp, l, r))
    case _ => None
  }

  function CompareValues(fp: Rounding, left: Json, right: Json, op: BinaryOperator): Option<bool> {
    match (left, right)
    case (Number(l), Number(r)) => CompareNumbers(fp, AsF64(l), AsF64(r), op)
    case (String(l), String(r)) => if op.Eq? then Some(l == r) else if op.NotEq? then Some(l != r) else None
    case (Bool(l), Bool(r)) => if op.Eq? then Some(l == r) else if op.NotEq? then Some(l != r) else None
    case _ => None
  }

  // ----- compilation -----

  function FoldConstBinary(fp: Rounding, left: Plan, op: BinaryOperator, right: Plan): Option<Json> {
    if !left.Const? || !right.Const? then None
    else if op.IsArithmetic() then EvaluateArithmetic(fp, left.value, right.value, op)
    else if op.IsComparison() then
      match CompareValues(fp, left.value, right.value, op)
      case Some(b) => Some(Bool(b))
      case None => None
    else if op.IsLogical() && left.value.Bool? && right.value.Bool? then
      Some(Bool(if op.And? then left.value.b && right.value.b else left.value.b || right.value.b))
    else None
  }

  function FoldBinaryPlan(fp: Rounding, left: Plan, op: BinaryOperator, right: Plan): Plan {
    match FoldConstBinary(fp, left, op, right)
    case Some(v) => Const(v)
    case None => Binary(left, op, right)
  }

  function CompileIdentifier(name: string): Plan {
    if name == "qos" then MetaQos
    else if name == "retain" then MetaRetain
    else if name == "dup" then MetaDup
    else if name == "timestamp" then MetaTimestamp
    else if name == "clientId" then MetaClientId
    else if name == "username" then MetaUsername
    else PayloadField(FieldFromKey(name))
  }

  /** The plan of an expression; `fold` switches constant folding, which the engine always has on. */
  function Compile(fp: Rounding, fold: bool, e: Expr): Plan
    decreases e
  {
    match e
    case Identifier(name) => CompileIdentifier(name)
    case CompoundIdentifier(names) => PayloadField(FieldFromKey(Join(names, '.')))
    case NumberLiteral(parsed) => if parsed.Some? then Const(Number(Float(parsed.value))) else Unknown
    case StringLiteral(s) => Const(String(s))
    case BooleanLiteral(b) => Const(Bool(b))
    case BinaryOp(left, op, right) =>
      var l, r := Compile(fp, fold, left), Compile(fp, fold, right);
      if fold then FoldBinaryPlan(fp, l, op, r) else Binary(l, op, r)
    case Nested(inner) => Compile(fp, fold, inner)
    case Function(name, args) =>
      if name == "topic_level" && |args| == 2 && args[1].Unnamed? then TopicLevel(Compile(fp, fold, args[1].e))
      else Unknown
    case MapAccess(column, keys) =>
      if column == Identifier("properties") && |keys| > 0 then PropertiesKey(Compile(fp, fold, keys[0]))
      else Unknown
    case ArrayIndex(obj, indexes) =>
      if obj == Identifier("properties") && |indexes| > 0 then PropertiesKey(Compile(fp, fold, indexes[0]))
      else Unknown
    case OtherExpr => Unknown
  }

  function CompileExprPlan(fp: Rounding, e: Expr): Plan {
    Compile(fp, true, e)
  }

  predicate HasUnknown(plan: Plan) {
    match plan
    case Unknown => true
    case Binary(l, _, r) => HasUnknown(l) || HasUnknown(r)
    case TopicLevel(level) => HasUnknown(level)
    case PropertiesKey(key) => HasUnknown(key)
    case _ => false
  }

  // ----- what an expression holds, said of the expression itself -----

  predicate IsMetadata(name: string) {
    name == "qos" || name == "retain" || name == "dup" || name == "timestamp" || name == "clientId" ||
    name == "username"
  }

  /** The argument of an expression that selects a topic level or a property; None for other calls and accesses. */
  function Argument(e: Expr): Option<Expr> {
    match e
    case Function(name, args) =>
      if name == "topic_level" && |args| == 2 && args[1].Unnamed? then Some(args[1].e) else None
    case MapAccess(column, keys) => if column == Identifier("properties") && |keys| > 0 then Some(keys[0]) else None
    case ArrayIndex(obj, indexes) => if obj == Identifier("properties") && |indexes| > 0 then Some(indexes[0]) else None
    case _ => None
  }

  /** The payload keys the expression names. */
  function Mentions(e: Expr): set<string> {
    if e.Identifier? then (if IsMetadata(e.name) then {} else {e.name})
    else if e.CompoundIdentifier? then {Join(e.names, '.')}
    else if e.BinaryOp? then Mentions(e.left) + Mentions(e.right)
    else if e.Nested? then Mentions(e.inner)
    else if Argument(e).Some? then Mentions(Argument(e).value)
    else {}
  }

  /** Some part is an unparsable number, a call or access other than the known selections, or another form. */
  predicate Unsupported(e: Expr) {
    if e.NumberLiteral? then e.parsed.None?
    else if e.BinaryOp? then Unsupported(e.left) || Unsupported(e.right)
    else if e.Nested? then Unsupported(e.inner)
    else if Argument(e).Some? then Unsupported(Argument(e).value)
    else e.Function? || e.MapAccess? || e.ArrayIndex? || e.OtherExpr?
  }

  /** A topic level is selected somewhere. */
  predicate SelectsLevel(e: Expr) {
    if e.BinaryOp? then SelectsLevel(e.left) || SelectsLevel(e.right)
    else if e.Nested? then SelectsLevel(e.inner)
    else Argument(e).Some? && (e.Function? || SelectsLevel(Argument(e).value))
  }

  predicate PlanRequiresTopicParts(plan: Plan) {
    match plan
    case TopicLevel(_) => true
    case Binary(l, _, r) => PlanRequiresTopicParts(l) || PlanRequiresTopicParts(r)
    case PropertiesKey(key) => PlanRequiresTopicParts(key)
    case _ => false
  }

  function PlanKeys(plan: Plan): set<string> {
    match plan
    case PayloadField(field) => {field.key}
    case Binary(l, _, r) => PlanKeys(l) + PlanKeys(r)
    case TopicLevel(level) => PlanKeys(level)
    case PropertiesKey(key) => PlanKeys(key)
    case _ => {}
  }

  /** Compilation, with or without folding, loses no payload key or topic level and hides no unsupported part. */
  lemma {:induction false} CompileKeeps(fp: Rounding, fold: bool, e: Expr)
    ensures PlanKeys(Compile(fp, fold, e)) == Mentions(e)
    ensures HasUnknown(Compile(fp, fold, e)) <==> Unsupported(e)
    ensures PlanRequiresTopicParts(Compile(fp, fold, e)) <==> SelectsLevel(e)
  {
    if e.BinaryOp? {
      CompileKeeps(fp, fold, e.left);
      CompileKeeps(fp, fold, e.right);
    } else if e.Nested? {
      CompileKeeps(fp, fold, e.inner);
    } else if Argument(e).Some? {
      CompileKeeps(fp, fold, Argument(e).value);
      SelectionKeeps(fp, fold, e);
    }
  }

  lemma SelectionKeeps(fp: Rounding, fold: bool, e: Expr)
    requires Argument(e).Some?
    ensures Compile(fp, fold, e) ==
            if e.Function? then TopicLevel(Compile(fp, fold, Argument(e).value))
            else PropertiesKey(Compile(fp, fold, Argument(e).value))
  {}
}
