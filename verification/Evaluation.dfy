/** Evaluation of plans against a message, and the meaning of expressions it must agree with. */
module Evaluation {
  import opened Wrappers
  import opened Doubles
  import opened Values
  import opened Expressions

  type Byte = b: int | 0 <= b < 256
  type Bytes = seq<Byte>

  datatype Message = Message(
    packetId: nat, topic: string, payload: Bytes, qos: nat, retain: bool, dup: bool, timestampMillis: nat,
    clientId: Option<string>, username: Option<string>, properties: map<string, string>)

  datatype Kind = NullKind | BoolKind | NumberKind | StringKind | ArrayKind | ObjectKind

  datatype EvalError =
    | MissingPayloadField(field: string)
    | MissingProperty(key: string)
    | MissingMetadata(name: string)
    | TypeMismatch(actual: Kind)
    | BinaryTypeMismatch(op: BinaryOperator, left: Kind, right: Kind)
    | InvalidTopicLevelValue(actual: Kind)
    | UnsupportedExpression
    | ProjectionSerialization
  {
    predicate IsTypeError() {
      TypeMismatch? || BinaryTypeMismatch? || InvalidTopicLevelValue?
    }
  }

  type FieldLookup = string -> Option<Payload>

  /** What a rule is evaluated against; `field` answers for the keys of the decoded payload. */
  datatype EvalContext = EvalContext(message: Message, field: FieldLookup, topicParts: seq<string>)

  type Value = Result<Json, EvalError>
  type Truth = Result<bool, EvalError>

  function KindOf(j: Json): Kind {
    match j
    case Null => NullKind
    case Bool(_) => BoolKind
    case Number(_) => NumberKind
    case String(_) => StringKind
    case Array(_) => ArrayKind
    case Object(_) => ObjectKind
  }

  function PayloadKind(p: Payload): Kind {
    match p
    case PNull => NullKind
    case PBool(_) => BoolKind
    case PNumber(_) => NumberKind
    case PString(_) => StringKind
    case PArray(_) => ArrayKind
    case PObject(_) => ObjectKind
  }

  // ----- leaves shared by the evaluators -----

  function LookupField(ctx: EvalContext, field: Field): Result<Payload, EvalError> {
    match ctx.field(field.key)
    case Some(p) => Ok(p)
    case None => Err(MissingPayloadField(field.key))
  }

  function Metadata(value: Option<string>, name: string): Result<string, EvalError> {
    match value
    case Some(s) => Ok(s)
    case None => Err(MissingMetadata(name))
  }

  /** A non-negative 64-bit integer; the cast of 2^64 saturates. */
  function NonNegativeU64(j: Json): Result<nat, EvalError> {
    if !j.Number? then Err(InvalidTopicLevelValue(KindOf(j)))
    else if j.number.PosInt? then Ok(j.number.n)
    else
      var v := AsF64(j.number);
      if v < 0.0 || v != v.Floor as real || v > TWO_64 as real then Err(InvalidTopicLevelValue(NumberKind))
      else Ok(if v.Floor > U64_MAX then U64_MAX else v.Floor)
  }

  /** The 1-based topic level named by a value; level 0 is read as level 1. */
  function TopicPart(ctx: EvalContext, level: Json): Result<string, EvalError> {
    match NonNegativeU64(level)
    case Err(e) => Err(e)
    case Ok(n) =>
      var index := if n == 0 then 0 else n - 1;
      if index < |ctx.topicParts| then Ok(ctx.topicParts[index]) else Err(MissingMetadata("topic level"))
  }

  function Property(ctx: EvalContext, key: Json): Result<string, EvalError> {
    if !key.String? then Err(TypeMismatch(KindOf(key)))
    else if key.text in ctx.message.properties then Ok(ctx.message.properties[key.text])
    else Err(MissingProperty(key.text))
  }

  function AsString(r: Result<string, EvalError>): Value {
    match r
    case Ok(s) => Ok(String(s))
    case Err(e) => Err(e)
  }

  // ----- the JSON path -----

  function CompareValuesRuntime(fp: Rounding, left: Json, right: Json, op: BinaryOperator): Truth {
    match CompareValues(fp, left, right, op)
    case Some(b) => Ok(b)
    case None =>
      if left.Number? && right.Number? then Err(UnsupportedExpression)
      else Err(BinaryTypeMismatch(op, KindOf(left), KindOf(right)))
  }

  function ArithmeticRuntime(fp: Rounding, left: Json, right: Json, op: BinaryOperator): Value {
    if !left.Number? || !right.Number? then Err(BinaryTypeMismatch(op, KindOf(left), KindOf(right)))
    else
      match ArithmeticResult(fp, AsF64(left.number), AsF64(right.number), op)
      case Some(x) => Ok(Number(Float(x)))
      case None => Err(UnsupportedExpression)
  }

  /** A non-logical operator applied to two evaluated sides, the left failure first. */
  function Operate(fp: Rounding, left: Value, op: BinaryOperator, right: Value): Value {
    if left.Err? then left
    else if right.Err? then right
    else if op.IsArithmetic() then ArithmeticRuntime(fp, left.value, right.value, op)
    else if op.IsComparison() then AsJson(CompareValuesRuntime(fp, left.value, right.value, op))
    else Err(UnsupportedExpression)
  }

  /** AND and OR evaluate both sides. */
  function Logical(left: Truth, op: BinaryOperator, right: Truth): Truth {
    if left.Err? then left
    else if right.Err? then right
    else Ok(if op.And? then left.value && right.value else left.value || right.value)
  }

  function AsJson(t: Truth): Value {
    match t
    case Ok(b) => Ok(Bool(b))
    case Err(e) => Err(e)
  }

  function AsTruth(v: Value): Truth {
    match v
    case Ok(j) => if j.Bool? then Ok(j.b) else Err(TypeMismatch(KindOf(j)))
    case Err(e) => Err(e)
  }

  function EvalValue(fp: Rounding, plan: Plan, ctx: EvalContext): Value
    decreases plan, if plan.Binary? && plan.op.IsLogical() then 1 else 0
  {
    match plan
    case Const(v) => Ok(v)
    case PayloadField(field) =>
      (match LookupField(ctx, field)
       case Ok(p) => Ok(ToJson(p))
       case Err(e) => Err(e))
    case MetaQos => Ok(Number(PosInt(ctx.message.qos)))
    case MetaRetain => Ok(Bool(ctx.message.retain))
    case MetaDup => Ok(Bool(ctx.message.dup))
    case MetaTimestamp => Ok(Number(PosInt(ctx.message.timestampMillis)))
    case MetaClientId => AsString(Metadata(ctx.message.clientId, "clientId"))
    case MetaUsername => AsString(Metadata(ctx.message.username, "username"))
    case Binary(left, op, right) =>
      if op.IsLogical() then AsJson(EvalBool(fp, plan, ctx))
      else Operate(fp, EvalValue(fp, left, ctx), op, EvalValue(fp, right, ctx))
    case TopicLevel(level) =>
      (match EvalValue(fp, level, ctx)
       case Err(e) => Err(e)
       case Ok(v) => AsString(TopicPart(ctx, v)))
    case PropertiesKey(key) =>
      (match EvalValue(fp, key, ctx)
       case Err(e) => Err(e)
       case Ok(v) => AsString(Property(ctx, v)))
    case Unknown => Err(UnsupportedExpression)
  }

  // ----- the borrowed-value path -----

  datatype RuntimeValue = RNumber(number: real) | RString(text: string) | RBool(b: bool)

  function RuntimeKind(v: RuntimeValue): Kind {
    match v
    case RNumber(_) => NumberKind
    case RString(_) => StringKind
    case RBool(_) => BoolKind
  }

  function CompareRuntime(fp: Rounding, left: RuntimeValue, right: RuntimeValue, op: BinaryOperator): Truth {
    var mismatch: Truth := Err(BinaryTypeMismatch(op, RuntimeKind(left), RuntimeKind(right)));
    match (left, right)
    case (RNumber(l), RNumber(r)) =>
      (match CompareNumbers(fp, l, r, op)
       case Some(b) => Ok(b)
       case None => Err(UnsupportedExpression))
    case (RString(l), RString(r)) => if op.Eq? then Ok(l == r) else if op.NotEq? then Ok(l != r) else mismatch
    case (RBool(l), RBool(r)) => if op.Eq? then Ok(l == r) else if op.NotEq? then Ok(l != r) else mismatch
    case _ => mismatch
  }

  type Borrowed = Result<Option<RuntimeValue>, EvalError>

  /** Some answer, or None when a side has no borrowed form and the JSON path must decide. */
  function CompareFast(fp: Rounding, left: Borrowed, op: BinaryOperator,
                       right: Borrowed): Result<Option<bool>, EvalError>
  {
    match left
    case Err(e) => Err(e)
    case Ok(None) => Ok(None)
    case Ok(Some(l)) =>
      match right
      case Err(e) => Err(e)
      case Ok(None) => Ok(None)
      case Ok(Some(r)) =>
        match CompareRuntime(fp, l, r, op)
        case Ok(b) => Ok(Some(b))
        case Err(e) => Err(e)
  }

  function CompareSlow(fp: Rounding, left: Value, op: BinaryOperator, right: Value): Truth {
    match left
    case Err(e) => Err(e)
    case Ok(l) =>
      match right
      case Err(e) => Err(e)
      case Ok(r) => CompareValuesRuntime(fp, l, r, op)
  }

  /** The borrowed-value comparison, unless it declines. */
  function FirstAnswer(fast: Result<Option<bool>, EvalError>, slow: Truth): Truth {
    match fast
    case Err(e) => Err(e)
    case Ok(Some(b)) => Ok(b)
    case Ok(None) => slow
  }

  function AsRuntimeString(r: Result<string, EvalError>): Borrowed {
    match r
    case Ok(s) => Ok(Some(RString(s)))
    case Err(e) => Err(e)
  }

  function RuntimeOf(fp: Rounding, plan: Plan, ctx: EvalContext): Borrowed
    decreases plan, 1
  {
    match plan
    case Const(v) =>
      (match v
       case Number(n) => Ok(Some(RNumber(AsF64(n))))
       case String(s) => Ok(Some(RString(s)))
       case Bool(b) => Ok(Some(RBool(b)))
       case _ => Ok(None))
    case PayloadField(field) =>
      (match LookupField(ctx, field)
       case Err(e) => Err(e)
       case Ok(p) =>
         match p
         case PNumber(v) => Ok(Some(RNumber(v)))
         case PString(s) => Ok(Some(RString(s)))
         case PBool(b) => Ok(Some(RBool(b)))
         case _ => Err(TypeMismatch(PayloadKind(p))))
    case MetaQos => Ok(Some(RNumber(RoundToDouble(ctx.message.qos) as real)))
    case MetaRetain => Ok(Some(RBool(ctx.message.retain)))
    case MetaDup => Ok(Some(RBool(ctx.message.dup)))
    case MetaTimestamp => Ok(Some(RNumber(RoundToDouble(ctx.message.timestampMillis) as real)))
    case MetaClientId => AsRuntimeString(Metadata(ctx.message.clientId, "clientId"))
    case MetaUsername => AsRuntimeString(Metadata(ctx.message.username, "username"))
    case TopicLevel(level) =>
      (match EvalValue(fp, level, ctx)
       case Err(e) => Err(e)
       case Ok(v) => AsRuntimeString(TopicPart(ctx, v)))
    case PropertiesKey(key) =>
      (match EvalValue(fp, key, ctx)
       case Err(e) => Err(e)
       case Ok(v) => AsRuntimeString(Property(ctx, v)))
    case Binary(_, _, _) => Ok(None)
    case Unknown => Ok(None)
  }

  function EvalBool(fp: Rounding, plan: Plan, ctx: EvalContext): Truth
    decreases plan, if plan.Binary? && plan.op.IsLogical() then 0 else 1
  {
    if plan.Binary? && plan.op.IsLogical() then
      Logical(EvalBool(fp, plan.left, ctx), plan.op, EvalBool(fp, plan.right, ctx))
    else if plan.Binary? && plan.op.IsComparison() then
      FirstAnswer(
        CompareFast(fp, RuntimeOf(fp, plan.left, ctx), plan.op, RuntimeOf(fp, plan.right, ctx)),
        CompareSlow(fp, EvalValue(fp, plan.left, ctx), plan.op, EvalValue(fp, plan.right, ctx)))
    else AsTruth(EvalValue(fp, plan, ctx))
  }
}
