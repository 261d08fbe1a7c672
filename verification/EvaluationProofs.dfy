/** The evaluator's shortcuts against the meaning of expressions. */
module EvaluationProofs {
  import opened Wrappers
  import opened Text
  import opened Doubles
  import opened Values
  import opened Expressions
  import opened Evaluation

  // ----- what an expression means: no plans, no folding, no borrowed values -----

  /** The value of an expression. */
  function Meaning(fp: Rounding, e: Expr, ctx: EvalContext): Value
    decreases e, if e.BinaryOp? && e.op.IsLogical() then 1 else 0
  {
    match e
    case Identifier(name) =>
      if name == "qos" then Ok(Number(PosInt(ctx.message.qos)))
      else if name == "retain" then Ok(Bool(ctx.message.retain))
      else if name == "dup" then Ok(Bool(ctx.message.dup))
      else if name == "timestamp" then Ok(Number(PosInt(ctx.message.timestampMillis)))
      else if name == "clientId" then AsString(Metadata(ctx.message.clientId, "clientId"))
      else if name == "username" then AsString(Metadata(ctx.message.username, "username"))
      else FieldMeaning(ctx, name)
    case CompoundIdentifier(names) => FieldMeaning(ctx, Join(names, '.'))
    case NumberLiteral(parsed) => if parsed.Some? then Ok(Number(Float(parsed.value))) else Err(UnsupportedExpression)
    case StringLiteral(s) => Ok(String(s))
    case BooleanLiteral(b) => Ok(Bool(b))
    case BinaryOp(left, op, right) =>
      if op.IsLogical() then AsJson(Verdict(fp, e, ctx))
      else Operate(fp, Meaning(fp, left, ctx), op, Meaning(fp, right, ctx))
    case Nested(inner) => Meaning(fp, inner, ctx)
    case OtherExpr => Err(UnsupportedExpression)
    case _ =>
      if Argument(e).None? then Err(UnsupportedExpression)
      else
        match Meaning(fp, Argument(e).value, ctx)
        case Err(error) => Err(error)
        case Ok(v) => AsString(if e.Function? then TopicPart(ctx, v) else Property(ctx, v))
  }

  /** The verdict of an expression used as a predicate. */
  function Verdict(fp: Rounding, e: Expr, ctx: EvalContext): Truth
    decreases e, if e.BinaryOp? && e.op.IsLogical() then 0 else 1
  {
    match e
    case Nested(inner) => Verdict(fp, inner, ctx)
    case BinaryOp(left, op, right) =>
      if op.IsLogical() then Logical(Verdict(fp, left, ctx), op, Verdict(fp, right, ctx))
      else if op.IsComparison() then CompareChecked(fp, Meaning(fp, left, ctx), op, Meaning(fp, right, ctx))
      else AsTruth(Meaning(fp, e, ctx))
    case _ => AsTruth(Meaning(fp, e, ctx))
  }

  /** In a predicate the left side of a comparison must be a scalar before the right side is looked at. */
  function CompareChecked(fp: Rounding, left: Value, op: BinaryOperator, right: Value): Truth {
    if left.Ok? && ScalarOf(left.value).None? then Err(TypeMismatch(KindOf(left.value)))
    else CompareSlow(fp, left, op, right)
  }

  /** A predicate's verdict is the truth of its value; only the kind of a failure may differ. */
  lemma {:induction false} VerdictIsMeaning(fp: Rounding, e: Expr, ctx: EvalContext)
    ensures SameOk(Verdict(fp, e, ctx), AsTruth(Meaning(fp, e, ctx)))
  {
    if e.Nested? {
      VerdictIsMeaning(fp, e.inner, ctx);
    }
  }

  function FieldMeaning(ctx: EvalContext, key: string): Value {
    match ctx.field(key)
    case Some(p) => Ok(ToJson(p))
    case None => Err(MissingPayloadField(key))
  }

  /** Every payload number is a finite f64. */
  ghost predicate FiniteLookup(fields: FieldLookup) {
    forall k :: fields(k).Some? && fields(k).value.PNumber? ==> MaybeDouble(fields(k).value.number)
  }

  // ----- the borrowed-value path against the JSON path -----

  function ScalarOf(j: Json): Option<RuntimeValue> {
    match j
    case Number(n) => Some(RNumber(AsF64(n)))
    case String(s) => Some(RString(s))
    case Bool(b) => Some(RBool(b))
    case _ => None
  }

  /** How a borrowed form f relates to the JSON value v of the same side. */
  ghost predicate Borrows(f: Borrowed, v: Value) {
    && (f.Ok? && f.value.Some? ==> v.Ok? && ScalarOf(v.value) == f.value)
    && (f.Err? ==> v == Err(f.error) || (f.error.TypeMismatch? && v.Ok? && ScalarOf(v.value) == None))
  }

  lemma RuntimeAgrees(fp: Rounding, plan: Plan, ctx: EvalContext)
    requires FiniteLookup(ctx.field)
    ensures Borrows(RuntimeOf(fp, plan, ctx), EvalValue(fp, plan, ctx))
  {
    if plan.PayloadField? && ctx.field(plan.field.key).Some? && ctx.field(plan.field.key).value.PNumber? {
      ToJsonNumberIsExact(ctx.field(plan.field.key).value.number);
    }
  }

  lemma CompareRuntimeAgrees(fp: Rounding, l: Json, r: Json, op: BinaryOperator)
    requires ScalarOf(l).Some? && ScalarOf(r).Some?
    ensures CompareRuntime(fp, ScalarOf(l).value, ScalarOf(r).value, op) == CompareValuesRuntime(fp, l, r, op)
  {}

  function Fast(fp: Rounding, left: Plan, op: BinaryOperator, right: Plan,
                ctx: EvalContext): Result<Option<bool>, EvalError>
  {
    CompareFast(fp, RuntimeOf(fp, left, ctx), op, RuntimeOf(fp, right, ctx))
  }

  function Slow(fp: Rounding, left: Plan, op: BinaryOperator, right: Plan, ctx: EvalContext): Truth {
    CompareSlow(fp, EvalValue(fp, left, ctx), op, EvalValue(fp, right, ctx))
  }

  /** The fast answer is the slow one, the fast failure comes with a slow one, and a slow answer is met or declined. */
  ghost predicate Refines(fast: Result<Option<bool>, EvalError>, slow: Truth) {
    && (fast.Ok? && fast.value.Some? ==> slow == Ok(fast.value.value))
    && (fast.Err? ==> slow.Err?)
    && (slow.Ok? ==> fast == Ok(None) || fast == Ok(Some(slow.value)))
  }

  lemma SidesRefine(fp: Rounding, lf: Borrowed, lv: Value, op: BinaryOperator, rf: Borrowed, rv: Value)
    requires Borrows(lf, lv) && Borrows(rf, rv)
    ensures Refines(CompareFast(fp, lf, op, rf), CompareSlow(fp, lv, op, rv))
  {
    if lv.Ok? && rv.Ok? && ScalarOf(lv.value).Some? && ScalarOf(rv.value).Some? {
      CompareRuntimeAgrees(fp, lv.value, rv.value, op);
    }
  }

  /** The borrowed-value comparison answers or fails only as the JSON path does; otherwise it declines. */
  lemma FastRefinesSlow(fp: Rounding, left: Plan, op: BinaryOperator, right: Plan, ctx: EvalContext)
    requires FiniteLookup(ctx.field)
    ensures Refines(Fast(fp, left, op, right, ctx), Slow(fp, left, op, right, ctx))
  {
    RuntimeAgrees(fp, left, ctx);
    RuntimeAgrees(fp, right, ctx);
    SidesRefine(fp, RuntimeOf(fp, left, ctx), EvalValue(fp, left, ctx), op,
                RuntimeOf(fp, right, ctx), EvalValue(fp, right, ctx));
  }

  /** When both paths fail, they agree on being a type error unless the left side is a field with no scalar
      value and the right side fails with an error that is not a type error. */
  lemma FastErrorClass(fp: Rounding, left: Plan, op: BinaryOperator, right: Plan, ctx: EvalContext)
    requires FiniteLookup(ctx.field) && op.IsComparison()
    requires Fast(fp, left, op, right, ctx).Err?
    ensures var fast, slow := Fast(fp, left, op, right, ctx), Slow(fp, left, op, right, ctx);
            var l, r := EvalValue(fp, left, ctx), EvalValue(fp, right, ctx);
            slow.Err? &&
            (fast.error.IsTypeError() == slow.error.IsTypeError() <==>
             !(l.Ok? && ScalarOf(l.value) == None && r.Err? && !r.error.IsTypeError()))
  {
    FastRefinesSlow(fp, left, op, right, ctx);
    RuntimeAgrees(fp, left, ctx);
    RuntimeAgrees(fp, right, ctx);
    var l, r := EvalValue(fp, left, ctx), EvalValue(fp, right, ctx);
    if l.Ok? && r.Ok? && ScalarOf(l.value).Some? && ScalarOf(r.value).Some? {
      CompareRuntimeAgrees(fp, l.value, r.value, op);
    }
  }

  function ListOnly(message: Message): EvalContext {
    EvalContext(message, key => if key == "list" then Some(PArray([])) else None, [])
  }

  lemma ListIsFinite(message: Message)
    ensures FiniteLookup(ListOnly(message).field)
  {}

  lemma ListSides(fp: Rounding, message: Message)
    ensures var ctx, list, missing := ListOnly(message), PayloadField(FieldFromKey("list")),
            PayloadField(FieldFromKey("missing"));
            && RuntimeOf(fp, list, ctx) == Err(TypeMismatch(ArrayKind)) && EvalValue(fp, list, ctx).Ok?
            && EvalValue(fp, missing, ctx) == Err(MissingPayloadField("missing"))
  {
    assert ListOnly(message).field("list") == Some(PArray([])) && ListOnly(message).field("missing") == None;
  }

  lemma NamesCompile(fp: Rounding)
    ensures CompileExprPlan(fp, Identifier("list")) == PayloadField(FieldFromKey("list"))
    ensures CompileExprPlan(fp, Identifier("missing")) == PayloadField(FieldFromKey("missing"))
  {}

  /** `list > missing` over {"list": []} is a type error on the borrowed path and a missing field on the JSON path. */
  lemma ErrorClassesCanDiffer(fp: Rounding, message: Message)
    ensures var ctx := ListOnly(message);
            var left, right := CompileExprPlan(fp, Identifier("list")), CompileExprPlan(fp, Identifier("missing"));
            && FiniteLookup(ctx.field)
            && Fast(fp, left, Gt, right, ctx) == Err(TypeMismatch(ArrayKind))
            && Slow(fp, left, Gt, right, ctx) == Err(MissingPayloadField("missing"))
  {
    ListIsFinite(message);
    NamesCompile(fp);
    ListSides(fp, message);
  }

  // ----- folding -----

  /** Equal values, or failures that are both type errors or both not. */
  ghost predicate SameClass<T>(a: Result<T, EvalError>, b: Result<T, EvalError>) {
    match (a, b)
    case (Ok(v), Ok(w)) => v == w
    case (Err(e), Err(f)) => e.IsTypeError() == f.IsTypeError()
    case _ => false
  }

  /** What folding keeps of a plan p in its folded form q. */
  ghost predicate FoldedAlike(fp: Rounding, q: Plan, p: Plan, ctx: EvalContext) {
    && SameClass(EvalValue(fp, q, ctx), EvalValue(fp, p, ctx))
    && SameClass(EvalBool(fp, q, ctx), EvalBool(fp, p, ctx))
    && (if p.Binary? then q.Binary? || (q.Const? && ScalarOf(q.value).Some?)
        else !q.Binary? && SameClass(RuntimeOf(fp, q, ctx), RuntimeOf(fp, p, ctx)))
  }

  lemma OperateAlike(fp: Rounding, l': Value, l: Value, op: BinaryOperator, r': Value, r: Value)
    requires SameClass(l', l) && SameClass(r', r)
    ensures SameClass(Operate(fp, l', op, r'), Operate(fp, l, op, r))
  {}

  /** Folding may move a comparison from the JSON path to the borrowed-value path. */
  lemma ComparisonAlike(fp: Rounding, l': Plan, l: Plan, op: BinaryOperator, r': Plan, r: Plan, ctx: EvalContext)
    requires FiniteLookup(ctx.field) && op.IsComparison()
    requires FoldedAlike(fp, l', l, ctx) && FoldedAlike(fp, r', r, ctx)
    ensures SameClass(EvalBool(fp, Binary(l', op, r'), ctx), EvalBool(fp, Binary(l, op, r), ctx))
  {
    SideAlike(fp, l', l, ctx);
    SideAlike(fp, r', r, ctx);
    BinaryUnfolds(fp, l', op, r', ctx);
    BinaryUnfolds(fp, l, op, r, ctx);
    FirstAnswerAlike(fp, op,
      RuntimeOf(fp, l', ctx), RuntimeOf(fp, l, ctx), EvalValue(fp, l', ctx), EvalValue(fp, l, ctx),
      RuntimeOf(fp, r', ctx), RuntimeOf(fp, r, ctx), EvalValue(fp, r', ctx), EvalValue(fp, r, ctx));
  }

  lemma SideAlike(fp: Rounding, q: Plan, p: Plan, ctx: EvalContext)
    requires FiniteLookup(ctx.field) && FoldedAlike(fp, q, p, ctx)
    ensures SidesAlike(RuntimeOf(fp, q, ctx), RuntimeOf(fp, p, ctx), EvalValue(fp, q, ctx), EvalValue(fp, p, ctx))
  {
    RuntimeAgrees(fp, q, ctx);
    RuntimeAgrees(fp, p, ctx);
    ConstRuntime(fp, q, ctx);
    ConstRuntime(fp, p, ctx);
  }

  lemma ConstRuntime(fp: Rounding, p: Plan, ctx: EvalContext)
    ensures p.Const? ==> RuntimeOf(fp, p, ctx) == Ok(ScalarOf(p.value)) && EvalValue(fp, p, ctx) == Ok(p.value)
    ensures p.Binary? ==> RuntimeOf(fp, p, ctx) == Ok(None)
  {}

  /** Folded and unfolded sides: equal borrowed forms, or the unfolded one declines. */
  ghost predicate SidesAlike(f': Borrowed, f: Borrowed, v': Value, v: Value) {
    && Borrows(f', v') && Borrows(f, v) && SameClass(v', v)
    && (SameClass(f', f) || (f == Ok(None) && f'.Ok?))
  }

  lemma FirstAnswerAlike(fp: Rounding, op: BinaryOperator,
      lf': Borrowed, lf: Borrowed, lv': Value, lv: Value, rf': Borrowed, rf: Borrowed, rv': Value, rv: Value)
    requires op.IsComparison()
    requires SidesAlike(lf', lf, lv', lv) && SidesAlike(rf', rf, rv', rv)
    ensures SameClass(FirstAnswer(CompareFast(fp, lf', op, rf'), CompareSlow(fp, lv', op, rv')),
                      FirstAnswer(CompareFast(fp, lf, op, rf), CompareSlow(fp, lv, op, rv)))
  {
    if lv.Ok? && rv.Ok? && ScalarOf(lv.value).Some? && ScalarOf(rv.value).Some? {
      CompareRuntimeAgrees(fp, lv.value, rv.value, op);
    }
  }

  lemma FoldedBinary(fp: Rounding, l': Plan, l: Plan, op: BinaryOperator, r': Plan, r: Plan, ctx: EvalContext)
    requires FiniteLookup(ctx.field)
    requires FoldedAlike(fp, l', l, ctx) && FoldedAlike(fp, r', r, ctx)
    ensures FoldedAlike(fp, Binary(l', op, r'), Binary(l, op, r), ctx)
  {
    if op.IsComparison() {
      ComparisonAlike(fp, l', l, op, r', r, ctx);
    }
    OperateAlike(fp, EvalValue(fp, l', ctx), EvalValue(fp, l, ctx), op, EvalValue(fp, r', ctx), EvalValue(fp, r, ctx));
    BinaryUnfolds(fp, l', op, r', ctx);
    BinaryUnfolds(fp, l, op, r, ctx);
  }

  lemma LogicalUnfolds(fp: Rounding, l: Plan, op: BinaryOperator, r: Plan, ctx: EvalContext)
    requires op.IsLogical()
    ensures EvalBool(fp, Binary(l, op, r), ctx) == Logical(EvalBool(fp, l, ctx), op, EvalBool(fp, r, ctx))
  {}

  lemma LogicalValueUnfolds(fp: Rounding, l: Plan, op: BinaryOperator, r: Plan, ctx: EvalContext)
    requires op.IsLogical()
    ensures EvalValue(fp, Binary(l, op, r), ctx) == AsJson(EvalBool(fp, Binary(l, op, r), ctx))
  {}

  lemma OperatorUnfolds(fp: Rounding, l: Plan, op: BinaryOperator, r: Plan, ctx: EvalContext)
    requires !op.IsLogical()
    ensures EvalValue(fp, Binary(l, op, r), ctx) == Operate(fp, EvalValue(fp, l, ctx), op, EvalValue(fp, r, ctx))
  {}

  lemma ComparisonUnfolds(fp: Rounding, l: Plan, op: BinaryOperator, r: Plan, ctx: EvalContext)
    requires op.IsComparison()
    ensures EvalBool(fp, Binary(l, op, r), ctx) == FirstAnswer(Fast(fp, l, op, r, ctx), Slow(fp, l, op, r, ctx))
  {}

  lemma OtherUnfolds(fp: Rounding, l: Plan, op: BinaryOperator, r: Plan, ctx: EvalContext)
    requires !op.IsLogical() && !op.IsComparison()
    ensures EvalBool(fp, Binary(l, op, r), ctx) == AsTruth(EvalValue(fp, Binary(l, op, r), ctx))
  {}

  lemma BinaryUnfolds(fp: Rounding, l: Plan, op: BinaryOperator, r: Plan, ctx: EvalContext)
    ensures op.IsLogical() ==>
              && EvalBool(fp, Binary(l, op, r), ctx) == Logical(EvalBool(fp, l, ctx), op, EvalBool(fp, r, ctx))
              && EvalValue(fp, Binary(l, op, r), ctx) == AsJson(EvalBool(fp, Binary(l, op, r), ctx))
    ensures !op.IsLogical() ==>
              EvalValue(fp, Binary(l, op, r), ctx) == Operate(fp, EvalValue(fp, l, ctx), op, EvalValue(fp, r, ctx))
    ensures op.IsComparison() ==>
              EvalBool(fp, Binary(l, op, r), ctx) == FirstAnswer(Fast(fp, l, op, r, ctx), Slow(fp, l, op, r, ctx))
    ensures !op.IsLogical() && !op.IsComparison() ==>
              EvalBool(fp, Binary(l, op, r), ctx) == AsTruth(EvalValue(fp, Binary(l, op, r), ctx))
  {
    if op.IsLogical() {
      LogicalUnfolds(fp, l, op, r, ctx);
      LogicalValueUnfolds(fp, l, op, r, ctx);
    } else {
      OperatorUnfolds(fp, l, op, r, ctx);
      if op.IsComparison() { ComparisonUnfolds(fp, l, op, r, ctx); } else { OtherUnfolds(fp, l, op, r, ctx); }
    }
  }

  /** A folded constant is what the unfolded operation evaluates to. */
  lemma FoldedConstant(fp: Rounding, l: Plan, op: BinaryOperator, r: Plan, ctx: EvalContext)
    requires FoldConstBinary(fp, l, op, r).Some?
    ensures FoldedAlike(fp, FoldBinaryPlan(fp, l, op, r), Binary(l, op, r), ctx)
  {
    ConstRuntime(fp, l, ctx);
    ConstRuntime(fp, r, ctx);
    BinaryUnfolds(fp, l, op, r, ctx);
    NonBinaryTruth(fp, FoldBinaryPlan(fp, l, op, r), ctx);
    if op.IsComparison() {
      CompareRuntimeAgrees(fp, l.value, r.value, op);
    }
  }

  lemma AlikeTransitive(fp: Rounding, a: Plan, b: Plan, c: Plan, ctx: EvalContext)
    requires FoldedAlike(fp, a, b, ctx) && FoldedAlike(fp, b, c, ctx) && b.Binary? && c.Binary?
    ensures FoldedAlike(fp, a, c, ctx)
  {}

  /** The folded plan of every expression evaluates like the unfolded one, to the class of failure. */
  lemma {:induction false} FoldPreserves(fp: Rounding, e: Expr, ctx: EvalContext)
    requires FiniteLookup(ctx.field)
    ensures FoldedAlike(fp, Compile(fp, true, e), Compile(fp, false, e), ctx)
    decreases e, 0
  {
    match e
    case BinaryOp(left, op, right) =>
      FoldPreserves(fp, left, ctx);
      FoldPreserves(fp, right, ctx);
      var l', r' := Compile(fp, true, left), Compile(fp, true, right);
      var l, r := Compile(fp, false, left), Compile(fp, false, right);
      FoldedBinary(fp, l', l, op, r', r, ctx);
      if FoldConstBinary(fp, l', op, r').Some? {
        FoldedConstant(fp, l', op, r', ctx);
        AlikeTransitive(fp, Compile(fp, true, e), Binary(l', op, r'), Binary(l, op, r), ctx);
      }
    case Nested(inner) =>
      FoldPreserves(fp, inner, ctx);
    case Function(name, args) =>
      if |args| == 2 && args[1].Unnamed? { FoldedArgument(fp, args[1].e, ctx); }
    case MapAccess(_, keys) =>
      if |keys| > 0 { FoldedArgument(fp, keys[0], ctx); }
    case ArrayIndex(_, indexes) =>
      if |indexes| > 0 { FoldedArgument(fp, indexes[0], ctx); }
    case _ =>
  }

  lemma FoldedArgument(fp: Rounding, e: Expr, ctx: EvalContext)
    requires FiniteLookup(ctx.field)
    ensures FoldedAlike(fp, TopicLevel(Compile(fp, true, e)), TopicLevel(Compile(fp, false, e)), ctx)
    ensures FoldedAlike(fp, PropertiesKey(Compile(fp, true, e)), PropertiesKey(Compile(fp, false, e)), ctx)
    decreases e, 1
  {
    FoldPreserves(fp, e, ctx);
    TopicLevelAlike(fp, Compile(fp, true, e), Compile(fp, false, e), ctx);
    PropertyAlike(fp, Compile(fp, true, e), Compile(fp, false, e), ctx);
  }

  /** A topic level keeps what folding keeps of its argument, and so does a property. */
  lemma TopicLevelAlike(fp: Rounding, q: Plan, p: Plan, ctx: EvalContext)
    requires FoldedAlike(fp, q, p, ctx)
    ensures FoldedAlike(fp, TopicLevel(q), TopicLevel(p), ctx)
  {
    NonBinaryTruth(fp, TopicLevel(q), ctx);
    NonBinaryTruth(fp, TopicLevel(p), ctx);
  }

  lemma PropertyAlike(fp: Rounding, q: Plan, p: Plan, ctx: EvalContext)
    requires FoldedAlike(fp, q, p, ctx)
    ensures FoldedAlike(fp, PropertiesKey(q), PropertiesKey(p), ctx)
  {
    NonBinaryTruth(fp, PropertiesKey(q), ctx);
    NonBinaryTruth(fp, PropertiesKey(p), ctx);
  }

  // ----- compilation -----

  ghost predicate SameOk<T>(a: Result<T, EvalError>, b: Result<T, EvalError>) {
    (a.Ok? <==> b.Ok?) && (a.Ok? ==> a.value == b.value)
  }

  /** A plan computes an expression: its value, and its verdict as a predicate, to the class of failure. */
  ghost predicate Computes(fp: Rounding, plan: Plan, e: Expr, ctx: EvalContext) {
    && SameClass(EvalValue(fp, plan, ctx), Meaning(fp, e, ctx))
    && SameClass(EvalBool(fp, plan, ctx), Verdict(fp, e, ctx))
  }

  /** A value that is no scalar has no borrowed form. */
  ghost predicate Unborrowed(f: Borrowed, v: Value) {
    v.Ok? && ScalarOf(v.value).None? ==> f.Err?
  }

  ghost predicate ScalarAtMost(v: Value) {
    v.Ok? ==> ScalarOf(v.value).Some?
  }

  lemma OperateIsScalar(fp: Rounding, l: Value, op: BinaryOperator, r: Value)
    ensures ScalarAtMost(Operate(fp, l, op, r))
  {}

  lemma OperationIsScalar(fp: Rounding, l: Plan, op: BinaryOperator, r: Plan, ctx: EvalContext)
    ensures ScalarAtMost(EvalValue(fp, Binary(l, op, r), ctx))
  {
    if op.IsLogical() {
      LogicalValueUnfolds(fp, l, op, r, ctx);
    } else {
      OperatorUnfolds(fp, l, op, r, ctx);
      OperateIsScalar(fp, EvalValue(fp, l, ctx), op, EvalValue(fp, r, ctx));
    }
  }

  lemma SelectionIsScalar(fp: Rounding, e: Expr, ctx: EvalContext)
    requires Argument(e).Some?
    ensures ScalarAtMost(EvalValue(fp, Compile(fp, false, e), ctx))
  {
    SelectionKeeps(fp, false, e);
  }

  predicate IsLeaf(e: Expr) {
    !e.BinaryOp? && !e.Nested? && Argument(e).None?
  }

  lemma FieldUnborrowed(fp: Rounding, field: Field, ctx: EvalContext)
    ensures Unborrowed(RuntimeOf(fp, PayloadField(field), ctx), EvalValue(fp, PayloadField(field), ctx))
  {}

  lemma NameUnborrowed(fp: Rounding, name: string, ctx: EvalContext)
    requires IsMetadata(name)
    ensures ScalarAtMost(EvalValue(fp, CompileIdentifier(name), ctx))
  {}

  /** A leaf is a field, a name of the message, a scalar constant, or unsupported. */
  lemma LeafUnborrowed(fp: Rounding, e: Expr, ctx: EvalContext)
    requires IsLeaf(e)
    ensures Unborrowed(RuntimeOf(fp, Compile(fp, false, e), ctx), EvalValue(fp, Compile(fp, false, e), ctx))
  {
    if Compile(fp, false, e).PayloadField? {
      FieldUnborrowed(fp, Compile(fp, false, e).field, ctx);
    } else if e.Identifier? {
      NameUnborrowed(fp, e.name, ctx);
    } else {
      OtherLeafIsScalar(fp, e, ctx);
    }
  }

  lemma OtherLeafIsScalar(fp: Rounding, e: Expr, ctx: EvalContext)
    requires IsLeaf(e) && !e.Identifier? && !e.CompoundIdentifier?
    ensures ScalarAtMost(EvalValue(fp, Compile(fp, false, e), ctx))
  {}

  /** An unfolded plan with a value that is no scalar is a field. */
  lemma {:induction false} NonScalarFails(fp: Rounding, e: Expr, ctx: EvalContext)
    ensures Unborrowed(RuntimeOf(fp, Compile(fp, false, e), ctx), EvalValue(fp, Compile(fp, false, e), ctx))
  {
    if e.Nested? {
      NonScalarFails(fp, e.inner, ctx);
    } else if e.BinaryOp? {
      OperationIsScalar(fp, Compile(fp, false, e.left), e.op, Compile(fp, false, e.right), ctx);
    } else if Argument(e).Some? {
      SelectionIsScalar(fp, e, ctx);
    } else {
      LeafUnborrowed(fp, e, ctx);
    }
  }

  /** How the borrowed form and the JSON value of a side relate to its meaning. */
  ghost predicate GoodSide(f: Borrowed, v: Value, m: Value) {
    Borrows(f, v) && Unborrowed(f, v) && SameClass(v, m)
  }

  lemma SidesVerdict(fp: Rounding, op: BinaryOperator, lf: Borrowed, lv: Value, lm: Value,
                     rf: Borrowed, rv: Value, rm: Value)
    requires op.IsComparison() && GoodSide(lf, lv, lm) && GoodSide(rf, rv, rm)
    ensures SameClass(FirstAnswer(CompareFast(fp, lf, op, rf), CompareSlow(fp, lv, op, rv)),
                      CompareChecked(fp, lm, op, rm))
  {
    if lv.Ok? && rv.Ok? && ScalarOf(lv.value).Some? && ScalarOf(rv.value).Some? {
      CompareRuntimeAgrees(fp, lv.value, rv.value, op);
    }
  }

  lemma SideIsGood(fp: Rounding, e: Expr, ctx: EvalContext)
    requires FiniteLookup(ctx.field) && Computes(fp, Compile(fp, false, e), e, ctx)
    ensures GoodSide(RuntimeOf(fp, Compile(fp, false, e), ctx), EvalValue(fp, Compile(fp, false, e), ctx),
                     Meaning(fp, e, ctx))
  {
    RuntimeAgrees(fp, Compile(fp, false, e), ctx);
    NonScalarFails(fp, e, ctx);
  }

  lemma ComparisonComputes(fp: Rounding, left: Expr, op: BinaryOperator, right: Expr, ctx: EvalContext)
    requires FiniteLookup(ctx.field) && op.IsComparison()
    requires Computes(fp, Compile(fp, false, left), left, ctx) && Computes(fp, Compile(fp, false, right), right, ctx)
    ensures var l, r := Compile(fp, false, left), Compile(fp, false, right);
            SameClass(FirstAnswer(Fast(fp, l, op, r, ctx), Slow(fp, l, op, r, ctx)),
                      Verdict(fp, BinaryOp(left, op, right), ctx))
  {
    var l, r := Compile(fp, false, left), Compile(fp, false, right);
    SideIsGood(fp, left, ctx);
    SideIsGood(fp, right, ctx);
    SidesVerdict(fp, op, RuntimeOf(fp, l, ctx), EvalValue(fp, l, ctx), Meaning(fp, left, ctx),
                 RuntimeOf(fp, r, ctx), EvalValue(fp, r, ctx), Meaning(fp, right, ctx));
  }

  lemma BinaryMeans(fp: Rounding, left: Expr, op: BinaryOperator, right: Expr, ctx: EvalContext)
    ensures var e := BinaryOp(left, op, right);
            && (op.IsLogical() ==>
                  && Verdict(fp, e, ctx) == Logical(Verdict(fp, left, ctx), op, Verdict(fp, right, ctx))
                  && Meaning(fp, e, ctx) == AsJson(Verdict(fp, e, ctx)))
            && (!op.IsLogical() ==>
                Meaning(fp, e, ctx) == Operate(fp, Meaning(fp, left, ctx), op, Meaning(fp, right, ctx)))
            && (!op.IsLogical() && !op.IsComparison() ==> Verdict(fp, e, ctx) == AsTruth(Meaning(fp, e, ctx)))
  {}

  lemma LogicalAlike(l: Truth, l': Truth, op: BinaryOperator, r: Truth, r': Truth)
    requires SameClass(l, l') && SameClass(r, r')
    ensures SameClass(Logical(l, op, r), Logical(l', op, r'))
    ensures SameClass(AsJson(Logical(l, op, r)), AsJson(Logical(l', op, r')))
  {}

  lemma BinaryComputes(fp: Rounding, left: Expr, op: BinaryOperator, right: Expr, ctx: EvalContext)
    requires FiniteLookup(ctx.field)
    requires Computes(fp, Compile(fp, false, left), left, ctx) && Computes(fp, Compile(fp, false, right), right, ctx)
    ensures Computes(fp, Compile(fp, false, BinaryOp(left, op, right)), BinaryOp(left, op, right), ctx)
  {
    var l, r := Compile(fp, false, left), Compile(fp, false, right);
    BinaryUnfolds(fp, l, op, r, ctx);
    BinaryMeans(fp, left, op, right, ctx);
    if op.IsLogical() {
      LogicalAlike(EvalBool(fp, l, ctx), Verdict(fp, left, ctx), op, EvalBool(fp, r, ctx), Verdict(fp, right, ctx));
    } else {
      OperateAlike(fp, EvalValue(fp, l, ctx), Meaning(fp, left, ctx), op, EvalValue(fp, r, ctx),
                   Meaning(fp, right, ctx));
      if op.IsComparison() {
        ComparisonComputes(fp, left, op, right, ctx);
      }
    }
  }

  lemma NonBinaryTruth(fp: Rounding, plan: Plan, ctx: EvalContext)
    requires !plan.Binary?
    ensures EvalBool(fp, plan, ctx) == AsTruth(EvalValue(fp, plan, ctx))
  {}

  lemma LeafValue(fp: Rounding, e: Expr, ctx: EvalContext)
    requires IsLeaf(e)
    ensures !Compile(fp, false, e).Binary? && EvalValue(fp, Compile(fp, false, e), ctx) == Meaning(fp, e, ctx)
  {
    match e
    case Identifier(name) => NameValue(fp, name, ctx);
    case _ =>
  }

  lemma NameValue(fp: Rounding, name: string, ctx: EvalContext)
    ensures EvalValue(fp, CompileIdentifier(name), ctx) == Meaning(fp, Identifier(name), ctx)
  {
    if IsMetadata(name) {
      MetadataValue(fp, name, ctx);
    } else {
      FieldValue(fp, name, ctx);
    }
  }

  lemma MetadataValue(fp: Rounding, name: string, ctx: EvalContext)
    requires IsMetadata(name)
    ensures EvalValue(fp, CompileIdentifier(name), ctx) == Meaning(fp, Identifier(name), ctx)
  {}

  lemma FieldValue(fp: Rounding, name: string, ctx: EvalContext)
    requires !IsMetadata(name)
    ensures EvalValue(fp, CompileIdentifier(name), ctx) == Meaning(fp, Identifier(name), ctx)
  {}

  /** A topic level or a property computes what its argument's meaning selects. */
  lemma SelectionValue(fp: Rounding, e: Expr, ctx: EvalContext)
    requires Argument(e).Some?
    requires SameClass(EvalValue(fp, Compile(fp, false, Argument(e).value), ctx), Meaning(fp, Argument(e).value, ctx))
    ensures !Compile(fp, false, e).Binary? && SameClass(EvalValue(fp, Compile(fp, false, e), ctx), Meaning(fp, e, ctx))
  {
    SelectionKeeps(fp, false, e);
  }

  lemma {:induction false} UnfoldedComputes(fp: Rounding, e: Expr, ctx: EvalContext)
    requires FiniteLookup(ctx.field)
    ensures Computes(fp, Compile(fp, false, e), e, ctx)
    decreases e
  {
    if e.BinaryOp? {
      UnfoldedComputes(fp, e.left, ctx);
      UnfoldedComputes(fp, e.right, ctx);
      BinaryComputes(fp, e.left, e.op, e.right, ctx);
    } else if e.Nested? {
      UnfoldedComputes(fp, e.inner, ctx);
    } else {
      if Argument(e).Some? {
        UnfoldedComputes(fp, Argument(e).value, ctx);
        SelectionValue(fp, e, ctx);
      } else {
        LeafValue(fp, e, ctx);
      }
      NonBinaryTruth(fp, Compile(fp, false, e), ctx);
    }
  }

  /** The compiled plan of every expression computes exactly its value and its verdict, to the class of failure. */
  lemma CompileIsCorrect(fp: Rounding, e: Expr, ctx: EvalContext)
    requires FiniteLookup(ctx.field)
    ensures Computes(fp, CompileExprPlan(fp, e), e, ctx)
  {
    FoldPreserves(fp, e, ctx);
    UnfoldedComputes(fp, e, ctx);
  }
}
