/** What the Boolean operator builder and its resolution promise. */
module BooleanProperties {

  import opened Values
  import opened Results
  import opened Syntax
  import opened Typed
  import opened Visitors

  /** The three operators the builder knows. */
  predicate IsBooleanOp(op: Op) {
    op == And || op == Or || op == Xor
  }

  /**
   Both operands are built, left first, before the operator is looked at:
   an operand's build error wins even over an unknown operator. With both
   built, a known operator gives a Boolean-typed expression over exactly
   those operands, and any other operator is unsupported.
   */
  lemma BuildBooleanShape(env: map<string, Datum>, op: Op, l: Node, r: Node)
    ensures Build(env, l).Err? ==> Build(env, BooleanExpr(op, l, r)) == Err(Build(env, l).error)
    ensures Build(env, l).Ok? && Build(env, r).Err? ==>
      Build(env, BooleanExpr(op, l, r)) == Err(Build(env, r).error)
    ensures Build(env, l).Ok? && Build(env, r).Ok? ==>
      var e, lt, rt := Build(env, BooleanExpr(op, l, r)), Build(env, l).value, Build(env, r).value;
      && (e.Ok? <==> IsBooleanOp(op))
      && (e.Ok? ==> TypeOf(e.value) == BooleanT)
      && (op == And ==> e == Ok(TAnd(lt, rt)))
      && (op == Or ==> e == Ok(TOr(lt, rt)))
      && (op == Xor ==> e == Ok(TXor(lt, rt)))
      && (e.Err? ==> e.error == UnsupportedOperator(OpText(op)))
  {
    var n := BooleanExpr(op, l, r);
    OperatorsRouted(env, n);
  }

  /**
   The builder checks no operand type: `1 and true` builds, and the
   failure only comes when it is resolved, as a class-cast failure.
   */
  lemma NoOperandTypeCheck(env: map<string, Datum>, ctx: map<string, Datum>, n: Long)
    ensures var e := Build(env, BooleanExpr(And, Constant(IntLit(n)), Constant(BoolLit(true))));
      && e.Ok? && TypeOf(e.value) == BooleanT
      && Resolve(e.value, ctx) == Err(ResolutionFailed(ClassCast))
  {
    var b := BooleanExpr(And, Constant(IntLit(n)), Constant(BoolLit(true)));
    assert Build(env, Constant(IntLit(n))) == Ok(TConst(IntegerT, LongV(n)));
    assert Build(env, Constant(BoolLit(true))) == Ok(TConst(BooleanT, BoolV(true)));
    OperatorsRouted(env, b);
    var e := TAnd(TConst(IntegerT, LongV(n)), TConst(BooleanT, BoolV(true)));
    assert Resolve(TConst(IntegerT, LongV(n)), ctx) == Ok(Scalar(LongV(n)));
    assert !Fits(Scalar(LongV(n)), BooleanT);
  }

  /** The resolved Boolean operators. */
  predicate IsBooleanOperator(e: TExpr) {
    e.TAnd? || e.TOr? || e.TXor?
  }

  /** On two Boolean values the operators are conjunction, disjunction and inequality. */
  lemma BooleanTruthTables(e: TExpr, ctx: map<string, Datum>, x: bool, y: bool)
    requires IsBooleanOperator(e)
    requires Resolve(e.left, ctx) == Ok(Scalar(BoolV(x))) && Resolve(e.right, ctx) == Ok(Scalar(BoolV(y)))
    ensures e.TAnd? ==> Resolve(e, ctx) == Ok(Scalar(BoolV(x && y)))
    ensures e.TOr? ==> Resolve(e, ctx) == Ok(Scalar(BoolV(x || y)))
    ensures e.TXor? ==> Resolve(e, ctx) == Ok(Scalar(BoolV(x != y)))
  {
  }

  /**
   The `testBooleans` table: with `a` and `b` bound to Booleans, `a and b`,
   `a or b` and `a xor b` build and resolve to the table's rows.
   */
  lemma AssignmentTruthTable(x: bool, y: bool)
    ensures var env := map["a" := Scalar(BoolV(x)), "b" := Scalar(BoolV(y))];
      var and := Build(env, BooleanExpr(And, VarId("a"), VarId("b")));
      var or := Build(env, BooleanExpr(Or, VarId("a"), VarId("b")));
      var xor := Build(env, BooleanExpr(Xor, VarId("a"), VarId("b")));
      && and.Ok? && Resolve(and.value, env) == Ok(Scalar(BoolV(x && y)))
      && or.Ok? && Resolve(or.value, env) == Ok(Scalar(BoolV(x || y)))
      && xor.Ok? && Resolve(xor.value, env) == Ok(Scalar(BoolV(x != y)))
  {
    var env := map["a" := Scalar(BoolV(x)), "b" := Scalar(BoolV(y))];
    var a, b := TVar(BooleanT, "a"), TVar(BooleanT, "b");
    assert Build(env, VarId("a")) == Ok(a);
    assert Build(env, VarId("b")) == Ok(b);
    BuildBooleanShape(env, And, VarId("a"), VarId("b"));
    BuildBooleanShape(env, Or, VarId("a"), VarId("b"));
    BuildBooleanShape(env, Xor, VarId("a"), VarId("b"));
    BooleanTruthTables(TAnd(a, b), env, x, y);
    BooleanTruthTables(TOr(a, b), env, x, y);
    BooleanTruthTables(TXor(a, b), env, x, y);
  }

  /** A null left operand is unboxed by every operator, which fails. */
  lemma NullLeftOperand(e: TExpr, ctx: map<string, Datum>)
    requires IsBooleanOperator(e)
    requires Resolve(e.left, ctx) == Ok(Scalar(Null))
    requires Resolve(e.right, ctx).Ok? && Fits(Resolve(e.right, ctx).value, BooleanT)
    ensures Resolve(e, ctx) == Err(ResolutionFailed(NullUnboxing))
  {
  }

  /**
   A null right operand: `and` after a false left operand and `or` after a
   true one decide without unboxing it; every other case unboxes it and
   fails.
   */
  lemma NullRightOperand(e: TExpr, ctx: map<string, Datum>, x: bool)
    requires IsBooleanOperator(e)
    requires Resolve(e.left, ctx) == Ok(Scalar(BoolV(x))) && Resolve(e.right, ctx) == Ok(Scalar(Null))
    ensures e.TAnd? ==> Resolve(e, ctx) == if x then Err(ResolutionFailed(NullUnboxing)) else Ok(Scalar(BoolV(false)))
    ensures e.TOr? ==> Resolve(e, ctx) == if x then Ok(Scalar(BoolV(true))) else Err(ResolutionFailed(NullUnboxing))
    ensures e.TXor? ==> Resolve(e, ctx) == Err(ResolutionFailed(NullUnboxing))
  {
  }

  /** An operand that is neither a Boolean nor null fails the cast, the left one before the right one is resolved. */
  lemma NonBooleanOperand(e: TExpr, ctx: map<string, Datum>)
    requires IsBooleanOperator(e)
    ensures Resolve(e.left, ctx).Ok? && !Fits(Resolve(e.left, ctx).value, BooleanT) ==>
      Resolve(e, ctx) == Err(ResolutionFailed(ClassCast))
    ensures Resolve(e.left, ctx).Ok? && Fits(Resolve(e.left, ctx).value, BooleanT) &&
            Resolve(e.right, ctx).Ok? && !Fits(Resolve(e.right, ctx).value, BooleanT) ==>
      Resolve(e, ctx) == Err(ResolutionFailed(ClassCast))
  {
  }

  /**
   Both operands are always resolved: a failing right operand fails every
   operator, even `and` after false and `or` after true.
   */
  lemma BothOperandsResolved(e: TExpr, ctx: map<string, Datum>)
    requires IsBooleanOperator(e)
    requires Resolve(e.left, ctx).Ok? && Fits(Resolve(e.left, ctx).value, BooleanT)
    requires Resolve(e.right, ctx).Err?
    ensures Resolve(e, ctx) == Err(Resolve(e.right, ctx).error)
  {
  }

  predicate IsBoolean(r: Result<Datum>) {
    r.Ok? ==> r.value.Scalar? && r.value.v.BoolV?
  }

  /** Whatever resolves, resolves to a Boolean: never a null and never another class. */
  lemma BooleanResultsAreBooleans(e: TExpr, ctx: map<string, Datum>)
    requires IsBooleanOperator(e)
    ensures IsBoolean(Resolve(e, ctx))
  {
  }
}
