/** What the dispatcher promises about routing, constants, variables, union and clauses. */
module DispatchProperties {

  import opened Values
  import opened Results
  import opened Structured
  import opened Datasets
  import opened Engine
  import opened Syntax
  import opened Typed
  import opened Visitors

  /** The builder the dispatcher hands each kind of node to; a parenthesis goes to none. */
  function Route(n: Node): Option<Builder> {
    match n
    case Constant(_) => Some(ConstantVisitor)
    case VarId(_) => Some(VarIdVisitor)
    case BooleanExpr(_, _, _) => Some(BooleanVisitor)
    case ArithmeticExpr(_, _, _) => Some(ArithmeticVisitor)
    case ArithmeticOrConcat(_, _, _) => Some(ArithmeticExprOrConcatVisitor)
    case UnaryExpr(_, _) => Some(UnaryVisitor)
    case ParenthesisExpr(_) => None
    case ComparisonExpr(_, _, _) => Some(ComparisonVisitor)
    case InNotInExpr(_, _, _) => Some(ComparisonVisitor)
    case IfExpr(_, _, _) => Some(IfVisitor)
    case FunctionExpr(f, _) => Some(FamilyBuilder(f))
    case JoinFunctions(_) => Some(JoinFunctionsVisitor)
    case ClauseExpr(_, _) => Some(ClauseVisitor)
  }

  /** The builders whose code this model spells out. */
  predicate Modelled(b: Builder) {
    b in {ConstantVisitor, VarIdVisitor, BooleanVisitor, ArithmeticVisitor, IfVisitor, SetFunctionsVisitor, ClauseVisitor}
  }

  /** `n` inside `k` pairs of parentheses. */
  function Parenthesised(k: nat, n: Node): Node {
    if k == 0 then n else ParenthesisExpr(Parenthesised(k - 1, n))
  }

  /** Parentheses, however deeply nested, are transparent to building. */
  lemma {:induction false} ParenthesesTransparent(env: map<string, Datum>, k: nat, n: Node)
    ensures Build(env, Parenthesised(k, n)) == Build(env, n)
  {
    if k > 0 {
      ParenthesesTransparent(env, k - 1, n);
    }
  }

  /**
   Every node routed to a builder outside the model fails with that
   builder's name, whatever its children: comparisons and membership
   tests share one builder, and a function call goes to its family's.
   */
  lemma UnmodelledRoutes(env: map<string, Datum>, n: Node)
    requires Route(n).Some? && !Modelled(Route(n).value)
    ensures Build(env, n) == Err(OutsideModel(BuilderName(Route(n).value)))
  {
  }

  /** Different builders have different names, so the error tells which builder a node reached. */
  lemma BuilderNamesDistinct(a: Builder, b: Builder)
    ensures BuilderName(a) == BuilderName(b) <==> a == b
  {
  }

  /** Within the set family only union is spelled out; any other call fails with the family builder's name. */
  lemma SetFamilyOtherCalls(env: map<string, Datum>, name: string, args: seq<Node>)
    ensures Build(env, FunctionExpr(SetFunctions, OtherCall(name, args))) == Err(OutsideModel("SetFunctionsVisitor"))
  {
    var n := FunctionExpr(SetFunctions, OtherCall(name, args));
    FunctionRouted(env, n);
  }

  /**
   A constant builds without looking at the bindings, its static type is
   the class of its value, and it resolves to that value in any context.
   */
  lemma ConstantTyping(env: map<string, Datum>, lit: Literal, ctx: map<string, Datum>)
    ensures Build(env, Constant(lit)).Ok?
    ensures var e := Build(env, Constant(lit)).value;
      && Resolve(e, ctx).Ok? && Resolve(e, ctx).value.Scalar?
      && TypeOfValue(Resolve(e, ctx).value.v) == TypeOf(e)
      && (IsNull(e) <==> lit == NullLit)
  {
  }

  /**
   The `testAssignment` constants: an integer literal is a `Long`, a
   decimal one a `Double`, `true`, `false` and a string are themselves, and
   `null` is null.
   */
  lemma AssignmentConstants(env: map<string, Datum>, ctx: map<string, Datum>)
    ensures Resolve(Build(env, Constant(IntLit(1234))).value, ctx) == Ok(Scalar(LongV(1234)))
    ensures Resolve(Build(env, Constant(DecLit(1234.1234))).value, ctx) == Ok(Scalar(DoubleV(Lit(1234.1234))))
    ensures Resolve(Build(env, Constant(BoolLit(true))).value, ctx) == Ok(Scalar(BoolV(true)))
    ensures Resolve(Build(env, Constant(BoolLit(false))).value, ctx) == Ok(Scalar(BoolV(false)))
    ensures Resolve(Build(env, Constant(StrLit("foo"))).value, ctx) == Ok(Scalar(StrV("foo")))
    ensures Resolve(Build(env, Constant(NullLit)).value, ctx) == Ok(Scalar(Null))
  {
  }

  /**
   A variable: unknown at build time is an error; otherwise its static type
   is the class of its build-time binding, and it resolves to exactly what
   the context binds it to.
   */
  lemma VariableLookup(env: map<string, Datum>, name: string, ctx: map<string, Datum>)
    ensures Build(env, VarId(name)).Ok? <==> name in env
    ensures name !in env ==> Build(env, VarId(name)) == Err(UndefinedVariable(name))
    ensures name in env ==> TypeOf(Build(env, VarId(name)).value) == DatumType(env[name])
    ensures name in env ==> (IsDataset(Build(env, VarId(name)).value) <==> env[name].Table?)
    ensures name in env && name in ctx ==> Resolve(Build(env, VarId(name)).value, ctx) == Ok(ctx[name])
  {
  }

  /** `bar := foo` hands back the very value bound to `foo`. */
  lemma VariableExpression(n: Long)
    ensures var ctx := map["foo" := Scalar(LongV(n))];
      Resolve(Build(ctx, VarId("foo")).value, ctx) == Ok(ctx["foo"])
  {
    VariableLookup(map["foo" := Scalar(LongV(n))], "foo", map["foo" := Scalar(LongV(n))]);
  }

  /** The operands of a union call, first included. */
  function CallOperands(first: Operand, rest: seq<Operand>): seq<Operand> {
    [first] + rest
  }

  /** The dispatcher hands a set-family union call to the union builder. */
  lemma UnionRouted(env: map<string, Datum>, first: Operand, rest: seq<Operand>)
    ensures var n := FunctionExpr(SetFunctions, UnionCall(first, rest));
      Build(env, n) == BuildUnion(env, n)
  {
    var n := FunctionExpr(SetFunctions, UnionCall(first, rest));
    FunctionRouted(env, n);
  }

  /**
   A union whose operands all build to dataset expressions builds exactly
   when every operand's static structure is compatible with the first's;
   the result is a dataset expression with the first operand's structure.
   */
  lemma UnionBuildChecksStructures(env: map<string, Datum>, first: Operand, rest: seq<Operand>)
    requires BuildOperand(env, first).Ok? && BuildOperands(env, rest).Ok?
    ensures var f, rs := BuildOperand(env, first).value, BuildOperands(env, rest).value;
      var ss := OperandStructures(Operands(f, rs));
      var r := Build(env, FunctionExpr(SetFunctions, UnionCall(first, rest)));
      && (r.Ok? <==> forall i | 1 <= i < |ss| :: Compatible(ss[0], ss[i]))
      && (r.Ok? ==> IsDataset(r.value) && r.value.structure == f.expr.structure && TypeOf(r.value) == DatasetT)
  {
    UnionRouted(env, first, rest);
  }

  /**
   When the union does not build, the error names the first operand whose
   static structure differs from the first's, by its position and its
   source text.
   */
  lemma UnionBuildNamesFirstIncompatible(env: map<string, Datum>, n: Node)
    requires n.FunctionExpr? && n.family == SetFunctions && n.call.UnionCall?
    requires BuildOperand(env, n.call.first).Ok? && BuildOperands(env, n.call.rest).Ok?
    ensures var f, rs := BuildOperand(env, n.call.first).value, BuildOperands(env, n.call.rest).value;
      var ss := OperandStructures(Operands(f, rs));
      var r := Build(env, n);
      r.Err? ==> exists i | 1 <= i < |ss| ::
        && r.error == Incompatible(i, CallOperands(n.call.first, n.call.rest)[i].text)
        && !Compatible(ss[0], ss[i])
        && forall j | 1 <= j < i :: Compatible(ss[0], ss[j])
  {
    FunctionRouted(env, n);
    UnionErrorAt(env, n);
  }

  /** The union builder's error carries the first incompatible position and that operand's text. */
  lemma UnionErrorAt(env: map<string, Datum>, n: Node)
    requires n.FunctionExpr? && n.call.UnionCall?
    requires BuildOperand(env, n.call.first).Ok? && BuildOperands(env, n.call.rest).Ok?
    ensures var f, rs := BuildOperand(env, n.call.first).value, BuildOperands(env, n.call.rest).value;
      var k := FirstIncompatible(OperandStructures(Operands(f, rs)), 1);
      && (BuildUnion(env, n).Err? <==> k.Some?)
      && (k.Some? ==> BuildUnion(env, n) == Err(Incompatible(k.value, CallOperands(n.call.first, n.call.rest)[k.value].text)))
  {
    var f, rs := BuildOperand(env, n.call.first).value, BuildOperands(env, n.call.rest).value;
    var ops := Operands(f, rs);
    var k := FirstIncompatible(OperandStructures(ops), 1);
    assert BuildUnion(env, n) == match k
      case Some(i) => Err(Incompatible(i, ops[i].text))
      case None => Ok(TUnion(f, rs, f.expr.structure));
    if k.Some? {
      OperandText(n.call.first, n.call.rest, f, rs, k.value);
    }
  }

  /** A built operand keeps its source text at its position. */
  lemma OperandText(first: Operand, rest: seq<Operand>, f: TOperand, rs: seq<TOperand>, i: nat)
    requires f.text == first.text && |rs| == |rest|
    requires forall j | 0 <= j < |rest| :: rs[j].text == rest[j].text
    requires i <= |rest|
    ensures Operands(f, rs)[i].text == CallOperands(first, rest)[i].text
  {
    if i > 0 {
      assert CallOperands(first, rest)[i] == rest[i - 1];
    }
  }

  /**
   Operands are built left to right: when every operand before position
   `i` builds and the one at `i` builds to something other than a dataset
   expression, building the list fails with `NotADataset`.
   */
  lemma {:induction false} OperandsNotADataset(env: map<string, Datum>, ops: seq<Operand>, i: nat)
    requires i < |ops|
    requires forall j | 0 <= j < i :: BuildOperand(env, ops[j]).Ok?
    requires Build(env, ops[i].expr).Ok? && !IsDataset(Build(env, ops[i].expr).value)
    ensures BuildOperands(env, ops) == Err(NotADataset)
  {
    if i > 0 {
      var tail := ops[1..];
      assert BuildOperand(env, ops[0]).Ok?;
      forall j | 0 <= j < i - 1
        ensures BuildOperand(env, tail[j]).Ok?
      {
        assert tail[j] == ops[j + 1];
      }
      assert tail[i - 1] == ops[i];
      OperandsNotADataset(env, tail, i - 1);
    }
  }

  /**
   The first operand, in call order, that does not build to a dataset
   expression fails the union with `NotADataset`, whatever follows it.
   */
  lemma UnionOperandNotADataset(env: map<string, Datum>, first: Operand, rest: seq<Operand>, i: nat)
    requires i < |CallOperands(first, rest)|
    requires forall j | 0 <= j < i :: BuildOperand(env, CallOperands(first, rest)[j]).Ok?
    requires Build(env, CallOperands(first, rest)[i].expr).Ok?
    requires !IsDataset(Build(env, CallOperands(first, rest)[i].expr).value)
    ensures Build(env, FunctionExpr(SetFunctions, UnionCall(first, rest))) == Err(NotADataset)
  {
    UnionRouted(env, first, rest);
    OperandsNotADataset(env, CallOperands(first, rest), i);
    UnionOperandsInOrder(env, FunctionExpr(SetFunctions, UnionCall(first, rest)));
  }

  /** The union builds its operands in call order and stops at the first that fails. */
  lemma UnionOperandsInOrder(env: map<string, Datum>, n: Node)
    requires n.FunctionExpr? && n.call.UnionCall?
    ensures var r := BuildOperands(env, CallOperands(n.call.first, n.call.rest));
      r.Err? ==> BuildUnion(env, n) == Err(r.error)
  {
    var ops := CallOperands(n.call.first, n.call.rest);
    assert ops[0] == n.call.first;
    assert ops[1..] == n.call.rest;
  }

  /**
   A clause needs a dataset subject; rename and keep then fix the result's
   structure through the engine, failing on a column the subject lacks;
   other clauses are outside the model.
   */
  lemma ClauseBuild(env: map<string, Datum>, subject: Node, clause: Clause)
    requires Build(env, subject).Ok?
    ensures var e, r := Build(env, subject).value, Build(env, ClauseExpr(subject, clause));
      && (!IsDataset(e) ==> r == Err(NotADataset))
      && (IsDataset(e) && clause.RenameClause? ==>
            && (r.Ok? <==> forall i | 0 <= i < |clause.fromTo| :: clause.fromTo[i].0 in ColumnNames(e.structure))
            && (r.Ok? ==> IsDataset(r.value) && r.value.structure == RenameStructure(e.structure, clause.fromTo).value)
            && (r.Err? ==> r.error.UnknownColumn? && r.error.name !in ColumnNames(e.structure)))
      && (IsDataset(e) && clause.KeepClause? ==>
            && (r.Ok? <==> forall i | 0 <= i < |clause.names| :: clause.names[i] in ColumnNames(e.structure))
            && (r.Ok? ==> IsDataset(r.value) && r.value.structure == ProjectStructure(e.structure, clause.names).value)
            && (r.Err? ==> r.error.UnknownColumn? && r.error.name in clause.names && r.error.name !in ColumnNames(e.structure)))
      && (IsDataset(e) && clause.OtherClause? ==> r == Err(OutsideModel("ClauseVisitor")))
  {
    var n := ClauseExpr(subject, clause);
    OperatorsRouted(env, n);
  }
}
