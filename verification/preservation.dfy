/**
 Type preservation: what building promises about resolution. A context
 that agrees with the bindings an expression was built against resolves
 it, when it resolves at all, to a datum of the expression's static type;
 a dataset expression resolves to a dataset of its static structure, and
 the structure checks done while building are never failed again when
 resolving.
 */
module Preservation {

  import opened Values
  import opened Results
  import opened Structured
  import opened Datasets
  import opened Engine
  import opened Syntax
  import opened Typed
  import opened Visitors

  /** A resolve-time datum agrees with a build-time one: same class for scalars, same structure for datasets. */
  predicate Agrees(built: Datum, resolved: Datum) {
    match built
    case Scalar(v) => Fits(resolved, TypeOfValue(v))
    case Table(d) => resolved.Table? && resolved.d.structure == d.structure
  }

  /** Every build-time binding is still bound, to an agreeing datum, when resolving. */
  predicate Conforms(env: map<string, Datum>, ctx: map<string, Datum>) {
    forall name | name in env :: name in ctx && Agrees(env[name], ctx[name])
  }

  /** The static facts building establishes about a typed expression. */
  predicate WellTyped(env: map<string, Datum>, e: TExpr)
    decreases e, 1
  {
    match e
    case TConst(ty, v) => Fits(Scalar(v), ty)
    case TVar(ty, name) => name in env && env[name].Scalar? && ty == TypeOfValue(env[name].v)
    case TTable(name, s) => name in env && env[name].Table? && env[name].d.structure == s
    case TAnd(l, r) => WellTyped(env, l) && WellTyped(env, r)
    case TOr(l, r) => WellTyped(env, l) && WellTyped(env, r)
    case TXor(l, r) => WellTyped(env, l) && WellTyped(env, r)
    case TMulLong(l, r) => WellTyped(env, l) && WellTyped(env, r) && TypeOf(l) == IntegerT && TypeOf(r) == IntegerT
    case TMulDouble(l, r) => WellTyped(env, l) && WellTyped(env, r) && Numeric(l) && Numeric(r)
    case TDiv(l, r) => WellTyped(env, l) && WellTyped(env, r) && Numeric(l) && Numeric(r)
    case TIf(ty, c, t, f) =>
      && WellTyped(env, c) && WellTyped(env, t) && WellTyped(env, f)
      && TypeOf(c) == BooleanT && TypeOf(t) == ty && TypeOf(f) == ty
    case TRetyped(_, inner) => WellTyped(env, inner) && IsNull(inner)
    case TUnion(first, rest, s) =>
      && IsDataset(first.expr) && WellTyped(env, first.expr)
      && (forall i | 0 <= i < |rest| :: IsDataset(rest[i].expr) && WellTyped(env, rest[i].expr))
      && s == first.expr.structure
      && FirstIncompatible(OperandStructures([first] + rest), 1).None?
    case TRename(subject, fromTo, s) =>
      && WellTyped(env, subject) && IsDataset(subject)
      && RenameStructure(subject.structure, fromTo) == Ok(s)
    case TProject(subject, names, s) =>
      && WellTyped(env, subject) && IsDataset(subject)
      && ProjectStructure(subject.structure, names) == Ok(s)
  }

  predicate Numeric(e: TExpr) {
    TypeOf(e) == IntegerT || TypeOf(e) == RealT
  }

  /** A context conforms to the bindings it was built from: the usual case, where one map serves both phases. */
  lemma SelfConforms(env: map<string, Datum>)
    ensures Conforms(env, env)
  {
    forall name | name in env
      ensures Agrees(env[name], env[name])
    {
      match env[name]
      case Scalar(v) => assert DatumType(env[name]) == TypeOfValue(v);
      case Table(_) =>
    }
  }

  /** Whatever building produces is well typed against the bindings it was built from. */
  lemma {:induction false} BuildWellTyped(env: map<string, Datum>, n: Node)
    requires Build(env, n).Ok?
    ensures WellTyped(env, Build(env, n).value)
    decreases n, 2
  {
    match n
    case Constant(_) =>
    case VarId(_) =>
    case BooleanExpr(_, _, _) =>
      OperatorsRouted(env, n);
      BooleanWellTyped(env, n);
    case ArithmeticExpr(_, _, _) =>
      OperatorsRouted(env, n);
      ArithmeticWellTyped(env, n);
    case ArithmeticOrConcat(_, _, _) =>
    case UnaryExpr(_, _) =>
    case ParenthesisExpr(inner) =>
      BuildWellTyped(env, inner);
    case ComparisonExpr(_, _, _) =>
    case InNotInExpr(_, _, _) =>
    case IfExpr(c, t, f) =>
      OperatorsRouted(env, n);
      IfWellTyped(env, n);
    case FunctionExpr(_, _) =>
      FunctionRouted(env, n);
      if n.call.UnionCall? && n.family == SetFunctions {
        UnionWellTyped(env, n);
      }
    case JoinFunctions(_) =>
    case ClauseExpr(subject, _) =>
      OperatorsRouted(env, n);
      ClauseWellTyped(env, n);
  }

  lemma {:induction false} BooleanWellTyped(env: map<string, Datum>, n: Node)
    requires n.BooleanExpr? && BuildBoolean(env, n).Ok?
    ensures WellTyped(env, BuildBoolean(env, n).value)
    decreases n, 1
  {
    BuildWellTyped(env, n.left);
    BuildWellTyped(env, n.right);
  }

  lemma {:induction false} ArithmeticWellTyped(env: map<string, Datum>, n: Node)
    requires n.ArithmeticExpr? && BuildArithmetic(env, n).Ok?
    ensures WellTyped(env, BuildArithmetic(env, n).value)
    decreases n, 1
  {
    BuildWellTyped(env, n.left);
    BuildWellTyped(env, n.right);
  }

  lemma {:induction false} ClauseWellTyped(env: map<string, Datum>, n: Node)
    requires n.ClauseExpr? && BuildClause(env, n).Ok?
    ensures WellTyped(env, BuildClause(env, n).value)
    decreases n, 1
  {
    BuildWellTyped(env, n.dataset);
    var subject := Build(env, n.dataset).value;
    match n.clause
    case RenameClause(fromTo) =>
      assert BuildClause(env, n) == Ok(TRename(subject, fromTo, RenameStructure(subject.structure, fromTo).value));
    case KeepClause(names) =>
      assert BuildClause(env, n) == Ok(TProject(subject, names, ProjectStructure(subject.structure, names).value));
  }

  lemma {:induction false} IfWellTyped(env: map<string, Datum>, n: Node)
    requires n.IfExpr? && BuildIf(env, n).Ok?
    ensures WellTyped(env, BuildIf(env, n).value)
    decreases n, 1
  {
    var cond := Build(env, n.condition).value;
    BuildWellTyped(env, n.condition);
    if !IsNull(cond) {
      var t, f := Build(env, n.thenExpr).value, Build(env, n.elseExpr).value;
      BuildWellTyped(env, n.thenExpr);
      BuildWellTyped(env, n.elseExpr);
      UnifyWellTyped(env, t, f);
      var u := Unify(t, f).value;
      assert BuildIf(env, n) == Ok(TIf(TypeOf(u.0), cond, u.0, u.1));
    }
  }

  /** Giving a null branch the other branch's type keeps both branches well typed. */
  lemma UnifyWellTyped(env: map<string, Datum>, t: TExpr, f: TExpr)
    requires WellTyped(env, t) && WellTyped(env, f)
    ensures Unify(t, f).Ok?
    ensures WellTyped(env, Unify(t, f).value.0) && WellTyped(env, Unify(t, f).value.1)
  {
    if IsNull(f) && !IsNull(t) {
      RetypedWellTyped(env, f, TypeOf(t));
      assert Unify(t, f) == Ok((t, AssertType(f, TypeOf(t)).value));
    } else if IsNull(t) {
      RetypedWellTyped(env, t, TypeOf(f));
      assert Unify(t, f) == Ok((AssertType(t, TypeOf(f)).value, f));
    } else {
      assert Unify(t, f) == Ok((t, f));
    }
  }

  /** Asserting a type on a well-typed null expression keeps it well typed. */
  lemma RetypedWellTyped(env: map<string, Datum>, e: TExpr, ty: Type)
    requires WellTyped(env, e) && IsNull(e)
    ensures AssertType(e, ty).Ok? && WellTyped(env, AssertType(e, ty).value)
  {
    if TypeOf(e) != ty {
      assert AssertType(e, ty).value == TRetyped(ty, e);
    }
  }

  lemma {:induction false} UnionWellTyped(env: map<string, Datum>, n: Node)
    requires n.FunctionExpr? && n.call.UnionCall? && BuildUnion(env, n).Ok?
    ensures WellTyped(env, BuildUnion(env, n).value)
    decreases n, 1
  {
    OperandWellTyped(env, n.call.first);
    OperandsWellTyped(env, n.call.rest);
    var f, rs := BuildOperand(env, n.call.first).value, BuildOperands(env, n.call.rest).value;
    assert Operands(f, rs) == [f] + rs;
  }

  lemma {:induction false} OperandWellTyped(env: map<string, Datum>, op: Operand)
    requires BuildOperand(env, op).Ok?
    ensures WellTyped(env, BuildOperand(env, op).value.expr)
    decreases op, 0
  {
    BuildWellTyped(env, op.expr);
  }

  lemma {:induction false} OperandsWellTyped(env: map<string, Datum>, ops: seq<Operand>)
    requires BuildOperands(env, ops).Ok?
    ensures forall i | 0 <= i < |ops| :: WellTyped(env, BuildOperands(env, ops).value[i].expr)
    decreases ops
  {
    if |ops| > 0 {
      OperandWellTyped(env, ops[0]);
      OperandsWellTyped(env, ops[1..]);
      var rs := BuildOperands(env, ops).value;
      assert rs == [BuildOperand(env, ops[0]).value] + BuildOperands(env, ops[1..]).value;
    }
  }

  /**
   Type preservation: a well-typed expression resolved in a conforming
   context yields, when it resolves, a datum of its static type; a dataset
   expression yields a dataset with its static structure.
   */
  lemma {:induction false} ResolvePreservesType(env: map<string, Datum>, ctx: map<string, Datum>, e: TExpr)
    requires WellTyped(env, e) && Conforms(env, ctx)
    requires Resolve(e, ctx).Ok?
    ensures Fits(Resolve(e, ctx).value, TypeOf(e))
    ensures IsDataset(e) ==> Resolve(e, ctx).value.Table? && Resolve(e, ctx).value.d.structure == e.structure
    decreases e, 1
  {
    if IsDataset(e) {
      DatasetPreserved(env, ctx, e);
    } else {
      ScalarPreserved(env, ctx, e);
    }
  }

  /** Scalar expressions: the value of a constant or a variable, a Boolean, a number, or a value cast to the type. */
  lemma ScalarPreserved(env: map<string, Datum>, ctx: map<string, Datum>, e: TExpr)
    requires WellTyped(env, e) && Conforms(env, ctx) && !IsDataset(e)
    requires Resolve(e, ctx).Ok?
    ensures Fits(Resolve(e, ctx).value, TypeOf(e))
  {
    if !e.TConst? && !e.TVar? {
      ComputedFits(e, ctx);
    }
  }

  /**
   An operator, a conditional or a retyped null resolves, when it does, to
   a datum of its static type whatever the context: the operators build
   values of their own class and the others end in a checked cast.
   */
  lemma ComputedFits(e: TExpr, ctx: map<string, Datum>)
    requires !IsDataset(e) && !e.TConst? && !e.TVar?
    requires Resolve(e, ctx).Ok?
    ensures Fits(Resolve(e, ctx).value, TypeOf(e))
  {
  }

  /** Dataset expressions: the structure the engine gives the result is the one fixed when building. */
  lemma {:induction false} DatasetPreserved(env: map<string, Datum>, ctx: map<string, Datum>, e: TExpr)
    requires WellTyped(env, e) && Conforms(env, ctx) && IsDataset(e)
    requires Resolve(e, ctx).Ok?
    ensures Resolve(e, ctx).value.Table? && Resolve(e, ctx).value.d.structure == e.structure
    decreases e, 0
  {
    match e
    case TTable(_, _) =>
    case TUnion(first, _, _) =>
      ResolvePreservesType(env, ctx, first.expr);
      DatasetStep(e, ctx);
    case TRename(subject, _, _) =>
      ResolvePreservesType(env, ctx, subject);
      DatasetStep(e, ctx);
    case TProject(subject, _, _) =>
      ResolvePreservesType(env, ctx, subject);
      DatasetStep(e, ctx);
  }

  /**
   A union, rename or projection that resolves has resolved its first
   operand or subject to a dataset, and returns a dataset whose structure
   is the first operand's for a union and the engine's result structure on
   the subject's for the clauses.
   */
  lemma DatasetStep(e: TExpr, ctx: map<string, Datum>)
    requires e.TUnion? || e.TRename? || e.TProject?
    requires Resolve(e, ctx).Ok?
    ensures var sub := if e.TUnion? then e.first.expr else e.subject;
      && Resolve(sub, ctx).Ok? && Resolve(sub, ctx).value.Table?
      && Resolve(e, ctx).value.Table?
      && (e.TUnion? ==> Resolve(e, ctx).value.d.structure == Resolve(sub, ctx).value.d.structure)
      && (e.TRename? ==> RenameStructure(Resolve(sub, ctx).value.d.structure, e.fromTo) == Ok(Resolve(e, ctx).value.d.structure))
      && (e.TProject? ==> ProjectStructure(Resolve(sub, ctx).value.d.structure, e.names) == Ok(Resolve(e, ctx).value.d.structure))
  {
  }

  /** Built and then resolved in a conforming context: the value has the static type. */
  lemma BuildThenResolve(env: map<string, Datum>, ctx: map<string, Datum>, n: Node)
    requires Build(env, n).Ok? && Conforms(env, ctx)
    requires Resolve(Build(env, n).value, ctx).Ok?
    ensures Fits(Resolve(Build(env, n).value, ctx).value, TypeOf(Build(env, n).value))
  {
    BuildWellTyped(env, n);
    ResolvePreservesType(env, ctx, Build(env, n).value);
  }

  /** The datasets of well-typed operands, resolved in a conforming context, have the operands' static structures. */
  lemma {:induction false} ResolvedStructures(env: map<string, Datum>, ctx: map<string, Datum>, ops: seq<TOperand>)
    requires forall i | 0 <= i < |ops| :: IsDataset(ops[i].expr) && WellTyped(env, ops[i].expr)
    requires Conforms(env, ctx)
    requires ResolveDatasets(ops, ctx).Ok?
    ensures forall i | 0 <= i < |ops| :: IsDataset(ops[i].expr) && ResolveDatasets(ops, ctx).value[i].structure == ops[i].expr.structure
    decreases ops
  {
    if |ops| > 0 {
      ResolvedStructure(env, ctx, ops[0].expr);
      ResolvedStructures(env, ctx, ops[1..]);
      assert ResolveDatasets(ops, ctx).value ==
        [ResolveDataset(ops[0].expr, ctx).value] + ResolveDatasets(ops[1..], ctx).value;
    }
  }

  lemma ResolvedStructure(env: map<string, Datum>, ctx: map<string, Datum>, e: TExpr)
    requires IsDataset(e) && WellTyped(env, e) && Conforms(env, ctx)
    requires ResolveDataset(e, ctx).Ok?
    ensures ResolveDataset(e, ctx).value.structure == e.structure
  {
    DatasetPreserved(env, ctx, e);
  }

  /**
   The union's structure check made while building is never failed when
   resolving: once every operand resolves, the union does, with the first
   operand's structure.
   */
  lemma {:induction false} UnionCheckedOnce(env: map<string, Datum>, ctx: map<string, Datum>, e: TExpr)
    requires e.TUnion? && WellTyped(env, e) && Conforms(env, ctx)
    requires ResolveDataset(e.first.expr, ctx).Ok? && ResolveDatasets(e.rest, ctx).Ok?
    ensures Resolve(e, ctx).Ok?
    ensures Resolve(e, ctx).value.Table? && Resolve(e, ctx).value.d.structure == e.structure
  {
    var ops := [e.first] + e.rest;
    var d0, ds := ResolveDataset(e.first.expr, ctx).value, ResolveDatasets(e.rest, ctx).value;
    ResolvedStructure(env, ctx, e.first.expr);
    ResolvedStructures(env, ctx, e.rest);
    var all := [d0] + ds;
    var ss := OperandStructures(ops);
    forall i | 0 <= i < |all|
      ensures all[i].structure == ss[i]
    {
      if i > 0 {
        assert all[i] == ds[i - 1] && ops[i] == e.rest[i - 1];
      }
    }
    UnionOfAligned(all, ss, Texts(Operands(e.first, e.rest)));
  }

  /** Datasets with the structures of a compatible list of structures are compatible, so their union succeeds. */
  lemma {:induction false} UnionOfAligned(all: seq<Dataset>, ss: seq<DataStructure>, texts: seq<string>)
    requires |all| == |ss| == |texts| > 0
    requires forall i | 0 <= i < |all| :: all[i].structure == ss[i]
    requires FirstIncompatible(ss, 1).None?
    ensures Union(all, texts).Ok? && Union(all, texts).value.structure == ss[0]
  {
    assert forall i | 0 < i < |all| :: Compatible(all[0].structure, all[i].structure);
  }

  /**
   Likewise for rename: the renamed columns were checked against the
   subject's static structure, so resolving never reports an unknown
   column once the subject resolves.
   */
  lemma RenameCheckedOnce(env: map<string, Datum>, ctx: map<string, Datum>, e: TExpr)
    requires e.TRename? && WellTyped(env, e) && Conforms(env, ctx)
    requires ResolveDataset(e.subject, ctx).Ok?
    ensures Resolve(e, ctx).Ok?
    ensures Resolve(e, ctx).value.Table? && Resolve(e, ctx).value.d.structure == e.structure
  {
    ResolvedStructure(env, ctx, e.subject);
  }

  /**
   The conditional's final cast never fails on a well-typed conditional:
   once the condition and the selected branch resolve, the conditional
   resolves to that branch's value.
   */
  lemma IfProgress(env: map<string, Datum>, ctx: map<string, Datum>, e: TExpr)
    requires e.TIf? && WellTyped(env, e) && Conforms(env, ctx)
    requires ResolveBoolean(e.condition, ctx).Ok?
    requires var pick := if ResolveBoolean(e.condition, ctx).value == Some(true) then e.thenExpr else e.elseExpr;
      Resolve(pick, ctx).Ok?
    ensures var pick := if ResolveBoolean(e.condition, ctx).value == Some(true) then e.thenExpr else e.elseExpr;
      Resolve(e, ctx) == Resolve(pick, ctx)
  {
    var pick := if ResolveBoolean(e.condition, ctx).value == Some(true) then e.thenExpr else e.elseExpr;
    ResolvePreservesType(env, ctx, pick);
  }
}
