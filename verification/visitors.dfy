/**
 Building: the top-level dispatcher and the builders it hands each kind of
 node to. Building is where type errors surface; the typed expression it
 returns is resolved later.
 */
module Visitors {

  import opened Values
  import opened Results
  import opened Structured
  import opened Datasets
  import opened Engine
  import opened Syntax
  import opened Typed

  /** The specialised builders of the dispatcher. */
  datatype Builder =
    | ConstantVisitor | VarIdVisitor | BooleanVisitor | ArithmeticVisitor
    | ArithmeticExprOrConcatVisitor | UnaryVisitor | ComparisonVisitor | IfVisitor
    | StringFunctionsVisitor | ComparisonFunctionsVisitor | SetFunctionsVisitor
    | NumericFunctionsVisitor | DistanceFunctionsVisitor | JoinFunctionsVisitor | ClauseVisitor

  function BuilderName(b: Builder): string {
    match b
    case ConstantVisitor => "ConstantVisitor"
    case VarIdVisitor => "VarIdVisitor"
    case BooleanVisitor => "BooleanVisitor"
    case ArithmeticVisitor => "ArithmeticVisitor"
    case ArithmeticExprOrConcatVisitor => "ArithmeticExprOrConcatVisitor"
    case UnaryVisitor => "UnaryVisitor"
    case ComparisonVisitor => "ComparisonVisitor"
    case IfVisitor => "IfVisitor"
    case StringFunctionsVisitor => "StringFunctionsVisitor"
    case ComparisonFunctionsVisitor => "ComparisonFunctionsVisitor"
    case SetFunctionsVisitor => "SetFunctionsVisitor"
    case NumericFunctionsVisitor => "NumericFunctionsVisitor"
    case DistanceFunctionsVisitor => "DistanceFunctionsVisitor"
    case JoinFunctionsVisitor => "JoinFunctionsVisitor"
    case ClauseVisitor => "ClauseVisitor"
  }

  /** The builder of each family of function calls. */
  function FamilyBuilder(f: Family): Builder {
    match f
    case StringFunctions => StringFunctionsVisitor
    case ComparisonFunctions => ComparisonFunctionsVisitor
    case SetFunctions => SetFunctionsVisitor
    case NumericFunctions => NumericFunctionsVisitor
    case DistanceFunctions => DistanceFunctionsVisitor
  }

  /** A builder whose code is not part of this model. */
  function Unmodelled(b: Builder): Result<TExpr> {
    Err(OutsideModel(BuilderName(b)))
  }

  /**
   `assertTypeExpression`: an expression of the wanted type is kept, a
   statically null one is given that type, anything else is a type error.
   */
  function AssertType(e: TExpr, ty: Type): (r: Result<TExpr>)
    ensures r.Ok? <==> TypeOf(e) == ty || IsNull(e)
    ensures r.Ok? ==> TypeOf(r.value) == ty
    ensures TypeOf(e) == ty ==> r == Ok(e)
    ensures r.Err? ==> r.error == InvalidType(ty, TypeOf(e))
  {
    if TypeOf(e) == ty then Ok(e)
    else if IsNull(e) then Ok(TRetyped(ty, e))
    else Err(InvalidType(ty, TypeOf(e)))
  }

  /** `assertNumber`: the expression must be integer- or real-typed. */
  function AssertNumber(e: TExpr): (r: Result<TExpr>)
    ensures r.Ok? <==> TypeOf(e) == IntegerT || TypeOf(e) == RealT
    ensures r.Ok? ==> r.value == e
    ensures r.Err? ==> r.error == NotANumber(TypeOf(e))
  {
    if TypeOf(e) == IntegerT || TypeOf(e) == RealT then Ok(e) else Err(NotANumber(TypeOf(e)))
  }

  /** What the constant builder produces for each kind of literal. */
  function ConstantExpr(lit: Literal): TExpr {
    match lit
    case IntLit(n) => TConst(IntegerT, LongV(n))
    case DecLit(r) => TConst(RealT, DoubleV(Lit(r)))
    case BoolLit(b) => TConst(BooleanT, BoolV(b))
    case StrLit(s) => TConst(StringT, StrV(s))
    case NullLit => TConst(NullT, Null)
  }

  /**
   The variable builder: the static type is read from the build-time
   binding; a dataset binding yields a dataset expression carrying its
   structure.
   */
  function BuildVar(env: map<string, Datum>, name: string): Result<TExpr> {
    if name !in env then Err(UndefinedVariable(name))
    else
      match env[name]
      case Table(d) => Ok(TTable(name, d.structure))
      case Scalar(v) => Ok(TVar(TypeOfValue(v), name))
  }

  /** `ExpressionVisitor.visit`: dispatch on the kind of node. */
  function Build(env: map<string, Datum>, n: Node): Result<TExpr>
    decreases n, 2
  {
    match n
    case Constant(lit) => Ok(ConstantExpr(lit))
    case VarId(name) => BuildVar(env, name)
    case BooleanExpr(_, _, _) => BuildBoolean(env, n)
    case ArithmeticExpr(_, _, _) => BuildArithmetic(env, n)
    case ArithmeticOrConcat(_, _, _) => Unmodelled(ArithmeticExprOrConcatVisitor)
    case UnaryExpr(_, _) => Unmodelled(UnaryVisitor)
    case ParenthesisExpr(inner) => Build(env, inner)
    case ComparisonExpr(_, _, _) => Unmodelled(ComparisonVisitor)
    case InNotInExpr(_, _, _) => Unmodelled(ComparisonVisitor)
    case IfExpr(_, _, _) => BuildIf(env, n)
    case FunctionExpr(family, call) => BuildFunction(env, n)
    case JoinFunctions(_) => Unmodelled(JoinFunctionsVisitor)
    case ClauseExpr(_, _) => BuildClause(env, n)
  }

  /** `BooleanVisitor.visitBooleanExpr`: both operands are built, with no type check, then the operator is chosen. */
  function BuildBoolean(env: map<string, Datum>, n: Node): Result<TExpr>
    requires n.BooleanExpr?
    decreases n, 0
  {
    var l :- Build(env, n.left);
    var r :- Build(env, n.right);
    match n.op
    case And => Ok(TAnd(l, r))
    case Or => Ok(TOr(l, r))
    case Xor => Ok(TXor(l, r))
    case _ => Err(UnsupportedOperator(OpText(n.op)))
  }

  /**
   `ArithmeticVisitor.visitArithmeticExpr`: the operator is chosen first;
   then each operand is built and checked numeric, left before right.
   */
  function BuildArithmetic(env: map<string, Datum>, n: Node): Result<TExpr>
    requires n.ArithmeticExpr?
    decreases n, 0
  {
    if n.op != Mul && n.op != Div then Err(UnsupportedOperator(OpText(n.op)))
    else
      var l0 :- Build(env, n.left);
      var l :- AssertNumber(l0);
      var r0 :- Build(env, n.right);
      var r :- AssertNumber(r0);
      if n.op == Div then Ok(TDiv(l, r))
      else if TypeOf(l) == IntegerT && TypeOf(r) == IntegerT then Ok(TMulLong(l, r))
      else Ok(TMulDouble(l, r))
  }

  /**
   Branch normalisation of `visitIfExpr`: a null else-branch takes the
   then-branch's type; otherwise a null then-branch takes the else-branch's.
   */
  function Unify(t: TExpr, f: TExpr): Result<(TExpr, TExpr)> {
    if IsNull(f) && !IsNull(t) then
      var f' :- AssertType(f, TypeOf(t));
      Ok((t, f'))
    else if IsNull(t) then
      var t' :- AssertType(t, TypeOf(f));
      Ok((t', f))
    else Ok((t, f))
  }

  /**
   `IfVisitor.visitIfExpr`. A statically null condition gives a null
   Boolean at once; otherwise the condition must be Boolean, both branches
   are built, normalised for nulls and must then agree on their type, which
   becomes the type of the result.
   */
  function BuildIf(env: map<string, Datum>, n: Node): Result<TExpr>
    requires n.IfExpr?
    decreases n, 0
  {
    var cond :- Build(env, n.condition);
    if IsNull(cond) then Ok(TConst(BooleanT, Null))
    else
      var c :- AssertType(cond, BooleanT);
      var t :- Build(env, n.thenExpr);
      var f :- Build(env, n.elseExpr);
      var branches :- Unify(t, f);
      if TypeOf(branches.0) != TypeOf(branches.1) then Err(InvalidType(TypeOf(branches.0), TypeOf(branches.1)))
      else Ok(TIf(TypeOf(branches.0), c, branches.0, branches.1))
  }

  /** A function-call node: its operator child goes to the builder of its family. */
  function BuildFunction(env: map<string, Datum>, n: Node): Result<TExpr>
    requires n.FunctionExpr?
    decreases n, 1
  {
    match n.call
    case UnionCall(_, _) =>
      if n.family == SetFunctions then BuildUnion(env, n) else Unmodelled(FamilyBuilder(n.family))
    case OtherCall(_, _) => Unmodelled(FamilyBuilder(n.family))
  }

  /** A union operand: built, and required to be a dataset expression. */
  function BuildOperand(env: map<string, Datum>, op: Operand): (r: Result<TOperand>)
    ensures r.Ok? ==> IsDataset(r.value.expr) && r.value.text == op.text
    decreases op, 0
  {
    var e :- Build(env, op.expr);
    if !IsDataset(e) then Err(NotADataset) else Ok(TOperand(e, op.text))
  }

  function BuildOperands(env: map<string, Datum>, ops: seq<Operand>): (r: Result<seq<TOperand>>)
    ensures r.Ok? ==> |r.value| == |ops|
    ensures r.Ok? ==> forall i | 0 <= i < |ops| :: IsDataset(r.value[i].expr) && r.value[i].text == ops[i].text
    decreases ops
  {
    if |ops| == 0 then Ok([])
    else
      var o :- BuildOperand(env, ops[0]);
      var os :- BuildOperands(env, ops[1..]);
      Ok([o] + os)
  }

  /** The static structures of built union operands. */
  function OperandStructures(ops: seq<TOperand>): (ss: seq<DataStructure>)
    requires forall i | 0 <= i < |ops| :: IsDataset(ops[i].expr)
    ensures |ss| == |ops|
    ensures forall i | 0 <= i < |ops| :: IsDataset(ops[i].expr) && ss[i] == ops[i].expr.structure
  {
    seq(|ops|, i requires 0 <= i < |ops| => assert IsDataset(ops[i].expr); ops[i].expr.structure)
  }

  /**
   The union builder: every operand must build to a dataset expression and
   have the first operand's structure; the first that does not is named by
   its position and its text.
   */
  function BuildUnion(env: map<string, Datum>, n: Node): Result<TExpr>
    requires n.FunctionExpr? && n.call.UnionCall?
    decreases n, 0
  {
    var f :- BuildOperand(env, n.call.first);
    var rs :- BuildOperands(env, n.call.rest);
    var ops := Operands(f, rs);
    match FirstIncompatible(OperandStructures(ops), 1)
    case Some(i) => Err(Incompatible(i, ops[i].text))
    case None => Ok(TUnion(f, rs, f.expr.structure))
  }

  /**
   `visitClauseExpr`: the subject must build to a dataset expression; the
   clause then hands it to the engine, which fixes the result's structure.
   */
  function BuildClause(env: map<string, Datum>, n: Node): Result<TExpr>
    requires n.ClauseExpr?
    decreases n, 0
  {
    var subject :- Build(env, n.dataset);
    if !IsDataset(subject) then Err(NotADataset)
    else
      match n.clause
      case RenameClause(fromTo) =>
        var s :- RenameStructure(subject.structure, fromTo);
        Ok(TRename(subject, fromTo, s))
      case KeepClause(names) =>
        var s :- ProjectStructure(subject.structure, names);
        Ok(TProject(subject, names, s))
      case OtherClause(_) => Unmodelled(ClauseVisitor)
  }

  /** Each operator node goes to its builder. */
  lemma OperatorsRouted(env: map<string, Datum>, n: Node)
    ensures n.BooleanExpr? ==> Build(env, n) == BuildBoolean(env, n)
    ensures n.ArithmeticExpr? ==> Build(env, n) == BuildArithmetic(env, n)
    ensures n.IfExpr? ==> Build(env, n) == BuildIf(env, n)
    ensures n.ClauseExpr? ==> Build(env, n) == BuildClause(env, n)
  {
  }

  /** A function-call node goes to the builder of its family; only the set family's union is spelled out. */
  lemma FunctionRouted(env: map<string, Datum>, n: Node)
    requires n.FunctionExpr?
    ensures n.family == SetFunctions && n.call.UnionCall? ==> Build(env, n) == BuildUnion(env, n)
    ensures !(n.family == SetFunctions && n.call.UnionCall?) ==> Build(env, n) == Err(OutsideModel(BuilderName(FamilyBuilder(n.family))))
  {
    assert Build(env, n) == BuildFunction(env, n);
  }
}
