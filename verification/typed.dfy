/**
 Typed expressions: what building a node produces. Each carries its static
 type (fixed when it is built) and resolves later, against whatever
 variable context is then supplied, to a value or a failure. The Java code
 keeps the resolve step in a closure; here it is the function `Resolve`
 over a closed datatype.
 */
module Typed {

  import opened Values
  import opened Results
  import opened Structured
  import opened Datasets
  import opened Engine

  /** What a variable is bound to, and what an expression resolves to: a scalar or a dataset. */
  datatype Datum = Scalar(v: Value) | Table(d: Dataset)

  /** A union operand once built, with the source text that names it. */
  datatype TOperand = TOperand(expr: TExpr, text: string)

  datatype TExpr =
    | TConst(ty: Type, v: Value)                                          // a constant
    | TVar(ty: Type, name: string)                                        // a scalar variable
    | TTable(name: string, structure: DataStructure)                      // a dataset variable
    | TAnd(left: TExpr, right: TExpr)
    | TOr(left: TExpr, right: TExpr)
    | TXor(left: TExpr, right: TExpr)
    | TMulLong(left: TExpr, right: TExpr)                                 // `LongExpression`: long * long
    | TMulDouble(left: TExpr, right: TExpr)                               // `DoubleExpression`: double * double
    | TDiv(left: TExpr, right: TExpr)                                     // `DoubleExpression`: double / double
    | TIf(ty: Type, condition: TExpr, thenExpr: TExpr, elseExpr: TExpr)  // `withTypeCasting`
    | TRetyped(ty: Type, inner: TExpr)                                    // a null expression given a type
    | TUnion(first: TOperand, rest: seq<TOperand>, structure: DataStructure)
    | TRename(subject: TExpr, fromTo: seq<(string, string)>, structure: DataStructure)
    | TProject(subject: TExpr, names: seq<string>, structure: DataStructure)

  /** `getType()`: the static type, fixed when the expression is built. */
  function TypeOf(e: TExpr): Type {
    match e
    case TConst(ty, _) => ty
    case TVar(ty, _) => ty
    case TAnd(_, _) => BooleanT
    case TOr(_, _) => BooleanT
    case TXor(_, _) => BooleanT
    case TMulLong(_, _) => IntegerT
    case TMulDouble(_, _) => RealT
    case TDiv(_, _) => RealT
    case TIf(ty, _, _, _) => ty
    case TRetyped(ty, _) => ty
    case _ => DatasetT
  }

  /** `isNull`: the expression is statically known to be null. */
  predicate IsNull(e: TExpr) {
    TypeOf(e) == NullT
  }

  /** Instances of `DatasetExpression`, the only ones that carry a structure. */
  predicate IsDataset(e: TExpr) {
    e.TTable? || e.TUnion? || e.TRename? || e.TProject?
  }

  /** The operands of a union, first included. */
  function Operands(first: TOperand, rest: seq<TOperand>): (ops: seq<TOperand>)
    ensures |ops| == |rest| + 1 && ops[0] == first
    ensures forall i | 0 <= i < |rest| :: ops[i + 1] == rest[i]
  {
    [first] + rest
  }

  function Texts(ops: seq<TOperand>): (ts: seq<string>)
    ensures |ts| == |ops|
    ensures forall i | 0 <= i < |ops| :: ts[i] == ops[i].text
  {
    seq(|ops|, i requires 0 <= i < |ops| => ops[i].text)
  }

  /** A datum an object of the static type's class may hold: null fits every class, anything fits `Object`. */
  predicate Fits(d: Datum, ty: Type) {
    || ty == NullT
    || d == Scalar(Null)
    || (d.Scalar? && TypeOfValue(d.v) == ty)
    || (d.Table? && ty == DatasetT)
  }

  /** The class of a datum at run time. */
  function DatumType(d: Datum): (t: Type)
    ensures Fits(d, t)
    ensures t == NullT <==> d == Scalar(Null)
  {
    match d
    case Scalar(v) => TypeOfValue(v)
    case Table(_) => DatasetT
  }

  /** `clazz.cast`: the datum itself when it fits the class, otherwise a class-cast failure. */
  function Cast(ty: Type, d: Datum): (r: Result<Datum>)
    ensures r.Ok? <==> Fits(d, ty)
    ensures r.Ok? ==> r.value == d
    ensures r.Err? ==> r.error == ResolutionFailed(ClassCast)
  {
    if Fits(d, ty) then Ok(d) else Err(ResolutionFailed(ClassCast))
  }

  /** `(Boolean) x`: null passes as null. */
  function AsBoolean(d: Datum): (r: Result<Option<bool>>)
    ensures r.Ok? <==> Fits(d, BooleanT)
    ensures d == Scalar(Null) ==> r == Ok(None)
    ensures d.Scalar? && d.v.BoolV? ==> r == Ok(Some(d.v.b))
  {
    match d
    case Scalar(Null) => Ok(None)
    case Scalar(BoolV(b)) => Ok(Some(b))
    case _ => Err(ResolutionFailed(ClassCast))
  }

  /** `(Long) x`: null passes as null. */
  function AsLong(d: Datum): (r: Result<Option<Long>>)
    ensures r.Ok? <==> Fits(d, IntegerT)
    ensures d == Scalar(Null) ==> r == Ok(None)
    ensures d.Scalar? && d.v.LongV? ==> r == Ok(Some(d.v.n))
  {
    match d
    case Scalar(Null) => Ok(None)
    case Scalar(LongV(n)) => Ok(Some(n))
    case _ => Err(ResolutionFailed(ClassCast))
  }

  /** Unboxing to a primitive: null throws. */
  function Unbox<T>(o: Option<T>): (r: Result<T>)
    ensures r.Ok? <==> o.Some?
    ensures o.None? ==> r.error == ResolutionFailed(NullUnboxing)
  {
    match o
    case None => Err(ResolutionFailed(NullUnboxing))
    case Some(x) => Ok(x)
  }

  /**
   `x instanceof Long ? ((Long) x).doubleValue() : (Double) x`, whose type
   is the primitive `double`: a long is converted, a double kept, a null
   fails on unboxing and anything else on the cast.
   */
  function AsDouble(d: Datum): (r: Result<Double>)
    ensures r.Ok? <==> d.Scalar? && (d.v.LongV? || d.v.DoubleV?)
    ensures d == Scalar(Null) ==> r == Err(ResolutionFailed(NullUnboxing))
    ensures d.Scalar? && d.v.LongV? ==> r == Ok(OfLong(d.v.n))
    ensures d.Scalar? && d.v.DoubleV? ==> r == Ok(d.v.d)
  {
    match d
    case Scalar(LongV(n)) => Ok(OfLong(n))
    case Scalar(DoubleV(x)) => Ok(x)
    case Scalar(Null) => Err(ResolutionFailed(NullUnboxing))
    case _ => Err(ResolutionFailed(ClassCast))
  }

  /** `(Dataset) x`, for a dataset expression's resolution. */
  function AsDataset(d: Datum): (r: Result<Dataset>)
    ensures r.Ok? <==> d.Table?
    ensures r.Ok? ==> r.value == d.d
  {
    match d
    case Table(t) => Ok(t)
    case Scalar(_) => Err(ResolutionFailed(ClassCast))
  }

  /** The context's binding for a name. */
  function Lookup(ctx: map<string, Datum>, name: string): (r: Result<Datum>)
    ensures r.Ok? <==> name in ctx
    ensures r.Ok? ==> r.value == ctx[name]
  {
    if name in ctx then Ok(ctx[name]) else Err(ResolutionFailed(UnboundVariable))
  }

  /** Java's `&&` on two unboxed Booleans: a false left operand decides without unboxing the right one. */
  function JavaAnd(a: Option<bool>, b: Option<bool>): Result<Datum> {
    var x :- Unbox(a);
    if !x then Ok(Scalar(BoolV(false)))
    else
      var y :- Unbox(b);
      Ok(Scalar(BoolV(y)))
  }

  /** Java's `||`: a true left operand decides without unboxing the right one. */
  function JavaOr(a: Option<bool>, b: Option<bool>): Result<Datum> {
    var x :- Unbox(a);
    if x then Ok(Scalar(BoolV(true)))
    else
      var y :- Unbox(b);
      Ok(Scalar(BoolV(y)))
  }

  /** Java's `^` on Booleans: both operands are unboxed. */
  function JavaXor(a: Option<bool>, b: Option<bool>): Result<Datum> {
    var x :- Unbox(a);
    var y :- Unbox(b);
    Ok(Scalar(BoolV(x != y)))
  }

  /** Java's `*` on two unboxed `Long`s. */
  function JavaTimes(a: Option<Long>, b: Option<Long>): Result<Datum> {
    var x :- Unbox(a);
    var y :- Unbox(b);
    Ok(Scalar(LongV(Wrap64(x as int * y as int))))
  }

  /** `leftDouble * rightDouble`, each operand converted by `AsDouble`, left first. */
  function DoubleTimes(lv: Datum, rv: Datum): Result<Datum> {
    var x :- AsDouble(lv);
    var y :- AsDouble(rv);
    Ok(Scalar(DoubleV(Times(x, y))))
  }

  /** `leftDouble / rightDouble`. */
  function DoubleOver(lv: Datum, rv: Datum): Result<Datum> {
    var x :- AsDouble(lv);
    var y :- AsDouble(rv);
    Ok(Scalar(DoubleV(Over(x, y))))
  }

  /**
   `resolve(context)`. Every step follows the order of the Java closure:
   operands are resolved left to right, each cast as soon as it is
   resolved, and unboxed only where the operator needs the primitive.
   */
  function Resolve(e: TExpr, ctx: map<string, Datum>): Result<Datum>
    decreases e, 0
  {
    match e
    case TConst(_, v) => Ok(Scalar(v))
    case TVar(_, name) => Lookup(ctx, name)
    case TTable(name, _) => Lookup(ctx, name)
    case TAnd(l, r) =>
      var a :- ResolveBoolean(l, ctx);
      var b :- ResolveBoolean(r, ctx);
      JavaAnd(a, b)
    case TOr(l, r) =>
      var a :- ResolveBoolean(l, ctx);
      var b :- ResolveBoolean(r, ctx);
      JavaOr(a, b)
    case TXor(l, r) =>
      var a :- ResolveBoolean(l, ctx);
      var b :- ResolveBoolean(r, ctx);
      JavaXor(a, b)
    case TMulLong(l, r) =>
      var a :- ResolveLong(l, ctx);
      var b :- ResolveLong(r, ctx);
      JavaTimes(a, b)
    case TMulDouble(l, r) =>
      var lv :- Resolve(l, ctx);
      var rv :- Resolve(r, ctx);
      DoubleTimes(lv, rv)
    case TDiv(l, r) =>
      var lv :- Resolve(l, ctx);
      var rv :- Resolve(r, ctx);
      DoubleOver(lv, rv)
    case TIf(ty, c, t, f) =>
      var b :- ResolveBoolean(c, ctx);
      if b == Some(true) then
        var v :- Resolve(t, ctx);
        Cast(ty, v)
      else
        var v :- Resolve(f, ctx);
        Cast(ty, v)
    case TRetyped(ty, inner) =>
      var v :- Resolve(inner, ctx);
      Cast(ty, v)
    case TUnion(first, rest, _) =>
      var d0 :- ResolveDataset(first.expr, ctx);
      var ds :- ResolveDatasets(rest, ctx);
      var u :- Union([d0] + ds, Texts(Operands(first, rest)));
      Ok(Table(u))
    case TRename(subject, fromTo, _) =>
      var d :- ResolveDataset(subject, ctx);
      var r :- Rename(d, fromTo);
      Ok(Table(r))
    case TProject(subject, names, _) =>
      var d :- ResolveDataset(subject, ctx);
      var r :- Project(d, names);
      Ok(Table(r))
  }

  /** An operand's resolution, cast to `Boolean`. */
  function ResolveBoolean(e: TExpr, ctx: map<string, Datum>): Result<Option<bool>>
    decreases e, 1
  {
    var v :- Resolve(e, ctx);
    AsBoolean(v)
  }

  /** An operand's resolution, cast to `Long`. */
  function ResolveLong(e: TExpr, ctx: map<string, Datum>): Result<Option<Long>>
    decreases e, 1
  {
    var v :- Resolve(e, ctx);
    AsLong(v)
  }

  /** A dataset expression's resolution, cast to `Dataset`. */
  function ResolveDataset(e: TExpr, ctx: map<string, Datum>): Result<Dataset>
    decreases e, 1
  {
    var v :- Resolve(e, ctx);
    AsDataset(v)
  }

  /** The operands' datasets, resolved in order; the first failure stops the rest. */
  function ResolveDatasets(ops: seq<TOperand>, ctx: map<string, Datum>): (r: Result<seq<Dataset>>)
    ensures r.Ok? ==> |r.value| == |ops|
    decreases ops
  {
    if |ops| == 0 then Ok([])
    else
      var d :- ResolveDataset(ops[0].expr, ctx);
      var ds :- ResolveDatasets(ops[1..], ctx);
      Ok([d] + ds)
  }
}
