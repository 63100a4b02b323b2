/** What the multiplication and division builder and their resolution promise. */
module ArithmeticProperties {

  import opened Values
  import opened Results
  import opened Syntax
  import opened Typed
  import opened Visitors

  predicate Numeric(e: TExpr) {
    TypeOf(e) == IntegerT || TypeOf(e) == RealT
  }

  /** A run-time number converted to `double`: longs by `doubleValue()`, doubles as they are. */
  function Widen(v: Value): Double
    requires v.LongV? || v.DoubleV?
  {
    if v.LongV? then OfLong(v.n) else v.d
  }

  /**
   The operator is examined before anything is built: any operator but
   `*` and `/` is unsupported, even when an operand would fail to build.
   */
  lemma OperatorCheckedFirst(env: map<string, Datum>, op: Op, l: Node, r: Node)
    requires op != Mul && op != Div
    ensures Build(env, ArithmeticExpr(op, l, r)) == Err(UnsupportedOperator(OpText(op)))
  {
    var n := ArithmeticExpr(op, l, r);
    OperatorsRouted(env, n);
  }

  /**
   Then the left operand is built and checked numeric before the right one
   is built: a non-numeric left operand is reported even when the right one
   would fail to build.
   */
  lemma LeftCheckedBeforeRight(env: map<string, Datum>, op: Op, l: Node, r: Node)
    requires op == Mul || op == Div
    ensures Build(env, l).Err? ==> Build(env, ArithmeticExpr(op, l, r)) == Err(Build(env, l).error)
    ensures Build(env, l).Ok? && !Numeric(Build(env, l).value) ==>
      Build(env, ArithmeticExpr(op, l, r)) == Err(NotANumber(TypeOf(Build(env, l).value)))
    ensures Build(env, l).Ok? && Numeric(Build(env, l).value) && Build(env, r).Err? ==>
      Build(env, ArithmeticExpr(op, l, r)) == Err(Build(env, r).error)
  {
    var n := ArithmeticExpr(op, l, r);
    OperatorsRouted(env, n);
  }

  /**
   With both operands built: the expression builds exactly when the
   operator is `*` or `/` and both operands are numeric. A product of two
   integers is an integer; every other product, and every quotient, is a
   real, over the same operands.
   */
  lemma ArithmeticTyping(env: map<string, Datum>, op: Op, l: Node, r: Node)
    requires Build(env, l).Ok? && Build(env, r).Ok?
    ensures var e, lt, rt := Build(env, ArithmeticExpr(op, l, r)), Build(env, l).value, Build(env, r).value;
      && (e.Ok? <==> (op == Mul || op == Div) && Numeric(lt) && Numeric(rt))
      && (e.Ok? && op == Div ==> e.value == TDiv(lt, rt) && TypeOf(e.value) == RealT)
      && (e.Ok? && op == Mul && TypeOf(lt) == IntegerT && TypeOf(rt) == IntegerT ==>
            e.value == TMulLong(lt, rt) && TypeOf(e.value) == IntegerT)
      && (e.Ok? && op == Mul && (TypeOf(lt) == RealT || TypeOf(rt) == RealT) ==>
            e.value == TMulDouble(lt, rt) && TypeOf(e.value) == RealT)
      && ((op == Mul || op == Div) && Numeric(lt) && !Numeric(rt) ==> e == Err(NotANumber(TypeOf(rt))))
  {
    var n := ArithmeticExpr(op, l, r);
    OperatorsRouted(env, n);
  }

  /**
   A product of two longs is Java's `long` product: equal to the exact
   product when that fits in 64 bits, and congruent to it modulo 2^64
   otherwise.
   */
  lemma LongProduct(e: TExpr, ctx: map<string, Datum>, a: Long, b: Long)
    requires e.TMulLong?
    requires Resolve(e.left, ctx) == Ok(Scalar(LongV(a))) && Resolve(e.right, ctx) == Ok(Scalar(LongV(b)))
    ensures Resolve(e, ctx).Ok?
    ensures var p := Resolve(e, ctx).value;
      && p.Scalar? && p.v.LongV?
      && (p.v.n as int - a as int * b as int) % TWO_64 == 0
      && (MIN_LONG <= a as int * b as int <= MAX_LONG ==> p.v.n as int == a as int * b as int)
  {
  }

  /** Overflow wraps round: `9223372036854775807 * 2` is `-2`. */
  lemma LongProductOverflows(e: TExpr, ctx: map<string, Datum>)
    requires e.TMulLong?
    requires Resolve(e.left, ctx) == Ok(Scalar(LongV(MAX_LONG as Long))) && Resolve(e.right, ctx) == Ok(Scalar(LongV(2)))
    ensures Resolve(e, ctx) == Ok(Scalar(LongV(-2)))
  {
    assert Wrap64(MAX_LONG * 2) == -2;
  }

  /**
   A real product or a quotient converts each number to `double` and
   applies the IEEE operation: a quotient of two longs is never an integer
   division.
   */
  lemma DoubleArithmetic(e: TExpr, ctx: map<string, Datum>)
    requires e.TMulDouble? || e.TDiv?
    requires Resolve(e.left, ctx).Ok? && Resolve(e.left, ctx).value.Scalar?
    requires Resolve(e.right, ctx).Ok? && Resolve(e.right, ctx).value.Scalar?
    requires var x, y := Resolve(e.left, ctx).value.v, Resolve(e.right, ctx).value.v;
      (x.LongV? || x.DoubleV?) && (y.LongV? || y.DoubleV?)
    ensures var x, y := Resolve(e.left, ctx).value.v, Resolve(e.right, ctx).value.v;
      && (e.TMulDouble? ==> Resolve(e, ctx) == Ok(Scalar(DoubleV(Times(Widen(x), Widen(y))))))
      && (e.TDiv? ==> Resolve(e, ctx) == Ok(Scalar(DoubleV(Over(Widen(x), Widen(y))))))
  {
    var lv, rv := Resolve(e.left, ctx).value, Resolve(e.right, ctx).value;
    assert AsDouble(lv) == Ok(Widen(lv.v));
    assert AsDouble(rv) == Ok(Widen(rv.v));
  }

  /** The resolved multiplication and division operators. */
  predicate IsArithmeticOperator(e: TExpr) {
    e.TMulLong? || e.TMulDouble? || e.TDiv?
  }

  /** A null operand is unboxed to a primitive and fails, in either position and for every operator. */
  lemma NullLeftOperandFails(e: TExpr, ctx: map<string, Datum>, a: Long)
    requires IsArithmeticOperator(e)
    requires Resolve(e.left, ctx) == Ok(Scalar(Null)) && Resolve(e.right, ctx) == Ok(Scalar(LongV(a)))
    ensures Resolve(e, ctx) == Err(ResolutionFailed(NullUnboxing))
  {
  }

  lemma NullRightOperandFails(e: TExpr, ctx: map<string, Datum>, a: Long)
    requires IsArithmeticOperator(e)
    requires Resolve(e.left, ctx) == Ok(Scalar(LongV(a))) && Resolve(e.right, ctx) == Ok(Scalar(Null))
    ensures Resolve(e, ctx) == Err(ResolutionFailed(NullUnboxing))
  {
  }

  /** A datum that is neither a number nor null. */
  predicate NotANumberValue(d: Datum) {
    d != Scalar(Null) && !(d.Scalar? && (d.v.LongV? || d.v.DoubleV?))
  }

  /**
   An operand that resolves to something other than a number or null
   fails the cast; in a long product the left one is cast before the right
   one is even resolved.
   */
  lemma NonNumberOperandFails(e: TExpr, ctx: map<string, Datum>)
    requires IsArithmeticOperator(e)
    requires Resolve(e.left, ctx).Ok? && NotANumberValue(Resolve(e.left, ctx).value)
    requires e.TMulLong? || Resolve(e.right, ctx).Ok?
    ensures Resolve(e, ctx) == Err(ResolutionFailed(ClassCast))
  {
  }
}
