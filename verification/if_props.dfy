/** What the conditional builder and its resolution promise. */
module IfProperties {

  import opened Values
  import opened Results
  import opened Syntax
  import opened Typed
  import opened Visitors

  /** A resolution result passed through `clazz.cast`. */
  function Checked(ty: Type, r: Result<Datum>): Result<Datum> {
    match r
    case Ok(v) => Cast(ty, v)
    case Err(x) => Err(x)
  }

  /**
   A statically null condition makes the whole expression a Boolean-typed
   null, whatever the branches are: they are never built, so even branches
   that would fail to build do not matter; it resolves to null in any
   context.
   */
  lemma IfStaticNull(env: map<string, Datum>, c: Node, t: Node, f: Node, ctx: map<string, Datum>)
    requires Build(env, c).Ok? && IsNull(Build(env, c).value)
    ensures Build(env, IfExpr(c, t, f)) == Ok(TConst(BooleanT, Null))
    ensures TypeOf(Build(env, IfExpr(c, t, f)).value) == BooleanT
    ensures Resolve(Build(env, IfExpr(c, t, f)).value, ctx) == Ok(Scalar(Null))
  {
    OperatorsRouted(env, IfExpr(c, t, f));
  }

  /** A condition that fails to build fails the whole expression with its own error. */
  lemma IfConditionFails(env: map<string, Datum>, c: Node, t: Node, f: Node)
    requires Build(env, c).Err?
    ensures Build(env, IfExpr(c, t, f)) == Err(Build(env, c).error)
  {
    OperatorsRouted(env, IfExpr(c, t, f));
  }

  /** A condition that is neither null nor Boolean is a type error naming the Boolean type and the condition's. */
  lemma IfConditionNotBoolean(env: map<string, Datum>, c: Node, t: Node, f: Node)
    requires Build(env, c).Ok?
    requires TypeOf(Build(env, c).value) != NullT && TypeOf(Build(env, c).value) != BooleanT
    ensures Build(env, IfExpr(c, t, f)) == Err(InvalidType(BooleanT, TypeOf(Build(env, c).value)))
  {
    var n := IfExpr(c, t, f);
    OperatorsRouted(env, n);
    var cond := Build(env, c).value;
    assert AssertType(cond, BooleanT).Err?;
  }

  /**
   Branch normalisation: a null else-branch is given the then-branch's type;
   otherwise a null then-branch is given the else-branch's type. It never
   fails, and branches that are not null are kept as they are.
   */
  lemma UnifyRetypesNull(t: TExpr, f: TExpr)
    ensures Unify(t, f).Ok?
    ensures var u := Unify(t, f).value;
      && (IsNull(f) && !IsNull(t) ==> u == (t, TRetyped(TypeOf(t), f)) && TypeOf(u.1) == TypeOf(t))
      && (IsNull(t) && !IsNull(f) ==> u == (TRetyped(TypeOf(f), t), f) && TypeOf(u.0) == TypeOf(f))
      && (!IsNull(t) && !IsNull(f) ==> u == (t, f))
      && (IsNull(t) && IsNull(f) ==> u == (t, f))
  {
  }

  /**
   With a Boolean condition and both branches built: the expression builds
   exactly when the branch types agree once a null branch has taken the
   other's type; its type is the then-branch's (the else-branch's when the
   then-branch is null), and otherwise the error names both types.
   */
  lemma IfBranchTyping(env: map<string, Datum>, c: Node, t: Node, f: Node)
    requires Build(env, c).Ok? && TypeOf(Build(env, c).value) == BooleanT
    requires Build(env, t).Ok? && Build(env, f).Ok?
    ensures var ct, tt, ft := Build(env, c).value, Build(env, t).value, Build(env, f).value;
      var r := Build(env, IfExpr(c, t, f));
      && (r.Ok? <==> TypeOf(tt) == TypeOf(ft) || IsNull(tt) || IsNull(ft))
      && (r.Ok? ==> r.value.TIf? && r.value.condition == ct)
      && (r.Ok? ==> TypeOf(r.value) == (if IsNull(tt) then TypeOf(ft) else TypeOf(tt)))
      && (r.Ok? ==> TypeOf(r.value.thenExpr) == TypeOf(r.value) && TypeOf(r.value.elseExpr) == TypeOf(r.value))
      && (r.Err? ==> r.error == InvalidType(TypeOf(tt), TypeOf(ft)))
  {
    var n := IfExpr(c, t, f);
    OperatorsRouted(env, n);
    UnifyRetypesNull(Build(env, t).value, Build(env, f).value);
  }

  /** Branches are built then before else: a failing branch fails the expression with its error. */
  lemma IfBranchFails(env: map<string, Datum>, c: Node, t: Node, f: Node)
    requires Build(env, c).Ok? && TypeOf(Build(env, c).value) == BooleanT
    ensures Build(env, t).Err? ==> Build(env, IfExpr(c, t, f)) == Err(Build(env, t).error)
    ensures Build(env, t).Ok? && Build(env, f).Err? ==> Build(env, IfExpr(c, t, f)) == Err(Build(env, f).error)
  {
    OperatorsRouted(env, IfExpr(c, t, f));
  }

  /**
   A condition resolving to true selects the then-branch; false or a null
   selects the else-branch; either way the value is cast to the static type.
   */
  lemma IfSelects(e: TExpr, ctx: map<string, Datum>)
    requires e.TIf?
    ensures Resolve(e.condition, ctx) == Ok(Scalar(BoolV(true))) ==>
      Resolve(e, ctx) == Checked(e.ty, Resolve(e.thenExpr, ctx))
    ensures Resolve(e.condition, ctx) == Ok(Scalar(BoolV(false))) || Resolve(e.condition, ctx) == Ok(Scalar(Null)) ==>
      Resolve(e, ctx) == Checked(e.ty, Resolve(e.elseExpr, ctx))
  {
  }

  /** The condition is resolved first: its failure, or a non-Boolean value, fails the expression. */
  lemma IfConditionResolution(e: TExpr, ctx: map<string, Datum>)
    requires e.TIf?
    ensures Resolve(e.condition, ctx).Err? ==> Resolve(e, ctx) == Err(Resolve(e.condition, ctx).error)
    ensures Resolve(e.condition, ctx).Ok? && !Fits(Resolve(e.condition, ctx).value, BooleanT) ==>
      Resolve(e, ctx) == Err(ResolutionFailed(ClassCast))
  {
  }

  /**
   Only the selected branch is resolved: replacing the other one, even by
   one whose resolution fails, does not change the result.
   */
  lemma IfUnselectedIgnored(e: TExpr, other: TExpr, ctx: map<string, Datum>)
    requires e.TIf?
    ensures Resolve(e.condition, ctx) == Ok(Scalar(BoolV(true))) ==>
      Resolve(e, ctx) == Resolve(e.(elseExpr := other), ctx)
    ensures Resolve(e.condition, ctx) == Ok(Scalar(BoolV(false))) || Resolve(e.condition, ctx) == Ok(Scalar(Null)) ==>
      Resolve(e, ctx) == Resolve(e.(thenExpr := other), ctx)
  {
  }
}
