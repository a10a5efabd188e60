/** The identities by which C defines its assignment operators: a compound assignment is
    an assignment of the operation, a prefix step is a compound assignment of one, and a
    postfix step has the prefix step's effect and the value before it. */
module Equivalences {
  import opened Options
  import opened Words
  import opened Ir
  import opened CTypes
  import opened Source

  const ONE := Literal(1, Suffix(false, 0, true))

  function StepOperator(up: bool): Operator { if up then OpAdd else OpSub }

  /** A variable that holds a result has a value. */
  lemma {:induction false} PendingDefined(c: Context, g: Env, e: Expr, s: Config)
    requires Eval(c, g, e, s).Some?
    ensures forall x :: x in Pending(e) ==> x in Eval(c, g, e, s).value.s.vars
    decreases e
  {
    hide Convert, Fetch, Steady, ExprType, EvalInvoke, EvalPrefix, EvalPostfix, EvalLogical, EvalBinary,
        EvalConditional, EvalAssignment, EvalCompound, Perform;
    match e
    case Var(x) => ReadDefined(c, g, e, s);
    case Unary(Plus, x) => PendingDefined(c, g, x, s);
    case Cast(_, x) => PendingDefined(c, g, x, s);
    case Binary(OpComma, l, r) => PendingDefined(c, g, r, Perform(c, g, l, s).value);
    case Assignment(target, r) => AssignedDefined(c, g, target, r, s);
    case _ =>
  }

  lemma ReadDefined(c: Context, g: Env, e: Expr, s: Config)
    requires e.Var? && EvalRead(c, g, e, s).Some?
    ensures e.x in EvalRead(c, g, e, s).value.s.vars
  {
  }

  lemma {:induction false} AssignedDefined(c: Context, g: Env, target: Expr, r: Expr, s: Config)
    requires EvalAssignment(c, g, target, r, s).Some?
    ensures forall x :: x in Pending(r) ==> x in EvalAssignment(c, g, target, r, s).value.s.vars
    decreases Assignment(target, r), 0
  {
    hide Eval, EvalPlace, Convert, Steady, ExprType, Pending;
    PendingDefined(c, g, r, EvalPlace(c, g, target, s).value.s);
  }

  lemma OneIs(c: Context, g: Env, s: Config)
    ensures ExprType(g, ONE) == Some(Int) && Eval(c, g, ONE, s) == Some(Res(1, s))
  {
    assert Candidates(ONE.suffix)[0] == Int;
  }

  lemma StepIsSum(ty: CType, up: bool, v: int)
    requires InRange(ty, v)
    ensures CompoundResult(Standard, StepOperator(up), ty, Int, v, 1) == Some(Convert(ty, Stepped(up, ty, v)))
  {
    hide Convert, Usual, Promote, SizeOf, InRange;
    if !ty.Ptr? {
      StepType(ty);
      var u, d := Usual(Promote(ty), Promote(Int)), if up then 1 else -1;
      StepConverts(ty, u, v, d);
      assert Raw(StepOperator(up), u, v, 1) == Some(v + d);
    }
  }

  lemma StepType(ty: CType)
    requires !ty.Ptr?
    ensures Usual(Promote(ty), Promote(Int)) == if SizeOf(ty) < 4 then Int else ty
  {
  }

  /** The sum does not overflow int, or it is taken in the type itself. */
  lemma StepConverts(ty: CType, u: CType, v: int, d: int)
    requires InRange(ty, v) && (d == 1 || d == -1) && u == if SizeOf(ty) < 4 then Int else ty
    ensures Convert(u, 1) == 1
    ensures Convert(u, v) == v && Convert(ty, Convert(u, v + d)) == Convert(ty, v + d)
  {
    if SizeOf(ty) < 4 { SmallRange(ty, v); }
    hide Modulus;
  }

  lemma SmallRange(ty: CType, v: int)
    requires InRange(ty, v) && SizeOf(ty) < 4
    ensures InRange(Int, v) && InRange(Int, v + 1) && InRange(Int, v - 1)
  {
  }

  lemma FetchInRange(c: Context, ty: CType, place: Place, s: Config)
    requires Fetch(c, ty, place, s).Some?
    ensures InRange(ty, Fetch(c, ty, place, s).value)
    ensures place.Local? ==> place.x in s.vars
  {
    hide InRange, ValueOfBytes;
  }

  lemma {:induction false} PlaceDefined(c: Context, g: Env, target: Expr, s: Config)
    requires EvalPlace(c, g, target, s).Some?
    ensures forall x :: x in PendingPlace(target) ==> x in EvalPlace(c, g, target, s).value.s.vars
    ensures target.Var? ==> EvalPlace(c, g, target, s).value.place == Local(target.x)
    ensures target.Var? || target.GlobalVar? || target.Deref?
  {
    hide Eval, Pending;
    if target.Deref? { PendingDefined(c, g, target.p, s); }
  }

  /** Section 6.5.3.1, paragraph 2: ++E is (E += 1), and --E is (E -= 1). */
  lemma PrefixIsCompound(c: Context, g: Env, up: bool, target: Expr, s: Config)
    requires g.reading.Standard?
    ensures Eval(c, g, Prefix(up, target), s) == Eval(c, g, Compound(StepOperator(up), target, ONE), s)
  {
    PrefixSame(c, g, up, target, s);
    hide EvalPrefix, EvalCompound;
  }

  lemma PrefixSame(c: Context, g: Env, up: bool, target: Expr, s: Config)
    requires g.reading.Standard?
    ensures EvalPrefix(c, g, up, target, s) == EvalCompound(c, g, StepOperator(up), target, ONE, s)
  {
    hide Eval, EvalPlace, ExprType, Fetch, Put, Convert, CompoundResult, Stepped, InRange, PendingPlace, StepOperator,
        ONE;
    var ty, p := ExprType(g, target), EvalPlace(c, g, target, s);
    if p.Some? {
      OneIs(c, g, p.value.s);
      PlaceDefined(c, g, target, s);
      if ty.Some? && Fetch(c, ty.value, p.value.place, p.value.s).Some? {
        FetchInRange(c, ty.value, p.value.place, p.value.s);
        StepIsSum(ty.value, up, Fetch(c, ty.value, p.value.place, p.value.s).value);
      }
    }
  }

  /** Section 6.5.2.4, paragraph 2: a postfix step has the value before, and the effect of
      the prefix step. */
  lemma PostfixIsPrefix(c: Context, g: Env, up: bool, target: Expr, s: Config)
    requires g.reading.Standard?
    ensures var before, after := Eval(c, g, Postfix(up, target), s), Eval(c, g, Prefix(up, target), s);
      && (before.Some? <==> after.Some?)
      && (before.Some? ==>
            before.value.s == after.value.s && EvalRead(c, g, target, s).Some? &&
            before.value.v == EvalRead(c, g, target, s).value.v)
  {
    hide EvalPlace, ExprType, Fetch, Put, Convert, Stepped;
  }

  /** Section 6.5.16.2, paragraph 3: E1 op= E2 is E1 = E1 op (E2) for an E1 whose evaluation
      does nothing. */
  lemma CompoundIsAssignment(c: Context, g: Env, op: Operator, target: Expr, x: Expr, s: Config)
    requires g.reading.Standard? && (target.Var? || target.GlobalVar?)
    requires !IsRelation(op) && !op.OpLogAnd? && !op.OpLogOr? && !op.OpComma?
    requires ExprType(g, x).Some? ==> !ExprType(g, x).value.Ptr?
    ensures Eval(c, g, Compound(op, target, x), s) == Eval(c, g, Assignment(target, Binary(op, target, x)), s)
  {
    CompoundSame(c, g, op, target, x, s);
    hide EvalAssignment, EvalCompound;
  }

  lemma OperationSame(op: Operator, ta: CType, tb: CType, a: int, b: int)
    requires !IsRelation(op) && !op.OpLogAnd? && !op.OpLogOr? && !op.OpComma? && !tb.Ptr?
    ensures var r := BinaryResult(op, ta, tb, a, b);
      CompoundResult(Standard, op, ta, tb, a, b) == if r.Some? then Some(Convert(ta, r.value)) else None
  {
    hide Raw, Promote, Usual;
  }

  /** A variable or global is read where it stands. */
  lemma ReadsTarget(c: Context, g: Env, target: Expr, s: Config)
    requires target.Var? || target.GlobalVar?
    ensures EvalPlace(c, g, target, s).Some? && EvalPlace(c, g, target, s).value.s == s && PendingPlace(target) == {}
    ensures Eval(c, g, target, s) ==
      var ty := ExprType(g, target);
      if ty.None? then None else
      var v := Fetch(c, ty.value, EvalPlace(c, g, target, s).value.place, s);
      if v.None? then None else Some(Res(v.value, s))
  {
    hide Fetch;
  }

  lemma CompoundSame(c: Context, g: Env, op: Operator, target: Expr, x: Expr, s: Config)
    requires g.reading.Standard? && (target.Var? || target.GlobalVar?)
    requires !IsRelation(op) && !op.OpLogAnd? && !op.OpLogOr? && !op.OpComma?
    requires ExprType(g, x).Some? ==> !ExprType(g, x).value.Ptr?
    ensures EvalCompound(c, g, op, target, x, s) == EvalAssignment(c, g, target, Binary(op, target, x), s)
  {
    hide Eval, EvalPlace, PendingPlace, Pending, Put, Convert, CompoundResult, BinaryResult, Fetch, ExprType,
        IsRelation;
    ReadsTarget(c, g, target, s);
    BinaryRule(c, g, op, target, x, s);
    var ty, p := ExprType(g, target), EvalPlace(c, g, target, s).value;
    var r := Eval(c, g, x, s);
    if ty.Some? && ExprType(g, x).Some? && Fetch(c, ty.value, p.place, s).Some? && r.Some? {
      OperationSame(op, ty.value, ExprType(g, x).value, Fetch(c, ty.value, p.place, s).value, r.value.v);
      assert {} + Pending(target) == Pending(target);
    }
  }

  lemma BinaryRule(c: Context, g: Env, op: Operator, l: Expr, r: Expr, s: Config)
    requires !op.OpLogAnd? && !op.OpLogOr? && !op.OpComma?
    ensures Eval(c, g, Binary(op, l, r), s) == EvalBinary(c, g, op, l, r, s)
  {
    hide EvalBinary;
  }
}
