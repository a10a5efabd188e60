/** Where the compiled code and C can differ, and why nowhere else: the three readings of
    the source language agree on every run that takes none of the guards, and every run
    of a portable program is one. */
module Readings {
  import opened Options
  import opened Words
  import opened Ir
  import opened CTypes
  import opened Source
  import opened Integers
  import opened Statements
  import ByteWords

  function With(g: Env, r: Reading): Env { g.(reading := r) }

  lemma {:induction false} TypeSame(g: Env, r: Reading, e: Expr)
    ensures ExprType(With(g, r), e) == ExprType(g, e)
    decreases e
  {
    hide BinaryType, ConditionalType;
    match e
    case Unary(_, x) => TypeSame(g, r, x);
    case Deref(p) => TypeSame(g, r, p);
    case Prefix(_, target) => TypeSame(g, r, target);
    case Postfix(_, target) => TypeSame(g, r, target);
    case Binary(_, l, x) =>
      TypeSame(g, r, l);
      TypeSame(g, r, x);
    case Conditional(_, yes, no) =>
      TypeSame(g, r, yes);
      TypeSame(g, r, no);
    case Assignment(target, _) => TypeSame(g, r, target);
    case Compound(_, target, _) => TypeSame(g, r, target);
    case _ =>
  }

  // ---- The three constructs --------------------------------------------------------------------

  lemma FetchInRange(c: Context, ty: CType, place: Place, s: Config)
    requires Fetch(c, ty, place, s).Some?
    ensures InRange(ty, Fetch(c, ty, place, s).value)
  {
  }

  /** A compound assignment to a _Bool is compiled as C has it, whatever the operator and the
      types, exactly unless it adds 4294967295 to true in unsigned int. */
  lemma CompoundExactly(op: Operator, ta: CType, tb: CType, a: int, b: int)
    requires InRange(ta, a) && CompoundResult(Standard, op, ta, tb, a, b).Some?
    ensures CompoundResult(AsCompiled, op, ta, tb, a, b) == CompoundResult(Standard, op, ta, tb, a, b)
      <==> !(ta.Bool? && SumLost(op, OperationType(op, ta, tb).value, a, b))
  {
    hide Raw, Convert, SumLost, OperationType;
    if ta.Bool? { TruthExactly(op, tb, OperationType(op, ta, tb).value, a, b); }
  }

  /** The truth of the word is that of the converted value. */
  lemma TruthExactly(op: Operator, tb: CType, ty: CType, a: int, b: int)
    requires 0 <= a <= 1 && OperationType(op, Bool, tb) == Some(ty) && Raw(op, ty, a, b).Some?
    ensures var v := Raw(op, ty, a, b).value;
        Truth(v % M64 != 0) == Convert(Bool, Convert(ty, v)) <==> !SumLost(op, ty, a, b)
  {
    var v := Raw(op, ty, a, b).value;
    OperationPromoted(op, tb);
    RawBound(op, ty, a, b);
    hide Raw, OperationType, SumLost;
    if SizeOf(ty) == 8 { ZeroWide(ty, v); } else { ZeroNarrow(ty, v); }
  }

  lemma OperationPromoted(op: Operator, tb: CType)
    requires OperationType(op, Bool, tb).Some?
    ensures Promoted(OperationType(op, Bool, tb).value)
  {
    if !IsShift(op) { UsualPromoted(Promote(Bool), Promote(tb)); }
    hide Usual;
  }

  lemma ZeroWide(ty: CType, v: int)
    requires Promoted(ty) && SizeOf(ty) == 8
    ensures Convert(ty, v) == 0 <==> v % M64 == 0
  {
  }

  lemma ZeroNarrow(ty: CType, v: int)
    requires Promoted(ty) && SizeOf(ty) == 4 && -0x1_0000_0000 < v <= 0x1_0000_0000
    ensures Convert(ty, v) == 0 <==> v == 0 || v == 0x1_0000_0000
    ensures v % M64 == 0 <==> v == 0
  {
  }

  /** An operation of a _Bool in a four-byte type does not reach the type's range, except
      the sum of true and the greatest unsigned int. */
  lemma RawBound(op: Operator, ty: CType, a: int, b: int)
    requires 0 <= a <= 1 && Promoted(ty) && Raw(op, ty, a, b).Some? && (IsShift(op) ==> ty.Int?)
    ensures var v := Raw(op, ty, a, b).value;
      SizeOf(ty) == 4 ==> -0x1_0000_0000 < v <= 0x1_0000_0000 && (v == 0x1_0000_0000 <==> SumLost(op, ty, a, b))
  {
    var y := Convert(ty, b);
    hide Convert;
    if SizeOf(ty) == 4 {
      if IsShift(op) {
        ShiftBound(op, a, b);
      } else if op.OpAnd? || op.OpXor? || op.OpOr? {
        FoldBound(if op.OpAnd? then BitAnd else if op.OpXor? then BitXor else BitOr, a, y);
      } else if op.OpRem? {
        RemainderBound(a, y);
      } else if op.OpMul? {
        assert a * y == 0 || a * y == y;
      }
    }
  }

  lemma ShiftBound(op: Operator, a: int, n: int)
    requires 0 <= a <= 1 && IsShift(op) && Shifted(op, Int, a, n).Some?
    ensures 0 <= Shifted(op, Int, a, n).value < 0x1_0000_0000
  {
    hide Pow2;
    ByteWords.BytePower(4);
    ModulusIsPower(Int);
    PowBelow(n, 32);
    if op.OpShr? { assert a / Pow2(n) <= 1; }
  }

  lemma {:induction false} PowBelow(m: nat, n: nat)
    requires m < n
    ensures Pow2(m) < Pow2(n)
    decreases n
  {
    if m < n - 1 { PowBelow(m, n - 1); }
  }

  lemma RemainderBound(a: int, b: int)
    requires 0 <= a <= 1 && b != 0
    ensures 0 <= TruncRem(a, b) <= 1
  {
    hide TruncDiv;
    SmallQuotient(a, b);
    assert b * 0 == 0;
  }

  lemma SmallQuotient(a: int, b: int)
    requires 0 <= a <= 1 && b != 0
    ensures TruncDiv(a, b) == if a < Abs(b) then 0 else b
  {
    DivUnique(a, Abs(b), if a < Abs(b) then 0 else 1, if a < Abs(b) then a else 0);
  }

  lemma FoldBound(op: BitOp, a: int, b: int)
    requires 0 <= a <= 1 && -0x8000_0000 <= b < 0x1_0000_0000
    ensures -0x8000_0000 <= BitFold(op, a, b) < 0x1_0000_0000
  {
    BitFoldStep(op, a, b);
    FoldZero(op, b / 2);
    hide BitFold;
  }

  lemma {:induction false} FoldZero(op: BitOp, v: int)
    ensures BitFold(op, 0, v) == if op.BitAnd? then 0 else v
    decreases Magnitude(v)
  {
    if v != 0 && v != -1 { FoldZero(op, v / 2); }
  }

  /** Every reading of a compound assignment that loses nothing is the same. */
  lemma CompoundAgrees(r: Reading, op: Operator, ta: CType, tb: CType, a: int, b: int)
    requires InRange(ta, a) && CompoundResult(Guarded, op, ta, tb, a, b).Some?
    ensures CompoundResult(r, op, ta, tb, a, b) == CompoundResult(Guarded, op, ta, tb, a, b)
  {
    hide Raw, Convert, SumLost, OperationType;
    if ta.Bool? { TruthExactly(op, tb, OperationType(op, ta, tb).value, a, b); }
  }

  /** The byte a postfix step of a _Bool in memory stores is the one C has exactly unless
      the step leaves the type's range. */
  lemma PostfixExactly(c: Context, up: bool, ty: CType, place: Place, v: int)
    requires InRange(ty, v)
    ensures
      (place.Memory? ==>
        BytesOf(Stepped(up, ty, v), SizeOf(ty)) == BytesOf(Convert(ty, Stepped(up, ty, v)), SizeOf(ty)))
      <==> !StepsOut(up, ty, place, v)
  {
    var u := Stepped(up, ty, v);
    if ty.Bool? {
      OneByteOf(u);
      OneByteOf(Convert(ty, u));
    } else {
      ConvertCongruent(ty, u);
      ModulusIsPower(ty);
      BytesCongruent(u, Convert(ty, u), SizeOf(ty));
    }
  }

  lemma OneByteOf(v: int)
    ensures BytesOf(v, 1) == [v % 256]
  {
  }

  lemma PostfixAgrees(c: Context, up: bool, ty: CType, place: Place, v: int, s: Config)
    requires InRange(ty, v) && !StepsOut(up, ty, place, v) && place.Memory?
    ensures Put(c, ty, place, Stepped(up, ty, v), s) == Put(c, ty, place, Convert(ty, Stepped(up, ty, v)), s)
  {
    hide Stepped, Convert, BytesOf;
    PostfixExactly(c, up, ty, place, v);
  }

  // ---- Expressions: a guarded run has every reading ------------------------------------------

  lemma {:induction false} EvalGuarded(c: Context, g: Env, r: Reading, e: Expr, s: Config)
    requires Eval(c, With(g, Guarded), e, s).Some?
    ensures Eval(c, With(g, r), e, s) == Eval(c, With(g, Guarded), e, s)
    decreases e, 1
  {
    hide EvalRead, EvalInvoke, EvalPrefix, EvalPostfix, EvalLogical, EvalBinary, EvalConditional, EvalAssignment,
        EvalCompound, EvalUnary, ExprType, Perform, Convert;
    match e
    case Literal(_, _) =>
    case Character(_) =>
    case Var(_) => ReadGuarded(c, g, r, e, s);
    case GlobalVar(_) => ReadGuarded(c, g, r, e, s);
    case Deref(_) => ReadGuarded(c, g, r, e, s);
    case Invoke(name, args) => InvokeGuarded(c, g, r, name, args, s);
    case Unary(_, x) =>
      EvalGuarded(c, g, r, x, s);
      TypesSame(g, r, x);
    case Cast(_, x) => EvalGuarded(c, g, r, x, s);
    case Prefix(up, target) => PrefixGuarded(c, g, r, up, target, s);
    case Postfix(up, target) => PostfixGuarded(c, g, r, up, target, s);
    case Binary(op, l, x) =>
      if op.OpComma? {
        PerformGuarded(c, g, r, l, s);
        EvalGuarded(c, g, r, x, Perform(c, With(g, Guarded), l, s).value);
      } else if op.OpLogAnd? || op.OpLogOr? {
        LogicalGuarded(c, g, r, op, l, x, s);
      } else {
        BinaryGuarded(c, g, r, op, l, x, s);
      }
    case Conditional(test, yes, no) => ConditionalGuarded(c, g, r, test, yes, no, s);
    case Assignment(target, x) => AssignmentGuarded(c, g, r, target, x, s);
    case Compound(op, target, x) => CompoundGuarded(c, g, r, op, target, x, s);
  }

  lemma TypesSame(g: Env, r: Reading, e: Expr)
    ensures ExprType(With(g, r), e) == ExprType(With(g, Guarded), e)
  {
    TypeSame(g, r, e);
    TypeSame(g, Guarded, e);
  }

  lemma ReadGuarded(c: Context, g: Env, r: Reading, e: Expr, s: Config)
    requires EvalRead(c, With(g, Guarded), e, s).Some?
    ensures EvalRead(c, With(g, r), e, s) == EvalRead(c, With(g, Guarded), e, s)
    decreases e, 0, 1
  {
    hide ExprType, EvalPlace, Fetch;
    TypesSame(g, r, e);
    PlaceGuarded(c, g, r, e, s);
  }

  lemma PlaceGuarded(c: Context, g: Env, r: Reading, target: Expr, s: Config)
    requires EvalPlace(c, With(g, Guarded), target, s).Some?
    ensures EvalPlace(c, With(g, r), target, s) == EvalPlace(c, With(g, Guarded), target, s)
    decreases target, 0, 0
  {
    hide Eval;
    if target.Deref? { EvalGuarded(c, g, r, target.p, s); }
  }

  lemma InvokeGuarded(c: Context, g: Env, r: Reading, name: string, args: seq<Expr>, s: Config)
    requires EvalInvoke(c, With(g, Guarded), name, args, s).Some?
    ensures EvalInvoke(c, With(g, r), name, args, s) == EvalInvoke(c, With(g, Guarded), name, args, s)
    decreases Invoke(name, args), 0
  {
    hide EvalArgs, CallEffect, ValueOfBytes, InRange;
    ArgsGuarded(c, g, r, args, s);
  }

  lemma {:induction false} ArgsGuarded(c: Context, g: Env, r: Reading, args: seq<Expr>, s: Config)
    requires EvalArgs(c, With(g, Guarded), args, s).Some?
    ensures EvalArgs(c, With(g, r), args, s) == EvalArgs(c, With(g, Guarded), args, s)
    decreases args
  {
    hide Eval, Steady, Pending;
    if args != [] {
      EvalGuarded(c, g, r, args[0], s);
      ArgsGuarded(c, g, r, args[1..], Eval(c, With(g, Guarded), args[0], s).value.s);
    }
  }

  lemma PrefixGuarded(c: Context, g: Env, r: Reading, up: bool, target: Expr, s: Config)
    requires EvalPrefix(c, With(g, Guarded), up, target, s).Some?
    ensures EvalPrefix(c, With(g, r), up, target, s) == EvalPrefix(c, With(g, Guarded), up, target, s)
    decreases target, 2
  {
    hide ExprType, EvalPlace, Fetch, Put, Convert, Stepped;
    TypesSame(g, r, target);
    PlaceGuarded(c, g, r, target, s);
  }

  lemma PostfixGuarded(c: Context, g: Env, r: Reading, up: bool, target: Expr, s: Config)
    requires EvalPostfix(c, With(g, Guarded), up, target, s).Some?
    ensures EvalPostfix(c, With(g, r), up, target, s) == EvalPostfix(c, With(g, Guarded), up, target, s)
    decreases Postfix(up, target), 0
  {
    hide ExprType, EvalPlace, Fetch, Put, Convert, Stepped, StepsOut;
    TypesSame(g, r, target);
    PlaceGuarded(c, g, r, target, s);
    var ty := ExprType(With(g, Guarded), target).value;
    var p := EvalPlace(c, With(g, Guarded), target, s).value;
    FetchInRange(c, ty, p.place, p.s);
    if p.place.Memory? { PostfixAgrees(c, up, ty, p.place, Fetch(c, ty, p.place, p.s).value, p.s); }
  }

  lemma LogicalIs(c: Context, g: Env, op: Operator, l: Expr, r: Expr, s: Config)
    ensures EvalLogical(c, g, op, l, r, s) ==
      match Eval(c, g, l, s)
      case None => None
      case Some(a) =>
        if (a.v != 0) == op.OpLogOr? then Some(Res(Truth(op.OpLogOr?), a.s)) else
        match Eval(c, g, r, a.s)
        case None => None
        case Some(b) => Some(Res(Truth(b.v != 0), b.s))
  {
    hide Eval, Truth;
  }

  lemma LogicalGuarded(c: Context, g: Env, r: Reading, op: Operator, l: Expr, x: Expr, s: Config)
    requires EvalLogical(c, With(g, Guarded), op, l, x, s).Some?
    ensures EvalLogical(c, With(g, r), op, l, x, s) == EvalLogical(c, With(g, Guarded), op, l, x, s)
    decreases Binary(op, l, x), 0
  {
    hide *;
    LogicalIs(c, With(g, Guarded), op, l, x, s);
    LogicalIs(c, With(g, r), op, l, x, s);
    EvalGuarded(c, g, r, l, s);
    var a := Eval(c, With(g, Guarded), l, s).value;
    if (a.v != 0) != op.OpLogOr? { EvalGuarded(c, g, r, x, a.s); }
  }

  lemma BinaryGuarded(c: Context, g: Env, r: Reading, op: Operator, l: Expr, x: Expr, s: Config)
    requires EvalBinary(c, With(g, Guarded), op, l, x, s).Some?
    ensures EvalBinary(c, With(g, r), op, l, x, s) == EvalBinary(c, With(g, Guarded), op, l, x, s)
    decreases Binary(op, l, x), 0
  {
    hide Eval, ExprType, BinaryResult, Steady, Pending;
    TypesSame(g, r, l);
    TypesSame(g, r, x);
    var (first, second) := if PointerLast(op, ExprType(With(g, Guarded), l).value,
        ExprType(With(g, Guarded), x).value) then (x, l) else (l, x);
    EvalGuarded(c, g, r, first, s);
    EvalGuarded(c, g, r, second, Eval(c, With(g, Guarded), first, s).value.s);
  }

  lemma ConditionalGuarded(c: Context, g: Env, r: Reading, test: Expr, yes: Expr, no: Expr, s: Config)
    requires EvalConditional(c, With(g, Guarded), test, yes, no, s).Some?
    ensures EvalConditional(c, With(g, r), test, yes, no, s) == EvalConditional(c, With(g, Guarded), test, yes, no, s)
    decreases Conditional(test, yes, no), 0
  {
    hide Eval, ExprType, Convert;
    TypesSame(g, r, Conditional(test, yes, no));
    EvalGuarded(c, g, r, test, s);
    var t := Eval(c, With(g, Guarded), test, s).value;
    EvalGuarded(c, g, r, if t.v != 0 then yes else no, t.s);
  }

  lemma AssignmentGuarded(c: Context, g: Env, r: Reading, target: Expr, x: Expr, s: Config)
    requires EvalAssignment(c, With(g, Guarded), target, x, s).Some?
    ensures EvalAssignment(c, With(g, r), target, x, s) == EvalAssignment(c, With(g, Guarded), target, x, s)
    decreases Assignment(target, x), 0
  {
    hide Eval, EvalPlace, ExprType, Convert, Put, Steady, PendingPlace;
    TypesSame(g, r, target);
    PlaceGuarded(c, g, r, target, s);
    EvalGuarded(c, g, r, x, EvalPlace(c, With(g, Guarded), target, s).value.s);
  }

  lemma CompoundGuarded(c: Context, g: Env, r: Reading, op: Operator, target: Expr, x: Expr, s: Config)
    requires EvalCompound(c, With(g, Guarded), op, target, x, s).Some?
    ensures EvalCompound(c, With(g, r), op, target, x, s) == EvalCompound(c, With(g, Guarded), op, target, x, s)
    decreases Compound(op, target, x), 0
  {
    hide Eval, EvalPlace, ExprType, Fetch, Put, Steady, PendingPlace, Pending, CompoundResult;
    TypesSame(g, r, target);
    TypesSame(g, r, x);
    PlaceGuarded(c, g, r, target, s);
    var ty, tx := ExprType(With(g, Guarded), target).value, ExprType(With(g, Guarded), x).value;
    var p := EvalPlace(c, With(g, Guarded), target, s).value;
    EvalGuarded(c, g, r, x, p.s);
    FetchInRange(c, ty, p.place, p.s);
    CompoundAgrees(r, op, ty, tx, Fetch(c, ty, p.place, p.s).value, Eval(c, With(g, Guarded), x, p.s).value.v);
  }

  lemma PerformGuarded(c: Context, g: Env, r: Reading, e: Expr, s: Config)
    requires Perform(c, With(g, Guarded), e, s).Some?
    ensures Perform(c, With(g, r), e, s) == Perform(c, With(g, Guarded), e, s)
    decreases e, 2
  {
    hide Eval, EvalArgs, EvalPrefix, CallEffect;
    match e
    case Invoke(_, args) => ArgsGuarded(c, g, r, args, s);
    case Postfix(up, target) => PrefixGuarded(c, g, r, up, target, s);
    case _ => EvalGuarded(c, g, r, e, s);
  }
}
