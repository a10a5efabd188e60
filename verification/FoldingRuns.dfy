/** Folding at compile time and computing at run time give the same: the lowered code of an
    operator, on two constants' values, leaves the folded constant extended to a word. */
module FoldingRuns {
  import opened Options
  import opened Words
  import opened Ir
  import opened CTypes
  import opened Integers
  import opened Source
  import opened Lowering
  import opened Represent
  import opened OperatorCorrect
  import opened ByteWords
  import opened Constants
  import opened ConstExpr
  import opened ConstMeaning

  /** A constant as a register holds it: extended with its sign or with zeros. */
  function AsWord(r: Constant): Word
    requires Typed(r)
  {
    Extend(r.bytes, !r.unsigned)
  }

  lemma WordOfConstant(r: Constant)
    requires Typed(r)
    ensures WordOf(ValueOf(r)) == AsWord(r)
  {
    hide BytesOf, ValueOf, Unsigned, Convert, Signed;
    ConvertValue(8, r.unsigned, r);
    assert AsWord(r) == ConvertConstant(8, r.unsigned, r).bytes;
  }

  /** The one division the machine cannot do: the least 64-bit integer by -1. */
  predicate Overflows(op: Operator, a: Constant, b: Constant)
    requires Typed(a) && Typed(b)
  {
    var ty := Usual(TypeOf(a), TypeOf(b));
    (op.OpDiv? || op.OpRem?) && ty.Long? && Convert(ty, ValueOf(a)) == -0x8000_0000_0000_0000 &&
        Convert(ty, ValueOf(b)) == -1
  }

  /** The least int divided by -1 overflows its type, but not the word it is computed in. */
  predicate Narrow(op: Operator, a: Constant, b: Constant)
    requires Typed(a) && Typed(b)
  {
    var ty := Usual(TypeOf(a), TypeOf(b));
    (op.OpDiv? || op.OpRem?) && ty.Int? && Convert(ty, ValueOf(a)) == -0x8000_0000 && Convert(ty, ValueOf(b)) == -1
  }

  /** Wherever an operator folds it is defined at run time, but for those divisions. */
  lemma FoldedIsDefined(op: Operator, a: Constant, b: Constant)
    requires Folds(op) && Typed(a) && Typed(b) && BinaryConstant(op, a, b).Some? && !Overflows(op, a, b) &&
        !Narrow(op, a, b)
    ensures BinaryResult(op, TypeOf(a), TypeOf(b), ValueOf(a), ValueOf(b)) ==
        Some(ValueOf(BinaryConstant(op, a, b).value))
  {
    hide BinaryConstant, ValueOf, TypeOf, Convert, Usual, BinaryResult, Computed;
    FoldedIsComputed(op, a, b);
    TypedValue(a);
    TypedValue(b);
    CommonBasic(a, b);
    ComputedDefined(op, TypeOf(a), TypeOf(b), ValueOf(a), ValueOf(b));
  }

  lemma CommonBasic(a: Constant, b: Constant)
    requires Typed(a) && Typed(b)
    ensures var ty := Usual(TypeOf(a), TypeOf(b)); Promoted(ty) && (ty.Int? || ty.Long? || IsUnsigned(ty))
  {
  }

  lemma ComputedDefined(op: Operator, ta: CType, tb: CType, a: int, b: int)
    requires Promoted(ta) && Promoted(tb) && Computed(op, ta, tb, a, b).Some?
    requires op.OpDiv? || op.OpRem? ==> var ty := Usual(ta, tb);
      Promoted(ty) && !(!IsUnsigned(ty) && Convert(ty, a) == -Modulus(ty) / 2 && Convert(ty, b) == -1)
    ensures BinaryResult(op, ta, tb, a, b) == Computed(op, ta, tb, a, b)
  {
    if op.OpDiv? || op.OpRem? {
      var ty := Usual(ta, tb);
      QuotientFits(ty, Convert(ty, a), Convert(ty, b));
      PromotedAlready(ta, tb);
      hide Convert, TruncDiv, TruncRem, Usual;
    }
  }

  lemma PromotedAlready(ta: CType, tb: CType)
    requires Promoted(ta) && Promoted(tb)
    ensures Arithmetic(ta, tb) == Some(Usual(ta, tb))
  {
  }

  /** A quotient of values of a type is one, but for the least by -1. */
  lemma QuotientFits(ty: CType, x: int, y: int)
    requires Promoted(ty) && InRange(ty, x) && InRange(ty, y) && y != 0 &&
        !(!IsUnsigned(ty) && x == -Modulus(ty) / 2 && y == -1)
    ensures InRange(ty, TruncDiv(x, y))
  {
    QuotientBetween(Abs(x), Abs(y));
    if Abs(y) >= 2 { SmallerQuotient(Abs(x), Abs(y)); }
  }

  lemma SmallerQuotient(a: nat, b: nat)
    requires b >= 2
    ensures a / b <= a / 2
  {
    var q := a / b;
    assert a == b * q + a % b;
    Integers.MulMono(q, 2, b);
    assert 2 * q <= a by { assert q * 2 <= q * b; assert q * b == b * q; }
  }

  lemma NarrowRuns(c: Context, start: State, op: Operator, ta: CType, tb: CType, a: Code, b: Code, m: State, x: int,
      y: int) returns (m': State)
    requires op.OpDiv? || op.OpRem?
    requires Operands(c, start, a, b, m, x, y) && InRange(ta, x) && InRange(tb, y) && Arithmetic(ta, tb) == Some(Int)
    requires Convert(Int, x) == -0x8000_0000 && Convert(Int, y) == -1
    requires LowerOperator(op, ta, tb, a, b).Some? && Owned(c.frame, b.next, LowerOperator(op, ta, tb, a, b).value.next)
    ensures Finishes(c, start, b.next, m, LowerOperator(op, ta, tb, a, b).value, if op.OpDiv? then -0x8000_0000
        else 0, m')
  {
    hide Runs, BytesOf, Coerce, Operands, AtType, Convert, BinValue, Arithmetic;
    var (ac, bc) := Converted(a, b, Int);
    var m1 := ConvertedRuns(c, start, a, b, m, x, y, Int);
    AtTypeOfValue(Int, ta, x);
    AtTypeOfValue(Int, tb, y);
    var l, r := WordOf(-0x8000_0000), WordOf(-1);
    var v := if op.OpDiv? then 0x8000_0000 else 0;
    NarrowWord(op);
    m' := OperateRuns(c, start, a.instrs + b.instrs + ac.instrs + bc.instrs, bc.next, if op.OpDiv? then Div
        else Mod, ac.op, bc.op, m1, l, r, v, Int);
    AddsBoth(b.next, bc.next, m, m1, m');
  }

  lemma NarrowWord(op: Operator)
    requires op.OpDiv? || op.OpRem?
    ensures BinValue(if op.OpDiv? then Div else Mod, WordOf(-0x8000_0000), WordOf(-1)) ==
        Some(WordOf(if op.OpDiv? then 0x8000_0000 else 0))
    ensures AtType(Int, if op.OpDiv? then 0x8000_0000 else 0) == if op.OpDiv? then -0x8000_0000 else 0
    ensures TruncDiv(-0x8000_0000, -1) == 0x8000_0000 && TruncRem(-0x8000_0000, -1) == 0
  {
    hide BytesOf, BinValue;
    assert TruncDiv(-0x8000_0000, -1) == 0x8000_0000;
    QuotientWord(Long, -0x8000_0000, -1);
  }

  lemma NarrowFolds(op: Operator, a: Constant, b: Constant)
    requires Typed(a) && Typed(b) && Narrow(op, a, b)
    ensures Arithmetic(TypeOf(a), TypeOf(b)) == Some(Int)
    ensures BinaryConstant(op, a, b).Some? &&
        ValueOf(BinaryConstant(op, a, b).value) == if op.OpDiv? then -0x8000_0000 else 0
  {
    hide BinaryConstant, ValueOf, TypeOf, BytesOf, BinaryResult, AtType, TruncDiv, TruncRem, Usual;
    FoldedIsComputed(op, a, b);
    TypedValue(a);
    TypedValue(b);
    PromotedAlready(TypeOf(a), TypeOf(b));
    NarrowWord(op);
  }

  /** The lowered code of an operator on the values of two constants ends with the word of
      the folded constant, for every operator and all operands it folds on, but for the
      least 64-bit integer divided by -1. */
  lemma FoldedAsRun(c: Context, start: State, op: Operator, a: Constant, b: Constant, left: Code, right: Code,
      m: State) returns (m': State)
    requires Folds(op) && Typed(a) && Typed(b) && BinaryConstant(op, a, b).Some? && !Overflows(op, a, b)
    requires Operands(c, start, left, right, m, ValueOf(a), ValueOf(b))
    requires var code := LowerOperator(op, TypeOf(a), TypeOf(b), left, right);
        code.Some? && Owned(c.frame, right.next, code.value.next)
    ensures Typed(BinaryConstant(op, a, b).value)
    ensures var code := LowerOperator(op, TypeOf(a), TypeOf(b), left, right).value;
      Runs(c, code.instrs, start, m') && Value(c, m', code.op) == Some(AsWord(BinaryConstant(op, a, b).value))
  {
    hide BinaryConstant, ValueOf, TypeOf, BytesOf, BinaryResult, Convert, Usual, LowerOperator, Operands, Runs, Value,
        AsWord, Overflows;
    BinaryTyped(op, a, b);
    TypedValue(a);
    TypedValue(b);
    WordOfConstant(BinaryConstant(op, a, b).value);
    if Narrow(op, a, b) {
      NarrowFolds(op, a, b);
      NarrowIs(op, a, b);
      m' := NarrowRuns(c, start, op, TypeOf(a), TypeOf(b), left, right, m, ValueOf(a), ValueOf(b));
    } else {
      FoldedIsDefined(op, a, b);
      m' := OperatorRuns(c, start, op, TypeOf(a), TypeOf(b), left, right, m, ValueOf(a), ValueOf(b));
    }
  }

  lemma NarrowIs(op: Operator, a: Constant, b: Constant)
    requires Typed(a) && Typed(b) && Narrow(op, a, b)
    ensures (op.OpDiv? || op.OpRem?) && Convert(Int, ValueOf(a)) == -0x8000_0000 && Convert(Int, ValueOf(b)) == -1
  {
    hide ValueOf, TypeOf, Usual, Convert;
  }
}
