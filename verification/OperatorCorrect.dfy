/** The code lowered for each operator computes what C defines, at every type. */
module OperatorCorrect {
  import opened Options
  import opened Words
  import opened Ir
  import opened CTypes
  import opened Integers
  import opened Source
  import opened Lowering
  import opened Represent

  // ---- Operators on words ---------------------------------------------------------------

  lemma RelationWord(op: Operator, ty: CType, x: int, y: int)
    requires IsRelation(op) && InRange(ty, x) && InRange(ty, y)
    ensures BinValue(RelationOp(op, ty), WordOf(x), WordOf(y)) == Some(WordOf(Truth(Holds(op, x, y))))
  {
    hide BytesOf, Unsigned, Signed, BitFold, BytesOp, Convert;
    WordValue(ty, x);
    WordValue(ty, y);
    EqualWords(x, y);
    TruthWord(Holds(op, x, y));
  }

  /** Operators computed on words agree with exact integer arithmetic modulo 2 to the 64. */
  lemma ExactWord(op: Operator, ty: CType, x: int, y: int)
    requires InRange(ty, x) && InRange(ty, y) && Exact(op, ty, x, y).Some?
    ensures ArithmeticOp(op, ty).Some?
    ensures BinValue(ArithmeticOp(op, ty).value, WordOf(x), WordOf(y)) == Some(WordOf(Exact(op, ty, x, y).value))
  {
    hide BytesOf, Unsigned, Signed, BitFold, BytesOp, Convert, Compare;
    match op
    case OpAdd => SumWord(x, y);
    case OpSub => SumWord(x, y);
    case OpMul => ProductWord(x, y);
    case OpDiv => QuotientWord(ty, x, y);
    case OpRem => QuotientWord(ty, x, y);
    case OpAnd => BitFoldBytes(BitAnd, x, y, 8);
    case OpXor => BitFoldBytes(BitXor, x, y, 8);
    case OpOr => BitFoldBytes(BitOr, x, y, 8);
  }

  lemma QuotientWord(ty: CType, x: int, y: int)
    requires InRange(ty, x) && InRange(ty, y) && y != 0 && InRange(ty, TruncDiv(x, y))
    ensures BinValue(if IsUnsigned(ty) then Udiv else Div, WordOf(x), WordOf(y)) == Some(WordOf(TruncDiv(x, y)))
    ensures BinValue(if IsUnsigned(ty) then Umod else Mod, WordOf(x), WordOf(y)) == Some(WordOf(TruncRem(x, y)))
  {
    hide BytesOf, Unsigned, Signed, BitFold, BytesOp, Convert, Compare, TruncDiv, TruncRem;
    WordValue(ty, x);
    WordValue(ty, y);
    WithinWord(ty, TruncDiv(x, y));
    if IsUnsigned(ty) { NaturalQuotient(ty, x, y); }
  }

  lemma WithinWord(ty: CType, v: int)
    requires InRange(ty, v)
    ensures !IsUnsigned(ty) ==> InSigned64(v)
  {
  }

  lemma NaturalQuotient(ty: CType, x: int, y: int)
    requires IsUnsigned(ty) && InRange(ty, x) && InRange(ty, y) && y != 0
    ensures TruncDiv(x, y) == x / y && TruncRem(x, y) == x % y
  {
    assert x >= 0 && y >= 0;
  }

  lemma ShiftWord(op: Operator, ty: CType, x: int, n: int)
    requires InRange(ty, x) && IsShift(op) && Shifted(op, ty, x, n).Some?
    ensures BinValue(ArithmeticOp(op, ty).value, WordOf(x), WordOf(n)) == Some(WordOf(Shifted(op, ty, x, n).value))
  {
    hide BytesOf, Unsigned, Signed, BitFold, BytesOp, Convert, Compare, Pow2, ShiftLeft;
    ShiftCountWord(ty, n);
    if op.OpShl? { ShiftLeftWord(x, n); } else { WordValue(ty, x); }
  }

  lemma ShiftCountWord(ty: CType, n: int)
    requires 0 <= n < 8 * SizeOf(ty)
    ensures Unsigned(WordOf(n)) % 64 == n
  {
    hide BytesOf, Unsigned, Signed;
    UnsignedWord(n);
  }

  lemma ShiftLeftWord(x: int, n: nat)
    ensures ShiftLeft(WordOf(x), n) == WordOf(x * Pow2(n))
  {
    hide BytesOf, Unsigned, Pow2;
    UnsignedWord(x);
    var k := x / M64;
    assert (x - k * M64) * Pow2(n) == x * Pow2(n) + (-(k * Pow2(n))) * M64;
    WordShift(x * Pow2(n), -(k * Pow2(n)));
  }

  // ---- Code for operators ------------------------------------------------------------------

  /** Code that continues after a state m with fresh temporaries only and ends with the
      word of v. */
  ghost predicate Finishes(c: Context, start: State, lo: nat, m: State, code: Code, v: int, m': State)
  {
    && Runs(c, code.instrs, start, m')
    && Adds(lo, m, m')
    && lo <= code.next
    && Value(c, m', code.op) == Some(WordOf(v))
    && Small(code.op)
    && (code.op.Temp? ==> lo <= code.op.t < code.next)
  }

  /** Both operands, evaluated: a below b. */
  ghost predicate Operands(c: Context, start: State, a: Code, b: Code, m: State, x: int, y: int)
  {
    && Runs(c, a.instrs + b.instrs, start, m)
    && Value(c, m, a.op) == Some(WordOf(x)) && Value(c, m, b.op) == Some(WordOf(y))
    && Small(a.op) && Small(b.op) && Under(a.op, b.next) && Under(b.op, b.next)
  }

  predicate Under(op: Operand, n: nat) { op.Temp? ==> op.t < n }

  /** Conversion of both operands to a common type. */
  lemma ConvertedRuns(c: Context, start: State, a: Code, b: Code, m: State, x: int, y: int, ty: CType)
      returns (m': State)
    requires Operands(c, start, a, b, m, x, y)
    requires var (_, bc) := Converted(a, b, ty); Owned(c.frame, b.next, bc.next)
    ensures var (ac, bc) := Converted(a, b, ty);
      && Runs(c, a.instrs + b.instrs + ac.instrs + bc.instrs, start, m') && Adds(b.next, m, m')
      && b.next <= ac.next <= bc.next
      && Value(c, m', ac.op) == Some(WordOf(AtType(ty, x))) && Value(c, m', bc.op) == Some(WordOf(AtType(ty, y)))
  {
    hide Runs, BytesOf, Value, Small, Coerce, AtType;
    m' := TwoConverted(c, start, a.instrs + b.instrs, a.op, b.op, b.next, m, x, y, ty, ty);
  }

  lemma TwoConverted(c: Context, start: State, before: seq<Instr>, a: Operand, b: Operand, n: nat, m: State, x: int,
      y: int, ta: CType, tb: CType) returns (m': State)
    requires Runs(c, before, start, m) && Value(c, m, a) == Some(WordOf(x)) && Value(c, m, b) == Some(WordOf(y))
    requires Small(a) && Small(b) && Under(a, n) && Under(b, n)
    requires Owned(c.frame, n, Coerce(tb, b, Coerce(ta, a, n).next).next)
    ensures var ac := Coerce(ta, a, n);
      var bc := Coerce(tb, b, ac.next);
      && Runs(c, before + ac.instrs + bc.instrs, start, m') && Adds(n, m, m')
      && n <= ac.next <= bc.next
      && Value(c, m', ac.op) == Some(WordOf(AtType(ta, x))) && Value(c, m', bc.op) == Some(WordOf(AtType(tb, y)))
  {
    hide Runs, BytesOf, Value, Small, Coerce, AtType;
    var ac := Coerce(ta, a, n);
    var bc := Coerce(tb, b, ac.next);
    var m1 := CoerceRuns(c, ta, a, n, m, x);
    ValueAdds(c, n, m, m1, b);
    m' := CoerceRuns(c, tb, b, ac.next, m1, y);
    ValueAdds(c, ac.next, m1, m', ac.op);
    AddsBoth(n, ac.next, m, m1, m');
    RunsBoth(c, before, ac.instrs, start, m, m1);
    RunsBoth(c, before + ac.instrs, bc.instrs, start, m1, m');
  }

  lemma RelationRuns(c: Context, start: State, op: Operator, ty: CType, a: Code, b: Code, m: State, x: int, y: int)
      returns (m': State)
    requires IsRelation(op) && Operands(c, start, a, b, m, x, y) &&
        Owned(c.frame, b.next, LowerRelation(op, ty, a, b).next)
    ensures Finishes(c, start, b.next, m, LowerRelation(op, ty, a, b), Truth(Holds(op, AtType(ty, x), AtType(ty, y))),
        m')
  {
    hide Runs, BytesOf, Coerce, AtType, Operands, BinValue, Holds, RelationOp;
    var (ac, bc) := Converted(a, b, ty);
    var m1 := ConvertedRuns(c, start, a, b, m, x, y, ty);
    var u, v := AtType(ty, x), AtType(ty, y);
    RelationWord(op, ty, u, v);
    var w := WordOf(Truth(Holds(op, u, v)));
    BinRuns(c, bc.next, RelationOp(op, ty), ac.op, bc.op, m1, WordOf(u), WordOf(v), w);
    m' := Set(m1, bc.next, w);
    RunsBoth(c, a.instrs + b.instrs + ac.instrs + bc.instrs, [Bin(bc.next, RelationOp(op, ty), ac.op, bc.op)], start,
        m1, m');
    AddsBoth(b.next, bc.next, m, m1, m');
  }

  /** An operation into a fresh temporary, then a conversion of it. */
  lemma OperateRuns(c: Context, start: State, before: seq<Instr>, out: nat, iop: BinOp, a: Operand, b: Operand,
      m: State, l: Word, r: Word, v: int, ty: CType) returns (m': State)
    requires Runs(c, before, start, m) && Value(c, m, a) == Some(l) && Value(c, m, b) == Some(r) &&
        BinValue(iop, l, r) == Some(WordOf(v))
    requires Owned(c.frame, out, Coerce(ty, Temp(out), out + 1).next)
    ensures var cc := Coerce(ty, Temp(out), out + 1);
      Finishes(c, start, out, m, Code(before + [Bin(out, iop, a, b)] + cc.instrs, cc.op, cc.next), AtType(ty, v), m')
  {
    hide Runs, BytesOf, Coerce, AtType, BinValue;
    var cc := Coerce(ty, Temp(out), out + 1);
    BinRuns(c, out, iop, a, b, m, l, r, WordOf(v));
    var m1 := Set(m, out, WordOf(v));
    RunsBoth(c, before, [Bin(out, iop, a, b)], start, m, m1);
    m' := CoerceRuns(c, ty, Temp(out), out + 1, m1, v);
    RunsBoth(c, before + [Bin(out, iop, a, b)], cc.instrs, start, m1, m');
    AddsBoth(out, out + 1, m, m1, m');
  }

  lemma PlainRuns(c: Context, start: State, op: Operator, ty: CType, a: Code, b: Code, m: State, x: int, y: int)
      returns (m': State)
    requires Operands(c, start, a, b, m, x, y) && LowerPlain(op, ty, a, b).Some? &&
        Owned(c.frame, b.next, LowerPlain(op, ty, a, b).value.next)
    requires Exact(op, ty, AtType(ty, x), AtType(ty, y)).Some?
    ensures Finishes(c, start, b.next, m, LowerPlain(op, ty, a, b).value,
        AtType(ty, Exact(op, ty, AtType(ty, x), AtType(ty, y)).value), m')
  {
    hide Runs, BytesOf, Coerce, AtType, Operands, BinValue, Exact, ArithmeticOp;
    var (ac, bc) := Converted(a, b, ty);
    var m1 := ConvertedRuns(c, start, a, b, m, x, y, ty);
    var u, v := AtType(ty, x), AtType(ty, y);
    ExactWord(op, ty, u, v);
    m' := OperateRuns(c, start, a.instrs + b.instrs + ac.instrs + bc.instrs, bc.next, ArithmeticOp(op, ty).value,
        ac.op, bc.op, m1, WordOf(u), WordOf(v),
      Exact(op, ty, u, v).value, ty);
    AddsBoth(b.next, bc.next, m, m1, m');
  }

  lemma ShiftRuns(c: Context, start: State, op: Operator, ty: CType, a: Code, b: Code, m: State, x: int, n: int)
      returns (m': State)
    requires Operands(c, start, a, b, m, x, n) && LowerShift(op, ty, a, b).Some? &&
        Owned(c.frame, b.next, LowerShift(op, ty, a, b).value.next)
    requires IsShift(op) && InRange(ty, x) && Shifted(op, ty, x, n).Some?
    ensures Finishes(c, start, b.next, m, LowerShift(op, ty, a, b).value, AtType(ty, Shifted(op, ty, x, n).value), m')
  {
    hide Runs, BytesOf, Coerce, AtType, BinValue, Shifted, ArithmeticOp;
    ShiftWord(op, ty, x, n);
    m' := OperateRuns(c, start, a.instrs + b.instrs, b.next, ArithmeticOp(op, ty).value, a.op, b.op, m, WordOf(x),
        WordOf(n), Shifted(op, ty, x, n).value, ty);
  }

  // ---- Pointers ------------------------------------------------------------------------------

  lemma ScaledRuns(c: Context, start: State, before: seq<Instr>, op: Operand, size: nat, n: nat, m: State, y: int)
      returns (m': State)
    requires Runs(c, before, start, m) && Value(c, m, op) == Some(WordOf(y)) && Under(op, n) &&
        Owned(c.frame, n, ScaledOffset(op, size, n).next)
    ensures var sc := ScaledOffset(op, size, n);
      && n <= sc.next && Runs(c, before + sc.instrs, start, m') && Adds(n, m, m')
      && Value(c, m', sc.op) == Some(WordOf(y * size))
  {
    hide Runs, BytesOf, BinValue;
    m' := m;
    if size == 1 {
      assert before + [] == before;
    } else if op.Imm? {
      assert before + [] == before;
      ScaledImmediate(op.v, y, size);
    } else {
      ProductWord(y, size);
      BinRuns(c, n, Mul, op, Imm(size), m, WordOf(y), WordOf(size), WordOf(y * size));
      m' := Set(m, n, WordOf(y * size));
      RunsBoth(c, before, [Bin(n, Mul, op, Imm(size))], start, m, m');
    }
  }

  lemma ScaledImmediate(v: int, y: int, size: int)
    requires WordOf(v) == WordOf(y)
    ensures WordOf(v * size) == WordOf(y * size)
  {
    hide BytesOf;
    WordEqual(v, y);
    var k := CongruentBy(v, y);
    assert v * size == y * size + (k * size) * M64;
    WordShift(y * size, k * size);
  }

  lemma OffsetWord(up: bool, p: int, d: int)
    ensures BinValue(StepOp(up), WordOf(p), WordOf(d)) == Some(WordOf(if up then p + d else p - d))
  {
    SumWord(p, d);
  }

  lemma OffsetRuns(c: Context, start: State, up: bool, a: Code, b: Code, size: nat, m: State, x: int, y: int)
      returns (m': State)
    requires Operands(c, start, a, b, m, x, y) && Owned(c.frame, b.next, LowerOffset(StepOp(up), a, b, size).next)
    ensures Finishes(c, start, b.next, m, LowerOffset(StepOp(up), a, b, size), if up then x + y * size
        else x - y * size, m')
  {
    hide Runs, BytesOf, BinValue, ScaledOffset;
    var sc := ScaledOffset(b.op, size, b.next);
    var m1 := ScaledRuns(c, start, a.instrs + b.instrs, b.op, size, b.next, m, y);
    ValueAdds(c, b.next, m, m1, a.op);
    OffsetWord(up, x, y * size);
    var w := WordOf(if up then x + y * size else x - y * size);
    BinRuns(c, sc.next, StepOp(up), a.op, sc.op, m1, WordOf(x), WordOf(y * size), w);
    m' := Set(m1, sc.next, w);
    RunsBoth(c, a.instrs + b.instrs + sc.instrs, [Bin(sc.next, StepOp(up), a.op, sc.op)], start, m1, m');
    AddsBoth(b.next, sc.next, m, m1, m');
  }

  lemma DifferenceRuns(c: Context, start: State, a: Code, b: Code, size: nat, m: State, x: int, y: int)
      returns (m': State)
    requires Operands(c, start, a, b, m, x, y) && Owned(c.frame, b.next, b.next + 2) && 1 <= size <= 8
    ensures Finishes(c, start, b.next, m, LowerDifference(a, b, size), TruncDiv(Convert(Long, x - y), size), m')
  {
    hide Runs, BytesOf, BinValue, TruncDiv;
    SumWord(x, y);
    var m1 := Set(m, b.next, WordOf(x - y));
    BinRuns(c, b.next, Sub, a.op, b.op, m, WordOf(x), WordOf(y), WordOf(x - y));
    RunsBoth(c, a.instrs + b.instrs, [Bin(b.next, Sub, a.op, b.op)], start, m, m1);
    var d := Convert(Long, x - y);
    WideConvert(Long, x - y);
    QuotientRange(d, size);
    QuotientWord(Long, d, size);
    var w := WordOf(TruncDiv(d, size));
    BinRuns(c, b.next + 1, Div, Temp(b.next), Imm(size), m1, WordOf(x - y), WordOf(size), w);
    m' := Set(m1, b.next + 1, w);
    RunsBoth(c, a.instrs + b.instrs + [Bin(b.next, Sub, a.op, b.op)], [Bin(b.next + 1, Div, Temp(b.next), Imm(size))],
        start, m1, m');
    assert a.instrs + b.instrs + [Bin(b.next, Sub, a.op, b.op)] + [Bin(b.next + 1, Div, Temp(b.next), Imm(size))] ==
        LowerDifference(a, b, size).instrs;
    AddsBoth(b.next, b.next + 1, m, m1, m');
  }

  lemma QuotientRange(d: int, size: int)
    requires InRange(Long, d) && 1 <= size <= 8
    ensures InRange(Long, TruncDiv(d, size))
  {
    var q := Abs(d) / size;
    assert 0 <= q <= Abs(d) by { assert Abs(d) == size * q + Abs(d) % size; Integers.MulMono(q, 1, size); }
    if d < 0 && q == Abs(d) { assert TruncDiv(d, size) == -q; }
  }

  // ---- All binary operators --------------------------------------------------------------------

  /** The types of operands in range, and the words of pointers. */
  lemma OperatorRuns(c: Context, start: State, op: Operator, ta: CType, tb: CType, a: Code, b: Code, m: State, x: int,
      y: int) returns (m': State)
    requires Operands(c, start, a, b, m, x, y) && InRange(ta, x) && InRange(tb, y)
    requires LowerOperator(op, ta, tb, a, b).Some? && Owned(c.frame, b.next, LowerOperator(op, ta, tb, a, b).value.next)
    requires BinaryResult(op, ta, tb, x, y).Some?
    ensures Finishes(c, start, b.next, m, LowerOperator(op, ta, tb, a, b).value, BinaryResult(op, ta, tb, x, y).value,
        m')
  {
    hide Runs, BytesOf, Coerce, Operands, Converted, Exact, Shifted, ArithmeticOp, TruncDiv, Holds, Finishes, Convert,
        Usual;
    if IsRelation(op) {
      var ty := ComparedType(ta, tb).value;
      AtTypeOfValue(ty, ta, x);
      AtTypeOfValue(ty, tb, y);
      m' := RelationRuns(c, start, op, ty, a, b, m, x, y);
    } else if op.OpAdd? && ta.Ptr? {
      m' := OffsetRuns(c, start, true, a, b, SizeOf(ta.elem), m, x, y);
      FinishesWide(c, start, b.next, m, LowerOffset(Add, a, b, SizeOf(ta.elem)), ta, x + y * SizeOf(ta.elem), m');
    } else if op.OpSub? && ta.Ptr? && !tb.Ptr? {
      m' := OffsetRuns(c, start, false, a, b, SizeOf(ta.elem), m, x, y);
      FinishesWide(c, start, b.next, m, LowerOffset(Sub, a, b, SizeOf(ta.elem)), ta, x - y * SizeOf(ta.elem), m');
    } else if op.OpSub? && ta.Ptr? {
      m' := DifferenceRuns(c, start, a, b, SizeOf(ta.elem), m, x, y);
    } else if IsShift(op) {
      var ty := Promote(ta);
      PromotionPreservesValue(ta, x);
      m' := ShiftRuns(c, start, op, ty, a, b, m, x, y);
    } else {
      var ty := Arithmetic(ta, tb).value;
      AtTypeOfValue(ty, ta, x);
      AtTypeOfValue(ty, tb, y);
      m' := PlainRuns(c, start, op, ty, a, b, m, x, y);
      NotBool(ta, tb);
    }
  }

  lemma NotBool(ta: CType, tb: CType)
    requires IsInteger(ta) && IsInteger(tb)
    ensures Promoted(Promote(ta)) && Promoted(Promote(tb))
    ensures Promoted(Usual(Promote(ta), Promote(tb))) && !Usual(Promote(ta), Promote(tb)).Bool?
    ensures SizeOf(ta) <= SizeOf(Promote(ta)) <= SizeOf(Usual(Promote(ta), Promote(tb)))
  {
    UsualPromoted(Promote(ta), Promote(tb));
  }

  lemma FinishesWide(c: Context, start: State, lo: nat, m: State, code: Code, ty: CType, v: int, m': State)
    requires Finishes(c, start, lo, m, code, v, m') && SizeOf(ty) == 8
    ensures Finishes(c, start, lo, m, code, Convert(ty, v), m')
  {
    hide BytesOf;
    WideConvert(ty, v);
  }

  // ---- Compound assignment ------------------------------------------------------------------------

  /** What the operation of a compound assignment leaves before the last conversion. */
  ghost predicate Operated(c: Context, start: State, before: seq<Instr>, lo: nat, m: State, o: Code, raw: int,
      m': State)
  {
    && lo < o.next && o.op == Temp(o.next - 1)
    && Runs(c, before + o.instrs, start, m') && Adds(lo, m, m')
    && Value(c, m', o.op) == Some(WordOf(raw))
  }

  lemma CompoundRuns(c: Context, start: State, before: seq<Instr>, op: Operator, ta: CType, tb: CType, a: Operand,
      b: Operand, n: nat, m: State, x: int, y: int) returns (raw: int, m': State)
    requires Runs(c, before, start, m) && Value(c, m, a) == Some(WordOf(x)) && Value(c, m, b) == Some(WordOf(y))
    requires Small(a) && Small(b) && Under(a, n) && Under(b, n) && InRange(ta, x) && InRange(tb, y)
    requires LowerCompoundOp(op, ta, tb, a, b, n).Some? &&
        Owned(c.frame, n, LowerCompoundOp(op, ta, tb, a, b, n).value.next)
    requires CompoundResult(AsCompiled, op, ta, tb, x, y).Some?
    ensures Operated(c, start, before, n, m, LowerCompoundOp(op, ta, tb, a, b, n).value, raw, m')
    ensures AtType(ta, raw) == CompoundResult(AsCompiled, op, ta, tb, x, y).value
  {
    hide Runs, BytesOf, Coerce, Exact, Shifted, ArithmeticOp, Convert, Usual, BinValue, Operated, AtType;
    if ta.Ptr? {
      raw, m' := CompoundPointerRuns(c, start, before, op.OpAdd?, SizeOf(ta.elem), a, b, n, m, x, y);
      AtTypePointer(ta, raw);
      if SizeOf(ta.elem) == 1 { assert y * SizeOf(ta.elem) == y; }
    } else {
      var ty := OperationType(op, ta, tb).value;
      raw := Raw(op, ty, x, y).value;
      m' := CompoundIntegerRuns(c, start, before, op, ty, ta, tb, a, b, n, m, x, y);
      NotBool(ta, tb);
      if ta.Bool? { AtTypeBool(raw); } else { NarrowTwice(ta, ty, raw); }
    }
  }

  lemma AtTypeBool(v: int)
    ensures AtType(Bool, v) == Truth(v % M64 != 0)
  {
  }

  lemma AtTypePointer(ty: CType, v: int)
    requires ty.Ptr?
    ensures AtType(ty, v) == Convert(ty, v)
  {
  }

  lemma CompoundPointerRuns(c: Context, start: State, before: seq<Instr>, up: bool, size: nat, a: Operand, b: Operand,
      n: nat, m: State, x: int, y: int) returns (raw: int, m': State)
    requires Runs(c, before, start, m) && Value(c, m, a) == Some(WordOf(x)) && Value(c, m, b) == Some(WordOf(y)) &&
        Under(a, n) && Under(b, n)
    requires Owned(c.frame, n, if size == 1 then n + 1 else n + 2)
    ensures raw == if up then x + y * size else x - y * size
    ensures Operated(c, start, before, n, m,
      if size == 1 then Code([Bin(n, StepOp(up), a, b)], Temp(n), n + 1)
      else Code([Bin(n, Mul, b, Imm(size)), Bin(n + 1, StepOp(up), a, Temp(n))], Temp(n + 1), n + 2), raw, m')
  {
    hide Runs, BytesOf, BinValue;
    raw := if up then x + y * size else x - y * size;
    OffsetWord(up, x, y * size);
    if size == 1 {
      assert y * size == y;
      BinRuns(c, n, StepOp(up), a, b, m, WordOf(x), WordOf(y), WordOf(raw));
      m' := Set(m, n, WordOf(raw));
      RunsBoth(c, before, [Bin(n, StepOp(up), a, b)], start, m, m');
    } else {
      ProductWord(y, size);
      BinRuns(c, n, Mul, b, Imm(size), m, WordOf(y), WordOf(size), WordOf(y * size));
      var m1 := Set(m, n, WordOf(y * size));
      RunsBoth(c, before, [Bin(n, Mul, b, Imm(size))], start, m, m1);
      BinRuns(c, n + 1, StepOp(up), a, Temp(n), m1, WordOf(x), WordOf(y * size), WordOf(raw));
      m' := Set(m1, n + 1, WordOf(raw));
      RunsBoth(c, before + [Bin(n, Mul, b, Imm(size))], [Bin(n + 1, StepOp(up), a, Temp(n))], start, m1, m');
      assert before + [Bin(n, Mul, b, Imm(size))] + [Bin(n + 1, StepOp(up), a, Temp(n))] ==
          before + [Bin(n, Mul, b, Imm(size)), Bin(n + 1, StepOp(up), a, Temp(n))];
    }
  }

  lemma RawWord(op: Operator, ty: CType, x: int, y: int)
    requires Raw(op, ty, x, y).Some? && (IsShift(op) ==> y >= 0)
    ensures ArithmeticOp(op, ty).Some?
    ensures BinValue(ArithmeticOp(op, ty).value, WordOf(Convert(ty, x)),
        WordOf(if IsShift(op) then y else Convert(ty, y))) == Some(WordOf(Raw(op, ty, x, y).value))
  {
    hide BytesOf, BinValue, Exact, Shifted;
    if IsShift(op) { ShiftWord(op, ty, Convert(ty, x), y); } else { ExactWord(op, ty, Convert(ty, x), Convert(ty, y)); }
  }

  lemma CompoundIntegerRuns(c: Context, start: State, before: seq<Instr>, op: Operator, ty: CType, ta: CType,
      tb: CType, a: Operand, b: Operand, n: nat, m: State, x: int, y: int) returns (m': State)
    requires Runs(c, before, start, m) && Value(c, m, a) == Some(WordOf(x)) && Value(c, m, b) == Some(WordOf(y))
    requires Small(a) && Small(b) && Under(a, n) && Under(b, n) && InRange(ta, x) && InRange(tb, y)
    requires !ta.Ptr? && OperationType(op, ta, tb) == Some(ty) && Raw(op, ty, x, y).Some?
    requires LowerCompoundOp(op, ta, tb, a, b, n).Some? &&
        Owned(c.frame, n, LowerCompoundOp(op, ta, tb, a, b, n).value.next)
    ensures Operated(c, start, before, n, m, LowerCompoundOp(op, ta, tb, a, b, n).value, Raw(op, ty, x, y).value, m')
  {
    hide Runs, BytesOf, Coerce, ArithmeticOp, Convert, Usual, BinValue, AtType, Raw;
    var to := if IsShift(op) then Promote(tb) else ty;
    var ac := Coerce(ty, a, n);
    var bc := Coerce(to, b, ac.next);
    var iop := ArithmeticOp(op, ty).value;
    var m1 := TwoConverted(c, start, before, a, b, n, m, x, y, ty, to);
    AtTypeOfValue(ty, ta, x);
    AtTypeOfValue(to, tb, y);
    var u, v := AtType(ty, x), AtType(to, y);
    if IsShift(op) { ShiftCountKept(op, ty, tb, x, y); }
    RawWord(op, ty, x, y);
    var w := WordOf(Raw(op, ty, x, y).value);
    BinRuns(c, bc.next, iop, ac.op, bc.op, m1, WordOf(u), WordOf(v), w);
    m' := Set(m1, bc.next, w);
    RunsBoth(c, before + ac.instrs + bc.instrs, [Bin(bc.next, iop, ac.op, bc.op)], start, m1, m');
    assert before + ac.instrs + bc.instrs + [Bin(bc.next, iop, ac.op, bc.op)] ==
        before + (ac.instrs + bc.instrs + [Bin(bc.next, iop, ac.op, bc.op)]);
    AddsBoth(n, bc.next, m, m1, m');
  }

  lemma ShiftCountKept(op: Operator, ty: CType, tb: CType, x: int, y: int)
    requires IsShift(op) && Raw(op, ty, x, y).Some? && InRange(tb, y)
    ensures y >= 0 && Convert(Promote(tb), y) == y
  {
    PromotionPreservesValue(tb, y);
  }

  /** Converting to a narrower type forgets an earlier conversion to a wider one. */
  lemma NarrowTwice(ta: CType, ty: CType, v: int)
    requires !ty.Bool?
    requires !ta.Bool? && SizeOf(ta) <= SizeOf(ty)
    ensures AtType(ta, v) == Convert(ta, Convert(ty, v))
  {
    hide Convert, Modulus, SizeOf;
    var k := ConvertShifts(ty, v);
    NarrowShift(ta, ty, v, k);
    SameResidue(ta, v, Convert(ty, v));
  }

  /** A conversion adds a multiple of the type's range. */
  lemma ConvertShifts(ty: CType, v: int) returns (k: int)
    requires !ty.Bool?
    ensures Convert(ty, v) == v + k * Modulus(ty)
  {
    hide Convert, Modulus;
    ConvertCongruent(ty, v);
    k := (Convert(ty, v) - v) / Modulus(ty);
    DifferenceDivides(Convert(ty, v), v, Modulus(ty));
  }

  lemma SameResidue(ty: CType, v: int, w: int)
    requires !ty.Bool? && v % Modulus(ty) == w % Modulus(ty)
    ensures AtType(ty, v) == Convert(ty, w)
  {
  }

  lemma NarrowShift(ta: CType, ty: CType, v: int, k: int)
    requires SizeOf(ta) <= SizeOf(ty)
    ensures (v + k * Modulus(ty)) % Modulus(ta) == v % Modulus(ta)
  {
    var d, e := Modulus(ta), Modulus(ty);
    var n := if e == d then 1 else if d == 0x100
        then (if e == 0x1_0000 then 0x100 else if e == 0x1_0000_0000 then 0x100_0000 else 0x100_0000_0000_0000)
             else if d == 0x1_0000 then (if e == 0x1_0000_0000 then 0x1_0000 else 0x1_0000_0000_0000)
             else 0x1_0000_0000;
    assert e == n * d;
    assert k * e == d * (k * n);
    DivUnique(v + k * e, d, v / d + k * n, v % d);
  }
}
