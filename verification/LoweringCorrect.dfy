/** Every lowered expression simulates its evaluation. */
module LoweringCorrect {
  import opened Options
  import opened Words
  import opened Ir
  import opened CTypes
  import opened Integers
  import opened Source
  import opened Lowering
  import opened Represent
  import opened OperatorCorrect
  import opened ExprCorrect

  // ---- Conditionals -----------------------------------------------------------------------

  lemma CondRuns(c: Context, t: nat, ci: seq<Instr>, co: Operand, ti: seq<Instr>, to: Operand, fi: seq<Instr>,
      fo: Operand, m: State, m1: State, m2: State, v: int, x: Word)
    requires Runs(c, ci, m, m1) && Value(c, m1, co) == Some(WordOf(v)) && -M64 < v < M64
    requires if v != 0 then Runs(c, ti, m1, m2) && Value(c, m2, to) == Some(x)
        else Runs(c, fi, m1, m2) && Value(c, m2, fo) == Some(x)
    requires c.frame.Private(t)
    ensures Runs(c, [Cond(t, ci, co, ti, to, fi, fo)], m, Set(m2, t, x))
  {
    hide RunFrom, Value, BytesOf;
    ZeroWord(v);
    RunsOne(c, Cond(t, ci, co, ti, to, fi, fo), m, Set(m2, t, x));
  }

  /** The instructions reached s'; one instruction that contains them also sets t. */
  lemma ReachesSet(c: Context, g: Env, n: nat, hi: nat, instrs: seq<Instr>, whole: seq<Instr>, m: State, s: Config,
      s': Config, m': State, t: nat, w: Word)
    requires Reaches(c, g, n, hi, instrs, m, s, s', m') && hi <= t && VarsBelow(g, n) &&
        Runs(c, whole, m, Set(m', t, w))
    ensures Reaches(c, g, n, t + 1, whole, m, s, s', Set(m', t, w))
  {
    AddsRel(c, g, hi, s', m', Set(m', t, w));
  }

  lemma OperandUnder(g: Env, pending: set<nat>, op: Operand, lo: nat, hi: nat)
    requires OperandOf(g, pending, op, lo, hi) && VarsBelow(g, lo) && lo <= hi
    ensures Under(op, hi) && Small(op)
  {
  }

  lemma RangeBound(ty: CType, v: int)
    requires InRange(ty, v)
    ensures -M64 < v < M64
  {
  }

  lemma TempOperand(g: Env, pending: set<nat>, lo: nat, t: nat, hi: nat)
    requires lo <= t < hi
    ensures OperandOf(g, pending, Temp(t), lo, hi)
  {
  }

  lemma SetValue(c: Context, m: State, t: nat, w: Word)
    requires c.frame.Private(t)
    ensures Value(c, Set(m, t, w), Temp(t)) == Some(w)
  {
  }

  /** A conditional instruction whose test and taken arm reach s' yields the value of the arm. */
  lemma CondYields(c: Context, g: Env, n: nat, hi: nat, instrs: seq<Instr>, i: Instr, ty: CType, m: State, m1: State,
      m2: State, s: Config, s': Config, v: int, x: int)
    requires i.Cond? && Reaches(c, g, n, hi, instrs, m, s, s', m2) && hi <= i.t && VarsBelow(g, n) &&
        c.frame.Private(i.t) && InRange(ty, x)
    requires Runs(c, i.ci, m, m1) && Value(c, m1, i.co) == Some(WordOf(v)) && -M64 < v < M64
    requires if v != 0 then Runs(c, i.ti, m1, m2) && Value(c, m2, i.to) == Some(WordOf(x))
        else Runs(c, i.fi, m1, m2) && Value(c, m2, i.fo) == Some(WordOf(x))
    ensures Yields(c, g, {}, n, Code([i], Temp(i.t), i.t + 1), ty, m, s, Res(x, s'), Set(m2, i.t, WordOf(x)))
  {
    hide Rel, Runs, BytesOf, Value, Reaches, OperandOf, InRange;
    CondRuns(c, i.t, i.ci, i.co, i.ti, i.to, i.fi, i.fo, m, m1, m2, v, WordOf(x));
    ReachesSet(c, g, n, hi, instrs, [i], m, s, s', m2, i.t, WordOf(x));
    SetValue(c, m2, i.t, WordOf(x));
    ReachesFrom(c, g, n, hi, instrs, m, s, s', m2);
    TempOperand(g, {}, n, i.t, i.t + 1);
  }

  lemma ReachesFrom(c: Context, g: Env, n: nat, next: nat, a: seq<Instr>, m: State, s: Config, s1: Config, m1: State)
    requires Reaches(c, g, n, next, a, m, s, s1, m1)
    ensures n <= next && Runs(c, a, m, m1)
  {
  }

  // ---- Binary operators --------------------------------------------------------------------

  lemma BinaryResultInRange(op: Operator, ta: CType, tb: CType, x: int, y: int)
    requires BinaryResult(op, ta, tb, x, y).Some? && InRange(ta, x) && InRange(tb, y)
    ensures BinaryType(op, ta, tb).Some? && InRange(BinaryType(op, ta, tb).value, BinaryResult(op, ta, tb, x, y).value)
  {
    if IsRelation(op) {
      hide Convert, Usual, Promote, Holds, ComparedType;
    } else if (op.OpAdd? || op.OpSub?) && ta.Ptr? {
      PointerResult(op, ta, tb, x, y);
    } else {
      hide Convert, Usual, Promote, Raw, TruncDiv;
    }
  }

  lemma PointerResult(op: Operator, ta: CType, tb: CType, x: int, y: int)
    requires (op.OpAdd? || op.OpSub?) && ta.Ptr?
    ensures BinaryResult(op, ta, tb, x, y).Some? && BinaryType(op, ta, tb).Some?
    ensures InRange(BinaryType(op, ta, tb).value, BinaryResult(op, ta, tb, x, y).value)
  {
    hide Convert, TruncDiv, SizeOf;
    if op.OpSub? && tb.Ptr? { QuotientRange(Convert(Long, x - y), SizeOf(ta.elem)); }
  }

  lemma BinaryTypeSwaps(op: Operator, ta: CType, tb: CType)
    requires PointerLast(op, ta, tb)
    ensures BinaryType(op, ta, tb) == BinaryType(op, tb, ta)
  {
  }

  /** Two operands in the order they are evaluated, then the operator. */
  lemma OperandsRun(c: Context, g: Env, whole: Expr, op: Operator, first: Expr, second: Expr, ta: CType, tb: CType,
      n: nat, s: Config, m: State, ra: Res, rb: Res) returns (m': State)
    requires whole == Binary(op, first, second) || whole == Binary(op, second, first)
    requires ExprType(g, first) == Some(ta) && ExprType(g, second) == Some(tb)
    requires LowerExpr(g, first, n).Some? && LowerExpr(g, second, LowerExpr(g, first, n).value.next).Some?
    requires Eval(c, g, first, s) == Some(ra) && Eval(c, g, second, ra.s) == Some(rb) &&
        Steady(Pending(first), ra.s, rb.s)
    requires BinaryResult(op, ta, tb, ra.v, rb.v).Some?
    requires var a := LowerExpr(g, first, n).value;
      var b := LowerExpr(g, second, a.next).value;
      LowerOperator(op, ta, tb, a, b).Some? && Starts(c, g, n, LowerOperator(op, ta, tb, a, b).value.next, s, m)
    ensures var a := LowerExpr(g, first, n).value;
      var b := LowerExpr(g, second, a.next).value;
      && BinaryType(op, ta, tb).Some?
      && Yields(c, g, {}, n, LowerOperator(op, ta, tb, a, b).value, BinaryType(op, ta, tb).value, m, s,
          Res(BinaryResult(op, ta, tb, ra.v, rb.v).value, rb.s), m')
    decreases whole, 0, 0
  {
    hide LowerExpr, Eval, LowerOperator, BinaryResult, BinaryType, Rel, Runs, Value, BytesOf, Steady, Pending,
        OperandOf, Finishes, InRange;
    var a := LowerExpr(g, first, n).value;
    var b := LowerExpr(g, second, a.next).value;
    var m1 := ExprRuns(c, g, first, n, s, m);
    StartsLater(c, g, n, a.next, b.next, a.instrs, m, m1, s, ra.s);
    var m2 := ExprRuns(c, g, second, a.next, ra.s, m1);
    ReachesBoth(c, g, n, a.next, b.next, a.instrs, b.instrs, m, m1, m2, s, ra.s, rb.s);
    ValueStays(c, g, Pending(first), a.op, n, a.next, ra.s, m1, rb.s, m2, ra.v);
    OperandUnder(g, Pending(first), a.op, n, a.next);
    OperandUnder(g, Pending(second), b.op, a.next, b.next);
    BinaryResultInRange(op, ta, tb, ra.v, rb.v);
    m' := OperatorRuns(c, m, op, ta, tb, a, b, m2, ra.v, rb.v);
    FinishYields(c, g, {}, n, b.next, a.instrs + b.instrs, LowerOperator(op, ta, tb, a, b).value,
        BinaryType(op, ta, tb).value, m, m2, s, rb.s,
      BinaryResult(op, ta, tb, ra.v, rb.v).value, m');
  }

  lemma BooleanValue(c: Context, g: Env, e: Expr, s: Config)
    requires IsBoolean(e) && Eval(c, g, e, s).Some?
    ensures Eval(c, g, e, s).value.v == Truth(Eval(c, g, e, s).value.v != 0)
  {
  }

  lemma TruthRuns(c: Context, g: Env, e: Expr, n: nat, s: Config, m: State) returns (m': State)
    requires LowerTruth(g, e, n).Some? && Eval(c, g, e, s).Some? &&
        Starts(c, g, n, LowerTruth(g, e, n).value.next, s, m)
    ensures var r := Eval(c, g, e, s).value;
      Yields(c, g, Pending(e), n, LowerTruth(g, e, n).value, Int, m, s, Res(Truth(r.v != 0), r.s), m')
    decreases e, 2
  {
    hide LowerExpr, Eval, Rel, Runs, Value, BytesOf, Pending, BinValue;
    var a := LowerExpr(g, e, n).value;
    var r := Eval(c, g, e, s).value;
    m' := ExprRuns(c, g, e, n, s, m);
    if IsBoolean(e) {
      BooleanValue(c, g, e, s);
    } else {
      var m1 := m';
      OperandUnder(g, Pending(e), a.op, n, a.next);
      RangeBound(ExprType(g, e).value, r.v);
      NonzeroWord(r.v);
      ImmediateIs(c, m1, 0);
      var w := WordOf(Truth(r.v != 0));
      BinRuns(c, a.next, Ne, a.op, Imm(0), m1, WordOf(r.v), WordOf(0), w);
      m' := Set(m1, a.next, w);
      RunsBoth(c, a.instrs, [Bin(a.next, Ne, a.op, Imm(0))], m, m1, m');
      ReachesMore(c, g, n, a.next, a.next + 1, a.instrs, [Bin(a.next, Ne, a.op, Imm(0))], m, m1, m', s, r.s);
    }
  }

  lemma ImmediateIs(c: Context, m: State, v: int)
    ensures Value(c, m, Imm(v)) == Some(WordOf(v))
  {
  }

  lemma NonzeroWord(v: int)
    requires -M64 < v < M64
    ensures BinValue(Ne, WordOf(v), WordOf(0)) == Some(WordOf(Truth(v != 0)))
    ensures BinValue(Eq, WordOf(v), WordOf(0)) == Some(WordOf(Truth(v == 0)))
  {
    hide BytesOf;
    EqualWords(v, 0);
    TruthWord(v != 0);
    TruthWord(v == 0);
  }

  /** && and ||: the right operand is lowered into one arm of a conditional. */
  lemma LogicalRuns(c: Context, g: Env, op: Operator, l: Expr, r: Expr, n: nat, s: Config, m: State) returns (m': State)
    requires op.OpLogAnd? || op.OpLogOr?
    requires EvalLogical(c, g, op, l, r, s).Some? && LowerLogical(g, op, l, r, n).Some? &&
        Starts(c, g, n, LowerLogical(g, op, l, r, n).value.next, s, m)
    ensures Yields(c, g, {}, n, LowerLogical(g, op, l, r, n).value, Int, m, s, EvalLogical(c, g, op, l, r, s).value, m')
    decreases Binary(op, l, r), 0
  {
    hide *;
    LogicalParts(c, g, op, l, r, n, s, m);
    var a := LowerExpr(g, l, n).value;
    var b := LowerTruth(g, r, a.next).value;
    var ra := Eval(c, g, l, s).value;
    var m1 := ExprRuns(c, g, l, n, s, m);
    OperandYields(c, g, Pending(l), n, a, ExprType(g, l).value, m, s, ra, m1);
    if (ra.v != 0) == op.OpLogAnd? {
      var rb := Eval(c, g, r, ra.s).value;
      StartsLater(c, g, n, a.next, b.next, a.instrs, m, m1, s, ra.s);
      var m2 := TruthRuns(c, g, r, a.next, ra.s, m1);
      RightTaken(c, g, op, Pending(r), n, a, b, m, m1, m2, s, ra, rb);
      m' := Set(m2, b.next, WordOf(Truth(rb.v != 0)));
    } else {
      RightSkipped(c, g, op, n, a, b, m, m1, s, ra);
      m' := Set(m1, b.next, WordOf(Truth(op.OpLogOr?)));
    }
  }

  lemma OperandYields(c: Context, g: Env, pending: set<nat>, n: nat, a: Code, ty: CType, m: State, s: Config, r: Res,
      m1: State)
    requires Yields(c, g, pending, n, a, ty, m, s, r, m1)
    ensures Reaches(c, g, n, a.next, a.instrs, m, s, r.s, m1) && Value(c, m1, a.op) == Some(WordOf(r.v)) &&
        -M64 < r.v < M64
  {
    hide Rel, Runs, Value, BytesOf, OperandOf, Reaches;
    RangeBound(ty, r.v);
  }

  /** What the lowering and the meaning of && and || are made of. */
  lemma LogicalParts(c: Context, g: Env, op: Operator, l: Expr, r: Expr, n: nat, s: Config, m: State)
    requires op.OpLogAnd? || op.OpLogOr?
    requires EvalLogical(c, g, op, l, r, s).Some? && LowerLogical(g, op, l, r, n).Some? &&
        Starts(c, g, n, LowerLogical(g, op, l, r, n).value.next, s, m)
    ensures LowerExpr(g, l, n).Some? && Eval(c, g, l, s).Some?
    ensures var a, ra := LowerExpr(g, l, n).value, Eval(c, g, l, s).value;
      && LowerTruth(g, r, a.next).Some?
      && var b := LowerTruth(g, r, a.next).value;
      && LowerLogical(g, op, l, r, n).value == Code([LogicalCond(op, a, b)], Temp(b.next), b.next + 1)
      && Starts(c, g, n, a.next, s, m) && Starts(c, g, n, b.next, s, m) && VarsBelow(g, n) && c.frame.Private(b.next)
      && if (ra.v != 0) == op.OpLogAnd? then
           Eval(c, g, r, ra.s).Some? && EvalLogical(c, g, op, l, r, s) ==
               Some(Res(Truth(Eval(c, g, r, ra.s).value.v != 0), Eval(c, g, r, ra.s).value.s))
         else EvalLogical(c, g, op, l, r, s) == Some(Res(Truth(op.OpLogOr?), ra.s))
  {
    hide Rel, LowerTruth, LowerExpr, Eval;
  }

  lemma RightSkipped(c: Context, g: Env, op: Operator, n: nat, a: Code, b: Code, m: State, m1: State, s: Config,
      ra: Res)
    requires (op.OpLogAnd? || op.OpLogOr?) && (ra.v != 0) != op.OpLogAnd? && -M64 < ra.v < M64
    requires Reaches(c, g, n, a.next, a.instrs, m, s, ra.s, m1) && Value(c, m1, a.op) == Some(WordOf(ra.v))
    requires VarsBelow(g, n) && c.frame.Private(b.next) && a.next <= b.next
    ensures var v := Truth(op.OpLogOr?);
      Yields(c, g, {}, n, Code([LogicalCond(op, a, b)], Temp(b.next), b.next + 1), Int, m, s, Res(v, ra.s),
          Set(m1, b.next, WordOf(v)))
  {
    hide Rel, Runs, Value, BytesOf, OperandOf, Reaches, InRange;
    ReachesFrom(c, g, n, a.next, a.instrs, m, s, ra.s, m1);
    RunsNone(c, m1);
    ImmediateIs(c, m1, Truth(op.OpLogOr?));
    TruthInRange(op.OpLogOr?);
    CondYields(c, g, n, a.next, a.instrs, LogicalCond(op, a, b), Int, m, m1, m1, s, ra.s, ra.v, Truth(op.OpLogOr?));
  }

  /** The conditional of && or ||, from the two operands' code. */
  function LogicalCond(op: Operator, a: Code, b: Code): Instr
  {
    if op.OpLogAnd? then Cond(b.next, a.instrs, a.op, b.instrs, b.op, [], Imm(0))
        else Cond(b.next, a.instrs, a.op, [], Imm(1), b.instrs, b.op)
  }

  lemma RightTaken(c: Context, g: Env, op: Operator, pending: set<nat>, n: nat, a: Code, b: Code, m: State, m1: State,
      m2: State, s: Config, ra: Res, rb: Res)
    requires (op.OpLogAnd? || op.OpLogOr?) && (ra.v != 0) == op.OpLogAnd? && -M64 < ra.v < M64
    requires Reaches(c, g, n, a.next, a.instrs, m, s, ra.s, m1) && Value(c, m1, a.op) == Some(WordOf(ra.v))
    requires Yields(c, g, pending, a.next, b, Int, m1, ra.s, Res(Truth(rb.v != 0), rb.s), m2) && VarsBelow(g, n) &&
        c.frame.Private(b.next)
    ensures var v := Truth(rb.v != 0);
      Yields(c, g, {}, n, Code([LogicalCond(op, a, b)], Temp(b.next), b.next + 1), Int, m, s, Res(v, rb.s),
          Set(m2, b.next, WordOf(v)))
  {
    hide Rel, Runs, Value, BytesOf, OperandOf, Reaches, InRange;
    ReachesFrom(c, g, n, a.next, a.instrs, m, s, ra.s, m1);
    ReachesFrom(c, g, a.next, b.next, b.instrs, m1, ra.s, rb.s, m2);
    ReachesBoth(c, g, n, a.next, b.next, a.instrs, b.instrs, m, m1, m2, s, ra.s, rb.s);
    TruthInRange(rb.v != 0);
    CondYields(c, g, n, b.next, a.instrs + b.instrs, LogicalCond(op, a, b), Int, m, m1, m2, s, rb.s, ra.v,
        Truth(rb.v != 0));
  }

  /** ?: with both arms converted to the common type. */
  lemma ConditionalRuns(c: Context, g: Env, test: Expr, yes: Expr, no: Expr, n: nat, s: Config, m: State)
      returns (m': State)
    requires LowerConditional(g, test, yes, no, n).Some? && EvalConditional(c, g, test, yes, no, s).Some?
    requires Starts(c, g, n, LowerConditional(g, test, yes, no, n).value.next, s, m)
    ensures ExprType(g, Conditional(test, yes, no)).Some?
    ensures Yields(c, g, {}, n, LowerConditional(g, test, yes, no, n).value,
        ExprType(g, Conditional(test, yes, no)).value,
      m, s, EvalConditional(c, g, test, yes, no, s).value, m')
    decreases Conditional(test, yes, no), 0
  {
    hide Rel, Runs, Value, BytesOf, Pending, OperandOf, Convert, Coerce, Usual, ConditionalType, LowerExpr, Eval,
        Reaches, InRange;
    var e := Conditional(test, yes, no);
    var ty := ExprType(g, e).value;
    var code := LowerConditional(g, test, yes, no, n).value;
    var t := LowerExpr(g, test, n).value;
    var y := LowerExpr(g, yes, t.next).value;
    var z := LowerExpr(g, no, y.next).value;
    var yc := Coerce(ty, y.op, z.next);
    var zc := Coerce(ty, z.op, yc.next);
    var rt := Eval(c, g, test, s).value;
    var ra := Eval(c, g, if rt.v != 0 then yes else no, rt.s).value;
    var m1 := ExprRuns(c, g, test, n, s, m);
    RangeBound(ExprType(g, test).value, rt.v);
    ReachesFrom(c, g, n, t.next, t.instrs, m, s, rt.s, m1);
    assert c.frame.Private(zc.next);
    var v, i := Convert(ty, ra.v), code.instrs[0];
    if rt.v != 0 {
      StartsLater(c, g, n, t.next, zc.next + 1, t.instrs, m, m1, s, rt.s);
      var m2 := ArmRuns(c, g, yes, ty, t.next, z.next, zc.next + 1, rt.s, m1);
      ReachesFrom(c, g, t.next, yc.next, y.instrs + yc.instrs, m1, rt.s, ra.s, m2);
      ReachesBoth(c, g, n, t.next, yc.next, t.instrs, y.instrs + yc.instrs, m, m1, m2, s, rt.s, ra.s);
      CondYields(c, g, n, yc.next, t.instrs + (y.instrs + yc.instrs), i, ty, m, m1, m2, s, ra.s, rt.v, v);
      m' := Set(m2, zc.next, WordOf(v));
    } else {
      StartsLaterSkip(c, g, n, t.next, y.next, zc.next + 1, t.instrs, m, m1, s, rt.s);
      var m2 := ArmRuns(c, g, no, ty, y.next, yc.next, zc.next + 1, rt.s, m1);
      ReachesSkip(c, g, n, t.next, y.next, t.instrs, m, m1, s, rt.s);
      ReachesFrom(c, g, y.next, zc.next, z.instrs + zc.instrs, m1, rt.s, ra.s, m2);
      ReachesBoth(c, g, n, y.next, zc.next, t.instrs, z.instrs + zc.instrs, m, m1, m2, s, rt.s, ra.s);
      CondYields(c, g, n, zc.next, t.instrs + (z.instrs + zc.instrs), i, ty, m, m1, m2, s, ra.s, rt.v, v);
      m' := Set(m2, zc.next, WordOf(v));
    }
  }

  lemma ReachesSkip(c: Context, g: Env, n: nat, mid: nat, next: nat, a: seq<Instr>, m: State, m1: State, s: Config,
      s1: Config)
    requires Reaches(c, g, n, mid, a, m, s, s1, m1) && mid <= next
    ensures Reaches(c, g, n, next, a, m, s, s1, m1)
  {
  }

  lemma StartsLaterSkip(c: Context, g: Env, n: nat, mid: nat, skip: nat, next: nat, a: seq<Instr>, m: State, m1: State,
      s: Config, s1: Config)
    requires Starts(c, g, n, next, s, m) && Reaches(c, g, n, mid, a, m, s, s1, m1) && mid <= skip <= next
    ensures Starts(c, g, skip, next, s1, m1)
  {
  }

  /** An arm, with its conversion lowered after fresh temporaries of the other arm. */
  lemma ArmRuns(c: Context, g: Env, e: Expr, ty: CType, n: nat, at: nat, next: nat, s: Config, m: State)
      returns (m': State)
    requires LowerExpr(g, e, n).Some? && Eval(c, g, e, s).Some? && LowerExpr(g, e, n).value.next <= at
    requires Coerce(ty, LowerExpr(g, e, n).value.op, at).next <= next && Starts(c, g, n, next, s, m)
    ensures var a := LowerExpr(g, e, n).value;
      var cc := Coerce(ty, a.op, at);
      var r := Eval(c, g, e, s).value;
      && Reaches(c, g, n, cc.next, a.instrs + cc.instrs, m, s, r.s, m')
      && Value(c, m', cc.op) == Some(WordOf(Convert(ty, r.v)))
    decreases e, 2
  {
    hide LowerExpr, Eval, Rel, Runs, Value, BytesOf, Convert, Coerce, AtType, Pending;
    var a := LowerExpr(g, e, n).value;
    var cc := Coerce(ty, a.op, at);
    var r := Eval(c, g, e, s).value;
    var m1 := ExprRuns(c, g, e, n, s, m);
    m' := CoerceRuns(c, ty, a.op, at, m1, r.v);
    AtTypeOfValue(ty, ExprType(g, e).value, r.v);
    RunsBoth(c, a.instrs, cc.instrs, m, m1, m');
    AddsLower(a.next, at, m1, m');
    ReachesMore(c, g, n, a.next, cc.next, a.instrs, cc.instrs, m, m1, m', s, r.s);
  }

  lemma AddsLower(lo: nat, hi: nat, m: State, m': State)
    requires Adds(hi, m, m') && lo <= hi
    ensures Adds(lo, m, m')
  {
  }

  // ---- Unary operators -----------------------------------------------------------------------

  lemma NotRuns(c: Context, g: Env, x: Expr, n: nat, s: Config, m: State) returns (m': State)
    requires LowerExpr(g, x, n).Some? && Eval(c, g, x, s).Some? &&
        Starts(c, g, n, LowerExpr(g, x, n).value.next + 2, s, m)
    ensures var a := LowerExpr(g, x, n).value;
      var r := Eval(c, g, x, s).value;
      Yields(c, g, {}, n, Code(a.instrs + [Const(a.next, 0), Bin(a.next + 1, Eq, a.op, Temp(a.next))],
          Temp(a.next + 1), a.next + 2), Int,
        m, s, Res(Truth(r.v == 0), r.s), m')
    decreases x, 3
  {
    hide Rel, Runs, Value, BytesOf, OperandOf, InRange, BinValue, LowerExpr, Eval, Pending;
    var a := LowerExpr(g, x, n).value;
    var r := Eval(c, g, x, s).value;
    var zero := a.next;
    var m1, m2 := ZeroRuns(c, g, x, n, s, m);
    RangeBound(ExprType(g, x).value, r.v);
    NonzeroWord(r.v);
    TruthInRange(r.v == 0);
    var w := WordOf(Truth(r.v == 0));
    BinRuns(c, zero + 1, Eq, a.op, Temp(zero), m2, WordOf(r.v), WordOf(0), w);
    m' := Set(m2, zero + 1, w);
    RunsBoth(c, a.instrs + [Const(zero, 0)], [Bin(zero + 1, Eq, a.op, Temp(zero))], m, m2, m');
    var tail := [Const(zero, 0), Bin(zero + 1, Eq, a.op, Temp(zero))];
    assert a.instrs + [Const(zero, 0)] + [Bin(zero + 1, Eq, a.op, Temp(zero))] == a.instrs + tail;
    AddsBoth(zero, zero + 1, m1, m2, m');
    ReachesMore(c, g, n, zero, zero + 2, a.instrs, tail, m, m1, m', s, r.s);
    TempOperand(g, {}, n, zero + 1, zero + 2);
    assert c.frame.Private(zero + 1);
  }

  /** An operand, then the constant zero. */
  lemma ZeroRuns(c: Context, g: Env, x: Expr, n: nat, s: Config, m: State) returns (m1: State, m2: State)
    requires LowerExpr(g, x, n).Some? && Eval(c, g, x, s).Some? &&
        Starts(c, g, n, LowerExpr(g, x, n).value.next + 1, s, m)
    ensures ExprType(g, x).Some?
    ensures var a := LowerExpr(g, x, n).value;
      var r := Eval(c, g, x, s).value;
      && Yields(c, g, Pending(x), n, a, ExprType(g, x).value, m, s, r, m1)
      && Runs(c, a.instrs + [Const(a.next, 0)], m, m2) && Adds(a.next, m1, m2)
      && Value(c, m2, a.op) == Some(WordOf(r.v)) && Value(c, m2, Temp(a.next)) == Some(WordOf(0))
    decreases x, 2
  {
    hide Rel, Runs, Value, BytesOf, OperandOf, LowerExpr, Eval, Pending;
    var a := LowerExpr(g, x, n).value;
    var r := Eval(c, g, x, s).value;
    m1 := ExprRuns(c, g, x, n, s, m);
    OperandUnder(g, Pending(x), a.op, n, a.next);
    m2 := Set(m1, a.next, WordOf(0));
    ConstRuns(c, a.next, 0, m1);
    ValueAdds(c, a.next, m1, m2, a.op);
    RunsBoth(c, a.instrs, [Const(a.next, 0)], m, m1, m2);
  }

  lemma NegationRuns(c: Context, g: Env, uop: UnaryOperator, x: Expr, ty: CType, n: nat, s: Config, m: State)
      returns (m': State)
    requires (uop.Minus? || uop.Complement?) && ExprType(g, x) == Some(ty) && !ty.Ptr?
    requires LowerExpr(g, x, n).Some? && Eval(c, g, x, s).Some? &&
        Starts(c, g, n, NegateCode(uop, Promote(ty), LowerExpr(g, x, n).value).next, s, m)
    ensures var a := LowerExpr(g, x, n).value;
      var r := Eval(c, g, x, s).value;
      Yields(c, g, {}, n, NegateCode(uop, Promote(ty), a), Promote(ty), m, s,
          Res(Convert(Promote(ty), if uop.Minus? then -r.v else -r.v - 1), r.s), m')
    decreases x, 3
  {
    hide Rel, Runs, Value, BytesOf, OperandOf, InRange, Coerce, LowerExpr, Eval, Pending, Convert, Promote, AtType;
    var a := LowerExpr(g, x, n).value;
    var r := Eval(c, g, x, s).value;
    var m1, m2 := ZeroRuns(c, g, x, n, s, m);
    var code := NegateCode(uop, Promote(ty), a);
    m' := NegateRuns(c, uop, Promote(ty), a.instrs + [Const(a.next, 0)], a, r.v, m, m1, m2);
    NegatedValue(ty, uop, r.v);
    FinishYields(c, g, {}, n, a.next, a.instrs, code, Promote(ty), m, m1, s, r.s,
        Convert(Promote(ty), if uop.Minus? then -r.v else -r.v - 1), m');
  }

  lemma TruthInRange(b: bool)
    ensures InRange(Int, Truth(b))
  {
  }

  lemma NegatedValue(ty: CType, uop: UnaryOperator, v: int)
    requires !ty.Ptr?
    ensures AtType(Promote(ty), if uop.Minus? then 0 - v else 0 - v - 1) ==
        Convert(Promote(ty), if uop.Minus? then -v else -v - 1)
    ensures InRange(Promote(ty), Convert(Promote(ty), if uop.Minus? then -v else -v - 1))
  {
  }

  /** The subtractions of - and ~, and the conversion of their result. */
  lemma NegateRuns(c: Context, uop: UnaryOperator, ty: CType, before: seq<Instr>, a: Code, v: int, m: State, m1: State,
      m2: State) returns (m': State)
    requires uop.Minus? || uop.Complement?
    requires before == a.instrs + [Const(a.next, 0)] && Runs(c, before, m, m2) && Adds(a.next, m1, m2)
    requires Value(c, m2, a.op) == Some(WordOf(v)) && Value(c, m2, Temp(a.next)) == Some(WordOf(0))
    requires Owned(c.frame, a.next, NegateCode(uop, ty, a).next)
    ensures a.instrs <= NegateCode(uop, ty, a).instrs
    ensures Finishes(c, m, a.next, m1, NegateCode(uop, ty, a), AtType(ty, if uop.Minus? then 0 - v else 0 - v - 1), m')
  {
    hide Runs, Value, BytesOf, Coerce, AtType, BinValue;
    var zero := a.next;
    SumWord(0, v);
    if uop.Minus? {
      m' := OperateRuns(c, m, before, zero + 1, Sub, Temp(zero), a.op, m2, WordOf(0), WordOf(v), 0 - v, ty);
      assert a.instrs + [Const(zero, 0), Bin(zero + 1, Sub, Temp(zero), a.op)] ==
          before + [Bin(zero + 1, Sub, Temp(zero), a.op)];
      AddsBoth(zero, zero + 1, m1, m2, m');
    } else {
      BinRuns(c, zero + 1, Sub, Temp(zero), a.op, m2, WordOf(0), WordOf(v), WordOf(0 - v));
      var m3 := Set(m2, zero + 1, WordOf(0 - v));
      RunsBoth(c, before, [Bin(zero + 1, Sub, Temp(zero), a.op)], m, m2, m3);
      SumWord(0 - v, 1);
      ImmediateIs(c, m3, 1);
      m' := OperateRuns(c, m, before + [Bin(zero + 1, Sub, Temp(zero), a.op)], zero + 2, Sub, Temp(zero + 1), Imm(1),
          m3, WordOf(0 - v), WordOf(1), 0 - v - 1, ty);
      assert a.instrs + [Const(zero, 0), Bin(zero + 1, Sub, Temp(zero), a.op),
          Bin(zero + 2, Sub, Temp(zero + 1), Imm(1))] ==
        before + [Bin(zero + 1, Sub, Temp(zero), a.op)] + [Bin(zero + 2, Sub, Temp(zero + 1), Imm(1))];
      AddsBoth(zero, zero + 1, m1, m2, m3);
      AddsBoth(zero, zero + 2, m1, m3, m');
    }
  }

  // ---- Assignments -------------------------------------------------------------------------------

  lemma PlaceRuns(c: Context, g: Env, target: Expr, n: nat, next: nat, s: Config, m: State) returns (m': State)
    requires LowerPlace(g, target, n).Some? && EvalPlace(c, g, target, s).Some? && ExprType(g, target).Some?
    requires Starts(c, g, n, next, s, m) && LowerPlace(g, target, n).value.next <= next
    ensures var p := LowerPlace(g, target, n).value;
      var r := EvalPlace(c, g, target, s).value;
      && Reaches(c, g, n, p.next, p.instrs, m, s, r.s, m')
      && Denotes(c, g, n, p, r.place, m', ExprType(g, target).value, PendingPlace(target))
    decreases target, 0, 0
  {
    hide Rel, Runs, BytesOf, Pending;
    m' := m;
    match target
    case Var(_) => ReachesNone(c, g, n, m, s);
    case GlobalVar(name) =>
      ReachesNone(c, g, n, m, s);
      AddressWord(c.world.global(name));
    case Deref(p) =>
      m' := ExprRuns(c, g, p, n, s, m);
      RangeBound(ExprType(g, p).value, Eval(c, g, p, s).value.v);
  }

  lemma AddressWord(w: Word)
    ensures Unsigned(w) < M64 && WordOf(Unsigned(w)) == w
  {
    UnsignedBound(w);
    BytesOfUnsigned(w);
    ModulusIsPower(ULong);
  }

  lemma AssignmentRuns(c: Context, g: Env, target: Expr, x: Expr, n: nat, s: Config, m: State) returns (m': State)
    requires LowerAssignment(g, target, x, n).Some? && EvalAssignment(c, g, target, x, s).Some?
    requires Starts(c, g, n, LowerAssignment(g, target, x, n).value.next, s, m)
    ensures ExprType(g, target).Some?
    ensures Yields(c, g, Pending(x), n, LowerAssignment(g, target, x, n).value, ExprType(g, target).value, m, s,
        EvalAssignment(c, g, target, x, s).value, m')
    decreases Assignment(target, x), 0
  {
    hide Rel, Runs, Value, BytesOf, Pending, OperandOf, LowerExpr, Eval, LowerPlace, EvalPlace, Convert, Coerce,
        Denotes, Put, AtType, Steady, Fetch, InRange, WritePlace;
    var ty := ExprType(g, target).value;
    var p, pr := LowerPlace(g, target, n).value, EvalPlace(c, g, target, s).value;
    var a, r := LowerExpr(g, x, p.next).value, Eval(c, g, x, pr.s).value;
    var next := LowerAssignment(g, target, x, n).value.next;
    var m1 := PlaceRuns(c, g, target, n, next, s, m);
    PlaceType(c, g, n, p, pr.place, m1, ty, PendingPlace(target));
    StartsLater(c, g, n, p.next, next, p.instrs, m, m1, s, pr.s);
    var m2 := ExprRuns(c, g, x, p.next, pr.s, m1);
    ReachesBoth(c, g, n, p.next, a.next, p.instrs, a.instrs, m, m1, m2, s, pr.s, r.s);
    DenotesStays(c, g, n, p, pr.place, ty, PendingPlace(target), pr.s, m1, r.s, m2);
    OperandWider(g, Pending(x), a.op, p.next, a.next, n);
    var both := Code(p.instrs + a.instrs, a.op, a.next);
    var v := Convert(ty, r.v);
    var m3 := CoercedValue(c, g, Pending(x), n, both, ExprType(g, x).value, ty, m, s, r, m2);
    var cc := Coerce(ty, a.op, a.next);
    DenotesAdds(c, g, n, p, pr.place, ty, PendingPlace(target), a.next, m2, m3);
    AtTypeItself(ty, v);
    m' := WriteReaches(c, g, n, cc.next, p.instrs + a.instrs + cc.instrs, p, pr.place, PendingPlace(target), ty, cc.op,
        v, v, m, m3, s, r.s,
      EvalAssignment(c, g, target, x, s).value.s);
  }

  lemma PlaceType(c: Context, g: Env, n: nat, p: PlaceCode, place: Place, m: State, ty: CType, pending: set<nat>)
    requires Denotes(c, g, n, p, place, m, ty, pending)
    ensures p.place.ty == ty
  {
  }

  lemma OperandWider(g: Env, pending: set<nat>, op: Operand, lo: nat, hi: nat, lo': nat)
    requires OperandOf(g, pending, op, lo, hi) && lo' <= lo
    ensures OperandOf(g, pending, op, lo', hi)
  {
  }

  lemma AtTypeItself(ty: CType, v: int)
    requires InRange(ty, v)
    ensures AtType(ty, v) == v
  {
  }

  /** CoerceYields, saying also that only fresh temporaries changed. */
  lemma CoercedValue(c: Context, g: Env, pending: set<nat>, n: nat, a: Code, ta: CType, ty: CType, m: State, s: Config,
      r: Res, m1: State) returns (m': State)
    requires Yields(c, g, pending, n, a, ta, m, s, r, m1) && VarsBelow(g, n) &&
        Owned(c.frame, a.next, Coerce(ty, a.op, a.next).next)
    ensures var cc := Coerce(ty, a.op, a.next);
      && Yields(c, g, pending, n, Code(a.instrs + cc.instrs, cc.op, cc.next), ty, m, s, Res(Convert(ty, r.v), r.s), m')
      && Adds(a.next, m1, m')
  {
    hide Rel, Runs, Coerce, Value, BytesOf, Convert, InRange, AtType;
    var cc := Coerce(ty, a.op, a.next);
    m' := CoerceRuns(c, ty, a.op, a.next, m1, r.v);
    AtTypeOfValue(ty, ta, r.v);
    RunsBoth(c, a.instrs, cc.instrs, m, m1, m');
    ReachesMore(c, g, n, a.next, cc.next, a.instrs, cc.instrs, m, m1, m', s, r.s);
  }

  lemma PlaceForm(g: Env, target: Expr, n: nat)
    requires LowerPlace(g, target, n).Some?
    ensures var place := LowerPlace(g, target, n).value.place;
        Pending(target) == if place.LLocal? then {place.t} else {}
  {
  }

  /** A place and its current value. */
  lemma CurrentRuns(c: Context, g: Env, target: Expr, n: nat, next: nat, s: Config, m: State)
      returns (m1: State, m2: State)
    requires LowerPlace(g, target, n).Some? && EvalPlace(c, g, target, s).Some? && ExprType(g, target).Some?
    requires var p := LowerPlace(g, target, n).value;
        ReadPlace(p.place, p.next).next <= next && Starts(c, g, n, next, s, m)
    requires var r := EvalPlace(c, g, target, s).value; Fetch(c, ExprType(g, target).value, r.place, r.s).Some?
    ensures var p := LowerPlace(g, target, n).value;
      var r := EvalPlace(c, g, target, s).value;
      var ty := ExprType(g, target).value;
      var cur := ReadPlace(p.place, p.next);
      && Reaches(c, g, n, p.next, p.instrs, m, s, r.s, m1)
      && Denotes(c, g, n, p, r.place, m1, ty, PendingPlace(target))
      && Yields(c, g, Pending(target), p.next, cur, ty, m1, r.s, Res(Fetch(c, ty, r.place, r.s).value, r.s), m2)
      && Adds(p.next, m1, m2)
      && Reaches(c, g, n, cur.next, p.instrs + cur.instrs, m, s, r.s, m2)
    decreases target, 1, 0
  {
    hide Rel, Runs, Value, BytesOf, LowerExpr, Eval, Convert, Coerce, Fetch, InRange, ReadPlace, Pending, LowerPlace,
        EvalPlace, Denotes;
    var p, r := LowerPlace(g, target, n).value, EvalPlace(c, g, target, s).value;
    var ty := ExprType(g, target).value;
    PlaceForm(g, target, n);
    m1 := PlaceRuns(c, g, target, n, next, s, m);
    StartsLater(c, g, n, p.next, next, p.instrs, m, m1, s, r.s);
    m2 := PlaceReads(c, g, target, n, p, r.place, ty, m1, r.s, Fetch(c, ty, r.place, r.s).value);
    var cur := ReadPlace(p.place, p.next);
    ReachesBoth(c, g, n, p.next, cur.next, p.instrs, cur.instrs, m, m1, m2, s, r.s, r.s);
  }

  lemma VariableValue(c: Context, g: Env, x: nat, s: Config)
    requires Eval(c, g, Var(x), s).Some?
    ensures x in g.vars && x in s.vars && Eval(c, g, Var(x), s) == Some(Res(s.vars[x], s))
  {
    assert Eval(c, g, Var(x), s) == EvalRead(c, g, Var(x), s);
    assert EvalPlace(c, g, Var(x), s) == Some(PlaceRes(Local(x), s));
    assert ExprType(g, Var(x)).Some?;
  }

  lemma StepWord(up: bool, ty: CType, v: int)
    ensures BinValue(StepOp(up), WordOf(v), WordOf(StepOf(ty))) == Some(WordOf(Stepped(up, ty, v)))
  {
    hide BytesOf, BinValue;
    SumWord(v, StepOf(ty));
  }

  lemma SteppedAtType(up: bool, ty: CType, v: int)
    requires InRange(ty, v)
    ensures AtType(ty, Stepped(up, ty, v)) == Convert(ty, Stepped(up, ty, v))
  {
  }

  /** A step into a fresh temporary, converted to the type. */
  lemma SteppedRuns(c: Context, start: State, before: seq<Instr>, up: bool, a: Operand, out: nat, ty: CType, m: State,
      v: int) returns (m': State)
    requires Runs(c, before, start, m) && Value(c, m, a) == Some(WordOf(v)) && InRange(ty, v)
    requires Owned(c.frame, out, Coerce(ty, Temp(out), out + 1).next)
    ensures var cc := Coerce(ty, Temp(out), out + 1);
      Finishes(c, start, out, m, Code(before + [Bin(out, StepOp(up), a, Imm(StepOf(ty)))] + cc.instrs, cc.op, cc.next),
          Convert(ty, Stepped(up, ty, v)), m')
  {
    hide Runs, Value, BytesOf, BinValue, Coerce, Finishes, Stepped, AtType, Convert;
    ImmediateIs(c, m, StepOf(ty));
    StepWord(up, ty, v);
    SteppedAtType(up, ty, v);
    m' := OperateRuns(c, start, before, out, StepOp(up), a, Imm(StepOf(ty)), m, WordOf(v), WordOf(StepOf(ty)),
        Stepped(up, ty, v), ty);
  }

  lemma PrefixRuns(c: Context, g: Env, up: bool, target: Expr, n: nat, s: Config, m: State) returns (m': State)
    requires LowerPrefix(g, up, target, n).Some? && EvalPrefix(c, g, up, target, s).Some? &&
        Starts(c, g, n, LowerPrefix(g, up, target, n).value.next, s, m)
    ensures ExprType(g, target).Some?
    ensures Yields(c, g, {}, n, LowerPrefix(g, up, target, n).value, ExprType(g, target).value, m, s,
        EvalPrefix(c, g, up, target, s).value, m')
    decreases target, 2
  {
    hide Rel, Runs, Value, BytesOf, Pending, LowerExpr, Eval, LowerPlace, EvalPlace, Convert, Coerce, Denotes, Put,
        AtType, Fetch, InRange, WritePlace, ReadPlace, Stepped, ExprType, OperandOf, PendingPlace, Finishes, Reaches;
    var ty := ExprType(g, target).value;
    var p, pr := LowerPlace(g, target, n).value, EvalPlace(c, g, target, s).value;
    var cur, v := ReadPlace(p.place, p.next), Fetch(c, ty, pr.place, pr.s).value;
    var result := EvalPrefix(c, g, up, target, s).value;
    var next := LowerPrefix(g, up, target, n).value.next;
    var m1, m2 := CurrentRuns(c, g, target, n, next, s, m);
    ReachesFrom(c, g, n, cur.next, p.instrs + cur.instrs, m, s, pr.s, m2);
    PlaceType(c, g, n, p, pr.place, m1, ty, PendingPlace(target));
    var m3 := SteppedRuns(c, m, p.instrs + cur.instrs, up, cur.op, cur.next, ty, m2, v);
    DenotesAdds(c, g, n, p, pr.place, ty, PendingPlace(target), p.next, m1, m2);
    var cc := Coerce(ty, Temp(cur.next), cur.next + 1);
    var before := p.instrs + cur.instrs + [Bin(cur.next, StepOp(up), cur.op, Imm(StepOf(ty)))] + cc.instrs;
    m' := WriteFresh(c, g, n, cur.next, p.instrs + cur.instrs, Code(before, cc.op, cc.next), p, pr.place,
        PendingPlace(target), ty, result.v, m, m2, m3, s, pr.s, result.s);
  }

  /** The end of a modifying assignment: the new value, in fresh temporaries, is written
      to the place and is the result. */
  lemma WriteFresh(c: Context, g: Env, n: nat, lo: nat, before: seq<Instr>, code: Code, p: PlaceCode, place: Place,
      pending: set<nat>, ty: CType, v: int, m: State, m2: State, m3: State, s: Config, s1: Config, s': Config)
      returns (m': State)
    requires Reaches(c, g, n, lo, before, m, s, s1, m2) && VarsBelow(g, n) && n <= p.next <= lo &&
        before <= code.instrs && Owned(c.frame, lo, code.next)
    requires Denotes(c, g, n, p, place, m2, ty, pending)
    requires Finishes(c, m, lo, m2, code, v, m3) && InRange(ty, v) && Put(c, ty, place, v, s1) == Some(s')
    ensures Yields(c, g, {}, n, Code(code.instrs + WritePlace(p.place, code.op), code.op, code.next), ty, m, s,
        Res(v, s'), m')
  {
    hide Rel, Runs, Value, BytesOf, Denotes, Put, AtType, InRange, WritePlace;
    DenotesAdds(c, g, n, p, place, ty, pending, lo, m2, m3);
    assert before + code.instrs[|before|..] == code.instrs;
    ReachesMore(c, g, n, lo, code.next, before, code.instrs[|before|..], m, m2, m3, s, s1);
    AtTypeItself(ty, v);
    m' := WriteReaches(c, g, n, code.next, code.instrs, p, place, pending, ty, code.op, v, v, m, m3, s, s1, s');
  }

  lemma PostfixRuns(c: Context, g: Env, up: bool, target: Expr, n: nat, s: Config, m: State) returns (m': State)
    requires LowerPostfix(g, up, target, n).Some? && EvalPostfix(c, g, up, target, s).Some? &&
        Starts(c, g, n, LowerPostfix(g, up, target, n).value.next, s, m)
    ensures ExprType(g, target).Some?
    ensures Yields(c, g, {}, n, LowerPostfix(g, up, target, n).value, ExprType(g, target).value, m, s,
        EvalPostfix(c, g, up, target, s).value, m')
    decreases Postfix(up, target), 0
  {
    hide Rel, Runs, Value, BytesOf, Pending, LowerExpr, Eval, LowerPlace, EvalPlace, Convert, Denotes, Put, AtType,
        Fetch, InRange, WritePlace, ReadPlace, Stepped, BinValue;
    var ty := ExprType(g, target).value;
    var p, pr := LowerPlace(g, target, n).value, EvalPlace(c, g, target, s).value;
    var cur, v := ReadPlace(p.place, p.next), Fetch(c, ty, pr.place, pr.s).value;
    var result := EvalPostfix(c, g, up, target, s).value;
    var out, was := cur.next, cur.next + 1;
    var u := Stepped(up, ty, v);
    var m1, m2 := CurrentRuns(c, g, target, n, was + 1, s, m);
    PlaceType(c, g, n, p, pr.place, m1, ty, PendingPlace(target));
    var step := [Bin(was, Add, cur.op, Imm(0)), Bin(out, StepOp(up), Temp(was), Imm(StepOf(ty)))];
    var m3 := StepRuns(c, up, cur.op, out, was, ty, v, m2);
    ReachesMoreRun(c, g, n, out, was + 1, p.instrs + cur.instrs, step, m, m2, m3, s, pr.s);
    DenotesAdds(c, g, n, p, pr.place, ty, PendingPlace(target), p.next, m1, m2);
    DenotesAdds(c, g, n, p, pr.place, ty, PendingPlace(target), out, m2, m3);
    SteppedAtType(up, ty, v);
    m' := WriteReaches(c, g, n, was + 1, p.instrs + cur.instrs + step, p, pr.place, PendingPlace(target), ty,
        Temp(out), u, if pr.place.Memory? then u else Convert(ty, u), m, m3, s, pr.s, result.s);
    StillHolds(c, g, was, m3, m', WordOf(v));
    TempOperand(g, {}, n, was, was + 1);
  }

  lemma ReachesMoreRun(c: Context, g: Env, n: nat, mid: nat, next: nat, a: seq<Instr>, b: seq<Instr>, m: State,
      m1: State, m2: State, s: Config, s1: Config)
    requires Reaches(c, g, n, mid, a, m, s, s1, m1) && VarsBelow(g, n) && Runs(c, b, m1, m2) && Adds(mid, m1, m2) &&
        mid <= next
    ensures Reaches(c, g, n, next, a + b, m, s, s1, m2)
  {
    hide Rel, Runs;
    RunsBoth(c, a, b, m, m1, m2);
    ReachesMore(c, g, n, mid, next, a, b, m, m1, m2, s, s1);
  }

  lemma StillHolds(c: Context, g: Env, t: nat, m: State, m': State, w: Word)
    requires c.frame.Private(t) && t !in g.vars && Value(c, m, Temp(t)) == Some(w)
    requires forall u :: u in m.env && u !in g.vars ==> u in m'.env && m'.env[u] == m.env[u]
    ensures Value(c, m', Temp(t)) == Some(w)
  {
  }

  /** The old value, kept, and the stepped one. */
  lemma StepRuns(c: Context, up: bool, cur: Operand, out: nat, was: nat, ty: CType, v: int, m: State)
      returns (m': State)
    requires was == out + 1 && Value(c, m, cur) == Some(WordOf(v)) && Owned(c.frame, out, was + 1)
    ensures Runs(c, [Bin(was, Add, cur, Imm(0)), Bin(out, StepOp(up), Temp(was), Imm(StepOf(ty)))], m, m') &&
        Adds(out, m, m')
    ensures Value(c, m', Temp(was)) == Some(WordOf(v)) && Value(c, m', Temp(out)) == Some(WordOf(Stepped(up, ty, v)))
  {
    hide Runs, BytesOf, BinValue, Stepped;
    SumWord(v, 0);
    var m1 := Set(m, was, WordOf(v));
    BinRuns(c, was, Add, cur, Imm(0), m, WordOf(v), WordOf(0), WordOf(v));
    StepWord(up, ty, v);
    var w := WordOf(Stepped(up, ty, v));
    BinRuns(c, out, StepOp(up), Temp(was), Imm(StepOf(ty)), m1, WordOf(v), WordOf(StepOf(ty)), w);
    m' := Set(m1, out, w);
    RunsBoth(c, [Bin(was, Add, cur, Imm(0))], [Bin(out, StepOp(up), Temp(was), Imm(StepOf(ty)))], m, m1, m');
    assert [Bin(was, Add, cur, Imm(0))] + [Bin(out, StepOp(up), Temp(was), Imm(StepOf(ty)))] ==
        [Bin(was, Add, cur, Imm(0)), Bin(out, StepOp(up), Temp(was), Imm(StepOf(ty)))];
  }

  lemma CompoundAssignmentRuns(c: Context, g: Env, op: Operator, target: Expr, x: Expr, n: nat, s: Config, m: State)
      returns (m': State)
    requires LowerCompound(g, op, target, x, n).Some? && EvalCompound(c, g, op, target, x, s).Some?
    requires Starts(c, g, n, LowerCompound(g, op, target, x, n).value.next, s, m)
    ensures ExprType(g, target).Some?
    ensures Yields(c, g, {}, n, LowerCompound(g, op, target, x, n).value, ExprType(g, target).value, m, s,
        EvalCompound(c, g, op, target, x, s).value, m')
    decreases Compound(op, target, x), 0
  {
    hide Rel, Runs, Value, BytesOf, Pending, LowerExpr, Eval, LowerPlace, EvalPlace, Convert, Denotes, Put, AtType,
        Fetch, InRange, WritePlace, ReadPlace, Steady, OperandOf, LowerCompoundOp, Coerce, CompoundResult, ExprType,
        Finishes, PendingPlace;
    var ty, tx := ExprType(g, target).value, ExprType(g, x).value;
    var p, pr := LowerPlace(g, target, n).value, EvalPlace(c, g, target, s).value;
    var cur, v := ReadPlace(p.place, p.next), Fetch(c, ty, pr.place, pr.s).value;
    var a, r := LowerExpr(g, x, cur.next).value, Eval(c, g, x, pr.s).value;
    var o := LowerCompoundOp(op, p.place.ty, tx, cur.op, a.op, a.next).value;
    var result := EvalCompound(c, g, op, target, x, s).value;
    var next := LowerCompound(g, op, target, x, n).value.next;
    var m1, m2 := CurrentRuns(c, g, target, n, next, s, m);
    PlaceType(c, g, n, p, pr.place, m1, ty, PendingPlace(target));
    StartsLater(c, g, n, cur.next, next, p.instrs + cur.instrs, m, m2, s, pr.s);
    var m3 := ExprRuns(c, g, x, cur.next, pr.s, m2);
    ReachesBoth(c, g, n, cur.next, a.next, p.instrs + cur.instrs, a.instrs, m, m2, m3, s, pr.s, r.s);
    SteadyParts(PendingPlace(target), Pending(target), pr.s, r.s);
    DenotesAdds(c, g, n, p, pr.place, ty, PendingPlace(target), p.next, m1, m2);
    KeepsLower(g, p.next, cur.next, m2, m3);
    DenotesStays(c, g, n, p, pr.place, ty, PendingPlace(target), pr.s, m2, r.s, m3);
    ValueStays(c, g, Pending(target), cur.op, p.next, cur.next, pr.s, m2, r.s, m3, v);
    OperandUnder(g, Pending(target), cur.op, p.next, cur.next);
    OperandUnder(g, Pending(x), a.op, cur.next, a.next);
    var cc := Coerce(ty, o.op, o.next);
    var m4 := CombinedRuns(c, m, p.instrs + cur.instrs + a.instrs, op, ty, tx, cur.op, a.op, a.next, m3, v, r.v);
    CompoundInRange(op, ty, tx, v, r.v);
    m' := WriteFresh(c, g, n, a.next, p.instrs + cur.instrs + a.instrs,
        Code(p.instrs + cur.instrs + a.instrs + o.instrs + cc.instrs, cc.op, cc.next), p, pr.place,
      PendingPlace(target), ty, result.v, m, m3, m4, s, r.s, result.s);
  }

  lemma CompoundInRange(op: Operator, ta: CType, tb: CType, x: int, y: int)
    requires CompoundResult(AsCompiled, op, ta, tb, x, y).Some?
    ensures InRange(ta, CompoundResult(AsCompiled, op, ta, tb, x, y).value)
  {
    hide Raw, Convert, Usual, InRange;
    TruthIsBool(true);
    TruthIsBool(false);
  }

  lemma TruthIsBool(b: bool)
    ensures InRange(Bool, Truth(b))
  {
  }

  lemma SteadyParts(a: set<nat>, b: set<nat>, s: Config, s': Config)
    requires Steady(a + b, s, s')
    ensures Steady(a, s, s') && Steady(b, s, s')
  {
  }

  lemma KeepsLower(g: Env, lo: nat, hi: nat, m: State, m': State)
    requires Keeps(g, hi, m, m') && lo <= hi
    ensures Keeps(g, lo, m, m')
  {
  }

  /** The operation of a compound assignment and the conversion to the target's type. */
  lemma CombinedRuns(c: Context, start: State, before: seq<Instr>, op: Operator, ta: CType, tb: CType, a: Operand,
      b: Operand, n: nat, m: State, x: int, y: int) returns (m': State)
    requires Runs(c, before, start, m) && Value(c, m, a) == Some(WordOf(x)) && Value(c, m, b) == Some(WordOf(y))
    requires Small(a) && Small(b) && Under(a, n) && Under(b, n) && InRange(ta, x) && InRange(tb, y)
    requires LowerCompoundOp(op, ta, tb, a, b, n).Some? && CompoundResult(AsCompiled, op, ta, tb, x, y).Some?
    requires var o := LowerCompoundOp(op, ta, tb, a, b, n).value; Owned(c.frame, n, Coerce(ta, o.op, o.next).next)
    ensures var o := LowerCompoundOp(op, ta, tb, a, b, n).value;
      var cc := Coerce(ta, o.op, o.next);
      Finishes(c, start, n, m, Code(before + o.instrs + cc.instrs, cc.op, cc.next),
          CompoundResult(AsCompiled, op, ta, tb, x, y).value, m')
  {
    hide Runs, Value, BytesOf, AtType, InRange, LowerCompoundOp, Coerce, CompoundResult;
    var o := LowerCompoundOp(op, ta, tb, a, b, n).value;
    var raw, m1 := CompoundRuns(c, start, before, op, ta, tb, a, b, n, m, x, y);
    m' := CoerceRuns(c, ta, o.op, o.next, m1, raw);
    RunsBoth(c, before + o.instrs, Coerce(ta, o.op, o.next).instrs, start, m1, m');
    AddsBoth(n, o.next, m, m1, m');
  }

  // ---- Calls ---------------------------------------------------------------------------------------

  lemma {:induction false} ArgsRuns(c: Context, g: Env, args: seq<Expr>, n: nat, s: Config, m: State)
      returns (m': State)
    requires LowerArgs(g, args, n).Some? && EvalArgs(c, g, args, s).Some? &&
        Starts(c, g, n, LowerArgs(g, args, n).value.next, s, m)
    ensures var a := LowerArgs(g, args, n).value;
      var r := EvalArgs(c, g, args, s).value;
      && Reaches(c, g, n, a.next, a.instrs, m, s, r.s, m')
      && Values(c, m', a.ops) == Some(WordsOf(r.vs))
    decreases args
  {
    hide Rel, Runs, Value, BytesOf, Pending, LowerExpr, Eval, Steady, OperandOf;
    if args == [] {
      m' := m;
      ReachesNone(c, g, n, m, s);
    } else {
      var a, r := LowerExpr(g, args[0], n).value, Eval(c, g, args[0], s).value;
      var rest, rr := LowerArgs(g, args[1..], a.next).value, EvalArgs(c, g, args[1..], r.s).value;
      var m1 := ExprRuns(c, g, args[0], n, s, m);
      StartsLater(c, g, n, a.next, rest.next, a.instrs, m, m1, s, r.s);
      m' := ArgsRuns(c, g, args[1..], a.next, r.s, m1);
      ReachesBoth(c, g, n, a.next, rest.next, a.instrs, rest.instrs, m, m1, m', s, r.s, rr.s);
      ValueStays(c, g, Pending(args[0]), a.op, n, a.next, r.s, m1, rr.s, m', r.v);
      assert ([a.op] + rest.ops)[1..] == rest.ops;
      assert ([r.v] + rr.vs)[1..] == rr.vs;
    }
  }

  lemma CallRuns(c: Context, g: Env, res: Option<nat>, name: string, ops: seq<Operand>, ws: seq<Word>, s: Config,
      m: State, n: nat) returns (m': State)
    requires Rel(c, g, s, m) && Values(c, m, ops) == Some(ws) && VarsBelow(g, n) &&
        (res.Some? ==> res.value == n && c.frame.Private(n))
    ensures var (s', w) := CallEffect(c, name, ws, s);
      && Runs(c, [Instr.Call(res, name, ops)], m, m') && Rel(c, g, s', m') && Keeps(g, n, m, m')
      && (res.Some? ==> Value(c, m', Temp(n)) == Some(w))
  {
    hide Values, BytesOf;
    var (m1, w) := CallState(c, m, Direct(name), ws);
    m' := if res.Some? then Set(m1, n, w) else m1;
    RunsOne(c, Instr.Call(res, name, ops), m, m');
  }

  lemma CanonicalWord(ty: CType, w: Word)
    ensures WordOf(ValueOfBytes(ty, w)) == w
  {
    hide BytesOf, Unsigned, Signed;
    BytesOfUnsigned(w);
    SignedOfBytes(w);
  }

  lemma InvokeRuns(c: Context, g: Env, name: string, args: seq<Expr>, n: nat, s: Config, m: State) returns (m': State)
    requires LowerArgs(g, args, n).Some? && EvalInvoke(c, g, name, args, s).Some? &&
        Starts(c, g, n, LowerArgs(g, args, n).value.next + 1, s, m)
    ensures name in g.functions
    ensures var a := LowerArgs(g, args, n).value;
      Yields(c, g, {}, n, Code(a.instrs + [Instr.Call(Some(a.next), name, a.ops)], Temp(a.next), a.next + 1),
          g.functions[name], m, s,
        EvalInvoke(c, g, name, args, s).value, m')
    decreases Invoke(name, args), 0
  {
    hide Rel, Runs, Value, Values, BytesOf, LowerArgs, EvalArgs, CallEffect;
    var a, r := LowerArgs(g, args, n).value, EvalArgs(c, g, args, s).value;
    var m1 := ArgsRuns(c, g, args, n, s, m);
    m' := CallRuns(c, g, Some(a.next), name, a.ops, WordsOf(r.vs), r.s, m1, a.next);
    CanonicalWord(g.functions[name], CallEffect(c, name, WordsOf(r.vs), r.s).1);
    RunsBoth(c, a.instrs, [Instr.Call(Some(a.next), name, a.ops)], m, m1, m');
    KeepsBoth(g, n, a.next, m, m1, m');
    CalledVars(c, name, WordsOf(r.vs), r.s);
    TempOperand(g, {}, n, a.next, a.next + 1);
  }

  lemma CalledVars(c: Context, name: string, ws: seq<Word>, s: Config)
    ensures CallEffect(c, name, ws, s).0.vars == s.vars
  {
  }

  // ---- Effects ----------------------------------------------------------------------------------------

  /** An expression in a position where its value is not used. */
  lemma EffectsRun(c: Context, g: Env, e: Expr, n: nat, s: Config, m: State) returns (m': State)
    requires LowerEffects(g, e, n).Some? && Perform(c, g, e, s).Some? &&
        Starts(c, g, n, LowerEffects(g, e, n).value.next, s, m)
    ensures var a := LowerEffects(g, e, n).value;
      Reaches(c, g, n, a.next, a.instrs, m, s, Perform(c, g, e, s).value, m')
    decreases e, 2
  {
    hide Rel, Runs, Value, Values, BytesOf, LowerArgs, EvalArgs, CallEffect, LowerExpr, Eval, LowerPrefix, EvalPrefix,
        OperandOf;
    match e
    case Invoke(name, args) =>
      var a, r := LowerArgs(g, args, n).value, EvalArgs(c, g, args, s).value;
      var m1 := ArgsRuns(c, g, args, n, s, m);
      m' := CallRuns(c, g, None, name, a.ops, WordsOf(r.vs), r.s, m1, a.next);
      RunsBoth(c, a.instrs, [Instr.Call(None, name, a.ops)], m, m1, m');
      KeepsBoth(g, n, a.next, m, m1, m');
      CalledVars(c, name, WordsOf(r.vs), r.s);
    case Postfix(up, target) => m' := PrefixRuns(c, g, up, target, n, s, m);
    case _ => m' := ExprRuns(c, g, e, n, s, m);
  }

  // ---- All expressions -----------------------------------------------------------------------------------

  lemma LiteralRuns(c: Context, g: Env, v: nat, suffix: Suffix, n: nat, s: Config, m: State)
    requires v < M64 && Rel(c, g, s, m)
    ensures Yields(c, g, {}, n, Code([], LiteralOperand(v), n), LiteralType(v, suffix), m, s, Res(v, s), m)
  {
    hide BytesOf, Rel;
    ReachesNone(c, g, n, m, s);
    FirstFitHolds(Candidates(suffix), v);
    assert WordOf(v)[..8] == WordOf(v);
  }

  lemma ReadRuns(c: Context, g: Env, e: Expr, n: nat, s: Config, m: State) returns (m': State)
    requires LowerRead(g, e, n).Some? && EvalRead(c, g, e, s).Some? &&
        Starts(c, g, n, LowerRead(g, e, n).value.next, s, m) && !e.Var?
    ensures ExprType(g, e).Some?
    ensures Yields(c, g, {}, n, LowerRead(g, e, n).value, ExprType(g, e).value, m, s, EvalRead(c, g, e, s).value, m')
    decreases e, 1, 1
  {
    hide Rel, Runs, Value, BytesOf, LowerExpr, Eval, Fetch, InRange, ReadPlace;
    var p := LowerPlace(g, e, n).value;
    var m1;
    m1, m' := CurrentRuns(c, g, e, n, LowerRead(g, e, n).value.next, s, m);
  }

  lemma BinaryExprType(g: Env, op: Operator, l: Expr, r: Expr, ta: CType, tb: CType)
    requires !op.OpComma? && !op.OpLogAnd? && !op.OpLogOr? && ExprType(g, l) == Some(ta) && ExprType(g, r) == Some(tb)
    ensures ExprType(g, Binary(op, l, r)) == BinaryType(op, ta, tb)
  {
    hide BinaryType, ConditionalType, LiteralType, Usual, Promote;
  }

  /** The operands in the order they are evaluated, and what their code and values make. */
  lemma BinaryParts(c: Context, g: Env, op: Operator, l: Expr, r: Expr, n: nat, s: Config, first: Expr, second: Expr,
      ta: CType, tb: CType)
    requires !op.OpComma? && !op.OpLogAnd? && !op.OpLogOr?
    requires LowerBinary(g, op, l, r, n).Some? && EvalBinary(c, g, op, l, r, s).Some?
    requires var tl, tr := ExprType(g, l).value, ExprType(g, r).value;
      (first, second, ta, tb) == if PointerLast(op, tl, tr) then (r, l, tr, tl) else (l, r, tl, tr)
    ensures ExprType(g, first) == Some(ta) && ExprType(g, second) == Some(tb) &&
        ExprType(g, Binary(op, l, r)) == BinaryType(op, ta, tb)
    ensures LowerExpr(g, first, n).Some? && LowerExpr(g, second, LowerExpr(g, first, n).value.next).Some?
    ensures var a := LowerExpr(g, first, n).value;
        LowerBinary(g, op, l, r, n) == LowerOperator(op, ta, tb, a, LowerExpr(g, second, a.next).value)
    ensures Eval(c, g, first, s).Some? && Eval(c, g, second, Eval(c, g, first, s).value.s).Some?
    ensures var x := Eval(c, g, first, s).value;
      var y := Eval(c, g, second, x.s).value;
      var v := BinaryResult(op, ta, tb, x.v, y.v);
      Steady(Pending(first), x.s, y.s) && v.Some? && EvalBinary(c, g, op, l, r, s) == Some(Res(v.value, y.s))
  {
    hide LowerExpr, Eval, LowerOperator, BinaryResult, BinaryType, PointerLast, ExprType, Steady, Pending;
    var tl, tr := ExprType(g, l).value, ExprType(g, r).value;
    BinaryExprType(g, op, l, r, tl, tr);
    if PointerLast(op, tl, tr) { BinaryTypeSwaps(op, tl, tr); }
  }

  lemma BinaryRuns(c: Context, g: Env, op: Operator, l: Expr, r: Expr, n: nat, s: Config, m: State) returns (m': State)
    requires !op.OpComma? && !op.OpLogAnd? && !op.OpLogOr?
    requires LowerBinary(g, op, l, r, n).Some? && EvalBinary(c, g, op, l, r, s).Some? &&
        Starts(c, g, n, LowerBinary(g, op, l, r, n).value.next, s, m)
    ensures ExprType(g, Binary(op, l, r)).Some?
    ensures Yields(c, g, {}, n, LowerBinary(g, op, l, r, n).value, ExprType(g, Binary(op, l, r)).value, m, s,
        EvalBinary(c, g, op, l, r, s).value, m')
    decreases Binary(op, l, r), 0, 1
  {
    var tl, tr := ExprType(g, l).value, ExprType(g, r).value;
    var last := PointerLast(op, tl, tr);
    var first, second, ta, tb := if last then r else l, if last then l else r, if last then tr
        else tl, if last then tl else tr;
    hide *;
    BinaryParts(c, g, op, l, r, n, s, first, second, ta, tb);
    var x := Eval(c, g, first, s).value;
    m' := OperandsRun(c, g, Binary(op, l, r), op, first, second, ta, tb, n, s, m, x, Eval(c, g, second, x.s).value);
  }

  /** The main theorem of expression lowering: whenever the source expression has a value,
      its code runs, makes the same calls in the same order, leaves the same memory and
      the variables' new values, and its operand holds that value. */
  lemma {:induction false} ExprRuns(c: Context, g: Env, e: Expr, n: nat, s: Config, m: State) returns (m': State)
    requires LowerExpr(g, e, n).Some? && Eval(c, g, e, s).Some? && Starts(c, g, n, LowerExpr(g, e, n).value.next, s, m)
    ensures ExprType(g, e).Some?
    ensures Yields(c, g, Pending(e), n, LowerExpr(g, e, n).value, ExprType(g, e).value, m, s, Eval(c, g, e, s).value,
        m')
    decreases e, 1
  {
    hide Rel, Runs, Value, BytesOf, Coerce, Convert, InRange, OperandOf, LowerRead, EvalRead, LowerPrefix, EvalPrefix,
        LowerPostfix, EvalPostfix, LowerLogical, EvalLogical,
      LowerBinary, EvalBinary, LowerConditional, EvalConditional, LowerAssignment, EvalAssignment, LowerCompound,
          EvalCompound, EvalInvoke, LowerArgs, LiteralOperand, LiteralType, Yields;
    m' := m;
    match e
    case Literal(v, suffix) => LiteralRuns(c, g, v, suffix, n, s, m);
    case Character(v) => CharacterRuns(c, g, v, n, s, m);
    case Var(x) =>
      VariableValue(c, g, x, s);
      m' := VarReads(c, g, x, n, m, s);
    case GlobalVar(_) => m' := ReadRuns(c, g, e, n, s, m);
    case Deref(_) => m' := ReadRuns(c, g, e, n, s, m);
    case Invoke(name, args) => m' := InvokeRuns(c, g, name, args, n, s, m);
    case Unary(uop, x) => m' := UnaryRuns(c, g, uop, x, n, s, m);
    case Cast(ty, x) =>
      var a, r := LowerExpr(g, x, n).value, Eval(c, g, x, s).value;
      var m1 := ExprRuns(c, g, x, n, s, m);
      m' := CoerceYields(c, g, Pending(x), n, a, ExprType(g, x).value, ty, m, s, r, m1);
    case Prefix(up, target) => m' := PrefixRuns(c, g, up, target, n, s, m);
    case Postfix(up, target) => m' := PostfixRuns(c, g, up, target, n, s, m);
    case Binary(op, l, r) =>
      if op.OpComma? {
        m' := CommaRuns(c, g, l, r, n, s, m);
      } else if op.OpLogAnd? || op.OpLogOr? {
        m' := LogicalRuns(c, g, op, l, r, n, s, m);
      } else {
        m' := BinaryRuns(c, g, op, l, r, n, s, m);
      }
    case Conditional(test, yes, no) => m' := ConditionalRuns(c, g, test, yes, no, n, s, m);
    case Assignment(target, x) => m' := AssignmentRuns(c, g, target, x, n, s, m);
    case Compound(op, target, x) => m' := CompoundAssignmentRuns(c, g, op, target, x, n, s, m);
  }

  lemma CharacterRuns(c: Context, g: Env, v: int, n: nat, s: Config, m: State)
    requires InRange(Int, v) && Rel(c, g, s, m)
    ensures Yields(c, g, {}, n, Code([], Imm(v), n), Int, m, s, Res(v, s), m)
  {
    hide BytesOf, Rel;
    ReachesNone(c, g, n, m, s);
  }

  lemma UnaryRuns(c: Context, g: Env, uop: UnaryOperator, x: Expr, n: nat, s: Config, m: State) returns (m': State)
    requires LowerExpr(g, x, n).Some? && Eval(c, g, x, s).Some? && ExprType(g, x).Some?
    requires var ty := ExprType(g, x).value;
      && EvalUnary(uop, ty, Eval(c, g, x, s).value).Some?
      && Starts(c, g, n, LowerUnary(uop, ty, LowerExpr(g, x, n).value).next, s, m)
    ensures var ty := ExprType(g, x).value;
      Yields(c, g, if uop.Plus? then Pending(x)
          else {}, n, LowerUnary(uop, ty, LowerExpr(g, x, n).value), if uop.Not? then Int else Promote(ty),
        m, s, EvalUnary(uop, ty, Eval(c, g, x, s).value).value, m')
    decreases x, 4
  {
    hide Rel, Runs, Value, BytesOf, OperandOf, Convert, Coerce, InRange, Promote, LowerExpr, Eval, Pending, Yields,
        NegateCode;
    var a, r, ty := LowerExpr(g, x, n).value, Eval(c, g, x, s).value, ExprType(g, x).value;
    match uop
    case Plus =>
      var m1 := ExprRuns(c, g, x, n, s, m);
      m' := CoerceYields(c, g, Pending(x), n, a, ty, Promote(ty), m, s, r, m1);
      YieldsInRange(c, g, Pending(x), n, a, ty, m, s, r, m1);
      PromotionPreservesValue(ty, r.v);
    case Not => m' := NotRuns(c, g, x, n, s, m);
    case _ => m' := NegationRuns(c, g, uop, x, ty, n, s, m);
  }

  lemma YieldsInRange(c: Context, g: Env, pending: set<nat>, n: nat, code: Code, ty: CType, m: State, s: Config,
      r: Res, m': State)
    requires Yields(c, g, pending, n, code, ty, m, s, r, m')
    ensures InRange(ty, r.v)
  {
  }

  lemma CommaRuns(c: Context, g: Env, l: Expr, r: Expr, n: nat, s: Config, m: State) returns (m': State)
    requires LowerEffects(g, l, n).Some? && LowerExpr(g, r, LowerEffects(g, l, n).value.next).Some?
    requires Perform(c, g, l, s).Some? && Eval(c, g, r, Perform(c, g, l, s).value).Some?
    requires Starts(c, g, n, LowerExpr(g, r, LowerEffects(g, l, n).value.next).value.next, s, m)
    ensures ExprType(g, r).Some?
    ensures var a := LowerEffects(g, l, n).value;
      var b := LowerExpr(g, r, a.next).value;
      Yields(c, g, Pending(r), n, Code(a.instrs + b.instrs, b.op, b.next), ExprType(g, r).value, m, s,
          Eval(c, g, r, Perform(c, g, l, s).value).value, m')
    decreases Binary(OpComma, l, r), 0
  {
    hide Rel, Runs, Value, BytesOf, OperandOf, InRange, LowerExpr, Eval, Pending, LowerEffects, Perform, ExprType,
        Reaches;
    var a := LowerEffects(g, l, n).value;
    var b := LowerExpr(g, r, a.next).value;
    var s1 := Perform(c, g, l, s).value;
    var m1 := EffectsRun(c, g, l, n, s, m);
    StartsLater(c, g, n, a.next, b.next, a.instrs, m, m1, s, s1);
    m' := ExprRuns(c, g, r, a.next, s1, m1);
    ReachesBoth(c, g, n, a.next, b.next, a.instrs, b.instrs, m, m1, m', s, s1, Eval(c, g, r, s1).value.s);
    OperandWider(g, Pending(r), b.op, a.next, b.next, n);
  }
}
