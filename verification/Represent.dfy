/** How intermediate-code states represent source configurations, and what the
    building blocks of lowered expressions do to them. */
module Represent {
  import opened Options
  import opened Words
  import opened Ir
  import opened CTypes
  import opened Integers
  import opened Source
  import opened Lowering

  // ---- Values as words ----------------------------------------------------------------

  /** The value of a word of integer u, read at a type. */
  function AtType(ty: CType, u: int): (v: int)
    ensures InRange(ty, v)
  {
    if ty.Bool? then Truth(u % M64 != 0) else Convert(ty, u)
  }

  lemma AtTypeOfValue(ty: CType, from: CType, u: int)
    requires InRange(from, u)
    ensures AtType(ty, u) == Convert(ty, u)
  {
  }

  /** Only the word matters. */
  lemma AtTypeOfWord(ty: CType, u: int, v: int)
    requires WordOf(u) == WordOf(v)
    ensures AtType(ty, u) == AtType(ty, v)
  {
    WordEqual(u, v);
    var k := CongruentBy(u, v);
    if !ty.Bool? { WordMultiple(ty, v, k); }
  }

  lemma WordMultiple(ty: CType, v: int, k: int)
    ensures (v + k * M64) % Modulus(ty) == v % Modulus(ty)
  {
    var n := if SizeOf(ty) == 1 then 0x100_0000_0000_0000 else if SizeOf(ty) == 2 then 0x1_0000_0000_0000
             else if SizeOf(ty) == 4 then 0x1_0000_0000 else 1;
    var d := Modulus(ty);
    assert M64 == n * d;
    assert k * M64 == d * (k * n);
    DivUnique(v + k * M64, d, v / d + k * n, v % d);
  }

  /** An eight-byte value is its word. */
  lemma WideWord(ty: CType, u: int)
    requires SizeOf(ty) == 8
    ensures WordOf(AtType(ty, u)) == WordOf(u)
  {
    WideConvert(ty, u);
  }

  // ---- States ---------------------------------------------------------------------------

  ghost predicate Owned(f: Frame, lo: nat, hi: nat) { forall t: nat :: lo <= t < hi ==> f.Private(t) }

  /** A variable's temporary may hold more than the variable's type: it is converted
      whenever it is read. */
  ghost predicate Rel(c: Context, g: Env, s: Config, m: State)
  {
    && s.mem == m.mem && s.trace == m.trace
    && forall x :: x in s.vars ==>
         x in g.vars && c.frame.Private(x) && x in m.env && s.vars[x] == AtType(g.vars[x], Unsigned(m.env[x]))
  }

  /** m' differs from m in fresh temporaries only. */
  ghost predicate Adds(lo: nat, m: State, m': State)
  {
    m'.mem == m.mem && m'.trace == m.trace && forall t :: t in m.env && t < lo ==> t in m'.env && m'.env[t] == m.env[t]
  }

  /** Temporaries below lo that are not variables are the same in m' as in m. */
  ghost predicate Keeps(g: Env, lo: nat, m: State, m': State)
  {
    forall t :: t in m.env && t < lo && t !in g.vars ==> t in m'.env && m'.env[t] == m.env[t]
  }

  lemma AddsRel(c: Context, g: Env, lo: nat, s: Config, m: State, m': State)
    requires Rel(c, g, s, m) && Adds(lo, m, m') && VarsBelow(g, lo)
    ensures Rel(c, g, s, m')
  {
  }

  lemma AddsKeeps(g: Env, lo: nat, hi: nat, m: State, m': State)
    requires Adds(hi, m, m') && lo <= hi
    ensures Keeps(g, lo, m, m')
  {
  }

  lemma KeepsBoth(g: Env, lo: nat, hi: nat, m: State, m1: State, m2: State)
    requires Keeps(g, lo, m, m1) && Keeps(g, hi, m1, m2) && lo <= hi
    ensures Keeps(g, lo, m, m2)
  {
  }

  lemma AddsBoth(lo: nat, hi: nat, m: State, m1: State, m2: State)
    requires Adds(lo, m, m1) && Adds(hi, m1, m2) && lo <= hi
    ensures Adds(lo, m, m2)
  {
  }

  // ---- Operands ----------------------------------------------------------------------------

  predicate Small(op: Operand)
  {
    (op.Imm? ==> InRange(Int, op.v)) && (op.Bytes? ==> |op.bytes| == 8)
  }

  /** The operand of expression e: a constant, a fresh temporary, or a pending variable
      of eight bytes. */
  predicate OperandOf(g: Env, pending: set<nat>, op: Operand, lo: nat, hi: nat)
  {
    && Small(op)
    && (op.Temp? ==> lo <= op.t < hi || (op.t in pending && op.t in g.vars && SizeOf(g.vars[op.t]) == 8))
  }

  lemma ValueAdds(c: Context, lo: nat, m: State, m': State, op: Operand)
    requires Adds(lo, m, m') && (op.Temp? ==> op.t < lo) && Value(c, m, op).Some?
    ensures Value(c, m', op) == Value(c, m, op)
  {
  }

  /** The temporary of an eight-byte variable holds its value. */
  lemma WideVariable(c: Context, g: Env, s: Config, m: State, x: nat)
    requires Rel(c, g, s, m) && x in s.vars && SizeOf(g.vars[x]) == 8
    ensures Value(c, m, Temp(x)) == Some(WordOf(s.vars[x]))
  {
    var w := m.env[x];
    BytesOfUnsigned(w);
    assert WordOf(Unsigned(w)) == w;
    WideWord(g.vars[x], Unsigned(w));
  }

  /** An operand keeps its value while later operands are evaluated. */
  lemma ValueStays(c: Context, g: Env, pending: set<nat>, op: Operand, lo: nat, hi: nat, s: Config, m: State,
      s': Config, m': State, v: int)
    requires OperandOf(g, pending, op, lo, hi) && VarsBelow(g, lo) && Owned(c.frame, lo, hi)
    requires Rel(c, g, s, m) && Rel(c, g, s', m') && Keeps(g, hi, m, m') && Steady(pending, s, s')
    requires Value(c, m, op) == Some(WordOf(v))
    ensures Value(c, m', op) == Some(WordOf(v))
  {
    if op.Temp? {
      if lo <= op.t < hi {
        assert c.frame.Private(op.t);
      } else {
        WideVariable(c, g, s, m, op.t);
        WideVariable(c, g, s', m', op.t);
      }
    }
  }

  // ---- Runs of instruction lists --------------------------------------------------------------

  ghost predicate Runs(c: Context, instrs: seq<Instr>, m: State, m': State) { RunFrom(c, instrs, 0, m) == Some(m') }

  lemma {:induction false} RunSuffix(c: Context, a: seq<Instr>, b: seq<Instr>, k: nat, m: State)
    requires k <= |b|
    ensures RunFrom(c, a + b, |a| + k, m) == RunFrom(c, b, k, m)
    decreases |b| - k
  {
    hide RunInstr;
    if k < |b| && RunInstr(c, b[k], m).Some? { RunSuffix(c, a, b, k + 1, RunInstr(c, b[k], m).value); }
  }

  lemma {:induction false} RunPrefix(c: Context, a: seq<Instr>, b: seq<Instr>, k: nat, m: State, m': State)
    requires k <= |a| && RunFrom(c, a, k, m) == Some(m')
    ensures RunFrom(c, a + b, k, m) == RunFrom(c, a + b, |a|, m')
    decreases |a| - k
  {
    hide RunInstr;
    if k < |a| { RunPrefix(c, a, b, k + 1, RunInstr(c, a[k], m).value, m'); }
  }

  lemma RunsBoth(c: Context, a: seq<Instr>, b: seq<Instr>, m: State, m1: State, m2: State)
    requires Runs(c, a, m, m1) && Runs(c, b, m1, m2)
    ensures Runs(c, a + b, m, m2)
  {
    RunPrefix(c, a, b, 0, m, m1);
    RunSuffix(c, a, b, 0, m1);
  }

  lemma RunsNone(c: Context, m: State)
    ensures Runs(c, [], m, m)
  {
  }

  lemma RunsOne(c: Context, i: Instr, m: State, m': State)
    requires RunInstr(c, i, m) == Some(m')
    ensures Runs(c, [i], m, m')
  {
    hide RunInstr;
    assert RunFrom(c, [i], 1, m') == Some(m');
  }

  /** Setting a private temporary. */
  function Set(m: State, t: nat, w: Word): State { m.(env := m.env[t := w]) }

  lemma BinRuns(c: Context, out: nat, op: BinOp, a: Operand, b: Operand, m: State, l: Word, r: Word, w: Word)
    requires c.frame.Private(out) && Value(c, m, a) == Some(l) && Value(c, m, b) == Some(r) &&
        BinValue(op, l, r) == Some(w)
    ensures Runs(c, [Bin(out, op, a, b)], m, Set(m, out, w)) && Adds(out, m, Set(m, out, w))
    ensures Value(c, Set(m, out, w), Temp(out)) == Some(w)
  {
    hide BinValue;
    RunsOne(c, Bin(out, op, a, b), m, Set(m, out, w));
  }

  lemma ExtRuns(c: Context, out: nat, signed: bool, size: int, a: Operand, m: State, l: Word)
    requires c.frame.Private(out) && Value(c, m, a) == Some(l)
    ensures var w := ExtendWord(l, signed, size);
      && Runs(c, [Ext(out, signed, size, a)], m, Set(m, out, w)) && Adds(out, m, Set(m, out, w))
      && Value(c, Set(m, out, w), Temp(out)) == Some(w)
  {
    hide ExtendWord;
    RunsOne(c, Ext(out, signed, size, a), m, Set(m, out, ExtendWord(l, signed, size)));
  }

  lemma ConstRuns(c: Context, out: nat, v: int, m: State)
    requires c.frame.Private(out)
    ensures var w := WordOf(v);
      && Runs(c, [Const(out, v)], m, Set(m, out, w)) && Adds(out, m, Set(m, out, w))
      && Value(c, Set(m, out, w), Temp(out)) == Some(w)
  {
    RunsOne(c, Const(out, v), m, Set(m, out, WordOf(v)));
  }

  // ---- Conversions -------------------------------------------------------------------------------

  /** What a conversion of op yields: the word of the converted value, in op itself,
      an immediate, or a fresh temporary. */
  ghost predicate Converts(c: Context, ty: CType, op: Operand, n: nat, m: State, u: int, m': State)
  {
    var cc := Coerce(ty, op, n);
    && n <= cc.next
    && Runs(c, cc.instrs, m, m') && Adds(n, m, m')
    && Value(c, m', cc.op) == Some(WordOf(AtType(ty, u)))
    && Small(cc.op)
    && (cc.op.Temp? ==> n <= cc.op.t < cc.next || (cc.op == op && SizeOf(ty) == 8))
  }

  lemma CoerceRuns(c: Context, ty: CType, op: Operand, n: nat, m: State, u: int) returns (m': State)
    requires Value(c, m, op) == Some(WordOf(u)) && Small(op) && Owned(c.frame, n, Coerce(ty, op, n).next)
    ensures Converts(c, ty, op, n, m, u, m')
  {
    hide BytesOf, BytesOp, Fill, BinValue, Convert, Unsigned, CoerceImmediate, ExtendWord;
    m' := m;
    RunsNone(c, m);
    if ty.Bool? {
      m' := CoerceBoolRuns(c, op, n, m, u);
    } else if IsInteger(ty) && SizeOf(ty) < 8 {
      if CoerceImmediate(ty, op).Some? {
        ImmediateConverts(c, ty, op, m, u);
      } else {
        ExtendConverts(ty, u);
        ExtRuns(c, n, !IsUnsigned(ty), SizeOf(ty), op, m, WordOf(u));
        m' := Set(m, n, WordOf(Convert(ty, u)));
      }
    } else {
      WideWord(ty, u);
    }
  }

  lemma ImmediateWord(c: Context, op: Operand, m: State, u: int)
    requires Value(c, m, op) == Some(WordOf(u)) && Small(op) && ImmediateValue(op).Some?
    ensures WordOf(ImmediateValue(op).value) == WordOf(u)
  {
    if op.Bytes? { BytesOfUnsigned(op.bytes); }
  }

  lemma ImmediateConverts(c: Context, ty: CType, op: Operand, m: State, u: int)
    requires Value(c, m, op) == Some(WordOf(u)) && Small(op) && CoerceImmediate(ty, op).Some?
    requires IsInteger(ty) && !ty.Bool? && SizeOf(ty) < 8
    ensures CoerceImmediate(ty, op).value == Imm(Convert(ty, u)) && InRange(Int, Convert(ty, u))
  {
    hide BytesOf, Unsigned, Value;
    ImmediateWord(c, op, m, u);
    AtTypeOfWord(ty, ImmediateValue(op).value, u);
  }

  lemma CoerceBoolRuns(c: Context, op: Operand, n: nat, m: State, u: int) returns (m': State)
    requires Value(c, m, op) == Some(WordOf(u)) && Small(op) && Owned(c.frame, n, CoerceBool(op, n).next)
    ensures Converts(c, Bool, op, n, m, u, m')
  {
    hide BytesOf, BytesOp, Fill;
    m' := m;
    RunsNone(c, m);
    ZeroWord(u);
    if ImmediateValue(op).Some? {
      ImmediateWord(c, op, m, u);
      ZeroWord(ImmediateValue(op).value);
      if op.Bytes? { UnsignedBound(op.bytes); ModulusIsPower(ULong); }
    } else {
      var w := BoolWord(WordOf(u) != ZERO);
      ZeroWord(0);
      TruthWord(WordOf(u) != ZERO);
      BinRuns(c, n, Ne, op, Imm(0), m, WordOf(u), ZERO, w);
      m' := Set(m, n, w);
    }
  }
}
