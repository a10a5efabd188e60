/** When intermediate code has no next state: exactly when it reads a temporary without a
    value or a parameter that was not passed, sets one without a slot, divides by zero or out
    of range, touches storage that is not its own, or overwrites the temporary it stores. */
module Traps {
  import opened Options
  import opened Words
  import opened Ir
  import opened Integers

  predicate NoOperand(c: Context, s: State, a: Operand)
  {
    a.Temp? &&
    (a.t !in c.frame.locs || (c.frame.locs[a.t].Stack? && a.t !in c.frame.exposed && a.t !in s.env))
  }

  predicate NoSlot(c: Context, t: nat) { t !in c.frame.locs || !c.frame.locs[t].Stack? }

  function WordOfOperand(c: Context, s: State, a: Operand): Word
    requires !NoOperand(c, s, a)
  {
    Value(c, s, a).value
  }

  /** A signed quotient overflows only for the least value divided by minus one. */
  predicate NoQuotient(op: BinOp, l: Word, r: Word)
  {
    if op.Div? || op.Mod? then
      Unsigned(r) == 0 || (Unsigned(l) == 0x8000_0000_0000_0000 && Unsigned(r) == 0xffff_ffff_ffff_ffff)
    else (op.Udiv? || op.Umod?) && Unsigned(r) == 0
  }

  predicate NoOperands(c: Context, s: State, args: seq<Operand>) { exists a :: a in args && NoOperand(c, s, a) }

  ghost predicate Foreign(c: Context, s: State, a: Operand, width: Width)
    requires !NoOperand(c, s, a)
  {
    !c.frame.Visible(Unsigned(WordOfOperand(c, s, a)), width.Size())
  }

  /** The store changes the temporary it stores, which lives in memory. */
  ghost predicate Overwrites(c: Context, s: State, width: Width, a: Operand, b: Operand)
    requires !NoOperand(c, s, a) && !NoOperand(c, s, b)
  {
    var word := WordOfOperand(c, s, b);
    var mem := Write(s.mem, Unsigned(WordOfOperand(c, s, a)), word[..width.Size()]);
    && b.Temp? && c.frame.locs[b.t].Stack? && b.t in c.frame.exposed
    && ReadWord(mem, c.frame.SlotAddress(c.frame.locs[b.t].slot)) != word
  }

  ghost predicate Traps(c: Context, i: Instr, s: State)
    decreases i, 0
  {
    match i
    case Param(t, index) => index >= |c.args| || NoSlot(c, t)
    case Alloca(_, _) => false
    case Const(t, _) => NoSlot(c, t)
    case Copy(t, a) => NoOperand(c, s, a) || NoSlot(c, t)
    case AddrOf(t, src) => src !in c.frame.locs || NoSlot(c, t)
    case Load(t, width, _, a) => NoOperand(c, s, a) || Foreign(c, s, a, width) || NoSlot(c, t)
    case Store(width, a, b) =>
      NoOperand(c, s, a) || NoOperand(c, s, b) || Foreign(c, s, a, width) || Overwrites(c, s, width, a, b)
    case Ext(t, _, _, a) => NoOperand(c, s, a) || NoSlot(c, t)
    case Bin(t, op, a, b) =>
      || NoOperand(c, s, a) || NoOperand(c, s, b) || NoSlot(c, t)
      || NoQuotient(op, WordOfOperand(c, s, a), WordOfOperand(c, s, b))
    case Call(res, _, args) => NoOperands(c, s, args) || (res.Some? && NoSlot(c, res.value))
    case CallIndirect(res, callee, args) =>
      NoOperand(c, s, callee) || NoOperands(c, s, args) || (res.Some? && NoSlot(c, res.value))
    case Cond(t, ci, co, ti, to, fi, fo) =>
      match RunFrom(c, ci, 0, s)
      case None => TrapsFrom(c, ci, 0, s)
      case Some(s1) =>
        || NoOperand(c, s1, co)
        || (if WordOfOperand(c, s1, co) != ZERO then TrapsArm(c, t, ti, to, s1) else TrapsArm(c, t, fi, fo, s1))
  }

  ghost predicate TrapsArm(c: Context, t: nat, list: seq<Instr>, a: Operand, s: State)
    decreases list, |list| + 1
  {
    match RunFrom(c, list, 0, s)
    case None => TrapsFrom(c, list, 0, s)
    case Some(s') => NoOperand(c, s', a) || NoSlot(c, t)
  }

  ghost predicate TrapsFrom(c: Context, list: seq<Instr>, k: nat, s: State)
    requires k <= |list|
    decreases list, |list| - k
  {
    k < |list| &&
    match RunInstr(c, list[k], s)
    case None => Traps(c, list[k], s)
    case Some(s') => TrapsFrom(c, list, k + 1, s')
  }

  predicate TrapsTerm(c: Context, term: Term, s: State)
  {
    match term
    case Ret(value) => value.Some? && NoOperand(c, s, value.value)
    case Jump(_) => false
    case Branch(a, _, _) => NoOperand(c, s, a)
    case BranchCmp(op, a, b, _, _) => NoOperand(c, s, a) || NoOperand(c, s, b) || !Compares(term)
  }

  // ---- Nothing else does ----------------------------------------------------------------------

  lemma OperandFails(c: Context, s: State, a: Operand)
    ensures Value(c, s, a).None? <==> NoOperand(c, s, a)
  {
  }

  lemma {:induction false} OperandsFail(c: Context, s: State, args: seq<Operand>)
    ensures Values(c, s, args).None? <==> NoOperands(c, s, args)
  {
    hide NoOperand, Value;
    if args != [] {
      OperandFails(c, s, args[0]);
      OperandsFail(c, s, args[1..]);
      assert args == [args[0]] + args[1..];
      if NoOperands(c, s, args) {
        var a :| a in args && NoOperand(c, s, a);
        assert a == args[0] || a in args[1..];
      }
    }
  }

  lemma AssignFails(c: Context, s: State, t: nat, w: Word)
    ensures Assign(c.frame, s, t, w).None? <==> NoSlot(c, t)
  {
  }

  lemma SignedExtremes(w: Word)
    ensures Signed(w) == 0 <==> Unsigned(w) == 0
    ensures Signed(w) == -1 <==> Unsigned(w) == 0xffff_ffff_ffff_ffff
    ensures Signed(w) == -0x8000_0000_0000_0000 <==> Unsigned(w) == 0x8000_0000_0000_0000
    ensures InSigned64(Signed(w))
  {
    hide BytesOf, Unsigned;
    BytesOfUnsigned(w);
    UnsignedBound(w);
    NegativeOfBytes(Unsigned(w), 8);
    assert Pow256(8) == M64;
  }

  lemma QuotientFails(op: BinOp, l: Word, r: Word)
    ensures BinValue(op, l, r).None? <==> NoQuotient(op, l, r)
  {
    hide Signed, Unsigned, WordOf, TruncDiv, TruncRem, Compare, BytesOp, ShiftLeft, ShiftRight, ShiftArith, BoolWord;
    if op.Div? || op.Mod? {
      SignedExtremes(l);
      SignedExtremes(r);
      if Signed(r) != 0 { QuotientSize(Signed(l), Signed(r)); }
    }
  }

  lemma StoreFails(c: Context, s: State, width: Width, a: Operand, b: Operand)
    requires !NoOperand(c, s, a) && !NoOperand(c, s, b)
    ensures RunInstr(c, Store(width, a, b), s).None? <==> Foreign(c, s, a, width) || Overwrites(c, s, width, a, b)
  {
    hide Write, ReadWord;
  }

  lemma {:induction false} InstrFails(c: Context, i: Instr, s: State)
    ensures RunInstr(c, i, s).None? <==> Traps(c, i, s)
    decreases i, 0
  {
    hide Value, NoOperand, Assign, NoSlot, Values, NoOperands, BinValue, NoQuotient, Write, WordOf, Overwrites, Foreign,
        ExtendWord, TrapsArm;
    match i
    case Param(t, index) => if index < |c.args| { AssignFails(c, s, t, c.args[index]); }
    case Alloca(_, _) =>
    case Const(t, v) => AssignFails(c, s, t, WordOf(v));
    case Copy(t, a) => FlatFails(c, i, s);
    case AddrOf(t, src) => FlatFails(c, i, s);
    case Load(t, _, _, a) => FlatFails(c, i, s);
    case Store(width, a, b) =>
      OperandFails(c, s, a);
      OperandFails(c, s, b);
      if !NoOperand(c, s, a) && !NoOperand(c, s, b) { StoreFails(c, s, width, a, b); }
    case Ext(t, _, _, a) => FlatFails(c, i, s);
    case Bin(t, op, a, b) => FlatFails(c, i, s);
    case Call(_, _, _) => CallFails(c, i, s);
    case CallIndirect(_, _, _) => CallFails(c, i, s);
    case Cond(t, ci, co, ti, to, fi, fo) =>
      ListFails(c, ci, 0, s);
      var s1 := RunFrom(c, ci, 0, s);
      if s1.Some? {
        OperandFails(c, s1.value, co);
        ArmFails(c, t, ti, to, s1.value);
        ArmFails(c, t, fi, fo, s1.value);
      }
  }

  lemma FlatFails(c: Context, i: Instr, s: State)
    requires i.Copy? || i.AddrOf? || i.Load? || i.Ext? || i.Bin?
    ensures RunInstr(c, i, s).None? <==> Traps(c, i, s)
  {
    hide Value, NoOperand, Assign, NoSlot, BinValue, NoQuotient, WordOf, ExtendWord;
    forall w ensures Assign(c.frame, s, i.t, w).None? <==> NoSlot(c, i.t) { AssignFails(c, s, i.t, w); }
    if !i.AddrOf? { OperandFails(c, s, i.a); }
    if i.Bin? {
      OperandFails(c, s, i.b);
      if Value(c, s, i.a).Some? && Value(c, s, i.b).Some? {
        QuotientFails(i.op, Value(c, s, i.a).value, Value(c, s, i.b).value);
      }
    }
  }

  lemma CallFails(c: Context, i: Instr, s: State)
    requires i.Call? || i.CallIndirect?
    ensures RunInstr(c, i, s).None? <==> Traps(c, i, s)
  {
    hide Value, NoOperand, Assign, NoSlot, Values, NoOperands;
    OperandsFail(c, s, i.args);
    if i.CallIndirect? { OperandFails(c, s, i.callee); }
    forall s', t, w ensures Assign(c.frame, s', t, w).None? <==> NoSlot(c, t) { AssignFails(c, s', t, w); }
  }

  lemma ArmFails(c: Context, t: nat, list: seq<Instr>, a: Operand, s: State)
    ensures TrapsArm(c, t, list, a, s) <==>
      var s' := RunFrom(c, list, 0, s);
      s'.None? || Value(c, s'.value, a).None? || Assign(c.frame, s'.value, t, Value(c, s'.value, a).value).None?
    decreases list, |list| + 1
  {
    hide RunFrom, TrapsFrom, Value, NoOperand, Assign, NoSlot;
    ListFails(c, list, 0, s);
    var s' := RunFrom(c, list, 0, s);
    if s'.Some? {
      OperandFails(c, s'.value, a);
      if Value(c, s'.value, a).Some? { AssignFails(c, s'.value, t, Value(c, s'.value, a).value); }
    }
  }

  /** A list has no next state exactly when one of its instructions traps. */
  lemma {:induction false} ListFails(c: Context, list: seq<Instr>, k: nat, s: State)
    requires k <= |list|
    ensures RunFrom(c, list, k, s).None? <==> TrapsFrom(c, list, k, s)
    decreases list, |list| - k
  {
    hide RunInstr, Traps;
    if k < |list| {
      InstrFails(c, list[k], s);
      var s' := RunInstr(c, list[k], s);
      if s'.Some? { ListFails(c, list, k + 1, s'.value); }
    }
  }

  lemma TermFails(c: Context, term: Term, s: State)
    ensures RunTerm(c, term, s).None? <==> TrapsTerm(c, term, s)
  {
    hide Value, NoOperand, Compare;
    match term
    case Ret(value) => if value.Some? { OperandFails(c, s, value.value); }
    case Jump(_) =>
    case Branch(a, _, _) => OperandFails(c, s, a);
    case BranchCmp(_, a, b, _, _) => OperandFails(c, s, a); OperandFails(c, s, b);
  }

  /** A block transition is undefined exactly when its code traps or it jumps to no block. */
  lemma BlockFails(c: Context, blocks: seq<Block>, k: nat, s: State)
    requires k < |blocks|
    ensures StepBlock(c, blocks, k, s).Undefined? <==>
      match RunFrom(c, blocks[k].instrs, 0, s)
      case None => TrapsFrom(c, blocks[k].instrs, 0, s)
      case Some(s') =>
        TrapsTerm(c, blocks[k].term, s') ||
        (RunTerm(c, blocks[k].term, s').value.Goto? &&
         forall i :: 0 <= i < |blocks| ==> blocks[i].id != RunTerm(c, blocks[k].term, s').value.target)
  {
    hide RunFrom, TrapsFrom, RunTerm, TrapsTerm;
    ListFails(c, blocks[k].instrs, 0, s);
    var s' := RunFrom(c, blocks[k].instrs, 0, s);
    if s'.Some? { TermFails(c, blocks[k].term, s'.value); }
  }
}
