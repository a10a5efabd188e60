/** Each emitted instruction sequence does what its instruction means. */
module InstrCorrect {
  import opened Options
  import opened Words
  import opened Ir
  import opened Machine
  import opened Allocation
  import opened Emission
  import opened Elision
  import opened Relation

  // ---- Operators ----------------------------------------------------------------

  /** Registers apart, the machine is as it was. */
  predicate SameStore(cpu: Cpu, cpu': Cpu) { cpu'.rsp == cpu.rsp && cpu'.mem == cpu.mem && cpu'.trace == cpu.trace }

  lemma Exec2(w: World, i: Insn, j: Insn, cpu: Cpu)
    requires Exec1(w, i, cpu).Some?
    ensures Exec(w, [i, j], cpu) == Exec1(w, j, Exec1(w, i, cpu).value)
  {
    hide Exec1;
    ExecAppend(w, [i], [j], cpu, Exec1(w, i, cpu).value);
    assert [i] + [j] == [i, j];
  }

  lemma Exec3(w: World, i: Insn, j: Insn, k: Insn, cpu: Cpu)
    requires Exec1(w, i, cpu).Some? && Exec1(w, j, Exec1(w, i, cpu).value).Some?
    ensures Exec(w, [i, j, k], cpu) == Exec1(w, k, Exec1(w, j, Exec1(w, i, cpu).value).value)
  {
    hide Exec1;
    Exec2(w, i, j, cpu);
    ExecAppend(w, [i, j], [k], cpu, Exec1(w, j, Exec1(w, i, cpu).value).value);
    assert [i, j] + [k] == [i, j, k];
  }

  lemma Moves(w: World, i: Insn, cpu: Cpu)
    requires IsMove(i)
    ensures Exec1(w, i, cpu) == ExecMove(w, i, cpu)
  {
  }

  lemma Fetches(w: World, i: Insn, cpu: Cpu)
    requires IsMemory(i)
    ensures Exec1(w, i, cpu) == ExecMemory(i, cpu)
    ensures Exec(w, [i], cpu) == ExecMemory(i, cpu)
  {
    ExecOne(w, i, cpu);
  }

  lemma Stacks(w: World, i: Insn, cpu: Cpu)
    requires IsStack(i)
    ensures Exec(w, [i], cpu) == ExecStack(w, i, cpu)
  {
    ExecOne(w, i, cpu);
  }

  lemma Computes(w: World, i: Insn, cpu: Cpu)
    requires !IsMove(i) && !IsMemory(i) && !IsExtend(i) && !IsStack(i) && !i.Mark?
    ensures Exec1(w, i, cpu) == ExecAlu(i, cpu)
  {
  }

  /** Dividing the sign-extended rax divides its signed value. */
  lemma DivideWide(cpu: Cpu)
    requires cpu.rdx == Fill(Negative(cpu.rax), 8) && Signed(cpu.rbx) != 0
    requires InSigned64(TruncDiv(Signed(cpu.rax), Signed(cpu.rbx)))
    ensures var n := Signed(cpu.rax); var d := Signed(cpu.rbx);
      DivideSigned(cpu) == Some(cpu.(rax := WordOf(TruncDiv(n, d)), rdx := WordOf(TruncRem(n, d))))
  {
    hide TruncDiv, TruncRem, Signed;
    SignedDividend(cpu.rax);
  }

  lemma SignedDivision(w: World, cpu: Cpu, op: BinOp)
    requires (op.Div? || op.Mod?) && BinValue(op, cpu.rbx, cpu.rax).Some?
    ensures var r := Exec(w, BinCode(op), cpu);
      r.Some? && SameStore(cpu, r.value) && BinValue(op, cpu.rbx, cpu.rax) == Some(r.value.rax)
  {
    hide Exec, Exec1, DivideSigned, TruncDiv, TruncRem, Signed, Fill, WordOf, InSigned64;
    var swapped := cpu.(rax := cpu.rbx, rbx := cpu.rax);
    var wide := swapped.(rdx := Fill(Negative(swapped.rax), 8));
    DivideWide(wide);
    var divided := DivideSigned(wide).value;
    Moves(w, Exchange, cpu);
    Computes(w, Cqto, swapped);
    Computes(w, DivRbx, wide);
    Exec3(w, Exchange, Cqto, DivRbx, cpu);
    if op.Mod? {
      RemainderMoved(w, [Exchange, Cqto, DivRbx], cpu, divided);
      assert [Exchange, Cqto, DivRbx] + [MoveRdxToRax] == BinCode(op);
    }
  }

  lemma RemainderMoved(w: World, code: seq<Insn>, cpu: Cpu, mid: Cpu)
    requires Exec(w, code, cpu) == Some(mid)
    ensures Exec(w, code + [MoveRdxToRax], cpu) == Some(mid.(rax := mid.rdx))
  {
    hide Exec, Exec1;
    ExecAppend(w, code, [MoveRdxToRax], cpu, mid);
    ExecOne(w, MoveRdxToRax, mid);
    Moves(w, MoveRdxToRax, mid);
  }

  lemma DivideCleared(cpu: Cpu)
    requires cpu.rdx == ZERO && Unsigned(cpu.rbx) != 0
    ensures var n := Unsigned(cpu.rax); var d := Unsigned(cpu.rbx);
      DivideUnsigned(cpu) == Some(cpu.(rax := WordOf(n / d), rdx := WordOf(n % d)))
  {
    UnsignedOfZeros(ZERO);
  }

  lemma UnsignedDivision(w: World, cpu: Cpu, op: BinOp)
    requires (op.Udiv? || op.Umod?) && BinValue(op, cpu.rbx, cpu.rax).Some?
    ensures var r := Exec(w, BinCode(op), cpu);
      r.Some? && SameStore(cpu, r.value) && BinValue(op, cpu.rbx, cpu.rax) == Some(r.value.rax)
  {
    hide Exec, Exec1, DivideUnsigned, Unsigned, WordOf;
    var swapped := cpu.(rax := cpu.rbx, rbx := cpu.rax);
    var wide := swapped.(rdx := ZERO);
    DivideCleared(wide);
    var divided := DivideUnsigned(wide).value;
    Moves(w, Exchange, cpu);
    Computes(w, ClearRdx, swapped);
    Computes(w, UdivRbx, wide);
    Exec3(w, Exchange, ClearRdx, UdivRbx, cpu);
    if op.Umod? {
      RemainderMoved(w, [Exchange, ClearRdx, UdivRbx], cpu, divided);
      assert [Exchange, ClearRdx, UdivRbx] + [MoveRdxToRax] == BinCode(op);
    }
  }

  lemma Shift(w: World, cpu: Cpu, op: BinOp)
    requires op.Shl? || op.Shr? || op.Sar?
    ensures var r := Exec(w, BinCode(op), cpu);
      r.Some? && SameStore(cpu, r.value) && BinValue(op, cpu.rbx, cpu.rax) == Some(r.value.rax)
  {
    hide Exec, Exec1, ShiftLeft, ShiftRight, ShiftArith, Unsigned, ExecAlu, BinValue;
    var counted := cpu.(rcx := cpu.rax);
    var ready := counted.(rax := cpu.rbx);
    Moves(w, CopyRaxToRcx, cpu);
    Moves(w, MoveRbxToRax, counted);
    var last := if op.Shl? then ShlCl else if op.Shr? then ShrCl else SarCl;
    Computes(w, last, ready);
    Shifts(op, last, cpu.rbx, cpu.rax, ready);
    Exec3(w, CopyRaxToRcx, MoveRbxToRax, last, cpu);
  }

  lemma Shifts(op: BinOp, last: Insn, l: Word, r: Word, cpu: Cpu)
    requires op.Shl? || op.Shr? || op.Sar?
    requires last == (if op.Shl? then ShlCl else if op.Shr? then ShrCl else SarCl) && cpu.rax == l && cpu.rcx == r
    ensures ExecAlu(last, cpu).Some? && BinValue(op, l, r) == Some(ExecAlu(last, cpu).value.rax)
    ensures ExecAlu(last, cpu).value == cpu.(rax := ExecAlu(last, cpu).value.rax)
  {
    hide ShiftLeft, ShiftRight, ShiftArith, Unsigned;
    ShiftCount(r);
  }

  lemma BoolByte(b: bool)
    ensures Extend([if b then 1 else 0], false) == BoolWord(b)
  {
    assert Extend([if b then 1 else 0], false) == [if b then 1 else 0, 0, 0, 0, 0, 0, 0, 0];
  }

  lemma ComparisonCode(op: BinOp)
    requires IsComparison(op)
    ensures BinCode(op) == [Cmp, SetByte(op), MoveZx]
  {
  }

  lemma Comparison(w: World, cpu: Cpu, op: BinOp)
    requires IsComparison(op)
    ensures var r := Exec(w, BinCode(op), cpu);
      r.Some? && SameStore(cpu, r.value) && BinValue(op, cpu.rbx, cpu.rax) == Some(r.value.rax)
  {
    hide Exec, Exec1, Extend, Compare, BinCode;
    ComparisonCode(op);
    var compared := cpu.(left := cpu.rbx, right := cpu.rax);
    var b := Compare(op, cpu.rbx, cpu.rax);
    var flagged := compared.(rax := [if b then 1 else 0] + cpu.rax[1..]);
    Computes(w, Cmp, cpu);
    Computes(w, SetByte(op), compared);
    ExtendsLow(w, flagged);
    Exec3(w, Cmp, SetByte(op), MoveZx, cpu);
    assert flagged.rax[..1] == [if b then 1 else 0];
    BoolByte(b);
  }

  lemma ExtendsLow(w: World, cpu: Cpu)
    ensures Exec1(w, MoveZx, cpu) == Some(cpu.(rax := Extend(cpu.rax[..1], false)))
  {
  }

  /** The code of an operator leaves its value, with rbx on the left, in rax. */
  lemma BinCodeCorrect(w: World, cpu: Cpu, op: BinOp)
    requires BinValue(op, cpu.rbx, cpu.rax).Some?
    ensures var r := Exec(w, BinCode(op), cpu);
      r.Some? && SameStore(cpu, r.value) && BinValue(op, cpu.rbx, cpu.rax) == Some(r.value.rax)
  {
    if IsComparison(op) {
      Comparison(w, cpu, op);
    } else if op.Div? || op.Mod? {
      SignedDivision(w, cpu, op);
    } else if op.Udiv? || op.Umod? {
      UnsignedDivision(w, cpu, op);
    } else if op.Shl? || op.Shr? || op.Sar? {
      Shift(w, cpu, op);
    } else if op.Sub? {
      Exec2(w, SubRbx, MoveRbxToRax, cpu);
    } else {
      CommutativeValue(op, cpu.rbx, cpu.rax);
      CommutativeOne(w, cpu, op);
    }
  }

  lemma CommutativeOne(w: World, cpu: Cpu, op: BinOp)
    requires op.Add? || op.Mul? || op.And? || op.Or? || op.Xor?
    ensures var r := Exec(w, BinCode(op), cpu);
      r.Some? && SameStore(cpu, r.value) && BinValue(op, cpu.rax, cpu.rbx) == Some(r.value.rax)
  {
    hide Exec, Exec1;
    ExecOne(w, BinCode(op)[0], cpu);
    Computes(w, BinCode(op)[0], cpu);
  }

  lemma ProductCommutes(a: int, b: int)
    ensures a * b == b * a
  {
  }

  /** Swapping the operands of a commutative operator keeps its value. */
  lemma CommutativeValue(op: BinOp, l: Word, r: Word)
    requires Commutative(op)
    ensures BinValue(op, l, r) == BinValue(op, r, l)
  {
    BytesOpCommutes(BitAnd, l, r);
    BytesOpCommutes(BitOr, l, r);
    BytesOpCommutes(BitXor, l, r);
    ProductCommutes(Signed(l), Signed(r));
  }

  // ---- Operand pairs --------------------------------------------------------------

  /** The operands are in rbx and rax, whichever way they were brought there. */
  ghost predicate PairReady(f: Frame, dropped: set<nat>, s: State, rax: Option<nat>, cpu: Cpu, link: Word, l: Word,
      r: Word)
  {
    cpu.rbx == l && cpu.rax == r && CpuRel(f, dropped, s, rax, cpu, link, 0)
  }

  lemma PairCorrect(c: Context, f: Layout, dropped: set<nat>, s: State, rax: Option<nat>, cpu: Cpu, link: Word,
      left: Operand, right: Operand, park: bool, l: Word, r: Word) returns (cpu': Cpu)
    requires Fits(c, f, dropped) && CpuRel(c.frame, dropped, s, rax, cpu, link, 0)
    requires Value(c, s, left) == Some(l) && Value(c, s, right) == Some(r)
    requires EmitPair(f, rax, left, right, park).Some?
    requires left.Temp? && left.t in dropped ==> rax == Some(left.t)
    requires right.Temp? && right.t in dropped ==> rax == Some(right.t) && (park || left == right)
    ensures Exec(c.world, EmitPair(f, rax, left, right, park).value.insns, cpu) == Some(cpu')
    ensures PairReady(c.frame, dropped, s, EmitPair(f, rax, left, right, park).value.rax, cpu', link, l, r)
  {
    hide Exec;
    if park && right.Temp? && rax == Some(right.t) {
      var ec := EmitLoad(f, rax, 0, left).value;
      var c1 := cpu.(rbx := cpu.rax);
      ExecOne(c.world, CopyRaxToRbx, cpu);
      LoadCorrect(c, f, dropped, s, rax, c1, link, 0, left, l);
      ExecAppend(c.world, [CopyRaxToRbx], ec.insns, cpu, c1);
      var c2 := c1.(rax := l);
      ExecAppend(c.world, [CopyRaxToRbx] + ec.insns, [Exchange], cpu, c2);
      ExecOne(c.world, Exchange, c2);
      cpu' := c2.(rax := c2.rbx, rbx := c2.rax);
    } else {
      var ec := EmitLoad(f, rax, 0, left).value;
      LoadCorrect(c, f, dropped, s, rax, cpu, link, 0, left, l);
      var c1 := cpu.(rax := l);
      var c2 := c1.(rbx := l);
      ExecOne(c.world, CopyRaxToRbx, c1);
      ExecAppend(c.world, ec.insns, [CopyRaxToRbx], cpu, c1);
      var er := EmitLoad(f, ec.rax, 0, right).value;
      LoadCorrect(c, f, dropped, s, ec.rax, c2, link, 0, right, r);
      ExecAppend(c.world, ec.insns + [CopyRaxToRbx], er.insns, cpu, c2);
      cpu' := c2.(rax := r);
    }
  }

  // ---- Instructions ---------------------------------------------------------------

  /** The machine is ready for instruction i, whose predecessor left prev only in rax. */
  ghost predicate Ready(c: Context, f: Layout, dropped: set<nat>, s: State, rax: Option<nat>, cpu: Cpu, link: Word,
      i: Instr, prev: Option<nat>, omit: Option<nat>)
  {
    && Fits(c, f, dropped)
    && CpuRel(c.frame, dropped, s, rax, cpu, link, 0)
    && SafeInstr(f, dropped, i, prev)
    && (prev.Some? ==> rax == prev)
    && (omit.Some? ==> omit.value in dropped)
  }

  /** The code ran to its end, and the machine represents the new state. */
  ghost predicate Ran(c: Context, dropped: set<nat>, code: Code, cpu: Cpu, s': State, cpu': Cpu, link: Word)
  {
    Exec(c.world, code.insns, cpu) == Some(cpu') && CpuRel(c.frame, dropped, s', code.rax, cpu', link, 0)
  }

  /** After code that leaves a value in rax, the store of it completes an instruction. */
  lemma FinishStore(c: Context, f: Layout, dropped: set<nat>, s: State, code: seq<Insn>, cpu: Cpu, mid: Cpu,
      link: Word, omit: Option<nat>, t: nat, s': State) returns (cpu': Cpu)
    requires Fits(c, f, dropped) && Exec(c.world, code, cpu) == Some(mid) &&
        CpuRel(c.frame, dropped, s, None, mid, link, 0)
    requires EmitStore(f, omit, t).Some? && (omit.Some? ==> omit.value in dropped)
    requires Assign(c.frame, s, t, mid.rax) == Some(s')
    ensures Ran(c, dropped, Code(code + EmitStore(f, omit, t).value.insns, Some(t)), cpu, s', cpu', link)
  {
    hide Exec1;
    var s1, c1 := StoreCorrect(c, f, dropped, s, mid, link, omit, t);
    ExecAppend(c.world, code, EmitStore(f, omit, t).value.insns, cpu, mid);
    cpu' := c1;
  }

  /** Load an operand, transform rax, store: the shape of most instructions. */
  lemma Transform(c: Context, f: Layout, dropped: set<nat>, s: State, rax: Option<nat>, cpu: Cpu, link: Word,
      a: Operand, w: Word, op: seq<Insn>, out: Cpu, omit: Option<nat>, t: nat, s': State) returns (cpu': Cpu)
    requires Fits(c, f, dropped) && CpuRel(c.frame, dropped, s, rax, cpu, link, 0)
    requires Value(c, s, a) == Some(w) && EmitLoad(f, rax, 0, a).Some?
    requires a.Temp? && a.t in dropped ==> rax == Some(a.t)
    requires Exec(c.world, op, cpu.(rax := w)) == Some(out) && SameStore(cpu, out)
    requires EmitStore(f, omit, t).Some? && (omit.Some? ==> omit.value in dropped)
    requires Assign(c.frame, s, t, out.rax) == Some(s')
    ensures Ran(c, dropped, Code(EmitLoad(f, rax, 0, a).value.insns + op + EmitStore(f, omit, t).value.insns, Some(t)),
        cpu, s', cpu', link)
  {
    hide Exec1;
    var l := EmitLoad(f, rax, 0, a).value;
    LoadCorrect(c, f, dropped, s, rax, cpu, link, 0, a, w);
    ExecAppend(c.world, l.insns, op, cpu, cpu.(rax := w));
    cpu' := FinishStore(c, f, dropped, s, l.insns + op, cpu, out, link, omit, t, s');
  }

  /** The only temporary in dropped that an instruction reads is the one rax holds,
      and it is the operand loaded first. */
  lemma FirstOperand(f: Layout, dropped: set<nat>, i: Instr, prev: Option<nat>, a: Operand)
    requires SafeInstr(f, dropped, i, prev) && a.Temp? && a.t in dropped && !i.Cond? && Uses(i, a.t) >= 1
    ensures prev == Some(a.t) && Consumes(i, a.t) && Uses(i, a.t) == 1
  {
    assert Loose(f, i, a.t) == Uses(i, a.t);
  }

  lemma CopyCorrect(c: Context, f: Layout, dropped: set<nat>, s: State, rax: Option<nat>, cpu: Cpu, link: Word,
      i: Instr, prev: Option<nat>, omit: Option<nat>, s': State) returns (cpu': Cpu)
    requires i.Copy? && Ready(c, f, dropped, s, rax, cpu, link, i, prev, omit)
    requires RunInstr(c, i, s) == Some(s') && EmitInstr(f, rax, omit, i).Some?
    ensures Ran(c, dropped, EmitInstr(f, rax, omit, i).value, cpu, s', cpu', link)
  {
    hide Exec1;
    var w := Value(c, s, i.a).value;
    if i.a.Temp? && i.a.t in dropped { FirstOperand(f, dropped, i, prev, i.a); }
    cpu' := Transform(c, f, dropped, s, rax, cpu, link, i.a, w, [], cpu.(rax := w), omit, i.t, s');
    assert EmitLoad(f, rax, 0, i.a).value.insns + [] == EmitLoad(f, rax, 0, i.a).value.insns;
  }

  lemma ExtCorrect(c: Context, f: Layout, dropped: set<nat>, s: State, rax: Option<nat>, cpu: Cpu, link: Word,
      i: Instr, prev: Option<nat>, omit: Option<nat>, s': State) returns (cpu': Cpu)
    requires i.Ext? && Ready(c, f, dropped, s, rax, cpu, link, i, prev, omit)
    requires RunInstr(c, i, s) == Some(s') && EmitInstr(f, rax, omit, i).Some?
    ensures Ran(c, dropped, EmitInstr(f, rax, omit, i).value, cpu, s', cpu', link)
  {
    hide Exec1;
    var w := Value(c, s, i.a).value;
    if i.a.Temp? && i.a.t in dropped { FirstOperand(f, dropped, i, prev, i.a); }
    ExtCodeCorrect(c.world, cpu.(rax := w), i.signed, i.size);
    cpu' := Transform(c, f, dropped, s, rax, cpu, link, i.a, w, ExtCode(i.signed, i.size),
        cpu.(rax := ExtendWord(w, i.signed, i.size)), omit, i.t, s');
  }

  lemma ExtCodeCorrect(w: World, cpu: Cpu, signed: bool, size: int)
    ensures Exec(w, ExtCode(signed, size), cpu) == Some(cpu.(rax := ExtendWord(cpu.rax, signed, size)))
  {
    hide Exec;
    if size <= 1 {
      if signed { ExecOne(w, Sext8, cpu); } else { ExecOne(w, MoveZx, cpu); }
    } else if size <= 2 {
      if signed { ExecOne(w, Sext16, cpu); } else { ExecOne(w, Zext16, cpu); }
    } else if size <= 4 {
      if signed { ExecOne(w, Sext32, cpu); } else { ExecOne(w, Zext32, cpu); }
    } else {
      ExecNone(w, cpu);
    }
  }

  lemma LoadInstrCorrect(c: Context, f: Layout, dropped: set<nat>, s: State, rax: Option<nat>, cpu: Cpu, link: Word,
      i: Instr, prev: Option<nat>, omit: Option<nat>, s': State) returns (cpu': Cpu)
    requires i.Load? && Ready(c, f, dropped, s, rax, cpu, link, i, prev, omit)
    requires RunInstr(c, i, s) == Some(s') && EmitInstr(f, rax, omit, i).Some?
    ensures Ran(c, dropped, EmitInstr(f, rax, omit, i).value, cpu, s', cpu', link)
  {
    hide Exec1;
    var w := Value(c, s, i.a).value;
    if i.a.Temp? && i.a.t in dropped { FirstOperand(f, dropped, i, prev, i.a); }
    var v := LoadValue(c.frame, s, w, i.width, i.signed).value;
    LoadCodeSees(c, dropped, s, cpu.(rax := w), link, i.width, i.signed);
    cpu' := Transform(c, f, dropped, s, rax, cpu, link, i.a, w, LoadCode(i.width, i.signed), cpu.(rax := v), omit, i.t,
        s');
  }

  /** A load from visible storage reads what the intermediate code reads. */
  lemma LoadCodeSees(c: Context, dropped: set<nat>, s: State, cpu: Cpu, link: Word, width: Width, signed: bool)
    requires MemRel(c.frame, dropped, s, cpu.mem, link)
    requires LoadValue(c.frame, s, cpu.rax, width, signed).Some?
    ensures Exec(c.world, LoadCode(width, signed), cpu) ==
      Some(cpu.(rax := LoadValue(c.frame, s, cpu.rax, width, signed).value))
  {
    ReadSame(s.mem, cpu.mem, Unsigned(cpu.rax), width.Size());
    LoadCodeCorrect(c.world, cpu, width, signed);
  }

  lemma LoadCodeCorrect(w: World, cpu: Cpu, width: Width, signed: bool)
    ensures Exec(w, LoadCode(width, signed), cpu) ==
      Some(cpu.(rax := Extend(Read(cpu.mem, Unsigned(cpu.rax), width.Size()), signed)))
  {
    hide Exec, Exec1, Extend, Unsigned;
    var code := LoadCode(width, signed);
    Fetches(w, code[0], cpu);
    if width.W1? && !signed {
      var bytes := Read(cpu.mem, Unsigned(cpu.rax), 1);
      var loaded := ExecMemory(LoadByte, cpu).value;
      ExtendsLow(w, loaded);
      Exec2(w, LoadByte, MoveZx, cpu);
      ExtendTwice(bytes);
    } else {
      ExtendFull(Read(cpu.mem, Unsigned(cpu.rax), 8), signed);
      assert code == [code[0]];
    }
  }

  lemma ExtendFull(bytes: seq<Byte>, signed: bool)
    requires |bytes| == 8
    ensures Extend(bytes, signed) == bytes == Extend(bytes, false)
  {
  }

  lemma ExtendTwice(bytes: seq<Byte>)
    requires |bytes| == 1
    ensures Extend(Extend(bytes, true)[..4], false)[..1] == bytes
  {
  }

  lemma StoreInstrCorrect(c: Context, f: Layout, dropped: set<nat>, s: State, rax: Option<nat>, cpu: Cpu, link: Word,
      i: Instr, prev: Option<nat>, omit: Option<nat>, s': State) returns (cpu': Cpu)
    requires i.Store? && Ready(c, f, dropped, s, rax, cpu, link, i, prev, omit)
    requires RunInstr(c, i, s) == Some(s') && EmitInstr(f, rax, omit, i).Some?
    ensures Ran(c, dropped, EmitInstr(f, rax, omit, i).value, cpu, s', cpu', link)
  {
    hide Exec1;
    if i.a.Temp? && i.a.t in dropped { FirstOperand(f, dropped, i, prev, i.a); }
    if i.b.Temp? && i.b.t in dropped { FirstOperand(f, dropped, i, prev, i.b); }
    cpu' := StorePair(c, f, dropped, s, rax, cpu, link, i.width, i.a, i.b, s');
  }

  lemma StorePair(c: Context, f: Layout, dropped: set<nat>, s: State, rax: Option<nat>, cpu: Cpu, link: Word,
      width: Width, a: Operand, b: Operand, s': State) returns (cpu': Cpu)
    requires Fits(c, f, dropped) && CpuRel(c.frame, dropped, s, rax, cpu, link, 0)
    requires EmitPair(f, rax, a, b, false).Some?
    requires a.Temp? && a.t in dropped ==> rax == Some(a.t)
    requires b.Temp? ==> b.t !in dropped
    requires Value(c, s, a).Some? && Value(c, s, b).Some?
    requires StoreValue(c.frame, s, Value(c, s, a).value, Value(c, s, b).value, width) == Some(s') &&
        KeepsStored(c.frame, s, s', b)
    ensures var p := EmitPair(f, rax, a, b, false).value;
      Ran(c, dropped, Code(p.insns + [StoreMem(width)], p.rax), cpu, s', cpu', link)
  {
    hide Exec, EmitPair, KeepsStored, CacheOk, MemRel, StoreValue, Value, Fits;
    cpu' := CacheKept(c, f, dropped, s, rax, cpu, link, width, a, b, s');
  }

  /** Whether storing w, the value of b, at a garbles b itself: b lives in memory, and a byte
      stored falls on a byte of its slot that is another. */
  ghost predicate Garbles(f: Frame, a: Word, b: Operand, w: Word, width: Width)
  {
    && b.Temp? && b.t in f.exposed && b.t in f.locs && f.locs[b.t].Stack?
    && exists i, k :: 0 <= i < width.Size() && 0 <= k < 8 &&
         Unsigned(a) + i == f.SlotAddress(f.locs[b.t].slot) + k && w[i] != w[k]
  }

  /** A store keeps the value of what it stores exactly unless it garbles it. */
  lemma KeptExactly(f: Frame, s: State, a: Word, b: Operand, w: Word, width: Width, s': State)
    requires StoreValue(f, s, a, w, width) == Some(s') && (b.Temp? ==> TempValue(f, s, b.t) == Some(w))
    ensures KeepsStored(f, s, s', b) <==> !Garbles(f, a, b, w, width)
  {
    hide Write, Read, Unsigned, At, Frame.Visible;
    if b.Temp? && b.t in f.locs && f.locs[b.t].Stack? && b.t in f.exposed {
      StoredOver(s.mem, Unsigned(a), w, width.Size(), f.SlotAddress(f.locs[b.t].slot));
    }
  }

  lemma StoredOver(mem: Mem, a: int, w: Word, n: nat, x: int)
    requires n <= 8 && ReadWord(mem, x) == w
    ensures ReadWord(Write(mem, a, w[..n]), x) == w <==>
        !exists i, k :: 0 <= i < n && 0 <= k < 8 && a + i == x + k && w[i] != w[k]
  {
    hide Write;
    var w' := ReadWord(Write(mem, a, w[..n]), x);
    forall k | 0 <= k < 8 ensures w'[k] == if 0 <= x + k - a < n then w[x + k - a] else w[k] {
      assert w'[k] == At(Write(mem, a, w[..n]), x + k) && w[k] == At(mem, x + k);
    }
    if i, k :| 0 <= i < n && 0 <= k < 8 && a + i == x + k && w[i] != w[k] {
      assert w'[k] != w[k];
    } else {
      forall k | 0 <= k < 8 ensures w'[k] == w[k] {
        if 0 <= x + k - a < n { assert a + (x + k - a) == x + k; }
      }
    }
  }

  /** After the code of any store everything is as it should be but the cache, and that is
      right exactly unless the store garbles the temporary it stores. */
  lemma CacheExactly(c: Context, f: Layout, dropped: set<nat>, s: State, rax: Option<nat>, cpu: Cpu, link: Word,
      width: Width, a: Operand, b: Operand, s': State) returns (cpu': Cpu)
    requires Fits(c, f, dropped) && CpuRel(c.frame, dropped, s, rax, cpu, link, 0)
    requires EmitPair(f, rax, a, b, false).Some?
    requires a.Temp? && a.t in dropped ==> rax == Some(a.t)
    requires b.Temp? ==> b.t !in dropped
    requires Value(c, s, a).Some? && Value(c, s, b).Some?
    requires StoreValue(c.frame, s, Value(c, s, a).value, Value(c, s, b).value, width) == Some(s')
    ensures var p := EmitPair(f, rax, a, b, false).value;
      && Exec(c.world, p.insns + [StoreMem(width)], cpu) == Some(cpu') && cpu'.rax == Value(c, s, b).value
      && CpuRel(c.frame, dropped, s', None, cpu', link, 0)
      && (CpuRel(c.frame, dropped, s', p.rax, cpu', link, 0) <==>
           !Garbles(c.frame, Value(c, s, a).value, b, Value(c, s, b).value, width))
  {
    cpu' := CacheKept(c, f, dropped, s, rax, cpu, link, width, a, b, s');
    hide *;
    StoredValue(c, s, b);
    KeptExactly(c.frame, s, Value(c, s, a).value, b, Value(c, s, b).value, width, s');
  }

  lemma StoredValue(c: Context, s: State, b: Operand)
    ensures b.Temp? ==> TempValue(c.frame, s, b.t) == Value(c, s, b)
  {
  }

  /** The same, in terms of the value the temporary has after the store. */
  lemma CacheKept(c: Context, f: Layout, dropped: set<nat>, s: State, rax: Option<nat>, cpu: Cpu, link: Word,
      width: Width, a: Operand, b: Operand, s': State) returns (cpu': Cpu)
    requires Fits(c, f, dropped) && CpuRel(c.frame, dropped, s, rax, cpu, link, 0)
    requires EmitPair(f, rax, a, b, false).Some?
    requires a.Temp? && a.t in dropped ==> rax == Some(a.t)
    requires b.Temp? ==> b.t !in dropped
    requires Value(c, s, a).Some? && Value(c, s, b).Some?
    requires StoreValue(c.frame, s, Value(c, s, a).value, Value(c, s, b).value, width) == Some(s')
    ensures var p := EmitPair(f, rax, a, b, false).value;
      && Exec(c.world, p.insns + [StoreMem(width)], cpu) == Some(cpu') && cpu'.rax == Value(c, s, b).value
      && CpuRel(c.frame, dropped, s', None, cpu', link, 0)
      && (CpuRel(c.frame, dropped, s', p.rax, cpu', link, 0) <==> KeepsStored(c.frame, s, s', b))
  {
    hide Exec;
    var l, r := Value(c, s, a).value, Value(c, s, b).value;
    var pair := EmitPair(f, rax, a, b, false).value;
    var mid := PairCorrect(c, f, dropped, s, rax, cpu, link, a, b, false, l, r);
    StoreThrough(c, dropped, s, mid, link, width, s');
    cpu' := mid.(mem := Write(mid.mem, Unsigned(l), r[..width.Size()]));
    ExecOne(c.world, StoreMem(width), mid);
    ExecAppend(c.world, pair.insns, [StoreMem(width)], cpu, mid);
  }

  /** The store keeps the relation, the cache aside. */
  lemma StoreThrough(c: Context, dropped: set<nat>, s: State, cpu: Cpu, link: Word, width: Width, s': State)
    requires c.frame.Laid() && CpuRel(c.frame, dropped, s, None, cpu, link, 0)
    requires StoreValue(c.frame, s, cpu.rbx, cpu.rax, width) == Some(s')
    ensures CpuRel(c.frame, dropped, s', None, cpu.(mem := Write(cpu.mem, Unsigned(cpu.rbx), cpu.rax[..width.Size()])),
        link, 0)
  {
    WriteVisible(c.frame, dropped, s, cpu.mem, link, Unsigned(cpu.rbx), cpu.rax[..width.Size()]);
  }

  /** A temporary that holds 1, its low byte stored one byte past its own address: it then
      holds 257, but rax, still taken to hold it, holds 1, and the next read loads nothing. */
  lemma StaleCache(c: Context, f: Layout, dropped: set<nat>, s: State, rax: Option<nat>, cpu: Cpu, link: Word,
      a: Operand, t: nat, s': State) returns (cpu': Cpu)
    requires Fits(c, f, dropped) && CpuRel(c.frame, dropped, s, rax, cpu, link, 0)
    requires t in c.frame.exposed && t in f.locs && f.locs[t].Stack? && t !in dropped
    requires EmitPair(f, rax, a, Temp(t), false).Some? && (a.Temp? && a.t in dropped ==> rax == Some(a.t))
    requires Value(c, s, a).Some? && Unsigned(Value(c, s, a).value) == c.frame.SlotAddress(f.locs[t].slot) + 1
    requires TempValue(c.frame, s, t) == Some([1, 0, 0, 0, 0, 0, 0, 0])
    requires StoreValue(c.frame, s, Value(c, s, a).value, [1, 0, 0, 0, 0, 0, 0, 0], W1) == Some(s')
    ensures var p := EmitPair(f, rax, a, Temp(t), false).value;
      && Exec(c.world, p.insns + [StoreMem(W1)], cpu) == Some(cpu') && cpu'.rax == [1, 0, 0, 0, 0, 0, 0, 0]
      && TempValue(c.frame, s', t) == Some([1, 1, 0, 0, 0, 0, 0, 0])
      && p.rax == Some(t) && EmitLoad(f, p.rax, 0, Temp(t)) == Some(Code([], Some(t)))
      && !CpuRel(c.frame, dropped, s', p.rax, cpu', link, 0)
  {
    hide *;
    StoredValue(c, s, Temp(t));
    SameLocs(c, f, dropped);
    Cached(f, rax, a, t);
    OneGarbles(c.frame, s, Value(c, s, a).value, t, s');
    cpu' := CacheExactly(c, f, dropped, s, rax, cpu, link, W1, a, Temp(t), s');
  }

  lemma SameLocs(c: Context, f: Layout, dropped: set<nat>)
    requires Fits(c, f, dropped)
    ensures c.frame.locs == f.locs
  {
  }

  lemma OneGarbles(f: Frame, s: State, a: Word, t: nat, s': State)
    requires t in f.exposed && t in f.locs && f.locs[t].Stack?
    requires TempValue(f, s, t) == Some([1, 0, 0, 0, 0, 0, 0, 0])
    requires Unsigned(a) == f.SlotAddress(f.locs[t].slot) + 1
    requires StoreValue(f, s, a, [1, 0, 0, 0, 0, 0, 0, 0], W1) == Some(s')
    ensures TempValue(f, s', t) == Some([1, 1, 0, 0, 0, 0, 0, 0])
    ensures Garbles(f, a, Temp(t), [1, 0, 0, 0, 0, 0, 0, 0], W1)
  {
    hide Write, Unsigned;
    var word: Word := [1, 0, 0, 0, 0, 0, 0, 0];
    assert word[..1] == [1];
    ByteChanged(s.mem, f.SlotAddress(f.locs[t].slot));
    assert Unsigned(a) + 0 == f.SlotAddress(f.locs[t].slot) + 1 && word[0] != word[1];
  }

  lemma Cached(f: Layout, rax: Option<nat>, a: Operand, t: nat)
    requires EmitPair(f, rax, a, Temp(t), false).Some? && t in f.locs && f.locs[t].Stack?
    ensures EmitPair(f, rax, a, Temp(t), false).value.rax == Some(t)
    ensures EmitLoad(f, Some(t), 0, Temp(t)) == Some(Code([], Some(t)))
  {
  }

  lemma ByteChanged(mem: Mem, x: int)
    requires ReadWord(mem, x) == [1, 0, 0, 0, 0, 0, 0, 0]
    ensures ReadWord(Write(mem, x + 1, [1]), x) == [1, 1, 0, 0, 0, 0, 0, 0]
  {
    hide Write;
    var w := ReadWord(Write(mem, x + 1, [1]), x);
    forall i | 0 <= i < 8 ensures w[i] == if i == 1 then 1 else ReadWord(mem, x)[i] {
      assert w[i] == At(Write(mem, x + 1, [1]), x + i);
    }
  }

  /** Instructions that put a value into rax with one instruction and store it. */
  lemma SetCorrect(c: Context, f: Layout, dropped: set<nat>, s: State, cpu: Cpu, link: Word, insn: Insn, w: Word,
      omit: Option<nat>, t: nat, s': State) returns (cpu': Cpu)
    requires Fits(c, f, dropped) && CpuRel(c.frame, dropped, s, None, cpu, link, 0)
    requires Exec1(c.world, insn, cpu) == Some(cpu.(rax := w))
    requires EmitStore(f, omit, t).Some? && (omit.Some? ==> omit.value in dropped)
    requires Assign(c.frame, s, t, w) == Some(s')
    ensures Ran(c, dropped, Code([insn] + EmitStore(f, omit, t).value.insns, Some(t)), cpu, s', cpu', link)
  {
    ExecOne(c.world, insn, cpu);
    cpu' := FinishStore(c, f, dropped, s, [insn], cpu, cpu.(rax := w), link, omit, t, s');
  }

  lemma ConstCorrect(c: Context, f: Layout, dropped: set<nat>, s: State, rax: Option<nat>, cpu: Cpu, link: Word,
      i: Instr, prev: Option<nat>, omit: Option<nat>, s': State) returns (cpu': Cpu)
    requires i.Const? && Ready(c, f, dropped, s, rax, cpu, link, i, prev, omit)
    requires RunInstr(c, i, s) == Some(s') && EmitInstr(f, rax, omit, i).Some?
    ensures Ran(c, dropped, EmitInstr(f, rax, omit, i).value, cpu, s', cpu', link)
  {
    cpu' := SetCorrect(c, f, dropped, s, cpu, link, EmitImmediate(i.v).insns[0], WordOf(i.v), omit, i.t, s');
  }

  lemma AddrOfCorrect(c: Context, f: Layout, dropped: set<nat>, s: State, rax: Option<nat>, cpu: Cpu, link: Word,
      i: Instr, prev: Option<nat>, omit: Option<nat>, s': State) returns (cpu': Cpu)
    requires i.AddrOf? && Ready(c, f, dropped, s, rax, cpu, link, i, prev, omit)
    requires RunInstr(c, i, s) == Some(s') && EmitInstr(f, rax, omit, i).Some?
    ensures Ran(c, dropped, EmitInstr(f, rax, omit, i).value, cpu, s', cpu', link)
  {
    var insn := LeaRsp(8 * f.locs[i.src].slot);
    cpu' := SetCorrect(c, f, dropped, s, cpu, link, insn, WordOf(c.frame.SlotAddress(c.frame.locs[i.src].slot)), omit,
        i.t, s');
  }

  lemma BinMeaning(c: Context, i: Instr, s: State, s': State)
    requires i.Bin? && RunInstr(c, i, s) == Some(s')
    ensures Value(c, s, i.a).Some? && Value(c, s, i.b).Some?
    ensures var w := BinValue(i.op, Value(c, s, i.a).value, Value(c, s, i.b).value);
      w.Some? && Assign(c.frame, s, i.t, w.value) == Some(s')
  {
  }

  /** Adding a 32-bit constant, to whichever operand is not the constant. */
  lemma AddImmediateCorrect(c: Context, f: Layout, dropped: set<nat>, s: State, rax: Option<nat>, cpu: Cpu, link: Word,
      i: Instr, prev: Option<nat>, omit: Option<nat>, s': State, left: Operand, right: Operand) returns (cpu': Cpu)
    requires i.Bin? && i.op.Add? && Ready(c, f, dropped, s, rax, cpu, link, i, prev, omit)
    requires RunInstr(c, i, s) == Some(s') && EmitStore(f, omit, i.t).Some? && EmitLoad(f, rax, 0, left).Some?
    requires right.Imm? && FitsInt32(right.v) && ((left == i.a && right == i.b) || (left == i.b && right == i.a))
    ensures Ran(c, dropped, Code(EmitLoad(f, rax, 0, left).value.insns + [AddImmediate(right.v)] +
        EmitStore(f, omit, i.t).value.insns, Some(i.t)),
                cpu, s', cpu', link)
  {
    hide Exec, Exec1, CpuRel, MemRel, Respects, WordOf, Unsigned, EmitLoad, EmitStore, Signed, RunInstr, Assign,
        SafeInstr;
    BinMeaning(c, i, s, s');
    var l := Value(c, s, left).value;
    CommutativeValue(Add, Value(c, s, i.a).value, Value(c, s, i.b).value);
    if left.Temp? && left.t in dropped { FirstOperand(f, dropped, i, prev, left); }
    var v := BinValue(Add, l, WordOf(right.v)).value;
    ExecOne(c.world, AddImmediate(right.v), cpu.(rax := l));
    Computes(c.world, AddImmediate(right.v), cpu.(rax := l));
    cpu' := Transform(c, f, dropped, s, rax, cpu, link, left, l, [AddImmediate(right.v)], cpu.(rax := v), omit, i.t,
        s');
  }

  /** Both operands brought into place, in one order or the other, then combined. */
  lemma PairBinCorrect(c: Context, f: Layout, dropped: set<nat>, s: State, rax: Option<nat>, cpu: Cpu, link: Word,
      i: Instr, prev: Option<nat>, omit: Option<nat>, s': State, left: Operand, right: Operand, park: bool)
      returns (cpu': Cpu)
    requires i.Bin? && Ready(c, f, dropped, s, rax, cpu, link, i, prev, omit)
    requires RunInstr(c, i, s) == Some(s') && EmitStore(f, omit, i.t).Some? && EmitPair(f, rax, left, right, park).Some?
    requires (left == i.a && right == i.b) || (Commutative(i.op) && left == i.b && right == i.a)
    requires right.Temp? && right.t in dropped ==> park
    ensures Ran(c, dropped, Code(EmitPair(f, rax, left, right, park).value.insns + BinCode(i.op) +
        EmitStore(f, omit, i.t).value.insns, Some(i.t)),
                cpu, s', cpu', link)
  {
    hide Exec1, Exec, CpuRel, MemRel, Respects, BinCode, EmitPair, BinValue, RunInstr, Assign, SafeInstr;
    BinMeaning(c, i, s, s');
    var l, r := Value(c, s, left).value, Value(c, s, right).value;
    if Commutative(i.op) { CommutativeValue(i.op, Value(c, s, i.a).value, Value(c, s, i.b).value); }
    if left.Temp? && left.t in dropped { FirstOperand(f, dropped, i, prev, left); }
    if right.Temp? && right.t in dropped { FirstOperand(f, dropped, i, prev, right); }
    var pair := EmitPair(f, rax, left, right, park).value;
    var ready := PairCorrect(c, f, dropped, s, rax, cpu, link, left, right, park, l, r);
    BinCodeCorrect(c.world, ready, i.op);
    var out := Exec(c.world, BinCode(i.op), ready).value;
    ExecAppend(c.world, pair.insns, BinCode(i.op), cpu, ready);
    Forget(c.frame, dropped, s, pair.rax, ready, out, link, 0);
    cpu' := FinishStore(c, f, dropped, s, pair.insns + BinCode(i.op), cpu, out, link, omit, i.t, s');
  }

  /** In a binary instruction the operand loaded second is never one left unstored. */
  lemma SecondOperand(f: Layout, dropped: set<nat>, rax: Option<nat>, i: Instr, prev: Option<nat>)
    requires i.Bin? && SafeInstr(f, dropped, i, prev) && (prev.Some? ==> rax == prev)
    ensures i.b.Temp? && i.b.t in dropped ==> Commutative(i.op) && rax == Some(i.b.t)
    ensures i.a.Temp? && i.a.t in dropped && i.b.Temp? ==> i.a != i.b && rax == Some(i.a.t)
  {
    if i.b.Temp? && i.b.t in dropped { FirstOperand(f, dropped, i, prev, i.b); }
    if i.a.Temp? && i.a.t in dropped { FirstOperand(f, dropped, i, prev, i.a); }
  }

  lemma BinCorrect(c: Context, f: Layout, dropped: set<nat>, s: State, rax: Option<nat>, cpu: Cpu, link: Word,
      i: Instr, prev: Option<nat>, omit: Option<nat>, s': State) returns (cpu': Cpu)
    requires i.Bin? && Ready(c, f, dropped, s, rax, cpu, link, i, prev, omit)
    requires RunInstr(c, i, s) == Some(s') && EmitInstr(f, rax, omit, i).Some?
    ensures Ran(c, dropped, EmitInstr(f, rax, omit, i).value, cpu, s', cpu', link)
  {
    hide Exec, Exec1, RunInstr, EmitLoad, EmitPair, BinCode, CpuRel, MemRel, CacheOk, Fits, Ran;
    SecondOperand(f, dropped, rax, i, prev);
    var turned := Turned(i.op, i.a, i.b);
    var left := if turned then i.b else i.a;
    var right := if turned then i.a else i.b;
    if i.op.Add? && right.Imm? && FitsInt32(right.v) {
      cpu' := AddImmediateCorrect(c, f, dropped, s, rax, cpu, link, i, prev, omit, s', left, right);
    } else {
      var (left', right', park) := PairOrder(rax, i.op, i.a, i.b);
      cpu' := PairBinCorrect(c, f, dropped, s, rax, cpu, link, i, prev, omit, s', left', right', park);
    }
  }
}
