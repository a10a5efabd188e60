/** The labels in emitted code are those of its blocks and conditionals. */
module Labels {
  import opened Options
  import opened Words
  import opened Ir
  import opened Machine
  import opened Allocation
  import opened Emission

  /** How many conditionals define t. */
  function Conds(i: Instr, t: nat): nat
    decreases i, 0
  {
    match i
    case Cond(u, ci, _, ti, _, fi, _) =>
      (if u == t then 1 else 0) + CondsFrom(ci, 0, t) + CondsFrom(ti, 0, t) + CondsFrom(fi, 0, t)
    case _ => 0
  }

  function CondsFrom(list: seq<Instr>, k: nat, t: nat): nat
    requires k <= |list|
    decreases list, |list| - k
  {
    if k == |list| then 0 else Conds(list[k], t) + CondsFrom(list, k + 1, t)
  }

  function CondsBlocks(blocks: seq<Block>, k: nat, t: nat): nat
    requires k <= |blocks|
    decreases |blocks| - k
  {
    if k == |blocks| then 0 else CondsFrom(blocks[k].instrs, 0, t) + CondsBlocks(blocks, k + 1, t)
  }

  function CondLabels(l: Label, conds: nat): nat { if l.BlockLabel? then 0 else conds }

  function LabelTemp(l: Label): nat
  {
    match l
    case BlockLabel(id) => id
    case ElseLabel(t) => t
    case DoneLabel(t) => t
  }

  predicate Unmarked(code: seq<Insn>) { forall i :: 0 <= i < |code| ==> !code[i].Mark? }

  lemma {:induction false} UnmarkedCount(code: seq<Insn>, l: Label)
    requires Unmarked(code)
    ensures Marks(code, l) == 0
  {
    if code != [] { UnmarkedCount(code[1..], l); }
  }

  lemma LoadUnmarked(f: Layout, rax: Option<nat>, bias: nat, a: Operand)
    requires EmitLoad(f, rax, bias, a).Some?
    ensures Unmarked(EmitLoad(f, rax, bias, a).value.insns)
  {
  }

  lemma {:induction false} PushesUnmarked(f: Layout, rax: Option<nat>, args: seq<Operand>, k: nat, pushed: nat)
    requires k <= |args| && EmitPushes(f, rax, args, k, pushed).Some?
    ensures Unmarked(EmitPushes(f, rax, args, k, pushed).value.insns)
    decreases k
  {
    if k > 6 {
      LoadUnmarked(f, rax, 8 * pushed, args[k - 1]);
      PushesUnmarked(f, EmitLoad(f, rax, 8 * pushed, args[k - 1]).value.rax, args, k - 1, pushed + 1);
    }
  }

  lemma {:induction false} MovesUnmarked(f: Layout, rax: Option<nat>, args: seq<Operand>, k: nat)
    requires k <= |args| && EmitMoves(f, rax, args, k).Some?
    ensures Unmarked(EmitMoves(f, rax, args, k).value.insns)
    decreases |args| - k
  {
    if k < |args| && k < 6 {
      LoadUnmarked(f, rax, StackBytes(|args|), args[k]);
      MovesUnmarked(f, EmitLoad(f, rax, StackBytes(|args|), args[k]).value.rax, args, k + 1);
    }
  }

  lemma ArgumentsUnmarked(f: Layout, rax: Option<nat>, args: seq<Operand>)
    requires EmitArguments(f, rax, args).Some?
    ensures Unmarked(EmitArguments(f, rax, args).value.insns)
  {
    PushesUnmarked(f, rax, args, |args|, 0);
    MovesUnmarked(f, EmitPushes(f, rax, args, |args|, 0).value.rax, args, 0);
  }

  lemma PairUnmarked(f: Layout, rax: Option<nat>, left: Operand, right: Operand, park: bool)
    requires EmitPair(f, rax, left, right, park).Some?
    ensures Unmarked(EmitPair(f, rax, left, right, park).value.insns)
  {
    LoadUnmarked(f, rax, 0, left);
    if !(park && right.Temp? && rax == Some(right.t)) {
      LoadUnmarked(f, EmitLoad(f, rax, 0, left).value.rax, 0, right);
    }
  }

  lemma BinCodeUnmarked(op: BinOp)
    ensures Unmarked(BinCode(op))
  {
  }

  lemma BinUnmarked(f: Layout, rax: Option<nat>, omit: Option<nat>, t: nat, op: BinOp, a: Operand, b: Operand)
    requires EmitBin(f, rax, omit, t, op, a, b).Some?
    ensures Unmarked(EmitBin(f, rax, omit, t, op, a, b).value.insns)
  {
    hide EmitLoad, EmitPair, BinCode;
    BinCodeUnmarked(op);
    var right := if Turned(op, a, b) then a else b;
    if op.Add? && right.Imm? && FitsInt32(right.v) {
      LoadUnmarked(f, rax, 0, if Turned(op, a, b) then b else a);
    } else {
      var (l, r, park) := PairOrder(rax, op, a, b);
      PairUnmarked(f, rax, l, r, park);
    }
  }

  lemma FetchUnmarked(width: Width, signed: bool)
    ensures Unmarked(LoadCode(width, signed))
  {
  }

  lemma ExtUnmarked(signed: bool, size: int)
    ensures Unmarked(ExtCode(signed, size))
  {
  }

  lemma SimpleUnmarked(f: Layout, rax: Option<nat>, omit: Option<nat>, i: Instr)
    requires !i.Cond? && EmitInstr(f, rax, omit, i).Some?
    ensures Unmarked(EmitInstr(f, rax, omit, i).value.insns)
  {
    hide EmitLoad, EmitArguments, EmitPair, EmitBin, EmitFrom, EmitThenLoad, EmitArm, CondCode, LoadCode, ExtCode;
    match i
    case Copy(_, a) => LoadUnmarked(f, rax, 0, a);
    case Load(_, width, signed, a) =>
      LoadUnmarked(f, rax, 0, a);
      FetchUnmarked(width, signed);
    case Ext(_, signed, size, a) =>
      LoadUnmarked(f, rax, 0, a);
      ExtUnmarked(signed, size);
    case Store(_, a, b) => PairUnmarked(f, rax, a, b, false);
    case Bin(t, op, a, b) => BinUnmarked(f, rax, omit, t, op, a, b);
    case Call(_, _, args) => ArgumentsUnmarked(f, rax, args);
    case CallIndirect(_, callee, args) =>
      ArgumentsUnmarked(f, rax, args);
      LoadUnmarked(f, EmitArguments(f, rax, args).value.rax, StackBytes(|args|), callee);
    case _ =>
  }

  lemma MarksOne(i: Insn, l: Label)
    ensures Marks([i], l) == if i == Mark(l) then 1 else 0
  {
  }

  /** The labels of a conditional's code are its own two and those of its parts. */
  lemma CondCodeMarks(t: nat, test: seq<Insn>, yes: seq<Insn>, no: seq<Insn>, l: Label)
    ensures Marks(CondCode(t, test, yes, no), l) ==
      Marks(test, l) + Marks(yes, l) + Marks(no, l) + (if l == ElseLabel(t) || l == DoneLabel(t) then 1 else 0)
  {
    hide Marks;
    var branch := [Test, JumpCompare(Eq, ElseLabel(t))];
    var skip := [JumpTo(DoneLabel(t)), Mark(ElseLabel(t))];
    var done := [Mark(DoneLabel(t))];
    UnmarkedCount(branch, l);
    MarksAppend(test + branch + yes + skip + no, done, l);
    MarksAppend(test + branch + yes + skip, no, l);
    MarksAppend(test + branch + yes, skip, l);
    MarksAppend(test + branch, yes, l);
    MarksAppend(test, branch, l);
    MarksAppend([JumpTo(DoneLabel(t))], [Mark(ElseLabel(t))], l);
    assert [JumpTo(DoneLabel(t))] + [Mark(ElseLabel(t))] == skip;
    MarksOne(JumpTo(DoneLabel(t)), l);
    MarksOne(Mark(ElseLabel(t)), l);
    MarksOne(Mark(DoneLabel(t)), l);
  }

  lemma {:induction false} InstrMarks(f: Layout, rax: Option<nat>, omit: Option<nat>, i: Instr, l: Label)
    requires EmitInstr(f, rax, omit, i).Some?
    ensures Marks(EmitInstr(f, rax, omit, i).value.insns, l) == CondLabels(l, Conds(i, LabelTemp(l)))
    decreases i, 0
  {
    if i.Cond? {
      ThenLoadMarks(f, i.ci, rax, i.co, l);
      ArmMarks(f, i.ti, i.to, i.t, l);
      ArmMarks(f, i.fi, i.fo, i.t, l);
      CondCodeMarks(i.t, EmitThenLoad(f, i.ci, rax, i.co).value.insns, EmitArm(f, i.ti, i.to, i.t).value.insns,
          EmitArm(f, i.fi, i.fo, i.t).value.insns, l);
    } else {
      SimpleUnmarked(f, rax, omit, i);
      UnmarkedCount(EmitInstr(f, rax, omit, i).value.insns, l);
    }
  }

  lemma {:induction false} ThenLoadMarks(f: Layout, list: seq<Instr>, rax: Option<nat>, a: Operand, l: Label)
    requires EmitThenLoad(f, list, rax, a).Some?
    ensures Marks(EmitThenLoad(f, list, rax, a).value.insns, l) == CondLabels(l, CondsFrom(list, 0, LabelTemp(l)))
    decreases list, |list| + 1
  {
    var code := EmitFrom(f, list, 0, rax, OperandTemp(a)).value;
    var load := EmitLoad(f, code.rax, 0, a).value.insns;
    ListMarks(f, list, 0, rax, OperandTemp(a), l);
    LoadUnmarked(f, code.rax, 0, a);
    UnmarkedCount(load, l);
    MarksAppend(code.insns, load, l);
  }

  lemma {:induction false} ArmMarks(f: Layout, list: seq<Instr>, a: Operand, t: nat, l: Label)
    requires EmitArm(f, list, a, t).Some?
    ensures Marks(EmitArm(f, list, a, t).value.insns, l) == CondLabels(l, CondsFrom(list, 0, LabelTemp(l)))
    decreases list, |list| + 2
  {
    var store := EmitStore(f, None, t).value.insns;
    ThenLoadMarks(f, list, None, a, l);
    UnmarkedCount(store, l);
    MarksAppend(EmitThenLoad(f, list, None, a).value.insns, store, l);
  }

  lemma {:induction false} ListMarks(f: Layout, list: seq<Instr>, k: nat, rax: Option<nat>, final: Option<nat>,
      l: Label)
    requires k <= |list| && EmitFrom(f, list, k, rax, final).Some?
    ensures Marks(EmitFrom(f, list, k, rax, final).value.insns, l) == CondLabels(l, CondsFrom(list, k, LabelTemp(l)))
    decreases list, |list| - k
  {
    if k < |list| {
      var omit := Elides(f, list, k, final);
      var code := EmitInstr(f, rax, omit, list[k]).value;
      InstrMarks(f, rax, omit, list[k], l);
      ListMarks(f, list, k + 1, code.rax, final, l);
      MarksAppend(code.insns, EmitFrom(f, list, k + 1, code.rax, final).value.insns, l);
    }
  }

  // ---- Blocks -----------------------------------------------------------------------

  function BlockLabels(blocks: seq<Block>, k: nat, id: nat): nat
    requires k <= |blocks|
    decreases |blocks| - k
  {
    if k == |blocks| then 0 else (if blocks[k].id == id && id != 0 then 1 else 0) + BlockLabels(blocks, k + 1, id)
  }

  lemma TermUnmarked(f: Layout, rax: Option<nat>, term: Term, next: Option<nat>)
    requires EmitTerm(f, rax, term, next).Some?
    ensures Unmarked(EmitTerm(f, rax, term, next).value)
  {
    match term
    case Ret(value) => if value.Some? { LoadUnmarked(f, rax, 0, value.value); }
    case Jump(_) =>
    case Branch(a, _, _) => LoadUnmarked(f, rax, 0, a);
    case BranchCmp(_, a, b, _, _) => PairUnmarked(f, rax, a, b, true);
  }

  function LabelCount(blocks: seq<Block>, k: nat, l: Label): nat
    requires k <= |blocks|
  {
    if l.BlockLabel? then BlockLabels(blocks, k, l.id) else CondsBlocks(blocks, k, l.t)
  }

  lemma {:induction false} BlocksMarks(f: Layout, blocks: seq<Block>, k: nat, l: Label)
    requires k <= |blocks| && EmitBlocks(f, blocks, k).Some?
    ensures Marks(EmitBlocks(f, blocks, k).value, l) == LabelCount(blocks, k, l)
    decreases |blocks| - k
  {
    if k < |blocks| {
      var body := EmitFrom(f, blocks[k].instrs, 0, None, TermTemp(blocks[k])).value;
      var term := EmitTerm(f, body.rax, blocks[k].term, NextId(blocks, k)).value;
      ListMarks(f, blocks[k].instrs, 0, None, TermTemp(blocks[k]), l);
      TermUnmarked(f, body.rax, blocks[k].term, NextId(blocks, k));
      UnmarkedCount(term, l);
      MarksAppend(BlockMark(blocks[k].id) + body.insns, term, l);
      MarksAppend(BlockMark(blocks[k].id), body.insns, l);
      MarksAppend(BlockMark(blocks[k].id) + body.insns + term, EmitBlocks(f, blocks, k + 1).value, l);
      BlocksMarks(f, blocks, k + 1, l);
    }
  }
}
