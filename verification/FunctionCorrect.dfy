/** The code of a whole function simulates its intermediate code. */
module FunctionCorrect {
  import opened Options
  import opened Words
  import opened Ir
  import opened Machine
  import opened Allocation
  import opened Emission
  import opened Elision
  import opened Relation
  import opened InstrCorrect
  import opened ListCorrect
  import opened Labels

  /** Distinct block ids, id 0 never a target, conditionals with distinct temporaries,
      and parameters read first, in a first block that is then not jumped to. */
  ghost predicate WellFormed(blocks: seq<Block>)
  {
    && blocks != []
    && (forall i, j :: 0 <= i < j < |blocks| ==> blocks[i].id != blocks[j].id)
    && (forall i :: 0 <= i < |blocks| ==> 0 !in Targets(blocks[i].term))
    && (forall t: nat :: CondsBlocks(blocks, 0, t) <= 1)
    && ParamsFirst(blocks[0].instrs, 0)
    && (forall i :: 0 <= i < |blocks| && blocks[0].id in Targets(blocks[i].term) ==> NoParamsFrom(blocks[0].instrs, 0))
    && (forall i :: 0 < i < |blocks| ==> NoParamsFrom(blocks[i].instrs, 0))
  }

  lemma {:induction false} LabelOnce(blocks: seq<Block>, k: nat, id: nat)
    requires k <= |blocks|
    requires forall i, j :: k <= i < j < |blocks| ==> blocks[i].id != blocks[j].id
    ensures BlockLabels(blocks, k, id) <= 1
    ensures (forall i :: k <= i < |blocks| ==> blocks[i].id != id) ==> BlockLabels(blocks, k, id) == 0
    decreases |blocks| - k
  {
    if k < |blocks| { LabelOnce(blocks, k + 1, id); }
  }

  lemma EmittedLabelled(blocks: seq<Block>)
    requires WellFormed(blocks) && EmitFunction(blocks).Some?
    ensures Labelled(EmitFunction(blocks).value)
  {
    hide EmitBlocks, EmitTerm, Exec1, LayoutOf;
    var f := LayoutOf(blocks);
    var code := EmitBlocks(f, blocks, 0).value;
    forall l ensures Marks(EmitFunction(blocks).value, l) <= 1 {
      UnmarkedCount(Prologue(f), l);
      MarksAppend(Prologue(f), code, l);
      BlocksMarks(f, blocks, 0, l);
      if l.BlockLabel? { LabelOnce(blocks, 0, l.id); }
    }
  }

  // ---- Where blocks are -------------------------------------------------------------

  /** The position, in the code of blocks k and later, of block j. */
  function Offset(f: Layout, blocks: seq<Block>, k: nat, j: nat): nat
    requires k <= j <= |blocks| && EmitBlocks(f, blocks, k).Some?
    decreases j - k
  {
    if k == j then 0 else |EmitBlock(f, blocks[k], NextId(blocks, k)).value| + Offset(f, blocks, k + 1, j)
  }

  lemma {:induction false} BlockAt(f: Layout, blocks: seq<Block>, k: nat, j: nat, prog: seq<Insn>, pc: nat)
    requires k <= j < |blocks| && EmitBlocks(f, blocks, k).Some? && CodeAt(prog, pc, EmitBlocks(f, blocks, k).value)
    ensures EmitBlock(f, blocks[j], NextId(blocks, j)).Some?
    ensures CodeAt(prog, pc + Offset(f, blocks, k, j), EmitBlock(f, blocks[j], NextId(blocks, j)).value)
    ensures j + 1 < |blocks| ==>
      Offset(f, blocks, k, j + 1) == Offset(f, blocks, k, j) + |EmitBlock(f, blocks[j], NextId(blocks, j)).value|
    decreases j - k
  {
    var first := EmitBlock(f, blocks[k], NextId(blocks, k)).value;
    CodeAtParts(prog, pc, first, EmitBlocks(f, blocks, k + 1).value);
    if k < j { BlockAt(f, blocks, k + 1, j, prog, pc + |first|); }
  }

  /** The pc of block j in the emitted function. */
  ghost function BlockPc(blocks: seq<Block>, j: nat): nat
    requires j <= |blocks| && EmitFunction(blocks).Some?
  {
    |Prologue(LayoutOf(blocks))| + Offset(LayoutOf(blocks), blocks, 0, j)
  }

  lemma BlockCode(blocks: seq<Block>, j: nat)
    requires j < |blocks| && EmitFunction(blocks).Some?
    ensures var code := EmitBlock(LayoutOf(blocks), blocks[j], NextId(blocks, j));
      && code.Some? && CodeAt(EmitFunction(blocks).value, BlockPc(blocks, j), code.value)
      && (j + 1 < |blocks| ==> BlockPc(blocks, j + 1) == BlockPc(blocks, j) + |code.value|)
    ensures blocks[j].id != 0 ==>
      && BlockPc(blocks, j) < |EmitFunction(blocks).value|
      && EmitFunction(blocks).value[BlockPc(blocks, j)] == Mark(BlockLabel(blocks[j].id))
  {
    hide EmitTerm, EmitFrom, EmitInstr, LayoutOf, Allocated;
    var f := LayoutOf(blocks);
    var prog := EmitFunction(blocks).value;
    var pc := |Prologue(f)|;
    var code := EmitBlocks(f, blocks, 0).value;
    assert prog[pc..pc + |code|] == code;
    BlockAt(f, blocks, 0, j, prog, pc);
    if blocks[j].id != 0 { AtIndex(prog, BlockPc(blocks, j), EmitBlock(f, blocks[j], NextId(blocks, j)).value, 0); }
  }

  /** A jump to a block's label arrives at that block. */
  lemma JumpArrives(blocks: seq<Block>, target: nat, cpu: Cpu)
    requires WellFormed(blocks) && EmitFunction(blocks).Some? && target != 0 && FindBlock(blocks, target).Some?
    ensures GoLabel(EmitFunction(blocks).value, BlockLabel(target), cpu) ==
        Running(BlockPc(blocks, FindBlock(blocks, target).value), cpu)
  {
    var k := FindBlock(blocks, target).value;
    EmittedLabelled(blocks);
    BlockCode(blocks, k);
    GotoMark(EmitFunction(blocks).value, BlockPc(blocks, k), BlockLabel(target), cpu);
  }

  /** The block laid out next is where control falls through to. */
  lemma FallThrough(blocks: seq<Block>, k: nat, target: nat)
    requires WellFormed(blocks) && EmitFunction(blocks).Some? && k < |blocks| && NextId(blocks, k) == Some(target)
    ensures FindBlock(blocks, target) == Some(k + 1)
  {
    FindDistinct(blocks, k + 1);
  }

  // ---- Terminators --------------------------------------------------------------------

  lemma InvertedComparison(op: BinOp, l: Word, r: Word)
    requires IsComparison(op)
    ensures IsComparison(Invert(op)) && Compare(Invert(op), l, r) == !Compare(op, l, r)
  {
  }

  /** The branch code goes where the comparison says, by jump or by falling through. */
  lemma BranchRuns(world: World, blocks: seq<Block>, k: nat, pc: nat, op: BinOp, yes: nat, no: nat, cpu: Cpu)
      returns (n: nat)
    requires WellFormed(blocks) && EmitFunction(blocks).Some? && k < |blocks| && IsComparison(op) && yes != 0 && no != 0
    requires CodeAt(EmitFunction(blocks).value, pc, BranchCode(op, yes, no, NextId(blocks, k)))
    requires k + 1 < |blocks| ==> pc + |BranchCode(op, yes, no, NextId(blocks, k))| == BlockPc(blocks, k + 1)
    requires FindBlock(blocks, if Compare(op, cpu.left, cpu.right) then yes else no).Some?
    ensures var target := FindBlock(blocks, if Compare(op, cpu.left, cpu.right) then yes else no).value;
      Run(world, EmitFunction(blocks).value, n, Running(pc, cpu)) == Running(BlockPc(blocks, target), cpu)
  {
    hide EmitFunction, BlockPc, Exec1, FindMark, GoLabel, Compare, Run, Step, IsComparison, Invert;
    var prog := EmitFunction(blocks).value;
    var taken := Compare(op, cpu.left, cpu.right);
    var target := if taken then yes else no;
    var next := NextId(blocks, k);
    var code := BranchCode(op, yes, no, next);
    AtIndex(prog, pc, code, 0);
    InvertedComparison(op, cpu.left, cpu.right);
    BranchTaken(world, prog, pc, code[0].op, code[0].l, cpu);
    JumpArrives(blocks, target, cpu);
    if next == Some(target) { FallThrough(blocks, k, target); }
    n := 1;
    if next != Some(yes) && next != Some(no) && !taken {
      AtIndex(prog, pc, code, 1);
      JumpTaken(world, prog, pc + 1, BlockLabel(no), cpu);
      Then(world, prog, 1, 1, Running(pc, cpu), Running(pc + 1, cpu),
          Running(BlockPc(blocks, FindBlock(blocks, no).value), cpu));
      n := 2;
    }
  }

  /** The machine is past the instructions of a block, at its terminator. */
  ghost predicate AtTerm(c: Context, blocks: seq<Block>, k: nat, pc: nat, s: State, rax: Option<nat>, cpu: Cpu,
      link: Word)
    requires k < |blocks|
  {
    var f := LayoutOf(blocks);
    && WellFormed(blocks) && EmitFunction(blocks).Some? && Fits(c, f, Elided(blocks))
    && CpuRel(c.frame, Elided(blocks), s, rax, cpu, link, 0)
    && EmitTerm(f, rax, blocks[k].term, NextId(blocks, k)).Some?
    && CodeAt(EmitFunction(blocks).value, pc, EmitTerm(f, rax, blocks[k].term, NextId(blocks, k)).value)
    && (k + 1 < |blocks| ==> pc + |EmitTerm(f, rax, blocks[k].term, NextId(blocks, k)).value| == BlockPc(blocks, k + 1))
    && (forall t :: t in Elided(blocks) ==> LooseTerm(f, blocks[k], t) == 0)
    && (forall t: nat :: Last(f, blocks[k].instrs, TermTemp(blocks[k]), t) == 1 ==> rax == Some(t))
  }

  /** An unstored temporary the terminator reads is in rax, and read first. */
  lemma TermOperand(c: Context, blocks: seq<Block>, k: nat, pc: nat, s: State, rax: Option<nat>, cpu: Cpu, link: Word,
      t: nat)
    requires k < |blocks| && AtTerm(c, blocks, k, pc, s, rax, cpu, link)
    requires t in Elided(blocks) && TermUses(blocks[k].term, t) >= 1
    ensures rax == Some(t) && TermUses(blocks[k].term, t) == 1
  {
    assert LooseTerm(LayoutOf(blocks), blocks[k], t) == 0;
  }

  lemma JumpGoes(c: Context, blocks: seq<Block>, k: nat, pc: nat, s: State, rax: Option<nat>, cpu: Cpu, link: Word)
      returns (n: nat)
    requires k < |blocks| && AtTerm(c, blocks, k, pc, s, rax, cpu, link) && blocks[k].term.Jump?
    requires FindBlock(blocks, blocks[k].term.target).Some?
    ensures Run(c.world, EmitFunction(blocks).value, n, Running(pc, cpu)) ==
      Running(BlockPc(blocks, FindBlock(blocks, blocks[k].term.target).value), cpu)
  {
    hide Exec1, CpuRel, MemRel, Fits, Step, Run;
    var target := blocks[k].term.target;
    if NextId(blocks, k) == Some(target) {
      FallThrough(blocks, k, target);
      n := 0;
      RunNone(c.world, EmitFunction(blocks).value, Running(pc, cpu));
    } else {
      AtIndex(EmitFunction(blocks).value, pc, [JumpTo(BlockLabel(target))], 0);
      JumpTaken(c.world, EmitFunction(blocks).value, pc, BlockLabel(target), cpu);
      JumpArrives(blocks, target, cpu);
      n := 1;
    }
  }

  /** Load and compare code, then the branch: where the terminator goes, the machine goes. */
  lemma TestThenBranch(c: Context, blocks: seq<Block>, k: nat, pc: nat, s: State, cpu: Cpu, link: Word,
      code: seq<Insn>, mid: Cpu, op: BinOp, yes: nat, no: nat) returns (n: nat)
    requires WellFormed(blocks) && EmitFunction(blocks).Some? && k < |blocks| && IsComparison(op) && yes != 0 && no != 0
    requires CodeAt(EmitFunction(blocks).value, pc, code + BranchCode(op, yes, no, NextId(blocks, k)))
    requires k + 1 < |blocks| ==> pc + |code + BranchCode(op, yes, no, NextId(blocks, k))| == BlockPc(blocks, k + 1)
    requires Exec(c.world, code, cpu) == Some(mid)
    requires FindBlock(blocks, if Compare(op, mid.left, mid.right) then yes else no).Some?
    ensures var target := FindBlock(blocks, if Compare(op, mid.left, mid.right) then yes else no).value;
      Run(c.world, EmitFunction(blocks).value, n, Running(pc, cpu)) == Running(BlockPc(blocks, target), mid)
  {
    hide EmitFunction, BlockPc, WellFormed, Exec, Exec1, Run, CodeAt;
    var prog := EmitFunction(blocks).value;
    var branch := BranchCode(op, yes, no, NextId(blocks, k));
    CodeAtParts(prog, pc, code, branch);
    var a := CodeRuns(c.world, prog, pc, code, cpu, mid);
    var b := BranchRuns(c.world, blocks, k, pc + |code|, op, yes, no, mid);
    var target := FindBlock(blocks, if Compare(op, mid.left, mid.right) then yes else no).value;
    Then(c.world, prog, a, b, Running(pc, cpu), Running(pc + |code|, mid), Running(BlockPc(blocks, target), mid));
    n := a + b;
  }

  lemma BranchGoes(c: Context, blocks: seq<Block>, k: nat, pc: nat, s: State, rax: Option<nat>, cpu: Cpu, link: Word,
      w: Word) returns (n: nat, cpu': Cpu)
    requires k < |blocks| && AtTerm(c, blocks, k, pc, s, rax, cpu, link) && blocks[k].term.Branch?
    requires Value(c, s, blocks[k].term.cond) == Some(w)
    requires FindBlock(blocks, if w != ZERO then blocks[k].term.yes else blocks[k].term.no).Some?
    ensures var target := FindBlock(blocks, if w != ZERO then blocks[k].term.yes else blocks[k].term.no).value;
      Run(c.world, EmitFunction(blocks).value, n, Running(pc, cpu)) == Running(BlockPc(blocks, target), cpu')
    ensures CpuRel(c.frame, Elided(blocks), s, None, cpu', link, 0)
  {
    hide BlockPc, Exec1, Run, CodeAt, MemRel, Respects, BranchCode;
    var f, term := LayoutOf(blocks), blocks[k].term;
    if term.cond.Temp? && term.cond.t in Elided(blocks) {
      TermOperand(c, blocks, k, pc, s, rax, cpu, link, term.cond.t);
    }
    var l := EmitLoad(f, rax, 0, term.cond).value;
    LoadCorrect(c, f, Elided(blocks), s, rax, cpu, link, 0, term.cond, w);
    var loaded := cpu.(rax := w);
    cpu' := loaded.(left := w, right := ZERO);
    TestRuns(c.world, l.insns, cpu, loaded);
    Forget(c.frame, Elided(blocks), s, l.rax, loaded, cpu', link, 0);
    n := TestThenBranch(c, blocks, k, pc, s, cpu, link, l.insns + [Test], cpu', Ne, term.yes, term.no);
  }

  lemma TestRuns(world: World, code: seq<Insn>, cpu: Cpu, mid: Cpu)
    requires Exec(world, code, cpu) == Some(mid)
    ensures Exec(world, code + [Test], cpu) == Some(mid.(left := mid.rax, right := ZERO))
  {
    hide Exec;
    ExecAppend(world, code, [Test], cpu, mid);
    ExecOne(world, Test, mid);
  }

  lemma CmpRuns(world: World, code: seq<Insn>, cpu: Cpu, mid: Cpu)
    requires Exec(world, code, cpu) == Some(mid)
    ensures Exec(world, code + [Cmp], cpu) == Some(mid.(left := mid.rbx, right := mid.rax))
  {
    hide Exec;
    ExecAppend(world, code, [Cmp], cpu, mid);
    ExecOne(world, Cmp, mid);
  }

  lemma CompareGoes(c: Context, blocks: seq<Block>, k: nat, pc: nat, s: State, rax: Option<nat>, cpu: Cpu, link: Word,
      l: Word, r: Word) returns (n: nat, cpu': Cpu)
    requires k < |blocks| && AtTerm(c, blocks, k, pc, s, rax, cpu, link) && blocks[k].term.BranchCmp? &&
        IsComparison(blocks[k].term.op)
    requires Value(c, s, blocks[k].term.a) == Some(l) && Value(c, s, blocks[k].term.b) == Some(r)
    requires FindBlock(blocks, if Compare(blocks[k].term.op, l, r) then blocks[k].term.yes else blocks[k].term.no).Some?
    ensures var target := FindBlock(blocks, if Compare(blocks[k].term.op, l, r) then blocks[k].term.yes
        else blocks[k].term.no).value;
      Run(c.world, EmitFunction(blocks).value, n, Running(pc, cpu)) == Running(BlockPc(blocks, target), cpu')
    ensures CpuRel(c.frame, Elided(blocks), s, None, cpu', link, 0)
  {
    hide BlockPc, Exec1, Exec, Run, CodeAt, MemRel, Respects, BranchCode, EmitPair;
    var f, term := LayoutOf(blocks), blocks[k].term;
    if term.a.Temp? && term.a.t in Elided(blocks) { TermOperand(c, blocks, k, pc, s, rax, cpu, link, term.a.t); }
    if term.b.Temp? && term.b.t in Elided(blocks) { TermOperand(c, blocks, k, pc, s, rax, cpu, link, term.b.t); }
    var p := EmitPair(f, rax, term.a, term.b, true).value;
    var ready := PairCorrect(c, f, Elided(blocks), s, rax, cpu, link, term.a, term.b, true, l, r);
    cpu' := ready.(left := l, right := r);
    CmpRuns(c.world, p.insns, cpu, ready);
    Forget(c.frame, Elided(blocks), s, p.rax, ready, cpu', link, 0);
    n := TestThenBranch(c, blocks, k, pc, s, cpu, link, p.insns + [Cmp], cpu', term.op, term.yes, term.no);
  }

  /** The function has returned w: the stack pointer is at the return address, which is
      as it was, and memory and calls are those of the intermediate code. */
  ghost predicate Returned(f: Frame, s: State, w: Word, cpu: Cpu, link: Word)
  {
    && cpu.rax == w
    && cpu.rsp == f.ReturnAddress()
    && ReadWord(cpu.mem, cpu.rsp) == link
    && cpu.trace == s.trace
    && Agree(f, s.mem, cpu.mem)
  }

  lemma ReturnRuns(c: Context, blocks: seq<Block>, k: nat, pc: nat, s: State, rax: Option<nat>, cpu: Cpu, link: Word,
      w: Word) returns (n: nat, cpu': Cpu)
    requires k < |blocks| && AtTerm(c, blocks, k, pc, s, rax, cpu, link) && blocks[k].term.Ret?
    requires RunTerm(c, blocks[k].term, s) == Some(Return(w))
    ensures Run(c.world, EmitFunction(blocks).value, n, Running(pc, cpu)) == Halted(cpu') &&
        Returned(c.frame, s, w, cpu', link)
  {
    hide BlockPc, Exec1, Exec, Run, CodeAt, Respects, EmitFunction, WellFormed, EmitLoad, LayoutOf, MemRel, CpuRel,
        LooseTerm, Returned, Step;
    var f, value := LayoutOf(blocks), blocks[k].term.value;
    var prog := EmitFunction(blocks).value;
    var l := (if value.Some? then EmitLoad(f, rax, 0, value.value) else Some(EmitImmediate(0))).value;
    if value.Some? {
      if value.value.Temp? && value.value.t in Elided(blocks) {
        TermOperand(c, blocks, k, pc, s, rax, cpu, link, value.value.t);
      }
      LoadCorrect(c, f, Elided(blocks), s, rax, cpu, link, 0, value.value, w);
    } else {
      ZeroRuns(c.world, cpu);
      Forget(c.frame, Elided(blocks), s, rax, cpu, cpu.(rax := ZERO), link, 0);
    }
    var loaded := cpu.(rax := w);
    ReturnedState(c.frame, Elided(blocks), s, l.rax, loaded, link);
    var pop := if f.total > 0 then [AddRsp(f.total * 8)] else [];
    cpu' := loaded.(rsp := loaded.rsp + 8 * f.total);
    PopRuns(c.world, l.insns, cpu, loaded, f.total);
    CodeAtParts(prog, pc, l.insns + pop, [Leave]);
    var a := CodeRuns(c.world, prog, pc, l.insns + pop, cpu, cpu');
    AtIndex(prog, pc + |l.insns + pop|, [Leave], 0);
    LeaveTaken(c.world, prog, pc + |l.insns + pop|, cpu');
    Then(c.world, prog, a, 1, Running(pc, cpu), Running(pc + |l.insns + pop|, cpu'), Halted(cpu'));
    n := a + 1;
  }

  lemma LeaveTaken(world: World, prog: seq<Insn>, at: nat, cpu: Cpu)
    requires at < |prog| && prog[at] == Leave
    ensures Run(world, prog, 1, Running(at, cpu)) == Halted(cpu)
  {
    hide Exec1;
    OneStep(world, prog, at, cpu);
  }

  lemma ReturnedState(f: Frame, dropped: set<nat>, s: State, rax: Option<nat>, cpu: Cpu, link: Word)
    requires CpuRel(f, dropped, s, rax, cpu, link, 0)
    ensures Returned(f, s, cpu.rax, cpu.(rsp := cpu.rsp + 8 * f.total), link)
  {
  }

  lemma ZeroRuns(world: World, cpu: Cpu)
    ensures Exec(world, EmitImmediate(0).insns, cpu) == Some(cpu.(rax := ZERO))
  {
    hide Exec;
    BytesOfSign(false, 8);
    assert Fill(false, 8) == ZERO;
    ExecOne(world, LoadImmediate(0), cpu);
  }

  lemma PopRuns(world: World, code: seq<Insn>, cpu: Cpu, mid: Cpu, total: nat)
    requires Exec(world, code, cpu) == Some(mid)
    ensures Exec(world, code + (if total > 0 then [AddRsp(total * 8)] else []), cpu) ==
        Some(mid.(rsp := mid.rsp + 8 * total))
  {
    hide Exec;
    if total > 0 {
      ExecAppend(world, code, [AddRsp(total * 8)], cpu, mid);
      ExecOne(world, AddRsp(total * 8), mid);
    } else {
      assert code + [] == code;
    }
  }

  // ---- Blocks -------------------------------------------------------------------------

  /** The machine is at the start of block k, representing state s. */
  ghost predicate AtBlockStart(c: Context, blocks: seq<Block>, k: nat, s: State, m: Status, link: Word)
    requires k < |blocks|
  {
    && WellFormed(blocks) && EmitFunction(blocks).Some? && Fits(c, LayoutOf(blocks), Elided(blocks))
    && m.Running? && m.pc == BlockPc(blocks, k)
    && CpuRel(c.frame, Elided(blocks), s, None, m.cpu, link, 0)
  }

  /** A block that reads parameters is entered with the arguments in place. */
  ghost predicate EntryOk(c: Context, block: Block, cpu: Cpu)
  {
    NoParamsFrom(block.instrs, 0) || (ParamsFirst(block.instrs, 0) && ArgsIntact(c, cpu))
  }

  /** The body of a block brings the machine to its terminator, in at least one step
      unless the block is the unlabelled one. */
  lemma BodyRuns(c: Context, blocks: seq<Block>, k: nat, s: State, m: Status, link: Word, s': State)
      returns (n: nat, pc: nat, rax: Option<nat>, cpu: Cpu)
    requires k < |blocks| && AtBlockStart(c, blocks, k, s, m, link) && EntryOk(c, blocks[k], m.cpu)
    requires RunFrom(c, blocks[k].instrs, 0, s) == Some(s')
    ensures Run(c.world, EmitFunction(blocks).value, n, m) == Running(pc, cpu) &&
        AtTerm(c, blocks, k, pc, s', rax, cpu, link)
    ensures blocks[k].id != 0 ==> n >= 1
  {
    hide Exec1, Exec, Step, Run, CodeAt, CpuRel, MemRel, Respects, EmitFrom, EmitTerm, RunFrom, SafeBlock, Labelled,
        BlockPc, EmitFunction, LayoutOf, ArgsIntact;
    var f, prog, block := LayoutOf(blocks), EmitFunction(blocks).value, blocks[k];
    EmittedLabelled(blocks);
    BlockCode(blocks, k);
    var body := EmitFrom(f, block.instrs, 0, None, TermTemp(block)).value;
    var term := EmitTerm(f, body.rax, block.term, NextId(blocks, k)).value;
    CodeAtParts(prog, m.pc, BlockMark(block.id) + body.insns, term);
    CodeAtParts(prog, m.pc, BlockMark(block.id), body.insns);
    var a := MarkRuns(c.world, prog, m.pc, block.id, m.cpu);
    StartOfBlock(c, blocks, k, s, m.cpu, link);
    var b, cpu' := ListRuns(c, f, Elided(blocks), prog, m.pc + |BlockMark(block.id)|, s, None, m.cpu, link,
        block.instrs, 0, TermTemp(block), s');
    n, pc, rax, cpu := a + b, m.pc + |BlockMark(block.id)| + |body.insns|, body.rax, cpu';
    Then(c.world, prog, a, b, m, Running(m.pc + |BlockMark(block.id)|, m.cpu), Running(pc, cpu));
    EndOfBody(blocks, k);
  }

  lemma MarkRuns(world: World, prog: seq<Insn>, pc: nat, id: nat, cpu: Cpu) returns (n: nat)
    requires CodeAt(prog, pc, BlockMark(id))
    ensures Run(world, prog, n, Running(pc, cpu)) == Running(pc + |BlockMark(id)|, cpu)
    ensures id != 0 ==> n >= 1
  {
    if id != 0 {
      AtIndex(prog, pc, BlockMark(id), 0);
      PassMark(world, prog, pc, BlockLabel(id), cpu);
      n := 1;
    } else {
      n := 0;
    }
  }

  lemma StartOfBlock(c: Context, blocks: seq<Block>, k: nat, s: State, cpu: Cpu, link: Word)
    requires k < |blocks| && WellFormed(blocks) && Fits(c, LayoutOf(blocks), Elided(blocks))
    requires CpuRel(c.frame, Elided(blocks), s, None, cpu, link, 0) && EntryOk(c, blocks[k], cpu)
    ensures ListReady(c, LayoutOf(blocks), Elided(blocks), s, None, cpu, link, blocks[k].instrs, 0, TermTemp(blocks[k]))
  {
    hide CpuRel, MemRel, LayoutOf, Elided, LooseFrom, SitesFrom;
    BlocksSafe(blocks, k);
  }

  lemma EndOfBody(blocks: seq<Block>, k: nat)
    requires k < |blocks| && EmitFrom(LayoutOf(blocks), blocks[k].instrs, 0, None, TermTemp(blocks[k])).Some?
    ensures forall t :: t in Elided(blocks) ==> LooseTerm(LayoutOf(blocks), blocks[k], t) == 0
    ensures forall t: nat :: Last(LayoutOf(blocks), blocks[k].instrs, TermTemp(blocks[k]), t) == 1 ==>
      EmitFrom(LayoutOf(blocks), blocks[k].instrs, 0, None, TermTemp(blocks[k])).value.rax == Some(t)
  {
    BlocksSafe(blocks, k);
    forall t: nat | Last(LayoutOf(blocks), blocks[k].instrs, TermTemp(blocks[k]), t) == 1
      ensures EmitFrom(LayoutOf(blocks), blocks[k].instrs, 0, None, TermTemp(blocks[k])).value.rax == Some(t)
    {
      LastInRax(LayoutOf(blocks), blocks[k].instrs, 0, None, TermTemp(blocks[k]), t);
    }
  }

  /** One block transition of the intermediate code is matched by the machine. */
  lemma BlockRuns(c: Context, blocks: seq<Block>, k: nat, s: State, m: Status, link: Word) returns (n: nat, m': Status)
    requires k < |blocks| && AtBlockStart(c, blocks, k, s, m, link) && EntryOk(c, blocks[k], m.cpu)
    ensures Run(c.world, EmitFunction(blocks).value, n, m) == m'
    ensures match StepBlock(c, blocks, k, s)
      case AtBlock(k', s') => AtBlockStart(c, blocks, k', s', m', link) && blocks[k'].id != 0 &&
          EntryOk(c, blocks[k'], m'.cpu) && (blocks[k].id != 0 ==> n >= 1)
      case Done(w, s') => m'.Halted? && Returned(c.frame, s', w, m'.cpu, link)
      case Undefined => true
  {
    hide Exec1, Exec, Step, CodeAt, CpuRel, MemRel, Respects, EmitFrom, EmitTerm, RunFrom, Labelled, BlockPc,
        EmitFunction, LayoutOf, ArgsIntact, Returned, AtTerm, BranchCode;
    n, m' := 0, m;
    var ran := RunFrom(c, blocks[k].instrs, 0, s);
    if ran.Some? && RunTerm(c, blocks[k].term, ran.value).Some? {
      var s', prog, term := ran.value, EmitFunction(blocks).value, blocks[k].term;
      var a, pc, rax, cpu := BodyRuns(c, blocks, k, s, m, link, s');
      AtTermParts(c, blocks, k, pc, s', rax, cpu, link);
      var out := RunTerm(c, term, s').value;
      if out.Return? {
        var b, cpu' := ReturnRuns(c, blocks, k, pc, s', rax, cpu, link, out.w);
        Then(c.world, prog, a, b, m, Running(pc, cpu), Halted(cpu'));
        n, m' := a + b, Halted(cpu');
      } else if FindBlock(blocks, out.target).Some? {
        var k' := FindBlock(blocks, out.target).value;
        assert out.target in Targets(term);
        assert NoParamsFrom(blocks[k'].instrs, 0);
        var b, cpu' := GotoRuns(c, blocks, k, pc, s', rax, cpu, link, k');
        Then(c.world, prog, a, b, m, Running(pc, cpu), Running(BlockPc(blocks, k'), cpu'));
        n, m' := a + b, Running(BlockPc(blocks, k'), cpu');
      }
    }
  }

  lemma AtTermParts(c: Context, blocks: seq<Block>, k: nat, pc: nat, s: State, rax: Option<nat>, cpu: Cpu, link: Word)
    requires k < |blocks| && AtTerm(c, blocks, k, pc, s, rax, cpu, link)
    ensures WellFormed(blocks) && EmitFunction(blocks).Some? && Fits(c, LayoutOf(blocks), Elided(blocks))
    ensures CpuRel(c.frame, Elided(blocks), s, None, cpu, link, 0)
  {
  }

  lemma GotoRuns(c: Context, blocks: seq<Block>, k: nat, pc: nat, s: State, rax: Option<nat>, cpu: Cpu, link: Word,
      k': nat) returns (n: nat, cpu': Cpu)
    requires k < |blocks| && k' < |blocks| && AtTerm(c, blocks, k, pc, s, rax, cpu, link)
    requires RunTerm(c, blocks[k].term, s).Some? && RunTerm(c, blocks[k].term, s).value.Goto?
    requires FindBlock(blocks, RunTerm(c, blocks[k].term, s).value.target) == Some(k')
    ensures Run(c.world, EmitFunction(blocks).value, n, Running(pc, cpu)) == Running(BlockPc(blocks, k'), cpu')
    ensures CpuRel(c.frame, Elided(blocks), s, None, cpu', link, 0)
  {
    hide Exec1, Exec, Step, Run, CodeAt, CpuRel, MemRel, Respects, EmitTerm, BlockPc, EmitFunction, LayoutOf, AtTerm,
        BranchCode;
    match blocks[k].term
    case Jump(_) =>
      n := JumpGoes(c, blocks, k, pc, s, rax, cpu, link);
      AtTermParts(c, blocks, k, pc, s, rax, cpu, link);
      cpu' := cpu;
    case Branch(a, _, _) =>
      n, cpu' := BranchGoes(c, blocks, k, pc, s, rax, cpu, link, Value(c, s, a).value);
    case BranchCmp(_, a, b, _, _) =>
      n, cpu' := CompareGoes(c, blocks, k, pc, s, rax, cpu, link, Value(c, s, a).value, Value(c, s, b).value);
  }

  // ---- Functions ----------------------------------------------------------------------

  /** The machine has just been called: the return address is on top of the stack, and
      storage represents the initial state. */
  ghost predicate Called(c: Context, blocks: seq<Block>, s: State, cpu: Cpu, link: Word)
  {
    && cpu.rsp == c.frame.ReturnAddress()
    && cpu.trace == s.trace
    && MemRel(c.frame, Elided(blocks), s, cpu.mem, link)
    && (forall j :: 0 <= j < |c.args| ==>
          c.args[j] == if j < 6 then ArgRegister(cpu, j) else ReadWord(cpu.mem, cpu.rsp + 8 + 8 * (j - 6)))
  }

  /** What the theorem asks of the function, its frame and its callees. */
  ghost predicate Compiled(c: Context, blocks: seq<Block>)
  {
    && WellFormed(blocks)
    && EmitFunction(blocks).Some?
    && c.frame == FunctionFrame(blocks, c.frame.base)
    && Respects(c.world, c.frame)
  }

  lemma CompiledFits(c: Context, blocks: seq<Block>)
    requires Compiled(c, blocks)
    ensures Fits(c, LayoutOf(blocks), Elided(blocks))
  {
    AllocFunctionLaid(blocks, c.frame.base, c.frame.exposed);
    ElidedPrivate(blocks);
  }

  lemma PrologueRuns(c: Context, blocks: seq<Block>, s: State, cpu: Cpu, link: Word) returns (n: nat, m: Status)
    requires Compiled(c, blocks) && Called(c, blocks, s, cpu, link)
    ensures Run(c.world, EmitFunction(blocks).value, n, Running(0, cpu)) == m
    ensures AtBlockStart(c, blocks, 0, s, m, link) && EntryOk(c, blocks[0], m.cpu)
  {
    hide Exec1, MemRel, Respects, EmitBlocks;
    CompiledFits(c, blocks);
    var f, prog := LayoutOf(blocks), EmitFunction(blocks).value;
    var entered := cpu.(rsp := c.frame.base);
    m := Running(BlockPc(blocks, 0), entered);
    EntersFrame(c.world, f, cpu, c.frame);
    CodeAtParts(prog, 0, Prologue(f), EmitBlocks(f, blocks, 0).value);
    n := CodeRuns(c.world, prog, 0, Prologue(f), cpu, entered);
  }

  lemma EntersFrame(world: World, f: Layout, cpu: Cpu, frame: Frame)
    requires cpu.rsp == frame.ReturnAddress() && frame.total == f.total
    ensures Exec(world, Prologue(f), cpu) == Some(cpu.(rsp := frame.base))
  {
    if f.total > 0 { ExecOne(world, SubRsp(f.total * 8), cpu); }
  }

  /** What the machine has reached when the intermediate code has made n transitions. */
  ghost predicate Matches(c: Context, blocks: seq<Block>, n: nat, p: Progress, steps: nat, m: Status, link: Word)
    requires p.AtBlock? ==> p.block < |blocks|
  {
    match p
    case AtBlock(k, s) => AtBlockStart(c, blocks, k, s, m, link) && EntryOk(c, blocks[k], m.cpu) && steps + 1 >= n &&
        (n > 0 ==> blocks[k].id != 0)
    case Done(w, s) => m.Halted? && Returned(c.frame, s, w, m.cpu, link)
    case Undefined => true
  }

  lemma {:induction false} RunsMatch(c: Context, blocks: seq<Block>, n: nat, s: State, m: Status, link: Word)
      returns (steps: nat, m': Status)
    requires blocks != [] && EmitFunction(blocks).Some? && AtBlockStart(c, blocks, 0, s, m, link) &&
        EntryOk(c, blocks[0], m.cpu)
    ensures Run(c.world, EmitFunction(blocks).value, steps, m) == m'
    ensures Matches(c, blocks, n, RunBlocks(c, blocks, n, AtBlock(0, s)), steps, m', link)
  {
    hide Run, StepBlock, AtBlockStart, EntryOk, Returned;
    if n == 0 {
      steps, m' := 0, m;
      RunNone(c.world, EmitFunction(blocks).value, m);
    } else {
      var a, mid := RunsMatch(c, blocks, n - 1, s, m, link);
      RunBlocksLast(c, blocks, n - 1, AtBlock(0, s));
      var p := RunBlocks(c, blocks, n - 1, AtBlock(0, s));
      if p.AtBlock? {
        var b, last := BlockRuns(c, blocks, p.block, p.s, mid, link);
        Then(c.world, EmitFunction(blocks).value, a, b, m, mid, last);
        steps, m' := a + b, last;
      } else {
        steps, m' := a, mid;
      }
    }
  }

  lemma RunNone(world: World, prog: seq<Insn>, m: Status)
    ensures Run(world, prog, 0, m) == m
  {
  }

  lemma {:induction false} RunBlocksLast(c: Context, blocks: seq<Block>, n: nat, p: Progress)
    requires p.AtBlock? ==> p.block < |blocks|
    ensures var q := RunBlocks(c, blocks, n, p);
      RunBlocks(c, blocks, n + 1, p) == if q.AtBlock? then StepBlock(c, blocks, q.block, q.s) else q
  {
    if n > 0 && p.AtBlock? { RunBlocksLast(c, blocks, n - 1, StepBlock(c, blocks, p.block, p.s)); }
  }

  /** The main theorem of the back end: after any number of block transitions of the
      intermediate code, the machine, started at the function's first instruction, has
      reached the corresponding block, or has returned the same value with the same
      memory and the same calls. */
  lemma FunctionSimulated(c: Context, blocks: seq<Block>, s: State, cpu: Cpu, link: Word, n: nat)
      returns (steps: nat, m: Status)
    requires Compiled(c, blocks) && Called(c, blocks, s, cpu, link)
    ensures Run(c.world, EmitFunction(blocks).value, steps, Running(0, cpu)) == m
    ensures Matches(c, blocks, n, RunBlocks(c, blocks, n, AtBlock(0, s)), steps, m, link)
  {
    hide Run, AtBlockStart, EntryOk, Returned, Called, EmitFunction;
    var a, start := PrologueRuns(c, blocks, s, cpu, link);
    var b, last := RunsMatch(c, blocks, n, s, start, link);
    Then(c.world, EmitFunction(blocks).value, a, b, Running(0, cpu), start, last);
    steps, m := a + b, last;
  }

  lemma {:induction false} HaltedStays(world: World, prog: seq<Insn>, a: nat, b: nat, m: Status)
    requires a <= b && !Run(world, prog, a, m).Running?
    ensures Run(world, prog, b, m) == Run(world, prog, a, m)
  {
    RunTwice(world, prog, a, b - a, m);
  }

  /** A function whose every transition is defined returns exactly when its code halts. */
  lemma ReturnsIffHalts(c: Context, blocks: seq<Block>, s: State, cpu: Cpu, link: Word)
    requires Compiled(c, blocks) && Called(c, blocks, s, cpu, link)
    requires forall n: nat :: !RunBlocks(c, blocks, n, AtBlock(0, s)).Undefined?
    ensures (exists n: nat :: RunBlocks(c, blocks, n, AtBlock(0, s)).Done?) <==>
            (exists n: nat :: Run(c.world, EmitFunction(blocks).value, n, Running(0, cpu)).Halted?)
  {
    hide Run, RunBlocks, Called, EmitFunction;
    var prog := EmitFunction(blocks).value;
    if n: nat :| RunBlocks(c, blocks, n, AtBlock(0, s)).Done? {
      var steps, m := FunctionSimulated(c, blocks, s, cpu, link, n);
      assert Run(c.world, prog, steps, Running(0, cpu)).Halted?;
    }
    if h: nat :| Run(c.world, prog, h, Running(0, cpu)).Halted? {
      var n := h + 1;
      var steps, m := FunctionSimulated(c, blocks, s, cpu, link, n);
      if !RunBlocks(c, blocks, n, AtBlock(0, s)).Done? {
        assert !RunBlocks(c, blocks, n, AtBlock(0, s)).Undefined?;
        HaltedStays(c.world, prog, h, steps, Running(0, cpu));
        assert false;
      }
    }
  }
}
