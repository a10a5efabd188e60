/** The amd64 code the back end emits, as functions of what it knows: the slot
    layout, the use counts, and which temporary rax holds. None is a fatal
    diagnostic. */
module Emission {
  import opened Options
  import opened Words
  import opened Ir
  import opened Machine
  import opened Allocation

  /** Emitted instructions, and the temporary rax holds after them, if known. */
  datatype Code = Code(insns: seq<Insn>, rax: Option<nat>)

  datatype Layout = Layout(locs: map<nat, Loc>, uses: map<nat, nat>, total: nat)

  function UsesOf(f: Layout, t: nat): nat { if t in f.uses then f.uses[t] else 0 }

  predicate FitsInt32(v: int) { -0x8000_0000 <= v < 0x8000_0000 }

  function EmitImmediate(v: int): Code
  {
    Code([if FitsInt32(v) then LoadImmediate(v) else LoadImmediate64(WordOf(v))], None)
  }

  function EmitLocation(loc: Loc, bias: nat): Insn
  {
    if loc.Stack? then LoadRsp(8 * loc.slot + bias) else LeaRsp(8 * loc.slot + bias)
  }

  /** Load an operand into rax; bias counts the bytes pushed since the prologue. */
  function EmitLoad(f: Layout, rax: Option<nat>, bias: nat, a: Operand): Option<Code>
  {
    match a
    case Imm(v) => Some(EmitImmediate(v))
    case Bytes(bytes) => Some(Code([LoadImmediate64(PadBytes(bytes))], None))
    case Global(name) => Some(Code([LoadLabel(name)], None))
    case Func(name) => Some(Code([LoadFunction(name)], None))
    case Temp(t) =>
      if t !in f.locs then None
      else if bias == 0 && f.locs[t].Stack? && rax == Some(t) then Some(Code([], rax))
      else Some(Code([EmitLocation(f.locs[t], bias)], if bias == 0 && f.locs[t].Stack? then Some(t) else None))
  }

  /** Store rax as temporary t, unless t is the one whose store is left out. */
  function EmitStore(f: Layout, omit: Option<nat>, t: nat): Option<Code>
  {
    if t !in f.locs || f.locs[t].Object? then None
    else Some(Code(if omit == Some(t) then [] else [StoreRsp(8 * f.locs[t].slot)], Some(t)))
  }

  function EmitAddressOf(f: Layout, src: nat): Option<Code>
  {
    if src !in f.locs then None else Some(Code([LeaRsp(8 * f.locs[src].slot)], None))
  }

  predicate Commutative(op: BinOp)
  {
    op.Add? || op.Mul? || op.Eq? || op.Ne? || op.And? || op.Or? || op.Xor?
  }

  /** Apply op to rbx (left) and rax (right). */
  function BinCode(op: BinOp): seq<Insn>
  {
    match op
    case Add => [AddRbx]
    case Sub => [SubRbx, MoveRbxToRax]
    case Mul => [MulRbx]
    case Div => [Exchange, Cqto, DivRbx]
    case Mod => [Exchange, Cqto, DivRbx, MoveRdxToRax]
    case Udiv => [Exchange, ClearRdx, UdivRbx]
    case Umod => [Exchange, ClearRdx, UdivRbx, MoveRdxToRax]
    case Shl => [CopyRaxToRcx, MoveRbxToRax, ShlCl]
    case Shr => [CopyRaxToRcx, MoveRbxToRax, ShrCl]
    case Sar => [CopyRaxToRcx, MoveRbxToRax, SarCl]
    case And => [AndRbx]
    case Or => [OrRbx]
    case Xor => [XorRbx]
    case _ => [Cmp, SetByte(op), MoveZx]
  }

  /** Bring left into rbx and right into rax. When rax already holds right it is
      parked in rbx, and the two are exchanged once left is loaded. */
  function EmitPair(f: Layout, rax: Option<nat>, left: Operand, right: Operand, park: bool): Option<Code>
  {
    if park && right.Temp? && rax == Some(right.t) then
      var l :- EmitLoad(f, rax, 0, left);
      Some(Code([CopyRaxToRbx] + l.insns + [Exchange], None))
    else
      var l :- EmitLoad(f, rax, 0, left);
      var r :- EmitLoad(f, l.rax, 0, right);
      Some(Code(l.insns + [CopyRaxToRbx] + r.insns, r.rax))
  }

  /** Operands of an addition with a constant first are taken in the other order. */
  predicate Turned(op: BinOp, a: Operand, b: Operand) { op.Add? && a.Imm? && !b.Imm? }

  /** The operands of a general binary operation in the order they are loaded, and
      whether the second may be parked. */
  function PairOrder(rax: Option<nat>, op: BinOp, a: Operand, b: Operand): (Operand, Operand, bool)
  {
    var left := if Turned(op, a, b) then b else a;
    var right := if Turned(op, a, b) then a else b;
    if Commutative(op) && right.Temp? && rax == Some(right.t) then (b, a, false) else (left, right, !Turned(op, a, b))
  }

  function EmitBin(f: Layout, rax: Option<nat>, omit: Option<nat>, t: nat, op: BinOp, a: Operand,
      b: Operand): Option<Code>
  {
    var left := if Turned(op, a, b) then b else a;
    var right := if Turned(op, a, b) then a else b;
    if op.Add? && right.Imm? && FitsInt32(right.v) then
      var l :- EmitLoad(f, rax, 0, left);
      var s :- EmitStore(f, omit, t);
      Some(Code(l.insns + [AddImmediate(right.v)] + s.insns, s.rax))
    else
      var (left', right', park) := PairOrder(rax, op, a, b);
      var p :- EmitPair(f, rax, left', right', park);
      var s :- EmitStore(f, omit, t);
      Some(Code(p.insns + BinCode(op) + s.insns, s.rax))
  }

  function ExtCode(signed: bool, size: int): seq<Insn>
  {
    if size <= 1 then [if signed then Sext8 else MoveZx]
    else if size <= 2 then [if signed then Sext16 else Zext16]
    else if size <= 4 then [if signed then Sext32 else Zext32]
    else []
  }

  function LoadCode(width: Width, signed: bool): seq<Insn>
  {
    match width
    case W8 => [LoadInteger]
    case W4 => [if signed then LoadSignedWord else LoadWord]
    case W2 => [if signed then LoadSignedHalf else LoadHalf]
    case W1 => if signed then [LoadSignedChar] else [LoadByte, MoveZx]
  }

  function StackBytes(argc: nat): nat { if argc <= 6 then 0 else 8 * (argc - 6) }

  /** Push arguments k-1, k-2, ... down to the seventh; pushed counts those before. */
  function EmitPushes(f: Layout, rax: Option<nat>, args: seq<Operand>, k: nat, pushed: nat): Option<Code>
    requires k <= |args|
    decreases k
  {
    if k <= 6 then Some(Code([], rax)) else
    var l :- EmitLoad(f, rax, 8 * pushed, args[k - 1]);
    var rest :- EmitPushes(f, l.rax, args, k - 1, pushed + 1);
    Some(Code(l.insns + [PushRax] + rest.insns, rest.rax))
  }

  /** Move arguments k, k+1, ... up to the sixth into their registers. */
  function EmitMoves(f: Layout, rax: Option<nat>, args: seq<Operand>, k: nat): Option<Code>
    requires k <= |args|
    decreases |args| - k
  {
    if k == |args| || k >= 6 then Some(Code([], rax)) else
    var l :- EmitLoad(f, rax, StackBytes(|args|), args[k]);
    var rest :- EmitMoves(f, l.rax, args, k + 1);
    Some(Code(l.insns + [MoveToArg(k)] + rest.insns, rest.rax))
  }

  function EmitArguments(f: Layout, rax: Option<nat>, args: seq<Operand>): Option<Code>
  {
    var p :- EmitPushes(f, rax, args, |args|, 0);
    var m :- EmitMoves(f, p.rax, args, 0);
    Some(Code(p.insns + m.insns, m.rax))
  }

  function Cleanup(argc: nat): seq<Insn> { if StackBytes(argc) > 0 then [AddRsp(StackBytes(argc))] else [] }

  function EmitResult(f: Layout, omit: Option<nat>, res: Option<nat>): Option<Code>
  {
    if res.None? then Some(Code([], None)) else EmitStore(f, omit, res.value)
  }

  function EmitParam(f: Layout, index: nat): Insn
  {
    if index < 6 then MoveFromArg(index) else LoadRsp(f.total * 8 + 8 + (index - 6) * 8)
  }

  /** The temporary an instruction leaves in rax. */
  function DefTemp(i: Instr): Option<nat>
  {
    match i
    case Alloca(_, _) => None
    case Store(_, _, _) => None
    case Call(res, _, _) => res
    case CallIndirect(res, _, _) => res
    case Cond(_, _, _, _, _, _, _) => None
    case _ => Some(i.t)
  }

  /** Instruction i reads t first, with rax still as the previous instruction left it. */
  predicate Consumes(i: Instr, t: nat)
  {
    match i
    case Copy(_, a) => a == Temp(t)
    case Load(_, _, _, a) => a == Temp(t)
    case Ext(_, _, _, a) => a == Temp(t)
    case Store(_, a, _) => a == Temp(t)
    case Bin(_, op, a, b) => a == Temp(t) || (Commutative(op) && b == Temp(t))
    case Call(_, _, args) => 0 < |args| <= 6 && args[0] == Temp(t)
    case CallIndirect(_, _, args) => 0 < |args| <= 6 && args[0] == Temp(t)
    case _ => false
  }

  /** The temporary whose store instruction k leaves out: used once in the whole
      function, by the next instruction or by what follows the list. */
  function Elides(f: Layout, list: seq<Instr>, k: nat, final: Option<nat>): Option<nat>
    requires k < |list|
  {
    var def := DefTemp(list[k]);
    if def.None? || UsesOf(f, def.value) != 1 then None
    else if k + 1 < |list| then if Consumes(list[k + 1], def.value) then def else None
    else if def == final then def
    else None
  }

  function OperandTemp(a: Operand): Option<nat> { if a.Temp? then Some(a.t) else None }

  function EmitInstr(f: Layout, rax: Option<nat>, omit: Option<nat>, i: Instr): Option<Code>
    decreases i, 0
  {
    match i
    case Param(t, index) =>
      var s :- EmitStore(f, omit, t);
      Some(Code([EmitParam(f, index)] + s.insns, s.rax))
    case Alloca(_, _) => Some(Code([], rax))
    case Const(t, v) =>
      var s :- EmitStore(f, omit, t);
      Some(Code(EmitImmediate(v).insns + s.insns, s.rax))
    case Copy(t, a) =>
      var l :- EmitLoad(f, rax, 0, a);
      var s :- EmitStore(f, omit, t);
      Some(Code(l.insns + s.insns, s.rax))
    case AddrOf(t, src) =>
      var l :- EmitAddressOf(f, src);
      var s :- EmitStore(f, omit, t);
      Some(Code(l.insns + s.insns, s.rax))
    case Load(t, width, signed, a) =>
      var l :- EmitLoad(f, rax, 0, a);
      var s :- EmitStore(f, omit, t);
      Some(Code(l.insns + LoadCode(width, signed) + s.insns, s.rax))
    case Store(width, a, b) =>
      var p :- EmitPair(f, rax, a, b, false);
      Some(Code(p.insns + [StoreMem(width)], p.rax))
    case Ext(t, signed, size, a) =>
      var l :- EmitLoad(f, rax, 0, a);
      var s :- EmitStore(f, omit, t);
      Some(Code(l.insns + ExtCode(signed, size) + s.insns, s.rax))
    case Bin(t, op, a, b) => EmitBin(f, rax, omit, t, op, a, b)
    case Call(res, name, args) =>
      var p :- EmitArguments(f, rax, args);
      var s :- EmitResult(f, omit, res);
      Some(Code(p.insns + [CallFunction(name, |args|)] + Cleanup(|args|) + s.insns, s.rax))
    case CallIndirect(res, callee, args) =>
      var p :- EmitArguments(f, rax, args);
      var l :- EmitLoad(f, p.rax, StackBytes(|args|), callee);
      var s :- EmitResult(f, omit, res);
      Some(Code(p.insns + l.insns + [CallRax(|args|)] + Cleanup(|args|) + s.insns, s.rax))
    case Cond(t, ci, co, ti, to, fi, fo) =>
      var c :- EmitThenLoad(f, ci, rax, co);
      var y :- EmitArm(f, ti, to, t);
      var n :- EmitArm(f, fi, fo, t);
      Some(Code(CondCode(t, c.insns, y.insns, n.insns), None))
  }

  /** A list, then the operand read after it. */
  function EmitThenLoad(f: Layout, list: seq<Instr>, rax: Option<nat>, a: Operand): Option<Code>
    decreases list, |list| + 1
  {
    var c :- EmitFrom(f, list, 0, rax, OperandTemp(a));
    var l :- EmitLoad(f, c.rax, 0, a);
    Some(Code(c.insns + l.insns, l.rax))
  }

  /** An arm of a conditional: its list, then its operand stored as t. */
  function EmitArm(f: Layout, list: seq<Instr>, a: Operand, t: nat): Option<Code>
    decreases list, |list| + 2
  {
    var l :- EmitThenLoad(f, list, None, a);
    var s :- EmitStore(f, None, t);
    Some(Code(l.insns + s.insns, s.rax))
  }

  /** A conditional: test, true arm, false arm. */
  function CondCode(t: nat, test: seq<Insn>, yes: seq<Insn>, no: seq<Insn>): seq<Insn>
  {
    test + [Test, JumpCompare(Eq, ElseLabel(t))] + yes + [JumpTo(DoneLabel(t)), Mark(ElseLabel(t))] + no +
        [Mark(DoneLabel(t))]
  }

  function EmitFrom(f: Layout, list: seq<Instr>, k: nat, rax: Option<nat>, final: Option<nat>): Option<Code>
    requires k <= |list|
    decreases list, |list| - k
  {
    if k == |list| then Some(Code([], rax)) else
    var c :- EmitInstr(f, rax, Elides(f, list, k, final), list[k]);
    var rest :- EmitFrom(f, list, k + 1, c.rax, final);
    Some(Code(c.insns + rest.insns, rest.rax))
  }

  // ---- Blocks -----------------------------------------------------------------

  function Invert(op: BinOp): BinOp
  {
    match op
    case Eq => Ne
    case Ne => Eq
    case Lt => Ge
    case Le => Gt
    case Gt => Le
    case Ge => Lt
    case Ult => Uge
    case Ule => Ugt
    case Ugt => Ule
    case Uge => Ult
    case _ => op
  }

  /** Branch on a comparison already made, falling through to the next block when
      it is one of the targets. */
  function BranchCode(op: BinOp, yes: nat, no: nat, next: Option<nat>): seq<Insn>
  {
    if next == Some(yes) then [JumpCompare(Invert(op), BlockLabel(no))]
    else if next == Some(no) then [JumpCompare(op, BlockLabel(yes))]
    else [JumpCompare(op, BlockLabel(yes)), JumpTo(BlockLabel(no))]
  }

  function EmitTerm(f: Layout, rax: Option<nat>, term: Term, next: Option<nat>): Option<seq<Insn>>
  {
    match term
    case Ret(value) =>
      var l :- if value.Some? then EmitLoad(f, rax, 0, value.value) else Some(EmitImmediate(0));
      Some(l.insns + (if f.total > 0 then [AddRsp(f.total * 8)] else []) + [Leave])
    case Jump(target) => Some(if next == Some(target) then [] else [JumpTo(BlockLabel(target))])
    case Branch(a, yes, no) =>
      var l :- EmitLoad(f, rax, 0, a);
      Some(l.insns + [Test] + BranchCode(Ne, yes, no, next))
    case BranchCmp(op, a, b, yes, no) =>
      if !IsComparison(op) then None else
      var p :- EmitPair(f, rax, a, b, true);
      Some(p.insns + [Cmp] + BranchCode(op, yes, no, next))
  }

  /** The temporary the terminator reads first. */
  function TermTemp(block: Block): Option<nat>
  {
    match block.term
    case Ret(Some(a)) => OperandTemp(a)
    case Ret(None) => None
    case Jump(_) => None
    case Branch(a, _, _) => OperandTemp(a)
    case BranchCmp(_, a, b, _, _) =>
      var def := if block.instrs == [] then None else DefTemp(block.instrs[|block.instrs| - 1]);
      if def.Some? && (a == Temp(def.value) || b == Temp(def.value)) then def else None
  }

  function NextId(blocks: seq<Block>, k: nat): Option<nat>
  {
    if k + 1 < |blocks| then Some(blocks[k + 1].id) else None
  }

  function BlockMark(id: nat): seq<Insn> { if id == 0 then [] else [Mark(BlockLabel(id))] }

  function EmitBlock(f: Layout, block: Block, next: Option<nat>): Option<seq<Insn>>
  {
    var body :- EmitFrom(f, block.instrs, 0, None, TermTemp(block));
    var term :- EmitTerm(f, body.rax, block.term, next);
    Some(BlockMark(block.id) + body.insns + term)
  }

  function EmitBlocks(f: Layout, blocks: seq<Block>, k: nat): Option<seq<Insn>>
    requires k <= |blocks|
    decreases |blocks| - k
  {
    if k == |blocks| then Some([]) else
    var first :- EmitBlock(f, blocks[k], NextId(blocks, k));
    var rest :- EmitBlocks(f, blocks, k + 1);
    Some(first + rest)
  }

  function Prologue(f: Layout): seq<Insn> { if f.total > 0 then [SubRsp(f.total * 8)] else [] }

  /** What the back end knows of a function once slots are allocated and uses counted. */
  function LayoutOf(blocks: seq<Block>): Layout
  {
    var a := AllocFunction(blocks);
    Layout(a.locs, map t | t in a.locs :: UsesBlocks(blocks, 0, t), a.next)
  }

  /** Counting the uses fails on a temporary that was never given a location. */
  ghost function EmitFunction(blocks: seq<Block>): Option<seq<Insn>>
  {
    if !Allocated(blocks) then None else
    var body :- EmitBlocks(LayoutOf(blocks), blocks, 0);
    Some(Prologue(LayoutOf(blocks)) + body)
  }
}
