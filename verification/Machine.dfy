/** The amd64 instructions the back end emits, and a machine that runs them.

    Flags hold the two words last compared; TEST compares rax with zero. The
    machine is stuck (None) where the processor would fault, at an unknown label,
    or past the end of the code. */
module Machine {
  import opened Options
  import opened Words
  import opened Ir

  datatype Label = BlockLabel(id: nat) | ElseLabel(t: nat) | DoneLabel(t: nat)

  datatype Insn =
    | LoadImmediate(v: int)
    | LoadImmediate64(w: Word)
    | LoadLabel(name: string)
    | LoadFunction(name: string)
    | LoadRsp(offset: int)
    | LeaRsp(offset: int)
    | StoreRsp(offset: int)
    | CopyRaxToRbx
    | Exchange
    | AddImmediate(v: int)
    | LoadInteger | LoadWord | LoadSignedWord | LoadHalf | LoadSignedHalf | LoadByte | LoadSignedChar
    | StoreMem(width: Width)
    | MoveZx | Sext8 | Sext16 | Sext32 | Zext16 | Zext32
    | AddRbx | SubRbx | MoveRbxToRax | MulRbx | Cqto | DivRbx | UdivRbx | ClearRdx | MoveRdxToRax
    | CopyRaxToRcx | ShlCl | ShrCl | SarCl | AndRbx | OrRbx | XorRbx
    | Cmp
    | SetByte(op: BinOp)
    | Test
    | MoveToArg(index: nat)
    | MoveFromArg(index: nat)
    | PushRax
    | CallFunction(name: string, argc: nat)
    | CallRax(argc: nat)
    | AddRsp(n: nat)
    | SubRsp(n: nat)
    | Mark(l: Label)
    | JumpTo(l: Label)
    | JumpCompare(op: BinOp, l: Label)
    | Leave

  datatype Cpu = Cpu(
    rax: Word, rbx: Word, rcx: Word, rdx: Word, rdi: Word, rsi: Word, r8: Word, r9: Word,
    rsp: int, left: Word, right: Word, mem: Mem, trace: seq<Event>)

  /** The six argument registers, in order. */
  function ArgRegister(cpu: Cpu, index: nat): Word
    requires index < 6
  {
    if index == 0 then cpu.rdi
    else if index == 1 then cpu.rsi
    else if index == 2 then cpu.rdx
    else if index == 3 then cpu.rcx
    else if index == 4 then cpu.r8
    else cpu.r9
  }

  function SetArgRegister(cpu: Cpu, index: nat, w: Word): Cpu
    requires index < 6
  {
    if index == 0 then cpu.(rdi := w)
    else if index == 1 then cpu.(rsi := w)
    else if index == 2 then cpu.(rdx := w)
    else if index == 3 then cpu.(rcx := w)
    else if index == 4 then cpu.(r8 := w)
    else cpu.(r9 := w)
  }

  /** What a callee finds as its argument: the first six in registers, the others
      above the stack pointer at the call. */
  function Argument(cpu: Cpu, index: nat): Word
  {
    if index < 6 then ArgRegister(cpu, index) else ReadWord(cpu.mem, cpu.rsp + 8 * (index - 6))
  }

  function Arguments(cpu: Cpu, k: nat, argc: nat): (ws: seq<Word>)
    requires k <= argc
    ensures |ws| == argc - k
    ensures forall i :: 0 <= i < argc - k ==> ws[i] == Argument(cpu, k + i)
    decreases argc - k
  {
    if k == argc then [] else [Argument(cpu, k)] + Arguments(cpu, k + 1, argc)
  }

  /** A call pushes the return address and comes back with the stack as it was. */
  function CallCpu(world: World, cpu: Cpu, callee: Callee, argc: nat): Cpu
  {
    var trace := cpu.trace + [Event(callee, Arguments(cpu, 0, argc))];
    var effect := world.call(trace, Write(cpu.mem, cpu.rsp - 8, world.link(trace)));
    var s := effect.scratch;
    Cpu(effect.result, s.rbx, s.rcx, s.rdx, s.rdi, s.rsi, s.r8, s.r9, cpu.rsp, s.rbx, s.rcx, effect.mem, trace)
  }

  /** Signed division of the 128-bit value rdx:rax, faulting as the processor does. */
  function DivideSigned(cpu: Cpu): Option<Cpu>
  {
    var n := Signed(cpu.rdx) * 0x1_0000_0000_0000_0000 + Unsigned(cpu.rax);
    var d := Signed(cpu.rbx);
    if d != 0 && InSigned64(TruncDiv(n, d))
    then Some(cpu.(rax := WordOf(TruncDiv(n, d)), rdx := WordOf(TruncRem(n, d))))
    else None
  }

  /** Unsigned division of rdx:rax; the quotient fits a word exactly when rdx is below the divisor. */
  function DivideUnsigned(cpu: Cpu): Option<Cpu>
  {
    var n := Unsigned(cpu.rdx) * 0x1_0000_0000_0000_0000 + Unsigned(cpu.rax);
    var d := Unsigned(cpu.rbx);
    if Unsigned(cpu.rdx) < d
    then Some(cpu.(rax := WordOf(n / d), rdx := WordOf(n % d)))
    else None
  }

  function LoadFrom(cpu: Cpu, n: nat, signed: bool): Cpu
    requires n <= 8
  {
    cpu.(rax := Extend(Read(cpu.mem, Unsigned(cpu.rax), n), signed))
  }

  /** The values of an immediate operand: 32 bits, extended with their sign. */
  predicate Encodable(v: int) { -0x8000_0000 <= v <= 0x7fff_ffff }

  /** Moves between registers, constants and the frame. */
  function ExecMove(world: World, i: Insn, cpu: Cpu): Option<Cpu>
  {
    match i
    case LoadImmediate(v) => if Encodable(v) then Some(cpu.(rax := WordOf(v))) else None
    case LoadImmediate64(w) => Some(cpu.(rax := w))
    case LoadLabel(name) => Some(cpu.(rax := world.global(name)))
    case LoadFunction(name) => Some(cpu.(rax := world.func(name)))
    case LoadRsp(offset) => Some(cpu.(rax := ReadWord(cpu.mem, cpu.rsp + offset)))
    case LeaRsp(offset) => Some(cpu.(rax := WordOf(cpu.rsp + offset)))
    case StoreRsp(offset) => Some(cpu.(mem := Write(cpu.mem, cpu.rsp + offset, cpu.rax)))
    case CopyRaxToRbx => Some(cpu.(rbx := cpu.rax))
    case Exchange => Some(cpu.(rax := cpu.rbx, rbx := cpu.rax))
    case MoveRbxToRax => Some(cpu.(rax := cpu.rbx))
    case MoveRdxToRax => Some(cpu.(rax := cpu.rdx))
    case CopyRaxToRcx => Some(cpu.(rcx := cpu.rax))
    case MoveToArg(index) => if index < 6 then Some(SetArgRegister(cpu, index, cpu.rax)) else None
    case MoveFromArg(index) => if index < 6 then Some(cpu.(rax := ArgRegister(cpu, index))) else None
    case _ => None
  }

  predicate IsMove(i: Insn)
  {
    i.LoadImmediate? || i.LoadImmediate64? || i.LoadLabel? || i.LoadFunction? || i.LoadRsp? || i.LeaRsp? ||
        i.StoreRsp? ||
    i.CopyRaxToRbx? || i.Exchange? || i.MoveRbxToRax? || i.MoveRdxToRax? || i.CopyRaxToRcx? || i.MoveToArg? ||
        i.MoveFromArg?
  }

  /** Loads from the address in rax, and the store of rax at the address in rbx. */
  function ExecMemory(i: Insn, cpu: Cpu): Option<Cpu>
  {
    match i
    case LoadInteger => Some(LoadFrom(cpu, 8, false))
    case LoadWord => Some(LoadFrom(cpu, 4, false))
    case LoadSignedWord => Some(LoadFrom(cpu, 4, true))
    case LoadHalf => Some(LoadFrom(cpu, 2, false))
    case LoadSignedHalf => Some(LoadFrom(cpu, 2, true))
    case LoadByte =>
      // movsx eax: sign-extends to 32 bits and clears the upper half
      Some(cpu.(rax := Extend(Extend(Read(cpu.mem, Unsigned(cpu.rax), 1), true)[..4], false)))
    case LoadSignedChar => Some(LoadFrom(cpu, 1, true))
    case StoreMem(width) => Some(cpu.(mem := Write(cpu.mem, Unsigned(cpu.rbx), cpu.rax[..width.Size()])))
    case _ => None
  }

  predicate IsMemory(i: Insn)
  {
    i.LoadInteger? || i.LoadWord? || i.LoadSignedWord? || i.LoadHalf? || i.LoadSignedHalf? || i.LoadByte? ||
    i.LoadSignedChar? || i.StoreMem?
  }

  /** Extensions of rax. */
  function ExecExtend(i: Insn, cpu: Cpu): Option<Cpu>
  {
    match i
    case MoveZx => Some(cpu.(rax := Extend(cpu.rax[..1], false)))
    case Sext8 => Some(cpu.(rax := Extend(cpu.rax[..1], true)))
    case Sext16 => Some(cpu.(rax := Extend(cpu.rax[..2], true)))
    case Sext32 => Some(cpu.(rax := Extend(cpu.rax[..4], true)))
    case Zext16 => Some(cpu.(rax := Extend(cpu.rax[..2], false)))
    case Zext32 => Some(cpu.(rax := Extend(cpu.rax[..4], false)))
    case _ => None
  }

  predicate IsExtend(i: Insn) { i.MoveZx? || i.Sext8? || i.Sext16? || i.Sext32? || i.Zext16? || i.Zext32? }

  /** The stack pointer, and calls. */
  function ExecStack(world: World, i: Insn, cpu: Cpu): Option<Cpu>
  {
    match i
    case PushRax => Some(cpu.(rsp := cpu.rsp - 8, mem := Write(cpu.mem, cpu.rsp - 8, cpu.rax)))
    case CallFunction(name, argc) => Some(CallCpu(world, cpu, Direct(name), argc))
    case CallRax(argc) => Some(CallCpu(world, cpu, Address(cpu.rax), argc))
    case AddRsp(n) => Some(cpu.(rsp := cpu.rsp + n))
    case SubRsp(n) => Some(cpu.(rsp := cpu.rsp - n))
    case _ => None
  }

  predicate IsStack(i: Insn) { i.PushRax? || i.CallFunction? || i.CallRax? || i.AddRsp? || i.SubRsp? }

  /** Arithmetic, logic and comparisons. */
  function ExecAlu(i: Insn, cpu: Cpu): Option<Cpu>
  {
    match i
    case AddImmediate(v) =>
      if Encodable(v) then Some(cpu.(rax := WordOf(Unsigned(cpu.rax) + Unsigned(WordOf(v))))) else None
    case AddRbx => Some(cpu.(rax := WordOf(Unsigned(cpu.rax) + Unsigned(cpu.rbx))))
    case SubRbx => Some(cpu.(rbx := WordOf(Unsigned(cpu.rbx) - Unsigned(cpu.rax))))
    case MulRbx => Some(cpu.(rax := WordOf(Signed(cpu.rax) * Signed(cpu.rbx))))
    case Cqto => Some(cpu.(rdx := Fill(Negative(cpu.rax), 8)))
    case DivRbx => DivideSigned(cpu)
    case UdivRbx => DivideUnsigned(cpu)
    case ClearRdx => Some(cpu.(rdx := ZERO))
    case ShlCl => Some(cpu.(rax := ShiftLeft(cpu.rax, cpu.rcx[0] % 64)))
    case ShrCl => Some(cpu.(rax := ShiftRight(cpu.rax, cpu.rcx[0] % 64)))
    case SarCl => Some(cpu.(rax := ShiftArith(cpu.rax, cpu.rcx[0] % 64)))
    case AndRbx => Some(cpu.(rax := BytesOp(BitAnd, cpu.rax, cpu.rbx)))
    case OrRbx => Some(cpu.(rax := BytesOp(BitOr, cpu.rax, cpu.rbx)))
    case XorRbx => Some(cpu.(rax := BytesOp(BitXor, cpu.rax, cpu.rbx)))
    case Cmp => Some(cpu.(left := cpu.rbx, right := cpu.rax))
    case Test => Some(cpu.(left := cpu.rax, right := ZERO))
    case SetByte(op) =>
      if IsComparison(op)
      then Some(cpu.(rax := [if Compare(op, cpu.left, cpu.right) then 1 else 0] + cpu.rax[1..]))
      else None
    case _ => None
  }

  /** One instruction that does not jump. */
  function Exec1(world: World, i: Insn, cpu: Cpu): Option<Cpu>
  {
    if IsMove(i) then ExecMove(world, i, cpu)
    else if IsMemory(i) then ExecMemory(i, cpu)
    else if IsExtend(i) then ExecExtend(i, cpu)
    else if IsStack(i) then ExecStack(world, i, cpu)
    else if i.Mark? then Some(cpu)
    else ExecAlu(i, cpu)
  }

  /** Code without jumps, run from its first instruction to its end. */
  function Exec(world: World, code: seq<Insn>, cpu: Cpu): Option<Cpu>
  {
    if code == [] then Some(cpu) else
    var cpu' :- Exec1(world, code[0], cpu);
    Exec(world, code[1..], cpu')
  }

  lemma {:induction false} ExecAppend(world: World, a: seq<Insn>, b: seq<Insn>, cpu: Cpu, mid: Cpu)
    requires Exec(world, a, cpu) == Some(mid)
    ensures Exec(world, a + b, cpu) == Exec(world, b, mid)
  {
    hide Exec1;
    if a == [] {
      assert a + b == b;
    } else {
      assert (a + b)[1..] == a[1..] + b;
      ExecAppend(world, a[1..], b, Exec1(world, a[0], cpu).value, mid);
    }
  }

  // ---- Running flat code ------------------------------------------------------

  function FindMark(prog: seq<Insn>, k: nat, l: Label): Option<nat>
    requires k <= |prog|
    decreases |prog| - k
  {
    if k == |prog| then None else if prog[k] == Mark(l) then Some(k) else FindMark(prog, k + 1, l)
  }

  datatype Status = Running(pc: nat, cpu: Cpu) | Halted(cpu: Cpu) | Stuck

  function GoLabel(prog: seq<Insn>, l: Label, cpu: Cpu): Status
  {
    match FindMark(prog, 0, l)
    case None => Stuck
    case Some(pc) => Running(pc, cpu)
  }

  function Step(world: World, prog: seq<Insn>, pc: nat, cpu: Cpu): Status
  {
    if pc >= |prog| then Stuck else
    match prog[pc]
    case JumpTo(l) => GoLabel(prog, l, cpu)
    case JumpCompare(op, l) =>
      if !IsComparison(op) then Stuck
      else if Compare(op, cpu.left, cpu.right) then GoLabel(prog, l, cpu)
      else Running(pc + 1, cpu)
    case Leave => Halted(cpu)
    case i =>
      match Exec1(world, i, cpu)
      case None => Stuck
      case Some(cpu') => Running(pc + 1, cpu')
  }

  /** n machine steps; a halted machine stays halted. */
  function Run(world: World, prog: seq<Insn>, n: nat, m: Status): Status
  {
    if n == 0 || !m.Running? then m else Run(world, prog, n - 1, Step(world, prog, m.pc, m.cpu))
  }

  lemma {:induction false} RunTwice(world: World, prog: seq<Insn>, a: nat, b: nat, m: Status)
    ensures Run(world, prog, a + b, m) == Run(world, prog, b, Run(world, prog, a, m))
  {
    if a > 0 && m.Running? { RunTwice(world, prog, a - 1, b, Step(world, prog, m.pc, m.cpu)); }
  }

  predicate CodeAt(prog: seq<Insn>, pc: nat, code: seq<Insn>)
  {
    pc + |code| <= |prog| && prog[pc..pc + |code|] == code
  }

  lemma CodeAtParts(prog: seq<Insn>, pc: nat, a: seq<Insn>, b: seq<Insn>)
    requires CodeAt(prog, pc, a + b)
    ensures CodeAt(prog, pc, a) && CodeAt(prog, pc + |a|, b)
  {
    assert prog[pc..pc + |a|] == (a + b)[..|a|];
    assert prog[pc + |a|..pc + |a| + |b|] == (a + b)[|a|..];
  }

  lemma {:induction false} ExecRuns(world: World, prog: seq<Insn>, pc: nat, code: seq<Insn>, cpu: Cpu, cpu': Cpu)
    requires CodeAt(prog, pc, code) && Exec(world, code, cpu) == Some(cpu')
    ensures Run(world, prog, |code|, Running(pc, cpu)) == Running(pc + |code|, cpu')
    decreases |code|
  {
    if code != [] {
      assert prog[pc] == prog[pc..pc + |code|][0];
      assert prog[pc + 1..pc + |code|] == code[1..];
      ExecRuns(world, prog, pc + 1, code[1..], Exec1(world, code[0], cpu).value, cpu');
    }
  }

  // ---- Labels -----------------------------------------------------------------

  function Marks(code: seq<Insn>, l: Label): nat
  {
    if code == [] then 0 else (if code[0] == Mark(l) then 1 else 0) + Marks(code[1..], l)
  }

  lemma {:induction false} MarksAppend(a: seq<Insn>, b: seq<Insn>, l: Label)
    ensures Marks(a + b, l) == Marks(a, l) + Marks(b, l)
  {
    if a == [] {
      assert a + b == b;
    } else {
      assert (a + b)[1..] == a[1..] + b;
      MarksAppend(a[1..], b, l);
    }
  }

  lemma {:induction false} MarkCounted(code: seq<Insn>, i: nat, l: Label)
    requires i < |code| && code[i] == Mark(l)
    ensures Marks(code, l) >= 1
  {
    if i > 0 { MarkCounted(code[1..], i - 1, l); }
  }

  /** A label set once is found where it is. */
  lemma {:induction false} FindUniqueMark(prog: seq<Insn>, k: nat, i: nat, l: Label)
    requires k <= i < |prog| && prog[i] == Mark(l) && Marks(prog[k..], l) <= 1
    ensures FindMark(prog, k, l) == Some(i)
    decreases |prog| - k
  {
    assert prog[k..][1..] == prog[k + 1..];
    if k < i {
      assert prog[k + 1..][i - k - 1] == Mark(l);
      MarkCounted(prog[k + 1..], i - k - 1, l);
      FindUniqueMark(prog, k + 1, i, l);
    }
  }

  // ---- The arithmetic unit agrees with the operators' meaning --------------------

  /** Dividing the sign-extended dividend is dividing its signed value. */
  lemma SignedDividend(l: Word)
    ensures Signed(Fill(Negative(l), 8)) * 0x1_0000_0000_0000_0000 + Unsigned(l) == Signed(l)
  {
    SignFillValue(Negative(l), 8);
    assert Pow256(8) == 0x1_0000_0000_0000_0000;
  }

  /** The shift count register keeps the count modulo 64. */
  lemma ShiftCount(r: Word)
    ensures r[0] % 64 == Unsigned(r) % 64
  {
    assert Unsigned(r) == r[0] + 64 * (4 * Unsigned(r[1..]));
  }
}
