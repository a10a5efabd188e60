/** The compiler's intermediate representation and its meaning.

    Temporaries whose address is never taken live in an environment; the others,
    and the stack objects, live in memory at the address the slot allocation gives
    them. A step that C leaves undefined (division by zero, an access to storage
    the compiler keeps for itself, a temporary never assigned) has no successor. */
module Ir {
  import opened Options
  import opened Words

  datatype BinOp =
    | Add | Sub | Mul | Div | Mod | Udiv | Umod | Shl | Shr | Sar
    | Eq | Ne | Lt | Le | Gt | Ge | Ult | Ule | Ugt | Uge
    | And | Or | Xor

  datatype Operand =
    | Temp(t: nat)
    | Imm(v: int)
    | Bytes(bytes: seq<Byte>)
    | Global(name: string)
    | Func(name: string)

  datatype Width = W1 | W2 | W4 | W8 {
    function Size(): (n: nat)
      ensures 1 <= n <= 8
    {
      match this
      case W1 => 1
      case W2 => 2
      case W4 => 4
      case W8 => 8
    }
  }

  datatype Instr =
    | Param(t: nat, index: nat)
    | Alloca(t: nat, size: int)
    | Const(t: nat, v: int)
    | Copy(t: nat, a: Operand)
    | AddrOf(t: nat, src: nat)
    | Load(t: nat, width: Width, signed: bool, a: Operand)
    | Store(width: Width, a: Operand, b: Operand)
    | Ext(t: nat, signed: bool, size: int, a: Operand)
    | Bin(t: nat, op: BinOp, a: Operand, b: Operand)
    | Call(res: Option<nat>, name: string, args: seq<Operand>)
    | CallIndirect(res: Option<nat>, callee: Operand, args: seq<Operand>)
    | Cond(t: nat, ci: seq<Instr>, co: Operand, ti: seq<Instr>, to: Operand, fi: seq<Instr>, fo: Operand)

  datatype Term =
    | Ret(value: Option<Operand>)
    | Jump(target: nat)
    | Branch(cond: Operand, yes: nat, no: nat)
    | BranchCmp(op: BinOp, a: Operand, b: Operand, yes: nat, no: nat)

  datatype Block = Block(id: nat, instrs: seq<Instr>, term: Term)

  // ---- Binary operators on words -------------------------------------------

  function Abs(v: int): nat { if v < 0 then -v else v }

  /** Division of C: the quotient is truncated toward zero. */
  function TruncDiv(a: int, b: int): int
    requires b != 0
  {
    if (a < 0) == (b < 0) then Abs(a) / Abs(b) else -(Abs(a) / Abs(b))
  }

  function TruncRem(a: int, b: int): int
    requires b != 0
  {
    a - b * TruncDiv(a, b)
  }

  predicate InSigned64(v: int) { -0x8000_0000_0000_0000 <= v < 0x8000_0000_0000_0000 }

  predicate IsComparison(op: BinOp)
  {
    op.Eq? || op.Ne? || op.Lt? || op.Le? || op.Gt? || op.Ge? || op.Ult? || op.Ule? || op.Ugt? || op.Uge?
  }

  predicate Compare(op: BinOp, l: Word, r: Word)
    requires IsComparison(op)
  {
    match op
    case Eq => l == r
    case Ne => l != r
    case Lt => Signed(l) < Signed(r)
    case Le => Signed(l) <= Signed(r)
    case Gt => Signed(l) > Signed(r)
    case Ge => Signed(l) >= Signed(r)
    case Ult => Unsigned(l) < Unsigned(r)
    case Ule => Unsigned(l) <= Unsigned(r)
    case Ugt => Unsigned(l) > Unsigned(r)
    case Uge => Unsigned(l) >= Unsigned(r)
  }

  function ShiftLeft(l: Word, n: nat): Word { WordOf(Unsigned(l) * Pow2(n)) }
  function ShiftRight(l: Word, n: nat): Word { WordOf(Unsigned(l) / Pow2(n)) }
  function ShiftArith(l: Word, n: nat): Word { WordOf(Signed(l) / Pow2(n)) }

  /** The value of a binary operator; shift counts are taken modulo 64. */
  function BinValue(op: BinOp, l: Word, r: Word): Option<Word>
  {
    if IsComparison(op) then Some(BoolWord(Compare(op, l, r))) else
    match op
    case Add => Some(WordOf(Unsigned(l) + Unsigned(r)))
    case Sub => Some(WordOf(Unsigned(l) - Unsigned(r)))
    case Mul => Some(WordOf(Signed(l) * Signed(r)))
    case Div =>
      if Signed(r) != 0 && InSigned64(TruncDiv(Signed(l), Signed(r)))
      then Some(WordOf(TruncDiv(Signed(l), Signed(r)))) else None
    case Mod =>
      if Signed(r) != 0 && InSigned64(TruncDiv(Signed(l), Signed(r)))
      then Some(WordOf(TruncRem(Signed(l), Signed(r)))) else None
    case Udiv => if Unsigned(r) != 0 then Some(WordOf(Unsigned(l) / Unsigned(r))) else None
    case Umod => if Unsigned(r) != 0 then Some(WordOf(Unsigned(l) % Unsigned(r))) else None
    case Shl => Some(ShiftLeft(l, Unsigned(r) % 64))
    case Shr => Some(ShiftRight(l, Unsigned(r) % 64))
    case Sar => Some(ShiftArith(l, Unsigned(r) % 64))
    case And => Some(BytesOp(BitAnd, l, r))
    case Or => Some(BytesOp(BitOr, l, r))
    case Xor => Some(BytesOp(BitXor, l, r))
  }

  // ---- The world outside the function --------------------------------------

  datatype Callee = Direct(name: string) | Address(w: Word)

  datatype Event = Event(callee: Callee, args: seq<Word>)

  /** Registers a callee may leave with any contents, and the word a call pushes. */
  datatype Scratch = Scratch(rbx: Word, rcx: Word, rdx: Word, rdi: Word, rsi: Word, r8: Word, r9: Word, link: Word)

  datatype Effect = Effect(result: Word, mem: Mem, scratch: Scratch)

  /** Linked addresses, and what a call does: its effect depends on the calls made
      so far, itself last, and on memory. */
  datatype World = World(
    global: string -> Word,
    func: string -> Word,
    call: (seq<Event>, Mem) -> Effect,
    link: seq<Event> -> Word)

  // ---- Frames ---------------------------------------------------------------

  datatype Loc = Stack(slot: nat) | Object(slot: nat, slots: nat)

  function SlotCount(loc: Loc): nat { if loc.Stack? then 1 else loc.slots }

  /** Where a function's storage is: base is the stack pointer after the prologue,
      exposed the temporaries whose address the function takes. */
  datatype Frame = Frame(base: int, locs: map<nat, Loc>, exposed: set<nat>, total: nat) {

    function SlotAddress(slot: nat): int { base + 8 * slot }

    function ReturnAddress(): int { base + 8 * total }

    predicate Private(t: nat) { t in locs && locs[t].Stack? && t !in exposed }

    ghost predicate PrivateSlot(slot: int) { exists t :: Private(t) && locs[t].slot == slot }

    /** Storage the compiled function keeps for itself: everything below the frame,
        the private slots, and the return address. */
    ghost predicate Hidden(x: int)
    {
      x < base || PrivateSlot((x - base) / 8) || ReturnAddress() <= x < ReturnAddress() + 8
    }

    ghost predicate Visible(a: int, n: nat) { forall x :: a <= x < a + n ==> !Hidden(x) }

    /** Every location lies in the frame and no two share a slot. */
    ghost predicate Laid()
    {
      && (forall t :: t in locs ==> locs[t].slot + SlotCount(locs[t]) <= total)
      && (forall t, u :: t in locs && u in locs && t != u ==>
            locs[t].slot + SlotCount(locs[t]) <= locs[u].slot || locs[u].slot + SlotCount(locs[u]) <= locs[t].slot)
    }
  }

  datatype State = State(env: map<nat, Word>, mem: Mem, trace: seq<Event>)

  datatype Context = Context(world: World, frame: Frame, args: seq<Word>)

  // ---- Meaning of instructions ----------------------------------------------

  function PadBytes(bytes: seq<Byte>): Word
  {
    if |bytes| >= 8 then bytes[..8] else bytes + Fill(false, 8 - |bytes|)
  }

  function TempValue(f: Frame, s: State, t: nat): Option<Word>
  {
    if t !in f.locs then None
    else if f.locs[t].Object? then Some(WordOf(f.SlotAddress(f.locs[t].slot)))
    else if t in f.exposed then Some(ReadWord(s.mem, f.SlotAddress(f.locs[t].slot)))
    else if t in s.env then Some(s.env[t])
    else None
  }

  function Value(c: Context, s: State, a: Operand): Option<Word>
  {
    match a
    case Temp(t) => TempValue(c.frame, s, t)
    case Imm(v) => Some(WordOf(v))
    case Bytes(bytes) => Some(PadBytes(bytes))
    case Global(name) => Some(c.world.global(name))
    case Func(name) => Some(c.world.func(name))
  }

  function Values(c: Context, s: State, args: seq<Operand>): (r: Option<seq<Word>>)
    ensures r.Some? ==> |r.value| == |args|
  {
    if args == [] then Some([]) else
    var first :- Value(c, s, args[0]);
    var rest :- Values(c, s, args[1..]);
    Some([first] + rest)
  }

  /** Give temporary t the value w. A stack object is not assignable. */
  function Assign(f: Frame, s: State, t: nat, w: Word): Option<State>
  {
    if t !in f.locs || f.locs[t].Object? then None
    else if t in f.exposed then Some(s.(mem := Write(s.mem, f.SlotAddress(f.locs[t].slot), w)))
    else Some(s.(env := s.env[t := w]))
  }

  /** Widths other than 1, 2 and 4 extend as the next of them; above 4 nothing changes. */
  function ExtendWord(w: Word, signed: bool, size: int): Word
  {
    if size <= 1 then Extend(w[..1], signed)
    else if size <= 2 then Extend(w[..2], signed)
    else if size <= 4 then Extend(w[..4], signed)
    else w
  }

  ghost function LoadValue(f: Frame, s: State, a: Word, width: Width, signed: bool): Option<Word>
  {
    if f.Visible(Unsigned(a), width.Size())
    then Some(Extend(Read(s.mem, Unsigned(a), width.Size()), signed))
    else None
  }

  ghost function StoreValue(f: Frame, s: State, a: Word, w: Word, width: Width): Option<State>
  {
    if f.Visible(Unsigned(a), width.Size())
    then Some(s.(mem := Write(s.mem, Unsigned(a), w[..width.Size()])))
    else None
  }

  /** The caching emitter relies on this: a store must leave the temporary it stores
      with the value it had, should that temporary live in memory. */
  ghost predicate KeepsStored(f: Frame, s: State, s': State, b: Operand)
  {
    b.Temp? ==> TempValue(f, s', b.t) == TempValue(f, s, b.t)
  }

  function CallState(c: Context, s: State, callee: Callee, args: seq<Word>): (State, Word)
  {
    var trace := s.trace + [Event(callee, args)];
    var effect := c.world.call(trace, s.mem);
    (State(s.env, effect.mem, trace), effect.result)
  }

  function AssignResult(f: Frame, s: State, res: Option<nat>, w: Word): Option<State>
  {
    match res
    case None => Some(s)
    case Some(t) => Assign(f, s, t, w)
  }

  ghost function RunInstr(c: Context, i: Instr, s: State): Option<State>
    decreases i, 0
  {
    match i
    case Param(t, index) => if index < |c.args| then Assign(c.frame, s, t, c.args[index]) else None
    case Alloca(_, _) => Some(s)
    case Const(t, v) => Assign(c.frame, s, t, WordOf(v))
    case Copy(t, a) =>
      var w :- Value(c, s, a);
      Assign(c.frame, s, t, w)
    case AddrOf(t, src) =>
      if src in c.frame.locs then Assign(c.frame, s, t, WordOf(c.frame.SlotAddress(c.frame.locs[src].slot))) else None
    case Load(t, width, signed, a) =>
      var address :- Value(c, s, a);
      var w :- LoadValue(c.frame, s, address, width, signed);
      Assign(c.frame, s, t, w)
    case Store(width, a, b) =>
      var address :- Value(c, s, a);
      var w :- Value(c, s, b);
      var s' :- StoreValue(c.frame, s, address, w, width);
      if KeepsStored(c.frame, s, s', b) then Some(s') else None
    case Ext(t, signed, size, a) =>
      var w :- Value(c, s, a);
      Assign(c.frame, s, t, ExtendWord(w, signed, size))
    case Bin(t, op, a, b) =>
      var l :- Value(c, s, a);
      var r :- Value(c, s, b);
      var w :- BinValue(op, l, r);
      Assign(c.frame, s, t, w)
    case Call(res, name, args) =>
      var ws :- Values(c, s, args);
      var (s', w) := CallState(c, s, Direct(name), ws);
      AssignResult(c.frame, s', res, w)
    case CallIndirect(res, callee, args) =>
      var address :- Value(c, s, callee);
      var ws :- Values(c, s, args);
      var (s', w) := CallState(c, s, Address(address), ws);
      AssignResult(c.frame, s', res, w)
    case Cond(t, ci, co, ti, to, fi, fo) =>
      var s1 :- RunFrom(c, ci, 0, s);
      var w :- Value(c, s1, co);
      if w != ZERO then
        var s2 :- RunFrom(c, ti, 0, s1);
        var v :- Value(c, s2, to);
        Assign(c.frame, s2, t, v)
      else
        var s2 :- RunFrom(c, fi, 0, s1);
        var v :- Value(c, s2, fo);
        Assign(c.frame, s2, t, v)
  }

  /** Run the instructions of a list from position k on. */
  ghost function RunFrom(c: Context, list: seq<Instr>, k: nat, s: State): Option<State>
    requires k <= |list|
    decreases list, |list| - k
  {
    if k == |list| then Some(s) else
    var s' :- RunInstr(c, list[k], s);
    RunFrom(c, list, k + 1, s')
  }

  // ---- Meaning of functions --------------------------------------------------

  datatype Outcome = Goto(target: nat) | Return(w: Word)

  function RunTerm(c: Context, term: Term, s: State): Option<Outcome>
  {
    match term
    case Ret(None) => Some(Return(ZERO))
    case Ret(Some(a)) =>
      var w :- Value(c, s, a);
      Some(Return(w))
    case Jump(target) => Some(Goto(target))
    case Branch(a, yes, no) =>
      var w :- Value(c, s, a);
      Some(Goto(if w != ZERO then yes else no))
    case BranchCmp(op, a, b, yes, no) =>
      var l :- Value(c, s, a);
      var r :- Value(c, s, b);
      if IsComparison(op) then Some(Goto(if Compare(op, l, r) then yes else no)) else None
  }

  /** A branch on two operands compares them. */
  predicate Compares(term: Term) { term.BranchCmp? ==> IsComparison(term.op) }

  function Targets(term: Term): set<nat>
  {
    match term
    case Ret(_) => {}
    case Jump(target) => {target}
    case Branch(_, yes, no) => {yes, no}
    case BranchCmp(_, _, _, yes, no) => {yes, no}
  }

  /** The position of the first block with an id. */
  function FindBlock(blocks: seq<Block>, id: nat): (k: Option<nat>)
    ensures k.Some? ==> k.value < |blocks| && blocks[k.value].id == id
    ensures k.None? ==> forall i :: 0 <= i < |blocks| ==> blocks[i].id != id
  {
    if blocks == [] then None
    else if blocks[0].id == id then Some(0)
    else
      var k :- FindBlock(blocks[1..], id);
      Some(k + 1)
  }

  lemma {:induction false} FindDistinct(blocks: seq<Block>, k: nat)
    requires k < |blocks| && (forall i, j :: 0 <= i < j < |blocks| ==> blocks[i].id != blocks[j].id)
    ensures FindBlock(blocks, blocks[k].id) == Some(k)
  {
    if k > 0 {
      assert blocks[0].id != blocks[k].id;
      FindDistinct(blocks[1..], k - 1);
    }
  }

  /** A running function is about to execute a block; a finished one has returned. */
  datatype Progress = AtBlock(block: nat, s: State) | Done(w: Word, s: State) | Undefined

  ghost function StepBlock(c: Context, blocks: seq<Block>, k: nat, s: State): Progress
    requires k < |blocks|
  {
    var block := blocks[k];
    match RunFrom(c, block.instrs, 0, s)
    case None => Undefined
    case Some(s') =>
      match RunTerm(c, block.term, s')
      case None => Undefined
      case Some(Return(w)) => Done(w, s')
      case Some(Goto(target)) =>
        match FindBlock(blocks, target)
        case None => Undefined
        case Some(k') => AtBlock(k', s')
  }

  /** n block transitions; a finished function stays finished. */
  ghost function RunBlocks(c: Context, blocks: seq<Block>, n: nat, p: Progress): Progress
    requires p.AtBlock? ==> p.block < |blocks|
    ensures var q := RunBlocks(c, blocks, n, p); q.AtBlock? ==> q.block < |blocks|
  {
    if n == 0 || !p.AtBlock? then p else RunBlocks(c, blocks, n - 1, StepBlock(c, blocks, p.block, p.s))
  }
}
