/** Argument passing on every target: words of any size, any number of argument registers,
    and moves to registers in either direction. amd64 has eight-byte words and six
    registers, i386 four-byte words and none. */
module Convention {
  import opened Options
  import opened Words
  import opened Ir
  import Allocation
  import Emission
  import Machine

  /** The accumulator may itself be the first argument register; it is then moved to last. */
  datatype Target = Target(word: nat, registers: nat, accumulatorFirst: bool)

  const AMD64 := Target(8, 6, false)
  const I386 := Target(4, 0, false)
  const ARM64 := Target(8, 8, true)

  predicate Sound(t: Target) { 1 <= t.word <= 8 && (t.accumulatorFirst ==> t.registers > 0) }

  datatype Insn =
    | LoadConstant(a: Operand)
    | LoadStack(offset: int)
    | AddressStack(offset: int)
    | Push
    | MoveToArgument(index: nat)
    | Pop(n: nat)
    | MoveFromArgument(index: nat)

  datatype Cpu = Cpu(acc: seq<Byte>, args: seq<seq<Byte>>, sp: int, mem: Mem)

  predicate Fits(t: Target, cpu: Cpu) {
    |cpu.acc| == t.word && |cpu.args| == t.registers && forall i :: 0 <= i < t.registers ==> |cpu.args[i]| == t.word
  }

  /** Words of labels and immediates; a word of the target. */
  function Constant(t: Target, constants: Operand -> seq<Byte>, a: Operand): (w: seq<Byte>)
    ensures |w| == t.word
  {
    var w := constants(a);
    if |w| >= t.word then w[..t.word] else w + Fill(false, t.word - |w|)
  }

  /** The argument register's contents: the accumulator may be the first of them. */
  function ArgumentRegister(t: Target, cpu: Cpu, index: nat): seq<Byte>
    requires index < t.registers && Fits(t, cpu)
  {
    if t.accumulatorFirst && index == 0 then cpu.acc else cpu.args[index]
  }

  function Step(t: Target, constants: Operand -> seq<Byte>, i: Insn, cpu: Cpu): (r: Option<Cpu>)
    requires Fits(t, cpu)
    ensures r.Some? ==> Fits(t, r.value)
  {
    match i
    case LoadConstant(a) => Some(cpu.(acc := Constant(t, constants, a)))
    case LoadStack(offset) => Some(cpu.(acc := Read(cpu.mem, cpu.sp + offset, t.word)))
    case AddressStack(offset) => Some(cpu.(acc := BytesOf(cpu.sp + offset, t.word)))
    case Push => Some(cpu.(sp := cpu.sp - t.word, mem := Write(cpu.mem, cpu.sp - t.word, cpu.acc)))
    case MoveToArgument(index) =>
      if index >= t.registers then None
      else if t.accumulatorFirst && index == 0 then Some(cpu)
      else Some(cpu.(args := cpu.args[index := cpu.acc]))
    case MoveFromArgument(index) => if index < t.registers then Some(cpu.(acc := ArgumentRegister(t, cpu, index)))
        else None
    case Pop(n) => Some(cpu.(sp := cpu.sp + n))
  }

  function Exec(t: Target, constants: Operand -> seq<Byte>, code: seq<Insn>, cpu: Cpu): (r: Option<Cpu>)
    requires Fits(t, cpu)
    ensures r.Some? ==> Fits(t, r.value)
    decreases |code|
  {
    if code == [] then Some(cpu) else
    var cpu' :- Step(t, constants, code[0], cpu);
    Exec(t, constants, code[1..], cpu')
  }

  // ---- The code --------------------------------------------------------------------------

  /** Instructions, and the temporary the accumulator holds after them, if known. */
  datatype Code = Code(insns: seq<Insn>, held: Option<nat>)

  function EmitLoad(t: Target, locs: map<nat, Loc>, held: Option<nat>, bias: nat, a: Operand): Option<Code>
  {
    if !a.Temp? then Some(Code([LoadConstant(a)], None))
    else if a.t !in locs then None
    else if bias == 0 && locs[a.t].Stack? && held == Some(a.t) then Some(Code([], held))
    else
      var offset := t.word * locs[a.t].slot + bias;
      Some(Code([if locs[a.t].Stack? then LoadStack(offset) else AddressStack(offset)], if bias == 0 &&
          locs[a.t].Stack? then Some(a.t) else None))
  }

  function StackBytes(t: Target, argc: nat): nat { if argc <= t.registers then 0 else t.word * (argc - t.registers) }

  /** Push arguments k-1, k-2, ... down to the first that is not in a register. */
  function EmitPushes(t: Target, locs: map<nat, Loc>, held: Option<nat>, args: seq<Operand>, k: nat,
      pushed: nat): Option<Code>
    requires k <= |args|
    decreases k
  {
    if k <= t.registers then Some(Code([], held)) else
    var l :- EmitLoad(t, locs, held, t.word * pushed, args[k - 1]);
    var rest :- EmitPushes(t, locs, l.held, args, k - 1, pushed + 1);
    Some(Code(l.insns + [Push] + rest.insns, rest.held))
  }

  function InRegisters(t: Target, args: seq<Operand>): nat { if |args| <= t.registers then |args| else t.registers }

  /** The argument moved after n others: upwards, or downwards to the accumulator. */
  function MovedNext(t: Target, args: seq<Operand>, n: nat): (i: nat)
    requires n < InRegisters(t, args)
    ensures i < InRegisters(t, args)
  {
    if t.accumulatorFirst then InRegisters(t, args) - 1 - n else n
  }

  /** Move the arguments still missing after n of them into their registers. */
  function EmitMoves(t: Target, locs: map<nat, Loc>, held: Option<nat>, args: seq<Operand>, n: nat): Option<Code>
    requires n <= InRegisters(t, args)
    decreases InRegisters(t, args) - n
  {
    if n == InRegisters(t, args) then Some(Code([], held)) else
    var i := MovedNext(t, args, n);
    var l :- EmitLoad(t, locs, held, StackBytes(t, |args|), args[i]);
    var rest :- EmitMoves(t, locs, l.held, args, n + 1);
    Some(Code(l.insns + [MoveToArgument(i)] + rest.insns, rest.held))
  }

  function EmitArguments(t: Target, locs: map<nat, Loc>, held: Option<nat>, args: seq<Operand>): Option<Code>
  {
    var p :- EmitPushes(t, locs, held, args, |args|, 0);
    var m :- EmitMoves(t, locs, p.held, args, 0);
    Some(Code(p.insns + m.insns, m.held))
  }

  function Cleanup(t: Target, argc: nat): seq<Insn> {
    if StackBytes(t, argc) > 0 then [Pop(StackBytes(t, argc))] else []
  }

  /** How a callee with a frame of total words fetches a parameter. */
  function EmitParameter(t: Target, total: nat, index: nat): Insn
  {
    if index < t.registers then MoveFromArgument(index)
    else LoadStack(t.word * total + t.word + t.word * (index - t.registers))
  }

  // ---- What the code does -------------------------------------------------------------------

  /** The caller's frame: its slots from base up, and the value of an operand there. */
  datatype Frame = Frame(base: int, locs: map<nat, Loc>, mem: Mem)

  function Value(t: Target, constants: Operand -> seq<Byte>, f: Frame, a: Operand): Option<seq<Byte>>
  {
    if !a.Temp? then Some(Constant(t, constants, a))
    else if a.t !in f.locs then None
    else if f.locs[a.t].Stack? then Some(Read(f.mem, f.base + t.word * f.locs[a.t].slot, t.word))
    else Some(BytesOf(f.base + t.word * f.locs[a.t].slot, t.word))
  }

  /** The frame is untouched, the stack pointer bias bytes below it, and the accumulator
      holds what it is known to hold. */
  ghost predicate Holds(t: Target, constants: Operand -> seq<Byte>, f: Frame, held: Option<nat>, cpu: Cpu, bias: nat)
  {
    && Fits(t, cpu)
    && cpu.sp == f.base - bias
    && (forall x {:trigger At(cpu.mem, x)} :: x >= f.base ==> At(cpu.mem, x) == At(f.mem, x))
    && (held.Some? ==>
         held.value in f.locs && f.locs[held.value].Stack? &&
         Value(t, constants, f, Temp(held.value)) == Some(cpu.acc))
  }

  /** Every argument's value before the call. */
  ghost predicate Valued(t: Target, constants: Operand -> seq<Byte>, f: Frame, args: seq<Operand>, ws: seq<seq<Byte>>)
  {
    |ws| == |args| && forall i :: 0 <= i < |args| ==> Value(t, constants, f, args[i]) == Some(ws[i])
  }

  /** Arguments from k on are on the stack, each where the callee will look for it once all
      are pushed. */
  ghost predicate Pushed(t: Target, f: Frame, cpu: Cpu, ws: seq<seq<Byte>>, k: nat)
  {
    forall j :: k <= j < |ws| ==> Read(cpu.mem, f.base - Depth(t, |ws| - j), t.word) == ws[j]
  }

  /** The bytes n words take. */
  function Depth(t: Target, n: nat): nat { t.word * n }

  lemma {:induction false} ExecAppend(t: Target, constants: Operand -> seq<Byte>, a: seq<Insn>, b: seq<Insn>, cpu: Cpu)
    requires Fits(t, cpu) && Exec(t, constants, a, cpu).Some?
    ensures Exec(t, constants, a + b, cpu) == Exec(t, constants, b, Exec(t, constants, a, cpu).value)
    decreases |a|
  {
    hide Step, Fits;
    if a == [] {
      assert a + b == b;
    } else {
      assert (a + b)[1..] == a[1..] + b;
      ExecAppend(t, constants, a[1..], b, Step(t, constants, a[0], cpu).value);
    }
  }

  lemma ExecOne(t: Target, constants: Operand -> seq<Byte>, i: Insn, cpu: Cpu)
    requires Fits(t, cpu)
    ensures Exec(t, constants, [i], cpu) == Step(t, constants, i, cpu)
  {
    hide Step, Fits;
    assert [i][1..] == [];
  }

  /** Loading an operand, whatever has been pushed. */
  lemma LoadCorrect(t: Target, constants: Operand -> seq<Byte>, f: Frame, held: Option<nat>, cpu: Cpu, bias: nat,
      a: Operand, w: seq<Byte>)
    requires Sound(t) && Holds(t, constants, f, held, cpu, bias) && Value(t, constants, f, a) == Some(w)
    ensures var l := EmitLoad(t, f.locs, held, bias, a);
      && l.Some? && Exec(t, constants, l.value.insns, cpu) == Some(cpu.(acc := w)) && |w| == t.word
      && Holds(t, constants, f, l.value.held, cpu.(acc := w), bias)
  {
    hide Constant, Exec;
    if !a.Temp? {
      ExecOne(t, constants, LoadConstant(a), cpu);
    } else if bias == 0 && f.locs[a.t].Stack? && held == Some(a.t) {
      ExecNone(t, constants, cpu);
    } else if f.locs[a.t].Stack? {
      var x := f.base + t.word * f.locs[a.t].slot;
      assert t.word * f.locs[a.t].slot >= 0;
      ReadSame(f.mem, cpu.mem, x, t.word);
      ExecOne(t, constants, LoadStack(t.word * f.locs[a.t].slot + bias), cpu);
    } else {
      ExecOne(t, constants, AddressStack(t.word * f.locs[a.t].slot + bias), cpu);
    }
  }

  lemma ExecNone(t: Target, constants: Operand -> seq<Byte>, cpu: Cpu)
    requires Fits(t, cpu)
    ensures Exec(t, constants, [], cpu) == Some(cpu)
  {
  }

  function AfterPush(t: Target, cpu: Cpu): Cpu {
    cpu.(sp := cpu.sp - t.word, mem := Write(cpu.mem, cpu.sp - t.word, cpu.acc))
  }

  lemma PushHolds(t: Target, constants: Operand -> seq<Byte>, f: Frame, held: Option<nat>, cpu: Cpu, bias: nat)
    requires Sound(t) && Holds(t, constants, f, held, cpu, bias)
    ensures Holds(t, constants, f, held, AfterPush(t, cpu), bias + t.word)
  {
    hide Value, Write;
  }

  lemma PushedKept(t: Target, f: Frame, cpu: Cpu, ws: seq<seq<Byte>>, k: nat, j: nat)
    requires k <= j < |ws| && cpu.sp == f.base - Depth(t, |ws| - k) && |cpu.acc| == t.word
    ensures Read(AfterPush(t, cpu).mem, f.base - Depth(t, |ws| - j), t.word) ==
        Read(cpu.mem, f.base - Depth(t, |ws| - j), t.word)
  {
    hide Read, Write;
    Above(t.word, |ws| - j, |ws| - k);
    ReadAside(cpu.mem, cpu.sp - t.word, cpu.acc, f.base - Depth(t, |ws| - j), t.word);
  }

  lemma PushKeeps(t: Target, constants: Operand -> seq<Byte>, f: Frame, held: Option<nat>, cpu: Cpu,
      ws: seq<seq<Byte>>, k: nat)
    requires Sound(t) && 0 < k <= |ws| && Holds(t, constants, f, held, cpu, Depth(t, |ws| - k)) &&
        Pushed(t, f, cpu, ws, k) && cpu.acc == ws[k - 1]
    ensures Holds(t, constants, f, held, AfterPush(t, cpu), Depth(t, |ws| - (k - 1))) &&
        Pushed(t, f, AfterPush(t, cpu), ws, k - 1)
  {
    hide Value, Read, Write, Holds, Depth, AfterPush, At;
    FitsHere(t, constants, f, held, cpu, Depth(t, |ws| - k));
    PushHolds(t, constants, f, held, cpu, Depth(t, |ws| - k));
    NextDown(t, |ws| - k, |ws| - (k - 1));
    forall j | k <= j < |ws| ensures Read(AfterPush(t, cpu).mem, f.base - Depth(t, |ws| - j), t.word) == ws[j] {
      PushedKept(t, f, cpu, ws, k, j);
    }
    JustPushed(t, cpu);
  }

  lemma JustPushed(t: Target, cpu: Cpu)
    requires |cpu.acc| == t.word
    ensures Read(AfterPush(t, cpu).mem, cpu.sp - t.word, t.word) == cpu.acc
  {
    hide Write, Read;
    ReadBack(cpu.mem, cpu.sp - t.word, cpu.acc);
  }

  lemma NextDown(t: Target, n: nat, m: nat)
    requires m == n + 1
    ensures Depth(t, m) == Depth(t, n) + t.word
  {
  }

  lemma Above(w: nat, n: nat, m: nat)
    requires n <= m
    ensures w * n <= w * m
  {
    assert w * m == w * n + w * (m - n);
  }

  lemma {:induction false} PushesCorrect(t: Target, constants: Operand -> seq<Byte>, f: Frame, held: Option<nat>,
      cpu: Cpu, args: seq<Operand>, ws: seq<seq<Byte>>, k: nat) returns (cpu': Cpu)
    requires Sound(t) && Valued(t, constants, f, args, ws) && k <= |args| && (k < t.registers ==> k == |args|)
    requires Holds(t, constants, f, held, cpu, t.word * (|ws| - k)) && Pushed(t, f, cpu, ws, k)
    ensures var p := EmitPushes(t, f.locs, held, args, k, |ws| - k);
      && p.Some? && Exec(t, constants, p.value.insns, cpu) == Some(cpu')
      && Holds(t, constants, f, p.value.held, cpu', StackBytes(t, |args|)) && Pushed(t, f, cpu', ws, t.registers)
    decreases k
  {
    hide Exec, EmitLoad, Holds, Value, Pushed, Fits;
    if k <= t.registers {
      cpu' := cpu;
      FitsHere(t, constants, f, held, cpu, t.word * (|ws| - k));
      ExecNone(t, constants, cpu);
      NonePushed(t, f, cpu, ws, k);
    } else {
      FitsHere(t, constants, f, held, cpu, t.word * (|ws| - k));
      LoadCorrect(t, constants, f, held, cpu, t.word * (|ws| - k), args[k - 1], ws[k - 1]);
      var l := EmitLoad(t, f.locs, held, t.word * (|ws| - k), args[k - 1]).value;
      var mid := cpu.(acc := ws[k - 1]);
      FitsHere(t, constants, f, l.held, mid, t.word * (|ws| - k));
      ExecAppend(t, constants, l.insns, [Push], cpu);
      ExecOne(t, constants, Push, mid);
      SamePushed(t, f, cpu, mid, ws, k);
      PushKeeps(t, constants, f, l.held, mid, ws, k);
      cpu' := PushesCorrect(t, constants, f, l.held, AfterPush(t, mid), args, ws, k - 1);
      ExecAppend(t, constants, l.insns + [Push], EmitPushes(t, f.locs, l.held, args, k - 1, |ws| - k + 1).value.insns,
          cpu);
    }
  }

  lemma FitsHere(t: Target, constants: Operand -> seq<Byte>, f: Frame, held: Option<nat>, cpu: Cpu, bias: nat)
    requires Holds(t, constants, f, held, cpu, bias)
    ensures Fits(t, cpu) && cpu.sp == f.base - bias
  {
  }

  lemma NonePushed(t: Target, f: Frame, cpu: Cpu, ws: seq<seq<Byte>>, k: nat)
    requires Pushed(t, f, cpu, ws, k) && k <= |ws| && k <= t.registers && (k < t.registers ==> k == |ws|)
    ensures Pushed(t, f, cpu, ws, t.registers) && StackBytes(t, |ws|) == t.word * (|ws| - k)
  {
  }

  lemma SamePushed(t: Target, f: Frame, cpu: Cpu, cpu': Cpu, ws: seq<seq<Byte>>, k: nat)
    requires Pushed(t, f, cpu, ws, k) && cpu'.mem == cpu.mem
    ensures Pushed(t, f, cpu', ws, k)
  {
  }

  // ---- Registers ---------------------------------------------------------------------------------

  /** The first n arguments to be moved are in their registers. */
  ghost predicate Moved(t: Target, cpu: Cpu, args: seq<Operand>, ws: seq<seq<Byte>>, n: nat)
    requires |ws| == |args|
  {
    Fits(t, cpu) && forall m {:trigger MovedNext(t, args, m)} :: 0 <= m < n && m < InRegisters(t, args) ==>
      ArgumentRegister(t, cpu, MovedNext(t, args, m)) == ws[MovedNext(t, args, m)]
  }

  /** A load and a move: later loads leave the registers filled before alone, since the
      accumulator is filled last if it is one. */
  lemma MoveStep(t: Target, constants: Operand -> seq<Byte>, f: Frame, held: Option<nat>, cpu: Cpu, args: seq<Operand>,
      ws: seq<seq<Byte>>, n: nat) returns (cpu': Cpu)
    requires Sound(t) && Valued(t, constants, f, args, ws) && n < InRegisters(t, args)
    requires Holds(t, constants, f, held, cpu, StackBytes(t, |args|)) && Pushed(t, f, cpu, ws, t.registers) &&
        Moved(t, cpu, args, ws, n)
    ensures var i := MovedNext(t, args, n);
      var l := EmitLoad(t, f.locs, held, StackBytes(t, |args|), args[i]);
      && l.Some? && Exec(t, constants, l.value.insns + [MoveToArgument(i)], cpu) == Some(cpu')
      && Holds(t, constants, f, l.value.held, cpu', StackBytes(t, |args|)) && Pushed(t, f, cpu', ws, t.registers) &&
          Moved(t, cpu', args, ws, n + 1)
  {
    hide Exec, EmitLoad, Value;
    var i := MovedNext(t, args, n);
    LoadCorrect(t, constants, f, held, cpu, StackBytes(t, |args|), args[i], ws[i]);
    var mid := cpu.(acc := ws[i]);
    var l := EmitLoad(t, f.locs, held, StackBytes(t, |args|), args[i]).value;
    ExecAppend(t, constants, l.insns, [MoveToArgument(i)], cpu);
    ExecOne(t, constants, MoveToArgument(i), mid);
    cpu' := Step(t, constants, MoveToArgument(i), mid).value;
    forall m {:trigger MovedNext(t, args, m)} | 0 <= m < n + 1 && m < InRegisters(t, args)
      ensures ArgumentRegister(t, cpu', MovedNext(t, args, m)) == ws[MovedNext(t, args, m)]
    {
    }
  }

  lemma {:induction false} MovesCorrect(t: Target, constants: Operand -> seq<Byte>, f: Frame, held: Option<nat>,
      cpu: Cpu, args: seq<Operand>, ws: seq<seq<Byte>>, n: nat) returns (cpu': Cpu)
    requires Sound(t) && Valued(t, constants, f, args, ws) && n <= InRegisters(t, args)
    requires Holds(t, constants, f, held, cpu, StackBytes(t, |args|)) && Pushed(t, f, cpu, ws, t.registers) &&
        Moved(t, cpu, args, ws, n)
    ensures var p := EmitMoves(t, f.locs, held, args, n);
      && p.Some? && Exec(t, constants, p.value.insns, cpu) == Some(cpu')
      && Holds(t, constants, f, p.value.held, cpu', StackBytes(t, |args|)) && Pushed(t, f, cpu', ws, t.registers)
      && Moved(t, cpu', args, ws, InRegisters(t, args))
    decreases InRegisters(t, args) - n
  {
    hide Exec, EmitLoad, Holds, Value, Pushed, Moved, Fits;
    FitsHere(t, constants, f, held, cpu, StackBytes(t, |args|));
    if n == InRegisters(t, args) {
      cpu' := cpu;
      ExecNone(t, constants, cpu);
    } else {
      var i := MovedNext(t, args, n);
      var mid := MoveStep(t, constants, f, held, cpu, args, ws, n);
      var l := EmitLoad(t, f.locs, held, StackBytes(t, |args|), args[i]).value;
      FitsHere(t, constants, f, l.held, mid, StackBytes(t, |args|));
      cpu' := MovesCorrect(t, constants, f, l.held, mid, args, ws, n + 1);
      ExecAppend(t, constants, l.insns + [MoveToArgument(i)], EmitMoves(t, f.locs, l.held, args, n + 1).value.insns,
          cpu);
    }
  }

  // ---- The callee's side ----------------------------------------------------------------------------

  /** The callee after its prologue: the return address is pushed and a frame of total words
      made below it, which the callee may have filled; the accumulator is as at the call
      until the first parameter has been fetched. */
  ghost predicate Entered(t: Target, caller: Cpu, cpu: Cpu, total: nat, index: nat)
  {
    && Fits(t, caller) && Fits(t, cpu) && cpu.args == caller.args && (index == 0 ==> cpu.acc == caller.acc)
    && cpu.sp == caller.sp - t.word - t.word * total
    && forall x {:trigger At(cpu.mem, x)} :: x >= caller.sp ==> At(cpu.mem, x) == At(caller.mem, x)
  }

  /** The argument code of a call, for any target and any number of arguments: the callee's
      i-th parameter receives the i-th operand's value from before the call, although
      pushing moves the stack pointer, and after the cleanup it is back. */
  lemma ArgumentsCorrect(t: Target, constants: Operand -> seq<Byte>, f: Frame, held: Option<nat>, cpu: Cpu,
      args: seq<Operand>, ws: seq<seq<Byte>>) returns (cpu': Cpu)
    requires Sound(t) && Valued(t, constants, f, args, ws) && Holds(t, constants, f, held, cpu, 0)
    ensures var code := EmitArguments(t, f.locs, held, args);
      code.Some? && Exec(t, constants, code.value.insns, cpu) == Some(cpu') && Fits(t, cpu')
    ensures forall i, total, callee {:trigger Entered(t, cpu', callee, total, i)} ::
      0 <= i < |args| && Entered(t, cpu', callee, total, i) ==>
      Step(t, constants, EmitParameter(t, total, i), callee) == Some(callee.(acc := ws[i]))
    ensures forall back: Cpu :: Fits(t, back) && back.sp == cpu'.sp ==>
      Exec(t, constants, Cleanup(t, |args|), back) == Some(back.(sp := cpu.sp))
  {
    hide Exec, Holds, Value, Pushed, Moved, Fits, EmitArguments, Step;
    FitsHere(t, constants, f, held, cpu, 0);
    cpu' := ArgumentsPassed(t, constants, f, held, cpu, args, ws);
    forall i, total, callee {:trigger Entered(t, cpu', callee, total, i)} | 0 <= i < |args| &&
        Entered(t, cpu', callee, total, i)
      ensures Step(t, constants, EmitParameter(t, total, i), callee) == Some(callee.(acc := ws[i]))
    {
      ParameterFound(t, constants, f, cpu', callee, args, ws, total, i);
    }
    forall back: Cpu | Fits(t, back) && back.sp == cpu'.sp
        ensures Exec(t, constants, Cleanup(t, |args|), back) == Some(back.(sp := cpu.sp)) {
      CleanedUp(t, constants, |args|, back);
    }
  }

  /** The argument code puts the arguments on the stack and into registers. */
  lemma ArgumentsPassed(t: Target, constants: Operand -> seq<Byte>, f: Frame, held: Option<nat>, cpu: Cpu,
      args: seq<Operand>, ws: seq<seq<Byte>>) returns (cpu': Cpu)
    requires Sound(t) && Valued(t, constants, f, args, ws) && Holds(t, constants, f, held, cpu, 0)
    ensures Fits(t, cpu) && Fits(t, cpu') && EmitArguments(t, f.locs, held, args).Some?
    ensures Exec(t, constants, EmitArguments(t, f.locs, held, args).value.insns, cpu) == Some(cpu')
    ensures |ws| == |args| && cpu.sp == f.base && cpu'.sp == f.base - StackBytes(t, |args|)
    ensures Pushed(t, f, cpu', ws, t.registers) && Moved(t, cpu', args, ws, InRegisters(t, args))
  {
    hide Exec, Holds, Value, Pushed, Moved, Fits, EmitPushes, EmitMoves, Step;
    FitsHere(t, constants, f, held, cpu, 0);
    NothingPushed(t, constants, f, held, cpu, ws);
    var mid := PushesCorrect(t, constants, f, held, cpu, args, ws, |args|);
    var p := EmitPushes(t, f.locs, held, args, |args|, 0).value;
    FitsHere(t, constants, f, p.held, mid, StackBytes(t, |args|));
    NothingMoved(t, mid, args, ws);
    cpu' := MovesCorrect(t, constants, f, p.held, mid, args, ws, 0);
    var m := EmitMoves(t, f.locs, p.held, args, 0).value;
    FitsHere(t, constants, f, m.held, cpu', StackBytes(t, |args|));
    ExecAppend(t, constants, p.insns, m.insns, cpu);
  }

  /** Where the callee finds its arguments: the first in registers, the others above the
      stack pointer in order. */
  ghost predicate Delivered(t: Target, cpu: Cpu, ws: seq<seq<Byte>>)
    requires Fits(t, cpu)
  {
    forall i :: 0 <= i < |ws| ==>
      ws[i] == if i < t.registers then ArgumentRegister(t, cpu, i)
               else Read(cpu.mem, cpu.sp + t.word * (i - t.registers), t.word)
  }

  lemma ArgumentsDelivered(t: Target, constants: Operand -> seq<Byte>, f: Frame, held: Option<nat>, cpu: Cpu,
      args: seq<Operand>, ws: seq<seq<Byte>>) returns (cpu': Cpu)
    requires Sound(t) && Valued(t, constants, f, args, ws) && Holds(t, constants, f, held, cpu, 0)
    ensures Fits(t, cpu) && Fits(t, cpu') && EmitArguments(t, f.locs, held, args).Some?
    ensures Exec(t, constants, EmitArguments(t, f.locs, held, args).value.insns, cpu) == Some(cpu')
    ensures |ws| == |args| && cpu'.sp == cpu.sp - StackBytes(t, |args|) && Delivered(t, cpu', ws)
  {
    hide Exec, Holds, Value, Fits, EmitArguments, Valued;
    cpu' := ArgumentsPassed(t, constants, f, held, cpu, args, ws);
    forall i | 0 <= i < |ws|
      ensures ws[i] == if i < t.registers then ArgumentRegister(t, cpu', i)
          else Read(cpu'.mem, cpu'.sp + t.word * (i - t.registers), t.word)
    {
      if i < t.registers {
        var m := if t.accumulatorFirst then InRegisters(t, args) - 1 - i else i;
        assert MovedNext(t, args, m) == i;
      } else {
        Downwards(t.word, |ws| - t.registers, i - t.registers);
      }
    }
  }

  lemma NothingPushed(t: Target, constants: Operand -> seq<Byte>, f: Frame, held: Option<nat>, cpu: Cpu,
      ws: seq<seq<Byte>>)
    requires Holds(t, constants, f, held, cpu, 0)
    ensures Pushed(t, f, cpu, ws, |ws|) && Holds(t, constants, f, held, cpu, t.word * (|ws| - |ws|))
  {
  }

  lemma NothingMoved(t: Target, cpu: Cpu, args: seq<Operand>, ws: seq<seq<Byte>>)
    requires |ws| == |args| && Fits(t, cpu)
    ensures Moved(t, cpu, args, ws, 0)
  {
  }

  lemma CleanedUp(t: Target, constants: Operand -> seq<Byte>, argc: nat, back: Cpu)
    requires Fits(t, back)
    ensures Exec(t, constants, Cleanup(t, argc), back) == Some(back.(sp := back.sp + StackBytes(t, argc)))
  {
    hide Exec;
    if StackBytes(t, argc) > 0 {
      ExecOne(t, constants, Pop(StackBytes(t, argc)), back);
    } else {
      ExecNone(t, constants, back);
    }
  }

  lemma ParameterFound(t: Target, constants: Operand -> seq<Byte>, f: Frame, caller: Cpu, callee: Cpu,
      args: seq<Operand>, ws: seq<seq<Byte>>, total: nat, i: nat)
    requires Sound(t) && |ws| == |args| && i < |args| && caller.sp == f.base - StackBytes(t, |args|)
    requires Pushed(t, f, caller, ws, t.registers) && Moved(t, caller, args, ws, InRegisters(t, args)) &&
        Entered(t, caller, callee, total, i)
    ensures Step(t, constants, EmitParameter(t, total, i), callee) == Some(callee.(acc := ws[i]))
  {
    if i < t.registers {
      var m := if t.accumulatorFirst then InRegisters(t, args) - 1 - i else i;
      assert MovedNext(t, args, m) == i;
    } else {
      var n := |ws| - t.registers;
      Downwards(t.word, n, i - t.registers);
      var at := f.base - t.word * (|ws| - i);
      assert callee.sp + (t.word * total + t.word + t.word * (i - t.registers)) == at;
      ReadSame(caller.mem, callee.mem, at, t.word);
    }
  }

  lemma Downwards(w: nat, n: nat, i: nat)
    requires i <= n
    ensures w * n - w * i == w * (n - i) && 0 <= w * i
  {
    assert w * n == w * i + w * (n - i);
  }

  // ---- amd64's code is an instance --------------------------------------------------------------------

  /** The back end's instruction for one of these. */
  function Amd64(i: Insn): seq<Machine.Insn>
  {
    match i
    case LoadConstant(a) => ConstantCode(a)
    case LoadStack(offset) => [Machine.LoadRsp(offset)]
    case AddressStack(offset) => [Machine.LeaRsp(offset)]
    case Push => [Machine.PushRax]
    case MoveToArgument(index) => [Machine.MoveToArg(index)]
    case MoveFromArgument(index) => [Machine.MoveFromArg(index)]
    case Pop(n) => [Machine.AddRsp(n)]
  }

  function ConstantCode(a: Operand): seq<Machine.Insn>
  {
    match a
    case Imm(v) => Emission.EmitImmediate(v).insns
    case Bytes(bytes) => [Machine.LoadImmediate64(PadBytes(bytes))]
    case Global(name) => [Machine.LoadLabel(name)]
    case Func(name) => [Machine.LoadFunction(name)]
    case Temp(_) => []
  }

  function Translate(code: seq<Insn>): seq<Machine.Insn>
  {
    if code == [] then [] else Amd64(code[0]) + Translate(code[1..])
  }

  function Translated(code: Option<Code>): Option<Emission.Code>
  {
    if code.None? then None else Some(Emission.Code(Translate(code.value.insns), code.value.held))
  }

  lemma {:induction false} TranslateAppend(a: seq<Insn>, b: seq<Insn>)
    ensures Translate(a + b) == Translate(a) + Translate(b)
    decreases |a|
  {
    hide Amd64;
    if a == [] {
      assert a + b == b;
    } else {
      assert (a + b)[1..] == a[1..] + b;
      TranslateAppend(a[1..], b);
    }
  }

  lemma TranslateOne(i: Insn)
    ensures Translate([i]) == Amd64(i)
  {
    hide Amd64;
    assert [i][1..] == [];
  }

  lemma LoadTranslates(f: Emission.Layout, held: Option<nat>, bias: nat, a: Operand)
    ensures Emission.EmitLoad(f, held, bias, a) == Translated(EmitLoad(AMD64, f.locs, held, bias, a))
  {
    if !a.Temp? {
      TranslateOne(LoadConstant(a));
    } else if a.t in f.locs && !(bias == 0 && f.locs[a.t].Stack? && held == Some(a.t)) {
      var offset := 8 * f.locs[a.t].slot + bias;
      TranslateOne(if f.locs[a.t].Stack? then LoadStack(offset) else AddressStack(offset));
    }
  }

  lemma {:induction false} PushesTranslate(f: Emission.Layout, held: Option<nat>, args: seq<Operand>, k: nat,
      pushed: nat)
    requires k <= |args|
    ensures Emission.EmitPushes(f, held, args, k, pushed) ==
        Translated(EmitPushes(AMD64, f.locs, held, args, k, pushed))
    decreases k
  {
    hide EmitLoad, Emission.EmitLoad, Amd64, Translate;
    TranslateOne(Push);
    NoneTranslates();
    if k > 6 {
      LoadTranslates(f, held, 8 * pushed, args[k - 1]);
      var l := EmitLoad(AMD64, f.locs, held, 8 * pushed, args[k - 1]);
      if l.Some? {
        PushesTranslate(f, l.value.held, args, k - 1, pushed + 1);
        var rest := EmitPushes(AMD64, f.locs, l.value.held, args, k - 1, pushed + 1);
        if rest.Some? { ThreeTranslate(l.value.insns, Push, rest.value.insns); }
      }
    }
  }

  lemma NoneTranslates()
    ensures Translate([]) == [] && Amd64(Push) == [Machine.PushRax] &&
        forall i :: Amd64(MoveToArgument(i)) == [Machine.MoveToArg(i)]
  {
  }

  lemma ThreeTranslate(a: seq<Insn>, i: Insn, b: seq<Insn>)
    ensures Translate(a + [i] + b) == Translate(a) + Amd64(i) + Translate(b)
  {
    hide Amd64, Translate;
    TranslateOne(i);
    TranslateAppend(a, [i]);
    TranslateAppend(a + [i], b);
  }

  lemma {:induction false} MovesTranslate(f: Emission.Layout, held: Option<nat>, args: seq<Operand>, n: nat)
    requires n <= InRegisters(AMD64, args)
    ensures Emission.EmitMoves(f, held, args, n) == Translated(EmitMoves(AMD64, f.locs, held, args, n))
    decreases |args| - n
  {
    hide EmitLoad, Emission.EmitLoad, Amd64, Translate;
    NoneTranslates();
    if n < InRegisters(AMD64, args) {
      LoadTranslates(f, held, StackBytes(AMD64, |args|), args[n]);
      var l := EmitLoad(AMD64, f.locs, held, StackBytes(AMD64, |args|), args[n]);
      if l.Some? {
        MovesTranslate(f, l.value.held, args, n + 1);
        var rest := EmitMoves(AMD64, f.locs, l.value.held, args, n + 1);
        if rest.Some? { ThreeTranslate(l.value.insns, MoveToArgument(n), rest.value.insns); }
      }
    }
  }

  /** For amd64 the argument code, the cleanup and the fetch of a parameter are those of the
      back end. */
  lemma Amd64Instance(f: Emission.Layout, held: Option<nat>, args: seq<Operand>, index: nat)
    ensures Emission.EmitArguments(f, held, args) == Translated(EmitArguments(AMD64, f.locs, held, args))
    ensures Emission.Cleanup(|args|) == Translate(Cleanup(AMD64, |args|))
    ensures [Emission.EmitParam(f, index)] == Translate([EmitParameter(AMD64, f.total, index)])
  {
    hide EmitPushes, EmitMoves, Emission.EmitPushes, Emission.EmitMoves;
    PushesTranslate(f, held, args, |args|, 0);
    var p := EmitPushes(AMD64, f.locs, held, args, |args|, 0);
    if p.Some? {
      MovesTranslate(f, p.value.held, args, 0);
      var m := EmitMoves(AMD64, f.locs, p.value.held, args, 0);
      if m.Some? { TranslateAppend(p.value.insns, m.value.insns); }
    }
    TranslateOne(EmitParameter(AMD64, f.total, index));
    TranslateOne(Pop(StackBytes(AMD64, |args|)));
  }

  /** i386: nothing is moved to a register; after the pushes argument i is at 4 * i above the
      stack pointer, where the callee's fetch of parameter i reads. */
  lemma I386Instance(constants: Operand -> seq<Byte>, f: Frame, held: Option<nat>, cpu: Cpu, args: seq<Operand>,
      ws: seq<seq<Byte>>, total: nat, index: nat) returns (cpu': Cpu)
    requires Valued(I386, constants, f, args, ws) && Holds(I386, constants, f, held, cpu, 0)
    ensures Fits(I386, cpu) && EmitPushes(I386, f.locs, held, args, |args|, 0).Some? && |ws| == |args|
    ensures Exec(I386, constants, EmitPushes(I386, f.locs, held, args, |args|, 0).value.insns, cpu) == Some(cpu')
    ensures cpu'.sp == cpu.sp - 4 * |args| && forall i :: 0 <= i < |ws| ==> ws[i] == Read(cpu'.mem, cpu'.sp + 4 * i, 4)
    ensures EmitParameter(I386, total, index) == LoadStack(total * 4 + 4 + index * 4)
  {
    hide Exec, Holds, EmitPushes, Valued, Fits;
    cpu' := ArgumentsDelivered(I386, constants, f, held, cpu, args, ws);
    var p := EmitPushes(I386, f.locs, held, args, |args|, 0).value;
    assert p.insns + [] == p.insns;
  }

  /** AArch64 and RISC-V: argument i below eight is in register i, the others are at
      8 * (i - 8) above the stack pointer. */
  lemma Arm64Instance(constants: Operand -> seq<Byte>, f: Frame, held: Option<nat>, cpu: Cpu, args: seq<Operand>,
      ws: seq<seq<Byte>>) returns (cpu': Cpu)
    requires Valued(ARM64, constants, f, args, ws) && Holds(ARM64, constants, f, held, cpu, 0)
    ensures Fits(ARM64, cpu) && Fits(ARM64, cpu') && EmitArguments(ARM64, f.locs, held, args).Some? && |ws| == |args|
    ensures Exec(ARM64, constants, EmitArguments(ARM64, f.locs, held, args).value.insns, cpu) == Some(cpu')
    ensures cpu'.sp == cpu.sp - if |args| <= 8 then 0 else 8 * (|args| - 8)
    ensures forall i :: 0 <= i < |ws| ==>
      ws[i] == if i == 0 then cpu'.acc else if i < 8 then cpu'.args[i] else Read(cpu'.mem, cpu'.sp + 8 * (i - 8), 8)
  {
    hide Exec, Holds, EmitArguments, Valued;
    cpu' := ArgumentsDelivered(ARM64, constants, f, held, cpu, args, ws);
  }
}
