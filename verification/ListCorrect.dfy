/** Instruction lists, with their nested conditionals, as flat code with labels. */
module ListCorrect {
  import opened Options
  import opened Words
  import opened Ir
  import opened Machine
  import opened Allocation
  import opened Emission
  import opened Elision
  import opened Relation
  import opened InstrCorrect
  import opened CallCorrect

  // ---- Parameters ---------------------------------------------------------------

  predicate NoParams(i: Instr)
    decreases i, 0
  {
    match i
    case Param(_, _) => false
    case Cond(_, ci, _, ti, _, fi, _) => NoParamsFrom(ci, 0) && NoParamsFrom(ti, 0) && NoParamsFrom(fi, 0)
    case _ => true
  }

  predicate NoParamsFrom(list: seq<Instr>, k: nat)
    requires k <= |list|
    decreases list, |list| - k
  {
    k == |list| || (NoParams(list[k]) && NoParamsFrom(list, k + 1))
  }

  /** Parameters are read before anything else. */
  predicate ParamsFirst(list: seq<Instr>, k: nat)
    requires k <= |list|
    decreases |list| - k
  {
    NoParamsFrom(list, k) || (k < |list| && list[k].Param? && ParamsFirst(list, k + 1))
  }

  function ParamAddress(f: Frame, index: nat): int { f.ReturnAddress() + 8 + 8 * (index - 6) }

  /** The arguments are still where the caller passed them. */
  ghost predicate ArgsIntact(c: Context, cpu: Cpu)
  {
    forall j :: 0 <= j < |c.args| ==>
      c.args[j] == if j < 6 then ArgRegister(cpu, j) else ReadWord(cpu.mem, ParamAddress(c.frame, j))
  }

  lemma ParamLoads(c: Context, f: Layout, cpu: Cpu, index: nat)
    requires c.frame.total == f.total && cpu.rsp == c.frame.base && ArgsIntact(c, cpu) && index < |c.args|
    ensures Exec1(c.world, EmitParam(f, index), cpu) == Some(cpu.(rax := c.args[index]))
  {
    if index >= 6 { assert cpu.rsp + (f.total * 8 + 8 + (index - 6) * 8) == ParamAddress(c.frame, index); }
  }

  lemma StoreKeepsArgs(c: Context, f: Layout, cpu: Cpu, cpu': Cpu, omit: Option<nat>, t: nat)
    requires c.frame.locs == f.locs && c.frame.Laid() && cpu.rsp == c.frame.base && ArgsIntact(c, cpu)
    requires EmitStore(f, omit, t).Some? && Exec(c.world, EmitStore(f, omit, t).value.insns, cpu) == Some(cpu')
    ensures ArgsIntact(c, cpu')
  {
    if omit != Some(t) {
      InFrame(c.frame, t);
      var a := c.frame.SlotAddress(f.locs[t].slot);
      ExecOne(c.world, StoreRsp(8 * f.locs[t].slot), cpu);
      forall j | 6 <= j < |c.args|
        ensures ReadWord(cpu'.mem, ParamAddress(c.frame, j)) == ReadWord(cpu.mem, ParamAddress(c.frame, j))
      {
        ReadAside(cpu.mem, a, cpu.rax, ParamAddress(c.frame, j), 8);
      }
    }
  }

  lemma ParamCorrect(c: Context, f: Layout, dropped: set<nat>, s: State, rax: Option<nat>, cpu: Cpu, link: Word,
      i: Instr, prev: Option<nat>, omit: Option<nat>, s': State) returns (cpu': Cpu)
    requires i.Param? && Ready(c, f, dropped, s, rax, cpu, link, i, prev, omit) && ArgsIntact(c, cpu)
    requires RunInstr(c, i, s) == Some(s') && EmitInstr(f, rax, omit, i).Some?
    ensures Ran(c, dropped, EmitInstr(f, rax, omit, i).value, cpu, s', cpu', link) && ArgsIntact(c, cpu')
  {
    ParamLoads(c, f, cpu, i.index);
    var insn := EmitParam(f, i.index);
    var mid := cpu.(rax := c.args[i.index]);
    cpu' := SetCorrect(c, f, dropped, s, cpu, link, insn, c.args[i.index], omit, i.t, s');
    ExecOne(c.world, insn, cpu);
    ExecAppend(c.world, [insn], EmitStore(f, omit, i.t).value.insns, cpu, mid);
    LoadKeepsArgs(c, cpu, mid);
    StoreKeepsArgs(c, f, mid, cpu', omit, i.t);
  }

  lemma LoadKeepsArgs(c: Context, cpu: Cpu, cpu': Cpu)
    requires ArgsIntact(c, cpu) && cpu' == cpu.(rax := cpu'.rax)
    ensures ArgsIntact(c, cpu')
  {
  }

  /** Every instruction but a conditional: straight-line code. */
  lemma SimpleCorrect(c: Context, f: Layout, dropped: set<nat>, s: State, rax: Option<nat>, cpu: Cpu, link: Word,
      i: Instr, prev: Option<nat>, omit: Option<nat>, s': State) returns (cpu': Cpu)
    requires !i.Cond? && Ready(c, f, dropped, s, rax, cpu, link, i, prev, omit)
    requires i.Param? ==> ArgsIntact(c, cpu)
    requires RunInstr(c, i, s) == Some(s') && EmitInstr(f, rax, omit, i).Some?
    ensures Ran(c, dropped, EmitInstr(f, rax, omit, i).value, cpu, s', cpu', link)
    ensures i.Param? ==> ArgsIntact(c, cpu')
  {
    match i
    case Param(_, _) => cpu' := ParamCorrect(c, f, dropped, s, rax, cpu, link, i, prev, omit, s');
    case Alloca(_, _) => cpu' := cpu;
    case Const(_, _) => cpu' := ConstCorrect(c, f, dropped, s, rax, cpu, link, i, prev, omit, s');
    case Copy(_, _) => cpu' := CopyCorrect(c, f, dropped, s, rax, cpu, link, i, prev, omit, s');
    case AddrOf(_, _) => cpu' := AddrOfCorrect(c, f, dropped, s, rax, cpu, link, i, prev, omit, s');
    case Load(_, _, _, _) => cpu' := LoadInstrCorrect(c, f, dropped, s, rax, cpu, link, i, prev, omit, s');
    case Store(_, _, _) => cpu' := StoreInstrCorrect(c, f, dropped, s, rax, cpu, link, i, prev, omit, s');
    case Ext(_, _, _, _) => cpu' := ExtCorrect(c, f, dropped, s, rax, cpu, link, i, prev, omit, s');
    case Bin(_, _, _, _) => cpu' := BinCorrect(c, f, dropped, s, rax, cpu, link, i, prev, omit, s');
    case Call(_, _, _) => cpu' := DirectCallCorrect(c, f, dropped, s, rax, cpu, link, i, prev, omit, s');
    case CallIndirect(_, _, _) => cpu' := IndirectCallCorrect(c, f, dropped, s, rax, cpu, link, i, prev, omit, s');
  }

  // ---- What rax holds after a list -------------------------------------------------

  lemma DefInRax(f: Layout, rax: Option<nat>, omit: Option<nat>, i: Instr)
    requires EmitInstr(f, rax, omit, i).Some? && DefTemp(i).Some?
    ensures EmitInstr(f, rax, omit, i).value.rax == DefTemp(i)
  {
  }

  lemma {:induction false} LastInRax(f: Layout, list: seq<Instr>, k: nat, rax: Option<nat>, final: Option<nat>, t: nat)
    requires k < |list| && EmitFrom(f, list, k, rax, final).Some? && Last(f, list, final, t) == 1
    ensures EmitFrom(f, list, k, rax, final).value.rax == Some(t)
    decreases |list| - k
  {
    if k + 1 == |list| {
      DefInRax(f, rax, Elides(f, list, k, final), list[k]);
    } else {
      LastInRax(f, list, k + 1, EmitInstr(f, rax, Elides(f, list, k, final), list[k]).value.rax, final, t);
    }
  }

  /** An operand read after a list is found in rax if its store was left out. */
  lemma EndReadable(f: Layout, dropped: set<nat>, list: seq<Instr>, rax: Option<nat>, a: Operand)
    requires SafeEnd(f, dropped, list, a) && EmitFrom(f, list, 0, rax, OperandTemp(a)).Some?
    ensures a.Temp? && a.t in dropped ==> EmitFrom(f, list, 0, rax, OperandTemp(a)).value.rax == Some(a.t)
  {
    if a.Temp? && a.t in dropped {
      assert LooseEnd(f, list, a, a.t) == 0;
      LastInRax(f, list, 0, rax, OperandTemp(a), a.t);
    }
  }

  // ---- Running flat code -------------------------------------------------------------

  /** Every label is set at most once. */
  ghost predicate Labelled(prog: seq<Insn>) { forall l :: Marks(prog, l) <= 1 }

  lemma GotoMark(prog: seq<Insn>, i: nat, l: Label, cpu: Cpu)
    requires Labelled(prog) && i < |prog| && prog[i] == Mark(l)
    ensures GoLabel(prog, l, cpu) == Running(i, cpu)
  {
    assert prog[0..] == prog;
    assert Marks(prog, l) <= 1;
    FindUniqueMark(prog, 0, i, l);
  }

  lemma Then(world: World, prog: seq<Insn>, a: nat, b: nat, m: Status, mid: Status, m': Status)
    requires Run(world, prog, a, m) == mid && Run(world, prog, b, mid) == m'
    ensures Run(world, prog, a + b, m) == m'
  {
    RunTwice(world, prog, a, b, m);
  }

  lemma OneStep(world: World, prog: seq<Insn>, pc: nat, cpu: Cpu)
    ensures Run(world, prog, 1, Running(pc, cpu)) == Step(world, prog, pc, cpu)
  {
    assert Run(world, prog, 0, Step(world, prog, pc, cpu)) == Step(world, prog, pc, cpu);
  }

  lemma TestTaken(world: World, prog: seq<Insn>, at: nat, cpu: Cpu)
    requires at < |prog| && prog[at] == Test
    ensures Run(world, prog, 1, Running(at, cpu)) == Running(at + 1, cpu.(left := cpu.rax, right := ZERO))
  {
    OneStep(world, prog, at, cpu);
  }

  lemma BranchTaken(world: World, prog: seq<Insn>, at: nat, op: BinOp, l: Label, cpu: Cpu)
    requires at < |prog| && prog[at] == JumpCompare(op, l) && IsComparison(op)
    ensures Run(world, prog, 1, Running(at, cpu)) ==
      if Compare(op, cpu.left, cpu.right) then GoLabel(prog, l, cpu) else Running(at + 1, cpu)
  {
    hide Exec1;
    OneStep(world, prog, at, cpu);
  }

  lemma JumpTaken(world: World, prog: seq<Insn>, at: nat, l: Label, cpu: Cpu)
    requires at < |prog| && prog[at] == JumpTo(l)
    ensures Run(world, prog, 1, Running(at, cpu)) == GoLabel(prog, l, cpu)
  {
    hide Exec1;
    OneStep(world, prog, at, cpu);
  }

  /** Running jump-free code that sits at pc. */
  lemma CodeRuns(world: World, prog: seq<Insn>, pc: nat, code: seq<Insn>, cpu: Cpu, cpu': Cpu) returns (n: nat)
    requires CodeAt(prog, pc, code) && Exec(world, code, cpu) == Some(cpu')
    ensures Run(world, prog, n, Running(pc, cpu)) == Running(pc + |code|, cpu')
  {
    ExecRuns(world, prog, pc, code, cpu, cpu');
    n := |code|;
  }

  /** The machine is at the start of the code of a list, from position k on. */
  ghost predicate ListReady(c: Context, f: Layout, dropped: set<nat>, s: State, rax: Option<nat>, cpu: Cpu, link: Word,
      list: seq<Instr>, k: nat, final: Option<nat>)
    requires k <= |list|
  {
    && Fits(c, f, dropped)
    && CpuRel(c.frame, dropped, s, rax, cpu, link, 0)
    && Safe(f, dropped, list, k, final)
    && (k < |list| && Before(f, list, k, final).Some? ==> rax == Before(f, list, k, final) && rax.value in dropped)
    && (NoParamsFrom(list, k) || (ParamsFirst(list, k) && ArgsIntact(c, cpu)))
  }

  lemma {:induction false} ListRuns(c: Context, f: Layout, dropped: set<nat>, prog: seq<Insn>, pc: nat, s: State,
      rax: Option<nat>, cpu: Cpu, link: Word, list: seq<Instr>, k: nat, final: Option<nat>, s': State)
      returns (n: nat, cpu': Cpu)
    requires k <= |list| && Labelled(prog) && ListReady(c, f, dropped, s, rax, cpu, link, list, k, final)
    requires RunFrom(c, list, k, s) == Some(s') && EmitFrom(f, list, k, rax, final).Some?
    requires CodeAt(prog, pc, EmitFrom(f, list, k, rax, final).value.insns)
    ensures var code := EmitFrom(f, list, k, rax, final).value;
      && Run(c.world, prog, n, Running(pc, cpu)) == Running(pc + |code.insns|, cpu')
      && CpuRel(c.frame, dropped, s', code.rax, cpu', link, 0)
    decreases list, |list| - k
  {
    hide Exec1, Step, Exec, MemRel, CpuRel, Respects, CodeAt, Labelled, RunInstr, EmitInstr, Safe, SafeInstr, Fits;
    if k == |list| {
      n, cpu' := 0, cpu;
    } else {
      var i, omit := list[k], Elides(f, list, k, final);
      var code := EmitInstr(f, rax, omit, i).value;
      var rest := EmitFrom(f, list, k + 1, code.rax, final).value;
      CodeAtParts(prog, pc, code.insns, rest.insns);
      SafeStep(f, dropped, list, k, final);
      var s1 := RunInstr(c, i, s).value;
      var a, mid := InstrRuns(c, f, dropped, prog, pc, s, rax, cpu, link, i, Before(f, list, k, final), omit, s1);
      if DefTemp(i).Some? { DefInRax(f, rax, omit, i); }
      var b, last := ListRuns(c, f, dropped, prog, pc + |code.insns|, s1, code.rax, mid, link, list, k + 1, final, s');
      Then(c.world, prog, a, b, Running(pc, cpu), Running(pc + |code.insns|, mid),
          Running(pc + |code.insns| + |rest.insns|, last));
      n, cpu' := a + b, last;
    }
  }

  lemma {:induction false} InstrRuns(c: Context, f: Layout, dropped: set<nat>, prog: seq<Insn>, pc: nat, s: State,
      rax: Option<nat>, cpu: Cpu, link: Word, i: Instr, prev: Option<nat>, omit: Option<nat>, s': State)
      returns (n: nat, cpu': Cpu)
    requires Labelled(prog) && Ready(c, f, dropped, s, rax, cpu, link, i, prev, omit)
    requires NoParams(i) || (i.Param? && ArgsIntact(c, cpu))
    requires RunInstr(c, i, s) == Some(s') && EmitInstr(f, rax, omit, i).Some?
    requires CodeAt(prog, pc, EmitInstr(f, rax, omit, i).value.insns)
    ensures var code := EmitInstr(f, rax, omit, i).value;
      && Run(c.world, prog, n, Running(pc, cpu)) == Running(pc + |code.insns|, cpu')
      && CpuRel(c.frame, dropped, s', code.rax, cpu', link, 0)
    ensures i.Param? ==> ArgsIntact(c, cpu')
    decreases i, 1
  {
    hide Exec1, Step, Exec, MemRel, CpuRel, Respects, CodeAt, Labelled;
    if i.Cond? {
      assert prev.None?;
      SafeCond(f, dropped, i);
      n, cpu' := CondRuns(c, f, dropped, prog, pc, s, rax, cpu, link, i, s');
    } else {
      cpu' := SimpleCorrect(c, f, dropped, s, rax, cpu, link, i, prev, omit, s');
      n := CodeRuns(c.world, prog, pc, EmitInstr(f, rax, omit, i).value.insns, cpu, cpu');
    }
  }

  /** A list and the operand read after it: the operand's value ends up in rax. */
  lemma {:induction false} ListThenLoad(c: Context, f: Layout, dropped: set<nat>, prog: seq<Insn>, pc: nat, s: State,
      rax: Option<nat>, cpu: Cpu, link: Word, list: seq<Instr>, a: Operand, s1: State, w: Word)
      returns (n: nat, cpu': Cpu)
    requires Labelled(prog) && ListReady(c, f, dropped, s, rax, cpu, link, list, 0, OperandTemp(a)) &&
        SafeEnd(f, dropped, list, a)
    requires RunFrom(c, list, 0, s) == Some(s1) && Value(c, s1, a) == Some(w)
    requires EmitThenLoad(f, list, rax, a).Some? && CodeAt(prog, pc, EmitThenLoad(f, list, rax, a).value.insns)
    ensures var code := EmitThenLoad(f, list, rax, a).value;
      && Run(c.world, prog, n, Running(pc, cpu)) == Running(pc + |code.insns|, cpu')
      && cpu'.rax == w && CpuRel(c.frame, dropped, s1, code.rax, cpu', link, 0)
    decreases list, |list| + 1
  {
    hide Exec1, Step, Exec, MemRel, CpuRel, Respects, EmitFrom, EmitLoad, RunFrom, CodeAt, Labelled;
    var code := EmitFrom(f, list, 0, rax, OperandTemp(a)).value;
    var l := EmitLoad(f, code.rax, 0, a).value;
    CodeAtParts(prog, pc, code.insns, l.insns);
    var p, mid := ListRuns(c, f, dropped, prog, pc, s, rax, cpu, link, list, 0, OperandTemp(a), s1);
    EndReadable(f, dropped, list, rax, a);
    LoadCorrect(c, f, dropped, s1, code.rax, mid, link, 0, a, w);
    cpu' := mid.(rax := w);
    var q := CodeRuns(c.world, prog, pc + |code.insns|, l.insns, mid, cpu');
    Then(c.world, prog, p, q, Running(pc, cpu), Running(pc + |code.insns|, mid),
        Running(pc + |code.insns| + |l.insns|, cpu'));
    n := p + q;
  }

  /** One arm of a conditional: its list, then its operand assigned to t. */
  lemma {:induction false} ArmRuns(c: Context, f: Layout, dropped: set<nat>, prog: seq<Insn>, pc: nat, s: State,
      cpu: Cpu, link: Word, list: seq<Instr>, a: Operand, t: nat, s1: State, w: Word, s': State)
      returns (n: nat, cpu': Cpu)
    requires Labelled(prog) && ListReady(c, f, dropped, s, None, cpu, link, list, 0, OperandTemp(a)) &&
        SafeEnd(f, dropped, list, a)
    requires RunFrom(c, list, 0, s) == Some(s1) && Value(c, s1, a) == Some(w) && Assign(c.frame, s1, t, w) == Some(s')
    requires EmitArm(f, list, a, t).Some? && CodeAt(prog, pc, EmitArm(f, list, a, t).value.insns)
    ensures Run(c.world, prog, n, Running(pc, cpu)) == Running(pc + |EmitArm(f, list, a, t).value.insns|, cpu')
    ensures CpuRel(c.frame, dropped, s', None, cpu', link, 0)
    decreases list, |list| + 2
  {
    hide Exec1, Step, Exec, MemRel, CpuRel, Respects, Run, CodeAt, Labelled, RunFrom, EmitThenLoad, EmitFrom, EmitLoad,
        Value, Assign;
    var l := EmitThenLoad(f, list, None, a).value;
    var st := EmitStore(f, None, t).value;
    CodeAtParts(prog, pc, l.insns, st.insns);
    var p, mid := ListThenLoad(c, f, dropped, prog, pc, s, None, cpu, link, list, a, s1, w);
    Forget(c.frame, dropped, s1, l.rax, mid, mid, link, 0);
    var s2, last := StoreCorrect(c, f, dropped, s1, mid, link, None, t);
    var q := CodeRuns(c.world, prog, pc + |l.insns|, st.insns, mid, last);
    Then(c.world, prog, p, q, Running(pc, cpu), Running(pc + |l.insns|, mid),
        Running(pc + |l.insns| + |st.insns|, last));
    Forget(c.frame, dropped, s', Some(t), last, last, link, 0);
    n, cpu' := p + q, last;
  }

  /** Where the parts of a conditional are. */
  lemma CondParts(prog: seq<Insn>, pc: nat, t: nat, test: seq<Insn>, yes: seq<Insn>, no: seq<Insn>)
    requires CodeAt(prog, pc, CondCode(t, test, yes, no))
    ensures var y := pc + |test| + 2; var e := y + |yes| + 1; var d := e + 1 + |no|;
      && d + 1 <= |prog| && d + 1 == pc + |CondCode(t, test, yes, no)|
      && CodeAt(prog, pc, test) && prog[pc + |test|] == Test && prog[y - 1] == JumpCompare(Eq, ElseLabel(t))
      && CodeAt(prog, y, yes) && prog[e - 1] == JumpTo(DoneLabel(t)) && prog[e] == Mark(ElseLabel(t))
      && CodeAt(prog, e + 1, no) && prog[d] == Mark(DoneLabel(t))
  {
    hide CodeAt;
    var branch := [Test, JumpCompare(Eq, ElseLabel(t))];
    var skip := [JumpTo(DoneLabel(t)), Mark(ElseLabel(t))];
    var done := [Mark(DoneLabel(t))];
    CodeAtParts(prog, pc, test + branch + yes + skip + no, done);
    CodeAtParts(prog, pc, test + branch + yes + skip, no);
    CodeAtParts(prog, pc, test + branch + yes, skip);
    CodeAtParts(prog, pc, test + branch, yes);
    CodeAtParts(prog, pc, test, branch);
    AtIndex(prog, pc + |test|, branch, 0);
    AtIndex(prog, pc + |test|, branch, 1);
    AtIndex(prog, pc + |test| + 2 + |yes|, skip, 0);
    AtIndex(prog, pc + |test| + 2 + |yes|, skip, 1);
    AtIndex(prog, pc + |test| + 2 + |yes| + 2 + |no|, done, 0);
    CodeFits(prog, pc, CondCode(t, test, yes, no));
  }

  lemma CodeFits(prog: seq<Insn>, pc: nat, code: seq<Insn>)
    requires CodeAt(prog, pc, code)
    ensures pc + |code| <= |prog|
  {
  }

  lemma AtIndex(prog: seq<Insn>, pc: nat, code: seq<Insn>, k: nat)
    requires CodeAt(prog, pc, code) && k < |code|
    ensures prog[pc + k] == code[k]
  {
    assert prog[pc..pc + |code|][k] == code[k];
  }

  /** After the test, the machine goes to the arm the condition selects. */
  lemma BranchToArm(world: World, prog: seq<Insn>, at: nat, e: nat, t: nat, cpu: Cpu) returns (n: nat)
    requires Labelled(prog) && at + 1 < |prog| && e < |prog|
    requires prog[at] == Test && prog[at + 1] == JumpCompare(Eq, ElseLabel(t)) && prog[e] == Mark(ElseLabel(t))
    ensures Run(world, prog, n, Running(at, cpu)) ==
      Running(if cpu.rax != ZERO then at + 2 else e + 1, cpu.(left := cpu.rax, right := ZERO))
  {
    hide Exec, Exec1, Step, Run, Labelled;
    var tested := cpu.(left := cpu.rax, right := ZERO);
    TestTaken(world, prog, at, cpu);
    BranchTaken(world, prog, at + 1, Eq, ElseLabel(t), tested);
    if cpu.rax != ZERO {
      Then(world, prog, 1, 1, Running(at, cpu), Running(at + 1, tested), Running(at + 2, tested));
      n := 2;
    } else {
      GotoMark(prog, e, ElseLabel(t), tested);
      PassMark(world, prog, e, ElseLabel(t), tested);
      Then(world, prog, 1, 1, Running(at, cpu), Running(at + 1, tested), Running(e, tested));
      Then(world, prog, 2, 1, Running(at, cpu), Running(e, tested), Running(e + 1, tested));
      n := 3;
    }
  }

  lemma ArmsParamless(i: Instr)
    requires i.Cond? && NoParams(i)
    ensures NoParamsFrom(i.ci, 0) && NoParamsFrom(i.ti, 0) && NoParamsFrom(i.fi, 0)
  {
  }

  lemma {:induction false} CondRuns(c: Context, f: Layout, dropped: set<nat>, prog: seq<Insn>, pc: nat, s: State,
      rax: Option<nat>, cpu: Cpu, link: Word, i: Instr, s': State) returns (n: nat, cpu': Cpu)
    requires i.Cond? && Labelled(prog) && Fits(c, f, dropped) && CpuRel(c.frame, dropped, s, rax, cpu, link, 0) &&
        NoParams(i)
    requires Safe(f, dropped, i.ci, 0, OperandTemp(i.co)) && SafeEnd(f, dropped, i.ci, i.co)
    requires Safe(f, dropped, i.ti, 0, OperandTemp(i.to)) && SafeEnd(f, dropped, i.ti, i.to)
    requires Safe(f, dropped, i.fi, 0, OperandTemp(i.fo)) && SafeEnd(f, dropped, i.fi, i.fo)
    requires RunInstr(c, i, s) == Some(s') && EmitInstr(f, rax, None, i).Some?
    requires CodeAt(prog, pc, EmitInstr(f, rax, None, i).value.insns)
    ensures Run(c.world, prog, n, Running(pc, cpu)) == Running(pc + |EmitInstr(f, rax, None, i).value.insns|, cpu')
    ensures CpuRel(c.frame, dropped, s', None, cpu', link, 0)
    decreases i, 0, 1
  {
    hide *;
    ArmsParamless(i);
    CondMeaning(c, i, s, s');
    CondEmission(f, rax, i);
    var test := EmitThenLoad(f, i.ci, rax, i.co).value.insns;
    var yes := EmitArm(f, i.ti, i.to, i.t).value.insns;
    var no := EmitArm(f, i.fi, i.fo, i.t).value.insns;
    CondParts(prog, pc, i.t, test, yes, no);
    var y := pc + |test| + 2;
    var e := y + |yes| + 1;
    var d := e + 1 + |no|;
    var s1 := RunFrom(c, i.ci, 0, s).value;
    var w := Value(c, s1, i.co).value;
    StartOfList(c, f, dropped, s, rax, cpu, link, i.ci, OperandTemp(i.co));
    var a, c2 := CondTest(c, f, dropped, prog, pc, e, s, rax, cpu, link, i, s1, w);
    var g;
    if w != ZERO {
      StartOfList(c, f, dropped, s1, None, c2, link, i.ti, OperandTemp(i.to));
      g, cpu' := TakeTrue(c, f, dropped, prog, y, d, s1, c2, link, i, s');
      Then(c.world, prog, a, g, Running(pc, cpu), Running(y, c2), Running(d + 1, cpu'));
    } else {
      StartOfList(c, f, dropped, s1, None, c2, link, i.fi, OperandTemp(i.fo));
      g, cpu' := TakeFalse(c, f, dropped, prog, e + 1, s1, c2, link, i, s');
      Then(c.world, prog, a, g, Running(pc, cpu), Running(e + 1, c2), Running(d + 1, cpu'));
    }
    n := a + g;
  }

  /** The test of a conditional, up to the first instruction of the arm it selects. */
  lemma {:induction false} CondTest(c: Context, f: Layout, dropped: set<nat>, prog: seq<Insn>, pc: nat, e: nat,
      s: State, rax: Option<nat>, cpu: Cpu, link: Word, i: Instr, s1: State, w: Word) returns (n: nat, cpu': Cpu)
    requires i.Cond? && Labelled(prog) && ListReady(c, f, dropped, s, rax, cpu, link, i.ci, 0, OperandTemp(i.co)) &&
        SafeEnd(f, dropped, i.ci, i.co)
    requires RunFrom(c, i.ci, 0, s) == Some(s1) && Value(c, s1, i.co) == Some(w)
    requires EmitThenLoad(f, i.ci, rax, i.co).Some?
    requires var test := EmitThenLoad(f, i.ci, rax, i.co).value.insns;
      && CodeAt(prog, pc, test) && pc + |test| + 1 < |prog| && e < |prog|
      && prog[pc + |test|] == Test && prog[pc + |test| + 1] == JumpCompare(Eq, ElseLabel(i.t)) &&
          prog[e] == Mark(ElseLabel(i.t))
    ensures var test := EmitThenLoad(f, i.ci, rax, i.co).value.insns;
      Run(c.world, prog, n, Running(pc, cpu)) == Running(if w != ZERO then pc + |test| + 2 else e + 1, cpu')
    ensures CpuRel(c.frame, dropped, s1, None, cpu', link, 0)
    decreases i, 0, 0
  {
    hide Exec1, Step, Exec, MemRel, CpuRel, Respects, Run, CodeAt, Labelled, ListReady, SafeEnd, RunFrom, EmitThenLoad,
        Value;
    var code := EmitThenLoad(f, i.ci, rax, i.co).value;
    var at := pc + |code.insns|;
    var a, c1 := ListThenLoad(c, f, dropped, prog, pc, s, rax, cpu, link, i.ci, i.co, s1, w);
    var b := BranchToArm(c.world, prog, at, e, i.t, c1);
    cpu' := c1.(left := c1.rax, right := ZERO);
    Forget(c.frame, dropped, s1, code.rax, c1, cpu', link, 0);
    Then(c.world, prog, a, b, Running(pc, cpu), Running(at, c1), Running(if w != ZERO then at + 2 else e + 1, cpu'));
    n := a + b;
  }

  lemma StartOfList(c: Context, f: Layout, dropped: set<nat>, s: State, rax: Option<nat>, cpu: Cpu, link: Word,
      list: seq<Instr>, final: Option<nat>)
    requires Fits(c, f, dropped) && CpuRel(c.frame, dropped, s, rax, cpu, link, 0) && Safe(f, dropped, list, 0, final)
    requires NoParamsFrom(list, 0)
    ensures ListReady(c, f, dropped, s, rax, cpu, link, list, 0, final)
  {
  }

  lemma CondMeaning(c: Context, i: Instr, s: State, s': State)
    requires i.Cond? && RunInstr(c, i, s) == Some(s')
    ensures RunFrom(c, i.ci, 0, s).Some? && Value(c, RunFrom(c, i.ci, 0, s).value, i.co).Some?
    ensures var s1 := RunFrom(c, i.ci, 0, s).value;
      if Value(c, s1, i.co).value != ZERO then
        && RunFrom(c, i.ti, 0, s1).Some? && Value(c, RunFrom(c, i.ti, 0, s1).value, i.to).Some?
        && Assign(c.frame, RunFrom(c, i.ti, 0, s1).value, i.t, Value(c, RunFrom(c, i.ti, 0, s1).value, i.to).value) ==
            Some(s')
      else
        && RunFrom(c, i.fi, 0, s1).Some? && Value(c, RunFrom(c, i.fi, 0, s1).value, i.fo).Some?
        && Assign(c.frame, RunFrom(c, i.fi, 0, s1).value, i.t, Value(c, RunFrom(c, i.fi, 0, s1).value, i.fo).value) ==
            Some(s')
  {
  }

  lemma CondEmission(f: Layout, rax: Option<nat>, i: Instr)
    requires i.Cond? && EmitInstr(f, rax, None, i).Some?
    ensures EmitThenLoad(f, i.ci, rax, i.co).Some? && EmitArm(f, i.ti, i.to, i.t).Some? &&
        EmitArm(f, i.fi, i.fo, i.t).Some?
    ensures EmitInstr(f, rax, None, i).value.insns == CondCode(i.t,
      EmitThenLoad(f, i.ci, rax, i.co).value.insns, EmitArm(f, i.ti, i.to, i.t).value.insns,
          EmitArm(f, i.fi, i.fo, i.t).value.insns)
  {
  }

  lemma PassMark(world: World, prog: seq<Insn>, at: nat, l: Label, cpu: Cpu)
    requires at < |prog| && prog[at] == Mark(l)
    ensures Run(world, prog, 1, Running(at, cpu)) == Running(at + 1, cpu)
  {
    OneStep(world, prog, at, cpu);
  }

  /** The true arm jumps over the false one. */
  lemma LeaveArm(world: World, prog: seq<Insn>, at: nat, d: nat, t: nat, cpu: Cpu) returns (n: nat)
    requires Labelled(prog) && at < |prog| && d < |prog| && prog[at] == JumpTo(DoneLabel(t)) &&
        prog[d] == Mark(DoneLabel(t))
    ensures Run(world, prog, n, Running(at, cpu)) == Running(d + 1, cpu)
  {
    hide Exec1, Step, Run, Labelled;
    JumpTaken(world, prog, at, DoneLabel(t), cpu);
    GotoMark(prog, d, DoneLabel(t), cpu);
    PassMark(world, prog, d, DoneLabel(t), cpu);
    Then(world, prog, 1, 1, Running(at, cpu), Running(d, cpu), Running(d + 1, cpu));
    n := 2;
  }

  /** The true arm, from its first instruction to the end of the conditional. */
  lemma {:induction false} TakeTrue(c: Context, f: Layout, dropped: set<nat>, prog: seq<Insn>, y: nat, d: nat,
      s: State, cpu: Cpu, link: Word, i: Instr, s': State) returns (n: nat, cpu': Cpu)
    requires i.Cond? && Labelled(prog) && ListReady(c, f, dropped, s, None, cpu, link, i.ti, 0, OperandTemp(i.to)) &&
        SafeEnd(f, dropped, i.ti, i.to)
    requires RunFrom(c, i.ti, 0, s).Some? && Value(c, RunFrom(c, i.ti, 0, s).value, i.to).Some?
    requires var s2 := RunFrom(c, i.ti, 0, s).value; Assign(c.frame, s2, i.t, Value(c, s2, i.to).value) == Some(s')
    requires EmitArm(f, i.ti, i.to, i.t).Some?
    requires var yes := EmitArm(f, i.ti, i.to, i.t).value.insns;
      && CodeAt(prog, y, yes) && y + |yes| < |prog| && d < |prog|
      && prog[y + |yes|] == JumpTo(DoneLabel(i.t)) && prog[d] == Mark(DoneLabel(i.t))
    ensures Run(c.world, prog, n, Running(y, cpu)) == Running(d + 1, cpu')
    ensures CpuRel(c.frame, dropped, s', None, cpu', link, 0)
    decreases i, 0, 0
  {
    hide Exec1, Step, Exec, MemRel, CpuRel, Respects, Run, CodeAt, Labelled, ListReady, RunFrom, EmitArm;
    var s2 := RunFrom(c, i.ti, 0, s).value;
    var yes := EmitArm(f, i.ti, i.to, i.t).value.insns;
    var g, c3 := ArmRuns(c, f, dropped, prog, y, s, cpu, link, i.ti, i.to, i.t, s2, Value(c, s2, i.to).value, s');
    var h := LeaveArm(c.world, prog, y + |yes|, d, i.t, c3);
    Then(c.world, prog, g, h, Running(y, cpu), Running(y + |yes|, c3), Running(d + 1, c3));
    n, cpu' := g + h, c3;
  }

  /** The false arm runs into the end of the conditional. */
  lemma {:induction false} TakeFalse(c: Context, f: Layout, dropped: set<nat>, prog: seq<Insn>, y: nat, s: State,
      cpu: Cpu, link: Word, i: Instr, s': State) returns (n: nat, cpu': Cpu)
    requires i.Cond? && Labelled(prog) && ListReady(c, f, dropped, s, None, cpu, link, i.fi, 0, OperandTemp(i.fo)) &&
        SafeEnd(f, dropped, i.fi, i.fo)
    requires RunFrom(c, i.fi, 0, s).Some? && Value(c, RunFrom(c, i.fi, 0, s).value, i.fo).Some?
    requires var s2 := RunFrom(c, i.fi, 0, s).value; Assign(c.frame, s2, i.t, Value(c, s2, i.fo).value) == Some(s')
    requires EmitArm(f, i.fi, i.fo, i.t).Some?
    requires var no := EmitArm(f, i.fi, i.fo, i.t).value.insns;
      CodeAt(prog, y, no) && y + |no| < |prog| && prog[y + |no|] == Mark(DoneLabel(i.t))
    ensures Run(c.world, prog, n, Running(y, cpu)) == Running(y + |EmitArm(f, i.fi, i.fo, i.t).value.insns| + 1, cpu')
    ensures CpuRel(c.frame, dropped, s', None, cpu', link, 0)
    decreases i, 0, 0
  {
    hide Exec1, Step, Exec, MemRel, CpuRel, Respects, Run, CodeAt, Labelled, ListReady, RunFrom, EmitArm;
    var s2 := RunFrom(c, i.fi, 0, s).value;
    var no := EmitArm(f, i.fi, i.fo, i.t).value.insns;
    var g, c3 := ArmRuns(c, f, dropped, prog, y, s, cpu, link, i.fi, i.fo, i.t, s2, Value(c, s2, i.fo).value, s');
    PassMark(c.world, prog, y + |no|, DoneLabel(i.t), c3);
    Then(c.world, prog, g, 1, Running(y, cpu), Running(y + |no|, c3), Running(y + |no| + 1, c3));
    n, cpu' := g + 1, c3;
  }
}
