/** Argument passing and calls. */
module CallCorrect {
  import opened Options
  import opened Words
  import opened Ir
  import opened Machine
  import opened Allocation
  import opened Emission
  import opened Elision
  import opened Relation
  import opened InstrCorrect

  function AfterPush(cpu: Cpu): Cpu { cpu.(rsp := cpu.rsp - 8, mem := Write(cpu.mem, cpu.rsp - 8, cpu.rax)) }

  /** Arguments from k on are on the stack, each where the callee will look for it
      once all are pushed. */
  ghost predicate Pushed(f: Frame, cpu: Cpu, ws: seq<Word>, k: nat)
  {
    forall j :: k <= j < |ws| ==> ReadWord(cpu.mem, f.base - 8 * (|ws| - j)) == ws[j]
  }

  /** Arguments below k are in their registers. */
  predicate Moved(cpu: Cpu, ws: seq<Word>, k: nat)
  {
    forall j :: 0 <= j < k && j < 6 && j < |ws| ==> ArgRegister(cpu, j) == ws[j]
  }

  lemma {:induction false} ValuesAt(c: Context, s: State, args: seq<Operand>, k: nat)
    requires Values(c, s, args).Some? && k < |args|
    ensures Value(c, s, args[k]) == Some(Values(c, s, args).value[k])
  {
    if k > 0 { ValuesAt(c, s, args[1..], k - 1); }
  }

  /** Pushing a word below the frame. */
  lemma PushCorrect(f: Frame, dropped: set<nat>, s: State, rax: Option<nat>, cpu: Cpu, link: Word, bias: nat)
    requires f.Laid() && CpuRel(f, dropped, s, rax, cpu, link, bias)
    ensures CpuRel(f, dropped, s, rax, AfterPush(cpu), link, bias + 8)
  {
    BelowFrame(f, dropped, s, cpu.mem, AfterPush(cpu).mem, link);
  }

  lemma ArgKept(f: Frame, cpu: Cpu, ws: seq<Word>, k: nat, j: nat)
    requires k <= j < |ws| && cpu.rsp == f.base - 8 * (|ws| - k)
    ensures ReadWord(AfterPush(cpu).mem, f.base - 8 * (|ws| - j)) == ReadWord(cpu.mem, f.base - 8 * (|ws| - j))
  {
    ReadAside(cpu.mem, cpu.rsp - 8, cpu.rax, f.base - 8 * (|ws| - j), 8);
  }

  lemma PushedMore(f: Frame, cpu: Cpu, ws: seq<Word>, k: nat)
    requires 0 < k <= |ws| && Pushed(f, cpu, ws, k) && cpu.rsp == f.base - 8 * (|ws| - k) && cpu.rax == ws[k - 1]
    ensures Pushed(f, AfterPush(cpu), ws, k - 1)
  {
    forall j | k <= j < |ws|
      ensures ReadWord(AfterPush(cpu).mem, f.base - 8 * (|ws| - j)) == ws[j]
    {
      ArgKept(f, cpu, ws, k, j);
    }
    ReadBack(cpu.mem, cpu.rsp - 8, cpu.rax);
  }

  lemma PushKeeps(f: Frame, dropped: set<nat>, s: State, rax: Option<nat>, cpu: Cpu, link: Word, ws: seq<Word>, k: nat)
    requires f.Laid() && 0 < k <= |ws| && CpuRel(f, dropped, s, rax, cpu, link, 8 * (|ws| - k))
    requires Pushed(f, cpu, ws, k) && cpu.rax == ws[k - 1]
    ensures CpuRel(f, dropped, s, rax, AfterPush(cpu), link, 8 * (|ws| - (k - 1))) &&
        Pushed(f, AfterPush(cpu), ws, k - 1)
  {
    PushCorrect(f, dropped, s, rax, cpu, link, 8 * (|ws| - k));
    PushedMore(f, cpu, ws, k);
  }

  lemma PushRuns(c: Context, code: seq<Insn>, cpu: Cpu, mid: Cpu)
    requires Exec(c.world, code, cpu) == Some(mid)
    ensures Exec(c.world, code + [PushRax], cpu) == Some(AfterPush(mid))
  {
    hide Exec;
    ExecAppend(c.world, code, [PushRax], cpu, mid);
    ExecOne(c.world, PushRax, mid);
  }

  /** Running one push step: load, then PushRax. */
  lemma PushStep(c: Context, f: Layout, dropped: set<nat>, s: State, rax: Option<nat>, cpu: Cpu, link: Word,
      a: Operand, ws: seq<Word>, k: nat) returns (cpu': Cpu)
    requires Fits(c, f, dropped) && 0 < k <= |ws|
    requires CpuRel(c.frame, dropped, s, rax, cpu, link, 8 * (|ws| - k)) && Pushed(c.frame, cpu, ws, k)
    requires Value(c, s, a) == Some(ws[k - 1]) && EmitLoad(f, rax, 8 * (|ws| - k), a).Some? &&
        (a.Temp? ==> a.t !in dropped)
    ensures var l := EmitLoad(f, rax, 8 * (|ws| - k), a).value;
      Exec(c.world, l.insns + [PushRax], cpu) == Some(cpu')
    ensures CpuRel(c.frame, dropped, s, EmitLoad(f, rax, 8 * (|ws| - k), a).value.rax, cpu', link, 8 * (|ws| - (k - 1)))
    ensures Pushed(c.frame, cpu', ws, k - 1)
  {
    hide Exec1, MemRel, Respects;
    var bias := 8 * (|ws| - k);
    var l := EmitLoad(f, rax, bias, a).value;
    LoadCorrect(c, f, dropped, s, rax, cpu, link, bias, a, ws[k - 1]);
    var mid := cpu.(rax := ws[k - 1]);
    PushRuns(c, l.insns, cpu, mid);
    PushedSame(c.frame, cpu, mid, ws, k);
    PushKeeps(c.frame, dropped, s, l.rax, mid, link, ws, k);
    cpu' := AfterPush(mid);
  }

  lemma PushedSame(f: Frame, cpu: Cpu, cpu': Cpu, ws: seq<Word>, k: nat)
    requires Pushed(f, cpu, ws, k) && cpu'.mem == cpu.mem
    ensures Pushed(f, cpu', ws, k)
  {
  }

  lemma {:induction false} PushesCorrect(c: Context, f: Layout, dropped: set<nat>, s: State, rax: Option<nat>,
      cpu: Cpu, link: Word, args: seq<Operand>, ws: seq<Word>, k: nat) returns (cpu': Cpu)
    requires Fits(c, f, dropped) && k <= |args| && Values(c, s, args) == Some(ws) && (k < 6 ==> k == |args|)
    requires CpuRel(c.frame, dropped, s, rax, cpu, link, 8 * (|ws| - k)) && Pushed(c.frame, cpu, ws, k)
    requires forall j :: 6 <= j < k && args[j].Temp? ==> args[j].t !in dropped
    requires EmitPushes(f, rax, args, k, |ws| - k).Some?
    ensures var p := EmitPushes(f, rax, args, k, |ws| - k).value;
      Exec(c.world, p.insns, cpu) == Some(cpu') && CpuRel(c.frame, dropped, s, p.rax, cpu', link, StackBytes(|args|))
    ensures |args| >= 6 ==> Pushed(c.frame, cpu', ws, 6)
    decreases k
  {
    hide Exec1, MemRel, Respects;
    if k <= 6 {
      cpu' := cpu;
    } else {
      ValuesAt(c, s, args, k - 1);
      var l := EmitLoad(f, rax, 8 * (|ws| - k), args[k - 1]).value;
      var mid := PushStep(c, f, dropped, s, rax, cpu, link, args[k - 1], ws, k);
      var rest := EmitPushes(f, l.rax, args, k - 1, |ws| - k + 1).value;
      assert EmitPushes(f, rax, args, k, |ws| - k).value == Code(l.insns + [PushRax] + rest.insns, rest.rax);
      cpu' := PushesCorrect(c, f, dropped, s, l.rax, mid, link, args, ws, k - 1);
      ExecAppend(c.world, l.insns + [PushRax], rest.insns, cpu, mid);
    }
  }

  /** Running one register move: load, then MoveToArg. */
  lemma MoveStep(c: Context, f: Layout, dropped: set<nat>, s: State, rax: Option<nat>, cpu: Cpu, link: Word, bias: nat,
      a: Operand, ws: seq<Word>, k: nat) returns (cpu': Cpu)
    requires Fits(c, f, dropped) && k < |ws| && k < 6
    requires CpuRel(c.frame, dropped, s, rax, cpu, link, bias) && Pushed(c.frame, cpu, ws, 6) && Moved(cpu, ws, k)
    requires Value(c, s, a) == Some(ws[k]) && EmitLoad(f, rax, bias, a).Some?
    requires a.Temp? && a.t in dropped ==> bias == 0 && rax == Some(a.t)
    ensures var l := EmitLoad(f, rax, bias, a).value;
      Exec(c.world, l.insns + [MoveToArg(k)], cpu) == Some(cpu') && CpuRel(c.frame, dropped, s, l.rax, cpu', link, bias)
    ensures Pushed(c.frame, cpu', ws, 6) && Moved(cpu', ws, k + 1)
  {
    hide Exec, Exec1, EmitLoad, MemRel;
    var l := EmitLoad(f, rax, bias, a).value;
    LoadCorrect(c, f, dropped, s, rax, cpu, link, bias, a, ws[k]);
    var mid := cpu.(rax := ws[k]);
    ExecOne(c.world, MoveToArg(k), mid);
    Moves(c.world, MoveToArg(k), mid);
    ExecAppend(c.world, l.insns, [MoveToArg(k)], cpu, mid);
    cpu' := SetArgRegister(mid, k, ws[k]);
  }

  lemma {:induction false} MovesCorrect(c: Context, f: Layout, dropped: set<nat>, s: State, rax: Option<nat>, cpu: Cpu,
      link: Word, args: seq<Operand>, ws: seq<Word>, k: nat) returns (cpu': Cpu)
    requires Fits(c, f, dropped) && k <= |args| && Values(c, s, args) == Some(ws)
    requires CpuRel(c.frame, dropped, s, rax, cpu, link, StackBytes(|args|)) && Pushed(c.frame, cpu, ws, 6) &&
        Moved(cpu, ws, k)
    requires forall j :: k <= j < |args| && j < 6 && args[j].Temp? && args[j].t in dropped ==>
      j == k && rax == Some(args[j].t) && StackBytes(|args|) == 0
    requires EmitMoves(f, rax, args, k).Some?
    ensures var p := EmitMoves(f, rax, args, k).value;
      Exec(c.world, p.insns, cpu) == Some(cpu') && CpuRel(c.frame, dropped, s, p.rax, cpu', link, StackBytes(|args|))
    ensures Pushed(c.frame, cpu', ws, 6) && Moved(cpu', ws, 6)
    decreases |args| - k
  {
    hide Exec1, MemRel, Respects;
    if k == |args| || k >= 6 {
      cpu' := cpu;
    } else {
      ValuesAt(c, s, args, k);
      var l := EmitLoad(f, rax, StackBytes(|args|), args[k]).value;
      var mid := MoveStep(c, f, dropped, s, rax, cpu, link, StackBytes(|args|), args[k], ws, k);
      cpu' := MovesCorrect(c, f, dropped, s, l.rax, mid, link, args, ws, k + 1);
      ExecAppend(c.world, l.insns + [MoveToArg(k)], EmitMoves(f, l.rax, args, k + 1).value.insns, cpu, mid);
    }
  }

  /** The callee finds every argument, valued as before the call. */
  lemma ArgumentsFound(f: Frame, cpu: Cpu, ws: seq<Word>)
    requires cpu.rsp == f.base - StackBytes(|ws|) && Pushed(f, cpu, ws, 6) && Moved(cpu, ws, 6)
    ensures Arguments(cpu, 0, |ws|) == ws
  {
    forall j | 0 <= j < |ws| ensures Arguments(cpu, 0, |ws|)[j] == ws[j] {
      if j >= 6 { assert cpu.rsp + 8 * (j - 6) == f.base - 8 * (|ws| - j); }
    }
  }

  /** Which arguments of a call may be found only in rax: the first, if none is on the stack. */
  ghost predicate ArgsSafe(dropped: set<nat>, rax: Option<nat>, args: seq<Operand>)
  {
    forall j :: 0 <= j < |args| && args[j].Temp? && args[j].t in dropped ==>
        j == 0 && |args| <= 6 && rax == Some(args[j].t)
  }

  /** The argument code of a call, for any number of arguments: each reaches the callee
      with the value it had before the call, although pushing moves the stack pointer. */
  lemma ArgumentsCorrect(c: Context, f: Layout, dropped: set<nat>, s: State, rax: Option<nat>, cpu: Cpu, link: Word,
      args: seq<Operand>, ws: seq<Word>) returns (cpu': Cpu)
    requires Fits(c, f, dropped) && CpuRel(c.frame, dropped, s, rax, cpu, link, 0)
    requires Values(c, s, args) == Some(ws) && ArgsSafe(dropped, rax, args) && EmitArguments(f, rax, args).Some?
    ensures var p := EmitArguments(f, rax, args).value;
      Exec(c.world, p.insns, cpu) == Some(cpu') && CpuRel(c.frame, dropped, s, p.rax, cpu', link, StackBytes(|args|))
    ensures Arguments(cpu', 0, |args|) == ws
  {
    hide Exec1, MemRel, Respects;
    var p := EmitPushes(f, rax, args, |args|, 0).value;
    var mid := PushesCorrect(c, f, dropped, s, rax, cpu, link, args, ws, |args|);
    cpu' := MovesCorrect(c, f, dropped, s, p.rax, mid, link, args, ws, 0);
    ArgumentsFound(c.frame, cpu', ws);
    ExecAppend(c.world, p.insns, EmitMoves(f, p.rax, args, 0).value.insns, cpu, mid);
  }

  // ---- The call itself ----------------------------------------------------------------

  lemma CallReturns(c: Context, dropped: set<nat>, s: State, cpu: Cpu, link: Word, bias: nat, callee: Callee,
      ws: seq<Word>)
    requires c.frame.Laid() && Respects(c.world, c.frame) && CpuRel(c.frame, dropped, s, None, cpu, link, bias)
    requires Arguments(cpu, 0, |ws|) == ws
    ensures CallCpu(c.world, cpu, callee, |ws|).rax == CallState(c, s, callee, ws).1
    ensures CpuRel(c.frame, dropped, CallState(c, s, callee, ws).0, None, CallCpu(c.world, cpu, callee, |ws|), link,
        bias)
  {
    var trace := s.trace + [Event(callee, ws)];
    var m := Write(cpu.mem, cpu.rsp - 8, c.world.link(trace));
    CallCpuParts(c.world, cpu, callee, ws);
    BelowFrame(c.frame, dropped, s, cpu.mem, m, link);
    CallMemory(c.world, c.frame, dropped, s, m, link, trace);
  }

  lemma CallCpuParts(world: World, cpu: Cpu, callee: Callee, ws: seq<Word>)
    requires Arguments(cpu, 0, |ws|) == ws
    ensures var trace := cpu.trace + [Event(callee, ws)];
      var effect := world.call(trace, Write(cpu.mem, cpu.rsp - 8, world.link(trace)));
      var cpu' := CallCpu(world, cpu, callee, |ws|);
      cpu'.rax == effect.result && cpu'.mem == effect.mem && cpu'.trace == trace && cpu'.rsp == cpu.rsp
  {
  }

  /** Popping the pushed arguments. */
  lemma CleanupCorrect(c: Context, dropped: set<nat>, s: State, cpu: Cpu, link: Word, argc: nat)
    requires CpuRel(c.frame, dropped, s, None, cpu, link, StackBytes(argc))
    ensures var cpu' := cpu.(rsp := cpu.rsp + StackBytes(argc));
      Exec(c.world, Cleanup(argc), cpu) == Some(cpu') && CpuRel(c.frame, dropped, s, None, cpu', link, 0)
  {
    hide Exec;
    if StackBytes(argc) > 0 { ExecOne(c.world, AddRsp(StackBytes(argc)), cpu); } else { ExecNone(c.world, cpu); }
  }

  lemma ArgumentsSame(cpu: Cpu, cpu': Cpu, argc: nat)
    requires cpu' == cpu.(rax := cpu'.rax)
    ensures Arguments(cpu', 0, argc) == Arguments(cpu, 0, argc)
  {
    assert forall i :: 0 <= i < argc ==> Argument(cpu', i) == Argument(cpu, i);
  }

  lemma {:induction false} ArgUsesAt(args: seq<Operand>, k: nat, j: nat, t: nat)
    requires k <= j < |args| && args[j] == Temp(t)
    ensures ArgUses(args, k, t) >= 1
    ensures k < j && args[k] == Temp(t) ==> ArgUses(args, k, t) >= 2
    decreases j - k
  {
    if k < j { ArgUsesAt(args, k + 1, j, t); }
  }

  lemma CalleeUses(i: Instr, t: nat)
    requires i.CallIndirect? && i.callee == Temp(t)
    ensures Uses(i, t) >= 1 && (Consumes(i, t) ==> Uses(i, t) >= 2)
  {
  }

  lemma CallArgsSafe(f: Layout, dropped: set<nat>, i: Instr, prev: Option<nat>, rax: Option<nat>)
    requires (i.Call? || i.CallIndirect?) && SafeInstr(f, dropped, i, prev) && (prev.Some? ==> rax == prev)
    ensures ArgsSafe(dropped, rax, i.args)
    ensures i.CallIndirect? && i.callee.Temp? ==> i.callee.t !in dropped
  {
    forall j | 0 <= j < |i.args| && i.args[j].Temp? && i.args[j].t in dropped
      ensures j == 0 && |i.args| <= 6 && rax == Some(i.args[j].t)
    {
      ArgUsesAt(i.args, 0, j, i.args[j].t);
      FirstOperand(f, dropped, i, prev, i.args[j]);
    }
    if i.CallIndirect? && i.callee.Temp? && i.callee.t in dropped {
      CalleeUses(i, i.callee.t);
      FirstOperand(f, dropped, i, prev, i.callee);
    }
  }

  /** From the returned call to the end of the instruction. */
  lemma FinishCall(c: Context, f: Layout, dropped: set<nat>, s: State, code: seq<Insn>, cpu: Cpu, mid: Cpu, link: Word,
      argc: nat, omit: Option<nat>, res: Option<nat>, s': State) returns (cpu': Cpu)
    requires Fits(c, f, dropped) && Exec(c.world, code, cpu) == Some(mid)
    requires CpuRel(c.frame, dropped, s, None, mid, link, StackBytes(argc))
    requires EmitResult(f, omit, res).Some? && (omit.Some? ==> omit.value in dropped)
    requires AssignResult(c.frame, s, res, mid.rax) == Some(s')
    ensures var r := EmitResult(f, omit, res).value;
      Ran(c, dropped, Code(code + Cleanup(argc) + r.insns, r.rax), cpu, s', cpu', link)
  {
    hide Exec;
    CleanupCorrect(c, dropped, s, mid, link, argc);
    var popped := mid.(rsp := mid.rsp + StackBytes(argc));
    ExecAppend(c.world, code, Cleanup(argc), cpu, mid);
    if res.None? {
      cpu' := popped;
      assert code + Cleanup(argc) + [] == code + Cleanup(argc);
    } else {
      cpu' := FinishStore(c, f, dropped, s, code + Cleanup(argc), cpu, popped, link, omit, res.value, s');
    }
  }

  lemma DirectReturns(c: Context, dropped: set<nat>, s: State, rax: Option<nat>, cpu: Cpu, link: Word, name: string,
      ws: seq<Word>) returns (back: Cpu)
    requires c.frame.Laid() && Respects(c.world, c.frame) &&
        CpuRel(c.frame, dropped, s, rax, cpu, link, StackBytes(|ws|))
    requires Arguments(cpu, 0, |ws|) == ws
    ensures Exec(c.world, [CallFunction(name, |ws|)], cpu) == Some(back)
    ensures back.rax == CallState(c, s, Direct(name), ws).1
    ensures CpuRel(c.frame, dropped, CallState(c, s, Direct(name), ws).0, None, back, link, StackBytes(|ws|))
  {
    hide Exec, CallCpu, Arguments, Exec1, MemRel, CallState;
    CallReturns(c, dropped, s, cpu, link, StackBytes(|ws|), Direct(name), ws);
    back := CallCpu(c.world, cpu, Direct(name), |ws|);
    Stacks(c.world, CallFunction(name, |ws|), cpu);
  }

  lemma DirectCallCorrect(c: Context, f: Layout, dropped: set<nat>, s: State, rax: Option<nat>, cpu: Cpu, link: Word,
      i: Instr, prev: Option<nat>, omit: Option<nat>, s': State) returns (cpu': Cpu)
    requires i.Call? && Ready(c, f, dropped, s, rax, cpu, link, i, prev, omit)
    requires RunInstr(c, i, s) == Some(s') && EmitInstr(f, rax, omit, i).Some?
    ensures Ran(c, dropped, EmitInstr(f, rax, omit, i).value, cpu, s', cpu', link)
  {
    hide Exec1, MemRel, Respects, Exec, CallCpu, Arguments, Argument, CpuRel, EmitArguments;
    CallArgsSafe(f, dropped, i, prev, rax);
    var ws := Values(c, s, i.args).value;
    var p := EmitArguments(f, rax, i.args).value;
    var mid := ArgumentsCorrect(c, f, dropped, s, rax, cpu, link, i.args, ws);
    var back := DirectReturns(c, dropped, s, p.rax, mid, link, i.name, ws);
    ExecAppend(c.world, p.insns, [CallFunction(i.name, |ws|)], cpu, mid);
    cpu' := FinishCall(c, f, dropped, CallState(c, s, Direct(i.name), ws).0, p.insns + [CallFunction(i.name, |ws|)],
        cpu, back, link, |ws|, omit, i.res, s');
  }

  lemma IndirectCallCorrect(c: Context, f: Layout, dropped: set<nat>, s: State, rax: Option<nat>, cpu: Cpu, link: Word,
      i: Instr, prev: Option<nat>, omit: Option<nat>, s': State) returns (cpu': Cpu)
    requires i.CallIndirect? && Ready(c, f, dropped, s, rax, cpu, link, i, prev, omit)
    requires RunInstr(c, i, s) == Some(s') && EmitInstr(f, rax, omit, i).Some?
    ensures Ran(c, dropped, EmitInstr(f, rax, omit, i).value, cpu, s', cpu', link)
  {
    hide Exec1, MemRel, Respects, Exec, CallCpu, Arguments, Argument, CpuRel, EmitArguments;
    CallArgsSafe(f, dropped, i, prev, rax);
    var ws := Values(c, s, i.args).value;
    var target := Value(c, s, i.callee).value;
    var p := EmitArguments(f, rax, i.args).value;
    var mid := ArgumentsCorrect(c, f, dropped, s, rax, cpu, link, i.args, ws);
    var l := EmitLoad(f, p.rax, StackBytes(|ws|), i.callee).value;
    var back := CalleeLoaded(c, f, dropped, s, p.rax, mid, link, i.callee, target, ws);
    ExecAppend(c.world, p.insns, l.insns + [CallRax(|ws|)], cpu, mid);
    assert p.insns + (l.insns + [CallRax(|ws|)]) == p.insns + l.insns + [CallRax(|ws|)];
    cpu' := FinishCall(c, f, dropped, CallState(c, s, Address(target), ws).0, p.insns + l.insns + [CallRax(|ws|)], cpu,
        back, link, |ws|, omit, i.res, s');
  }

  /** With the arguments in place, load the callee and call it. */
  lemma CalleeLoaded(c: Context, f: Layout, dropped: set<nat>, s: State, rax: Option<nat>, cpu: Cpu, link: Word,
      callee: Operand, target: Word, ws: seq<Word>) returns (back: Cpu)
    requires Fits(c, f, dropped) && CpuRel(c.frame, dropped, s, rax, cpu, link, StackBytes(|ws|))
    requires Arguments(cpu, 0, |ws|) == ws && Value(c, s, callee) == Some(target)
    requires EmitLoad(f, rax, StackBytes(|ws|), callee).Some? && (callee.Temp? ==> callee.t !in dropped)
    ensures var l := EmitLoad(f, rax, StackBytes(|ws|), callee).value;
      Exec(c.world, l.insns + [CallRax(|ws|)], cpu) == Some(back)
    ensures back.rax == CallState(c, s, Address(target), ws).1
    ensures CpuRel(c.frame, dropped, CallState(c, s, Address(target), ws).0, None, back, link, StackBytes(|ws|))
  {
    hide Exec, CallCpu, Argument, Arguments, Exec1, EmitLoad, CpuRel, MemRel, CallState, Respects;
    var l := EmitLoad(f, rax, StackBytes(|ws|), callee).value;
    LoadCorrect(c, f, dropped, s, rax, cpu, link, StackBytes(|ws|), callee, target);
    var loaded := cpu.(rax := target);
    ArgumentsSame(cpu, loaded, |ws|);
    Forget(c.frame, dropped, s, l.rax, loaded, loaded, link, StackBytes(|ws|));
    CallReturns(c, dropped, s, loaded, link, StackBytes(|ws|), Address(target), ws);
    back := CallCpu(c.world, loaded, Address(target), |ws|);
    Stacks(c.world, CallRax(|ws|), loaded);
    ExecAppend(c.world, l.insns, [CallRax(|ws|)], cpu, loaded);
  }
}
