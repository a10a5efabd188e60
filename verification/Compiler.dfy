/** The two halves of the compiler put together: the machine code of a source function
    does what the source function does. */
module Compiler {
  import opened Options
  import opened Words
  import opened Ir
  import opened Machine
  import opened Allocation
  import opened Emission
  import opened Elision
  import opened Relation
  import opened ListCorrect
  import opened Labels
  import opened FunctionCorrect
  import opened Emittable
  import opened Source
  import opened Statements
  import LowerStatements
  import Shape
  import StatementShape
  import Wiring
  import opened LowerFunction
  import opened Represent
  import opened Acceptance
  import opened Stuck
  import Readings
  import ReadingFlows

  type Blocks = LowerStatements.Blocks
  type St = LowerStatements.St

  // ---- Lowered code is well formed ------------------------------------------------------------

  lemma {:induction false} OrdinaryReads(i: Instr)
    requires Shape.Ordinary(i)
    ensures NoParams(i)
    decreases i, 0
  {
    match i
    case Cond(_, ci, _, ti, _, fi, _) =>
      OrdinaryReadsFrom(ci, 0);
      OrdinaryReadsFrom(ti, 0);
      OrdinaryReadsFrom(fi, 0);
    case _ =>
  }

  lemma {:induction false} OrdinaryReadsFrom(list: seq<Instr>, k: nat)
    requires k <= |list| && forall x :: x in list[k..] ==> Shape.Ordinary(x)
    ensures NoParamsFrom(list, k)
    decreases list, |list| - k
  {
    if k < |list| {
      assert list[k] == list[k..][0] && list[k + 1..] == list[k..][1..];
      OrdinaryReads(list[k]);
      OrdinaryReadsFrom(list, k + 1);
    }
  }

  lemma {:induction false} ParamsRead(pre: seq<Instr>, list: seq<Instr>, k: nat)
    requires pre <= list && k <= |pre| && (forall x :: x in pre ==> x.Param?) && NoParamsFrom(list, |pre|)
    ensures ParamsFirst(list, k)
    decreases |pre| - k
  {
    if k < |pre| {
      assert list[k] == pre[k] && pre[k] in pre;
      ParamsRead(pre, list, k + 1);
    }
  }

  lemma AfterReads(pre: seq<Instr>, list: seq<Instr>)
    requires StatementShape.After(pre, list) && forall x :: x in pre ==> x.Param?
    ensures ParamsFirst(list, 0) && (pre == [] ==> NoParamsFrom(list, 0))
  {
    OrdinaryReadsFrom(list, |pre|);
    ParamsRead(pre, list, 0);
  }

  lemma WholeWellFormed(g: Env, f: Function, st: St)
    requires Resolved(g, f, st) && LowerWhole(g, f, st).Some?
    ensures WellFormed(LowerWhole(g, f, st).value.blocks)
  {
    hide LowerWhole, ParamsFirst, NoParamsFrom;
    var low := LowerWhole(g, f, st).value;
    var blocks, pre := low.blocks, LowerParams(f.params, 0);
    WholeFormed(g, f, st);
    ParamsOnly(f.params, 0);
    forall i | 0 <= i < |blocks| ensures 0 !in Targets(blocks[i].term) && st.block !in Targets(blocks[i].term) {
      assert blocks[i] in blocks;
      assert Wiring.Avoids(blocks, 0) && Wiring.Avoids(blocks, st.block);
    }
    forall i | 0 <= i < |blocks| ensures ParamsFirst(blocks[i].instrs, 0) &&
        (i > 0 ==> NoParamsFrom(blocks[i].instrs, 0)) {
      AfterReads(if i == 0 then pre else [], blocks[i].instrs);
    }
  }

  lemma WholeServed(g: Env, f: Function, st: St, t: nat)
    requires Resolved(g, f, st) && LowerWhole(g, f, st).Some? && Declared(g, LowerWhole(g, f, st).value.blocks)
    requires var blocks := LowerWhole(g, f, st).value.blocks;
        DefinesBlocks(blocks, 0, t) || UsesBlocks(blocks, 0, t) > 0
    ensures Slotted(LayoutOf(LowerWhole(g, f, st).value.blocks), t)
    ensures DefinesBlocks(LowerWhole(g, f, st).value.blocks, 0, t)
  {
    hide LowerWhole, Wiring.Avoids, Wiring.ListWired;
    var low := LowerWhole(g, f, st).value;
    WholeFormed(g, f, st);
    if UsesBlocks(low.blocks, 0, t) > 0 && t !in g.vars { assert t in {} + Shape.Range(st.temp, low.st.temp); }
    WholePrivate(g, f, st, 0, t);
  }

  /** The results of code without stack objects have slots. */
  lemma {:induction false} Slots(f: Layout, i: Instr)
    requires NoStorage(i) && forall t: nat :: Defines(i, t) ==> Slotted(f, t)
    ensures Storable(f, i)
    decreases i, 0
  {
    hide Slotted;
    match i
    case Cond(u, ci, _, ti, _, fi, _) =>
      forall t: nat ensures
          DefinesFrom(ci, 0, t) || DefinesFrom(ti, 0, t) || DefinesFrom(fi, 0, t) || u == t ==> Defines(i, t) {}
      SlotsFrom(f, ci, 0);
      SlotsFrom(f, ti, 0);
      SlotsFrom(f, fi, 0);
    case Store(_, _, _) =>
    case Call(res, _, _) => if res.Some? { assert Defines(i, res.value); }
    case CallIndirect(res, _, _) => if res.Some? { assert Defines(i, res.value); }
    case Alloca(_, _) =>
    case AddrOf(_, _) =>
    case _ => assert Defines(i, i.t);
  }

  lemma {:induction false} SlotsFrom(f: Layout, list: seq<Instr>, k: nat)
    requires k <= |list| && NoStorageFrom(list, k) && forall t: nat :: DefinesFrom(list, k, t) ==> Slotted(f, t)
    ensures StorableFrom(f, list, k)
    decreases list, |list| - k
  {
    hide Slotted;
    if k < |list| {
      forall t: nat ensures Defines(list[k], t) || DefinesFrom(list, k + 1, t) ==> DefinesFrom(list, k, t) {}
      Slots(f, list[k]);
      SlotsFrom(f, list, k + 1);
    }
  }

  lemma {:induction false} BlockDefines(blocks: seq<Block>, k: nat, i: nat, t: nat)
    requires k <= i < |blocks| && DefinesFrom(blocks[i].instrs, 0, t)
    ensures DefinesBlocks(blocks, k, t)
    decreases i - k
  {
    if k < i { BlockDefines(blocks, k + 1, i, t); }
  }

  /** The back end accepts every function the lowering produces. */
  lemma WholeEmits(g: Env, f: Function, st: St)
    requires Resolved(g, f, st) && LowerWhole(g, f, st).Some? && Declared(g, LowerWhole(g, f, st).value.blocks)
    ensures EmitFunction(LowerWhole(g, f, st).value.blocks).Some?
  {
    hide LowerWhole, LayoutOf, AllocFunction, EmitFunction, EmitBlocks, Slotted, StorableFrom;
    var blocks := LowerWhole(g, f, st).value.blocks;
    var layout := LayoutOf(blocks);
    WholeFormed(g, f, st);
    FunctionEmits(blocks);
    forall t: nat ensures DefinesBlocks(blocks, 0, t) || Mentions(blocks, t) ==>
        Slotted(layout, t) && DefinesBlocks(blocks, 0, t) {
      if DefinesBlocks(blocks, 0, t) || Mentions(blocks, t) { WholeServed(g, f, st, t); }
    }
    forall i | 0 <= i < |blocks| ensures StorableFrom(layout, blocks[i].instrs, 0) && Compares(blocks[i].term) {
      BlockStores(f, blocks, i);
      forall t: nat | DefinesFrom(blocks[i].instrs, 0, t) ensures Slotted(layout, t) { BlockDefines(blocks, 0, i, t); }
      SlotsFrom(layout, blocks[i].instrs, 0);
    }
  }

  // ---- The compiler ------------------------------------------------------------------------------

  /** Machine code for a function; None is a compile error. */
  ghost function Compile(g: Env, f: Function, st: St): Option<seq<Insn>>
  {
    var low :- LowerWhole(g, f, st);
    EmitFunction(low.blocks)
  }

  /** A function whose variables are declared compiles exactly when its body is well formed. */
  lemma CompilesExactly(g: Env, f: Function, st: St)
    requires Resolved(g, f, st)
    requires LowerWhole(g, f, st).Some? ==> Declared(g, LowerWhole(g, f, st).value.blocks)
    ensures Compile(g, f, st).Some? <==> Accepted(g, f.body, false, false)
  {
    hide LowerWhole, Accepted, EmitFunction, Declared;
    FunctionAccepted(g, f, st);
    if LowerWhole(g, f, st).Some? { WholeEmits(g, f, st); }
  }

  /** A function that can be called: its names are resolved, it lowers, the frame is the
      one its code lays out, and what it calls leaves its private storage alone. */
  ghost predicate Callable(c: Context, g: Env, f: Function, st: St)
  {
    && g.reading.AsCompiled? && Resolved(g, f, st) && LowerWhole(g, f, st).Some? && |f.params| <= |c.args|
    && var blocks := LowerWhole(g, f, st).value.blocks;
       Declared(g, blocks) && c.frame == FunctionFrame(blocks, c.frame.base) && Respects(c.world, c.frame)
  }

  /** The machine is about to run the function's code, called as the source function is. */
  ghost predicate Invoked(c: Context, g: Env, f: Function, st: St, mem: Mem, trace: seq<Event>, cpu: Cpu,
      link: Word): (ok: bool)
    ensures ok ==>
      g.reading.AsCompiled? && (forall k :: 0 <= k < |f.params| ==> f.params[k] in g.vars) && |f.params| <= |c.args|
  {
    Callable(c, g, f, st) && Called(c, LowerWhole(g, f, st).value.blocks, State(map[], mem, trace), cpu, link)
  }

  /** A world whose calls return zero and change nothing. */
  function Quiet(): World
  {
    World(name => ZERO, name => ZERO,
      (trace, mem) => Effect(ZERO, mem, Scratch(ZERO, ZERO, ZERO, ZERO, ZERO, ZERO, ZERO, ZERO)), trace => ZERO)
  }

  /** Every function that compiles can be called, with any arguments, at any stack pointer
      below the arguments that are passed in memory. */
  lemma Invocable(g: Env, f: Function, st: St, args: seq<Word>, base: int, mem: Mem, trace: seq<Event>)
      returns (c: Context, cpu: Cpu, link: Word)
    requires g.reading.AsCompiled? && Resolved(g, f, st) && Compile(g, f, st).Some? && |f.params| <= |args|
    requires Declared(g, LowerWhole(g, f, st).value.blocks)
    requires var top := FunctionFrame(LowerWhole(g, f, st).value.blocks, base).ReturnAddress() + 8;
      forall j :: 6 <= j < |args| ==> args[j] == ReadWord(mem, top + 8 * (j - 6))
    ensures Invoked(c, g, f, st, mem, trace, cpu, link) && c.args == args && c.frame.base == base
  {
    hide LowerWhole, Declared, AllocFunction, ExposedBlocks, EmitFunction, ReadWord;
    var frame := FunctionFrame(LowerWhole(g, f, st).value.blocks, base);
    c := Context(Quiet(), frame, args);
    var word := (j: nat) => if j < |args| then args[j] else ZERO;
    cpu := Cpu(ZERO, ZERO, word(3), word(2), word(0), word(1), word(4), word(5), frame.ReturnAddress(), ZERO, ZERO, mem,
      trace);
    link := ReadWord(mem, frame.ReturnAddress());
  }

  /** The function compiles, and its code takes the machine from cpu to m in that many steps. */
  ghost predicate Executes(c: Context, g: Env, f: Function, st: St, cpu: Cpu, steps: nat, m: Status)
  {
    Compile(g, f, st).Some? && Run(c.world, Compile(g, f, st).value, steps, Running(0, cpu)) == m
  }

  /** What the machine shows of a source call that has the given flow: a result in rax, the
      caller's stack pointer, the calls made and the visible memory; or that it still runs. */
  ghost predicate Shows(c: Context, flow: Flow, fuel: nat, steps: nat, m: Status, link: Word)
  {
    match flow
    case Returned(w, s) => m.Halted? && m.cpu.rax == w && Settled(c, s, m.cpu, link)
    case Next(s) => m.Halted? && m.cpu.rax == ZERO && Settled(c, s, m.cpu, link)
    case Exhausted => m.Running? && steps + 1 >= fuel
    case Broke(_) => false
    case Continued(_) => false
    case Wrong => true
  }

  ghost predicate Settled(c: Context, s: Config, cpu: Cpu, link: Word)
  {
    cpu.rsp == c.frame.ReturnAddress() && ReadWord(cpu.mem, cpu.rsp) == link && cpu.trace == s.trace &&
        Agree(c.frame, s.mem, cpu.mem)
  }

  lemma CompilesOk(c: Context, g: Env, f: Function, st: St)
    requires Callable(c, g, f, st)
    ensures Compile(g, f, st).Some? && Compiled(c, LowerWhole(g, f, st).value.blocks)
  {
    hide LowerWhole, WellFormed, EmitFunction, Declared, FunctionFrame, Respects;
    WholeWellFormed(g, f, st);
    WholeEmits(g, f, st);
  }

  /** A call ends by returning or by reaching the end. */
  lemma WholeStays(c: Context, g: Env, f: Function, st: St, fuel: nat, mem: Mem, trace: seq<Event>)
    requires LowerWhole(g, f, st).Some? && (forall k :: 0 <= k < |f.params| ==> f.params[k] in g.vars) &&
        |f.params| <= |c.args|
    ensures !Behaviour(c, g, f, fuel, mem, trace).Broke? && !Behaviour(c, g, f, fuel, mem, trace).Continued?
  {
    hide LowerWhole, ExecList, Accepted;
    FunctionAccepted(g, f, st);
    ListStays(Scene(c, g, ReturnType(f)), fuel, f.body, Entry(g, f, c, mem, trace), false, false);
  }

  /** From source to machine, as the source is compiled: the code of a function, called as
      the source function is called, halts with the value the source function returns,
      having made the same calls and left the same visible memory, and runs on for as long
      as the source function does. */
  lemma MachineRuns(c: Context, g: Env, f: Function, st: St, fuel: nat, mem: Mem, trace: seq<Event>, cpu: Cpu,
      link: Word) returns (steps: nat, m: Status)
    requires Invoked(c, g, f, st, mem, trace, cpu, link)
    ensures Executes(c, g, f, st, cpu, steps, m)
    ensures Shows(c, Behaviour(c, g, f, fuel, mem, trace), fuel, steps, m, link)
  {
    hide LowerWhole, Compiled, Called, EmitFunction, Run, RunBlocks, Declared, FunctionFrame, Respects, Behaviour;
    CompilesOk(c, g, f, st);
    var blocks := LowerWhole(g, f, st).value.blocks;
    var n, s := WholeRuns(c, g, f, st, fuel, mem, trace);
    WholeStays(c, g, f, st, fuel, mem, trace);
    steps, m := FunctionSimulated(c, blocks, State(map[], mem, trace), cpu, link, n);
    MatchesShow(c, blocks, Behaviour(c, g, f, fuel, mem, trace), fuel, n,
        RunBlocks(c, blocks, n, AtBlock(0, State(map[], mem, trace))), s, steps, m, link);
  }

  /** What the source function does in C. */
  ghost function InC(c: Context, g: Env, f: Function, fuel: nat, mem: Mem, trace: seq<Event>): Flow
    requires (forall k :: 0 <= k < |f.params| ==> f.params[k] in g.vars) && |f.params| <= |c.args|
  {
    Behaviour(c, Readings.With(g, Standard), f, fuel, mem, trace)
  }

  /** The program is portable, or this run of it takes none of the guards. */
  ghost predicate Faithful(c: Context, g: Env, f: Function, fuel: nat, mem: Mem, trace: seq<Event>)
    requires (forall k :: 0 <= k < |f.params| ==> f.params[k] in g.vars) && |f.params| <= |c.args|
  {
    ReadingFlows.PortableList(c, g, f.body) || !Behaviour(c, Readings.With(g, Guarded), f, fuel, mem, trace).Wrong?
  }

  lemma CompiledIsC(c: Context, g: Env, f: Function, fuel: nat, mem: Mem, trace: seq<Event>)
    requires g.reading.AsCompiled? && (forall k :: 0 <= k < |f.params| ==> f.params[k] in g.vars) &&
        |f.params| <= |c.args|
    requires Faithful(c, g, f, fuel, mem, trace)
    ensures InC(c, g, f, fuel, mem, trace).Wrong? ||
        InC(c, g, f, fuel, mem, trace) == Behaviour(c, g, f, fuel, mem, trace)
  {
    hide ExecList, ReadingFlows.PortableList;
    var e := Scene(c, g, ReturnType(f));
    var s := Entry(g, f, c, mem, trace);
    assert Readings.With(g, AsCompiled) == g;
    SameEntry(c, g, f, mem, trace);
    ReadingFlows.ListSame(e, Standard, fuel, f.body, s);
    if !InC(c, g, f, fuel, mem, trace).Wrong? { ReadingFlows.ListSame(e, AsCompiled, fuel, f.body, s); }
  }

  lemma SameEntry(c: Context, g: Env, f: Function, mem: Mem, trace: seq<Event>)
    requires (forall k :: 0 <= k < |f.params| ==> f.params[k] in g.vars) && |f.params| <= |c.args|
    ensures forall r :: Entry(Readings.With(g, r), f, c, mem, trace) == Entry(g, f, c, mem, trace)
  {
    forall r ensures Entry(Readings.With(g, r), f, c, mem, trace) == Entry(g, f, c, mem, trace) {
      SameBindings(g, r, f.params, 0, c.args, map[]);
    }
  }

  lemma {:induction false} SameBindings(g: Env, r: Reading, params: seq<nat>, index: nat, args: seq<Word>,
      vars: map<nat, int>)
    requires (forall k :: 0 <= k < |params| ==> params[k] in g.vars) && index + |params| <= |args|
    ensures Bind(Readings.With(g, r), params, index, args, vars) == Bind(g, params, index, args, vars)
    decreases |params|
  {
    hide AtType;
    if params != [] {
      SameBindings(g, r, params[1..], index + 1, args,
          vars[params[0] := AtType(g.vars[params[0]], Unsigned(args[index]))]);
    }
  }

  /** From C to machine: what the compiled code of a function shows is what the function
      does in C, if the program is portable or its run takes none of the guards. */
  lemma CompilerCorrect(c: Context, g: Env, f: Function, st: St, fuel: nat, mem: Mem, trace: seq<Event>, cpu: Cpu,
      link: Word) returns (steps: nat, m: Status)
    requires Invoked(c, g, f, st, mem, trace, cpu, link) && Faithful(c, g, f, fuel, mem, trace)
    ensures Executes(c, g, f, st, cpu, steps, m)
    ensures Shows(c, InC(c, g, f, fuel, mem, trace), fuel, steps, m, link)
  {
    hide Invoked, Executes, Behaviour, InC, Faithful, Settled;
    InvokedOk(c, g, f, st, mem, trace, cpu, link);
    steps, m := MachineRuns(c, g, f, st, fuel, mem, trace, cpu, link);
    CompiledIsC(c, g, f, fuel, mem, trace);
  }

  lemma InvokedOk(c: Context, g: Env, f: Function, st: St, mem: Mem, trace: seq<Event>, cpu: Cpu, link: Word)
    requires Invoked(c, g, f, st, mem, trace, cpu, link)
    ensures g.reading.AsCompiled? && (forall k :: 0 <= k < |f.params| ==> f.params[k] in g.vars) &&
        |f.params| <= |c.args|
  {
    hide LowerWhole, Called, Declared, FunctionFrame, Respects;
  }

  /** What a call of a function with a known type returns is a value of that type. */
  lemma ReturnsItsType(c: Context, g: Env, f: Function, fuel: nat, mem: Mem, trace: seq<Event>)
    requires (forall k :: 0 <= k < |f.params| ==> f.params[k] in g.vars) && |f.params| <= |c.args|
    requires f.returns'.Of? && InC(c, g, f, fuel, mem, trace).Returned?
    ensures WordAt(f.returns'.ty, InC(c, g, f, fuel, mem, trace).w)
  {
    hide ExecList, WordAt;
    SameEntry(c, g, f, mem, trace);
    ListReturns(Scene(c, Readings.With(g, Standard), ReturnType(f)), fuel, f.body, Entry(g, f, c, mem, trace));
  }

  /** In C a call goes wrong exactly when it evaluates what is undefined. */
  lemma WrongWhenStuck(c: Context, g: Env, f: Function, fuel: nat, mem: Mem, trace: seq<Event>)
    requires (forall k :: 0 <= k < |f.params| ==> f.params[k] in g.vars) && |f.params| <= |c.args|
    ensures InC(c, g, f, fuel, mem, trace).Wrong? <==>
      StuckList(Scene(c, Readings.With(g, Standard), ReturnType(f)), fuel, f.body, Entry(g, f, c, mem, trace))
  {
    hide ExecList, StuckList;
    SameEntry(c, g, f, mem, trace);
    ListFails(Scene(c, Readings.With(g, Standard), ReturnType(f)), fuel, f.body, Entry(g, f, c, mem, trace));
  }

  lemma MatchesShow(c: Context, blocks: seq<Block>, flow: Flow, fuel: nat, n: nat, p: Progress, s: State, steps: nat,
      m: Status, link: Word)
    requires (p.AtBlock? ==> p.block < |blocks|) && Matches(c, blocks, n, p, steps, m, link)
    requires !flow.Broke? && !flow.Continued?
    requires match flow
      case Returned(w, t) => p == Done(w, s) && s.mem == t.mem && s.trace == t.trace
      case Next(t) => p == Done(ZERO, s) && s.mem == t.mem && s.trace == t.trace
      case Exhausted => n >= fuel && p.AtBlock?
      case _ => true
    ensures Shows(c, flow, fuel, steps, m, link)
  {
    hide CpuRel, WellFormed, EmitFunction, Fits, EntryOk, Agree;
  }

  /** A source function that never returns compiles to code that never halts. */
  lemma DivergencePreserved(c: Context, g: Env, f: Function, st: St, mem: Mem, trace: seq<Event>, cpu: Cpu, link: Word,
      k: nat)
    requires Invoked(c, g, f, st, mem, trace, cpu, link)
    requires forall fuel: nat :: InC(c, g, f, fuel, mem, trace).Exhausted? && Faithful(c, g, f, fuel, mem, trace)
    ensures Compile(g, f, st).Some? && Run(c.world, Compile(g, f, st).value, k, Running(0, cpu)).Running?
  {
    hide Invoked, Compile, Run, InC, Faithful;
    InvokedOk(c, g, f, st, mem, trace, cpu, link);
    var steps, m := CompilerCorrect(c, g, f, st, k + 1, mem, trace, cpu, link);
    assert InC(c, g, f, k + 1, mem, trace).Exhausted?;
    if !Run(c.world, Compile(g, f, st).value, k, Running(0, cpu)).Running? {
      HaltedStays(c.world, Compile(g, f, st).value, k, steps, Running(0, cpu));
    }
  }
}
