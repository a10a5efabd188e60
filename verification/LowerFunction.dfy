/** Whole functions: lowering, its shape, and the simulation from entry to return. */
module LowerFunction {
  import opened Options
  import opened Words
  import opened Ir
  import opened Allocation
  import opened Labels
  import opened CTypes
  import opened Integers
  import opened Source
  import opened Statements
  import opened Lowering
  import opened LowerStatements
  import opened Represent
  import opened ExprCorrect
  import opened StatementCorrect
  import opened Shape
  import opened StatementShape
  import opened Wiring

  /** What a function returns: nothing, a value of a known type, or of an unknown one. */
  datatype Returns = Nothing | Unknown | Of(ty: CType)

  datatype Function = Function(params: seq<nat>, returns': Returns, body: seq<Stmt>)

  function ReturnType(f: Function): Option<CType> { if f.returns'.Of? then Some(f.returns'.ty) else None }

  function DefaultTerm(f: Function): Term { if f.returns'.Nothing? then Ret(None) else Ret(Some(Imm(0))) }

  function LowerParams(params: seq<nat>, index: nat): seq<Instr>
  {
    if params == [] then [] else [Param(params[0], index)] + LowerParams(params[1..], index + 1)
  }

  function LowerWhole(g: Env, f: Function, st: St): Option<Blocks>
  {
    LowerList(g, ReturnType(f), Jumps(None, None), st.block, LowerParams(f.params, 0), f.body, DefaultTerm(f),
        st.(block := st.block + 1))
  }

  /** Parameters and variables are numbered below the fresh temporaries. */
  predicate Resolved(g: Env, f: Function, st: St)
  {
    && VarsBelow(g, st.temp)
    && (forall k :: 0 <= k < |f.params| ==> f.params[k] in g.vars)
  }

  // ---- Meaning -----------------------------------------------------------------------------

  /** A parameter's value is its argument word read at its type. */
  function Bind(g: Env, params: seq<nat>, index: nat, args: seq<Word>, vars: map<nat, int>): map<nat, int>
    requires forall k :: 0 <= k < |params| ==> params[k] in g.vars
    requires index + |params| <= |args|
  {
    if params == [] then vars
    else Bind(g, params[1..], index + 1, args, vars[params[0] := AtType(g.vars[params[0]], Unsigned(args[index]))])
  }

  function Entry(g: Env, f: Function, c: Context, mem: Mem, trace: seq<Event>): Config
    requires (forall k :: 0 <= k < |f.params| ==> f.params[k] in g.vars) && |f.params| <= |c.args|
  {
    Config(Bind(g, f.params, 0, c.args, map[]), mem, trace)
  }

  /** What a call of the function does, within the fuel. */
  ghost function Behaviour(c: Context, g: Env, f: Function, fuel: nat, mem: Mem, trace: seq<Event>): Flow
    requires (forall k :: 0 <= k < |f.params| ==> f.params[k] in g.vars) && |f.params| <= |c.args|
  {
    ExecList(Scene(c, g, ReturnType(f)), fuel, f.body, Entry(g, f, c, mem, trace))
  }

  /** The arguments converted to the parameters' types, as C has them if there is a prototype. */
  function AtParameters(g: Env, params: seq<nat>, vs: seq<int>): seq<int>
    requires |vs| == |params| && forall k :: 0 <= k < |params| ==> params[k] in g.vars
  {
    seq(|vs|, k requires 0 <= k < |vs| => Convert(g.vars[params[k]], vs[k]))
  }

  /** The compiled caller passes arguments as they are. The callee converts a parameter when
      it reads it, so it starts as it would had its caller converted them. */
  lemma ArgumentsConverted(c: Context, d: Context, g: Env, f: Function, vs: seq<int>, mem: Mem, trace: seq<Event>)
    requires |vs| == |f.params| && (forall k :: 0 <= k < |vs| ==> f.params[k] in g.vars && -M64 < vs[k] < M64)
    requires c.args == WordsOf(vs) && d.args == WordsOf(AtParameters(g, f.params, vs))
    ensures Entry(g, f, c, mem, trace) == Entry(g, f, d, mem, trace)
  {
    hide WordOf, Convert;
    WordsAt(vs);
    WordsAt(AtParameters(g, f.params, vs));
    BindsConverted(g, f.params, 0, vs, c.args, d.args, map[]);
  }

  lemma {:induction false} WordsAt(vs: seq<int>)
    ensures |WordsOf(vs)| == |vs| && forall k :: 0 <= k < |vs| ==> WordsOf(vs)[k] == WordOf(vs[k])
  {
    hide WordOf;
    if vs != [] { WordsAt(vs[1..]); }
  }

  lemma {:induction false} BindsConverted(g: Env, params: seq<nat>, index: nat, vs: seq<int>, a: seq<Word>,
      b: seq<Word>, vars: map<nat, int>)
    requires (forall k :: 0 <= k < |params| ==> params[k] in g.vars) && |a| == |b| == |vs| == index + |params|
    requires forall j :: index <= j < |vs| ==>
      -M64 < vs[j] < M64 && a[j] == WordOf(vs[j]) && b[j] == WordOf(Convert(g.vars[params[j - index]], vs[j]))
    ensures Bind(g, params, index, a, vars) == Bind(g, params, index, b, vars)
    decreases |params|
  {
    hide AtType, WordOf, Convert, Unsigned;
    if params != [] {
      var ty := g.vars[params[0]];
      ReadConverted(ty, vs[index]);
      forall j | index + 1 <= j < |vs|
        ensures -M64 < vs[j] < M64 && a[j] == WordOf(vs[j])
        ensures b[j] == WordOf(Convert(g.vars[params[1..][j - (index + 1)]], vs[j]))
      {
        assert params[1..][j - (index + 1)] == params[j - index];
      }
      BindsConverted(g, params[1..], index + 1, vs, a, b, vars[params[0] := AtType(ty, Unsigned(a[index]))]);
    }
  }

  /** A word read at a type, and the word of the converted value. */
  lemma ReadConverted(ty: CType, v: int)
    requires -M64 < v < M64
    ensures AtType(ty, Unsigned(WordOf(v))) == AtType(ty, Unsigned(WordOf(Convert(ty, v))))
  {
    hide BytesOf, Unsigned, AtType, Convert;
    BytesOfUnsigned(WordOf(v));
    BytesOfUnsigned(WordOf(Convert(ty, v)));
    AtTypeOfWord(ty, Unsigned(WordOf(v)), v);
    AtTypeOfWord(ty, Unsigned(WordOf(Convert(ty, v))), Convert(ty, v));
    AtTypeOfSmall(ty, v);
    AtTypeOfSmall(ty, Convert(ty, v));
  }

  lemma AtTypeOfSmall(ty: CType, v: int)
    requires -M64 < v < M64
    ensures AtType(ty, v) == Convert(ty, v) == Convert(ty, Convert(ty, v)) && -M64 < Convert(ty, v) < M64
  {
  }

  // ---- Parameters --------------------------------------------------------------------------------

  lemma {:induction false} ParamsRun(c: Context, g: Env, params: seq<nat>, index: nat, s: Config, m: State)
      returns (m': State)
    requires (forall k :: 0 <= k < |params| ==> params[k] in g.vars && c.frame.Private(params[k])) &&
        index + |params| <= |c.args|
    requires Rel(c, g, s, m)
    ensures Runs(c, LowerParams(params, index), m, m') &&
        Rel(c, g, s.(vars := Bind(g, params, index, c.args, s.vars)), m')
    decreases |params|
  {
    hide Runs, AtType;
    if params == [] {
      m' := m;
      RunsNone(c, m);
    } else {
      var t := params[0];
      var m1 := Set(m, t, c.args[index]);
      var s1 := s.(vars := s.vars[t := AtType(g.vars[t], Unsigned(c.args[index]))]);
      RunsOne(c, Param(t, index), m, m1);
      m' := ParamsRun(c, g, params[1..], index + 1, s1, m1);
      RunsBoth(c, [Param(t, index)], LowerParams(params[1..], index + 1), m, m1, m');
    }
  }

  lemma {:induction false} ParamsCounted(g: Env, base: nat, params: seq<nat>, index: nat)
    requires forall k :: 0 <= k < |params| ==> params[k] in g.vars
    ensures Counted(g, base, base, {}, LowerParams(params, index))
    decreases |params|
  {
    if params != [] {
      var i := Param(params[0], index);
      ParamsCounted(g, base, params[1..], index + 1);
      forall t: nat ensures DefinesFrom([i], 0, t) == (t == params[0]) && UsesFrom([i], 0, t) == 0 &&
          CondsFrom([i], 0, t) == 0 {
        assert !DefinesFrom([i], 1, t) && UsesFrom([i], 1, t) == 0 && CondsFrom([i], 1, t) == 0;
      }
      CountedJoin(g, base, base, base, {}, {}, [i], LowerParams(params[1..], index + 1));
    }
  }

  // ---- Shape of the whole ---------------------------------------------------------------------------

  /** What lowering guarantees about a function's blocks. */
  lemma WholeFormed(g: Env, f: Function, st: St)
    requires Resolved(g, f, st) && LowerWhole(g, f, st).Some?
    ensures var low := LowerWhole(g, f, st).value;
      && Lowered(g, st.temp, {}, st.temp, low.st.temp, LowerParams(f.params, 0), low.blocks)
      && ListWired(low, st.block, st.block + 1, {})
      && (forall x: nat :: x <= st.block ==> Avoids(low.blocks, x))
      && low.blocks != [] && low.blocks[0].id == st.block
  {
    hide LowerList, Lowered, ListWired, Avoids, Counted;
    var pre := LowerParams(f.params, 0);
    var st' := st.(block := st.block + 1);
    var low := LowerWhole(g, f, st).value;
    ParamsCounted(g, st.temp, f.params, 0);
    assert pre[|pre|..] == [];
    ListFormed(g, st.temp, {}, pre, ReturnType(f), Jumps(None, None), st.block, pre, f.body, DefaultTerm(f), st');
    ListWires(g, ReturnType(f), Jumps(None, None), st.block, pre, f.body, DefaultTerm(f), st');
    assert Outs(Jumps(None, None), DefaultTerm(f)) == {};
    forall x: nat | x <= st.block ensures Avoids(low.blocks, x) {
      ListAvoids(g, ReturnType(f), Jumps(None, None), st.block, pre, f.body, DefaultTerm(f), st', x);
    }
  }

  lemma AllPlaced(blocks: seq<Block>)
    requires Distinct(blocks)
    ensures Placed(blocks, blocks)
  {
    forall b | b in blocks ensures FindBlock(blocks, b.id).Some? && blocks[FindBlock(blocks, b.id).value] == b {
      var k :| 0 <= k < |blocks| && blocks[k] == b;
      FindDistinct(blocks, k);
    }
  }

  // ---- The frame of lowered code ---------------------------------------------------------------------

  /** Code without storage of its own gets one stack slot for each temporary. */
  predicate NoStorage(i: Instr)
    decreases i, 0
  {
    match i
    case Alloca(_, _) => false
    case AddrOf(_, _) => false
    case Cond(_, ci, _, ti, _, fi, _) => NoStorageFrom(ci, 0) && NoStorageFrom(ti, 0) && NoStorageFrom(fi, 0)
    case _ => true
  }

  predicate NoStorageFrom(list: seq<Instr>, k: nat)
    requires k <= |list|
    decreases list, |list| - k
  {
    k == |list| || (NoStorage(list[k]) && NoStorageFrom(list, k + 1))
  }

  ghost predicate AllStack(a: Alloc) { forall t :: t in a.locs ==> a.locs[t].Stack? }

  lemma {:induction false} StackInstr(i: Instr, a: Alloc)
    requires NoStorage(i) && AllStack(a)
    ensures AllStack(AllocInstr(i, a)) && Exposed(i) == {}
    decreases i, 0
  {
    match i
    case Cond(_, ci, _, ti, _, fi, _) =>
      StackFrom(ci, 0, a);
      StackFrom(ti, 0, AllocFrom(ci, 0, a));
      StackFrom(fi, 0, AllocFrom(ti, 0, AllocFrom(ci, 0, a)));
    case _ =>
  }

  lemma {:induction false} StackFrom(list: seq<Instr>, k: nat, a: Alloc)
    requires k <= |list| && NoStorageFrom(list, k) && AllStack(a)
    ensures AllStack(AllocFrom(list, k, a)) && ExposedFrom(list, k) == {}
    decreases list, |list| - k
  {
    if k < |list| {
      StackInstr(list[k], a);
      StackFrom(list, k + 1, AllocInstr(list[k], a));
    }
  }

  lemma {:induction false} StackBlocks(blocks: seq<Block>, k: nat, a: Alloc)
    requires k <= |blocks| && (forall i :: k <= i < |blocks| ==> NoStorageFrom(blocks[i].instrs, 0)) && AllStack(a)
    ensures AllStack(AllocBlocks(blocks, k, a)) && ExposedBlocks(blocks, k) == {}
    decreases |blocks| - k
  {
    if k < |blocks| {
      StackFrom(blocks[k].instrs, 0, a);
      StackBlocks(blocks, k + 1, AllocFrom(blocks[k].instrs, 0, a));
    }
  }

  lemma {:induction false} OrdinaryStores(i: Instr)
    requires Ordinary(i)
    ensures NoStorage(i)
    decreases i, 0
  {
    match i
    case Cond(_, ci, _, ti, _, fi, _) =>
      OrdinaryStoresFrom(ci, 0);
      OrdinaryStoresFrom(ti, 0);
      OrdinaryStoresFrom(fi, 0);
    case _ =>
  }

  lemma {:induction false} OrdinaryStoresFrom(list: seq<Instr>, k: nat)
    requires k <= |list| && forall x :: x in list[k..] ==> Ordinary(x) || x.Param?
    ensures NoStorageFrom(list, k)
    decreases list, |list| - k
  {
    if k < |list| {
      assert list[k] == list[k..][0] && list[k + 1..] == list[k..][1..];
      if !list[k].Param? { OrdinaryStores(list[k]); }
      OrdinaryStoresFrom(list, k + 1);
    }
  }

  lemma {:induction false} ParamsOnly(params: seq<nat>, index: nat)
    ensures forall x :: x in LowerParams(params, index) ==> x.Param?
    decreases |params|
  {
    if params != [] { ParamsOnly(params[1..], index + 1); }
  }

  /** Every fresh temporary and every variable the blocks define has a private slot. */
  lemma WholePrivate(g: Env, f: Function, st: St, base: int, t: nat)
    requires Resolved(g, f, st) && LowerWhole(g, f, st).Some?
    requires DefinesBlocks(LowerWhole(g, f, st).value.blocks, 0, t)
    ensures FunctionFrame(LowerWhole(g, f, st).value.blocks, base).Private(t)
  {
    hide LowerWhole, ListWired, Avoids, BlocksCounted;
    var blocks := LowerWhole(g, f, st).value.blocks;
    WholeFormed(g, f, st);
    forall i | 0 <= i < |blocks| ensures NoStorageFrom(blocks[i].instrs, 0) { BlockStores(f, blocks, i); }
    StackBlocks(blocks, 0, EMPTY);
    AllocFunctionDomain(blocks, t);
  }

  lemma BlockStores(f: Function, blocks: seq<Block>, i: nat)
    requires i < |blocks| && Ordered(LowerParams(f.params, 0), blocks)
    ensures NoStorageFrom(blocks[i].instrs, 0)
  {
    var pre := if i == 0 then LowerParams(f.params, 0) else [];
    ParamsOnly(f.params, 0);
    var list := blocks[i].instrs;
    assert After(pre, list);
    assert list == pre + list[|pre|..];
    assert list[0..] == list;
    OrdinaryStoresFrom(list, 0);
  }

  // ---- The simulation ------------------------------------------------------------------------------------

  /** The variables are those the lowered code declares. */
  ghost predicate Declared(g: Env, blocks: seq<Block>) { forall x :: x in g.vars ==> DefinesBlocks(blocks, 0, x) }

  lemma WholeRoom(c: Context, g: Env, f: Function, st: St)
    requires g.reading.AsCompiled? && Resolved(g, f, st) && LowerWhole(g, f, st).Some?
    requires var blocks := LowerWhole(g, f, st).value.blocks;
        Declared(g, blocks) && c.frame == FunctionFrame(blocks, c.frame.base)
    ensures Room(c, g, st.temp, LowerWhole(g, f, st).value.st.temp)
  {
    hide LowerWhole, ListWired, Avoids, Ordered;
    var low := LowerWhole(g, f, st).value;
    WholeFormed(g, f, st);
    forall t: nat | st.temp <= t < low.st.temp ensures c.frame.Private(t) {
      assert t in {} + Range(st.temp, low.st.temp);
      WholePrivate(g, f, st, c.frame.base, t);
    }
    forall x | x in g.vars ensures c.frame.Private(x) { WholePrivate(g, f, st, c.frame.base, x); }
  }

  /** What lowered code has reached when the source call has the given flow. */
  ghost predicate Answers(c: Context, blocks: seq<Block>, flow: Flow, fuel: nat, n: nat, p: Progress, m: State)
    requires p.AtBlock? ==> p.block < |blocks|
  {
    match flow
    case Returned(w, s) => RunBlocks(c, blocks, n, p) == Done(w, m) && m.mem == s.mem && m.trace == s.trace
    case Next(s) => RunBlocks(c, blocks, n, p) == Done(ZERO, m) && m.mem == s.mem && m.trace == s.trace
    case Exhausted => n >= fuel && RunBlocks(c, blocks, n, p).AtBlock?
    case _ => true
  }

  lemma EntryRel(c: Context, g: Env, mem: Mem, trace: seq<Event>)
    ensures Rel(c, g, Config(map[], mem, trace), State(map[], mem, trace))
  {
  }

  lemma EntryBlock(blocks: seq<Block>)
    ensures blocks != [] ==> FindBlock(blocks, blocks[0].id) == Some(0)
  {
  }

  lemma DefaultLands(c: Context, blocks: seq<Block>, f: Function, m: State)
    ensures Land(c, blocks, DefaultTerm(f), m) == Done(ZERO, m)
  {
    ZeroWord(0);
  }

  /** The main theorem of lowering, for whole functions: a call that returns, returns the
      same word from the lowered code, with the same memory and calls; a call that uses
      up its fuel keeps the lowered code running at least as many blocks. */
  lemma WholeRuns(c: Context, g: Env, f: Function, st: St, fuel: nat, mem: Mem, trace: seq<Event>)
      returns (n: nat, m': State)
    requires g.reading.AsCompiled? && Resolved(g, f, st) && LowerWhole(g, f, st).Some? && |f.params| <= |c.args|
    requires var blocks := LowerWhole(g, f, st).value.blocks;
        Declared(g, blocks) && c.frame == FunctionFrame(blocks, c.frame.base)
    ensures LowerWhole(g, f, st).value.blocks != []
    ensures Answers(c, LowerWhole(g, f, st).value.blocks, Behaviour(c, g, f, fuel, mem, trace), fuel, n,
        AtBlock(0, State(map[], mem, trace)), m')
  {
    hide LowerList, Lowered, Avoids, Declared, FunctionFrame, ExecList, Rel, Runs, Room, Land, Placed;
    var low := LowerWhole(g, f, st).value;
    var e := Scene(c, g, ReturnType(f));
    var m0 := State(map[], mem, trace);
    var pre := LowerParams(f.params, 0);
    WholeFormed(g, f, st);
    WholeRoom(c, g, f, st);
    AllPlaced(low.blocks);
    EntryRel(c, g, mem, trace);
    ParamsPrivate(c, g, f, st, low.st.temp);
    var m := ParamsRun(c, g, f.params, 0, Config(map[], mem, trace), m0);
    n, m' := ListRuns(e, fuel, Jumps(None, None), st.block, pre, f.body, DefaultTerm(f), st.(block := st.block + 1),
        low.blocks, Entry(g, f, c, mem, trace), m0, m);
    EntryBlock(low.blocks);
    DefaultLands(c, low.blocks, f, m');
    EndsAnswer(e, low.blocks, Jumps(None, None), DefaultTerm(f), AtBlock(0, m0), Behaviour(c, g, f, fuel, mem, trace),
        fuel, n, m');
  }

  lemma ParamsPrivate(c: Context, g: Env, f: Function, st: St, hi: nat)
    requires Resolved(g, f, st) && Room(c, g, st.temp, hi)
    ensures forall k :: 0 <= k < |f.params| ==> f.params[k] in g.vars && c.frame.Private(f.params[k])
  {
  }

  lemma EndsAnswer(e: Scene, blocks: seq<Block>, j: Jumps, term: Term, p: Progress, flow: Flow, fuel: nat, n: nat,
      m: State)
    requires (p.AtBlock? ==> p.block < |blocks|) && Ends(e, blocks, j, term, p, flow, fuel, n, m) &&
        Land(e.c, blocks, term, m) == Done(ZERO, m)
    ensures Answers(e.c, blocks, flow, fuel, n, p, m)
  {
  }
}
