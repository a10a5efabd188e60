/** Three small programs whose compiled code does not do what C says, run on the machine. */
module Faults {
  import opened Options
  import opened Words
  import opened Ir
  import opened Machine
  import opened CTypes
  import opened Integers
  import opened Source
  import opened Statements
  import opened Represent
  import opened LowerFunction
  import opened Readings
  import opened Compiler

  const PLAIN := Suffix(false, 0, true)
  const UNSIGNED := Suffix(true, 0, true)

  function Number(v: nat): Expr { Expr.Literal(v, PLAIN) }

  lemma LiteralValues(c: Context, g: Env, s: Config)
    ensures Eval(c, g, Number(1), s) == Some(Res(1, s)) && ExprType(g, Number(1)) == Some(Int)
    ensures Eval(c, g, Number(2), s) == Some(Res(2, s)) && ExprType(g, Number(2)) == Some(Int)
    ensures Eval(c, g, Expr.Literal(4294967295, UNSIGNED), s) == Some(Res(4294967295, s))
    ensures ExprType(g, Expr.Literal(4294967295, UNSIGNED)) == Some(UInt)
  {
    LiteralTypes();
    hide LiteralType;
  }

  lemma LiteralTypes()
    ensures LiteralType(1, PLAIN) == Int && LiteralType(2, PLAIN) == Int && LiteralType(4294967295, UNSIGNED) == UInt
  {
    assert Candidates(PLAIN)[0] == Int && Candidates(UNSIGNED)[0] == UInt;
  }

  lemma OneNotTwo()
    ensures WordOf(1) != WordOf(2) && WordOf(0) != WordOf(1)
  {
    hide BytesOf;
    WordEqual(1, 2);
    WordEqual(0, 1);
  }

  // ---- A case label is not converted -------------------------------------------------------

  /** switch (4294967295u) { case -1: return 1; } return 2; */
  function Labelled(): seq<Stmt> { [Case(Unary(Minus, Number(1))), ReturnWith(Some(Number(1)))] }

  function MissedLabel(): Function
  {
    Function([], Of(Int), [Switch(Expr.Literal(4294967295, UNSIGNED), [Scope(Labelled())]),
        ReturnWith(Some(Number(2)))])
  }

  lemma LabelSelected(e: Scene, s: Config)
    requires !e.g.reading.Guarded?
    ensures Select(e, UInt, 4294967295, Labelled(), s) ==
        Some(if e.g.reading.AsCompiled? then None else Some(Labelled()[1..]))
  {
    LiteralValues(e.c, e.g, s);
    hide LiteralType;
    assert Eval(e.c, e.g, Unary(Minus, Number(1)), s) == Some(Res(-1, s));
    assert Select(e, UInt, 4294967295, Labelled()[1..][1..], s) == Some(None);
    assert Select(e, UInt, 4294967295, Labelled()[1..], s) == Some(None);
  }

  lemma Returns(e: Scene, fuel: nat, x: Expr, v: int, rest: seq<Stmt>, s: Config, s': Config)
    requires e.ret == Some(Int) && Eval(e.c, e.g, x, s) == Some(Res(v, s')) && InRange(Int, v)
    ensures ExecList(e, fuel, [ReturnWith(Some(x))] + rest, s) == Returned(WordOf(v), s')
  {
    hide Eval, WordOf;
    assert ([ReturnWith(Some(x))] + rest)[0] == ReturnWith(Some(x));
  }

  lemma MissedFlow(c: Context, g: Env, fuel: nat, mem: Mem, trace: seq<Event>)
    requires !g.reading.Guarded?
    ensures Behaviour(c, g, MissedLabel(), fuel, mem, trace) ==
        Returned(WordOf(if g.reading.AsCompiled? then 2 else 1), Config(map[], mem, trace))
  {
    hide Eval, WordOf, Select, ExprType, LiteralType, Labelled;
    var e, s := Scene(c, g, Some(Int)), Config(map[], mem, trace);
    var body := MissedLabel().body;
    LiteralValues(c, g, s);
    LabelSelected(e, s);
    LabelledTail();
    Returns(e, fuel, Number(1), 1, [], s, s);
    Returns(e, fuel, Number(2), 2, [], s, s);
    assert ExecStmt(e, fuel, body[0], s) == if g.reading.AsCompiled? then Next(s) else Returned(WordOf(1), s);
    assert body[1..] == [ReturnWith(Some(Number(2)))] + [];
  }

  lemma LabelledTail()
    ensures Labelled()[1..] == [ReturnWith(Some(Number(1)))] + [] && AfterDefault(Labelled()).None?
  {
    assert AfterDefault(Labelled()[1..][1..]).None?;
    assert AfterDefault(Labelled()[1..]).None?;
  }

  /** C returns 1, the machine code 2. */
  lemma LabelMissed(c: Context, g: Env, st: St, mem: Mem, trace: seq<Event>, cpu: Cpu, link: Word)
      returns (steps: nat, m: Status)
    requires Invoked(c, g, MissedLabel(), st, mem, trace, cpu, link)
    ensures InC(c, g, MissedLabel(), 0, mem, trace) == Returned(WordOf(1), Config(map[], mem, trace))
    ensures Executes(c, g, MissedLabel(), st, cpu, steps, m)
    ensures m.Halted? && m.cpu.rax == WordOf(2) && WordOf(1) != WordOf(2)
  {
    hide Invoked, Executes, Behaviour, MissedLabel, Settled, WordOf;
    steps, m := MachineRuns(c, g, MissedLabel(), st, 0, mem, trace, cpu, link);
    MissedFlow(c, g, 0, mem, trace);
    MissedFlow(c, With(g, Standard), 0, mem, trace);
    OneNotTwo();
  }

  // ---- A sum is not converted before its truth is taken -----------------------------------------

  /** _Bool x = 1; x += 4294967295u; return x; */
  function LostSum(x: nat): Function
  {
    Function([], Of(Int), [Declare([Declarator(x, Some(Number(1)))]), Evaluate(SumOf(x)),
        ReturnWith(Some(Expr.Var(x)))])
  }

  function SumOf(x: nat): Expr { Compound(OpAdd, Expr.Var(x), Expr.Literal(4294967295, UNSIGNED)) }

  lemma SumValue(c: Context, g: Env, x: nat, s: Config)
    requires !g.reading.Guarded? && x in g.vars && g.vars[x] == Bool && x in s.vars && s.vars[x] == 1
    ensures var v := if g.reading.AsCompiled? then 1 else 0;
      Eval(c, g, SumOf(x), s) == Some(Res(v, s.(vars := s.vars[x := v])))
  {
    hide LiteralType, CompoundResult, Eval, ValueOfBytes, InRange;
    LiteralValues(c, g, s);
    SumResult(g.reading);
    BoolOne();
    assert EvalPlace(c, g, Expr.Var(x), s) == Some(PlaceRes(Local(x), s));
    SumIs(c, g, x, s);
  }

  lemma BoolOne()
    ensures InRange(Bool, 1)
  {
  }

  lemma SumIs(c: Context, g: Env, x: nat, s: Config)
    ensures Eval(c, g, SumOf(x), s) == EvalCompound(c, g, OpAdd, Expr.Var(x), Expr.Literal(4294967295, UNSIGNED), s)
  {
    hide EvalCompound;
  }

  lemma SumResult(r: Reading)
    requires !r.Guarded?
    ensures CompoundResult(r, OpAdd, Bool, UInt, 1, 4294967295) == Some(if r.AsCompiled? then 1 else 0)
  {
    hide BitFold, TruncDiv, TruncRem, Pow2, Usual;
    assert Usual(Int, UInt) == UInt by { CommonUnsigned(); }
  }

  lemma CommonUnsigned()
    ensures Usual(Int, UInt) == UInt
  {
  }

  lemma VariableValue(c: Context, g: Env, x: nat, s: Config)
    requires x in g.vars && g.vars[x] == Bool && x in s.vars && 0 <= s.vars[x] <= 1
    ensures Eval(c, g, Expr.Var(x), s) == Some(Res(s.vars[x], s))
  {
    assert Eval(c, g, Expr.Var(x), s) == EvalRead(c, g, Expr.Var(x), s);
    assert EvalPlace(c, g, Expr.Var(x), s) == Some(PlaceRes(Local(x), s));
  }

  lemma SumFlow(c: Context, g: Env, x: nat, fuel: nat, mem: Mem, trace: seq<Event>)
    requires !g.reading.Guarded? && x in g.vars && g.vars[x] == Bool
    ensures var v := if g.reading.AsCompiled? then 1 else 0;
      Behaviour(c, g, LostSum(x), fuel, mem, trace) == Returned(WordOf(v), Config(map[x := v], mem, trace))
  {
    hide Eval, WordOf, ExprType, LiteralType, SumOf;
    var e, s := Scene(c, g, Some(Int)), Config(map[], mem, trace);
    var v := if g.reading.AsCompiled? then 1 else 0;
    var s1, s2 := Config(map[x := 1], mem, trace), Config(map[x := v], mem, trace);
    var body := LostSum(x).body;
    LiteralValues(c, g, s);
    SumValue(c, g, x, s1);
    assert s1.vars[x := v] == s2.vars;
    VariableValue(c, g, x, s2);
    Returns(e, fuel, Expr.Var(x), v, [], s2, s2);
    Declares(e, x, s);
    SumPerformed(c, g, x, s1);
    assert body[1..][1..] == [ReturnWith(Some(Expr.Var(x)))] + [];
    assert body[1..][0] == Evaluate(SumOf(x));
    assert ExecStmt(e, fuel, body[1..][0], s1) == Next(s2);
    assert ExecList(e, fuel, body[1..], s1) == Returned(WordOf(v), s2);
    assert ExecStmt(e, fuel, body[0], s) == Next(s1);
  }

  lemma Declares(e: Scene, x: nat, s: Config)
    requires x in e.g.vars && e.g.vars[x] == Bool
    ensures ExecDeclare(e, [Declarator(x, Some(Number(1)))], s) == Some(s.(vars := s.vars[x := 1]))
  {
    LiteralValues(e.c, e.g, s);
    hide Eval;
    var ds := [Declarator(x, Some(Number(1)))];
    assert ds[1..] == [];
    assert ExecDeclarator(e, ds[0], s) == Some(s.(vars := s.vars[x := 1]));
  }

  lemma SumPerformed(c: Context, g: Env, x: nat, s: Config)
    requires Eval(c, g, SumOf(x), s).Some?
    ensures Perform(c, g, SumOf(x), s) == Some(Eval(c, g, SumOf(x), s).value.s)
  {
    hide Eval;
  }

  /** C returns 0, the machine code 1. */
  lemma SumKeptTrue(c: Context, g: Env, st: St, x: nat, mem: Mem, trace: seq<Event>, cpu: Cpu, link: Word)
      returns (steps: nat, m: Status)
    requires Invoked(c, g, LostSum(x), st, mem, trace, cpu, link) && x in g.vars && g.vars[x] == Bool
    ensures InC(c, g, LostSum(x), 0, mem, trace) == Returned(WordOf(0), Config(map[x := 0], mem, trace))
    ensures Executes(c, g, LostSum(x), st, cpu, steps, m)
    ensures m.Halted? && m.cpu.rax == WordOf(1) && WordOf(0) != WordOf(1)
  {
    hide Invoked, Executes, Behaviour, LostSum, Settled, WordOf;
    steps, m := MachineRuns(c, g, LostSum(x), st, 0, mem, trace, cpu, link);
    SumFlow(c, g, x, 0, mem, trace);
    SumFlow(c, With(g, Standard), x, 0, mem, trace);
    OneNotTwo();
  }

  // ---- A step is stored unconverted ------------------------------------------------------------------

  /** return (*p)++; with p a pointer to _Bool. */
  function StoredStep(p: nat, up: bool): Function
  {
    Function([p], Of(Int), [ReturnWith(Some(Postfix(up, Deref(Expr.Var(p)))))])
  }

  lemma StepValue(c: Context, g: Env, p: nat, up: bool, a: nat, s: Config)
    requires !g.reading.Guarded? && p in g.vars && g.vars[p] == Ptr(Bool) && p in s.vars && s.vars[p] == a &&
        InRange(Ptr(Bool), a)
    requires c.frame.Visible(a, 1) && At(s.mem, a) == if up then 1 else 0
    ensures var byte: Byte := if g.reading.Standard? then 1 else if up then 2 else 255;
      Eval(c, g, Postfix(up, Deref(Expr.Var(p))), s) == Some(Res(At(s.mem, a), s.(mem := Write(s.mem, a, [byte]))))
  {
    hide Write, Frame.Visible, Read;
    var target := Deref(Expr.Var(p));
    PointerValue(c, g, p, a, s);
    assert EvalPlace(c, g, target, s) == Some(PlaceRes(Memory(a), s));
    assert ExprType(g, Expr.Var(p)) == Some(Ptr(Bool)) && ExprType(g, target) == Some(Bool);
    assert Read(s.mem, a, 1) == [At(s.mem, a)];
    OneUnsigned(At(s.mem, a));
    assert Fetch(c, Bool, Memory(a), s) == Some(At(s.mem, a) as int);
    StepBytes();
    assert Eval(c, g, Postfix(up, target), s) == EvalPostfix(c, g, up, target, s);
  }

  lemma OneUnsigned(b: Byte)
    ensures Unsigned([b]) == b
  {
    assert [b][1..] == [];
  }

  lemma PointerValue(c: Context, g: Env, p: nat, a: nat, s: Config)
    requires p in g.vars && g.vars[p] == Ptr(Bool) && p in s.vars && s.vars[p] == a && InRange(Ptr(Bool), a)
    ensures Eval(c, g, Expr.Var(p), s) == Some(Res(a, s))
  {
    assert Eval(c, g, Expr.Var(p), s) == EvalRead(c, g, Expr.Var(p), s);
    assert EvalPlace(c, g, Expr.Var(p), s) == Some(PlaceRes(Local(p), s));
  }

  lemma StepBytes()
    ensures BytesOf(2, 1) == [2] && BytesOf(-1, 1) == [255] && BytesOf(1, 1) == [1]
  {
  }

  lemma StepFlow(c: Context, g: Env, p: nat, up: bool, fuel: nat, mem: Mem, trace: seq<Event>)
    requires !g.reading.Guarded? && p in g.vars && g.vars[p] == Ptr(Bool) && |c.args| >= 1
    requires c.frame.Visible(Unsigned(c.args[0]), 1) && At(mem, Unsigned(c.args[0])) == if up then 1 else 0
    ensures var a := Unsigned(c.args[0]);
      var byte: Byte := if g.reading.Standard? then 1 else if up then 2 else 255;
      Behaviour(c, g, StoredStep(p, up), fuel, mem, trace) ==
          Returned(WordOf(At(mem, a)), Config(map[p := a], Write(mem, a, [byte]), trace))
  {
    hide Eval, WordOf, Write, Frame.Visible, Unsigned;
    var e, a := Scene(c, g, Some(Int)), Unsigned(c.args[0]);
    var s := Config(map[p := a], mem, trace);
    PointerBound(c.args[0]);
    BindsPointer(g, p, c.args);
    StepValue(c, g, p, up, a, s);
    var x := Postfix(up, Deref(Expr.Var(p)));
    Returns(e, fuel, x, At(mem, a), [], s, Eval(c, g, x, s).value.s);
    assert StoredStep(p, up).body == [ReturnWith(Some(x))] + [];
  }

  lemma PointerBound(w: Word)
    ensures InRange(Ptr(Bool), Unsigned(w)) && AtType(Ptr(Bool), Unsigned(w)) == Unsigned(w)
  {
    UnsignedBound(w);
    ModulusIsPower(Ptr(Bool));
  }

  lemma BindsPointer(g: Env, p: nat, args: seq<Word>)
    requires p in g.vars && |args| >= 1
    ensures Bind(g, [p], 0, args, map[]) == map[p := AtType(g.vars[p], Unsigned(args[0]))]
  {
    hide AtType, Unsigned;
    assert [p][1..] == [];
    assert Bind(g, [], 1, args, map[p := AtType(g.vars[p], Unsigned(args[0]))]) ==
        map[p := AtType(g.vars[p], Unsigned(args[0]))];
  }

  /** C stores 1; the machine code stores 2 after a step up, 255 after one down. */
  lemma StepStoredWhole(c: Context, g: Env, st: St, p: nat, up: bool, mem: Mem, trace: seq<Event>, cpu: Cpu,
      link: Word) returns (steps: nat, m: Status)
    requires Invoked(c, g, StoredStep(p, up), st, mem, trace, cpu, link) && p in g.vars && g.vars[p] == Ptr(Bool) &&
        |c.args| >= 1
    requires c.frame.Visible(Unsigned(c.args[0]), 1) && At(mem, Unsigned(c.args[0])) == if up then 1 else 0
    ensures InC(c, g, StoredStep(p, up), 0, mem, trace).Returned? &&
        At(InC(c, g, StoredStep(p, up), 0, mem, trace).s.mem, Unsigned(c.args[0])) == 1
    ensures Executes(c, g, StoredStep(p, up), st, cpu, steps, m)
    ensures m.Halted? && At(m.cpu.mem, Unsigned(c.args[0])) == if up then 2 else 255
  {
    hide Invoked, Executes, Behaviour, StoredStep, WordOf, Unsigned;
    InvokedOk(c, g, StoredStep(p, up), st, mem, trace, cpu, link);
    steps, m := MachineRuns(c, g, StoredStep(p, up), st, 0, mem, trace, cpu, link);
    StepFlow(c, g, p, up, 0, mem, trace);
    StepFlow(c, With(g, Standard), p, up, 0, mem, trace);
    var a := Unsigned(c.args[0]);
    assert !c.frame.Hidden(a);
  }
}
