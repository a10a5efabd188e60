/** The readings of statements: a run that takes no guard, and every run of a portable
    program, does the same under each. */
module ReadingFlows {
  import opened Options
  import opened Ir
  import opened CTypes
  import opened Source
  import opened Statements
  import opened Readings
  import opened Portability
  import SwitchClauses
  import LoweringCorrect
  import opened Integers

  function In(e: Scene, r: Reading): Scene { e.(g := With(e.g, r)) }

  // ---- Portable statements ----------------------------------------------------------------

  predicate PortableMaybe(g: Env, x: Option<Expr>) { x.Some? ==> Portable(g, x.value) }

  predicate PortableDeclare(g: Env, ds: seq<Declarator>)
  {
    ds == [] || (PortableMaybe(g, ds[0].init) && PortableDeclare(g, ds[1..]))
  }

  predicate PortableInit(g: Env, init: ForInit)
  {
    match init
    case NoInit => true
    case InitExpr(x) => Portable(g, x)
    case InitDecls(ds) => PortableDeclare(g, ds)
  }

  ghost predicate PortableList(c: Context, g: Env, stmts: seq<Stmt>)
    decreases stmts, 0
  {
    stmts == [] || (PortableStmt(c, g, stmts[0]) && PortableList(c, g, stmts[1..]))
  }

  ghost predicate PortableStmt(c: Context, g: Env, stmt: Stmt)
    decreases stmt, 1
  {
    match stmt
    case Declare(ds) => PortableDeclare(g, ds)
    case ReturnWith(x) => PortableMaybe(g, x)
    case Evaluate(x) => Portable(g, x)
    case If(cond, yes, no) => Portable(g, cond) && PortableList(c, g, yes) && PortableList(c, g, no)
    case While(cond, body) => Portable(g, cond) && PortableList(c, g, body)
    case DoWhile(body, cond) => Portable(g, cond) && PortableList(c, g, body)
    case For(init, test, step, body) => PortableInit(g, init) && PortableMaybe(g, test) && PortableMaybe(g, step) &&
        PortableList(c, g, body)
    case Switch(value, body) => Portable(g, value) && PortableList(c, g, body) &&
        LabelsFit(c, g, ExprType(g, value), SwitchBody(body))
    case Case(x) => Portable(g, x)
    case Scope(body) => PortableList(c, g, body)
    case _ => true
  }

  /** Every case label, a constant, fits the promoted type of the controlling expression. */
  ghost predicate LabelsFit(c: Context, g: Env, ty: Option<CType>, stmts: seq<Stmt>)
  {
    forall k, s ::
      0 <= k < |stmts| && stmts[k].Case? && ty.Some? && Eval(c, With(g, Standard), stmts[k].constant, s).Some? ==>
      LabelFits(Promote(ty.value), Eval(c, With(g, Standard), stmts[k].constant, s).value.v)
  }

  // ---- Expressions --------------------------------------------------------------------------

  lemma EvalSame(c: Context, g: Env, r: Reading, x: Expr, s: Config)
    requires (r.Standard? && Portable(g, x)) || Eval(c, With(g, Guarded), x, s).Some?
    ensures Eval(c, With(g, r), x, s) == Eval(c, With(g, Guarded), x, s)
  {
    hide Eval, Portable;
    if r.Standard? && Portable(g, x) { EvalPortable(c, g, x, s); } else { EvalGuarded(c, g, r, x, s); }
  }

  lemma PerformSame(c: Context, g: Env, r: Reading, x: Expr, s: Config)
    requires (r.Standard? && Portable(g, x)) || Perform(c, With(g, Guarded), x, s).Some?
    ensures Perform(c, With(g, r), x, s) == Perform(c, With(g, Guarded), x, s)
  {
    hide Perform, Portable;
    if r.Standard? && Portable(g, x) { PerformPortable(c, g, x, s); } else { PerformGuarded(c, g, r, x, s); }
  }

  lemma {:induction false} DeclareSame(e: Scene, r: Reading, ds: seq<Declarator>, s: Config)
    requires (r.Standard? && PortableDeclare(e.g, ds)) || ExecDeclare(In(e, Guarded), ds, s).Some?
    ensures ExecDeclare(In(e, r), ds, s) == ExecDeclare(In(e, Guarded), ds, s)
    decreases |ds|
  {
    hide Eval, Portable, Convert;
    if ds != [] && ds[0].x in e.g.vars {
      if ds[0].init.Some? { EvalSame(e.c, e.g, r, ds[0].init.value, s); }
      var first := ExecDeclarator(In(e, Guarded), ds[0], s);
      if first.Some? { DeclareSame(e, r, ds[1..], first.value); }
    }
  }

  lemma InitSame(e: Scene, r: Reading, init: ForInit, s: Config)
    requires (r.Standard? && PortableInit(e.g, init)) || ExecInit(In(e, Guarded), init, s).Some?
    ensures ExecInit(In(e, r), init, s) == ExecInit(In(e, Guarded), init, s)
  {
    hide Perform, ExecDeclare, Portable, PortableDeclare;
    match init
    case NoInit =>
    case InitExpr(x) => PerformSame(e.c, e.g, r, x, s);
    case InitDecls(ds) => DeclareSame(e, r, ds, s);
  }

  lemma TestSame(e: Scene, r: Reading, test: Option<Expr>, s: Config)
    requires (r.Standard? && PortableMaybe(e.g, test)) || ExecTest(In(e, Guarded), test, s).Some?
    ensures ExecTest(In(e, r), test, s) == ExecTest(In(e, Guarded), test, s)
  {
    hide Eval, Portable;
    if test.Some? { EvalSame(e.c, e.g, r, test.value, s); }
  }

  lemma StepSame(e: Scene, r: Reading, step: Option<Expr>, s: Config)
    requires (r.Standard? && PortableMaybe(e.g, step)) || ExecStep(In(e, Guarded), step, s).Some?
    ensures ExecStep(In(e, r), step, s) == ExecStep(In(e, Guarded), step, s)
  {
    hide Perform, Portable;
    if step.Some? { PerformSame(e.c, e.g, r, step.value, s); }
  }

  // ---- Labels ---------------------------------------------------------------------------------

  ghost predicate Fitting(e: Scene, r: Reading, ty: CType, stmts: seq<Stmt>)
  {
    r.Standard? && PortableList(e.c, e.g, stmts) &&
    forall k, s :: 0 <= k < |stmts| && stmts[k].Case? && Eval(e.c, With(e.g, Standard), stmts[k].constant, s).Some? ==>
      LabelFits(ty, Eval(e.c, With(e.g, Standard), stmts[k].constant, s).value.v)
  }

  lemma {:induction false} SelectSame(e: Scene, r: Reading, ty: CType, v: int, stmts: seq<Stmt>, s: Config)
    requires Fitting(e, r, ty, stmts) || Select(In(e, Guarded), ty, v, stmts, s).Some?
    requires Promoted(ty) && InRange(ty, v)
    ensures Select(In(e, r), ty, v, stmts, s) == Select(In(e, Guarded), ty, v, stmts, s)
    decreases |stmts|
  {
    hide Eval, Portable, LabelFits, Selects, InRange;
    if stmts != [] {
      if Fitting(e, r, ty, stmts) { FittingTail(e, r, ty, stmts); }
      if stmts[0].Case? {
        EvalSame(e.c, e.g, r, stmts[0].constant, s);
        var x := Eval(e.c, With(e.g, Guarded), stmts[0].constant, s);
        if x.Some? && LabelFits(ty, x.value.v) { LabelSame(r, ty, x.value.v, v); }
      }
      if Fitting(e, r, ty, stmts[1..]) || Select(In(e, Guarded), ty, v, stmts[1..], s).Some? {
        SelectSame(e, r, ty, v, stmts[1..], s);
      }
    }
  }

  lemma FittingTail(e: Scene, r: Reading, ty: CType, stmts: seq<Stmt>)
    requires Fitting(e, r, ty, stmts) && stmts != []
    ensures Fitting(e, r, ty, stmts[1..])
    ensures stmts[0].Case? ==> Portable(e.g, stmts[0].constant)
    ensures forall s: Config :: stmts[0].Case? && Eval(e.c, With(e.g, Guarded), stmts[0].constant, s).Some? ==>
      LabelFits(ty, Eval(e.c, With(e.g, Guarded), stmts[0].constant, s).value.v)
  {
    hide Eval, Portable, LabelFits;
    assert PortableStmt(e.c, e.g, stmts[0]);
    forall s: Config | stmts[0].Case? && Eval(e.c, With(e.g, Guarded), stmts[0].constant, s).Some?
      ensures LabelFits(ty, Eval(e.c, With(e.g, Guarded), stmts[0].constant, s).value.v)
    {
      EvalPortable(e.c, e.g, stmts[0].constant, s);
    }
    forall k, s | 0 <= k < |stmts[1..]| && stmts[1..][k].Case? &&
        Eval(e.c, With(e.g, Standard), stmts[1..][k].constant, s).Some?
      ensures LabelFits(ty, Eval(e.c, With(e.g, Standard), stmts[1..][k].constant, s).value.v)
    {
      assert stmts[1..][k] == stmts[k + 1];
    }
  }

  lemma LabelSame(r: Reading, ty: CType, x: int, v: int)
    requires Promoted(ty) && InRange(ty, v) && LabelFits(ty, x)
    ensures Selects(r, ty, x, v) == Selects(Guarded, ty, x, v)
  {
    SwitchClauses.FittingLabel(ty, x, v);
  }

  /** Whatever is selected is a later part of the list. */
  lemma {:induction false} SelectedPortable(e: Scene, ty: CType, v: int, stmts: seq<Stmt>, s: Config)
    requires PortableList(e.c, e.g, stmts)
    ensures var found := Select(In(e, Guarded), ty, v, stmts, s);
      found.Some? && found.value.Some? ==> PortableList(e.c, e.g, found.value.value)
    ensures AfterDefault(stmts).Some? ==> PortableList(e.c, e.g, AfterDefault(stmts).value)
    decreases |stmts|
  {
    hide Eval, Portable, LabelFits, Selects, PortableStmt;
    if stmts != [] { SelectedPortable(e, ty, v, stmts[1..], s); }
  }

  // ---- Statements ------------------------------------------------------------------------------

  /** The premise: a portable program read as C has it, or a run that takes no guard. */
  ghost predicate Fine(portable: bool, r: Reading, flow: Flow) { (r.Standard? && portable) || !flow.Wrong? }

  lemma {:induction false} ListSame(e: Scene, r: Reading, fuel: nat, stmts: seq<Stmt>, s: Config)
    requires Fine(PortableList(e.c, e.g, stmts), r, ExecList(In(e, Guarded), fuel, stmts, s))
    ensures ExecList(In(e, r), fuel, stmts, s) == ExecList(In(e, Guarded), fuel, stmts, s)
    decreases fuel, Size(stmts), 1
  {
    hide ExecStmt, PortableStmt;
    if stmts != [] {
      StmtSame(e, r, fuel, stmts[0], s);
      var flow := ExecStmt(In(e, Guarded), fuel, stmts[0], s);
      if flow.Next? { ListSame(e, r, fuel, stmts[1..], flow.s); }
    }
  }

  lemma {:induction false} StmtSame(e: Scene, r: Reading, fuel: nat, stmt: Stmt, s: Config)
    requires Fine(PortableStmt(e.c, e.g, stmt), r, ExecStmt(In(e, Guarded), fuel, stmt, s))
    ensures ExecStmt(In(e, r), fuel, stmt, s) == ExecStmt(In(e, Guarded), fuel, stmt, s)
    decreases fuel, StmtSize(stmt), 0
  {
    hide Eval, Perform, ExecDeclare, ExecList, ExecLoop, ExecDo, ExecSwitch, ExecInit, Portable, PortableDeclare,
        PortableInit, PortableList, LabelsFit, Size;
    match stmt
    case Declare(ds) => DeclareSame(e, r, ds, s);
    case ReturnWith(x) => if x.Some? { EvalSame(e.c, e.g, r, x.value, s); }
    case Evaluate(x) => PerformSame(e.c, e.g, r, x, s);
    case If(cond, yes, no) =>
      EvalSame(e.c, e.g, r, cond, s);
      var test := Eval(e.c, With(e.g, Guarded), cond, s);
      if test.Some? { ListSame(e, r, fuel, if test.value.v != 0 then yes else no, test.value.s); }
    case While(cond, body) => LoopSame(e, r, fuel, Some(cond), None, body, s);
    case DoWhile(body, cond) => DoSame(e, r, fuel, body, cond, s);
    case For(init, test, step, body) =>
      InitSame(e, r, init, s);
      var s' := ExecInit(In(e, Guarded), init, s);
      if s'.Some? { LoopSame(e, r, fuel, test, step, body, s'.value); }
    case Switch(value, body) => SwitchSame(e, r, fuel, value, body, s);
    case Scope(body) => ListSame(e, r, fuel, body, s);
    case _ =>
  }

  lemma {:induction false} LoopSame(e: Scene, r: Reading, fuel: nat, test: Option<Expr>, step: Option<Expr>,
      body: seq<Stmt>, s: Config)
    requires Fine(PortableMaybe(e.g, test) && PortableMaybe(e.g, step) &&
        PortableList(e.c, e.g, body), r, ExecLoop(In(e, Guarded), fuel, test, step, body, s))
    ensures ExecLoop(In(e, r), fuel, test, step, body, s) == ExecLoop(In(e, Guarded), fuel, test, step, body, s)
    decreases fuel, Size(body), 0
  {
    hide ExecList, ExecTest, ExecStep, PortableMaybe, PortableList, Size;
    TestSame(e, r, test, s);
    var t := ExecTest(In(e, Guarded), test, s);
    if t.Some? && t.value.v != 0 && fuel > 0 {
      ListSame(e, r, fuel - 1, body, t.value.s);
      var flow := ExecList(In(e, Guarded), fuel - 1, body, t.value.s);
      if flow.Next? || flow.Continued? {
        StepSame(e, r, step, flow.s);
        var s' := ExecStep(In(e, Guarded), step, flow.s);
        if s'.Some? { LoopSame(e, r, fuel - 1, test, step, body, s'.value); }
      }
    }
  }

  lemma {:induction false} DoSame(e: Scene, r: Reading, fuel: nat, body: seq<Stmt>, cond: Expr, s: Config)
    requires Fine(Portable(e.g, cond) && PortableList(e.c, e.g, body), r, ExecDo(In(e, Guarded), fuel, body, cond, s))
    ensures ExecDo(In(e, r), fuel, body, cond, s) == ExecDo(In(e, Guarded), fuel, body, cond, s)
    decreases fuel, Size(body), 0
  {
    hide ExecList, Eval, Portable, PortableList, Size;
    if fuel > 0 {
      ListSame(e, r, fuel - 1, body, s);
      var flow := ExecList(In(e, Guarded), fuel - 1, body, s);
      if flow.Next? || flow.Continued? {
        EvalSame(e.c, e.g, r, cond, flow.s);
        var t := Eval(e.c, With(e.g, Guarded), cond, flow.s);
        if t.Some? && t.value.v != 0 { DoSame(e, r, fuel - 1, body, cond, t.value.s); }
      }
    }
  }

  lemma {:induction false} SwitchSame(e: Scene, r: Reading, fuel: nat, value: Expr, body: seq<Stmt>, s: Config)
    requires Fine(PortableStmt(e.c, e.g, Switch(value, body)), r,
        ExecSwitch(In(e, Guarded), fuel, value, SwitchBody(body), s))
    ensures ExecSwitch(In(e, r), fuel, value, SwitchBody(body), s) ==
        ExecSwitch(In(e, Guarded), fuel, value, SwitchBody(body), s)
    decreases fuel, Size(body), 2
  {
    hide ExecList, Eval, Portable, PortableList, Size, Select, ExprType, LabelsFit, AfterDefault, InRange, Fitting;
    var stmts := SwitchBody(body);
    EvalSame(e.c, e.g, r, value, s);
    TypesSame(e.g, r, value);
    TypeSame(e.g, Guarded, value);
    var v := Eval(e.c, With(e.g, Guarded), value, s);
    var ty := ExprType(e.g, value);
    if v.Some? && ty.Some? && IsInteger(ty.value) {
      EvalInRange(e.c, With(e.g, Guarded), value, s);
      PromotionPreservesValue(ty.value, v.value.v);
      if r.Standard? && PortableStmt(e.c, e.g, Switch(value, body)) { BodyFits(e, ty.value, value, body); }
      SelectSame(e, r, Promote(ty.value), v.value.v, stmts, v.value.s);
      var found := Select(In(e, Guarded), Promote(ty.value), v.value.v, stmts, v.value.s);
      if r.Standard? && PortableStmt(e.c, e.g, Switch(value, body)) {
        SelectedPortable(e, Promote(ty.value), v.value.v, stmts, v.value.s);
      }
      if found.Some? {
        var rest := if found.value.Some? then found.value else AfterDefault(stmts);
        if rest.Some? { ListSame(e, r, fuel, rest.value, v.value.s); }
      }
    }
  }

  /** The body of a portable switch, as what it selects from. */
  lemma BodyFits(e: Scene, ty: CType, value: Expr, body: seq<Stmt>)
    requires PortableStmt(e.c, e.g, Switch(value, body)) && ExprType(e.g, value) == Some(ty)
    ensures Fitting(e, Standard, Promote(ty), SwitchBody(body)) && PortableList(e.c, e.g, SwitchBody(body))
  {
    hide Eval, Portable, LabelFits, ExprType, Promote;
    if |body| == 1 && body[0].Scope? { assert PortableStmt(e.c, e.g, body[0]); }
  }

  // ---- Values stay in their types -----------------------------------------------------------------

  /** An expression's value is one of its type. */
  lemma {:induction false} EvalInRange(c: Context, g: Env, x: Expr, s: Config)
    requires Eval(c, g, x, s).Some? && ExprType(g, x).Some?
    ensures InRange(ExprType(g, x).value, Eval(c, g, x, s).value.v)
    decreases x
  {
    hide Convert, InRange, Perform, EvalRead, EvalInvoke, EvalPrefix, EvalPostfix, EvalLogical, EvalBinary,
        EvalConditional, EvalAssignment, EvalCompound, Promote, BinaryType, ConditionalType, LiteralType;
    TruthInts();
    match x
    case Literal(v, suffix) => LiteralInRange(v, suffix);
    case Character(_) =>
    case Var(_) => ReadInRange(c, g, x, s);
    case GlobalVar(_) => ReadInRange(c, g, x, s);
    case Deref(_) => ReadInRange(c, g, x, s);
    case Invoke(name, args) => InvokeInRange(c, g, name, args, s);
    case Unary(_, y) =>
      EvalInRange(c, g, y, s);
      PromotionPreservesValue(ExprType(g, y).value, Eval(c, g, y, s).value.v);
    case Cast(_, _) =>
    case Prefix(up, target) => StepInRange(c, g, up, target, s);
    case Postfix(up, target) => StepInRange(c, g, up, target, s);
    case Binary(op, l, r) =>
      if op.OpComma? {
        EvalInRange(c, g, r, Perform(c, g, l, s).value);
      } else if op.OpLogAnd? || op.OpLogOr? {
        LogicalInRange(c, g, op, l, r, s);
      } else {
        BinaryInRange(c, g, op, l, r, s);
      }
    case Conditional(test, yes, no) => ConditionalInRange(c, g, test, yes, no, s);
    case Assignment(target, r) => AssignmentInRange(c, g, target, r, s);
    case Compound(op, target, r) => CompoundInRange(c, g, op, target, r, s);
  }

  lemma TruthInts()
    ensures forall b: bool :: InRange(Int, Truth(b))
  {
  }

  lemma LiteralInRange(v: nat, suffix: Suffix)
    requires v < 0x1_0000_0000_0000_0000
    ensures InRange(LiteralType(v, suffix), v)
  {
    FirstFitHolds(Candidates(suffix), v);
  }

  lemma ReadInRange(c: Context, g: Env, x: Expr, s: Config)
    requires EvalRead(c, g, x, s).Some?
    ensures ExprType(g, x).Some? && InRange(ExprType(g, x).value, EvalRead(c, g, x, s).value.v)
  {
    hide EvalPlace, InRange, ValueOfBytes, ExprType;
  }

  lemma InvokeInRange(c: Context, g: Env, name: string, args: seq<Expr>, s: Config)
    requires EvalInvoke(c, g, name, args, s).Some?
    ensures name in g.functions && InRange(g.functions[name], EvalInvoke(c, g, name, args, s).value.v)
  {
    hide EvalArgs, CallEffect, InRange, ValueOfBytes;
  }

  lemma StepInRange(c: Context, g: Env, up: bool, target: Expr, s: Config)
    ensures EvalPrefix(c, g, up, target, s).Some? ==>
        ExprType(g, target).Some? && InRange(ExprType(g, target).value, EvalPrefix(c, g, up, target, s).value.v)
    ensures EvalPostfix(c, g, up, target, s).Some? ==>
        ExprType(g, target).Some? && InRange(ExprType(g, target).value, EvalPostfix(c, g, up, target, s).value.v)
  {
    hide EvalPlace, InRange, ValueOfBytes, ExprType, Put, Convert, Stepped;
  }

  lemma LogicalInRange(c: Context, g: Env, op: Operator, l: Expr, r: Expr, s: Config)
    requires EvalLogical(c, g, op, l, r, s).Some?
    ensures InRange(Int, EvalLogical(c, g, op, l, r, s).value.v)
  {
    hide Eval;
  }

  lemma BinaryInRange(c: Context, g: Env, op: Operator, l: Expr, r: Expr, s: Config)
    requires EvalBinary(c, g, op, l, r, s).Some? && ExprType(g, Binary(op, l, r)).Some? && !op.OpComma? &&
        !op.OpLogAnd? && !op.OpLogOr?
    ensures InRange(ExprType(g, Binary(op, l, r)).value, EvalBinary(c, g, op, l, r, s).value.v)
    decreases Binary(op, l, r), 0
  {
    hide Eval, BinaryResult, BinaryType, InRange, Steady, Pending;
    var tl, tr := ExprType(g, l).value, ExprType(g, r).value;
    if PointerLast(op, tl, tr) {
      var b := Eval(c, g, r, s).value;
      var a := Eval(c, g, l, b.s).value;
      EvalInRange(c, g, r, s);
      EvalInRange(c, g, l, b.s);
      LoweringCorrect.BinaryResultInRange(op, tr, tl, b.v, a.v);
      LoweringCorrect.BinaryTypeSwaps(op, tl, tr);
    } else {
      var a := Eval(c, g, l, s).value;
      EvalInRange(c, g, l, s);
      EvalInRange(c, g, r, a.s);
      LoweringCorrect.BinaryResultInRange(op, tl, tr, a.v, Eval(c, g, r, a.s).value.v);
    }
  }

  lemma ConditionalInRange(c: Context, g: Env, test: Expr, yes: Expr, no: Expr, s: Config)
    requires EvalConditional(c, g, test, yes, no, s).Some?
    ensures var ty := ExprType(g, Conditional(test, yes, no));
        ty.Some? && InRange(ty.value, EvalConditional(c, g, test, yes, no, s).value.v)
  {
    hide Eval, InRange, ExprType, Convert;
  }

  lemma AssignmentInRange(c: Context, g: Env, target: Expr, x: Expr, s: Config)
    requires EvalAssignment(c, g, target, x, s).Some?
    ensures ExprType(g, target).Some? && InRange(ExprType(g, target).value, EvalAssignment(c, g, target, x, s).value.v)
  {
    hide Eval, InRange, ExprType, EvalPlace, Put, Convert, Steady, PendingPlace;
  }

  lemma CompoundInRange(c: Context, g: Env, op: Operator, target: Expr, x: Expr, s: Config)
    requires EvalCompound(c, g, op, target, x, s).Some?
    ensures ExprType(g, target).Some? && InRange(ExprType(g, target).value,
        EvalCompound(c, g, op, target, x, s).value.v)
  {
    hide Eval, InRange, ExprType, EvalPlace, Fetch, Put, Convert, Steady, PendingPlace, Pending, CompoundResult;
    var ty, tx := ExprType(g, target).value, ExprType(g, x).value;
    var p := EvalPlace(c, g, target, s).value;
    ResultInRange(g.reading, op, ty, tx, Fetch(c, ty, p.place, p.s).value, Eval(c, g, x, p.s).value.v);
  }

  lemma ResultInRange(r: Reading, op: Operator, ta: CType, tb: CType, x: int, y: int)
    requires CompoundResult(r, op, ta, tb, x, y).Some?
    ensures InRange(ta, CompoundResult(r, op, ta, tb, x, y).value)
  {
    hide Raw, Convert, Usual, InRange, SumLost;
    LoweringCorrect.TruthIsBool(true);
    LoweringCorrect.TruthIsBool(false);
  }

  // ---- Portable means: every expression, and every switch --------------------------------------

  /** The statements of a list, with those inside them. */
  function Nested(stmts: seq<Stmt>): seq<Stmt>
    decreases stmts, 0
  {
    if stmts == [] then [] else [stmts[0]] + Inside(stmts[0]) + Nested(stmts[1..])
  }

  function Inside(stmt: Stmt): seq<Stmt>
    decreases stmt, 1
  {
    match stmt
    case If(_, yes, no) => Nested(yes) + Nested(no)
    case While(_, body) => Nested(body)
    case DoWhile(body, _) => Nested(body)
    case For(_, _, _, body) => Nested(body)
    case Switch(_, body) => Nested(body)
    case Scope(body) => Nested(body)
    case _ => []
  }

  function Given(x: Option<Expr>): seq<Expr> { if x.Some? then [x.value] else [] }

  function Initials(ds: seq<Declarator>): seq<Expr> { if ds == [] then [] else Given(ds[0].init) + Initials(ds[1..]) }

  /** The expressions a statement has of its own. */
  function Exprs(stmt: Stmt): seq<Expr>
  {
    match stmt
    case Declare(ds) => Initials(ds)
    case ReturnWith(x) => Given(x)
    case Evaluate(x) => [x]
    case If(cond, _, _) => [cond]
    case While(cond, _) => [cond]
    case DoWhile(_, cond) => [cond]
    case For(init, test, step, _) =>
      (if init.InitExpr? then [init.e] else if init.InitDecls? then Initials(init.ds) else []) + Given(test) +
      Given(step)
    case Switch(value, _) => [value]
    case Case(x) => [x]
    case _ => []
  }

  predicate AllPortable(g: Env, xs: seq<Expr>) { forall x :: x in xs ==> Portable(g, x) }

  ghost predicate PortableHere(c: Context, g: Env, t: Stmt)
  {
    AllPortable(g, Exprs(t)) && (t.Switch? ==> LabelsFit(c, g, ExprType(g, t.value), SwitchBody(t.body)))
  }

  ghost predicate Throughout(c: Context, g: Env, ts: seq<Stmt>) { forall t :: t in ts ==> PortableHere(c, g, t) }

  lemma ThroughoutBoth(c: Context, g: Env, a: seq<Stmt>, b: seq<Stmt>)
    ensures Throughout(c, g, a + b) <==> Throughout(c, g, a) && Throughout(c, g, b)
  {
    hide PortableHere;
    assert forall t :: t in a + b <==> t in a || t in b;
    if Throughout(c, g, a + b) { assert Throughout(c, g, a) && Throughout(c, g, b); }
  }

  lemma ThroughoutOne(c: Context, g: Env, t: Stmt)
    ensures Throughout(c, g, [t]) <==> PortableHere(c, g, t)
    ensures Throughout(c, g, [])
  {
    hide PortableHere;
    assert t in [t];
  }

  lemma {:induction false} InitialsPortable(g: Env, ds: seq<Declarator>)
    ensures PortableDeclare(g, ds) <==> AllPortable(g, Initials(ds))
  {
    hide Portable;
    if ds != [] {
      InitialsPortable(g, ds[1..]);
      BothPortable(g, Given(ds[0].init), Initials(ds[1..]));
      GivenPortable(g, ds[0].init);
    }
  }

  lemma GivenPortable(g: Env, x: Option<Expr>)
    ensures PortableMaybe(g, x) <==> AllPortable(g, Given(x))
  {
    hide Portable;
    if x.Some? { assert x.value in Given(x); }
  }

  lemma BothPortable(g: Env, a: seq<Expr>, b: seq<Expr>)
    ensures AllPortable(g, a + b) <==> AllPortable(g, a) && AllPortable(g, b)
  {
    hide Portable;
    assert forall x :: x in a + b <==> x in a || x in b;
    if AllPortable(g, a + b) { assert AllPortable(g, a) && AllPortable(g, b); }
  }

  /** What a statement asks of itself, beside the lists in it. */
  lemma HereIs(c: Context, g: Env, stmt: Stmt)
    ensures PortableStmt(c, g, stmt) <==> PortableHere(c, g, stmt) && match stmt
      case If(_, yes, no) => PortableList(c, g, yes) && PortableList(c, g, no)
      case While(_, body) => PortableList(c, g, body)
      case DoWhile(body, _) => PortableList(c, g, body)
      case For(_, _, _, body) => PortableList(c, g, body)
      case Switch(_, body) => PortableList(c, g, body)
      case Scope(body) => PortableList(c, g, body)
      case _ => true
  {
    hide Portable, PortableList, LabelsFit, PortableDeclare, Initials, AllPortable, Given;
    var own := Exprs(stmt);
    match stmt
    case Declare(ds) => InitialsPortable(g, ds);
    case ReturnWith(x) => GivenPortable(g, x);
    case Evaluate(x) => GivenPortable(g, Some(x)); GivenIs(x);
    case If(x, _, _) => GivenPortable(g, Some(x)); GivenIs(x);
    case While(x, _) => GivenPortable(g, Some(x)); GivenIs(x);
    case DoWhile(_, x) => GivenPortable(g, Some(x)); GivenIs(x);
    case For(init, test, step, _) => ForPortable(g, init, test, step);
    case Switch(x, _) => GivenPortable(g, Some(x)); GivenIs(x);
    case Case(x) => GivenPortable(g, Some(x)); GivenIs(x);
    case _ => NonePortable(g);
  }

  lemma GivenIs(x: Expr)
    ensures Given(Some(x)) == [x]
  {
  }

  lemma NonePortable(g: Env)
    ensures AllPortable(g, [])
  {
  }

  lemma ForPortable(g: Env, init: ForInit, test: Option<Expr>, step: Option<Expr>)
    ensures var own := if init.InitExpr? then [init.e] else if init.InitDecls? then Initials(init.ds) else [];
      PortableInit(g, init) && PortableMaybe(g, test) && PortableMaybe(g, step) <==>
        AllPortable(g, own + Given(test) + Given(step))
  {
    hide Portable, PortableDeclare, Initials, AllPortable, Given, PortableMaybe;
    var own := if init.InitExpr? then [init.e] else if init.InitDecls? then Initials(init.ds) else [];
    BothPortable(g, own + Given(test), Given(step));
    BothPortable(g, own, Given(test));
    GivenPortable(g, test);
    GivenPortable(g, step);
    match init
    case NoInit => NonePortable(g);
    case InitExpr(x) => OnePortable(g, x);
    case InitDecls(ds) => InitialsPortable(g, ds);
  }

  lemma OnePortable(g: Env, x: Expr)
    ensures AllPortable(g, [x]) <==> Portable(g, x)
  {
    hide Portable;
    assert x in [x];
  }

  /** Statements are portable exactly when all their expressions are, and every label of
      every switch means the same unconverted. */
  lemma {:induction false} ListExactly(c: Context, g: Env, stmts: seq<Stmt>)
    ensures PortableList(c, g, stmts) <==> Throughout(c, g, Nested(stmts))
    decreases stmts, 0
  {
    hide PortableStmt, Inside, Throughout, PortableHere;
    if stmts == [] {
      ThroughoutOne(c, g, Break);
    } else {
      StmtExactly(c, g, stmts[0]);
      ListExactly(c, g, stmts[1..]);
      ThroughoutBoth(c, g, [stmts[0]] + Inside(stmts[0]), Nested(stmts[1..]));
      ThroughoutBoth(c, g, [stmts[0]], Inside(stmts[0]));
      ThroughoutOne(c, g, stmts[0]);
    }
  }

  lemma {:induction false} StmtExactly(c: Context, g: Env, stmt: Stmt)
    ensures PortableStmt(c, g, stmt) <==> PortableHere(c, g, stmt) && Throughout(c, g, Inside(stmt))
    decreases stmt, 1
  {
    hide PortableStmt, PortableList, Nested, Throughout, PortableHere;
    HereIs(c, g, stmt);
    match stmt
    case If(_, yes, no) =>
      ListExactly(c, g, yes);
      ListExactly(c, g, no);
      ThroughoutBoth(c, g, Nested(yes), Nested(no));
    case While(_, body) => ListExactly(c, g, body);
    case DoWhile(body, _) => ListExactly(c, g, body);
    case For(_, _, _, body) => ListExactly(c, g, body);
    case Switch(_, body) => ListExactly(c, g, body);
    case Scope(body) => ListExactly(c, g, body);
    case _ => ThroughoutOne(c, g, stmt);
  }
}
