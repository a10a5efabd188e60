/** When a statement goes wrong: exactly when an expression it evaluates is undefined, or a
    switch cannot select. Every other run of a well-formed function returns, reaches its end,
    or needs more fuel. */
module Stuck {
  import opened Options
  import opened Words
  import opened Ir
  import opened CTypes
  import opened Integers
  import opened Source
  import opened Statements
  import opened Typing
  import opened Undefined
  import opened Acceptance

  // ---- Going wrong -----------------------------------------------------------------------------

  ghost predicate StuckDeclare(e: Scene, ds: seq<Declarator>, s: Config)
  {
    ds != [] &&
    (ds[0].x !in e.g.vars || (ds[0].init.Some? && NoValue(e.c, e.g, ds[0].init.value, s)) ||
     (ExecDeclarator(e, ds[0], s).Some? && StuckDeclare(e, ds[1..], ExecDeclarator(e, ds[0], s).value)))
  }

  ghost predicate StuckInit(e: Scene, init: ForInit, s: Config)
  {
    match init
    case NoInit => false
    case InitExpr(x) => UndefinedEffects(e.c, e.g, x, s)
    case InitDecls(ds) => StuckDeclare(e, ds, s)
  }

  ghost predicate StuckTest(e: Scene, test: Option<Expr>, s: Config) { test.Some? && NoValue(e.c, e.g, test.value, s) }

  ghost predicate StuckStep(e: Scene, step: Option<Expr>, s: Config)
  {
    step.Some? && UndefinedEffects(e.c, e.g, step.value, s)
  }

  /** Labels are tried in turn; one must be a constant, and under the guarded reading one
      that means the same unconverted. */
  ghost predicate StuckLabel(e: Scene, ty: CType, v: int, stmts: seq<Stmt>, s: Config)
  {
    if stmts == [] then false
    else if !stmts[0].Case? then StuckLabel(e, ty, v, stmts[1..], s)
    else
      match Eval(e.c, e.g, stmts[0].constant, s)
      case None => NoValue(e.c, e.g, stmts[0].constant, s)
      case Some(r) =>
        || r.s != s || (e.g.reading.Guarded? && !LabelFits(ty, r.v))
        || (!Selects(e.g.reading, ty, r.v, v) && StuckLabel(e, ty, v, stmts[1..], s))
  }

  ghost predicate StuckList(e: Scene, fuel: nat, stmts: seq<Stmt>, s: Config)
    decreases fuel, Size(stmts), 1
  {
    stmts != [] &&
    match ExecStmt(e, fuel, stmts[0], s)
    case Wrong => StuckStmt(e, fuel, stmts[0], s)
    case Next(s') => StuckList(e, fuel, stmts[1..], s')
    case _ => false
  }

  ghost predicate StuckStmt(e: Scene, fuel: nat, stmt: Stmt, s: Config)
    decreases fuel, StmtSize(stmt), 0
  {
    match stmt
    case Declare(ds) => StuckDeclare(e, ds, s)
    case ReturnWith(result) => StuckTest(e, result, s)
    case Evaluate(x) => UndefinedEffects(e.c, e.g, x, s)
    case If(cond, yes, no) =>
      (match Eval(e.c, e.g, cond, s)
       case None => NoValue(e.c, e.g, cond, s)
       case Some(r) => StuckList(e, fuel, if r.v != 0 then yes else no, r.s))
    case While(cond, body) => StuckLoop(e, fuel, Some(cond), None, body, s)
    case DoWhile(body, cond) => StuckDo(e, fuel, body, cond, s)
    case For(init, test, step, body) =>
      (match ExecInit(e, init, s)
       case None => StuckInit(e, init, s)
       case Some(s') => StuckLoop(e, fuel, test, step, body, s'))
    case Switch(value, body) => StuckSwitch(e, fuel, value, Labelled(body), s)
    case Scope(body) => StuckList(e, fuel, body, s)
    case _ => false
  }

  ghost predicate StuckLoop(e: Scene, fuel: nat, test: Option<Expr>, step: Option<Expr>, body: seq<Stmt>, s: Config)
    decreases fuel, Size(body), 0
  {
    match ExecTest(e, test, s)
    case None => StuckTest(e, test, s)
    case Some(r) =>
      r.v != 0 && fuel > 0 &&
      match ExecList(e, fuel - 1, body, r.s)
      case Wrong => StuckList(e, fuel - 1, body, r.s)
      case Next(s') => StuckTurn(e, fuel, test, step, body, s')
      case Continued(s') => StuckTurn(e, fuel, test, step, body, s')
      case _ => false
  }

  /** The step of a loop, and its next turn. */
  ghost predicate StuckTurn(e: Scene, fuel: nat, test: Option<Expr>, step: Option<Expr>, body: seq<Stmt>, s: Config)
    requires fuel > 0
    decreases fuel - 1, Size(body), 1
  {
    match ExecStep(e, step, s)
    case None => StuckStep(e, step, s)
    case Some(s') => StuckLoop(e, fuel - 1, test, step, body, s')
  }

  ghost predicate StuckDo(e: Scene, fuel: nat, body: seq<Stmt>, cond: Expr, s: Config)
    decreases fuel, Size(body), 0
  {
    fuel > 0 &&
    match ExecList(e, fuel - 1, body, s)
    case Wrong => StuckList(e, fuel - 1, body, s)
    case Next(s') => StuckAgain(e, fuel, body, cond, s')
    case Continued(s') => StuckAgain(e, fuel, body, cond, s')
    case _ => false
  }

  ghost predicate StuckAgain(e: Scene, fuel: nat, body: seq<Stmt>, cond: Expr, s: Config)
    requires fuel > 0
    decreases fuel - 1, Size(body), 1
  {
    match Eval(e.c, e.g, cond, s)
    case None => NoValue(e.c, e.g, cond, s)
    case Some(r) => r.v != 0 && StuckDo(e, fuel - 1, body, cond, r.s)
  }

  /** A switch selects by an integer. */
  ghost predicate StuckSwitch(e: Scene, fuel: nat, value: Expr, stmts: seq<Stmt>, s: Config)
    decreases fuel, Size(stmts), 2
  {
    match Eval(e.c, e.g, value, s)
    case None => NoValue(e.c, e.g, value, s)
    case Some(r) =>
      var ty := ExprType(e.g, value);
      ty.None? || ty.value.Ptr? ||
      match Select(e, Promote(ty.value), r.v, stmts, r.s)
      case None => StuckLabel(e, Promote(ty.value), r.v, stmts, r.s)
      case Some(found) =>
        var rest := if found.Some? then found else AfterDefault(stmts);
        rest.Some? && StuckList(e, fuel, rest.value, r.s)
  }

  // ---- Nothing else goes wrong --------------------------------------------------------------------

  lemma {:induction false} DeclareFails(e: Scene, ds: seq<Declarator>, s: Config)
    ensures ExecDeclare(e, ds, s).None? <==> StuckDeclare(e, ds, s)
    decreases |ds|
  {
    hide Eval, NoValue, Convert;
    if ds != [] {
      if ds[0].init.Some? { EvalFails(e.c, e.g, ds[0].init.value, s); }
      var s' := ExecDeclarator(e, ds[0], s);
      if s'.Some? { DeclareFails(e, ds[1..], s'.value); }
    }
  }

  lemma InitFails(e: Scene, init: ForInit, s: Config)
    ensures ExecInit(e, init, s).None? <==> StuckInit(e, init, s)
  {
    hide ExecDeclare, StuckDeclare, Perform, UndefinedEffects;
    match init
    case NoInit =>
    case InitExpr(x) => EffectsFail(e.c, e.g, x, s);
    case InitDecls(ds) => DeclareFails(e, ds, s);
  }

  lemma TestFails(e: Scene, test: Option<Expr>, s: Config)
    ensures ExecTest(e, test, s).None? <==> StuckTest(e, test, s)
  {
    hide Eval, NoValue;
    if test.Some? { EvalFails(e.c, e.g, test.value, s); }
  }

  lemma StepFails(e: Scene, step: Option<Expr>, s: Config)
    ensures ExecStep(e, step, s).None? <==> StuckStep(e, step, s)
  {
    hide Perform, UndefinedEffects;
    if step.Some? { EffectsFail(e.c, e.g, step.value, s); }
  }

  lemma {:induction false} SelectFails(e: Scene, ty: CType, v: int, stmts: seq<Stmt>, s: Config)
    ensures Select(e, ty, v, stmts, s).None? <==> StuckLabel(e, ty, v, stmts, s)
    decreases |stmts|
  {
    hide Eval, NoValue, LabelFits, Selects;
    if stmts != [] {
      SelectFails(e, ty, v, stmts[1..], s);
      if stmts[0].Case? { EvalFails(e.c, e.g, stmts[0].constant, s); }
    }
  }

  /** A list goes wrong exactly when it gets stuck. */
  lemma {:induction false} ListFails(e: Scene, fuel: nat, stmts: seq<Stmt>, s: Config)
    ensures ExecList(e, fuel, stmts, s).Wrong? <==> StuckList(e, fuel, stmts, s)
    decreases fuel, Size(stmts), 1
  {
    hide ExecStmt, StuckStmt;
    if stmts != [] {
      HeadSize(stmts);
      StmtFails(e, fuel, stmts[0], s);
      var flow := ExecStmt(e, fuel, stmts[0], s);
      if flow.Next? { ListFails(e, fuel, stmts[1..], flow.s); }
    }
  }

  lemma {:induction false} StmtFails(e: Scene, fuel: nat, stmt: Stmt, s: Config)
    ensures ExecStmt(e, fuel, stmt, s).Wrong? <==> StuckStmt(e, fuel, stmt, s)
    decreases fuel, StmtSize(stmt), 0
  {
    hide Eval, NoValue, ExecList, StuckList, ExecLoop, StuckLoop, ExecDo, StuckDo, ExecSwitch, StuckSwitch, Perform,
        UndefinedEffects, ExecDeclare, StuckDeclare, ExecInit, StuckInit, Convert, WordOf;
    match stmt
    case Declare(ds) => DeclareFails(e, ds, s);
    case ReturnWith(result) => if result.Some? { EvalFails(e.c, e.g, result.value, s); }
    case Evaluate(x) => EffectsFail(e.c, e.g, x, s);
    case If(cond, yes, no) =>
      EvalFails(e.c, e.g, cond, s);
      var r := Eval(e.c, e.g, cond, s);
      if r.Some? { ListFails(e, fuel, if r.value.v != 0 then yes else no, r.value.s); }
    case While(cond, body) => LoopFails(e, fuel, Some(cond), None, body, s);
    case DoWhile(body, cond) => DoFails(e, fuel, body, cond, s);
    case For(init, test, step, body) =>
      InitFails(e, init, s);
      var s' := ExecInit(e, init, s);
      if s'.Some? { LoopFails(e, fuel, test, step, body, s'.value); }
    case Switch(value, body) => SwitchFails(e, fuel, value, SwitchBody(body), s);
    case Scope(body) => ListFails(e, fuel, body, s);
    case _ =>
  }

  lemma {:induction false} LoopFails(e: Scene, fuel: nat, test: Option<Expr>, step: Option<Expr>, body: seq<Stmt>,
      s: Config)
    ensures ExecLoop(e, fuel, test, step, body, s).Wrong? <==> StuckLoop(e, fuel, test, step, body, s)
    decreases fuel, Size(body), 0
  {
    hide ExecList, StuckList, ExecTest, StuckTest, ExecStep, StuckStep;
    TestFails(e, test, s);
    var r := ExecTest(e, test, s);
    if r.Some? && r.value.v != 0 && fuel > 0 {
      ListFails(e, fuel - 1, body, r.value.s);
      var flow := ExecList(e, fuel - 1, body, r.value.s);
      if flow.Next? || flow.Continued? {
        StepFails(e, step, flow.s);
        var s' := ExecStep(e, step, flow.s);
        if s'.Some? { LoopFails(e, fuel - 1, test, step, body, s'.value); }
      }
    }
  }

  lemma {:induction false} DoFails(e: Scene, fuel: nat, body: seq<Stmt>, cond: Expr, s: Config)
    ensures ExecDo(e, fuel, body, cond, s).Wrong? <==> StuckDo(e, fuel, body, cond, s)
    decreases fuel, Size(body), 0
  {
    hide ExecList, StuckList, Eval, NoValue;
    if fuel > 0 {
      ListFails(e, fuel - 1, body, s);
      var flow := ExecList(e, fuel - 1, body, s);
      if flow.Next? || flow.Continued? {
        EvalFails(e.c, e.g, cond, flow.s);
        var r := Eval(e.c, e.g, cond, flow.s);
        if r.Some? && r.value.v != 0 { DoFails(e, fuel - 1, body, cond, r.value.s); }
      }
    }
  }

  lemma {:induction false} SwitchFails(e: Scene, fuel: nat, value: Expr, stmts: seq<Stmt>, s: Config)
    ensures ExecSwitch(e, fuel, value, stmts, s).Wrong? <==> StuckSwitch(e, fuel, value, stmts, s)
    decreases fuel, Size(stmts), 2
  {
    hide ExecList, StuckList, Eval, NoValue, Select, StuckLabel, ExprType, Promote, AfterDefault;
    EvalFails(e.c, e.g, value, s);
    var r, ty := Eval(e.c, e.g, value, s), ExprType(e.g, value);
    if r.Some? && ty.Some? && !ty.value.Ptr? {
      SelectFails(e, Promote(ty.value), r.value.v, stmts, r.value.s);
      var found := Select(e, Promote(ty.value), r.value.v, stmts, r.value.s);
      if found.Some? {
        var rest := if found.value.Some? then found.value else AfterDefault(stmts);
        if rest.Some? { ListFails(e, fuel, rest.value, r.value.s); }
      }
    }
  }

  // ---- Well-formed statements stay inside --------------------------------------------------------

  /** Statements are left by break and continue only for a loop or switch around them. */
  lemma {:induction false} ListStays(e: Scene, fuel: nat, stmts: seq<Stmt>, s: Config, breaks: bool, continues: bool)
    requires Accepted(e.g, stmts, breaks, continues)
    ensures ExecList(e, fuel, stmts, s).Broke? ==> breaks
    ensures ExecList(e, fuel, stmts, s).Continued? ==> continues
    decreases fuel, Size(stmts), 1
  {
    hide ExecStmt, AcceptedOne, AcceptedMaybe, WellTyped;
    if stmts != [] {
      HeadSize(stmts);
      match stmts[0]
      case ReturnWith(result) => ReturnStays(e, fuel, result, s);
      case Break => Leaves(e, fuel, s);
      case Continue => Leaves(e, fuel, s);
      case stmt =>
        StmtStays(e, fuel, stmt, s, breaks, continues);
        var flow := ExecStmt(e, fuel, stmt, s);
        if flow.Next? { ListStays(e, fuel, stmts[1..], flow.s, breaks, continues); }
    }
  }

  lemma Leaves(e: Scene, fuel: nat, s: Config)
    ensures ExecStmt(e, fuel, Break, s) == Broke(s) && ExecStmt(e, fuel, Continue, s) == Continued(s)
  {
  }

  lemma ReturnStays(e: Scene, fuel: nat, result: Option<Expr>, s: Config)
    ensures var flow := ExecStmt(e, fuel, ReturnWith(result), s); flow.Returned? || flow.Wrong?
  {
    hide Eval;
    if result.Some? { var r := Eval(e.c, e.g, result.value, s); }
  }

  lemma {:induction false} StmtStays(e: Scene, fuel: nat, stmt: Stmt, s: Config, breaks: bool, continues: bool)
    requires AcceptedOne(e.g, stmt, breaks, continues) && !stmt.Break? && !stmt.Continue?
    ensures ExecStmt(e, fuel, stmt, s).Broke? ==> breaks
    ensures ExecStmt(e, fuel, stmt, s).Continued? ==> continues
    decreases fuel, StmtSize(stmt), 0
  {
    hide Eval, ExecList, ExecLoop, ExecDo, ExecSwitch, Perform, ExecDeclare, ExecInit, Accepted, AcceptedMaybe,
        WellTyped, AcceptedLabels, AcceptedDeclare;
    match stmt
    case If(cond, yes, no) =>
      var r := Eval(e.c, e.g, cond, s);
      if r.Some? { ListStays(e, fuel, if r.value.v != 0 then yes else no, r.value.s, breaks, continues); }
    case While(cond, body) => LoopStays(e, fuel, Some(cond), None, body, s);
    case DoWhile(body, cond) => DoStays(e, fuel, body, cond, s);
    case For(init, test, step, body) =>
      var s' := ExecInit(e, init, s);
      if s'.Some? { LoopStays(e, fuel, test, step, body, s'.value); }
    case Switch(value, body) =>
      assert Labelled(body) == SwitchBody(body);
      SwitchStays(e, fuel, value, SwitchBody(body), s, continues);
    case Scope(body) => ListStays(e, fuel, body, s, breaks, continues);
    case _ =>
  }

  lemma {:induction false} LoopStays(e: Scene, fuel: nat, test: Option<Expr>, step: Option<Expr>, body: seq<Stmt>,
      s: Config)
    ensures !ExecLoop(e, fuel, test, step, body, s).Broke? && !ExecLoop(e, fuel, test, step, body, s).Continued?
    decreases fuel
  {
    hide ExecList, ExecTest, ExecStep;
    var r := ExecTest(e, test, s);
    if r.Some? && r.value.v != 0 && fuel > 0 {
      var flow := ExecList(e, fuel - 1, body, r.value.s);
      match flow
      case Next(t) =>
        var s' := ExecStep(e, step, t);
        if s'.Some? { LoopStays(e, fuel - 1, test, step, body, s'.value); }
      case Continued(t) =>
        var s' := ExecStep(e, step, t);
        if s'.Some? { LoopStays(e, fuel - 1, test, step, body, s'.value); }
      case _ =>
    }
  }

  lemma {:induction false} DoStays(e: Scene, fuel: nat, body: seq<Stmt>, cond: Expr, s: Config)
    ensures !ExecDo(e, fuel, body, cond, s).Broke? && !ExecDo(e, fuel, body, cond, s).Continued?
    decreases fuel
  {
    hide ExecList, Eval;
    if fuel > 0 {
      match ExecList(e, fuel - 1, body, s)
      case Next(t) =>
        var r := Eval(e.c, e.g, cond, t);
        if r.Some? && r.value.v != 0 { DoStays(e, fuel - 1, body, cond, r.value.s); }
      case Continued(t) =>
        var r := Eval(e.c, e.g, cond, t);
        if r.Some? && r.value.v != 0 { DoStays(e, fuel - 1, body, cond, r.value.s); }
      case _ =>
    }
  }

  lemma {:induction false} SwitchStays(e: Scene, fuel: nat, value: Expr, stmts: seq<Stmt>, s: Config, continues: bool)
    requires AcceptedLabels(e.g, stmts, continues)
    ensures !ExecSwitch(e, fuel, value, stmts, s).Broke?
    ensures ExecSwitch(e, fuel, value, stmts, s).Continued? ==> continues
    decreases fuel, Size(stmts), 2
  {
    hide ExecList, Eval, Select, ExprType, Promote, AfterDefault, AcceptedLabels, Accepted, Stretch;
    var r, ty := Eval(e.c, e.g, value, s), ExprType(e.g, value);
    if r.Some? && ty.Some? && !ty.value.Ptr? {
      var found := Select(e, Promote(ty.value), r.value.v, stmts, r.value.s);
      if found.Some? {
        SelectedAccepted(e, Promote(ty.value), r.value.v, stmts, r.value.s, continues);
        DefaultAccepted(e.g, stmts, continues);
        var rest := if found.value.Some? then found.value else AfterDefault(stmts);
        if rest.Some? { LabelledStays(e, fuel, rest.value, r.value.s, continues); }
      }
    }
  }

  /** Statements that start in the middle of a switch. */
  ghost predicate Entered(g: Env, stmts: seq<Stmt>, continues: bool)
  {
    Accepted(g, Stretch(stmts), true, continues) && AcceptedLabels(g, stmts, continues)
  }

  lemma {:induction false} SelectedAccepted(e: Scene, ty: CType, v: int, stmts: seq<Stmt>, s: Config, continues: bool)
    requires AcceptedLabels(e.g, stmts, continues)
    ensures var r := Select(e, ty, v, stmts, s); r.Some? && r.value.Some? ==> Entered(e.g, r.value.value, continues)
    decreases |stmts|
  {
    hide Eval, Accepted, Stretch, WellTyped, LabelFits, Selects;
    if stmts != [] { SelectedAccepted(e, ty, v, stmts[1..], s, continues); }
  }

  lemma {:induction false} DefaultAccepted(g: Env, stmts: seq<Stmt>, continues: bool)
    requires AcceptedLabels(g, stmts, continues)
    ensures AfterDefault(stmts).Some? ==> Entered(g, AfterDefault(stmts).value, continues)
    decreases |stmts|
  {
    hide Accepted, Stretch, WellTyped;
    if stmts != [] { DefaultAccepted(g, stmts[1..], continues); }
  }

  /** From a label on, through later labels. */
  lemma {:induction false} LabelledStays(e: Scene, fuel: nat, stmts: seq<Stmt>, s: Config, continues: bool)
    requires Entered(e.g, stmts, continues)
    ensures ExecList(e, fuel, stmts, s).Continued? ==> continues
    decreases fuel, Size(stmts), 1
  {
    hide AcceptedOne, AcceptedMaybe, WellTyped;
    if stmts != [] {
      HeadSize(stmts);
      var flow := ExecStmt(e, fuel, stmts[0], s);
      if IsLabel(stmts[0]) {
        LabelledStays(e, fuel, stmts[1..], s, continues);
      } else {
        var stretch := Stretch(stmts);
        assert stretch[0] == stmts[0] && stretch[1..] == Stretch(stmts[1..]);
        if !stmts[0].ReturnWith? && !stmts[0].Break? && !stmts[0].Continue? {
          StmtStays(e, fuel, stmts[0], s, true, continues);
          if flow.Next? { LabelledStays(e, fuel, stmts[1..], flow.s, continues); }
        }
      }
    }
  }

  // ---- What is returned has the function's type ------------------------------------------------------

  /** A word that stands for a value of the type. */
  ghost predicate WordAt(ty: CType, w: Word) { exists v :: Least(ty) <= v <= Greatest(ty) && w == WordOf(v) }

  /** A flow that returns, returns a value of the type of the scene. */
  ghost predicate ReturnsTyped(e: Scene, flow: Flow) { flow.Returned? && e.ret.Some? ==> WordAt(e.ret.value, flow.w) }

  lemma ZeroIsTyped(ty: CType)
    ensures WordAt(ty, ZERO)
  {
    ZeroWord(0);
    assert Least(ty) <= 0 <= Greatest(ty) && ZERO == WordOf(0);
  }

  lemma ConvertedIsTyped(ty: CType, v: int)
    ensures WordAt(ty, WordOf(Convert(ty, v)))
  {
    hide WordOf;
    Limits(ty, Convert(ty, v));
  }

  /** Section 6.8.6.4, paragraph 3: the value returned is converted to the function's type. */
  lemma {:induction false} ListReturns(e: Scene, fuel: nat, stmts: seq<Stmt>, s: Config)
    ensures ReturnsTyped(e, ExecList(e, fuel, stmts, s))
    decreases fuel, Size(stmts), 1
  {
    hide ExecStmt, WordAt;
    if stmts != [] {
      HeadSize(stmts);
      StmtReturns(e, fuel, stmts[0], s);
      var flow := ExecStmt(e, fuel, stmts[0], s);
      if flow.Next? { ListReturns(e, fuel, stmts[1..], flow.s); }
    }
  }

  lemma {:induction false} StmtReturns(e: Scene, fuel: nat, stmt: Stmt, s: Config)
    ensures ReturnsTyped(e, ExecStmt(e, fuel, stmt, s))
    decreases fuel, StmtSize(stmt), 0
  {
    hide Eval, ExecList, ExecLoop, ExecDo, ExecSwitch, Perform, ExecDeclare, ExecInit, WordAt, Convert, WordOf;
    match stmt
    case ReturnWith(result) => ResultTyped(e, fuel, result, s);
    case If(cond, yes, no) =>
      var r := Eval(e.c, e.g, cond, s);
      if r.Some? { ListReturns(e, fuel, if r.value.v != 0 then yes else no, r.value.s); }
    case While(cond, body) => LoopReturns(e, fuel, Some(cond), None, body, s);
    case DoWhile(body, cond) => DoReturns(e, fuel, body, cond, s);
    case For(init, test, step, body) =>
      var s' := ExecInit(e, init, s);
      if s'.Some? { LoopReturns(e, fuel, test, step, body, s'.value); }
    case Switch(value, body) => SwitchReturns(e, fuel, value, SwitchBody(body), s);
    case Scope(body) => ListReturns(e, fuel, body, s);
    case _ =>
  }

  lemma ResultTyped(e: Scene, fuel: nat, result: Option<Expr>, s: Config)
    ensures ReturnsTyped(e, ExecStmt(e, fuel, ReturnWith(result), s))
  {
    hide Eval, WordAt, Convert, WordOf;
    if e.ret.Some? {
      match result
      case None => ZeroIsTyped(e.ret.value);
      case Some(x) =>
        var r := Eval(e.c, e.g, x, s);
        if r.Some? { ConvertedIsTyped(e.ret.value, r.value.v); }
    }
  }

  lemma {:induction false} LoopReturns(e: Scene, fuel: nat, test: Option<Expr>, step: Option<Expr>, body: seq<Stmt>,
      s: Config)
    ensures ReturnsTyped(e, ExecLoop(e, fuel, test, step, body, s))
    decreases fuel, Size(body), 0
  {
    hide ExecList, ExecTest, ExecStep, WordAt;
    var r := ExecTest(e, test, s);
    if r.Some? && r.value.v != 0 && fuel > 0 {
      ListReturns(e, fuel - 1, body, r.value.s);
      match ExecList(e, fuel - 1, body, r.value.s)
      case Next(t) =>
        var s' := ExecStep(e, step, t);
        if s'.Some? { LoopReturns(e, fuel - 1, test, step, body, s'.value); }
      case Continued(t) =>
        var s' := ExecStep(e, step, t);
        if s'.Some? { LoopReturns(e, fuel - 1, test, step, body, s'.value); }
      case _ =>
    }
  }

  lemma {:induction false} DoReturns(e: Scene, fuel: nat, body: seq<Stmt>, cond: Expr, s: Config)
    ensures ReturnsTyped(e, ExecDo(e, fuel, body, cond, s))
    decreases fuel, Size(body), 0
  {
    hide ExecList, Eval, WordAt;
    if fuel > 0 {
      ListReturns(e, fuel - 1, body, s);
      match ExecList(e, fuel - 1, body, s)
      case Next(t) =>
        var r := Eval(e.c, e.g, cond, t);
        if r.Some? && r.value.v != 0 { DoReturns(e, fuel - 1, body, cond, r.value.s); }
      case Continued(t) =>
        var r := Eval(e.c, e.g, cond, t);
        if r.Some? && r.value.v != 0 { DoReturns(e, fuel - 1, body, cond, r.value.s); }
      case _ =>
    }
  }

  lemma {:induction false} SwitchReturns(e: Scene, fuel: nat, value: Expr, stmts: seq<Stmt>, s: Config)
    ensures ReturnsTyped(e, ExecSwitch(e, fuel, value, stmts, s))
    decreases fuel, Size(stmts), 2
  {
    hide ExecList, Eval, Select, ExprType, Promote, AfterDefault, WordAt;
    var r, ty := Eval(e.c, e.g, value, s), ExprType(e.g, value);
    if r.Some? && ty.Some? && !ty.value.Ptr? {
      var found := Select(e, Promote(ty.value), r.value.v, stmts, r.value.s);
      if found.Some? {
        var rest := if found.value.Some? then found.value else AfterDefault(stmts);
        if rest.Some? { ListReturns(e, fuel, rest.value, r.value.s); }
      }
    }
  }
}
