/** Structured statements, with names resolved, and their meaning.

    Each loop iteration uses up one unit of fuel, so a run that needs more than it is
    given is Exhausted; every other flow is final. */
module Statements {
  import opened Options
  import opened Words
  import opened Ir
  import opened CTypes
  import opened Source

  datatype Declarator = Declarator(x: nat, init: Option<Expr>)

  datatype ForInit = NoInit | InitExpr(e: Expr) | InitDecls(ds: seq<Declarator>)

  datatype Stmt =
    | Declare(ds: seq<Declarator>)
    | Typedef
    | ReturnWith(result: Option<Expr>)
    | Evaluate(e: Expr)
    | If(cond: Expr, yes: seq<Stmt>, no: seq<Stmt>)
    | While(cond: Expr, body: seq<Stmt>)
    | DoWhile(body: seq<Stmt>, cond: Expr)
    | For(init: ForInit, test: Option<Expr>, step: Option<Expr>, body: seq<Stmt>)
    | Switch(value: Expr, body: seq<Stmt>)
    | Case(constant: Expr)
    | Default
    | Break
    | Continue
    | Scope(body: seq<Stmt>)

  /** The number of statements, nested ones included. */
  function Size(stmts: seq<Stmt>): nat
    decreases stmts, 0
  {
    if stmts == [] then 0 else StmtSize(stmts[0]) + Size(stmts[1..])
  }

  function StmtSize(stmt: Stmt): (n: nat)
    ensures n >= 1
    decreases stmt, 1
  {
    match stmt
    case If(_, yes, no) => 1 + Size(yes) + Size(no)
    case While(_, body) => 1 + Size(body)
    case DoWhile(body, _) => 1 + Size(body)
    case For(_, _, _, body) => 1 + Size(body)
    case Switch(_, body) => 1 + Size(body)
    case Scope(body) => 1 + Size(body)
    case _ => 1
  }

  /** The first statement's parts are smaller than the list. */
  lemma HeadSize(stmts: seq<Stmt>)
    requires stmts != []
    ensures Size(stmts) == StmtSize(stmts[0]) + Size(stmts[1..])
    ensures var h := stmts[0];
      (h.While? || h.DoWhile? || h.For? || h.Switch? || h.Scope? ==> StmtSize(h) == 1 + Size(h.body)) &&
          (h.If? ==> StmtSize(h) == 1 + Size(h.yes) + Size(h.no))
  {
  }

  lemma {:induction false} SizeAppend(a: seq<Stmt>, b: seq<Stmt>)
    ensures Size(a + b) == Size(a) + Size(b)
  {
    if a == [] {
      assert a + b == b;
    } else {
      assert (a + b)[1..] == a[1..] + b;
      SizeAppend(a[1..], b);
    }
  }

  predicate IsLabel(stmt: Stmt) { stmt.Case? || stmt.Default? }

  /** The statements a switch selects from: those of the one block that is its body. */
  function SwitchBody(body: seq<Stmt>): (stmts: seq<Stmt>)
    ensures Size(stmts) <= Size(body)
  {
    if |body| == 1 && body[0].Scope? then body[0].body else body
  }

  // ---- Meaning ------------------------------------------------------------------------

  datatype Flow =
    | Next(s: Config)
    | Broke(s: Config)
    | Continued(s: Config)
    | Returned(w: Word, s: Config)
    | Exhausted
    | Wrong

  /** What surrounds the statements: types, and the type results are converted to. */
  datatype Scene = Scene(c: Context, g: Env, ret: Option<CType>)

  ghost function ExecDeclarator(e: Scene, d: Declarator, s: Config): Option<Config>
  {
    if d.x !in e.g.vars then None else
    match d.init
    case None => Some(s.(vars := s.vars[d.x := 0]))
    case Some(init) =>
      var r :- Eval(e.c, e.g, init, s);
      Some(r.s.(vars := r.s.vars[d.x := Convert(e.g.vars[d.x], r.v)]))
  }

  ghost function ExecDeclare(e: Scene, ds: seq<Declarator>, s: Config): Option<Config>
  {
    if ds == [] then Some(s) else
    var s' :- ExecDeclarator(e, ds[0], s);
    ExecDeclare(e, ds[1..], s')
  }

  /** Whether a case label of value x means the same unconverted: its word, read with or
      without a sign, is a value of ty. */
  predicate LabelFits(ty: CType, x: int)
  {
    SizeOf(ty) == 8 || InRange(ty, x) || InRange(ty, x - 0x1_0000_0000_0000_0000)
  }

  /** Whether a label of value x selects v, a value of the promoted type ty: C converts the
      label to ty, the compiled code compares words. */
  predicate Selects(reading: Reading, ty: CType, x: int, v: int)
  {
    if reading.AsCompiled? then x % 0x1_0000_0000_0000_0000 == v % 0x1_0000_0000_0000_0000 else Convert(ty, x) == v
  }

  /** The statements after the first case label equal to v; labels are constants. */
  ghost function Select(e: Scene, ty: CType, v: int, stmts: seq<Stmt>, s: Config): (r: Option<Option<seq<Stmt>>>)
    ensures r.Some? && r.value.Some? ==> Size(r.value.value) <= Size(stmts)
    decreases |stmts|
  {
    if stmts == [] then Some(None)
    else if !stmts[0].Case? then Select(e, ty, v, stmts[1..], s)
    else
      var r :- Eval(e.c, e.g, stmts[0].constant, s);
      if r.s != s || (e.g.reading.Guarded? && !LabelFits(ty, r.v)) then None
      else if Selects(e.g.reading, ty, r.v, v) then Some(Some(stmts[1..]))
      else Select(e, ty, v, stmts[1..], s)
  }

  function AfterDefault(stmts: seq<Stmt>): (r: Option<seq<Stmt>>)
    ensures r.Some? ==> Size(r.value) <= Size(stmts)
  {
    if stmts == [] then None else if stmts[0].Default? then Some(stmts[1..]) else AfterDefault(stmts[1..])
  }

  ghost function ExecList(e: Scene, fuel: nat, stmts: seq<Stmt>, s: Config): Flow
    decreases fuel, Size(stmts), 1
  {
    if stmts == [] then Next(s) else
    match ExecStmt(e, fuel, stmts[0], s)
    case Next(s') => ExecList(e, fuel, stmts[1..], s')
    case flow => flow
  }

  ghost function ExecStmt(e: Scene, fuel: nat, stmt: Stmt, s: Config): Flow
    decreases fuel, StmtSize(stmt), 0
  {
    match stmt
    case Declare(ds) => Finished(ExecDeclare(e, ds, s))
    case ReturnWith(None) => Returned(ZERO, s)
    case ReturnWith(Some(x)) =>
      (match Eval(e.c, e.g, x, s)
       case None => Wrong
       case Some(r) => Returned(WordOf(if e.ret.Some? then Convert(e.ret.value, r.v) else r.v), r.s))
    case Evaluate(x) => Finished(Perform(e.c, e.g, x, s))
    case If(cond, yes, no) =>
      (match Eval(e.c, e.g, cond, s)
       case None => Wrong
       case Some(r) => ExecList(e, fuel, if r.v != 0 then yes else no, r.s))
    case While(cond, body) => ExecLoop(e, fuel, Some(cond), None, body, s)
    case DoWhile(body, cond) => ExecDo(e, fuel, body, cond, s)
    case For(init, test, step, body) =>
      (match ExecInit(e, init, s)
       case None => Wrong
       case Some(s') => ExecLoop(e, fuel, test, step, body, s'))
    case Switch(value, body) => ExecSwitch(e, fuel, value, SwitchBody(body), s)
    case Break => Broke(s)
    case Continue => Continued(s)
    case Scope(body) => ExecList(e, fuel, body, s)
    case _ => Next(s)
  }

  function Finished(s: Option<Config>): Flow { if s.Some? then Next(s.value) else Wrong }

  ghost function ExecInit(e: Scene, init: ForInit, s: Config): Option<Config>
  {
    match init
    case NoInit => Some(s)
    case InitExpr(x) => Perform(e.c, e.g, x, s)
    case InitDecls(ds) => ExecDeclare(e, ds, s)
  }

  /** A test that is left out is true. */
  ghost function ExecTest(e: Scene, test: Option<Expr>, s: Config): Option<Res>
  {
    match test
    case None => Some(Res(1, s))
    case Some(x) => Eval(e.c, e.g, x, s)
  }

  ghost function ExecStep(e: Scene, step: Option<Expr>, s: Config): Option<Config>
  {
    match step
    case None => Some(s)
    case Some(x) => Perform(e.c, e.g, x, s)
  }

  ghost function ExecLoop(e: Scene, fuel: nat, test: Option<Expr>, step: Option<Expr>, body: seq<Stmt>, s: Config): Flow
    decreases fuel, Size(body), 0
  {
    match ExecTest(e, test, s)
    case None => Wrong
    case Some(r) =>
      if r.v == 0 then Next(r.s) else if fuel == 0 then Exhausted else
      match ExecList(e, fuel - 1, body, r.s)
      case Broke(s') => Next(s')
      case Returned(w, s') => Returned(w, s')
      case Exhausted => Exhausted
      case Wrong => Wrong
      case flow => // the body's end and continue alike
        match ExecStep(e, step, flow.s)
        case None => Wrong
        case Some(s') => ExecLoop(e, fuel - 1, test, step, body, s')
  }

  ghost function ExecDo(e: Scene, fuel: nat, body: seq<Stmt>, cond: Expr, s: Config): Flow
    decreases fuel, Size(body), 0
  {
    if fuel == 0 then Exhausted else
    match ExecList(e, fuel - 1, body, s)
    case Broke(s') => Next(s')
    case Returned(w, s') => Returned(w, s')
    case Exhausted => Exhausted
    case Wrong => Wrong
    case flow =>
      match Eval(e.c, e.g, cond, flow.s)
      case None => Wrong
      case Some(r) => if r.v == 0 then Next(r.s) else ExecDo(e, fuel - 1, body, cond, r.s)
  }

  /** Jump to the label, then run on through later labels. */
  ghost function ExecSwitch(e: Scene, fuel: nat, value: Expr, stmts: seq<Stmt>, s: Config): Flow
    decreases fuel, Size(stmts), 2
  {
    match Eval(e.c, e.g, value, s)
    case None => Wrong
    case Some(r) =>
      var ty := ExprType(e.g, value);
      if ty.None? || !IsInteger(ty.value) then Wrong else
      match Select(e, Promote(ty.value), r.v, stmts, r.s)
      case None => Wrong
      case Some(found) =>
        var rest := if found.Some? then found else AfterDefault(stmts);
        if rest.None? then Next(r.s) else
        match ExecList(e, fuel, rest.value, r.s)
        case Broke(s') => Next(s')
        case flow => flow
  }

  lemma {:induction false} ExecAppend(e: Scene, fuel: nat, a: seq<Stmt>, b: seq<Stmt>, s: Config)
    ensures ExecList(e, fuel, a + b, s) ==
      match ExecList(e, fuel, a, s)
      case Next(s') => ExecList(e, fuel, b, s')
      case flow => flow
    decreases |a|
  {
    hide ExecStmt;
    if a == [] {
      assert a + b == b;
    } else {
      assert (a + b)[1..] == a[1..] + b;
      var flow := ExecStmt(e, fuel, a[0], s);
      if flow.Next? { ExecAppend(e, fuel, a[1..], b, flow.s); }
    }
  }
}
