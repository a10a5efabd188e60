/** Lowering of structured statements to basic blocks. The state is the number of the
    next fresh temporary and of the next fresh block; None is a compile error. */
module LowerStatements {
  import opened Options
  import opened Words
  import opened Ir
  import opened CTypes
  import opened Source
  import opened Statements
  import opened Lowering

  datatype St = St(temp: nat, block: nat)

  /** The innermost targets of break and continue. */
  datatype Jumps = Jumps(breakTo: Option<nat>, continueTo: Option<nat>)

  datatype Blocks = Blocks(blocks: seq<Block>, st: St)

  // ---- Conditions -------------------------------------------------------------------------

  /** Go to yes when cond is nonzero, else to no, by branches instead of values. */
  function LowerCondition(g: Env, bid: nat, instrs: seq<Instr>, cond: Expr, yes: nat, no: nat,
      st: St): (r: Option<Blocks>)
    ensures r.Some? ==> r.value.blocks != [] && r.value.blocks[0].id == bid
    ensures r.Some? ==> st.temp <= r.value.st.temp && st.block <= r.value.st.block
    decreases cond
  {
    match cond
    case Binary(OpLogAnd, l, r) =>
      var right := st.block;
      var a :- LowerCondition(g, bid, instrs, l, right, no, st.(block := right + 1));
      var b :- LowerCondition(g, right, [], r, yes, no, a.st);
      Some(Blocks(a.blocks + b.blocks, b.st))
    case Binary(OpLogOr, l, r) =>
      var right := st.block;
      var a :- LowerCondition(g, bid, instrs, l, yes, right, st.(block := right + 1));
      var b :- LowerCondition(g, right, [], r, yes, no, a.st);
      Some(Blocks(a.blocks + b.blocks, b.st))
    case Unary(Not, x) => LowerCondition(g, bid, instrs, x, no, yes, st)
    case Binary(op, l, r) =>
      if IsRelation(op) then LowerComparison(g, bid, instrs, op, l, r, yes, no, st)
      else LowerValueCondition(g, bid, instrs, cond, yes, no, st)
    case _ => LowerValueCondition(g, bid, instrs, cond, yes, no, st)
  }

  function LowerValueCondition(g: Env, bid: nat, instrs: seq<Instr>, cond: Expr, yes: nat, no: nat,
      st: St): (r: Option<Blocks>)
    ensures r.Some? ==> r.value.blocks != [] && r.value.blocks[0].id == bid
    ensures r.Some? ==> st.temp <= r.value.st.temp && st.block == r.value.st.block
  {
    var a :- LowerExpr(g, cond, st.temp);
    Some(Blocks([Block(bid, instrs + a.instrs, Branch(a.op, yes, no))], st.(temp := a.next)))
  }

  function LowerComparison(g: Env, bid: nat, instrs: seq<Instr>, op: Operator, l: Expr, r: Expr, yes: nat, no: nat,
      st: St): (result: Option<Blocks>)
    requires IsRelation(op)
    ensures result.Some? ==> result.value.blocks != [] && result.value.blocks[0].id == bid
    ensures result.Some? ==> st.temp <= result.value.st.temp && st.block == result.value.st.block
  {
    var tl :- ExprType(g, l);
    var tr :- ExprType(g, r);
    var ty :- ComparedType(tl, tr);
    var a :- LowerExpr(g, l, st.temp);
    var b :- LowerExpr(g, r, a.next);
    var (ac, bc) := Converted(a, b, ty);
    Some(Blocks([Block(bid, instrs + (a.instrs + b.instrs + ac.instrs + bc.instrs),
        BranchCmp(RelationOp(op, ty), ac.op, bc.op, yes, no))],
                st.(temp := bc.next)))
  }

  // ---- Declarations ------------------------------------------------------------------------

  function LowerDeclare(g: Env, ds: seq<Declarator>, n: nat): (r: Option<Effects>)
    ensures r.Some? ==> n <= r.value.next
  {
    if ds == [] then Some(Effects([], n)) else
    if ds[0].x !in g.vars then None else
    var first :- LowerDeclarator(g, ds[0], n);
    var rest :- LowerDeclare(g, ds[1..], first.next);
    Some(Effects(first.instrs + rest.instrs, rest.next))
  }

  function LowerDeclarator(g: Env, d: Declarator, n: nat): (r: Option<Effects>)
    requires d.x in g.vars
    ensures r.Some? ==> n <= r.value.next
  {
    match d.init
    case None => Some(Effects([Const(d.x, 0)], n))
    case Some(init) =>
      var a :- LowerExpr(g, init, n);
      var cc := Coerce(g.vars[d.x], a.op, a.next);
      Some(Effects(a.instrs + cc.instrs + [Copy(d.x, cc.op)], cc.next))
  }

  function LowerInit(g: Env, init: ForInit, n: nat): (r: Option<Effects>)
    ensures r.Some? ==> n <= r.value.next
  {
    match init
    case NoInit => Some(Effects([], n))
    case InitExpr(x) => LowerEffects(g, x, n)
    case InitDecls(ds) => LowerDeclare(g, ds, n)
  }

  function LowerStep(g: Env, step: Option<Expr>, n: nat): (r: Option<Effects>)
    ensures r.Some? ==> n <= r.value.next
  {
    match step
    case None => Some(Effects([], n))
    case Some(x) => LowerEffects(g, x, n)
  }

  // ---- Switch clauses ------------------------------------------------------------------------

  /** A labelled stretch of a switch body; no label means default. */
  datatype Clause = Clause(tag: Option<Expr>, body: seq<Stmt>)

  /** Add the clause being collected, if one has started. */
  function FinishClause(current: Option<Option<Expr>>, body: seq<Stmt>, clauses: seq<Clause>): seq<Clause>
  {
    if current.None? then clauses else clauses + [Clause(current.value, body)]
  }

  function CollectFrom(current: Option<Option<Expr>>, body: seq<Stmt>, clauses: seq<Clause>,
      stmts: seq<Stmt>): seq<Clause>
    decreases |stmts|
  {
    if stmts == [] then FinishClause(current, body, clauses) else
    match stmts[0]
    case Case(x) => CollectFrom(Some(Some(x)), [], FinishClause(current, body, clauses), stmts[1..])
    case Default => CollectFrom(Some(None), [], FinishClause(current, body, clauses), stmts[1..])
    case stmt => CollectFrom(current, if current.None? then body else body + [stmt], clauses, stmts[1..])
  }

  function CollectClauses(stmts: seq<Stmt>): seq<Clause> { CollectFrom(None, [], [], stmts) }

  function ClausesSize(clauses: seq<Clause>): nat
  {
    if clauses == [] then 0 else 1 + Size(clauses[0].body) + ClausesSize(clauses[1..])
  }

  lemma {:induction false} ClausesSizeAppend(a: seq<Clause>, b: seq<Clause>)
    ensures ClausesSize(a + b) == ClausesSize(a) + ClausesSize(b)
  {
    if a == [] {
      assert a + b == b;
    } else {
      assert (a + b)[1..] == a[1..] + b;
      ClausesSizeAppend(a[1..], b);
    }
  }

  lemma EmptySize()
    ensures Size([]) == 0
  {
  }

  lemma {:induction false} CollectSize(current: Option<Option<Expr>>, body: seq<Stmt>, clauses: seq<Clause>,
      stmts: seq<Stmt>)
    ensures ClausesSize(CollectFrom(current, body, clauses, stmts)) <=
      ClausesSize(clauses) + (if current.None? then 0 else 1 + Size(body)) + Size(stmts)
    decreases |stmts|
  {
    hide Size, StmtSize, ClausesSize, FinishClause;
    FinishSize(current, body, clauses);
    if stmts != [] {
      HeadSize(stmts);
      EmptySize();
      if IsLabel(stmts[0]) {
        CollectSize(Some(if stmts[0].Case? then Some(stmts[0].constant) else None), [],
            FinishClause(current, body, clauses), stmts[1..]);
      } else {
        SizeAppend(body, [stmts[0]]);
        HeadSize([stmts[0]]);
        assert [stmts[0]][1..] == [];
        CollectSize(current, if current.None? then body else body + [stmts[0]], clauses, stmts[1..]);
      }
    }
  }

  lemma FinishSize(current: Option<Option<Expr>>, body: seq<Stmt>, clauses: seq<Clause>)
    ensures ClausesSize(FinishClause(current, body, clauses)) == ClausesSize(clauses) + if current.None? then 0
        else 1 + Size(body)
  {
    if current.Some? {
      ClausesSizeAppend(clauses, [Clause(current.value, body)]);
      assert [Clause(current.value, body)][1..] == [];
    }
  }

  /** The first default clause's block, or where the switch ends. */
  function DefaultTarget(rest: nat, clauses: seq<Clause>, first: nat): nat
  {
    if clauses == [] then rest
    else if clauses[0].tag.None? then first
    else DefaultTarget(rest, clauses[1..], first + 1)
  }

  /** The case labels and their blocks; clause blocks are numbered from first on. */
  function SwitchCases(clauses: seq<Clause>, first: nat): seq<(Expr, nat)>
  {
    if clauses == [] then []
    else (if clauses[0].tag.Some? then [(clauses[0].tag.value, first)] else []) + SwitchCases(clauses[1..], first + 1)
  }

  /** Compare the value with each label in turn. */
  function LowerDispatch(g: Env, bid: nat, value: Operand, otherwise: nat, cases: seq<(Expr, nat)>,
      st: St): (r: Option<Blocks>)
    ensures r.Some? ==> r.value.blocks != [] && r.value.blocks[0].id == bid
    ensures r.Some? ==> st.temp <= r.value.st.temp && st.block <= r.value.st.block
    decreases |cases|
  {
    if cases == [] then Some(Blocks([Block(bid, [], Jump(otherwise))], st)) else
    var last := |cases| == 1;
    var next := if last then otherwise else st.block;
    var a :- LowerExpr(g, cases[0].0, st.temp);
    var block := Block(bid, a.instrs, BranchCmp(Eq, value, a.op, cases[0].1, next));
    var st' := St(a.next, if last then st.block else st.block + 1);
    if last then Some(Blocks([block], st')) else
    var rest :- LowerDispatch(g, next, value, otherwise, cases[1..], st');
    Some(Blocks([block] + rest.blocks, rest.st))
  }

  // ---- Statements -----------------------------------------------------------------------------

  /** Statements that follow the instructions already in block bid; the last block ends
      with term. Statements after a jump are dropped: without labels none is reached. */
  function LowerList(g: Env, ret: Option<CType>, j: Jumps, bid: nat, instrs: seq<Instr>, stmts: seq<Stmt>, term: Term,
      st: St): (r: Option<Blocks>)
    ensures r.Some? ==> r.value.blocks != [] && r.value.blocks[0].id == bid
    ensures r.Some? ==> st.temp <= r.value.st.temp && st.block <= r.value.st.block
    decreases Size(stmts), 1
  {
    if stmts == [] then Some(Blocks([Block(bid, instrs, term)], st)) else
    var rest := stmts[1..];
    HeadSize(stmts);
    match stmts[0]
    case ReturnWith(result) => LowerReturn(g, ret, bid, instrs, result, st)
    case Scope(body) =>
      if rest == [] then LowerList(g, ret, j, bid, instrs, body, term, st) else
      var restId := st.block;
      var a :- LowerList(g, ret, j, bid, instrs, body, Jump(restId), st.(block := restId + 1));
      var b :- LowerList(g, ret, j, restId, [], rest, term, a.st);
      Some(Blocks(a.blocks + b.blocks, b.st))
    case Declare(ds) =>
      var a :- LowerDeclare(g, ds, st.temp);
      LowerList(g, ret, j, bid, instrs + a.instrs, rest, term, st.(temp := a.next))
    case Typedef => LowerList(g, ret, j, bid, instrs, rest, term, st)
    case Evaluate(x) =>
      var a :- LowerEffects(g, x, st.temp);
      LowerList(g, ret, j, bid, instrs + a.instrs, rest, term, st.(temp := a.next))
    case While(cond, body) =>
      var a :- LowerWhile(g, ret, bid, instrs, cond, body, st);
      var b :- LowerList(g, ret, j, st.block + 2, [], rest, term, a.st);
      Some(Blocks(a.blocks + b.blocks, b.st))
    case DoWhile(body, cond) =>
      var a :- LowerDoWhile(g, ret, bid, instrs, body, cond, st);
      var b :- LowerList(g, ret, j, st.block + 2, [], rest, term, a.st);
      Some(Blocks(a.blocks + b.blocks, b.st))
    case For(init, test, step, body) =>
      var restId := st.block;
      var a :- LowerFor(g, ret, bid, instrs, init, test, step, body, restId, st.(block := restId + 1));
      var b :- LowerList(g, ret, j, restId, [], rest, term, a.st);
      Some(Blocks(a.blocks + b.blocks, b.st))
    case Switch(value, body) =>
      var v :- LowerExpr(g, value, st.temp);
      var dispatchId, restId := st.block, st.block + 1;
      var a :- LowerSwitch(g, ret, j, dispatchId, restId, v.op, SwitchBody(body), St(v.next, st.block + 2));
      var b :- LowerList(g, ret, j, restId, [], rest, term, a.st);
      Some(Blocks([Block(bid, instrs + v.instrs, Jump(dispatchId))] + a.blocks + b.blocks, b.st))
    case If(cond, yes, no) =>
      var (joinId, joined) :- LowerJoin(g, ret, j, rest, term, st.(block := st.block + 2));
      var a :- LowerIf(g, ret, j, bid, instrs, cond, yes, no, joinId, st.block, joined.st);
      Some(Blocks(a.blocks + joined.blocks, a.st))
    case Break =>
      var target :- j.breakTo;
      Some(Blocks([Block(bid, instrs, Jump(target))], st))
    case Continue =>
      var target :- j.continueTo;
      Some(Blocks([Block(bid, instrs, Jump(target))], st))
    case _ => None
  }

  function LowerReturn(g: Env, ret: Option<CType>, bid: nat, instrs: seq<Instr>, result: Option<Expr>,
      st: St): (r: Option<Blocks>)
    ensures r.Some? ==> r.value.blocks != [] && r.value.blocks[0].id == bid
    ensures r.Some? ==> st.temp <= r.value.st.temp && st.block <= r.value.st.block
  {
    match result
    case None => Some(Blocks([Block(bid, instrs, Ret(None))], st))
    case Some(x) =>
      var a :- LowerExpr(g, x, st.temp);
      var cc := if ret.Some? then Coerce(ret.value, a.op, a.next) else Code([], a.op, a.next);
      Some(Blocks([Block(bid, instrs + a.instrs + cc.instrs, Ret(Some(cc.op)))], st.(temp := cc.next)))
  }

  /** The test is block st.block, the body the next and the end of the loop the one after. */
  function LowerWhile(g: Env, ret: Option<CType>, bid: nat, instrs: seq<Instr>, cond: Expr, body: seq<Stmt>,
      st: St): (r: Option<Blocks>)
    ensures r.Some? ==> r.value.blocks != [] && r.value.blocks[0].id == bid
    ensures r.Some? ==> st.temp <= r.value.st.temp && st.block + 3 <= r.value.st.block
    decreases Size(body), 2
  {
    var condId, bodyId, restId := st.block, st.block + 1, st.block + 2;
    var a :- LowerCondition(g, condId, [], cond, bodyId, restId, st.(block := st.block + 3));
    var b :- LowerList(g, ret, Jumps(Some(restId), Some(condId)), bodyId, [], body, Jump(condId), a.st);
    Some(Blocks([Block(bid, instrs, Jump(condId))] + a.blocks + b.blocks, b.st))
  }

  /** The body is block st.block, the test the next and the end of the loop the one after. */
  function LowerDoWhile(g: Env, ret: Option<CType>, bid: nat, instrs: seq<Instr>, body: seq<Stmt>, cond: Expr,
      st: St): (r: Option<Blocks>)
    ensures r.Some? ==> r.value.blocks != [] && r.value.blocks[0].id == bid
    ensures r.Some? ==> st.temp <= r.value.st.temp && st.block + 3 <= r.value.st.block
    decreases Size(body), 2
  {
    var bodyId, condId, restId := st.block, st.block + 1, st.block + 2;
    var a :- LowerCondition(g, condId, [], cond, bodyId, restId, st.(block := st.block + 3));
    var b :- LowerList(g, ret, Jumps(Some(restId), Some(condId)), bodyId, [], body, Jump(condId), a.st);
    Some(Blocks([Block(bid, instrs, Jump(bodyId))] + b.blocks + a.blocks, b.st))
  }

  /** The branches are blocks yesId and the next; they were numbered, and what they join
      in lowered, before them. */
  function LowerIf(g: Env, ret: Option<CType>, j: Jumps, bid: nat, instrs: seq<Instr>, cond: Expr, yes: seq<Stmt>,
      no: seq<Stmt>, joinId: nat, yesId: nat, st: St): (r: Option<Blocks>)
    ensures r.Some? ==> r.value.blocks != [] && r.value.blocks[0].id == bid
    ensures r.Some? ==> st.temp <= r.value.st.temp && st.block <= r.value.st.block
    decreases Size(yes) + Size(no), 2
  {
    var a :- LowerList(g, ret, j, yesId, [], yes, Jump(joinId), st);
    var b :- if no == [] then Some(Blocks([], a.st)) else LowerList(g, ret, j, yesId + 1, [], no, Jump(joinId), a.st);
    var c :- LowerCondition(g, bid, instrs, cond, yesId, if no == [] then joinId else yesId + 1, b.st);
    Some(Blocks(c.blocks + a.blocks + b.blocks, c.st))
  }

  /** Where both branches of an if meet: the target of the jump that would end the list,
      or a fresh block with the statements after the if. */
  function LowerJoin(g: Env, ret: Option<CType>, j: Jumps, rest: seq<Stmt>, term: Term,
      st: St): (r: Option<(nat, Blocks)>)
    ensures r.Some? ==> st.temp <= r.value.1.st.temp && st.block <= r.value.1.st.block
    decreases Size(rest), 2
  {
    if rest == [] && term.Jump? then Some((term.target, Blocks([], st))) else
    var b :- LowerList(g, ret, j, st.block, [], rest, term, st.(block := st.block + 1));
    Some((st.block, b))
  }

  function LowerFor(g: Env, ret: Option<CType>, bid: nat, instrs: seq<Instr>, init: ForInit, test: Option<Expr>,
      step: Option<Expr>, body: seq<Stmt>, restId: nat, st: St): (r: Option<Blocks>)
    ensures r.Some? ==> r.value.blocks != [] && r.value.blocks[0].id == bid
    ensures r.Some? ==> st.temp <= r.value.st.temp && st.block <= r.value.st.block
    decreases Size(body), 2
  {
    var i :- LowerInit(g, init, st.temp);
    var condId, bodyId, stepId := st.block, st.block + 1, st.block + 2;
    var a :- LowerTest(g, test, condId, bodyId, restId, St(i.next, st.block + 3));
    var s :- LowerStep(g, step, a.st.temp);
    var b :- LowerList(g, ret, Jumps(Some(restId), Some(stepId)), bodyId, [], body, Jump(stepId),
        a.st.(temp := s.next));
    Some(Blocks([Block(bid, instrs + i.instrs, Jump(condId))] + a.blocks + b.blocks +
        [Block(stepId, s.instrs, Jump(condId))], b.st))
  }

  function LowerTest(g: Env, test: Option<Expr>, condId: nat, bodyId: nat, restId: nat, st: St): (r: Option<Blocks>)
    ensures r.Some? ==> r.value.blocks != [] && r.value.blocks[0].id == condId
    ensures r.Some? ==> st.temp <= r.value.st.temp && st.block <= r.value.st.block
  {
    match test
    case None => Some(Blocks([Block(condId, [], Jump(bodyId))], st))
    case Some(cond) => LowerCondition(g, condId, [], cond, bodyId, restId, st)
  }

  function LowerSwitch(g: Env, ret: Option<CType>, j: Jumps, dispatchId: nat, restId: nat, value: Operand,
      stmts: seq<Stmt>, st: St): (r: Option<Blocks>)
    ensures r.Some? ==> r.value.blocks != [] && r.value.blocks[0].id == dispatchId
    ensures r.Some? ==> st.temp <= r.value.st.temp && st.block <= r.value.st.block
    decreases Size(stmts), 3
  {
    var clauses := CollectClauses(stmts);
    CollectSize(None, [], [], stmts);
    var first := st.block;
    var a :- LowerDispatch(g, dispatchId, value, DefaultTarget(restId, clauses, first), SwitchCases(clauses, first),
        st.(block := first + |clauses|));
    var b :- LowerClauses(g, ret, Jumps(Some(restId), j.continueTo), restId, clauses, first, a.st);
    Some(Blocks(a.blocks + b.blocks, b.st))
  }

  /** Each clause falls through to the next, the last to the end of the switch. */
  function LowerClauses(g: Env, ret: Option<CType>, j: Jumps, restId: nat, clauses: seq<Clause>, first: nat,
      st: St): (r: Option<Blocks>)
    ensures r.Some? ==> st.temp <= r.value.st.temp && st.block <= r.value.st.block
    decreases ClausesSize(clauses), 2
  {
    if clauses == [] then Some(Blocks([], st)) else
    var through := if |clauses| == 1 then restId else first + 1;
    var a :- LowerList(g, ret, j, first, [], clauses[0].body, Jump(through), st);
    var b :- LowerClauses(g, ret, j, restId, clauses[1..], first + 1, a.st);
    Some(Blocks(a.blocks + b.blocks, b.st))
  }

  // ---- One step of lowering a list -----------------------------------------------------------

  lemma IfStep(g: Env, ret: Option<CType>, j: Jumps, bid: nat, instrs: seq<Instr>, stmts: seq<Stmt>, term: Term, st: St)
    requires stmts != [] && stmts[0].If? && LowerList(g, ret, j, bid, instrs, stmts, term, st).Some?
    ensures var stmt := stmts[0];
      && LowerJoin(g, ret, j, stmts[1..], term, st.(block := st.block + 2)).Some?
      && var (joinId, joined) := LowerJoin(g, ret, j, stmts[1..], term, st.(block := st.block + 2)).value;
         && LowerIf(g, ret, j, bid, instrs, stmt.cond, stmt.yes, stmt.no, joinId, st.block, joined.st).Some?
         && var a := LowerIf(g, ret, j, bid, instrs, stmt.cond, stmt.yes, stmt.no, joinId, st.block, joined.st).value;
            LowerList(g, ret, j, bid, instrs, stmts, term, st).value == Blocks(a.blocks + joined.blocks, a.st)
  {
    hide LowerIf, LowerJoin, LowerFor, LowerSwitch, LowerWhile, LowerDoWhile, LowerReturn, LowerExpr, LowerEffects,
        LowerDeclare, Size, StmtSize;
  }

  lemma ScopeStep(g: Env, ret: Option<CType>, j: Jumps, bid: nat, instrs: seq<Instr>, stmts: seq<Stmt>, term: Term,
      st: St)
    requires stmts != [] && stmts[0].Scope? && LowerList(g, ret, j, bid, instrs, stmts, term, st).Some?
    ensures var body, rest := stmts[0].body, stmts[1..];
      if rest == [] then LowerList(g, ret, j, bid, instrs, stmts, term, st) ==
          LowerList(g, ret, j, bid, instrs, body, term, st)
      else
        && LowerList(g, ret, j, bid, instrs, body, Jump(st.block), st.(block := st.block + 1)).Some?
        && var a := LowerList(g, ret, j, bid, instrs, body, Jump(st.block), st.(block := st.block + 1)).value;
           && LowerList(g, ret, j, st.block, [], rest, term, a.st).Some?
           && var b := LowerList(g, ret, j, st.block, [], rest, term, a.st).value;
              LowerList(g, ret, j, bid, instrs, stmts, term, st).value == Blocks(a.blocks + b.blocks, b.st)
  {
    hide LowerIf, LowerJoin, LowerFor, LowerSwitch, LowerWhile, LowerDoWhile, LowerReturn, LowerExpr, LowerEffects,
        LowerDeclare, Size, StmtSize;
  }

  lemma SwitchStep(g: Env, ret: Option<CType>, j: Jumps, bid: nat, instrs: seq<Instr>, stmts: seq<Stmt>, term: Term,
      st: St)
    requires stmts != [] && stmts[0].Switch? && LowerList(g, ret, j, bid, instrs, stmts, term, st).Some?
    ensures LowerExpr(g, stmts[0].value, st.temp).Some?
    ensures var v := LowerExpr(g, stmts[0].value, st.temp).value;
      var dispatchId, restId := st.block, st.block + 1;
      var sw := LowerSwitch(g, ret, j, dispatchId, restId, v.op, SwitchBody(stmts[0].body), St(v.next, st.block + 2));
      && sw.Some? && LowerList(g, ret, j, restId, [], stmts[1..], term, sw.value.st).Some?
      && var b := LowerList(g, ret, j, restId, [], stmts[1..], term, sw.value.st).value;
         LowerList(g, ret, j, bid, instrs, stmts, term, st).value ==
             Blocks([Block(bid, instrs + v.instrs, Jump(dispatchId))] + sw.value.blocks + b.blocks, b.st)
  {
    hide LowerIf, LowerJoin, LowerFor, LowerSwitch, LowerWhile, LowerDoWhile, LowerReturn, LowerExpr, LowerEffects,
        LowerDeclare, Size, StmtSize;
  }
}
