/** The blocks lowered for structured statements simulate them. */
module StatementCorrect {
  import opened Options
  import opened Words
  import opened Ir
  import opened CTypes
  import opened Integers
  import opened Source
  import opened Statements
  import opened Lowering
  import opened LowerStatements
  import opened Represent
  import opened OperatorCorrect
  import opened ExprCorrect
  import opened LoweringCorrect
  import opened SwitchClauses

  // ---- Runs of blocks ---------------------------------------------------------------------

  /** Control is at the block with an id. */
  function Arrive(blocks: seq<Block>, id: nat, m: State): (p: Progress)
    ensures p.AtBlock? ==> p.block < |blocks|
  {
    match FindBlock(blocks, id)
    case None => Undefined
    case Some(k) => AtBlock(k, m)
  }

  /** Where a terminator leads. */
  function Land(c: Context, blocks: seq<Block>, term: Term, m: State): (p: Progress)
    ensures p.AtBlock? ==> p.block < |blocks|
  {
    match RunTerm(c, term, m)
    case None => Undefined
    case Some(Return(w)) => Done(w, m)
    case Some(Goto(target)) => Arrive(blocks, target, m)
  }

  ghost predicate Goes(c: Context, blocks: seq<Block>, n: nat, p: Progress, q: Progress)
    requires p.AtBlock? ==> p.block < |blocks|
  {
    RunBlocks(c, blocks, n, p) == q
  }

  /** The blocks are found in the program under their ids. */
  predicate Placed(blocks: seq<Block>, part: seq<Block>)
  {
    forall b :: b in part ==> FindBlock(blocks, b.id).Some? && blocks[FindBlock(blocks, b.id).value] == b
  }

  lemma PlacedParts(blocks: seq<Block>, a: seq<Block>, b: seq<Block>)
    requires Placed(blocks, a + b)
    ensures Placed(blocks, a) && Placed(blocks, b)
  {
    forall x | x in a ensures FindBlock(blocks, x.id).Some? && blocks[FindBlock(blocks, x.id).value] == x {
      assert x in a + b;
    }
    forall x | x in b ensures FindBlock(blocks, x.id).Some? && blocks[FindBlock(blocks, x.id).value] == x {
      assert x in a + b;
    }
  }

  lemma {:induction false} GoesBoth(c: Context, blocks: seq<Block>, a: nat, b: nat, p: Progress, q: Progress,
      r: Progress)
    requires (p.AtBlock? ==> p.block < |blocks|) && Goes(c, blocks, a, p, q) && Goes(c, blocks, b, q, r)
    ensures Goes(c, blocks, a + b, p, r)
    decreases a
  {
    hide RunFrom, RunTerm;
    if a > 0 && p.AtBlock? { GoesBoth(c, blocks, a - 1, b, StepBlock(c, blocks, p.block, p.s), q, r); }
  }

  /** A block whose instructions run leads where its terminator says. */
  lemma BlockGoes(c: Context, blocks: seq<Block>, block: Block, m: State, m': State)
    requires Placed(blocks, [block]) && Runs(c, block.instrs, m, m')
    ensures Goes(c, blocks, 1, Arrive(blocks, block.id, m), Land(c, blocks, block.term, m'))
  {
    assert block in [block];
    var k := FindBlock(blocks, block.id).value;
    assert StepBlock(c, blocks, k, m) == Land(c, blocks, block.term, m');
    assert RunBlocks(c, blocks, 1, AtBlock(k, m)) == RunBlocks(c, blocks, 0, StepBlock(c, blocks, k, m));
  }

  lemma JumpGoes(c: Context, blocks: seq<Block>, bid: nat, instrs: seq<Instr>, target: nat, m: State, m': State)
    requires Placed(blocks, [Block(bid, instrs, Jump(target))]) && Runs(c, instrs, m, m')
    ensures Goes(c, blocks, 1, Arrive(blocks, bid, m), Arrive(blocks, target, m'))
  {
    BlockGoes(c, blocks, Block(bid, instrs, Jump(target)), m, m');
  }

  /** Instructions lowered after those already in a block. */
  lemma RunsOn(c: Context, g: Env, n: nat, next: nat, instrs: seq<Instr>, more: seq<Instr>, m0: State, m: State,
      s: Config, s': Config, m': State)
    requires Runs(c, instrs, m0, m) && Reaches(c, g, n, next, more, m, s, s', m')
    ensures Runs(c, instrs + more, m0, m') && Rel(c, g, s', m')
  {
    hide Runs, Rel;
    RunsBoth(c, instrs, more, m0, m, m');
  }

  // ---- Conditions -----------------------------------------------------------------------------

  /** Variables and fresh temporaries are storage of the function's own. */
  ghost predicate Room(c: Context, g: Env, lo: nat, hi: nat)
  {
    g.reading.AsCompiled? && VarsBelow(g, lo) && Owned(c.frame, lo, hi) && forall x :: x in g.vars ==>
        c.frame.Private(x)
  }

  lemma RoomPart(c: Context, g: Env, lo: nat, hi: nat, lo': nat, hi': nat)
    requires Room(c, g, lo, hi) && lo <= lo' <= hi' <= hi
    ensures Room(c, g, lo', hi')
  {
  }

  lemma StartsIn(c: Context, g: Env, n: nat, next: nat, hi: nat, s: Config, m: State)
    requires Room(c, g, n, hi) && next <= hi && Rel(c, g, s, m)
    ensures Starts(c, g, n, next, s, m)
  {
  }

  lemma BranchLands(c: Context, blocks: seq<Block>, op: Operand, v: int, yes: nat, no: nat, m: State)
    requires Value(c, m, op) == Some(WordOf(v)) && -M64 < v < M64
    ensures Land(c, blocks, Branch(op, yes, no), m) == Arrive(blocks, if v != 0 then yes else no, m)
  {
    hide BytesOf;
    ZeroWord(v);
  }

  lemma ValueConditionRuns(c: Context, g: Env, bid: nat, instrs: seq<Instr>, cond: Expr, yes: nat, no: nat, st: St,
      blocks: seq<Block>, s: Config, m0: State, m: State) returns (m': State)
    requires LowerValueCondition(g, bid, instrs, cond, yes, no, st).Some? && Eval(c, g, cond, s).Some?
    requires var low := LowerValueCondition(g, bid, instrs, cond, yes, no, st).value;
        Placed(blocks, low.blocks) && Room(c, g, st.temp, low.st.temp)
    requires Runs(c, instrs, m0, m) && Rel(c, g, s, m)
    ensures var r := Eval(c, g, cond, s).value;
      Goes(c, blocks, 1, Arrive(blocks, bid, m0), Arrive(blocks, if r.v != 0 then yes else no, m')) &&
          Rel(c, g, r.s, m')
  {
    hide Runs, Rel, LowerExpr, Eval, ExprType, BytesOf, Value, Arrive, Land, Goes, Pending, InRange, OperandOf;
    var a, r := LowerExpr(g, cond, st.temp).value, Eval(c, g, cond, s).value;
    StartsIn(c, g, st.temp, a.next, a.next, s, m);
    m' := ExprRuns(c, g, cond, st.temp, s, m);
    RunsOn(c, g, st.temp, a.next, instrs, a.instrs, m0, m, s, r.s, m');
    RangeBound(ExprType(g, cond).value, r.v);
    BlockGoes(c, blocks, Block(bid, instrs + a.instrs, Branch(a.op, yes, no)), m0, m');
    BranchLands(c, blocks, a.op, r.v, yes, no, m');
  }

  /** A comparison computed by its branch. */
  lemma RelationLands(c: Context, blocks: seq<Block>, op: Operator, ty: CType, a: Operand, b: Operand, x: int, y: int,
      yes: nat, no: nat, m: State)
    requires IsRelation(op) && InRange(ty, x) && InRange(ty, y) && Value(c, m, a) == Some(WordOf(x)) &&
        Value(c, m, b) == Some(WordOf(y))
    ensures Land(c, blocks, BranchCmp(RelationOp(op, ty), a, b, yes, no), m) ==
        Arrive(blocks, if Holds(op, x, y) then yes else no, m)
  {
    hide BytesOf, Compare, Holds;
    RelationWord(op, ty, x, y);
    TruthWord(Compare(RelationOp(op, ty), WordOf(x), WordOf(y)));
    WordEqual(0, 1);
  }

  /** The operands of a comparison, converted to their common type. */
  lemma ComparisonOperands(c: Context, g: Env, l: Expr, r: Expr, ty: CType, n: nat, s: Config, m: State, ra: Res,
      rb: Res) returns (m': State)
    requires LowerExpr(g, l, n).Some? && LowerExpr(g, r, LowerExpr(g, l, n).value.next).Some? &&
        ExprType(g, l).Some? && ExprType(g, r).Some?
    requires Eval(c, g, l, s) == Some(ra) && Eval(c, g, r, ra.s) == Some(rb) && Steady(Pending(l), ra.s, rb.s)
    requires var a := LowerExpr(g, l, n).value;
      var b := LowerExpr(g, r, a.next).value;
      Starts(c, g, n, Converted(a, b, ty).1.next, s, m)
    ensures var a := LowerExpr(g, l, n).value;
      var b := LowerExpr(g, r, a.next).value;
      var (ac, bc) := Converted(a, b, ty);
      && Runs(c, a.instrs + b.instrs + ac.instrs + bc.instrs, m, m') && Rel(c, g, rb.s, m')
      && Value(c, m', ac.op) == Some(WordOf(Convert(ty, ra.v))) &&
          Value(c, m', bc.op) == Some(WordOf(Convert(ty, rb.v)))
  {
    hide LowerExpr, Eval, Rel, Runs, Value, BytesOf, Steady, Pending, OperandOf, InRange, ExprType, Coerce, Convert,
        AtType, Reaches, Operands;
    var a := LowerExpr(g, l, n).value;
    var b := LowerExpr(g, r, a.next).value;
    var m1, m2 := BothRun(c, g, l, r, n, s, m, ra, rb, Converted(a, b, ty).1.next);
    AtTypeOfValue(ty, ExprType(g, l).value, ra.v);
    AtTypeOfValue(ty, ExprType(g, r).value, rb.v);
    m' := ConvertedRuns(c, m, a, b, m2, ra.v, rb.v, ty);
    AddsRel(c, g, b.next, rb.s, m2, m');
  }

  lemma BothRun(c: Context, g: Env, l: Expr, r: Expr, n: nat, s: Config, m: State, ra: Res, rb: Res, next: nat)
      returns (m1: State, m2: State)
    requires LowerExpr(g, l, n).Some? && LowerExpr(g, r, LowerExpr(g, l, n).value.next).Some?
    requires Eval(c, g, l, s) == Some(ra) && Eval(c, g, r, ra.s) == Some(rb) && Steady(Pending(l), ra.s, rb.s)
    requires LowerExpr(g, r, LowerExpr(g, l, n).value.next).value.next <= next && Starts(c, g, n, next, s, m)
    ensures ExprType(g, l).Some? && InRange(ExprType(g, l).value, ra.v) && ExprType(g, r).Some? &&
        InRange(ExprType(g, r).value, rb.v)
    ensures var a := LowerExpr(g, l, n).value;
      var b := LowerExpr(g, r, a.next).value;
      Operands(c, m, a, b, m2, ra.v, rb.v) && Rel(c, g, rb.s, m2) && VarsBelow(g, b.next) &&
          Owned(c.frame, b.next, next)
  {
    hide LowerExpr, Eval, Rel, Runs, Value, BytesOf, Steady, Pending, OperandOf, InRange, ExprType;
    var a := LowerExpr(g, l, n).value;
    var b := LowerExpr(g, r, a.next).value;
    m1 := ExprRuns(c, g, l, n, s, m);
    StartsLater(c, g, n, a.next, next, a.instrs, m, m1, s, ra.s);
    m2 := ExprRuns(c, g, r, a.next, ra.s, m1);
    ReachesBoth(c, g, n, a.next, b.next, a.instrs, b.instrs, m, m1, m2, s, ra.s, rb.s);
    ValueStays(c, g, Pending(l), a.op, n, a.next, ra.s, m1, rb.s, m2, ra.v);
    OperandUnder(g, Pending(l), a.op, n, a.next);
    OperandUnder(g, Pending(r), b.op, a.next, b.next);
  }

  lemma ComparisonRuns(c: Context, g: Env, bid: nat, instrs: seq<Instr>, op: Operator, l: Expr, r: Expr, yes: nat,
      no: nat, st: St, blocks: seq<Block>, s: Config, m0: State, m: State) returns (m': State)
    requires IsRelation(op) && LowerComparison(g, bid, instrs, op, l, r, yes, no, st).Some? &&
        EvalBinary(c, g, op, l, r, s).Some?
    requires var low := LowerComparison(g, bid, instrs, op, l, r, yes, no, st).value;
        Placed(blocks, low.blocks) && Room(c, g, st.temp, low.st.temp)
    requires Runs(c, instrs, m0, m) && Rel(c, g, s, m)
    ensures var v := EvalBinary(c, g, op, l, r, s).value;
      Goes(c, blocks, 1, Arrive(blocks, bid, m0), Arrive(blocks, if v.v != 0 then yes else no, m')) &&
          Rel(c, g, v.s, m')
  {
    hide Runs, Rel, LowerExpr, Eval, ExprType, BytesOf, Value, Arrive, Land, Goes, Pending, InRange, Steady, Coerce,
        Convert, ComparedType, Holds, RelationOp;
    var ty := ComparedType(ExprType(g, l).value, ExprType(g, r).value).value;
    var a := LowerExpr(g, l, st.temp).value;
    var b := LowerExpr(g, r, a.next).value;
    var ra := Eval(c, g, l, s).value;
    var rb := Eval(c, g, r, ra.s).value;
    var (ac, bc) := Converted(a, b, ty);
    StartsIn(c, g, st.temp, bc.next, bc.next, s, m);
    m' := ComparisonOperands(c, g, l, r, ty, st.temp, s, m, ra, rb);
    var code := a.instrs + b.instrs + ac.instrs + bc.instrs;
    RunsBoth(c, instrs, code, m0, m, m');
    BlockGoes(c, blocks, Block(bid, instrs + code, BranchCmp(RelationOp(op, ty), ac.op, bc.op, yes, no)), m0, m');
    RelationLands(c, blocks, op, ty, ac.op, bc.op, Convert(ty, ra.v), Convert(ty, rb.v), yes, no, m');
  }

  /** Conditions by branches: the same effects as the value of the condition, and control
      goes to yes exactly when that value is nonzero. */
  lemma {:induction false} ConditionRuns(c: Context, g: Env, bid: nat, instrs: seq<Instr>, cond: Expr, yes: nat,
      no: nat, st: St, blocks: seq<Block>, s: Config, m0: State, m: State) returns (n: nat, m': State)
    requires LowerCondition(g, bid, instrs, cond, yes, no, st).Some? && Eval(c, g, cond, s).Some?
    requires var low := LowerCondition(g, bid, instrs, cond, yes, no, st).value;
        Placed(blocks, low.blocks) && Room(c, g, st.temp, low.st.temp)
    requires Runs(c, instrs, m0, m) && Rel(c, g, s, m)
    ensures var r := Eval(c, g, cond, s).value;
      n >= 1 && Goes(c, blocks, n, Arrive(blocks, bid, m0), Arrive(blocks, if r.v != 0 then yes else no, m')) &&
          Rel(c, g, r.s, m')
    decreases cond
  {
    hide Runs, Rel, Arrive, Goes, Placed, Room, EvalBinary, LowerExpr, LowerComparison, LowerValueCondition;
    n := 1;
    if cond.Binary? && (cond.op.OpLogAnd? || cond.op.OpLogOr?) {
      n, m' := ShortCircuitRuns(c, g, bid, instrs, cond.op, cond.l, cond.r, yes, no, st, blocks, s, m0, m);
    } else if cond.Unary? && cond.uop.Not? {
      n, m' := ConditionRuns(c, g, bid, instrs, cond.e, no, yes, st, blocks, s, m0, m);
    } else if cond.Binary? && IsRelation(cond.op) {
      m' := ComparisonRuns(c, g, bid, instrs, cond.op, cond.l, cond.r, yes, no, st, blocks, s, m0, m);
    } else {
      m' := ValueConditionRuns(c, g, bid, instrs, cond, yes, no, st, blocks, s, m0, m);
    }
  }

  lemma ShortCircuitRuns(c: Context, g: Env, bid: nat, instrs: seq<Instr>, op: Operator, l: Expr, r: Expr, yes: nat,
      no: nat, st: St, blocks: seq<Block>, s: Config, m0: State, m: State) returns (n: nat, m': State)
    requires op.OpLogAnd? || op.OpLogOr?
    requires LowerCondition(g, bid, instrs, Binary(op, l, r), yes, no, st).Some? && EvalLogical(c, g, op, l, r, s).Some?
    requires var low := LowerCondition(g, bid, instrs, Binary(op, l, r), yes, no, st).value;
        Placed(blocks, low.blocks) && Room(c, g, st.temp, low.st.temp)
    requires Runs(c, instrs, m0, m) && Rel(c, g, s, m)
    ensures var v := EvalLogical(c, g, op, l, r, s).value;
      n >= 1 && Goes(c, blocks, n, Arrive(blocks, bid, m0), Arrive(blocks, if v.v != 0 then yes else no, m')) &&
          Rel(c, g, v.s, m')
    decreases Binary(op, l, r), 0
  {
    hide Runs, Rel, Arrive, Goes, Placed, Room, Eval, LowerExpr, LowerComparison, LowerValueCondition;
    var right := st.block;
    var a := LowerCondition(g, bid, instrs, l, if op.OpLogAnd? then right else yes, if op.OpLogAnd? then no
        else right, st.(block := right + 1)).value;
    var b := LowerCondition(g, right, [], r, yes, no, a.st).value;
    hide LowerCondition;
    PlacedParts(blocks, a.blocks, b.blocks);
    RoomPart(c, g, st.temp, b.st.temp, st.temp, a.st.temp);
    RoomPart(c, g, st.temp, b.st.temp, a.st.temp, b.st.temp);
    var ra := Eval(c, g, l, s).value;
    var n1, m1 := ConditionRuns(c, g, bid, instrs, l, if op.OpLogAnd? then right else yes, if op.OpLogAnd? then no
        else right, st.(block := right + 1), blocks, s, m0, m);
    n, m' := n1, m1;
    if (ra.v != 0) == op.OpLogAnd? {
      var rb := Eval(c, g, r, ra.s).value;
      RunsNone(c, m1);
      var n2;
      n2, m' := ConditionRuns(c, g, right, [], r, yes, no, a.st, blocks, ra.s, m1, m1);
      GoesBoth(c, blocks, n1, n2, Arrive(blocks, bid, m0), Arrive(blocks, right, m1),
          Arrive(blocks, if rb.v != 0 then yes else no, m'));
      n := n1 + n2;
    }
  }

  // ---- Flows -----------------------------------------------------------------------------------

  /** Where control is when statements have ended as the flow says: past their end by the
      terminator term, at a target of break or continue, or returned. */
  function Exit(e: Scene, blocks: seq<Block>, j: Jumps, term: Term, flow: Flow, m: State): (p: Progress)
    ensures p.AtBlock? ==> p.block < |blocks|
  {
    match flow
    case Next(_) => Land(e.c, blocks, term, m)
    case Broke(_) => if j.breakTo.Some? then Arrive(blocks, j.breakTo.value, m) else Undefined
    case Continued(_) => if j.continueTo.Some? then Arrive(blocks, j.continueTo.value, m) else Undefined
    case Returned(w, _) => Done(w, m)
    case _ => Undefined
  }

  /** The blocks have done what the statements do; a run that uses up its fuel takes at
      least as many block transitions. */
  ghost predicate Ends(e: Scene, blocks: seq<Block>, j: Jumps, term: Term, p: Progress, flow: Flow, fuel: nat, n: nat,
      m: State)
    requires p.AtBlock? ==> p.block < |blocks|
  {
    match flow
    case Wrong => true
    case Exhausted => n >= fuel && RunBlocks(e.c, blocks, n, p).AtBlock?
    case _ => n >= 1 && Goes(e.c, blocks, n, p, Exit(e, blocks, j, term, flow, m)) && Rel(e.c, e.g, flow.s, m)
  }

  /** A run in progress, continued. */
  lemma EndsLater(e: Scene, blocks: seq<Block>, j: Jumps, term: Term, p: Progress, q: Progress, flow: Flow, less: nat,
      fuel: nat, a: nat, b: nat, m: State)
    requires (p.AtBlock? ==> p.block < |blocks|) && (q.AtBlock? ==> q.block < |blocks|)
    requires Goes(e.c, blocks, a, p, q) && Ends(e, blocks, j, term, q, flow, less, b, m) && fuel <= less + a
    ensures Ends(e, blocks, j, term, p, flow, fuel, a + b, m)
  {
    hide Rel, Exit;
    GoesBoth(e.c, blocks, a, b, p, q, RunBlocks(e.c, blocks, b, q));
  }

  /** Flows other than Next do not depend on what follows. */
  lemma EndsAnyway(e: Scene, blocks: seq<Block>, j: Jumps, term: Term, term': Term, p: Progress, flow: Flow, fuel: nat,
      n: nat, m: State)
    requires (p.AtBlock? ==> p.block < |blocks|) && Ends(e, blocks, j, term, p, flow, fuel, n, m) && !flow.Next?
    ensures Ends(e, blocks, j, term', p, flow, fuel, n, m)
  {
  }

  lemma BlockEnds(e: Scene, blocks: seq<Block>, j: Jumps, block: Block, flow: Flow, term: Term, fuel: nat, m0: State,
      m: State)
    requires Placed(blocks, [block]) && Runs(e.c, block.instrs, m0, m) && !flow.Exhausted? &&
        (!flow.Wrong? ==> Rel(e.c, e.g, flow.s, m))
    requires !flow.Wrong? ==> Land(e.c, blocks, block.term, m) == Exit(e, blocks, j, term, flow, m)
    ensures Ends(e, blocks, j, term, Arrive(blocks, block.id, m0), flow, fuel, 1, m)
  {
    hide Runs, Rel, Land, Exit, Arrive;
    BlockGoes(e.c, blocks, block, m0, m);
  }

  /** The block at the head of placed blocks can be reached. */
  lemma HeadThere(blocks: seq<Block>, part: seq<Block>, m: State)
    requires Placed(blocks, part) && part != []
    ensures Arrive(blocks, part[0].id, m).AtBlock?
  {
    assert part[0] in part;
  }

  // ---- Declarations ----------------------------------------------------------------------------

  lemma SetVariable(c: Context, g: Env, x: nat, op: Operand, v: int, m: State, s: Config) returns (m': State)
    requires x in g.vars && c.frame.Private(x) && Rel(c, g, s, m) && Value(c, m, op) == Some(WordOf(v)) &&
        InRange(g.vars[x], v)
    ensures Runs(c, [Copy(x, op)], m, m') && Rel(c, g, s.(vars := s.vars[x := v]), m')
    ensures forall lo: nat :: Keeps(g, lo, m, m')
  {
    hide BytesOf, Unsigned, AtType, Convert;
    m' := Set(m, x, WordOf(v));
    BytesOfUnsigned(WordOf(v));
    AtTypeOfWord(g.vars[x], Unsigned(WordOf(v)), v);
    AtTypeItself(g.vars[x], v);
    RunsOne(c, Copy(x, op), m, m');
  }

  lemma ZeroInRange(ty: CType)
    ensures InRange(ty, 0)
  {
  }

  lemma ZeroVariable(c: Context, g: Env, x: nat, m: State, s: Config) returns (m': State)
    requires x in g.vars && c.frame.Private(x) && Rel(c, g, s, m)
    ensures Runs(c, [Const(x, 0)], m, m') && Rel(c, g, s.(vars := s.vars[x := 0]), m')
    ensures forall lo: nat :: Keeps(g, lo, m, m')
  {
    hide BytesOf, Unsigned, AtType, Convert;
    m' := Set(m, x, WordOf(0));
    BytesOfUnsigned(WordOf(0));
    ZeroInRange(g.vars[x]);
    AtTypeOfWord(g.vars[x], Unsigned(WordOf(0)), 0);
    AtTypeItself(g.vars[x], 0);
    RunsOne(c, Const(x, 0), m, m');
  }

  lemma DeclaratorRuns(e: Scene, d: Declarator, n: nat, s: Config, m: State) returns (m': State)
    requires d.x in e.g.vars && LowerDeclarator(e.g, d, n).Some? && ExecDeclarator(e, d, s).Some?
    requires Room(e.c, e.g, n, LowerDeclarator(e.g, d, n).value.next) && Rel(e.c, e.g, s, m)
    ensures var a := LowerDeclarator(e.g, d, n).value;
        Reaches(e.c, e.g, n, a.next, a.instrs, m, s, ExecDeclarator(e, d, s).value, m')
  {
    hide Rel, Runs, LowerExpr, Eval, BytesOf, Value, Coerce, Convert, ExprType, InRange, OperandOf, Pending;
    var ty := e.g.vars[d.x];
    match d.init
    case None => m' := ZeroVariable(e.c, e.g, d.x, m, s);
    case Some(init) =>
      var a, r := LowerExpr(e.g, init, n).value, Eval(e.c, e.g, init, s).value;
      var cc := Coerce(ty, a.op, a.next);
      StartsIn(e.c, e.g, n, cc.next, cc.next, s, m);
      var m1 := ExprRuns(e.c, e.g, init, n, s, m);
      var m2 := CoerceYields(e.c, e.g, Pending(init), n, a, ExprType(e.g, init).value, ty, m, s, r, m1);
      m' := SetVariable(e.c, e.g, d.x, cc.op, Convert(ty, r.v), m2, r.s);
      RunsBoth(e.c, a.instrs + cc.instrs, [Copy(d.x, cc.op)], m, m2, m');
      KeepsBoth(e.g, n, n, m, m2, m');
  }

  lemma {:induction false} DeclareRuns(e: Scene, ds: seq<Declarator>, n: nat, s: Config, m: State) returns (m': State)
    requires LowerDeclare(e.g, ds, n).Some? && ExecDeclare(e, ds, s).Some?
    requires Room(e.c, e.g, n, LowerDeclare(e.g, ds, n).value.next) && Rel(e.c, e.g, s, m)
    ensures var a := LowerDeclare(e.g, ds, n).value;
        Reaches(e.c, e.g, n, a.next, a.instrs, m, s, ExecDeclare(e, ds, s).value, m')
    decreases |ds|
  {
    hide Rel, Runs, LowerDeclarator, ExecDeclarator, Eval, Convert, Keeps;
    if ds == [] {
      m' := m;
      ReachesNone(e.c, e.g, n, m, s);
    } else {
      var s1 := ExecDeclarator(e, ds[0], s).value;
      var first := LowerDeclarator(e.g, ds[0], n).value;
      var rest := LowerDeclare(e.g, ds[1..], first.next).value;
      RoomPart(e.c, e.g, n, rest.next, n, first.next);
      RoomPart(e.c, e.g, n, rest.next, first.next, rest.next);
      var m1 := DeclaratorRuns(e, ds[0], n, s, m);
      m' := DeclareRuns(e, ds[1..], first.next, s1, m1);
      ReachesBoth(e.c, e.g, n, first.next, rest.next, first.instrs, rest.instrs, m, m1, m', s, s1,
          ExecDeclare(e, ds, s).value);
    }
  }

  lemma InitRuns(e: Scene, init: ForInit, n: nat, s: Config, m: State) returns (m': State)
    requires LowerInit(e.g, init, n).Some? && ExecInit(e, init, s).Some?
    requires Room(e.c, e.g, n, LowerInit(e.g, init, n).value.next) && Rel(e.c, e.g, s, m)
    ensures var a := LowerInit(e.g, init, n).value;
        Reaches(e.c, e.g, n, a.next, a.instrs, m, s, ExecInit(e, init, s).value, m')
  {
    hide Rel, Runs, LowerDeclare, ExecDeclare, LowerEffects, Perform;
    m' := m;
    match init
    case NoInit => ReachesNone(e.c, e.g, n, m, s);
    case InitExpr(x) =>
      StartsIn(e.c, e.g, n, LowerEffects(e.g, x, n).value.next, LowerEffects(e.g, x, n).value.next, s, m);
      m' := EffectsRun(e.c, e.g, x, n, s, m);
    case InitDecls(ds) => m' := DeclareRuns(e, ds, n, s, m);
  }

  // ---- Loops -------------------------------------------------------------------------------------

  lemma TestRuns(e: Scene, test: Option<Expr>, condId: nat, bodyId: nat, restId: nat, st: St, blocks: seq<Block>,
      s: Config, m: State) returns (n: nat, m': State)
    requires LowerTest(e.g, test, condId, bodyId, restId, st).Some? && ExecTest(e, test, s).Some?
    requires var low := LowerTest(e.g, test, condId, bodyId, restId, st).value;
        Placed(blocks, low.blocks) && Room(e.c, e.g, st.temp, low.st.temp)
    requires Rel(e.c, e.g, s, m)
    ensures var r := ExecTest(e, test, s).value;
      n >= 1 && Goes(e.c, blocks, n, Arrive(blocks, condId, m),
          Arrive(blocks, if r.v == 0 then restId else bodyId, m')) && Rel(e.c, e.g, r.s, m')
  {
    hide Rel, Runs, Goes, Arrive, LowerCondition, Eval, Placed;
    RunsNone(e.c, m);
    match test
    case None =>
      n, m' := 1, m;
      JumpGoes(e.c, blocks, condId, [], bodyId, m, m);
    case Some(cond) => n, m' := ConditionRuns(e.c, e.g, condId, [], cond, bodyId, restId, st, blocks, s, m, m);
  }

  /** What a loop's continue target leads to: the step's block, or the test itself. */
  ghost predicate StepPlaced(e: Scene, blocks: seq<Block>, step: Option<Expr>, contId: nat, condId: nat, n: nat)
  {
    if contId == condId then step.None? else
    && LowerStep(e.g, step, n).Some?
    && Placed(blocks, [Block(contId, LowerStep(e.g, step, n).value.instrs, Jump(condId))])
    && Room(e.c, e.g, n, LowerStep(e.g, step, n).value.next)
  }

  lemma StepRuns(e: Scene, blocks: seq<Block>, step: Option<Expr>, contId: nat, condId: nat, n: nat, s: Config,
      m: State) returns (k: nat, m': State)
    requires StepPlaced(e, blocks, step, contId, condId, n) && ExecStep(e, step, s).Some? && Rel(e.c, e.g, s, m)
    ensures Goes(e.c, blocks, k, Arrive(blocks, contId, m), Arrive(blocks, condId, m')) &&
        Rel(e.c, e.g, ExecStep(e, step, s).value, m')
  {
    hide Rel, Runs, Arrive, LowerEffects, Perform, Placed;
    k, m' := 0, m;
    if contId != condId {
      if step.Some? {
        StartsIn(e.c, e.g, n, LowerEffects(e.g, step.value, n).value.next, LowerEffects(e.g, step.value, n).value.next,
            s, m);
        m' := EffectsRun(e.c, e.g, step.value, n, s, m);
      } else {
        RunsNone(e.c, m);
      }
      k := 1;
      JumpGoes(e.c, blocks, contId, LowerStep(e.g, step, n).value.instrs, condId, m, m');
    }
  }

  /** A lowered loop: its test, its body, and the continue target, all placed. */
  datatype Loop = Loop(test: Option<Expr>, step: Option<Expr>, body: seq<Stmt>, condId: nat, bodyId: nat, restId: nat,
      contId: nat, atTest: St, atBody: St, atStep: nat)

  ghost predicate LoopPlaced(e: Scene, blocks: seq<Block>, l: Loop)
  {
    && LowerTest(e.g, l.test, l.condId, l.bodyId, l.restId, l.atTest).Some?
    && (var low := LowerTest(e.g, l.test, l.condId, l.bodyId, l.restId, l.atTest).value;
        Placed(blocks, low.blocks) && Room(e.c, e.g, l.atTest.temp, low.st.temp))
    && BodyPlaced(e, blocks, l)
    && StepPlaced(e, blocks, l.step, l.contId, l.condId, l.atStep)
  }

  ghost predicate BodyPlaced(e: Scene, blocks: seq<Block>, l: Loop)
  {
    var low := LowerList(e.g, e.ret, Jumps(Some(l.restId), Some(l.contId)), l.bodyId, [], l.body, Jump(l.contId),
        l.atBody);
    low.Some? && Placed(blocks, low.value.blocks) && Room(e.c, e.g, l.atBody.temp, low.value.st.temp)
  }

  /** One pass through the body, to where the loop goes on or is left. */
  lemma BodyRuns(e: Scene, fuel: nat, blocks: seq<Block>, l: Loop, s: Config, m: State) returns (n: nat, m': State)
    requires BodyPlaced(e, blocks, l) && Rel(e.c, e.g, s, m)
    ensures Ends(e, blocks, Jumps(Some(l.restId), Some(l.contId)), Jump(l.contId), Arrive(blocks, l.bodyId, m),
        ExecList(e, fuel, l.body, s), fuel, n, m')
    decreases fuel, Size(l.body), 2
  {
    hide Rel, Runs, LowerList, ExecList, Placed, Room, Ends, Arrive;
    RunsNone(e.c, m);
    n, m' := ListRuns(e, fuel, Jumps(Some(l.restId), Some(l.contId)), l.bodyId, [], l.body, Jump(l.contId), l.atBody,
        blocks, s, m, m);
  }

  lemma LandJump(c: Context, blocks: seq<Block>, target: nat, m: State)
    ensures Land(c, blocks, Jump(target), m) == Arrive(blocks, target, m)
  {
  }

  /** How a loop goes on after its body: anything but a break or return reaches the
      continue target. */
  lemma BodyLeaves(e: Scene, blocks: seq<Block>, j: Jumps, l: Loop, p: Progress, flow: Flow, fuel: nat, n: nat,
      m: State)
    requires (p.AtBlock? ==> p.block < |blocks|) &&
        Ends(e, blocks, Jumps(Some(l.restId), Some(l.contId)), Jump(l.contId), p, flow, fuel, n, m)
    ensures flow.Next? || flow.Continued? ==>
        n >= 1 && Goes(e.c, blocks, n, p, Arrive(blocks, l.contId, m)) && Rel(e.c, e.g, flow.s, m)
    ensures flow.Broke? ==> Ends(e, blocks, j, Jump(l.restId), p, Next(flow.s), fuel, n, m)
    ensures flow.Returned? || flow.Exhausted? || flow.Wrong? ==> Ends(e, blocks, j, Jump(l.restId), p, flow, fuel, n, m)
  {
    hide Rel, Goes, Arrive;
    LandJump(e.c, blocks, l.contId, m);
    LandJump(e.c, blocks, l.restId, m);
  }

  lemma {:induction false} LoopRuns(e: Scene, fuel: nat, blocks: seq<Block>, j: Jumps, l: Loop, s: Config, m: State)
      returns (n: nat, m': State)
    requires LoopPlaced(e, blocks, l) && Rel(e.c, e.g, s, m)
    ensures Ends(e, blocks, j, Jump(l.restId), Arrive(blocks, l.condId, m),
        ExecLoop(e, fuel, l.test, l.step, l.body, s), fuel, n, m')
    decreases fuel, Size(l.body), 3
  {
    hide Rel, Goes, Arrive, LowerTest, LowerStep, ExecTest, ExecStep, ExecList, Placed, Room, BodyPlaced, StepPlaced,
        Size;
    n, m' := 0, m;
    var p := Arrive(blocks, l.condId, m);
    if ExecTest(e, l.test, s).Some? {
      var r := ExecTest(e, l.test, s).value;
      var n1, m1 := TestRuns(e, l.test, l.condId, l.bodyId, l.restId, l.atTest, blocks, s, m);
      if r.v == 0 {
        LandJump(e.c, blocks, l.restId, m1);
        n, m' := n1, m1;
      } else if fuel == 0 {
        HeadThere(blocks, LowerTest(e.g, l.test, l.condId, l.bodyId, l.restId, l.atTest).value.blocks, m);
      } else {
        var flow := ExecList(e, fuel - 1, l.body, r.s);
        var q := Arrive(blocks, l.bodyId, m1);
        var n2, m2 := BodyRuns(e, fuel - 1, blocks, l, r.s, m1);
        BodyLeaves(e, blocks, j, l, q, flow, fuel - 1, n2, m2);
        hide Ends;
        if flow.Next? || flow.Continued? {
          GoesBoth(e.c, blocks, n1, n2, p, q, Arrive(blocks, l.contId, m2));
          if ExecStep(e, l.step, flow.s).Some? {
            n, m' := NextRound(e, fuel, blocks, j, l, p, n1 + n2, flow.s, m2);
          } else {
            WrongEnds(e, blocks, j, Jump(l.restId), p, fuel, n, m');
          }
        } else {
          EndsLater(e, blocks, j, Jump(l.restId), p, q, if flow.Broke? then Next(flow.s)
              else flow, fuel - 1, fuel, n1, n2, m2);
          n, m' := n1 + n2, m2;
        }
      }
    }
  }

  lemma WrongEnds(e: Scene, blocks: seq<Block>, j: Jumps, term: Term, p: Progress, fuel: nat, n: nat, m: State)
    requires p.AtBlock? ==> p.block < |blocks|
    ensures Ends(e, blocks, j, term, p, Wrong, fuel, n, m)
  {
  }

  /** From the continue target through the step to the test, and on. */
  lemma NextRound(e: Scene, fuel: nat, blocks: seq<Block>, j: Jumps, l: Loop, p: Progress, before: nat, s: Config,
      m: State) returns (n: nat, m': State)
    requires LoopPlaced(e, blocks, l) && Rel(e.c, e.g, s, m) && fuel > 0 && before >= 1 && ExecStep(e, l.step, s).Some?
    requires (p.AtBlock? ==> p.block < |blocks|) && Goes(e.c, blocks, before, p, Arrive(blocks, l.contId, m))
    ensures Ends(e, blocks, j, Jump(l.restId), p,
        ExecLoop(e, fuel - 1, l.test, l.step, l.body, ExecStep(e, l.step, s).value), fuel, n, m')
    decreases fuel, Size(l.body), 2
  {
    hide Rel, Goes, Arrive, LowerTest, LowerStep, ExecTest, ExecStep, ExecLoop, Placed, Room, BodyPlaced, StepPlaced,
        Ends, Size;
    var s1 := ExecStep(e, l.step, s).value;
    var n1, m1 := StepRuns(e, blocks, l.step, l.contId, l.condId, l.atStep, s, m);
    GoesBoth(e.c, blocks, before, n1, p, Arrive(blocks, l.contId, m), Arrive(blocks, l.condId, m1));
    var n2;
    n2, m' := LoopRuns(e, fuel - 1, blocks, j, l, s1, m1);
    EndsLater(e, blocks, j, Jump(l.restId), p, Arrive(blocks, l.condId, m1),
        ExecLoop(e, fuel - 1, l.test, l.step, l.body, s1), fuel - 1, fuel, before + n1, n2, m');
    n := before + n1 + n2;
  }

  function Before(fuel: nat): nat { if fuel == 0 then 0 else fuel - 1 }

  lemma {:induction false} DoRuns(e: Scene, fuel: nat, blocks: seq<Block>, j: Jumps, l: Loop, cond: Expr, s: Config,
      m: State) returns (n: nat, m': State)
    requires LoopPlaced(e, blocks, l) && l.test == Some(cond) && l.contId == l.condId && Rel(e.c, e.g, s, m)
    ensures Ends(e, blocks, j, Jump(l.restId), Arrive(blocks, l.bodyId, m), ExecDo(e, fuel, l.body, cond, s),
        Before(fuel), n, m')
    decreases fuel, Size(l.body), 3
  {
    hide Rel, Goes, Arrive, LowerTest, LowerStep, ExecList, Placed, Room, StepPlaced, LowerList, Eval, Size;
    n, m' := 0, m;
    var p := Arrive(blocks, l.bodyId, m);
    if fuel == 0 {
      HeadThere(blocks, LowerList(e.g, e.ret, Jumps(Some(l.restId), Some(l.contId)), l.bodyId, [], l.body,
          Jump(l.contId), l.atBody).value.blocks, m);
    } else {
      var flow := ExecList(e, fuel - 1, l.body, s);
      n, m' := BodyRuns(e, fuel - 1, blocks, l, s, m);
      BodyLeaves(e, blocks, j, l, p, flow, fuel - 1, n, m');
      if (flow.Next? || flow.Continued?) && Eval(e.c, e.g, cond, flow.s).Some? {
        var r := Eval(e.c, e.g, cond, flow.s).value;
        var n1, m1 := n, m';
        var n2, m2 := TestRuns(e, l.test, l.condId, l.bodyId, l.restId, l.atTest, blocks, flow.s, m1);
        GoesBoth(e.c, blocks, n1, n2, p, Arrive(blocks, l.condId, m1),
            Arrive(blocks, if r.v == 0 then l.restId else l.bodyId, m2));
        n, m' := n1 + n2, m2;
        if r.v == 0 {
          LandJump(e.c, blocks, l.restId, m2);
        } else {
          hide Ends;
          var n3;
          n3, m' := DoRuns(e, fuel - 1, blocks, j, l, cond, r.s, m2);
          EndsLater(e, blocks, j, Jump(l.restId), p, Arrive(blocks, l.bodyId, m2),
              ExecDo(e, fuel - 1, l.body, cond, r.s), Before(fuel - 1), fuel - 1, n, n3, m');
          n := n + n3;
        }
      }
    }
  }

  // ---- Lists -------------------------------------------------------------------------------------

  /** What follows a statement, in the block where the statement's code ends. */
  lemma RestRuns(e: Scene, fuel: nat, j: Jumps, restId: nat, rest: seq<Stmt>, term: Term, st: St, blocks: seq<Block>,
      p: Progress, flow: Flow, n1: nat, m1: State) returns (n: nat, m': State)
    requires LowerList(e.g, e.ret, j, restId, [], rest, term, st).Some?
    requires var low := LowerList(e.g, e.ret, j, restId, [], rest, term, st).value;
        Placed(blocks, low.blocks) && Room(e.c, e.g, st.temp, low.st.temp)
    requires (p.AtBlock? ==> p.block < |blocks|) && Ends(e, blocks, j, Jump(restId), p, flow, fuel, n1, m1)
    ensures Ends(e, blocks, j, term, p, if flow.Next? then ExecList(e, fuel, rest, flow.s) else flow, fuel, n, m')
    decreases fuel, Size(rest), 2
  {
    hide Rel, Runs, Arrive, LowerList, ExecList, Placed, Room, Size;
    n, m' := n1, m1;
    if flow.Next? {
      RunsNone(e.c, m1);
      LandJump(e.c, blocks, restId, m1);
      var n2;
      n2, m' := ListRuns(e, fuel, j, restId, [], rest, term, st, blocks, flow.s, m1, m1);
      EndsLater(e, blocks, j, term, p, Arrive(blocks, restId, m1), ExecList(e, fuel, rest, flow.s), fuel, fuel, n1, n2,
          m');
      n := n1 + n2;
    } else {
      EndsAnyway(e, blocks, j, Jump(restId), term, p, flow, fuel, n1, m1);
    }
  }

  // ---- Switches ------------------------------------------------------------------------------------

  /** A value read as the operand of an expression is still there when it is compared. */
  lemma {:induction false} PendingKnown(c: Context, g: Env, e: Expr, s: Config)
    requires Eval(c, g, e, s).Some?
    ensures forall x :: x in Pending(e) ==> x in Eval(c, g, e, s).value.s.vars
    decreases e
  {
    match e
    case Var(x) => VariableValue(c, g, x, s);
    case Unary(Plus, x) => PendingKnown(c, g, x, s);
    case Cast(_, x) => PendingKnown(c, g, x, s);
    case Binary(OpComma, l, r) => PendingKnown(c, g, r, Perform(c, g, l, s).value);
    case Assignment(target, x) =>
      var p := EvalPlace(c, g, target, s).value;
      PendingKnown(c, g, x, p.s);
    case _ =>
  }

  /** The operand a switch compares with its labels. */
  ghost predicate Compared(c: Context, g: Env, pending: set<nat>, op: Operand, lo: nat, hi: nat, v: int, s: Config,
      m: State)
  {
    OperandOf(g, pending, op, lo, hi) && VarsBelow(g, lo) && lo <= hi && Owned(c.frame, lo, hi) &&
        Steady(pending, s, s) &&
    Value(c, m, op) == Some(WordOf(v))
  }

  lemma {:induction false} DispatchRuns(e: Scene, ty: CType, v: int, pending: set<nat>, lo: nat, hi: nat, bid: nat,
      value: Operand, otherwise: nat, cases: seq<(Expr, nat)>, st: St, blocks: seq<Block>, s: Config, m: State)
      returns (n: nat, m': State)
    requires LowerDispatch(e.g, bid, value, otherwise, cases, st).Some? && Choose(e, ty, v, cases, s).Some?
    requires var low := LowerDispatch(e.g, bid, value, otherwise, cases, st).value;
        Placed(blocks, low.blocks) && Room(e.c, e.g, st.temp, low.st.temp)
    requires Rel(e.c, e.g, s, m) && InRange(ty, v) && hi <= st.temp &&
        Compared(e.c, e.g, pending, value, lo, hi, v, s, m)
    ensures var chosen := Choose(e, ty, v, cases, s).value;
      n >= 1 && Goes(e.c, blocks, n, Arrive(blocks, bid, m),
          Arrive(blocks, if chosen.Some? then chosen.value else otherwise, m')) && Rel(e.c, e.g, s, m')
    decreases |cases|
  {
    hide Rel, Runs, Goes, Arrive, LowerExpr, Eval, Room, Placed, Compared, Selects, InRange;
    RunsNone(e.c, m);
    n, m' := 1, m;
    if cases == [] {
      JumpGoes(e.c, blocks, bid, [], otherwise, m, m);
    } else {
      var next := if |cases| == 1 then otherwise else st.block;
      var a, r := LowerExpr(e.g, cases[0].0, st.temp).value, Eval(e.c, e.g, cases[0].0, s).value;
      var low := LowerDispatch(e.g, bid, value, otherwise, cases, st).value;
      var block := Block(bid, a.instrs, BranchCmp(Eq, value, a.op, cases[0].1, next));
      assert low.blocks == [block] + low.blocks[1..];
      PlacedParts(blocks, [block], low.blocks[1..]);
      RoomPart(e.c, e.g, st.temp, low.st.temp, st.temp, a.next);
      m' := CaseRuns(e, ty, v, pending, lo, hi, bid, value, cases[0].0, cases[0].1, next, st.temp, blocks, s, m);
      if !Selects(AsCompiled, ty, r.v, v) && |cases| > 1 {
        RoomPart(e.c, e.g, st.temp, low.st.temp, a.next, low.st.temp);
        var m1, k := m', 0;
        k, m' := DispatchRuns(e, ty, v, pending, lo, hi, next, value, otherwise, cases[1..], St(a.next, st.block + 1),
            blocks, s, m1);
        var chosen := Choose(e, ty, v, cases[1..], s).value;
        GoesBoth(e.c, blocks, 1, k, Arrive(blocks, bid, m), Arrive(blocks, next, m1),
            Arrive(blocks, if chosen.Some? then chosen.value else otherwise, m'));
        n := 1 + k;
      }
    }
  }

  /** One comparison: the case's block is entered exactly when the label selects the value. */
  lemma CaseRuns(e: Scene, ty: CType, v: int, pending: set<nat>, lo: nat, hi: nat, bid: nat, value: Operand,
      constant: Expr, target: nat, next: nat, n: nat, blocks: seq<Block>, s: Config, m: State) returns (m': State)
    requires LowerExpr(e.g, constant, n).Some? && Eval(e.c, e.g, constant, s).Some? &&
        Eval(e.c, e.g, constant, s).value.s == s
    requires InRange(ty, v) && hi <= n
    requires var a := LowerExpr(e.g, constant, n).value;
      Placed(blocks, [Block(bid, a.instrs, BranchCmp(Eq, value, a.op, target, next))]) && Room(e.c, e.g, n, a.next)
    requires Rel(e.c, e.g, s, m) && Compared(e.c, e.g, pending, value, lo, hi, v, s, m)
    ensures Goes(e.c, blocks, 1, Arrive(blocks, bid, m),
        Arrive(blocks, if Selects(AsCompiled, ty, Eval(e.c, e.g, constant, s).value.v, v) then target else next, m'))
    ensures Rel(e.c, e.g, s, m') && Compared(e.c, e.g, pending, value, lo, hi, v, s, m')
  {
    hide Rel, Runs, Goes, Arrive, LowerExpr, Eval, Placed, InRange, BytesOf, Value, OperandOf, Pending, ExprType, Land;
    var a, r := LowerExpr(e.g, constant, n).value, Eval(e.c, e.g, constant, s).value;
    StartsIn(e.c, e.g, n, a.next, a.next, s, m);
    m' := ExprRuns(e.c, e.g, constant, n, s, m);
    KeepsLower(e.g, hi, n, m, m');
    ValueStays(e.c, e.g, pending, value, lo, hi, s, m, s, m', v);
    BlockGoes(e.c, blocks, Block(bid, a.instrs, BranchCmp(Eq, value, a.op, target, next)), m, m');
    WordEqual(v, r.v);
    EqualLands(e.c, blocks, value, a.op, v, r.v, target, next, m');
  }

  lemma EqualLands(c: Context, blocks: seq<Block>, a: Operand, b: Operand, x: int, y: int, yes: nat, no: nat, m: State)
    requires Value(c, m, a) == Some(WordOf(x)) && Value(c, m, b) == Some(WordOf(y))
    ensures Land(c, blocks, BranchCmp(Eq, a, b, yes, no), m) ==
        Arrive(blocks, if WordOf(x) == WordOf(y) then yes else no, m)
  {
    hide BytesOf;
  }

  /** Entering clause k runs its statements and those of the clauses after it. */
  lemma {:induction false} ClausesRun(e: Scene, fuel: nat, j: Jumps, restId: nat, clauses: seq<Clause>, first: nat,
      k: nat, st: St, blocks: seq<Block>, s: Config, m: State) returns (n: nat, m': State)
    requires k < |clauses| && LowerClauses(e.g, e.ret, j, restId, clauses, first, st).Some?
    requires var low := LowerClauses(e.g, e.ret, j, restId, clauses, first, st).value;
        Placed(blocks, low.blocks) && Room(e.c, e.g, st.temp, low.st.temp)
    requires Rel(e.c, e.g, s, m)
    ensures Ends(e, blocks, j, Jump(restId), Arrive(blocks, first + k, m), ExecList(e, fuel, From(clauses, k), s),
        fuel, n, m')
    decreases fuel, ClausesSize(clauses), 4
  {
    hide Rel, Runs, Goes, Arrive, LowerList, ExecList, Placed, Room, Ends, Size;
    var through := if |clauses| == 1 then restId else first + 1;
    var a := LowerList(e.g, e.ret, j, first, [], clauses[0].body, Jump(through), st).value;
    var b := LowerClauses(e.g, e.ret, j, restId, clauses[1..], first + 1, a.st).value;
    PlacedParts(blocks, a.blocks, b.blocks);
    RoomPart(e.c, e.g, st.temp, b.st.temp, st.temp, a.st.temp);
    RoomPart(e.c, e.g, st.temp, b.st.temp, a.st.temp, b.st.temp);
    if k > 0 {
      n, m' := ClausesRun(e, fuel, j, restId, clauses[1..], first + 1, k - 1, a.st, blocks, s, m);
      assert clauses[1..][k..] == clauses[k + 1..];
    } else {
      RunsNone(e.c, m);
      var p := Arrive(blocks, first, m);
      n, m' := ListRuns(e, fuel, j, first, [], clauses[0].body, Jump(through), st, blocks, s, m, m);
      var flow := ExecList(e, fuel, clauses[0].body, s);
      ExecAppend(e, fuel, clauses[0].body, Flat(clauses[1..]), s);
      if |clauses| == 1 {
        FlatNone(e, fuel, clauses[1..], flow);
      } else if !flow.Next? {
        EndsAnyway(e, blocks, j, Jump(through), Jump(restId), p, flow, fuel, n, m');
      } else {
        NextGoes(e, blocks, j, through, p, flow, fuel, n, m');
        var n1, m1 := n, m';
        var n2;
        n2, m' := ClausesRun(e, fuel, j, restId, clauses[1..], first + 1, 0, a.st, blocks, flow.s, m1);
        FlatEnters(e, fuel, clauses[1..], flow.s);
        EndsLater(e, blocks, j, Jump(restId), p, Arrive(blocks, first + 1, m1),
            ExecList(e, fuel, Flat(clauses[1..]), flow.s), fuel, fuel, n1, n2, m');
        n := n1 + n2;
      }
    }
  }

  lemma NextGoes(e: Scene, blocks: seq<Block>, j: Jumps, target: nat, p: Progress, flow: Flow, fuel: nat, n: nat,
      m: State)
    requires (p.AtBlock? ==> p.block < |blocks|) && Ends(e, blocks, j, Jump(target), p, flow, fuel, n, m) && flow.Next?
    ensures n >= 1 && Goes(e.c, blocks, n, p, Arrive(blocks, target, m)) && Rel(e.c, e.g, flow.s, m)
  {
    hide Rel, Goes, Arrive;
    LandJump(e.c, blocks, target, m);
  }

  /** After the last clause there is nothing to run. */
  lemma FlatNone(e: Scene, fuel: nat, clauses: seq<Clause>, flow: Flow)
    requires clauses == []
    ensures flow.Next? ==> ExecList(e, fuel, Flat(clauses), flow.s) == flow
  {
  }

  /** A label run into is passed over. */
  lemma FlatEnters(e: Scene, fuel: nat, clauses: seq<Clause>, s: Config)
    requires clauses != []
    ensures ExecList(e, fuel, Flat(clauses), s) == ExecList(e, fuel, From(clauses, 0), s)
  {
    hide Flat, From, ExecList;
    EntersBody(clauses);
    PassesLabel(e, fuel, LabelOf(clauses[0]), From(clauses, 0), s);
  }

  lemma PassesLabel(e: Scene, fuel: nat, tag: Stmt, rest: seq<Stmt>, s: Config)
    requires IsLabel(tag)
    ensures ExecList(e, fuel, [tag] + rest, s) == ExecList(e, fuel, rest, s)
  {
    assert ([tag] + rest)[1..] == rest;
    assert ExecStmt(e, fuel, tag, s) == Next(s);
    hide ExecStmt;
  }

  /** A switch catches breaks; continues go on to the enclosing loop. */
  lemma SwitchLeaves(e: Scene, blocks: seq<Block>, j: Jumps, restId: nat, p: Progress, flow: Flow, fuel: nat, n: nat,
      m: State)
    requires (p.AtBlock? ==> p.block < |blocks|) &&
        Ends(e, blocks, Jumps(Some(restId), j.continueTo), Jump(restId), p, flow, fuel, n, m)
    ensures Ends(e, blocks, j, Jump(restId), p, if flow.Broke? then Next(flow.s) else flow, fuel, n, m)
  {
    hide Rel, Goes, Arrive;
    LandJump(e.c, blocks, restId, m);
  }

  /** From the dispatch block, with the value in its operand. */
  lemma EnterSwitch(e: Scene, fuel: nat, j: Jumps, ty: CType, v: int, pending: set<nat>, lo: nat, dispatchId: nat,
      restId: nat, value: Operand, stmts: seq<Stmt>, st: St, blocks: seq<Block>, s: Config, m: State)
      returns (n: nat, m': State)
    requires LowerSwitch(e.g, e.ret, j, dispatchId, restId, value, stmts, st).Some? && Select(e, ty, v, stmts, s).Some?
    requires var low := LowerSwitch(e.g, e.ret, j, dispatchId, restId, value, stmts, st).value;
        Placed(blocks, low.blocks) && Room(e.c, e.g, st.temp, low.st.temp)
    requires Rel(e.c, e.g, s, m) && InRange(ty, v) && Compared(e.c, e.g, pending, value, lo, st.temp, v, s, m)
    ensures var found := Select(e, ty, v, stmts, s).value;
      var rest := if found.Some? then found else AfterDefault(stmts);
      var flow := if rest.None? then Next(s) else ExecList(e, fuel, rest.value, s);
      Ends(e, blocks, j, Jump(restId), Arrive(blocks, dispatchId, m), if flow.Broke? then Next(flow.s)
          else flow, fuel, n, m')
    decreases fuel, Size(stmts), 5
  {
    hide Rel, Runs, Goes, Arrive, LowerClauses, LowerDispatch, ExecList, Placed, Room, Ends, Size, Compared, InRange,
        Select, Choose, AfterDefault, CollectClauses, DefaultTarget, SwitchCases;
    var clauses, first := CollectClauses(stmts), st.block;
    var inner := Jumps(Some(restId), j.continueTo);
    var otherwise, cases := DefaultTarget(restId, clauses, first), SwitchCases(clauses, first);
    var a := LowerDispatch(e.g, dispatchId, value, otherwise, cases, st.(block := first + |clauses|)).value;
    var b := LowerClauses(e.g, e.ret, inner, restId, clauses, first, a.st).value;
    PlacedParts(blocks, a.blocks, b.blocks);
    RoomPart(e.c, e.g, st.temp, b.st.temp, st.temp, a.st.temp);
    RoomPart(e.c, e.g, st.temp, b.st.temp, a.st.temp, b.st.temp);
    CollectWithin(stmts);
    ClausesFlat(stmts);
    SelectFromLabel(e, ty, v, stmts, s);
    ChooseSelects(e, ty, v, clauses, first, s);
    DefaultSelects(clauses, first, restId);
    var n1, m1 := DispatchRuns(e, ty, v, pending, lo, st.temp, dispatchId, value, otherwise, cases,
        st.(block := first + |clauses|), blocks, s, m);
    var chosen := Choose(e, ty, v, cases, s).value;
    var found := Select(e, ty, v, stmts, s).value;
    var rest := if found.Some? then found else AfterDefault(stmts);
    var target := if chosen.Some? then chosen.value else otherwise;
    var p := Arrive(blocks, dispatchId, m);
    if rest.Some? {
      var n2;
      n2, m' := ClausesRun(e, fuel, inner, restId, clauses, first, target - first, a.st, blocks, s, m1);
      var flow := ExecList(e, fuel, rest.value, s);
      EndsLater(e, blocks, inner, Jump(restId), p, Arrive(blocks, target, m1), flow, fuel, fuel, n1, n2, m');
      n := n1 + n2;
      SwitchLeaves(e, blocks, j, restId, p, flow, fuel, n, m');
    } else {
      n, m' := n1, m1;
      SkipEnds(e, blocks, j, restId, p, s, fuel, n, m');
    }
  }

  lemma CollectWithin(stmts: seq<Stmt>)
    ensures ClausesSize(CollectClauses(stmts)) <= Size(stmts)
  {
    CollectSize(None, [], [], stmts);
  }

  lemma SkipEnds(e: Scene, blocks: seq<Block>, j: Jumps, restId: nat, p: Progress, s: Config, fuel: nat, n: nat,
      m: State)
    requires (p.AtBlock? ==> p.block < |blocks|) && n >= 1 && Goes(e.c, blocks, n, p, Arrive(blocks, restId, m)) &&
        Rel(e.c, e.g, s, m)
    ensures Ends(e, blocks, j, Jump(restId), p, Next(s), fuel, n, m)
  {
    hide Rel, Goes, Arrive;
    LandJump(e.c, blocks, restId, m);
  }

  lemma SwitchRuns(e: Scene, fuel: nat, j: Jumps, bid: nat, instrs: seq<Instr>, value: Expr, stmts: seq<Stmt>,
      restId: nat, dispatchId: nat, block: nat, n0: nat, blocks: seq<Block>, s: Config, m0: State, m: State)
      returns (n: nat, m': State)
    requires LowerExpr(e.g, value, n0).Some?
    requires var v := LowerExpr(e.g, value, n0).value;
      var low := LowerSwitch(e.g, e.ret, j, dispatchId, restId, v.op, stmts, St(v.next, block));
      low.Some? && Placed(blocks, [Block(bid, instrs + v.instrs, Jump(dispatchId))]) &&
          Placed(blocks, low.value.blocks) && Room(e.c, e.g, n0, low.value.st.temp)
    requires Runs(e.c, instrs, m0, m) && Rel(e.c, e.g, s, m)
    ensures Ends(e, blocks, j, Jump(restId), Arrive(blocks, bid, m0), ExecSwitch(e, fuel, value, stmts, s), fuel, n, m')
    decreases fuel, Size(stmts), 6
  {
    hide Rel, Runs, Goes, Arrive, LowerExpr, Eval, LowerSwitch, ExecList, Placed, Ends, Size, InRange, Select,
        AfterDefault, ExprType, Value, OperandOf, Pending, BytesOf;
    n, m' := 0, m;
    var flow := ExecSwitch(e, fuel, value, stmts, s);
    var p := Arrive(blocks, bid, m0);
    WrongEnds(e, blocks, j, Jump(restId), p, fuel, n, m');
    if Eval(e.c, e.g, value, s).Some? && ExprType(e.g, value).Some? && IsInteger(ExprType(e.g, value).value) {
      var r, from := Eval(e.c, e.g, value, s).value, ExprType(e.g, value).value;
      var ty := Promote(from);
      var v := LowerExpr(e.g, value, n0).value;
      var low := LowerSwitch(e.g, e.ret, j, dispatchId, restId, v.op, stmts, St(v.next, block)).value;
      if Select(e, ty, r.v, stmts, r.s).Some? {
        StartsIn(e.c, e.g, n0, v.next, low.st.temp, s, m);
        var m1 := ExprRuns(e.c, e.g, value, n0, s, m);
        RunsOn(e.c, e.g, n0, v.next, instrs, v.instrs, m0, m, s, r.s, m1);
        JumpGoes(e.c, blocks, bid, instrs + v.instrs, dispatchId, m0, m1);
        PromotionPreservesValue(from, r.v);
        PendingKnown(e.c, e.g, value, s);
        RoomPart(e.c, e.g, n0, low.st.temp, v.next, low.st.temp);
        var k;
        k, m' := EnterSwitch(e, fuel, j, ty, r.v, Pending(value), n0, dispatchId, restId, v.op, stmts,
            St(v.next, block), blocks, r.s, m1);
        EndsLater(e, blocks, j, Jump(restId), p, Arrive(blocks, dispatchId, m1), flow, fuel, fuel, 1, k, m');
        n := 1 + k;
      }
    }
  }

  // ---- Loops, whole ------------------------------------------------------------------------------------

  lemma WhileRuns(e: Scene, fuel: nat, j: Jumps, bid: nat, instrs: seq<Instr>, cond: Expr, body: seq<Stmt>, st: St,
      blocks: seq<Block>, s: Config, m0: State, m: State) returns (n: nat, m': State)
    requires LowerWhile(e.g, e.ret, bid, instrs, cond, body, st).Some?
    requires var low := LowerWhile(e.g, e.ret, bid, instrs, cond, body, st).value;
        Placed(blocks, low.blocks) && Room(e.c, e.g, st.temp, low.st.temp)
    requires Runs(e.c, instrs, m0, m) && Rel(e.c, e.g, s, m)
    ensures Ends(e, blocks, j, Jump(st.block + 2), Arrive(blocks, bid, m0),
        ExecLoop(e, fuel, Some(cond), None, body, s), fuel, n, m')
    decreases fuel, Size(body), 4
  {
    hide Rel, Runs, Goes, Arrive, LowerCondition, LowerList, ExecLoop, Placed, Room, Ends, Size;
    var condId, bodyId, restId := st.block, st.block + 1, st.block + 2;
    var head := Block(bid, instrs, Jump(condId));
    var a := LowerCondition(e.g, condId, [], cond, bodyId, restId, st.(block := st.block + 3)).value;
    var b := LowerList(e.g, e.ret, Jumps(Some(restId), Some(condId)), bodyId, [], body, Jump(condId), a.st).value;
    PlacedParts(blocks, [head] + a.blocks, b.blocks);
    PlacedParts(blocks, [head], a.blocks);
    RoomPart(e.c, e.g, st.temp, b.st.temp, st.temp, a.st.temp);
    RoomPart(e.c, e.g, st.temp, b.st.temp, a.st.temp, b.st.temp);
    var l := Loop(Some(cond), None, body, condId, bodyId, restId, condId, st.(block := st.block + 3), a.st, 0);
    JumpGoes(e.c, blocks, bid, instrs, condId, m0, m);
    var k;
    k, m' := LoopRuns(e, fuel, blocks, j, l, s, m);
    EndsLater(e, blocks, j, Jump(restId), Arrive(blocks, bid, m0), Arrive(blocks, condId, m),
        ExecLoop(e, fuel, Some(cond), None, body, s), fuel, fuel, 1, k, m');
    n := 1 + k;
  }

  lemma DoWhileRuns(e: Scene, fuel: nat, j: Jumps, bid: nat, instrs: seq<Instr>, body: seq<Stmt>, cond: Expr, st: St,
      blocks: seq<Block>, s: Config, m0: State, m: State) returns (n: nat, m': State)
    requires LowerDoWhile(e.g, e.ret, bid, instrs, body, cond, st).Some?
    requires var low := LowerDoWhile(e.g, e.ret, bid, instrs, body, cond, st).value;
        Placed(blocks, low.blocks) && Room(e.c, e.g, st.temp, low.st.temp)
    requires Runs(e.c, instrs, m0, m) && Rel(e.c, e.g, s, m)
    ensures Ends(e, blocks, j, Jump(st.block + 2), Arrive(blocks, bid, m0), ExecDo(e, fuel, body, cond, s), fuel, n, m')
    decreases fuel, Size(body), 4
  {
    hide Rel, Runs, Goes, Arrive, LowerCondition, LowerList, ExecDo, Placed, Room, Ends, Size;
    var bodyId, condId, restId := st.block, st.block + 1, st.block + 2;
    var head := Block(bid, instrs, Jump(bodyId));
    var a := LowerCondition(e.g, condId, [], cond, bodyId, restId, st.(block := st.block + 3)).value;
    var b := LowerList(e.g, e.ret, Jumps(Some(restId), Some(condId)), bodyId, [], body, Jump(condId), a.st).value;
    PlacedParts(blocks, [head] + b.blocks, a.blocks);
    PlacedParts(blocks, [head], b.blocks);
    RoomPart(e.c, e.g, st.temp, b.st.temp, st.temp, a.st.temp);
    RoomPart(e.c, e.g, st.temp, b.st.temp, a.st.temp, b.st.temp);
    var l := Loop(Some(cond), None, body, condId, bodyId, restId, condId, st.(block := st.block + 3), a.st, 0);
    JumpGoes(e.c, blocks, bid, instrs, bodyId, m0, m);
    var k;
    k, m' := DoRuns(e, fuel, blocks, j, l, cond, s, m);
    EndsLater(e, blocks, j, Jump(restId), Arrive(blocks, bid, m0), Arrive(blocks, bodyId, m),
        ExecDo(e, fuel, body, cond, s), Before(fuel), fuel, 1, k, m');
    n := 1 + k;
  }

  lemma ForRuns(e: Scene, fuel: nat, j: Jumps, bid: nat, instrs: seq<Instr>, init: ForInit, test: Option<Expr>,
      step: Option<Expr>, body: seq<Stmt>, restId: nat, st: St, blocks: seq<Block>, s: Config, m0: State, m: State)
      returns (n: nat, m': State)
    requires LowerFor(e.g, e.ret, bid, instrs, init, test, step, body, restId, st).Some?
    requires var low := LowerFor(e.g, e.ret, bid, instrs, init, test, step, body, restId, st).value;
        Placed(blocks, low.blocks) && Room(e.c, e.g, st.temp, low.st.temp)
    requires Runs(e.c, instrs, m0, m) && Rel(e.c, e.g, s, m)
    ensures var started := ExecInit(e, init, s);
      Ends(e, blocks, j, Jump(restId), Arrive(blocks, bid, m0), if started.None? then Wrong
          else ExecLoop(e, fuel, test, step, body, started.value), fuel, n, m')
    decreases fuel, Size(body), 4
  {
    hide Rel, Runs, Goes, Arrive, LowerInit, LowerTest, LowerStep, LowerList, ExecInit, ExecLoop, Placed, Room, Size;
    n, m' := 0, m;
    if ExecInit(e, init, s).Some? {
      hide Ends;
      var s1 := ExecInit(e, init, s).value;
      var i := LowerInit(e.g, init, st.temp).value;
      var condId, bodyId, stepId := st.block, st.block + 1, st.block + 2;
      var a := LowerTest(e.g, test, condId, bodyId, restId, St(i.next, st.block + 3)).value;
      var t := LowerStep(e.g, step, a.st.temp).value;
      var b := LowerList(e.g, e.ret, Jumps(Some(restId), Some(stepId)), bodyId, [], body, Jump(stepId),
          a.st.(temp := t.next)).value;
      var head, tail := Block(bid, instrs + i.instrs, Jump(condId)), Block(stepId, t.instrs, Jump(condId));
      PlacedParts(blocks, [head] + a.blocks + b.blocks, [tail]);
      PlacedParts(blocks, [head] + a.blocks, b.blocks);
      PlacedParts(blocks, [head], a.blocks);
      RoomPart(e.c, e.g, st.temp, b.st.temp, st.temp, i.next);
      RoomPart(e.c, e.g, st.temp, b.st.temp, i.next, a.st.temp);
      RoomPart(e.c, e.g, st.temp, b.st.temp, a.st.temp, t.next);
      RoomPart(e.c, e.g, st.temp, b.st.temp, t.next, b.st.temp);
      var l := Loop(test, step, body, condId, bodyId, restId, stepId, St(i.next, st.block + 3), a.st.(temp := t.next),
          a.st.temp);
      var m1 := InitRuns(e, init, st.temp, s, m);
      RunsOn(e.c, e.g, st.temp, i.next, instrs, i.instrs, m0, m, s, s1, m1);
      JumpGoes(e.c, blocks, bid, instrs + i.instrs, condId, m0, m1);
      var k;
      k, m' := LoopRuns(e, fuel, blocks, j, l, s1, m1);
      EndsLater(e, blocks, j, Jump(restId), Arrive(blocks, bid, m0), Arrive(blocks, condId, m1),
          ExecLoop(e, fuel, test, step, body, s1), fuel, fuel, 1, k, m');
      n := 1 + k;
    }
  }

  // ---- Branches and returns -------------------------------------------------------------------------------

  lemma IfRuns(e: Scene, fuel: nat, j: Jumps, bid: nat, instrs: seq<Instr>, cond: Expr, yes: seq<Stmt>, no: seq<Stmt>,
      joinId: nat, yesId: nat, st: St, blocks: seq<Block>, s: Config, m0: State, m: State) returns (n: nat, m': State)
    requires LowerIf(e.g, e.ret, j, bid, instrs, cond, yes, no, joinId, yesId, st).Some?
    requires var low := LowerIf(e.g, e.ret, j, bid, instrs, cond, yes, no, joinId, yesId, st).value;
        Placed(blocks, low.blocks) && Room(e.c, e.g, st.temp, low.st.temp)
    requires Runs(e.c, instrs, m0, m) && Rel(e.c, e.g, s, m)
    ensures var r := Eval(e.c, e.g, cond, s);
      Ends(e, blocks, j, Jump(joinId), Arrive(blocks, bid, m0), if r.None? then Wrong
          else ExecList(e, fuel, if r.value.v != 0 then yes else no, r.value.s), fuel, n, m')
    decreases fuel, Size(yes) + Size(no), 3
  {
    hide Rel, Runs, Goes, Arrive, LowerCondition, LowerList, Eval, Placed, Room, Size, ExecList;
    n, m' := 0, m;
    if Eval(e.c, e.g, cond, s).Some? {
      hide Ends;
      var r := Eval(e.c, e.g, cond, s).value;
      var a := LowerList(e.g, e.ret, j, yesId, [], yes, Jump(joinId), st).value;
      var b := (if no == [] then Some(Blocks([], a.st))
          else LowerList(e.g, e.ret, j, yesId + 1, [], no, Jump(joinId), a.st)).value;
      var noId := if no == [] then joinId else yesId + 1;
      var low := LowerCondition(e.g, bid, instrs, cond, yesId, noId, b.st).value;
      PlacedParts(blocks, low.blocks + a.blocks, b.blocks);
      PlacedParts(blocks, low.blocks, a.blocks);
      RoomPart(e.c, e.g, st.temp, low.st.temp, st.temp, a.st.temp);
      RoomPart(e.c, e.g, st.temp, low.st.temp, a.st.temp, b.st.temp);
      RoomPart(e.c, e.g, st.temp, low.st.temp, b.st.temp, low.st.temp);
      var n1, m1 := ConditionRuns(e.c, e.g, bid, instrs, cond, yesId, noId, b.st, blocks, s, m0, m);
      var p := Arrive(blocks, bid, m0);
      RunsNone(e.c, m1);
      var n2;
      if r.v != 0 {
        n2, m' := ListRuns(e, fuel, j, yesId, [], yes, Jump(joinId), st, blocks, r.s, m1, m1);
        EndsLater(e, blocks, j, Jump(joinId), p, Arrive(blocks, yesId, m1), ExecList(e, fuel, yes, r.s), fuel, fuel,
            n1, n2, m');
        n := n1 + n2;
      } else if no == [] {
        n, m' := n1, m1;
        NothingRuns(e, fuel, r.s);
        SkipEnds(e, blocks, j, joinId, p, r.s, fuel, n1, m1);
      } else {
        n2, m' := ListRuns(e, fuel, j, noId, [], no, Jump(joinId), a.st, blocks, r.s, m1, m1);
        EndsLater(e, blocks, j, Jump(joinId), p, Arrive(blocks, noId, m1), ExecList(e, fuel, no, r.s), fuel, fuel, n1,
            n2, m');
        n := n1 + n2;
      }
    }
  }

  lemma NothingRuns(e: Scene, fuel: nat, s: Config)
    ensures ExecList(e, fuel, [], s) == Next(s)
  {
  }

  lemma ReturnRuns(e: Scene, fuel: nat, j: Jumps, bid: nat, instrs: seq<Instr>, result: Option<Expr>, term: Term,
      st: St, blocks: seq<Block>, s: Config, m0: State, m: State) returns (n: nat, m': State)
    requires LowerReturn(e.g, e.ret, bid, instrs, result, st).Some?
    requires var low := LowerReturn(e.g, e.ret, bid, instrs, result, st).value;
        Placed(blocks, low.blocks) && Room(e.c, e.g, st.temp, low.st.temp)
    requires Runs(e.c, instrs, m0, m) && Rel(e.c, e.g, s, m)
    ensures Ends(e, blocks, j, term, Arrive(blocks, bid, m0), ExecStmt(e, fuel, ReturnWith(result), s), fuel, n, m')
  {
    hide Rel, Runs, Arrive, LowerExpr, Eval, Placed, Ends, ExprType, Value, OperandOf, Pending, BytesOf, Coerce,
        Convert;
    n, m' := 1, m;
    var flow := ExecStmt(e, fuel, ReturnWith(result), s);
    if result.None? {
      BlockEnds(e, blocks, j, Block(bid, instrs, Ret(None)), flow, term, fuel, m0, m);
    } else if Eval(e.c, e.g, result.value, s).None? {
      WrongEnds(e, blocks, j, term, Arrive(blocks, bid, m0), fuel, n, m');
    } else {
      var x, r := result.value, Eval(e.c, e.g, result.value, s).value;
      var a := LowerExpr(e.g, x, st.temp).value;
      var cc := if e.ret.Some? then Coerce(e.ret.value, a.op, a.next) else Code([], a.op, a.next);
      StartsIn(e.c, e.g, st.temp, cc.next, cc.next, s, m);
      m' := ExprRuns(e.c, e.g, x, st.temp, s, m);
      if e.ret.Some? {
        m' := CoerceYields(e.c, e.g, Pending(x), st.temp, a, ExprType(e.g, x).value, e.ret.value, m, s, r, m');
      } else {
        assert a.instrs + [] == a.instrs;
      }
      RunsOn(e.c, e.g, st.temp, cc.next, instrs, a.instrs + cc.instrs, m0, m, s, r.s, m');
      assert instrs + (a.instrs + cc.instrs) == instrs + a.instrs + cc.instrs;
      ReturnLands(e, blocks, j, term, cc.op, flow, m');
      BlockEnds(e, blocks, j, Block(bid, instrs + a.instrs + cc.instrs, Ret(Some(cc.op))), flow, term, fuel, m0, m');
    }
  }

  lemma ReturnLands(e: Scene, blocks: seq<Block>, j: Jumps, term: Term, op: Operand, flow: Flow, m: State)
    requires flow.Returned? && Value(e.c, m, op) == Some(flow.w)
    ensures Land(e.c, blocks, Ret(Some(op)), m) == Exit(e, blocks, j, term, flow, m)
  {
  }

  // ---- All statement lists ------------------------------------------------------------------------------------

  /** What lowering a nonempty list runs through: code of the first statement that ends at
      restId, then the rest; joined as the semantics joins them. */
  lemma ListIs(e: Scene, fuel: nat, stmts: seq<Stmt>, s: Config)
    requires stmts != []
    ensures var flow := ExecStmt(e, fuel, stmts[0], s);
      ExecList(e, fuel, stmts, s) == if flow.Next? then ExecList(e, fuel, stmts[1..], flow.s) else flow
  {
    hide ExecStmt;
  }

  /** The main theorem of lowering: whatever the statements do, the blocks lowered for them
      do, with the same memory, calls and variables; and when the statements run longer
      than the fuel, the blocks run at least as long. */
  lemma {:induction false} ListRuns(e: Scene, fuel: nat, j: Jumps, bid: nat, instrs: seq<Instr>, stmts: seq<Stmt>,
      term: Term, st: St, blocks: seq<Block>, s: Config, m0: State, m: State) returns (n: nat, m': State)
    requires LowerList(e.g, e.ret, j, bid, instrs, stmts, term, st).Some?
    requires var low := LowerList(e.g, e.ret, j, bid, instrs, stmts, term, st).value;
        Placed(blocks, low.blocks) && Room(e.c, e.g, st.temp, low.st.temp)
    requires Runs(e.c, instrs, m0, m) && Rel(e.c, e.g, s, m)
    ensures Ends(e, blocks, j, term, Arrive(blocks, bid, m0), ExecList(e, fuel, stmts, s), fuel, n, m')
    decreases fuel, Size(stmts), 1
  {
    hide Rel, Runs, Goes, Arrive, Placed, Room, Size, StmtSize, Ends, Eval, Perform, LowerExpr, LowerEffects,
        LowerDeclare, ExecDeclare, LowerFor, LowerSwitch, LowerIf, LowerWhile, LowerDoWhile, LowerReturn, LowerJoin,
      ExecLoop, ExecDo, ExecSwitch, ExecInit;
    n, m' := 1, m;
    if stmts == [] {
      BlockEnds(e, blocks, j, Block(bid, instrs, term), Next(s), term, fuel, m0, m);
    } else {
      HeadSize(stmts);
      ListIs(e, fuel, stmts, s);
      hide ExecList;
      var stmt, rest := stmts[0], stmts[1..];
      match stmt
      case ReturnWith(result) => n, m' := ReturnRuns(e, fuel, j, bid, instrs, result, term, st, blocks, s, m0, m);
      case Break => BlockEnds(e, blocks, j, Block(bid, instrs, Jump(j.breakTo.value)), Broke(s), term, fuel, m0, m);
      case Continue => BlockEnds(e, blocks, j, Block(bid, instrs, Jump(j.continueTo.value)), Continued(s), term, fuel,
          m0, m);
      case Typedef => n, m' := ListRuns(e, fuel, j, bid, instrs, rest, term, st, blocks, s, m0, m);
      case Declare(ds) => n, m' := SimpleRuns(e, fuel, j, bid, instrs, stmts, term, st, blocks, s, m0, m);
      case Evaluate(x) => n, m' := SimpleRuns(e, fuel, j, bid, instrs, stmts, term, st, blocks, s, m0, m);
      case If(cond, yes, no) => n, m' := IfThenRest(e, fuel, j, bid, instrs, stmts, term, st, blocks, s, m0, m);
      case _ => n, m' := CompositeRuns(e, fuel, j, bid, instrs, stmts, term, st, blocks, s, m0, m);
    }
  }

  /** Declarations and expression statements only add instructions to their block. */
  lemma SimpleRuns(e: Scene, fuel: nat, j: Jumps, bid: nat, instrs: seq<Instr>, stmts: seq<Stmt>, term: Term, st: St,
      blocks: seq<Block>, s: Config, m0: State, m: State) returns (n: nat, m': State)
    requires stmts != [] && (stmts[0].Declare? || stmts[0].Evaluate?) &&
        LowerList(e.g, e.ret, j, bid, instrs, stmts, term, st).Some?
    requires var low := LowerList(e.g, e.ret, j, bid, instrs, stmts, term, st).value;
        Placed(blocks, low.blocks) && Room(e.c, e.g, st.temp, low.st.temp)
    requires Runs(e.c, instrs, m0, m) && Rel(e.c, e.g, s, m)
    ensures Ends(e, blocks, j, term, Arrive(blocks, bid, m0), ExecList(e, fuel, stmts, s), fuel, n, m')
    decreases fuel, Size(stmts), 0
  {
    hide Rel, Runs, Goes, Arrive, Placed, Room, Size, StmtSize, Ends, Perform, LowerEffects, LowerDeclare, ExecDeclare;
    n, m' := 1, m;
    HeadSize(stmts);
    ListIs(e, fuel, stmts, s);
    var low := LowerList(e.g, e.ret, j, bid, instrs, stmts, term, st).value;
    var a := (if stmts[0].Declare? then LowerDeclare(e.g, stmts[0].ds, st.temp)
        else LowerEffects(e.g, stmts[0].e, st.temp)).value;
    hide LowerList;
    var flow := ExecStmt(e, fuel, stmts[0], s);
    WrongEnds(e, blocks, j, term, Arrive(blocks, bid, m0), fuel, n, m');
    if flow.Next? {
      RoomPart(e.c, e.g, st.temp, low.st.temp, st.temp, a.next);
      RoomPart(e.c, e.g, st.temp, low.st.temp, a.next, low.st.temp);
      var m1;
      if stmts[0].Declare? {
        m1 := DeclareRuns(e, stmts[0].ds, st.temp, s, m);
      } else {
        StartsIn(e.c, e.g, st.temp, a.next, a.next, s, m);
        m1 := EffectsRun(e.c, e.g, stmts[0].e, st.temp, s, m);
      }
      RunsOn(e.c, e.g, st.temp, a.next, instrs, a.instrs, m0, m, s, flow.s, m1);
      n, m' := ListRuns(e, fuel, j, bid, instrs + a.instrs, stmts[1..], term, st.(temp := a.next), blocks, flow.s, m0,
          m1);
    }
  }

  lemma IfThenRest(e: Scene, fuel: nat, j: Jumps, bid: nat, instrs: seq<Instr>, stmts: seq<Stmt>, term: Term, st: St,
      blocks: seq<Block>, s: Config, m0: State, m: State) returns (n: nat, m': State)
    requires stmts != [] && stmts[0].If? && LowerList(e.g, e.ret, j, bid, instrs, stmts, term, st).Some?
    requires var low := LowerList(e.g, e.ret, j, bid, instrs, stmts, term, st).value;
        Placed(blocks, low.blocks) && Room(e.c, e.g, st.temp, low.st.temp)
    requires Runs(e.c, instrs, m0, m) && Rel(e.c, e.g, s, m)
    ensures Ends(e, blocks, j, term, Arrive(blocks, bid, m0), ExecList(e, fuel, stmts, s), fuel, n, m')
    decreases fuel, Size(stmts), 0
  {
    hide Rel, Runs, Goes, Arrive, Placed, Room, Size, StmtSize, Ends, Eval, LowerIf, LowerList;
    HeadSize(stmts);
    IfStep(e.g, e.ret, j, bid, instrs, stmts, term, st);
    ListIs(e, fuel, stmts, s);
    var stmt, rest := stmts[0], stmts[1..];
    var flow := ExecStmt(e, fuel, stmt, s);
    var (joinId, joined) := LowerJoin(e.g, e.ret, j, rest, term, st.(block := st.block + 2)).value;
    var a := LowerIf(e.g, e.ret, j, bid, instrs, stmt.cond, stmt.yes, stmt.no, joinId, st.block, joined.st).value;
    PlacedParts(blocks, a.blocks, joined.blocks);
    RoomPart(e.c, e.g, st.temp, a.st.temp, st.temp, joined.st.temp);
    RoomPart(e.c, e.g, st.temp, a.st.temp, joined.st.temp, a.st.temp);
    n, m' := IfRuns(e, fuel, j, bid, instrs, stmt.cond, stmt.yes, stmt.no, joinId, st.block, joined.st, blocks, s, m0,
        m);
    if !(rest == [] && term.Jump?) {
      hide ExecList, ExecStmt;
      n, m' := RestRuns(e, fuel, j, joinId, rest, term, st.(block := st.block + 3), blocks, Arrive(blocks, bid, m0),
          flow, n, m');
    }
  }

  /** A loop, switch or block, then the rest in the block where it ends. */
  lemma CompositeRuns(e: Scene, fuel: nat, j: Jumps, bid: nat, instrs: seq<Instr>, stmts: seq<Stmt>, term: Term,
      st: St, blocks: seq<Block>, s: Config, m0: State, m: State) returns (n: nat, m': State)
    requires stmts != [] && LowerList(e.g, e.ret, j, bid, instrs, stmts, term, st).Some?
    requires stmts[0].While? || stmts[0].DoWhile? || stmts[0].For? || stmts[0].Switch? || stmts[0].Scope?
    requires var low := LowerList(e.g, e.ret, j, bid, instrs, stmts, term, st).value;
        Placed(blocks, low.blocks) && Room(e.c, e.g, st.temp, low.st.temp)
    requires Runs(e.c, instrs, m0, m) && Rel(e.c, e.g, s, m)
    ensures Ends(e, blocks, j, term, Arrive(blocks, bid, m0), ExecList(e, fuel, stmts, s), fuel, n, m')
    decreases fuel, Size(stmts), 0
  {
    hide Rel, Runs, Goes, Arrive, Placed, Room, Size, StmtSize, Ends, LowerExpr, LowerFor, LowerSwitch, LowerWhile,
        LowerDoWhile, ExecLoop, ExecDo, ExecSwitch, ExecInit;
    HeadSize(stmts);
    ListIs(e, fuel, stmts, s);
    var stmt, rest := stmts[0], stmts[1..];
    var flow := ExecStmt(e, fuel, stmt, s);
    if stmt.Scope? && rest == [] {
      n, m' := ListRuns(e, fuel, j, bid, instrs, stmt.body, term, st, blocks, s, m0, m);
    } else {
      var restId, a := CompositePart(e, j, bid, instrs, stmts, term, st);
      var low := LowerList(e.g, e.ret, j, bid, instrs, stmts, term, st).value;
      var b := LowerList(e.g, e.ret, j, restId, [], rest, term, a.st).value;
      hide LowerList, ExecList;
      PlacedParts(blocks, a.blocks, b.blocks);
      RoomPart(e.c, e.g, st.temp, low.st.temp, st.temp, a.st.temp);
      RoomPart(e.c, e.g, st.temp, low.st.temp, a.st.temp, low.st.temp);
      n, m' := PartRuns(e, fuel, j, bid, instrs, stmt, st, restId, a, blocks, s, m0, m);
      n, m' := RestRuns(e, fuel, j, restId, rest, term, a.st, blocks, Arrive(blocks, bid, m0), flow, n, m');
    }
  }

  /** The blocks of the first statement, and the block where it ends. */
  ghost predicate PartOf(e: Scene, j: Jumps, bid: nat, instrs: seq<Instr>, stmt: Stmt, st: St, restId: nat, a: Blocks)
  {
    match stmt
    case While(cond, body) => restId == st.block + 2 && LowerWhile(e.g, e.ret, bid, instrs, cond, body, st) == Some(a)
    case DoWhile(body, cond) => restId == st.block + 2 &&
        LowerDoWhile(e.g, e.ret, bid, instrs, body, cond, st) == Some(a)
    case For(init, test, step, body) => restId == st.block &&
        LowerFor(e.g, e.ret, bid, instrs, init, test, step, body, restId, st.(block := restId + 1)) == Some(a)
    case Scope(body) => restId == st.block &&
        LowerList(e.g, e.ret, j, bid, instrs, body, Jump(restId), st.(block := restId + 1)) == Some(a)
    case Switch(value, body) =>
      restId == st.block + 1 && LowerExpr(e.g, value, st.temp).Some? &&
      var v := LowerExpr(e.g, value, st.temp).value;
      var sw := LowerSwitch(e.g, e.ret, j, st.block, restId, v.op, SwitchBody(body), St(v.next, st.block + 2));
      sw.Some? && a == Blocks([Block(bid, instrs + v.instrs, Jump(st.block))] + sw.value.blocks, sw.value.st)
    case _ => false
  }

  lemma CompositePart(e: Scene, j: Jumps, bid: nat, instrs: seq<Instr>, stmts: seq<Stmt>, term: Term, st: St)
      returns (restId: nat, a: Blocks)
    requires stmts != [] && LowerList(e.g, e.ret, j, bid, instrs, stmts, term, st).Some?
    requires stmts[0].While? || stmts[0].DoWhile? || stmts[0].For? || stmts[0].Switch? || stmts[0].Scope?
    requires !(stmts[0].Scope? && stmts[1..] == [])
    ensures PartOf(e, j, bid, instrs, stmts[0], st, restId, a) && st.temp <= a.st.temp
    ensures LowerList(e.g, e.ret, j, restId, [], stmts[1..], term, a.st).Some?
    ensures var b := LowerList(e.g, e.ret, j, restId, [], stmts[1..], term, a.st).value;
      LowerList(e.g, e.ret, j, bid, instrs, stmts, term, st).value == Blocks(a.blocks + b.blocks, b.st)
  {
    hide LowerExpr, LowerFor, LowerSwitch, LowerWhile, LowerDoWhile, LowerIf, LowerReturn, LowerJoin, LowerEffects,
        LowerDeclare, Size;
    if stmts[0].Switch? {
      restId, a := SwitchPart(e, j, bid, instrs, stmts, term, st);
    } else {
      restId, a := LoopPart(e, j, bid, instrs, stmts, term, st);
    }
  }

  lemma LoopPart(e: Scene, j: Jumps, bid: nat, instrs: seq<Instr>, stmts: seq<Stmt>, term: Term, st: St)
      returns (restId: nat, a: Blocks)
    requires stmts != [] && LowerList(e.g, e.ret, j, bid, instrs, stmts, term, st).Some?
    requires stmts[0].While? || stmts[0].DoWhile? || stmts[0].For? || stmts[0].Scope?
    requires !(stmts[0].Scope? && stmts[1..] == [])
    ensures PartOf(e, j, bid, instrs, stmts[0], st, restId, a) && st.temp <= a.st.temp
    ensures LowerList(e.g, e.ret, j, restId, [], stmts[1..], term, a.st).Some?
    ensures var b := LowerList(e.g, e.ret, j, restId, [], stmts[1..], term, a.st).value;
      LowerList(e.g, e.ret, j, bid, instrs, stmts, term, st).value == Blocks(a.blocks + b.blocks, b.st)
  {
    hide LowerExpr, LowerFor, LowerSwitch, LowerWhile, LowerDoWhile, LowerIf, LowerReturn, LowerJoin, LowerEffects,
        LowerDeclare, Size;
    match stmts[0]
    case While(cond, body) => restId, a := st.block + 2, LowerWhile(e.g, e.ret, bid, instrs, cond, body, st).value;
    case DoWhile(body, cond) => restId, a := st.block + 2, LowerDoWhile(e.g, e.ret, bid, instrs, body, cond, st).value;
    case For(init, test, step, body) => restId, a := st.block,
        LowerFor(e.g, e.ret, bid, instrs, init, test, step, body, st.block, st.(block := st.block + 1)).value;
    case Scope(body) => restId, a := st.block,
        LowerList(e.g, e.ret, j, bid, instrs, body, Jump(st.block), st.(block := st.block + 1)).value;
  }

  lemma SwitchPart(e: Scene, j: Jumps, bid: nat, instrs: seq<Instr>, stmts: seq<Stmt>, term: Term, st: St)
      returns (restId: nat, a: Blocks)
    requires stmts != [] && LowerList(e.g, e.ret, j, bid, instrs, stmts, term, st).Some? && stmts[0].Switch?
    ensures PartOf(e, j, bid, instrs, stmts[0], st, restId, a) && st.temp <= a.st.temp
    ensures LowerList(e.g, e.ret, j, restId, [], stmts[1..], term, a.st).Some?
    ensures var b := LowerList(e.g, e.ret, j, restId, [], stmts[1..], term, a.st).value;
      LowerList(e.g, e.ret, j, bid, instrs, stmts, term, st).value == Blocks(a.blocks + b.blocks, b.st)
  {
    hide LowerExpr, LowerFor, LowerSwitch, LowerWhile, LowerDoWhile, LowerIf, LowerReturn, LowerJoin, LowerEffects,
        LowerDeclare, Size;
    var v := LowerExpr(e.g, stmts[0].value, st.temp).value;
    var sw := LowerSwitch(e.g, e.ret, j, st.block, st.block + 1, v.op, SwitchBody(stmts[0].body),
        St(v.next, st.block + 2)).value;
    restId, a := st.block + 1, Blocks([Block(bid, instrs + v.instrs, Jump(st.block))] + sw.blocks, sw.st);
  }

  lemma PartRuns(e: Scene, fuel: nat, j: Jumps, bid: nat, instrs: seq<Instr>, stmt: Stmt, st: St, restId: nat,
      a: Blocks, blocks: seq<Block>, s: Config, m0: State, m: State) returns (n: nat, m': State)
    requires PartOf(e, j, bid, instrs, stmt, st, restId, a) && Placed(blocks, a.blocks) && st.temp <= a.st.temp &&
        Room(e.c, e.g, st.temp, a.st.temp)
    requires Runs(e.c, instrs, m0, m) && Rel(e.c, e.g, s, m)
    ensures Ends(e, blocks, j, Jump(restId), Arrive(blocks, bid, m0), ExecStmt(e, fuel, stmt, s), fuel, n, m')
    decreases fuel, StmtSize(stmt) - 1, 7
  {
    hide Rel, Runs, Goes, Arrive, Placed, Room, Size, Ends, LowerExpr, LowerFor, LowerSwitch, LowerWhile, LowerDoWhile,
        LowerList, ExecLoop, ExecDo, ExecSwitch, ExecInit, ExecList;
    match stmt
    case While(cond, body) => n, m' := WhileRuns(e, fuel, j, bid, instrs, cond, body, st, blocks, s, m0, m);
    case DoWhile(body, cond) => n, m' := DoWhileRuns(e, fuel, j, bid, instrs, body, cond, st, blocks, s, m0, m);
    case For(init, test, step, body) => n,
        m' := ForRuns(e, fuel, j, bid, instrs, init, test, step, body, restId, st.(block := restId + 1), blocks, s, m0,
        m);
    case Scope(body) => n, m' := ListRuns(e, fuel, j, bid, instrs, body, Jump(restId), st.(block := restId + 1),
        blocks, s, m0, m);
    case Switch(value, body) =>
      var v := LowerExpr(e.g, value, st.temp).value;
      PlacedParts(blocks, [Block(bid, instrs + v.instrs, Jump(st.block))],
          LowerSwitch(e.g, e.ret, j, st.block, restId, v.op, SwitchBody(body), St(v.next, st.block + 2)).value.blocks);
      n, m' := SwitchRuns(e, fuel, j, bid, instrs, value, SwitchBody(body), restId, st.block, st.block + 2, st.temp,
          blocks, s, m0, m);
  }
}
