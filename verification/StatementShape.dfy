/** The shape of the blocks lowered for statements: every fresh temporary is defined in
    them, and they mention nothing that is not. */
module StatementShape {
  import opened Options
  import opened Words
  import opened Ir
  import opened Allocation
  import opened Labels
  import opened CTypes
  import opened Source
  import opened Statements
  import opened Lowering
  import opened LowerStatements
  import opened Shape
  import opened ExprShape

  // ---- Counting over blocks -----------------------------------------------------------------

  lemma {:induction false} SuffixBlocks(a: seq<Block>, b: seq<Block>, k: nat, t: nat)
    requires k <= |b|
    ensures DefinesBlocks(a + b, |a| + k, t) == DefinesBlocks(b, k, t)
    ensures UsesBlocks(a + b, |a| + k, t) == UsesBlocks(b, k, t)
    ensures CondsBlocks(a + b, |a| + k, t) == CondsBlocks(b, k, t)
    decreases |b| - k
  {
    if k < |b| { SuffixBlocks(a, b, k + 1, t); }
  }

  lemma {:induction false} PrefixBlocks(a: seq<Block>, b: seq<Block>, k: nat, t: nat)
    requires k <= |a|
    ensures DefinesBlocks(a + b, k, t) == (DefinesBlocks(a, k, t) || DefinesBlocks(b, 0, t))
    ensures UsesBlocks(a + b, k, t) == UsesBlocks(a, k, t) + UsesBlocks(b, 0, t)
    ensures CondsBlocks(a + b, k, t) == CondsBlocks(a, k, t) + CondsBlocks(b, 0, t)
    decreases |a| - k
  {
    if k < |a| { PrefixBlocks(a, b, k + 1, t); } else { SuffixBlocks(a, b, 0, t); }
  }

  ghost predicate BlocksCounted(g: Env, base: nat, hi: nat, made: set<nat>, blocks: seq<Block>)
  {
    && (forall t: nat :: t in made ==> DefinesBlocks(blocks, 0, t))
    && (forall t: nat :: UsesBlocks(blocks, 0, t) > 0 ==> base <= t < hi || t in g.vars)
    && (forall t: nat :: CondsBlocks(blocks, 0, t) <= if t in made then 1 else 0)
  }

  lemma CountedBlocksJoin(g: Env, base: nat, mid: nat, hi: nat, f: set<nat>, f': set<nat>, a: seq<Block>, b: seq<Block>)
    requires BlocksCounted(g, base, mid, f, a) && BlocksCounted(g, base, hi, f', b) && mid <= hi && f !! f'
    ensures BlocksCounted(g, base, hi, f + f', a + b)
  {
    forall t: nat
      ensures DefinesBlocks(a + b, 0, t) == (DefinesBlocks(a, 0, t) || DefinesBlocks(b, 0, t))
      ensures UsesBlocks(a + b, 0, t) == UsesBlocks(a, 0, t) + UsesBlocks(b, 0, t)
      ensures CondsBlocks(a + b, 0, t) == CondsBlocks(a, 0, t) + CondsBlocks(b, 0, t)
    {
      PrefixBlocks(a, b, 0, t);
    }
  }

  /** Instructions pre, then ordinary ones. */
  predicate After(pre: seq<Instr>, list: seq<Instr>) { pre <= list && AllOrdinary(list[|pre|..]) }

  /** The first block starts with pre; apart from that all instructions are ordinary. */
  predicate Ordered(pre: seq<Instr>, blocks: seq<Block>)
  {
    (blocks == [] ==> pre == []) &&
    forall k :: 0 <= k < |blocks| ==> After(if k == 0 then pre else [], blocks[k].instrs) && Compares(blocks[k].term)
  }

  ghost predicate Formed(g: Env, base: nat, hi: nat, made: set<nat>, pre: seq<Instr>, blocks: seq<Block>)
  {
    BlocksCounted(g, base, hi, made, blocks) && Ordered(pre, blocks)
  }

  lemma FormedJoin(g: Env, base: nat, mid: nat, hi: nat, f: set<nat>, f': set<nat>, pre: seq<Instr>, a: seq<Block>,
      b: seq<Block>)
    requires Formed(g, base, mid, f, pre, a) && Formed(g, base, hi, f', [], b) && mid <= hi && f !! f'
    ensures Formed(g, base, hi, f + f', pre, a + b)
  {
    hide BlocksCounted;
    CountedBlocksJoin(g, base, mid, hi, f, f', a, b);
  }

  lemma FormedWider(g: Env, base: nat, hi: nat, hi': nat, made: set<nat>, pre: seq<Instr>, blocks: seq<Block>)
    requires Formed(g, base, hi, made, pre, blocks) && hi <= hi'
    ensures Formed(g, base, hi', made, pre, blocks)
  {
  }

  predicate TermKnown(g: Env, base: nat, hi: nat, term: Term)
  {
    match term
    case Ret(value) => value.Some? ==> Known(g, base, hi, value.value)
    case Jump(_) => true
    case Branch(a, _, _) => Known(g, base, hi, a)
    case BranchCmp(op, a, b, _, _) => IsComparison(op) && Known(g, base, hi, a) && Known(g, base, hi, b)
  }

  lemma OneBlock(g: Env, base: nat, hi: nat, made: set<nat>, pre: seq<Instr>, block: Block)
    requires Counted(g, base, hi, made, block.instrs) && After(pre, block.instrs) && TermKnown(g, base, hi, block.term)
    ensures Formed(g, base, hi, made, pre, [block])
  {
    forall t: nat
      ensures DefinesBlocks([block], 0, t) == DefinesFrom(block.instrs, 0, t)
      ensures UsesBlocks([block], 0, t) == UsesFrom(block.instrs, 0, t) + TermUses(block.term, t)
      ensures CondsBlocks([block], 0, t) == CondsFrom(block.instrs, 0, t)
    {
      assert !DefinesBlocks([block], 1, t) && UsesBlocks([block], 1, t) == 0 && CondsBlocks([block], 1, t) == 0;
    }
  }

  // ---- Code added to a block ----------------------------------------------------------------------

  /** Instructions already in a block: they define made, below n. */
  ghost predicate Begun(g: Env, base: nat, n: nat, made: set<nat>, pre: seq<Instr>, instrs: seq<Instr>)
  {
    VarsBelow(g, base) && base <= n && Counted(g, base, n, made, instrs) && (forall t :: t in made ==> t < n) &&
        After(pre, instrs)
  }

  lemma BegunEmpty(g: Env, base: nat, n: nat)
    requires VarsBelow(g, base) && base <= n
    ensures Begun(g, base, n, {}, [], [])
  {
  }

  lemma RangesJoin(made: set<nat>, lo: nat, mid: nat, hi: nat)
    requires lo <= mid <= hi && forall t :: t in made ==> t < lo
    ensures made !! Range(lo, mid) && made + Range(lo, mid) !! Range(mid, hi)
    ensures made + Range(lo, mid) + Range(mid, hi) == made + Range(lo, hi)
  {
  }

  lemma BegunMore(g: Env, base: nat, n: nat, next: nat, made: set<nat>, pre: seq<Instr>, instrs: seq<Instr>,
      more: seq<Instr>)
    requires Begun(g, base, n, made, pre, instrs) && Fresh(g, base, n, next, more)
    ensures Begun(g, base, next, made + Range(n, next), pre, instrs + more)
  {
    hide Counted;
    RangesJoin(made, n, next, next);
    CountedJoin(g, base, n, next, made, Range(n, next), instrs, more);
  }

  /** The blocks made from a block begun and lowering from st to st'. */
  ghost predicate Lowered(g: Env, base: nat, made: set<nat>, lo: nat, hi: nat, pre: seq<Instr>, blocks: seq<Block>)
  {
    Formed(g, base, hi, made + Range(lo, hi), pre, blocks)
  }

  lemma Closed(g: Env, base: nat, n: nat, next: nat, made: set<nat>, pre: seq<Instr>, instrs: seq<Instr>,
      more: seq<Instr>, bid: nat, term: Term)
    requires Begun(g, base, n, made, pre, instrs) && Fresh(g, base, n, next, more) && TermKnown(g, base, next, term)
    ensures Lowered(g, base, made, n, next, pre, [Block(bid, instrs + more, term)])
  {
    hide Counted, Formed;
    BegunMore(g, base, n, next, made, pre, instrs, more);
    OneBlock(g, base, next, made + Range(n, next), pre, Block(bid, instrs + more, term));
  }

  lemma ClosedNow(g: Env, base: nat, n: nat, made: set<nat>, pre: seq<Instr>, instrs: seq<Instr>, bid: nat, term: Term)
    requires Begun(g, base, n, made, pre, instrs) && TermKnown(g, base, n, term)
    ensures Lowered(g, base, made, n, n, pre, [Block(bid, instrs, term)])
  {
    hide Counted, Formed;
    assert instrs + [] == instrs;
    Nothing(g, base, n);
    Closed(g, base, n, n, made, pre, instrs, [], bid, term);
  }

  /** Blocks lowered one after another. */
  lemma LoweredJoin(g: Env, base: nat, made: set<nat>, lo: nat, mid: nat, hi: nat, pre: seq<Instr>, a: seq<Block>,
      b: seq<Block>)
    requires Lowered(g, base, made, lo, mid, pre, a) && Lowered(g, base, {}, mid, hi, [], b) && lo <= mid <= hi &&
        forall t :: t in made ==> t < lo
    ensures Lowered(g, base, made, lo, hi, pre, a + b)
  {
    hide Formed;
    RangesJoin(made, lo, mid, hi);
    assert {} + Range(mid, hi) == Range(mid, hi);
    FormedJoin(g, base, mid, hi, made + Range(lo, mid), Range(mid, hi), pre, a, b);
  }

  /** Blocks lowered earlier that come later in the list. */
  lemma LoweredSwap(g: Env, base: nat, made: set<nat>, lo: nat, mid: nat, hi: nat, pre: seq<Instr>, a: seq<Block>,
      b: seq<Block>)
    requires Lowered(g, base, made, mid, hi, pre, a) && Lowered(g, base, {}, lo, mid, [], b) && lo <= mid <= hi &&
        forall t :: t in made ==> t < lo
    ensures Lowered(g, base, made, lo, hi, pre, a + b)
  {
    hide BlocksCounted;
    RangesJoin(made, lo, mid, hi);
    FormedWider(g, base, mid, hi, {} + Range(lo, mid), [], b);
    assert (made + Range(mid, hi)) !! ({} + Range(lo, mid));
    FormedJoin(g, base, hi, hi, made + Range(mid, hi), {} + Range(lo, mid), pre, a, b);
    assert made + Range(mid, hi) + ({} + Range(lo, mid)) == made + Range(lo, hi);
  }

  lemma BegunBelow(g: Env, base: nat, n: nat, made: set<nat>, pre: seq<Instr>, instrs: seq<Instr>)
    requires Begun(g, base, n, made, pre, instrs)
    ensures VarsBelow(g, base) && base <= n && forall t :: t in made ==> t < n
  {
  }

  lemma BegunLater(g: Env, base: nat, n: nat, n': nat, made: set<nat>, pre: seq<Instr>, instrs: seq<Instr>)
    requires Begun(g, base, n, made, pre, instrs) && n <= n'
    ensures Begun(g, base, n', made, pre, instrs)
  {
  }

  lemma TermLater(g: Env, base: nat, n: nat, n': nat, term: Term)
    requires TermKnown(g, base, n, term) && n <= n'
    ensures TermKnown(g, base, n', term)
  {
  }

  // ---- Conditions -----------------------------------------------------------------------------------

  lemma {:induction false} ConditionFormed(g: Env, base: nat, made: set<nat>, pre: seq<Instr>, bid: nat,
      instrs: seq<Instr>, cond: Expr, yes: nat, no: nat, st: St)
    requires Begun(g, base, st.temp, made, pre, instrs) && LowerCondition(g, bid, instrs, cond, yes, no, st).Some?
    ensures var low := LowerCondition(g, bid, instrs, cond, yes, no, st).value;
        Lowered(g, base, made, st.temp, low.st.temp, pre, low.blocks)
    decreases cond
  {
    hide Begun, Lowered, LowerExpr, LowerComparison, LowerValueCondition, Fresh;
    BegunBelow(g, base, st.temp, made, pre, instrs);
    if cond.Binary? && (cond.op.OpLogAnd? || cond.op.OpLogOr?) {
      var right := st.block;
      var t, f := if cond.op.OpLogAnd? then right else yes, if cond.op.OpLogAnd? then no else right;
      var a := LowerCondition(g, bid, instrs, cond.l, t, f, st.(block := right + 1)).value;
      ConditionFormed(g, base, made, pre, bid, instrs, cond.l, t, f, st.(block := right + 1));
      BegunEmpty(g, base, a.st.temp);
      ConditionFormed(g, base, {}, [], right, [], cond.r, yes, no, a.st);
      var b := LowerCondition(g, right, [], cond.r, yes, no, a.st).value;
      LoweredJoin(g, base, made, st.temp, a.st.temp, b.st.temp, pre, a.blocks, b.blocks);
    } else if cond.Unary? && cond.uop.Not? {
      ConditionFormed(g, base, made, pre, bid, instrs, cond.e, no, yes, st);
    } else if cond.Binary? && IsRelation(cond.op) {
      ComparisonFormed(g, base, made, pre, bid, instrs, cond.op, cond.l, cond.r, yes, no, st);
    } else {
      ValueFormed(g, base, made, pre, bid, instrs, cond, yes, no, st);
    }
  }

  lemma ValueFormed(g: Env, base: nat, made: set<nat>, pre: seq<Instr>, bid: nat, instrs: seq<Instr>, cond: Expr,
      yes: nat, no: nat, st: St)
    requires Begun(g, base, st.temp, made, pre, instrs) && LowerValueCondition(g, bid, instrs, cond, yes, no, st).Some?
    ensures var low := LowerValueCondition(g, bid, instrs, cond, yes, no, st).value;
        Lowered(g, base, made, st.temp, low.st.temp, pre, low.blocks)
  {
    hide Begun, Lowered, LowerExpr, Fresh;
    BegunBelow(g, base, st.temp, made, pre, instrs);
    ExprGood(g, base, cond, st.temp);
    var a := LowerExpr(g, cond, st.temp).value;
    Closed(g, base, st.temp, a.next, made, pre, instrs, a.instrs, bid, Branch(a.op, yes, no));
  }

  lemma RelationCompares(op: Operator, ty: CType)
    requires IsRelation(op)
    ensures IsComparison(RelationOp(op, ty))
  {
  }

  lemma ComparisonFormed(g: Env, base: nat, made: set<nat>, pre: seq<Instr>, bid: nat, instrs: seq<Instr>,
      op: Operator, l: Expr, r: Expr, yes: nat, no: nat, st: St)
    requires IsRelation(op) && Begun(g, base, st.temp, made, pre, instrs) &&
        LowerComparison(g, bid, instrs, op, l, r, yes, no, st).Some?
    ensures var low := LowerComparison(g, bid, instrs, op, l, r, yes, no, st).value;
        Lowered(g, base, made, st.temp, low.st.temp, pre, low.blocks)
  {
    hide Begun, Lowered, LowerExpr, Fresh, RelationOp, Coerce, ExprType;
    BegunBelow(g, base, st.temp, made, pre, instrs);
    var ty := ComparedType(ExprType(g, l).value, ExprType(g, r).value).value;
    var a := LowerExpr(g, l, st.temp).value;
    var b := LowerExpr(g, r, a.next).value;
    var (ac, bc) := Converted(a, b, ty);
    ExprGood(g, base, l, st.temp);
    FreshOrder(g, base, st.temp, a.next, a.instrs);
    ExprGood(g, base, r, a.next);
    PairGood(g, base, st.temp, a, b);
    ConvertedGood(g, base, st.temp, a, b, ty);
    RelationCompares(op, ty);
    Closed(g, base, st.temp, bc.next, made, pre, instrs, a.instrs + b.instrs + ac.instrs + bc.instrs, bid,
        BranchCmp(RelationOp(op, ty), ac.op, bc.op, yes, no));
  }

  // ---- Declarations ------------------------------------------------------------------------------------

  lemma {:induction false} DeclareGood(g: Env, base: nat, ds: seq<Declarator>, n: nat)
    requires VarsBelow(g, base) && base <= n && LowerDeclare(g, ds, n).Some?
    ensures var a := LowerDeclare(g, ds, n).value; Fresh(g, base, n, a.next, a.instrs)
    decreases |ds|
  {
    hide Shaped, LowerDeclarator;
    if ds == [] {
      Nothing(g, base, n);
    } else {
      var first := LowerDeclarator(g, ds[0], n).value;
      var rest := LowerDeclare(g, ds[1..], first.next).value;
      DeclaratorGood(g, base, ds[0], n);
      DeclareGood(g, base, ds[1..], first.next);
      Both(g, base, n, first.next, rest.next, first.instrs, rest.instrs);
    }
  }

  lemma DeclaratorGood(g: Env, base: nat, d: Declarator, n: nat)
    requires VarsBelow(g, base) && base <= n && d.x in g.vars && LowerDeclarator(g, d, n).Some?
    ensures var a := LowerDeclarator(g, d, n).value; Fresh(g, base, n, a.next, a.instrs)
  {
    hide Shaped, LowerExpr, Coerce;
    if d.init.None? {
      Same(g, base, n, Const(d.x, 0));
    } else {
      var a := LowerExpr(g, d.init.value, n).value;
      var cc := Coerce(g.vars[d.x], a.op, a.next);
      ExprGood(g, base, d.init.value, n);
      CoercedGood(g, base, n, a.next, a.instrs, g.vars[d.x], a.op);
      Same(g, base, cc.next, Copy(d.x, cc.op));
      Both(g, base, n, cc.next, cc.next, a.instrs + cc.instrs, [Copy(d.x, cc.op)]);
    }
  }

  lemma InitGood(g: Env, base: nat, init: ForInit, n: nat)
    requires VarsBelow(g, base) && base <= n && LowerInit(g, init, n).Some?
    ensures var a := LowerInit(g, init, n).value; Fresh(g, base, n, a.next, a.instrs)
  {
    hide Shaped, LowerEffects, LowerDeclare;
    match init
    case NoInit => Nothing(g, base, n);
    case InitExpr(x) => EffectsGood(g, base, x, n);
    case InitDecls(ds) => DeclareGood(g, base, ds, n);
  }

  lemma StepFresh(g: Env, base: nat, step: Option<Expr>, n: nat)
    requires VarsBelow(g, base) && base <= n && LowerStep(g, step, n).Some?
    ensures var a := LowerStep(g, step, n).value; Fresh(g, base, n, a.next, a.instrs)
  {
    hide Shaped, LowerEffects;
    if step.None? { Nothing(g, base, n); } else { EffectsGood(g, base, step.value, n); }
  }

  // ---- Statements -----------------------------------------------------------------------------------------

  lemma TestFormed(g: Env, base: nat, test: Option<Expr>, condId: nat, bodyId: nat, restId: nat, st: St)
    requires VarsBelow(g, base) && base <= st.temp && LowerTest(g, test, condId, bodyId, restId, st).Some?
    ensures var low := LowerTest(g, test, condId, bodyId, restId, st).value;
        Lowered(g, base, {}, st.temp, low.st.temp, [], low.blocks)
  {
    hide Begun, Lowered, LowerCondition;
    BegunEmpty(g, base, st.temp);
    if test.None? {
      ClosedNow(g, base, st.temp, {}, [], [], condId, Jump(bodyId));
    } else {
      ConditionFormed(g, base, {}, [], condId, [], test.value, bodyId, restId, st);
    }
  }

  lemma ReturnFormed(g: Env, base: nat, made: set<nat>, pre: seq<Instr>, ret: Option<CType>, bid: nat,
      instrs: seq<Instr>, result: Option<Expr>, st: St)
    requires Begun(g, base, st.temp, made, pre, instrs) && LowerReturn(g, ret, bid, instrs, result, st).Some?
    ensures var low := LowerReturn(g, ret, bid, instrs, result, st).value;
        Lowered(g, base, made, st.temp, low.st.temp, pre, low.blocks)
  {
    hide Begun, Lowered, LowerExpr, Coerce, Fresh;
    BegunBelow(g, base, st.temp, made, pre, instrs);
    if result.None? {
      ClosedNow(g, base, st.temp, made, pre, instrs, bid, Ret(None));
    } else {
      var a := LowerExpr(g, result.value, st.temp).value;
      ExprGood(g, base, result.value, st.temp);
      if ret.Some? {
        var cc := Coerce(ret.value, a.op, a.next);
        CoercedGood(g, base, st.temp, a.next, a.instrs, ret.value, a.op);
        Closed(g, base, st.temp, cc.next, made, pre, instrs, a.instrs + cc.instrs, bid, Ret(Some(cc.op)));
        assert instrs + (a.instrs + cc.instrs) == instrs + a.instrs + cc.instrs;
      } else {
        Closed(g, base, st.temp, a.next, made, pre, instrs, a.instrs, bid, Ret(Some(a.op)));
        assert instrs + a.instrs + [] == instrs + a.instrs;
      }
    }
  }

  lemma {:induction false} DispatchFormed(g: Env, base: nat, bid: nat, value: Operand, otherwise: nat,
      cases: seq<(Expr, nat)>, st: St)
    requires VarsBelow(g, base) && base <= st.temp && Known(g, base, st.temp, value) &&
        LowerDispatch(g, bid, value, otherwise, cases, st).Some?
    ensures var low := LowerDispatch(g, bid, value, otherwise, cases, st).value;
        Lowered(g, base, {}, st.temp, low.st.temp, [], low.blocks)
    decreases |cases|
  {
    hide Begun, Lowered, LowerExpr, Fresh;
    BegunEmpty(g, base, st.temp);
    if cases == [] {
      ClosedNow(g, base, st.temp, {}, [], [], bid, Jump(otherwise));
    } else {
      var next := if |cases| == 1 then otherwise else st.block;
      var a := LowerExpr(g, cases[0].0, st.temp).value;
      ExprGood(g, base, cases[0].0, st.temp);
      FreshOrder(g, base, st.temp, a.next, a.instrs);
      KnownLater(g, base, st.temp, a.next, value);
      var block := Block(bid, a.instrs, BranchCmp(Eq, value, a.op, cases[0].1, next));
      assert [] + a.instrs == a.instrs;
      Closed(g, base, st.temp, a.next, {}, [], [], a.instrs, bid, block.term);
      if |cases| > 1 {
        var rest := LowerDispatch(g, next, value, otherwise, cases[1..], St(a.next, st.block + 1)).value;
        DispatchFormed(g, base, next, value, otherwise, cases[1..], St(a.next, st.block + 1));
        LoweredJoin(g, base, {}, st.temp, a.next, rest.st.temp, [], [block], rest.blocks);
      }
    }
  }

  lemma {:induction false} ClausesFormed(g: Env, base: nat, ret: Option<CType>, j: Jumps, restId: nat,
      clauses: seq<Clause>, first: nat, st: St)
    requires VarsBelow(g, base) && base <= st.temp && LowerClauses(g, ret, j, restId, clauses, first, st).Some?
    ensures var low := LowerClauses(g, ret, j, restId, clauses, first, st).value;
        Lowered(g, base, {}, st.temp, low.st.temp, [], low.blocks)
    decreases ClausesSize(clauses), 2
  {
    hide Begun, LowerList, Size;
    if clauses == [] {
      NoBlocks(g, base, st.temp);
    } else {
      hide Lowered;
      var through := if |clauses| == 1 then restId else first + 1;
      var a := LowerList(g, ret, j, first, [], clauses[0].body, Jump(through), st).value;
      var b := LowerClauses(g, ret, j, restId, clauses[1..], first + 1, a.st).value;
      BegunEmpty(g, base, st.temp);
      ListFormed(g, base, {}, [], ret, j, first, [], clauses[0].body, Jump(through), st);
      ClausesFormed(g, base, ret, j, restId, clauses[1..], first + 1, a.st);
      LoweredJoin(g, base, {}, st.temp, a.st.temp, b.st.temp, [], a.blocks, b.blocks);
    }
  }

  lemma NoBlocks(g: Env, base: nat, n: nat)
    ensures Lowered(g, base, {}, n, n, [], [])
  {
  }

  lemma SwitchFormed(g: Env, base: nat, ret: Option<CType>, j: Jumps, dispatchId: nat, restId: nat, value: Operand,
      stmts: seq<Stmt>, st: St)
    requires VarsBelow(g, base) && base <= st.temp && Known(g, base, st.temp, value) &&
        LowerSwitch(g, ret, j, dispatchId, restId, value, stmts, st).Some?
    ensures var low := LowerSwitch(g, ret, j, dispatchId, restId, value, stmts, st).value;
        Lowered(g, base, {}, st.temp, low.st.temp, [], low.blocks)
    decreases Size(stmts), 3
  {
    hide Lowered, LowerDispatch, LowerClauses, Size;
    var clauses, first := CollectClauses(stmts), st.block;
    CollectSize(None, [], [], stmts);
    var a := LowerDispatch(g, dispatchId, value, DefaultTarget(restId, clauses, first), SwitchCases(clauses, first),
        st.(block := first + |clauses|)).value;
    var b := LowerClauses(g, ret, Jumps(Some(restId), j.continueTo), restId, clauses, first, a.st).value;
    EmptySize();
    DispatchFormed(g, base, dispatchId, value, DefaultTarget(restId, clauses, first), SwitchCases(clauses, first),
        st.(block := first + |clauses|));
    ClausesFormed(g, base, ret, Jumps(Some(restId), j.continueTo), restId, clauses, first, a.st);
    LoweredJoin(g, base, {}, st.temp, a.st.temp, b.st.temp, [], a.blocks, b.blocks);
  }

  lemma WhileFormed(g: Env, base: nat, made: set<nat>, pre: seq<Instr>, ret: Option<CType>, bid: nat,
      instrs: seq<Instr>, cond: Expr, body: seq<Stmt>, st: St)
    requires Begun(g, base, st.temp, made, pre, instrs) && LowerWhile(g, ret, bid, instrs, cond, body, st).Some?
    ensures var low := LowerWhile(g, ret, bid, instrs, cond, body, st).value;
        Lowered(g, base, made, st.temp, low.st.temp, pre, low.blocks)
    decreases Size(body), 2
  {
    hide Begun, Lowered, LowerCondition, LowerList, Size;
    BegunBelow(g, base, st.temp, made, pre, instrs);
    var condId, bodyId, restId := st.block, st.block + 1, st.block + 2;
    var st' := st.(block := st.block + 3);
    var a := LowerCondition(g, condId, [], cond, bodyId, restId, st').value;
    var b := LowerList(g, ret, Jumps(Some(restId), Some(condId)), bodyId, [], body, Jump(condId), a.st).value;
    ClosedNow(g, base, st.temp, made, pre, instrs, bid, Jump(condId));
    BegunEmpty(g, base, st.temp);
    ConditionFormed(g, base, {}, [], condId, [], cond, bodyId, restId, st');
    BegunEmpty(g, base, a.st.temp);
    ListFormed(g, base, {}, [], ret, Jumps(Some(restId), Some(condId)), bodyId, [], body, Jump(condId), a.st);
    LoweredJoin(g, base, made, st.temp, st.temp, a.st.temp, pre, [Block(bid, instrs, Jump(condId))], a.blocks);
    LoweredJoin(g, base, made, st.temp, a.st.temp, b.st.temp, pre, [Block(bid, instrs, Jump(condId))] + a.blocks,
        b.blocks);
  }

  lemma DoWhileFormed(g: Env, base: nat, made: set<nat>, pre: seq<Instr>, ret: Option<CType>, bid: nat,
      instrs: seq<Instr>, body: seq<Stmt>, cond: Expr, st: St)
    requires Begun(g, base, st.temp, made, pre, instrs) && LowerDoWhile(g, ret, bid, instrs, body, cond, st).Some?
    ensures var low := LowerDoWhile(g, ret, bid, instrs, body, cond, st).value;
        Lowered(g, base, made, st.temp, low.st.temp, pre, low.blocks)
    decreases Size(body), 2
  {
    hide Begun, Lowered, LowerCondition, LowerList, Size;
    BegunBelow(g, base, st.temp, made, pre, instrs);
    var bodyId, condId, restId := st.block, st.block + 1, st.block + 2;
    var st' := st.(block := st.block + 3);
    var a := LowerCondition(g, condId, [], cond, bodyId, restId, st').value;
    var b := LowerList(g, ret, Jumps(Some(restId), Some(condId)), bodyId, [], body, Jump(condId), a.st).value;
    var head := [Block(bid, instrs, Jump(bodyId))];
    BegunLater(g, base, st.temp, a.st.temp, made, pre, instrs);
    ClosedNow(g, base, a.st.temp, made, pre, instrs, bid, Jump(bodyId));
    BegunEmpty(g, base, st.temp);
    ConditionFormed(g, base, {}, [], condId, [], cond, bodyId, restId, st');
    BegunEmpty(g, base, a.st.temp);
    ListFormed(g, base, {}, [], ret, Jumps(Some(restId), Some(condId)), bodyId, [], body, Jump(condId), a.st);
    LoweredJoin(g, base, made, a.st.temp, a.st.temp, b.st.temp, pre, head, b.blocks);
    LoweredSwap(g, base, made, st.temp, a.st.temp, b.st.temp, pre, head + b.blocks, a.blocks);
  }

  lemma ForFormed(g: Env, base: nat, made: set<nat>, pre: seq<Instr>, ret: Option<CType>, bid: nat, instrs: seq<Instr>,
      init: ForInit, test: Option<Expr>, step: Option<Expr>, body: seq<Stmt>, restId: nat, st: St)
    requires Begun(g, base, st.temp, made, pre, instrs) &&
        LowerFor(g, ret, bid, instrs, init, test, step, body, restId, st).Some?
    ensures var low := LowerFor(g, ret, bid, instrs, init, test, step, body, restId, st).value;
        Lowered(g, base, made, st.temp, low.st.temp, pre, low.blocks)
    decreases Size(body), 2
  {
    hide Begun, Lowered, LowerInit, LowerTest, LowerStep, LowerList, Size, Fresh;
    BegunBelow(g, base, st.temp, made, pre, instrs);
    var i := LowerInit(g, init, st.temp).value;
    var condId, bodyId, stepId := st.block, st.block + 1, st.block + 2;
    var a := LowerTest(g, test, condId, bodyId, restId, St(i.next, st.block + 3)).value;
    var s := LowerStep(g, step, a.st.temp).value;
    var b := LowerList(g, ret, Jumps(Some(restId), Some(stepId)), bodyId, [], body, Jump(stepId),
        a.st.(temp := s.next)).value;
    var head, tail := [Block(bid, instrs + i.instrs, Jump(condId))], [Block(stepId, s.instrs, Jump(condId))];
    InitGood(g, base, init, st.temp);
    Closed(g, base, st.temp, i.next, made, pre, instrs, i.instrs, bid, Jump(condId));
    TestFormed(g, base, test, condId, bodyId, restId, St(i.next, st.block + 3));
    LoweredJoin(g, base, made, st.temp, i.next, a.st.temp, pre, head, a.blocks);
    StepFresh(g, base, step, a.st.temp);
    BegunEmpty(g, base, a.st.temp);
    assert [] + s.instrs == s.instrs;
    Closed(g, base, a.st.temp, s.next, {}, [], [], s.instrs, stepId, Jump(condId));
    BegunEmpty(g, base, s.next);
    ListFormed(g, base, {}, [], ret, Jumps(Some(restId), Some(stepId)), bodyId, [], body, Jump(stepId),
        a.st.(temp := s.next));
    LoweredSwap(g, base, {}, a.st.temp, s.next, b.st.temp, [], b.blocks, tail);
    LoweredJoin(g, base, made, st.temp, a.st.temp, b.st.temp, pre, head + a.blocks, b.blocks + tail);
    assert head + a.blocks + (b.blocks + tail) == head + a.blocks + b.blocks + tail;
  }

  lemma IfFormed(g: Env, base: nat, made: set<nat>, pre: seq<Instr>, ret: Option<CType>, j: Jumps, bid: nat,
      instrs: seq<Instr>, cond: Expr, yes: seq<Stmt>, no: seq<Stmt>, joinId: nat, yesId: nat, st: St)
    requires Begun(g, base, st.temp, made, pre, instrs) &&
        LowerIf(g, ret, j, bid, instrs, cond, yes, no, joinId, yesId, st).Some?
    ensures var low := LowerIf(g, ret, j, bid, instrs, cond, yes, no, joinId, yesId, st).value;
        Lowered(g, base, made, st.temp, low.st.temp, pre, low.blocks)
    decreases Size(yes) + Size(no), 2
  {
    hide Begun, Lowered, LowerCondition, LowerList, Size;
    BegunBelow(g, base, st.temp, made, pre, instrs);
    var a := LowerList(g, ret, j, yesId, [], yes, Jump(joinId), st).value;
    var b := (if no == [] then Some(Blocks([], a.st))
        else LowerList(g, ret, j, yesId + 1, [], no, Jump(joinId), a.st)).value;
    var noId := if no == [] then joinId else yesId + 1;
    var low := LowerCondition(g, bid, instrs, cond, yesId, noId, b.st).value;
    BegunEmpty(g, base, st.temp);
    ListFormed(g, base, {}, [], ret, j, yesId, [], yes, Jump(joinId), st);
    if no == [] { NoBlocks(g, base, a.st.temp); } else {
      BegunEmpty(g, base, a.st.temp);
      ListFormed(g, base, {}, [], ret, j, yesId + 1, [], no, Jump(joinId), a.st);
    }
    LoweredJoin(g, base, {}, st.temp, a.st.temp, b.st.temp, [], a.blocks, b.blocks);
    BegunLater(g, base, st.temp, b.st.temp, made, pre, instrs);
    ConditionFormed(g, base, made, pre, bid, instrs, cond, yesId, noId, b.st);
    LoweredSwap(g, base, made, st.temp, b.st.temp, low.st.temp, pre, low.blocks, a.blocks + b.blocks);
    assert low.blocks + (a.blocks + b.blocks) == low.blocks + a.blocks + b.blocks;
  }

  /** A first part, then the statements after it in a block of their own. */
  lemma RestFormed(g: Env, base: nat, made: set<nat>, pre: seq<Instr>, ret: Option<CType>, j: Jumps, lo: nat,
      part: seq<Block>, restId: nat, rest: seq<Stmt>, term: Term, st: St)
    requires VarsBelow(g, base) && base <= lo <= st.temp && (forall t :: t in made ==> t < lo) &&
        Lowered(g, base, made, lo, st.temp, pre, part)
    requires LowerList(g, ret, j, restId, [], rest, term, st).Some? && TermKnown(g, base, base, term)
    ensures var low := LowerList(g, ret, j, restId, [], rest, term, st).value;
        Lowered(g, base, made, lo, low.st.temp, pre, part + low.blocks)
    decreases Size(rest), 2
  {
    hide Begun, Lowered, LowerList, Size;
    BegunEmpty(g, base, st.temp);
    ListFormed(g, base, {}, [], ret, j, restId, [], rest, term, st);
    var low := LowerList(g, ret, j, restId, [], rest, term, st).value;
    LoweredJoin(g, base, made, lo, st.temp, low.st.temp, pre, part, low.blocks);
  }

  lemma {:induction false} ListFormed(g: Env, base: nat, made: set<nat>, pre: seq<Instr>, ret: Option<CType>, j: Jumps,
      bid: nat, instrs: seq<Instr>, stmts: seq<Stmt>, term: Term, st: St)
    requires Begun(g, base, st.temp, made, pre, instrs) && TermKnown(g, base, base, term) &&
        LowerList(g, ret, j, bid, instrs, stmts, term, st).Some?
    ensures var low := LowerList(g, ret, j, bid, instrs, stmts, term, st).value;
        Lowered(g, base, made, st.temp, low.st.temp, pre, low.blocks)
    decreases Size(stmts), 1
  {
    hide Begun, Lowered, LowerExpr, LowerEffects, LowerDeclare, LowerFor, LowerSwitch, LowerIf, LowerWhile,
        LowerDoWhile, LowerReturn, Size, StmtSize, Fresh;
    BegunBelow(g, base, st.temp, made, pre, instrs);
    TermLater(g, base, base, st.temp, term);
    if stmts == [] {
      ClosedNow(g, base, st.temp, made, pre, instrs, bid, term);
    } else {
      HeadSize(stmts);
      var rest := stmts[1..];
      match stmts[0]
      case ReturnWith(result) => ReturnFormed(g, base, made, pre, ret, bid, instrs, result, st);
      case Break => ClosedNow(g, base, st.temp, made, pre, instrs, bid, Jump(j.breakTo.value));
      case Continue => ClosedNow(g, base, st.temp, made, pre, instrs, bid, Jump(j.continueTo.value));
      case Typedef => ListFormed(g, base, made, pre, ret, j, bid, instrs, rest, term, st);
      case Declare(ds) =>
        DeclareGood(g, base, ds, st.temp);
        AddFormed(g, base, made, pre, ret, j, bid, instrs, LowerDeclare(g, ds, st.temp).value, rest, term, st);
      case Evaluate(x) =>
        EffectsGood(g, base, x, st.temp);
        AddFormed(g, base, made, pre, ret, j, bid, instrs, LowerEffects(g, x, st.temp).value, rest, term, st);
      case While(cond, body) =>
        var a := LowerWhile(g, ret, bid, instrs, cond, body, st).value;
        WhileFormed(g, base, made, pre, ret, bid, instrs, cond, body, st);
        RestFormed(g, base, made, pre, ret, j, st.temp, a.blocks, st.block + 2, rest, term, a.st);
      case DoWhile(body, cond) =>
        var a := LowerDoWhile(g, ret, bid, instrs, body, cond, st).value;
        DoWhileFormed(g, base, made, pre, ret, bid, instrs, body, cond, st);
        RestFormed(g, base, made, pre, ret, j, st.temp, a.blocks, st.block + 2, rest, term, a.st);
      case For(init, test, step, body) =>
        var a := LowerFor(g, ret, bid, instrs, init, test, step, body, st.block, st.(block := st.block + 1)).value;
        ForFormed(g, base, made, pre, ret, bid, instrs, init, test, step, body, st.block, st.(block := st.block + 1));
        RestFormed(g, base, made, pre, ret, j, st.temp, a.blocks, st.block, rest, term, a.st);
      case Scope(body) =>
        if rest == [] {
          ListFormed(g, base, made, pre, ret, j, bid, instrs, body, term, st);
        } else {
          var a := LowerList(g, ret, j, bid, instrs, body, Jump(st.block), st.(block := st.block + 1)).value;
          ListFormed(g, base, made, pre, ret, j, bid, instrs, body, Jump(st.block), st.(block := st.block + 1));
          RestFormed(g, base, made, pre, ret, j, st.temp, a.blocks, st.block, rest, term, a.st);
        }
      case Switch(value, body) => SwitchListFormed(g, base, made, pre, ret, j, bid, instrs, stmts, term, st);
      case If(cond, yes, no) => IfListFormed(g, base, made, pre, ret, j, bid, instrs, stmts, term, st);
    }
  }

  lemma AddFormed(g: Env, base: nat, made: set<nat>, pre: seq<Instr>, ret: Option<CType>, j: Jumps, bid: nat,
      instrs: seq<Instr>, a: Effects, rest: seq<Stmt>, term: Term, st: St)
    requires Begun(g, base, st.temp, made, pre, instrs) && TermKnown(g, base, base, term) &&
        Fresh(g, base, st.temp, a.next, a.instrs)
    requires LowerList(g, ret, j, bid, instrs + a.instrs, rest, term, st.(temp := a.next)).Some?
    ensures var low := LowerList(g, ret, j, bid, instrs + a.instrs, rest, term, st.(temp := a.next)).value;
        Lowered(g, base, made, st.temp, low.st.temp, pre, low.blocks)
    decreases Size(rest), 2
  {
    hide Begun, Formed, LowerList, Size, Fresh;
    BegunBelow(g, base, st.temp, made, pre, instrs);
    BegunMore(g, base, st.temp, a.next, made, pre, instrs, a.instrs);
    FreshOrder(g, base, st.temp, a.next, a.instrs);
    ListFormed(g, base, made + Range(st.temp, a.next), pre, ret, j, bid, instrs + a.instrs, rest, term,
        st.(temp := a.next));
    var low := LowerList(g, ret, j, bid, instrs + a.instrs, rest, term, st.(temp := a.next)).value;
    RangesJoin(made, st.temp, a.next, low.st.temp);
  }

  lemma SwitchListFormed(g: Env, base: nat, made: set<nat>, pre: seq<Instr>, ret: Option<CType>, j: Jumps, bid: nat,
      instrs: seq<Instr>, stmts: seq<Stmt>, term: Term, st: St)
    requires stmts != [] && stmts[0].Switch?
    requires Begun(g, base, st.temp, made, pre, instrs) && TermKnown(g, base, base, term) &&
        LowerList(g, ret, j, bid, instrs, stmts, term, st).Some?
    ensures var low := LowerList(g, ret, j, bid, instrs, stmts, term, st).value;
        Lowered(g, base, made, st.temp, low.st.temp, pre, low.blocks)
    decreases Size(stmts), 0
  {
    hide Begun, Lowered, LowerExpr, LowerSwitch, LowerList, Size, StmtSize, Fresh;
    BegunBelow(g, base, st.temp, made, pre, instrs);
    HeadSize(stmts);
    SwitchStep(g, ret, j, bid, instrs, stmts, term, st);
    var body := SwitchBody(stmts[0].body);
    var v := LowerExpr(g, stmts[0].value, st.temp).value;
    var sw := LowerSwitch(g, ret, j, st.block, st.block + 1, v.op, body, St(v.next, st.block + 2)).value;
    ExprGood(g, base, stmts[0].value, st.temp);
    FreshOrder(g, base, st.temp, v.next, v.instrs);
    var head := [Block(bid, instrs + v.instrs, Jump(st.block))];
    Closed(g, base, st.temp, v.next, made, pre, instrs, v.instrs, bid, Jump(st.block));
    SwitchFormed(g, base, ret, j, st.block, st.block + 1, v.op, body, St(v.next, st.block + 2));
    LoweredJoin(g, base, made, st.temp, v.next, sw.st.temp, pre, head, sw.blocks);
    RestFormed(g, base, made, pre, ret, j, st.temp, head + sw.blocks, st.block + 1, stmts[1..], term, sw.st);
  }

  lemma IfListFormed(g: Env, base: nat, made: set<nat>, pre: seq<Instr>, ret: Option<CType>, j: Jumps, bid: nat,
      instrs: seq<Instr>, stmts: seq<Stmt>, term: Term, st: St)
    requires stmts != [] && stmts[0].If?
    requires Begun(g, base, st.temp, made, pre, instrs) && TermKnown(g, base, base, term) &&
        LowerList(g, ret, j, bid, instrs, stmts, term, st).Some?
    ensures var low := LowerList(g, ret, j, bid, instrs, stmts, term, st).value;
        Lowered(g, base, made, st.temp, low.st.temp, pre, low.blocks)
    decreases Size(stmts), 0
  {
    hide Begun, Lowered, LowerIf, LowerList, Size, StmtSize;
    BegunBelow(g, base, st.temp, made, pre, instrs);
    HeadSize(stmts);
    IfStep(g, ret, j, bid, instrs, stmts, term, st);
    var stmt, rest := stmts[0], stmts[1..];
    var st' := st.(block := st.block + 2);
    var (joinId, joined) := LowerJoin(g, ret, j, rest, term, st').value;
    if rest == [] && term.Jump? {
      NoBlocks(g, base, st.temp);
    } else {
      BegunEmpty(g, base, st.temp);
      ListFormed(g, base, {}, [], ret, j, joinId, [], rest, term, st'.(block := joinId + 1));
    }
    var a := LowerIf(g, ret, j, bid, instrs, stmt.cond, stmt.yes, stmt.no, joinId, st.block, joined.st).value;
    BegunLater(g, base, st.temp, joined.st.temp, made, pre, instrs);
    IfFormed(g, base, made, pre, ret, j, bid, instrs, stmt.cond, stmt.yes, stmt.no, joinId, st.block, joined.st);
    LoweredSwap(g, base, made, st.temp, joined.st.temp, a.st.temp, pre, a.blocks, joined.blocks);
  }
}
