/** Block ids of lowered code are pairwise distinct, and every jump leads to one of its
    blocks or to a target it was given. */
module Wiring {
  import opened Options
  import opened Words
  import opened Ir
  import opened CTypes
  import opened Source
  import opened Statements
  import opened Lowering
  import opened LowerStatements

  function Ids(blocks: seq<Block>): set<nat> { set b | b in blocks :: b.id }

  function Between(lo: nat, hi: nat): set<nat> { set t: nat | lo <= t < hi && Inside(lo, t, hi) }

  predicate Inside(lo: nat, t: nat, hi: nat) { lo <= t < hi }

  predicate Distinct(blocks: seq<Block>) { forall i, k :: 0 <= i < k < |blocks| ==> blocks[i].id != blocks[k].id }

  /** Distinct ids, all of them in own; jumps to blocks of the list or to exits. */
  predicate Wired(blocks: seq<Block>, own: set<nat>, exits: set<nat>)
  {
    && Distinct(blocks)
    && Ids(blocks) <= own
    && forall b :: b in blocks ==> Targets(b.term) <= Ids(blocks) + exits
  }

  lemma IdsJoin(a: seq<Block>, b: seq<Block>)
    ensures Ids(a + b) == Ids(a) + Ids(b)
  {
    forall x | x in Ids(a) + Ids(b) ensures x in Ids(a + b) {
      if x in Ids(a) {
        var y :| y in a && y.id == x;
        assert y in a + b;
      } else {
        var y :| y in b && y.id == x;
        assert y in a + b;
      }
    }
  }

  /** Lists with ids of their own, whose exits are blocks of the other or exits of both. */
  lemma WiredJoin(a: seq<Block>, b: seq<Block>, own: set<nat>, own': set<nat>, exits: set<nat>, exits': set<nat>,
      out: set<nat>)
    requires Wired(a, own, exits) && Wired(b, own', exits') && own !! own'
    requires exits <= Ids(b) + out && exits' <= Ids(a) + out
    ensures Wired(a + b, own + own', out) && Ids(a + b) == Ids(a) + Ids(b)
  {
    IdsJoin(a, b);
    forall i, k | 0 <= i < k < |a + b| ensures (a + b)[i].id != (a + b)[k].id {
      if i < |a| <= k {
        assert a[i].id in Ids(a) && b[k - |a|].id in Ids(b);
      } else if k < |a| {
        assert a[i].id != a[k].id;
      } else {
        assert b[i - |a|].id != b[k - |a|].id;
      }
    }
  }

  lemma WiredWeaker(a: seq<Block>, own: set<nat>, own': set<nat>, exits: set<nat>, exits': set<nat>)
    requires Wired(a, own, exits) && own <= own' && exits <= Ids(a) + exits'
    ensures Wired(a, own', exits')
  {
  }

  lemma WiredOne(block: Block)
    ensures Wired([block], {block.id}, Targets(block.term)) && Ids([block]) == {block.id}
  {
    assert block in [block];
  }

  lemma HeadId(blocks: seq<Block>)
    requires blocks != []
    ensures blocks[0].id in Ids(blocks)
  {
    assert blocks[0] in blocks;
  }

  // ---- Conditions -----------------------------------------------------------------------------

  lemma {:induction false} ConditionWired(g: Env, bid: nat, instrs: seq<Instr>, cond: Expr, yes: nat, no: nat, st: St)
    requires LowerCondition(g, bid, instrs, cond, yes, no, st).Some? && bid < st.block
    ensures var low := LowerCondition(g, bid, instrs, cond, yes, no, st).value;
      Wired(low.blocks, {bid} + Between(st.block, low.st.block), {yes, no}) && bid in Ids(low.blocks)
    decreases cond
  {
    hide LowerExpr, Wired, Ids, Converted, ExprType;
    var low := LowerCondition(g, bid, instrs, cond, yes, no, st).value;
    HeadId(low.blocks);
    if cond.Binary? && (cond.op.OpLogAnd? || cond.op.OpLogOr?) {
      var right := st.block;
      var t, f := if cond.op.OpLogAnd? then right else yes, if cond.op.OpLogAnd? then no else right;
      var a := LowerCondition(g, bid, instrs, cond.l, t, f, st.(block := right + 1)).value;
      ConditionWired(g, bid, instrs, cond.l, t, f, st.(block := right + 1));
      ConditionWired(g, right, [], cond.r, yes, no, a.st);
      var b := LowerCondition(g, right, [], cond.r, yes, no, a.st).value;
      var own, own' := {bid} + Between(right + 1, a.st.block), {right} + Between(a.st.block, b.st.block);
      WiredJoin(a.blocks, b.blocks, own, own', {t, f}, {yes, no}, {yes, no});
      WiredWeaker(low.blocks, own + own', {bid} + Between(st.block, low.st.block), {yes, no}, {yes, no});
    } else if cond.Unary? && cond.uop.Not? {
      ConditionWired(g, bid, instrs, cond.e, no, yes, st);
      assert {no, yes} == {yes, no};
    } else {
      WiredOne(low.blocks[0]);
      assert low.blocks == [low.blocks[0]];
      WiredWeaker(low.blocks, {bid}, {bid} + Between(st.block, low.st.block), {yes, no}, {yes, no});
    }
  }

  lemma TestWired(g: Env, test: Option<Expr>, condId: nat, bodyId: nat, restId: nat, st: St)
    requires LowerTest(g, test, condId, bodyId, restId, st).Some? && condId < st.block
    ensures var low := LowerTest(g, test, condId, bodyId, restId, st).value;
      Wired(low.blocks, {condId} + Between(st.block, low.st.block), {bodyId, restId}) && condId in Ids(low.blocks)
  {
    hide LowerCondition, Wired, Ids;
    if test.None? {
      WiredOne(Block(condId, [], Jump(bodyId)));
      WiredWeaker([Block(condId, [], Jump(bodyId))], {condId}, {condId} + Between(st.block, st.block), {bodyId},
          {bodyId, restId});
    } else {
      ConditionWired(g, condId, [], test.value, bodyId, restId, st);
    }
  }

  // ---- Statements --------------------------------------------------------------------------------

  /** The targets statements may jump to besides their own blocks. */
  function Outs(j: Jumps, term: Term): set<nat>
  {
    Targets(term) + (if j.breakTo.Some? then {j.breakTo.value} else {}) +
        (if j.continueTo.Some? then {j.continueTo.value} else {})
  }

  /** Blocks for a list begun in block bid and lowered from st to st'. */
  predicate ListWired(low: Blocks, bid: nat, lo: nat, outs: set<nat>)
  {
    Wired(low.blocks, {bid} + Between(lo, low.st.block), outs) && bid in Ids(low.blocks)
  }

  lemma OneWired(bid: nat, instrs: seq<Instr>, term: Term, st: St, outs: set<nat>)
    requires Targets(term) <= outs
    ensures ListWired(Blocks([Block(bid, instrs, term)], st), bid, st.block, outs)
  {
    hide Wired, Ids;
    var blocks := [Block(bid, instrs, term)];
    WiredOne(blocks[0]);
    WiredWeaker(blocks, {bid}, {bid} + Between(st.block, st.block), Targets(term), outs);
  }

  /** A part that ends at restId, then the list lowered into restId. */
  lemma {:induction false} RestWired(g: Env, ret: Option<CType>, j: Jumps, bid: nat, lo: nat, part: Blocks,
      restId: nat, rest: seq<Stmt>, term: Term)
    requires LowerList(g, ret, j, restId, [], rest, term, part.st).Some? && lo <= restId < part.st.block && bid < lo
    requires Wired(part.blocks, {bid} + (Between(lo, part.st.block) - {restId}), {restId} + Outs(j, Jump(restId))) &&
        bid in Ids(part.blocks)
    ensures var b := LowerList(g, ret, j, restId, [], rest, term, part.st).value;
      ListWired(Blocks(part.blocks + b.blocks, b.st), bid, lo, Outs(j, term))
    decreases Size(rest), 2
  {
    hide LowerList, Wired, Ids, Size;
    ListWires(g, ret, j, restId, [], rest, term, part.st);
    var b := LowerList(g, ret, j, restId, [], rest, term, part.st).value;
    var own, own' := {bid} + (Between(lo, part.st.block) - {restId}), {restId} + Between(part.st.block, b.st.block);
    WiredJoin(part.blocks, b.blocks, own, own', {restId} + Outs(j, Jump(restId)), Outs(j, term), Outs(j, term));
    WiredWeaker(part.blocks + b.blocks, own + own', {bid} + Between(lo, b.st.block), Outs(j, term), Outs(j, term));
  }

  /** A loop's head, test and body; the body jumps to contId and leaves to restId. */
  lemma LoopWired(head: seq<Block>, test: seq<Block>, body: seq<Block>, bid: nat, condId: nat, bodyId: nat,
      restId: nat, lo: nat, mid: nat, hi: nat, first: nat)
    requires bid < lo && lo <= condId < lo + 3 && lo <= bodyId < lo + 3 && condId != bodyId && lo + 3 <= mid <= hi &&
        restId != bid
    requires Wired(head, {bid}, {first}) && bid in Ids(head) && (first == condId || first == bodyId)
    requires Wired(test, {condId} + Between(lo + 3, mid), {bodyId, restId}) && condId in Ids(test)
    requires Wired(body, {bodyId} + Between(mid, hi), {condId, restId}) && bodyId in Ids(body)
    ensures Wired(head + test + body, {bid, condId, bodyId} + Between(lo + 3, hi), {restId}) &&
        bid in Ids(head + test + body)
    ensures Wired(head + body + test, {bid, condId, bodyId} + Between(lo + 3, hi), {restId}) &&
        bid in Ids(head + body + test)
  {
    hide Wired, Ids;
    var t, b := {condId} + Between(lo + 3, mid), {bodyId} + Between(mid, hi);
    var all := {bid, condId, bodyId} + Between(lo + 3, hi);
    WiredJoin(test, body, t, b, {bodyId, restId}, {condId, restId}, {restId});
    WiredJoin(head, test + body, {bid}, t + b, {first}, {restId}, {restId});
    assert head + (test + body) == head + test + body;
    WiredWeaker(head + test + body, {bid} + (t + b), all, {restId}, {restId});
    WiredJoin(body, test, b, t, {condId, restId}, {bodyId, restId}, {restId});
    WiredJoin(head, body + test, {bid}, b + t, {first}, {restId}, {restId});
    assert head + (body + test) == head + body + test;
    WiredWeaker(head + body + test, {bid} + (b + t), all, {restId}, {restId});
  }

  lemma WhileWired(g: Env, ret: Option<CType>, bid: nat, instrs: seq<Instr>, cond: Expr, body: seq<Stmt>, st: St)
    requires LowerWhile(g, ret, bid, instrs, cond, body, st).Some? && bid < st.block
    ensures var low := LowerWhile(g, ret, bid, instrs, cond, body, st).value;
      Wired(low.blocks, {bid} + (Between(st.block, low.st.block) - {st.block + 2}), {st.block + 2}) &&
          bid in Ids(low.blocks)
    decreases Size(body), 2
  {
    hide LowerCondition, LowerList, Wired, Ids, Size;
    var condId, bodyId, restId := st.block, st.block + 1, st.block + 2;
    var st' := st.(block := st.block + 3);
    var a := LowerCondition(g, condId, [], cond, bodyId, restId, st').value;
    var b := LowerList(g, ret, Jumps(Some(restId), Some(condId)), bodyId, [], body, Jump(condId), a.st).value;
    var head := [Block(bid, instrs, Jump(condId))];
    WiredOne(head[0]);
    ConditionWired(g, condId, [], cond, bodyId, restId, st');
    ListWires(g, ret, Jumps(Some(restId), Some(condId)), bodyId, [], body, Jump(condId), a.st);
    assert Outs(Jumps(Some(restId), Some(condId)), Jump(condId)) == {condId, restId};
    LoopWired(head, a.blocks, b.blocks, bid, condId, bodyId, restId, st.block, a.st.block, b.st.block, condId);
    WiredWeaker(head + a.blocks + b.blocks, {bid, condId, bodyId} + Between(st.block + 3, b.st.block),
        {bid} + (Between(st.block, b.st.block) - {restId}), {restId}, {restId});
  }

  lemma DoWhileWired(g: Env, ret: Option<CType>, bid: nat, instrs: seq<Instr>, body: seq<Stmt>, cond: Expr, st: St)
    requires LowerDoWhile(g, ret, bid, instrs, body, cond, st).Some? && bid < st.block
    ensures var low := LowerDoWhile(g, ret, bid, instrs, body, cond, st).value;
      Wired(low.blocks, {bid} + (Between(st.block, low.st.block) - {st.block + 2}), {st.block + 2}) &&
          bid in Ids(low.blocks)
    decreases Size(body), 2
  {
    hide LowerCondition, LowerList, Wired, Ids, Size;
    var bodyId, condId, restId := st.block, st.block + 1, st.block + 2;
    var st' := st.(block := st.block + 3);
    var a := LowerCondition(g, condId, [], cond, bodyId, restId, st').value;
    var b := LowerList(g, ret, Jumps(Some(restId), Some(condId)), bodyId, [], body, Jump(condId), a.st).value;
    var head := [Block(bid, instrs, Jump(bodyId))];
    WiredOne(head[0]);
    ConditionWired(g, condId, [], cond, bodyId, restId, st');
    ListWires(g, ret, Jumps(Some(restId), Some(condId)), bodyId, [], body, Jump(condId), a.st);
    assert Outs(Jumps(Some(restId), Some(condId)), Jump(condId)) == {condId, restId};
    LoopWired(head, a.blocks, b.blocks, bid, condId, bodyId, restId, st.block, a.st.block, b.st.block, bodyId);
    WiredWeaker(head + b.blocks + a.blocks, {bid, condId, bodyId} + Between(st.block + 3, b.st.block),
        {bid} + (Between(st.block, b.st.block) - {restId}), {restId}, {restId});
  }

  lemma ForWired(g: Env, ret: Option<CType>, bid: nat, instrs: seq<Instr>, init: ForInit, test: Option<Expr>,
      step: Option<Expr>, body: seq<Stmt>, restId: nat, st: St)
    requires LowerFor(g, ret, bid, instrs, init, test, step, body, restId, st).Some? && bid < restId < st.block
    ensures var low := LowerFor(g, ret, bid, instrs, init, test, step, body, restId, st).value;
      Wired(low.blocks, {bid} + Between(st.block, low.st.block), {restId}) && bid in Ids(low.blocks)
    decreases Size(body), 2
  {
    hide LowerInit, LowerTest, LowerStep, LowerList, Wired, Ids, Size;
    var i := LowerInit(g, init, st.temp).value;
    var condId, bodyId, stepId := st.block, st.block + 1, st.block + 2;
    var a := LowerTest(g, test, condId, bodyId, restId, St(i.next, st.block + 3)).value;
    var s := LowerStep(g, step, a.st.temp).value;
    var b := LowerList(g, ret, Jumps(Some(restId), Some(stepId)), bodyId, [], body, Jump(stepId),
        a.st.(temp := s.next)).value;
    var head, tail := [Block(bid, instrs + i.instrs, Jump(condId))], [Block(stepId, s.instrs, Jump(condId))];
    WiredOne(head[0]);
    WiredOne(tail[0]);
    TestWired(g, test, condId, bodyId, restId, St(i.next, st.block + 3));
    ListWires(g, ret, Jumps(Some(restId), Some(stepId)), bodyId, [], body, Jump(stepId), a.st.(temp := s.next));
    assert Outs(Jumps(Some(restId), Some(stepId)), Jump(stepId)) == {stepId, restId};
    StepLoopWired(head, a.blocks, b.blocks, tail, bid, restId, st.block, a.st.block, b.st.block);
  }

  /** A loop with a step: head, test, body and step. */
  lemma StepLoopWired(head: seq<Block>, test: seq<Block>, body: seq<Block>, step: seq<Block>, bid: nat, restId: nat,
      lo: nat, mid: nat, hi: nat)
    requires bid < restId < lo && lo + 3 <= mid <= hi
    requires Wired(head, {bid}, {lo}) && bid in Ids(head)
    requires Wired(test, {lo} + Between(lo + 3, mid), {lo + 1, restId}) && lo in Ids(test)
    requires Wired(body, {lo + 1} + Between(mid, hi), {lo + 2, restId}) && lo + 1 in Ids(body)
    requires Wired(step, {lo + 2}, {lo}) && lo + 2 in Ids(step)
    ensures Wired(head + test + body + step, {bid} + Between(lo, hi), {restId}) && bid in Ids(head + test + body + step)
  {
    hide Wired, Ids;
    var ot, ob := {lo} + Between(lo + 3, mid), {lo + 1} + Between(mid, hi);
    WiredJoin(body, step, ob, {lo + 2}, {lo + 2, restId}, {lo}, {lo, restId});
    WiredJoin(test, body + step, ot, ob + {lo + 2}, {lo + 1, restId}, {lo, restId}, {restId});
    WiredJoin(head, test + (body + step), {bid}, ot + (ob + {lo + 2}), {lo}, {restId}, {restId});
    assert head + (test + (body + step)) == head + test + body + step;
    WiredWeaker(head + test + body + step, {bid} + (ot + (ob + {lo + 2})), {bid} + Between(lo, hi), {restId}, {restId});
  }

  lemma IfWired(g: Env, ret: Option<CType>, j: Jumps, bid: nat, instrs: seq<Instr>, cond: Expr, yes: seq<Stmt>,
      no: seq<Stmt>, joinId: nat, yesId: nat, st: St)
    requires LowerIf(g, ret, j, bid, instrs, cond, yes, no, joinId, yesId, st).Some? && bid < yesId &&
        yesId + 1 < st.block
    ensures var low := LowerIf(g, ret, j, bid, instrs, cond, yes, no, joinId, yesId, st).value;
      Wired(low.blocks, {bid, yesId, yesId + 1} + Between(st.block, low.st.block), Outs(j, Jump(joinId))) &&
          bid in Ids(low.blocks)
    decreases Size(yes) + Size(no), 2
  {
    hide LowerCondition, LowerList, Wired, Ids, Size;
    var a := LowerList(g, ret, j, yesId, [], yes, Jump(joinId), st).value;
    var b := (if no == [] then Some(Blocks([], a.st))
        else LowerList(g, ret, j, yesId + 1, [], no, Jump(joinId), a.st)).value;
    var noId := if no == [] then joinId else yesId + 1;
    var low := LowerCondition(g, bid, instrs, cond, yesId, noId, b.st).value;
    var outs := Outs(j, Jump(joinId));
    var ob := {yesId + 1} + Between(a.st.block, b.st.block);
    ListWires(g, ret, j, yesId, [], yes, Jump(joinId), st);
    if no == [] { NoneWired(ob, outs); } else { ListWires(g, ret, j, yesId + 1, [], no, Jump(joinId), a.st); }
    ConditionWired(g, bid, instrs, cond, yesId, noId, b.st);
    BranchesWired(low.blocks, a.blocks, b.blocks, bid, yesId, noId, joinId, st.block, a.st.block, b.st.block,
        low.st.block, outs);
  }

  /** The condition's blocks, and those of the two branches. */
  lemma BranchesWired(cond: seq<Block>, yes: seq<Block>, no: seq<Block>, bid: nat, yesId: nat, noId: nat, joinId: nat,
      lo: nat, mid: nat, mid': nat, hi: nat, outs: set<nat>)
    requires bid < yesId && yesId + 1 < lo <= mid <= mid' <= hi && joinId in outs
    requires Wired(yes, {yesId} + Between(lo, mid), outs) && yesId in Ids(yes)
    requires Wired(no, {yesId + 1} + Between(mid, mid'), outs) && (noId == joinId || noId in Ids(no))
    requires Wired(cond, {bid} + Between(mid', hi), {yesId, noId}) && bid in Ids(cond)
    ensures Wired(cond + yes + no, {bid, yesId, yesId + 1} + Between(lo, hi), outs) && bid in Ids(cond + yes + no)
  {
    hide Wired, Ids;
    var oy, on, oc := {yesId} + Between(lo, mid), {yesId + 1} + Between(mid, mid'), {bid} + Between(mid', hi);
    WiredJoin(yes, no, oy, on, outs, outs, outs);
    WiredJoin(cond, yes + no, oc, oy + on, {yesId, noId}, outs, outs);
    assert cond + (yes + no) == cond + yes + no;
    WiredWeaker(cond + yes + no, oc + (oy + on), {bid, yesId, yesId + 1} + Between(lo, hi), outs, outs);
  }

  lemma NoneWired(own: set<nat>, exits: set<nat>)
    ensures Wired([], own, exits) && Ids([]) == {}
  {
  }

  // ---- Switches -----------------------------------------------------------------------------------

  /** The targets of a dispatch: the case blocks and where it goes otherwise. */
  function CaseTargets(cases: seq<(Expr, nat)>): set<nat>
  {
    if cases == [] then {} else {cases[0].1} + CaseTargets(cases[1..])
  }

  lemma {:induction false} DispatchWired(g: Env, bid: nat, value: Operand, otherwise: nat, cases: seq<(Expr, nat)>,
      st: St)
    requires LowerDispatch(g, bid, value, otherwise, cases, st).Some? && bid < st.block
    ensures var low := LowerDispatch(g, bid, value, otherwise, cases, st).value;
      Wired(low.blocks, {bid} + Between(st.block, low.st.block), {otherwise} + CaseTargets(cases)) &&
          bid in Ids(low.blocks)
    decreases |cases|
  {
    hide LowerExpr, Wired, Ids;
    var low := LowerDispatch(g, bid, value, otherwise, cases, st).value;
    HeadId(low.blocks);
    WiredOne(low.blocks[0]);
    var outs := {otherwise} + CaseTargets(cases);
    if |cases| <= 1 {
      assert low.blocks == [low.blocks[0]];
      WiredWeaker(low.blocks, {bid}, {bid} + Between(st.block, low.st.block), Targets(low.blocks[0].term), outs);
    } else {
      var next := st.block;
      var st' := St(LowerExpr(g, cases[0].0, st.temp).value.next, next + 1);
      var rest := LowerDispatch(g, next, value, otherwise, cases[1..], st').value;
      DispatchWired(g, next, value, otherwise, cases[1..], st');
      var own := {next} + Between(next + 1, rest.st.block);
      WiredJoin([low.blocks[0]], rest.blocks, {bid}, own, Targets(low.blocks[0].term),
          {otherwise} + CaseTargets(cases[1..]), outs);
      assert low.blocks == [low.blocks[0]] + rest.blocks;
      WiredWeaker(low.blocks, {bid} + own, {bid} + Between(st.block, low.st.block), outs, outs);
    }
  }

  lemma {:induction false} CasesAreClauses(clauses: seq<Clause>, first: nat, end: nat)
    ensures CaseTargets(SwitchCases(clauses, first)) <= Between(first, first + |clauses|)
    ensures DefaultTarget(end, clauses, first) in Between(first, first + |clauses|) + {end}
  {
    if clauses != [] {
      CasesAreClauses(clauses[1..], first + 1, end);
      if clauses[0].tag.Some? {
        assert SwitchCases(clauses, first)[1..] == SwitchCases(clauses[1..], first + 1);
      } else {
        assert SwitchCases(clauses, first) == SwitchCases(clauses[1..], first + 1);
      }
    }
  }

  lemma {:induction false} ClausesWired(g: Env, ret: Option<CType>, j: Jumps, restId: nat, clauses: seq<Clause>,
      first: nat, st: St)
    requires LowerClauses(g, ret, j, restId, clauses, first, st).Some? && first + |clauses| <= st.block
    ensures var low := LowerClauses(g, ret, j, restId, clauses, first, st).value;
      && Wired(low.blocks, Between(first, first + |clauses|) + Between(st.block, low.st.block), Outs(j, Jump(restId)))
      && Between(first, first + |clauses|) <= Ids(low.blocks)
    decreases ClausesSize(clauses), 2
  {
    hide LowerList, Wired, Ids, Size;
    var low := LowerClauses(g, ret, j, restId, clauses, first, st).value;
    var outs := Outs(j, Jump(restId));
    if clauses == [] {
      NoneWired(Between(first, first) + Between(st.block, st.block), outs);
    } else {
      var through := if |clauses| == 1 then restId else first + 1;
      var a := LowerList(g, ret, j, first, [], clauses[0].body, Jump(through), st).value;
      var b := LowerClauses(g, ret, j, restId, clauses[1..], first + 1, a.st).value;
      ListWires(g, ret, j, first, [], clauses[0].body, Jump(through), st);
      ClausesWired(g, ret, j, restId, clauses[1..], first + 1, a.st);
      var oa, ob := {first} + Between(st.block, a.st.block),
          Between(first + 1, first + |clauses|) + Between(a.st.block, b.st.block);
      if |clauses| > 1 { assert first + 1 in Between(first + 1, first + |clauses|); }
      WiredJoin(a.blocks, b.blocks, oa, ob, Outs(j, Jump(through)), outs, outs);
      WiredWeaker(low.blocks, oa + ob, Between(first, first + |clauses|) + Between(st.block, low.st.block), outs, outs);
    }
  }

  lemma SwitchWired(g: Env, ret: Option<CType>, j: Jumps, dispatchId: nat, restId: nat, value: Operand,
      stmts: seq<Stmt>, st: St)
    requires LowerSwitch(g, ret, j, dispatchId, restId, value, stmts, st).Some? && dispatchId < st.block &&
        restId < st.block
    ensures var low := LowerSwitch(g, ret, j, dispatchId, restId, value, stmts, st).value;
      Wired(low.blocks, {dispatchId} + Between(st.block, low.st.block), {restId} + Outs(j, Jump(restId))) &&
          dispatchId in Ids(low.blocks)
    decreases Size(stmts), 3
  {
    hide LowerDispatch, LowerClauses, Wired, Ids, Size, DefaultTarget, SwitchCases;
    var clauses, first := CollectClauses(stmts), st.block;
    CollectSize(None, [], [], stmts);
    EmptySize();
    var otherwise, cases := DefaultTarget(restId, clauses, first), SwitchCases(clauses, first);
    var st' := st.(block := first + |clauses|);
    var inner := Jumps(Some(restId), j.continueTo);
    var a := LowerDispatch(g, dispatchId, value, otherwise, cases, st').value;
    var b := LowerClauses(g, ret, inner, restId, clauses, first, a.st).value;
    DispatchWired(g, dispatchId, value, otherwise, cases, st');
    ClausesWired(g, ret, inner, restId, clauses, first, a.st);
    CasesAreClauses(clauses, first, restId);
    var oa := {dispatchId} + Between(first + |clauses|, a.st.block);
    var ob := Between(first, first + |clauses|) + Between(a.st.block, b.st.block);
    var outs := {restId} + Outs(j, Jump(restId));
    WiredJoin(a.blocks, b.blocks, oa, ob, {otherwise} + CaseTargets(cases), Outs(inner, Jump(restId)), outs);
    WiredWeaker(a.blocks + b.blocks, oa + ob, {dispatchId} + Between(st.block, b.st.block), outs, outs);
  }

  // ---- Lists -----------------------------------------------------------------------------------------

  /** Every lowering of statements numbers its blocks with the given id and fresh ones,
      all distinct, and jumps to its own blocks, the terminator's targets, or the
      enclosing break and continue targets only. */
  lemma {:induction false} ListWires(g: Env, ret: Option<CType>, j: Jumps, bid: nat, instrs: seq<Instr>,
      stmts: seq<Stmt>, term: Term, st: St)
    requires LowerList(g, ret, j, bid, instrs, stmts, term, st).Some? && bid < st.block
    ensures ListWired(LowerList(g, ret, j, bid, instrs, stmts, term, st).value, bid, st.block, Outs(j, term))
    decreases Size(stmts), 1
  {
    hide Wired, Ids, ListWired, Between, LowerExpr, LowerEffects, LowerDeclare, LowerFor, LowerSwitch, LowerIf,
        LowerWhile, LowerDoWhile, Size, StmtSize;
    if stmts == [] {
      OneWired(bid, instrs, term, st, Outs(j, term));
    } else {
      HeadSize(stmts);
      var rest := stmts[1..];
      match stmts[0]
      case ReturnWith(result) => ReturnWired(g, ret, bid, instrs, result, st, Outs(j, term));
      case Break => OneWired(bid, instrs, Jump(j.breakTo.value), st, Outs(j, term));
      case Continue => OneWired(bid, instrs, Jump(j.continueTo.value), st, Outs(j, term));
      case Typedef => ListWires(g, ret, j, bid, instrs, rest, term, st);
      case Declare(ds) =>
        var a := LowerDeclare(g, ds, st.temp).value;
        ListWires(g, ret, j, bid, instrs + a.instrs, rest, term, st.(temp := a.next));
      case Evaluate(x) =>
        var a := LowerEffects(g, x, st.temp).value;
        ListWires(g, ret, j, bid, instrs + a.instrs, rest, term, st.(temp := a.next));
      case While(cond, body) =>
        var a := LowerWhile(g, ret, bid, instrs, cond, body, st).value;
        WhileWired(g, ret, bid, instrs, cond, body, st);
        PartThenRest(g, ret, j, bid, st.block, a, st.block + 2, rest, term);
      case DoWhile(body, cond) =>
        var a := LowerDoWhile(g, ret, bid, instrs, body, cond, st).value;
        DoWhileWired(g, ret, bid, instrs, body, cond, st);
        PartThenRest(g, ret, j, bid, st.block, a, st.block + 2, rest, term);
      case For(init, test, step, body) =>
        var a := LowerFor(g, ret, bid, instrs, init, test, step, body, st.block, st.(block := st.block + 1)).value;
        ForWired(g, ret, bid, instrs, init, test, step, body, st.block, st.(block := st.block + 1));
        OwnSkips(st.block, a.st.block);
        PartThenRest(g, ret, j, bid, st.block, a, st.block, rest, term);
      case Scope(body) => ScopeListWired(g, ret, j, bid, instrs, stmts, term, st);
      case Switch(value, body) => SwitchListWired(g, ret, j, bid, instrs, stmts, term, st);
      case If(cond, yes, no) => IfListWired(g, ret, j, bid, instrs, stmts, term, st);
    }
  }

  lemma ScopeListWired(g: Env, ret: Option<CType>, j: Jumps, bid: nat, instrs: seq<Instr>, stmts: seq<Stmt>,
      term: Term, st: St)
    requires stmts != [] && stmts[0].Scope? && LowerList(g, ret, j, bid, instrs, stmts, term, st).Some? &&
        bid < st.block
    ensures ListWired(LowerList(g, ret, j, bid, instrs, stmts, term, st).value, bid, st.block, Outs(j, term))
    decreases Size(stmts), 0
  {
    hide Wired, Ids, Size, StmtSize, LowerList;
    HeadSize(stmts);
    ScopeStep(g, ret, j, bid, instrs, stmts, term, st);
    var body, rest := stmts[0].body, stmts[1..];
    if rest == [] {
      ListWires(g, ret, j, bid, instrs, body, term, st);
    } else {
      var a := LowerList(g, ret, j, bid, instrs, body, Jump(st.block), st.(block := st.block + 1)).value;
      ListWires(g, ret, j, bid, instrs, body, Jump(st.block), st.(block := st.block + 1));
      OwnSkips(st.block, a.st.block);
      RestWiredFrom(g, ret, j, bid, st.block, a, st.block, rest, term, Outs(j, Jump(st.block)));
    }
  }

  lemma OwnSkips(lo: nat, hi: nat)
    ensures Between(lo + 1, hi) == Between(lo, hi) - {lo}
  {
  }

  lemma ReturnWired(g: Env, ret: Option<CType>, bid: nat, instrs: seq<Instr>, result: Option<Expr>, st: St,
      outs: set<nat>)
    requires LowerReturn(g, ret, bid, instrs, result, st).Some?
    ensures ListWired(LowerReturn(g, ret, bid, instrs, result, st).value, bid, st.block, outs)
  {
    hide LowerExpr, Coerce, ListWired;
    var low := LowerReturn(g, ret, bid, instrs, result, st).value;
    OneWired(bid, low.blocks[0].instrs, low.blocks[0].term, low.st, outs);
    assert low == Blocks([Block(bid, low.blocks[0].instrs, low.blocks[0].term)], low.st);
  }

  lemma PartThenRest(g: Env, ret: Option<CType>, j: Jumps, bid: nat, lo: nat, part: Blocks, restId: nat,
      rest: seq<Stmt>, term: Term)
    requires LowerList(g, ret, j, restId, [], rest, term, part.st).Some? && lo <= restId < part.st.block && bid < lo
    requires Wired(part.blocks, {bid} + (Between(lo, part.st.block) - {restId}), {restId}) && bid in Ids(part.blocks)
    ensures var b := LowerList(g, ret, j, restId, [], rest, term, part.st).value;
      ListWired(Blocks(part.blocks + b.blocks, b.st), bid, lo, Outs(j, term))
    decreases Size(rest), 4
  {
    hide Wired, Ids, LowerList;
    RestWiredFrom(g, ret, j, bid, lo, part, restId, rest, term, {restId});
  }

  lemma RestWiredFrom(g: Env, ret: Option<CType>, j: Jumps, bid: nat, lo: nat, part: Blocks, restId: nat,
      rest: seq<Stmt>, term: Term, exits: set<nat>)
    requires LowerList(g, ret, j, restId, [], rest, term, part.st).Some? && lo <= restId < part.st.block && bid < lo
    requires Wired(part.blocks, {bid} + (Between(lo, part.st.block) - {restId}), exits) && bid in Ids(part.blocks) &&
        exits <= {restId} + Outs(j, Jump(restId))
    ensures var b := LowerList(g, ret, j, restId, [], rest, term, part.st).value;
      ListWired(Blocks(part.blocks + b.blocks, b.st), bid, lo, Outs(j, term))
    decreases Size(rest), 3
  {
    hide Wired, Ids, LowerList;
    var own := {bid} + (Between(lo, part.st.block) - {restId});
    WiredWeaker(part.blocks, own, own, exits, {restId} + Outs(j, Jump(restId)));
    RestWired(g, ret, j, bid, lo, part, restId, rest, term);
  }

  lemma SwitchListWired(g: Env, ret: Option<CType>, j: Jumps, bid: nat, instrs: seq<Instr>, stmts: seq<Stmt>,
      term: Term, st: St)
    requires stmts != [] && stmts[0].Switch? && LowerList(g, ret, j, bid, instrs, stmts, term, st).Some? &&
        bid < st.block
    ensures ListWired(LowerList(g, ret, j, bid, instrs, stmts, term, st).value, bid, st.block, Outs(j, term))
    decreases Size(stmts), 0
  {
    hide Wired, Ids, LowerExpr, LowerSwitch, Size, StmtSize, LowerList;
    HeadSize(stmts);
    SwitchStep(g, ret, j, bid, instrs, stmts, term, st);
    var body := SwitchBody(stmts[0].body);
    var dispatchId, restId := st.block, st.block + 1;
    var v := LowerExpr(g, stmts[0].value, st.temp).value;
    var sw := LowerSwitch(g, ret, j, dispatchId, restId, v.op, body, St(v.next, st.block + 2)).value;
    var head := [Block(bid, instrs + v.instrs, Jump(dispatchId))];
    WiredOne(head[0]);
    SwitchWired(g, ret, j, dispatchId, restId, v.op, body, St(v.next, st.block + 2));
    var own := {dispatchId} + Between(st.block + 2, sw.st.block);
    var exits := {restId} + Outs(j, Jump(restId));
    WiredJoin(head, sw.blocks, {bid}, own, {dispatchId}, exits, exits);
    WiredWeaker(head + sw.blocks, {bid} + own, {bid} + (Between(st.block, sw.st.block) - {restId}), exits, exits);
    RestWired(g, ret, j, bid, st.block, Blocks(head + sw.blocks, sw.st), restId, stmts[1..], term);
  }

  lemma IfListWired(g: Env, ret: Option<CType>, j: Jumps, bid: nat, instrs: seq<Instr>, stmts: seq<Stmt>, term: Term,
      st: St)
    requires stmts != [] && stmts[0].If? && LowerList(g, ret, j, bid, instrs, stmts, term, st).Some? && bid < st.block
    ensures ListWired(LowerList(g, ret, j, bid, instrs, stmts, term, st).value, bid, st.block, Outs(j, term))
    decreases Size(stmts), 0
  {
    hide Wired, Ids, LowerIf, Size, StmtSize, LowerList;
    HeadSize(stmts);
    IfStep(g, ret, j, bid, instrs, stmts, term, st);
    var stmt, rest, lo := stmts[0], stmts[1..], st.block;
    var st' := st.(block := lo + 2);
    var (joinId, joined) := LowerJoin(g, ret, j, rest, term, st').value;
    var outs := Outs(j, term);
    var oj := Between(lo + 2, joined.st.block);
    if rest == [] && term.Jump? {
      NoneWired(oj, outs);
    } else {
      ListWires(g, ret, j, joinId, [], rest, term, st'.(block := joinId + 1));
      WiredWeaker(joined.blocks, {joinId} + Between(joinId + 1, joined.st.block), oj, outs, outs);
    }
    var a := LowerIf(g, ret, j, bid, instrs, stmt.cond, stmt.yes, stmt.no, joinId, lo, joined.st).value;
    IfWired(g, ret, j, bid, instrs, stmt.cond, stmt.yes, stmt.no, joinId, lo, joined.st);
    JoinWired(a.blocks, joined.blocks, bid, lo, joined.st.block, a.st.block, Outs(j, Jump(joinId)), outs);
  }

  lemma JoinWired(a: seq<Block>, joined: seq<Block>, bid: nat, lo: nat, mid: nat, hi: nat, exits: set<nat>,
      outs: set<nat>)
    requires bid < lo && lo + 2 <= mid <= hi && exits <= Ids(joined) + outs
    requires Wired(a, {bid, lo, lo + 1} + Between(mid, hi), exits) && bid in Ids(a) &&
        Wired(joined, Between(lo + 2, mid), outs)
    ensures Wired(a + joined, {bid} + Between(lo, hi), outs) && bid in Ids(a + joined)
  {
    hide Wired, Ids;
    var oa, oj := {bid, lo, lo + 1} + Between(mid, hi), Between(lo + 2, mid);
    WiredJoin(a, joined, oa, oj, exits, outs, outs);
    WiredWeaker(a + joined, oa + oj, {bid} + Between(lo, hi), outs, outs);
  }

  // ---- The entry block is not jumped to -------------------------------------------------------------

  predicate Avoids(blocks: seq<Block>, x: nat) { forall b :: b in blocks ==> x !in Targets(b.term) }

  predicate Passes(j: Jumps, x: nat) { j.breakTo != Some(x) && j.continueTo != Some(x) }

  lemma {:induction false} ConditionAvoids(g: Env, bid: nat, instrs: seq<Instr>, cond: Expr, yes: nat, no: nat, st: St,
      x: nat)
    requires LowerCondition(g, bid, instrs, cond, yes, no, st).Some? && x < st.block && x != yes && x != no
    ensures Avoids(LowerCondition(g, bid, instrs, cond, yes, no, st).value.blocks, x)
    decreases cond
  {
    hide LowerExpr, Converted, ExprType;
    if cond.Binary? && (cond.op.OpLogAnd? || cond.op.OpLogOr?) {
      var right := st.block;
      var t, f := if cond.op.OpLogAnd? then right else yes, if cond.op.OpLogAnd? then no else right;
      ConditionAvoids(g, bid, instrs, cond.l, t, f, st.(block := right + 1), x);
      ConditionAvoids(g, right, [], cond.r, yes, no,
          LowerCondition(g, bid, instrs, cond.l, t, f, st.(block := right + 1)).value.st, x);
    } else if cond.Unary? && cond.uop.Not? {
      ConditionAvoids(g, bid, instrs, cond.e, no, yes, st, x);
    }
  }

  lemma {:induction false} DispatchAvoids(g: Env, bid: nat, value: Operand, otherwise: nat, cases: seq<(Expr, nat)>,
      st: St, x: nat)
    requires LowerDispatch(g, bid, value, otherwise, cases, st).Some? && x < st.block && x != otherwise &&
        x !in CaseTargets(cases)
    ensures Avoids(LowerDispatch(g, bid, value, otherwise, cases, st).value.blocks, x)
    decreases |cases|
  {
    hide LowerExpr;
    if |cases| > 1 {
      DispatchAvoids(g, st.block, value, otherwise, cases[1..],
          St(LowerExpr(g, cases[0].0, st.temp).value.next, st.block + 1), x);
    }
  }

  lemma {:induction false} ClausesAvoid(g: Env, ret: Option<CType>, j: Jumps, restId: nat, clauses: seq<Clause>,
      first: nat, st: St, x: nat)
    requires LowerClauses(g, ret, j, restId, clauses, first, st).Some? && x < first && first + |clauses| <= st.block &&
        x != restId && Passes(j, x)
    ensures Avoids(LowerClauses(g, ret, j, restId, clauses, first, st).value.blocks, x)
    decreases ClausesSize(clauses), 2
  {
    hide LowerList, Size;
    if clauses != [] {
      var through := if |clauses| == 1 then restId else first + 1;
      ListAvoids(g, ret, j, first, [], clauses[0].body, Jump(through), st, x);
      ClausesAvoid(g, ret, j, restId, clauses[1..], first + 1,
          LowerList(g, ret, j, first, [], clauses[0].body, Jump(through), st).value.st, x);
    }
  }

  lemma SwitchAvoids(g: Env, ret: Option<CType>, j: Jumps, dispatchId: nat, restId: nat, value: Operand,
      stmts: seq<Stmt>, st: St, x: nat)
    requires LowerSwitch(g, ret, j, dispatchId, restId, value, stmts, st).Some? && x < st.block && x != restId &&
        Passes(j, x)
    ensures Avoids(LowerSwitch(g, ret, j, dispatchId, restId, value, stmts, st).value.blocks, x)
    decreases Size(stmts), 3
  {
    hide LowerDispatch, LowerClauses, Size;
    var clauses, first := CollectClauses(stmts), st.block;
    CollectSize(None, [], [], stmts);
    EmptySize();
    CasesAreClauses(clauses, first, restId);
    var otherwise, cases := DefaultTarget(restId, clauses, first), SwitchCases(clauses, first);
    var a := LowerDispatch(g, dispatchId, value, otherwise, cases, st.(block := first + |clauses|)).value;
    DispatchAvoids(g, dispatchId, value, otherwise, cases, st.(block := first + |clauses|), x);
    ClausesAvoid(g, ret, Jumps(Some(restId), j.continueTo), restId, clauses, first, a.st, x);
  }

  /** The loop's blocks avoid whatever was numbered before it. */
  lemma LoopAvoids(g: Env, ret: Option<CType>, bid: nat, instrs: seq<Instr>, stmt: Stmt, st: St, x: nat)
    requires x < st.block
    ensures stmt.While? && LowerWhile(g, ret, bid, instrs, stmt.cond, stmt.body, st).Some? ==>
      Avoids(LowerWhile(g, ret, bid, instrs, stmt.cond, stmt.body, st).value.blocks, x)
    ensures stmt.DoWhile? && LowerDoWhile(g, ret, bid, instrs, stmt.body, stmt.cond, st).Some? ==>
      Avoids(LowerDoWhile(g, ret, bid, instrs, stmt.body, stmt.cond, st).value.blocks, x)
    decreases StmtSize(stmt) - 1, 2
  {
    hide LowerCondition, LowerList, Size;
    if stmt.While? && LowerWhile(g, ret, bid, instrs, stmt.cond, stmt.body, st).Some? {
      var condId, bodyId, restId := st.block, st.block + 1, st.block + 2;
      ConditionAvoids(g, condId, [], stmt.cond, bodyId, restId, st.(block := st.block + 3), x);
      ListAvoids(g, ret, Jumps(Some(restId), Some(condId)), bodyId, [], stmt.body, Jump(condId),
          LowerCondition(g, condId, [], stmt.cond, bodyId, restId, st.(block := st.block + 3)).value.st, x);
    } else if stmt.DoWhile? && LowerDoWhile(g, ret, bid, instrs, stmt.body, stmt.cond, st).Some? {
      var bodyId, condId, restId := st.block, st.block + 1, st.block + 2;
      ConditionAvoids(g, condId, [], stmt.cond, bodyId, restId, st.(block := st.block + 3), x);
      ListAvoids(g, ret, Jumps(Some(restId), Some(condId)), bodyId, [], stmt.body, Jump(condId),
          LowerCondition(g, condId, [], stmt.cond, bodyId, restId, st.(block := st.block + 3)).value.st, x);
    }
  }

  lemma ForAvoids(g: Env, ret: Option<CType>, bid: nat, instrs: seq<Instr>, init: ForInit, test: Option<Expr>,
      step: Option<Expr>, body: seq<Stmt>, restId: nat, st: St, x: nat)
    requires LowerFor(g, ret, bid, instrs, init, test, step, body, restId, st).Some? && x < st.block && x != restId
    ensures Avoids(LowerFor(g, ret, bid, instrs, init, test, step, body, restId, st).value.blocks, x)
    decreases Size(body), 2
  {
    hide LowerInit, LowerCondition, LowerStep, LowerList, Size;
    var i := LowerInit(g, init, st.temp).value;
    var condId, bodyId, stepId := st.block, st.block + 1, st.block + 2;
    var a := LowerTest(g, test, condId, bodyId, restId, St(i.next, st.block + 3)).value;
    var s := LowerStep(g, step, a.st.temp).value;
    if test.Some? { ConditionAvoids(g, condId, [], test.value, bodyId, restId, St(i.next, st.block + 3), x); }
    ListAvoids(g, ret, Jumps(Some(restId), Some(stepId)), bodyId, [], body, Jump(stepId), a.st.(temp := s.next), x);
  }

  lemma IfAvoids(g: Env, ret: Option<CType>, j: Jumps, bid: nat, instrs: seq<Instr>, cond: Expr, yes: seq<Stmt>,
      no: seq<Stmt>, joinId: nat, yesId: nat, st: St, x: nat)
    requires LowerIf(g, ret, j, bid, instrs, cond, yes, no, joinId, yesId, st).Some? && x < yesId < st.block &&
        x != joinId && Passes(j, x)
    ensures Avoids(LowerIf(g, ret, j, bid, instrs, cond, yes, no, joinId, yesId, st).value.blocks, x)
    decreases Size(yes) + Size(no), 2
  {
    hide LowerCondition, LowerList, Size;
    var a := LowerList(g, ret, j, yesId, [], yes, Jump(joinId), st).value;
    var b := (if no == [] then Some(Blocks([], a.st))
        else LowerList(g, ret, j, yesId + 1, [], no, Jump(joinId), a.st)).value;
    ListAvoids(g, ret, j, yesId, [], yes, Jump(joinId), st, x);
    if no != [] { ListAvoids(g, ret, j, yesId + 1, [], no, Jump(joinId), a.st, x); }
    ConditionAvoids(g, bid, instrs, cond, yesId, if no == [] then joinId else yesId + 1, b.st, x);
  }

  /** Statements jump to fresh blocks, the terminator's targets and the enclosing break
      and continue targets, so never to another block numbered before them. */
  lemma {:induction false} ListAvoids(g: Env, ret: Option<CType>, j: Jumps, bid: nat, instrs: seq<Instr>,
      stmts: seq<Stmt>, term: Term, st: St, x: nat)
    requires LowerList(g, ret, j, bid, instrs, stmts, term, st).Some? && x < st.block && x !in Targets(term) &&
        Passes(j, x)
    ensures Avoids(LowerList(g, ret, j, bid, instrs, stmts, term, st).value.blocks, x)
    decreases Size(stmts), 1
  {
    hide LowerExpr, LowerEffects, LowerDeclare, LowerFor, LowerSwitch, LowerIf, LowerWhile, LowerDoWhile, LowerReturn,
        Size, StmtSize, Avoids;
    if stmts == [] {
      OneAvoids(Block(bid, instrs, term), x);
    } else {
      HeadSize(stmts);
      var rest := stmts[1..];
      match stmts[0]
      case ReturnWith(result) => ReturnAvoids(g, ret, bid, instrs, result, st, x);
      case Break => OneAvoids(Block(bid, instrs, Jump(j.breakTo.value)), x);
      case Continue => OneAvoids(Block(bid, instrs, Jump(j.continueTo.value)), x);
      case Typedef => ListAvoids(g, ret, j, bid, instrs, rest, term, st, x);
      case Declare(ds) =>
        var a := LowerDeclare(g, ds, st.temp).value;
        ListAvoids(g, ret, j, bid, instrs + a.instrs, rest, term, st.(temp := a.next), x);
      case Evaluate(e) =>
        var a := LowerEffects(g, e, st.temp).value;
        ListAvoids(g, ret, j, bid, instrs + a.instrs, rest, term, st.(temp := a.next), x);
      case While(cond, body) =>
        LoopAvoids(g, ret, bid, instrs, stmts[0], st, x);
        RestAvoids(g, ret, j, LowerWhile(g, ret, bid, instrs, cond, body, st).value, st.block + 2, rest, term, x);
      case DoWhile(body, cond) =>
        LoopAvoids(g, ret, bid, instrs, stmts[0], st, x);
        RestAvoids(g, ret, j, LowerDoWhile(g, ret, bid, instrs, body, cond, st).value, st.block + 2, rest, term, x);
      case For(init, test, step, body) =>
        ForAvoids(g, ret, bid, instrs, init, test, step, body, st.block, st.(block := st.block + 1), x);
        RestAvoids(g, ret, j, LowerFor(g, ret, bid, instrs, init, test, step, body, st.block,
            st.(block := st.block + 1)).value, st.block, rest, term, x);
      case Scope(body) =>
        if rest == [] {
          ListAvoids(g, ret, j, bid, instrs, body, term, st, x);
        } else {
          ListAvoids(g, ret, j, bid, instrs, body, Jump(st.block), st.(block := st.block + 1), x);
          RestAvoids(g, ret, j, LowerList(g, ret, j, bid, instrs, body, Jump(st.block),
              st.(block := st.block + 1)).value, st.block, rest, term, x);
        }
      case Switch(value, body) => SwitchListAvoids(g, ret, j, bid, instrs, stmts, term, st, x);
      case If(cond, yes, no) => IfListAvoids(g, ret, j, bid, instrs, stmts, term, st, x);
    }
  }

  lemma SwitchListAvoids(g: Env, ret: Option<CType>, j: Jumps, bid: nat, instrs: seq<Instr>, stmts: seq<Stmt>,
      term: Term, st: St, x: nat)
    requires stmts != [] && stmts[0].Switch? && LowerList(g, ret, j, bid, instrs, stmts, term, st).Some?
    requires x < st.block && x !in Targets(term) && Passes(j, x)
    ensures Avoids(LowerList(g, ret, j, bid, instrs, stmts, term, st).value.blocks, x)
    decreases Size(stmts), 0
  {
    hide LowerExpr, LowerSwitch, Size, StmtSize, Avoids, LowerList;
    HeadSize(stmts);
    SwitchStep(g, ret, j, bid, instrs, stmts, term, st);
    var body := SwitchBody(stmts[0].body);
    var v := LowerExpr(g, stmts[0].value, st.temp).value;
    var st' := St(v.next, st.block + 2);
    SwitchAvoids(g, ret, j, st.block, st.block + 1, v.op, body, st', x);
    var sw := LowerSwitch(g, ret, j, st.block, st.block + 1, v.op, body, st').value;
    var head := Block(bid, instrs + v.instrs, Jump(st.block));
    OneAvoids(head, x);
    AvoidsJoin([head], sw.blocks, x);
    RestAvoids(g, ret, j, Blocks([head] + sw.blocks, sw.st), st.block + 1, stmts[1..], term, x);
  }

  lemma IfListAvoids(g: Env, ret: Option<CType>, j: Jumps, bid: nat, instrs: seq<Instr>, stmts: seq<Stmt>, term: Term,
      st: St, x: nat)
    requires stmts != [] && stmts[0].If? && LowerList(g, ret, j, bid, instrs, stmts, term, st).Some?
    requires x < st.block && x !in Targets(term) && Passes(j, x)
    ensures Avoids(LowerList(g, ret, j, bid, instrs, stmts, term, st).value.blocks, x)
    decreases Size(stmts), 0
  {
    hide LowerIf, Size, StmtSize, Avoids, LowerList;
    HeadSize(stmts);
    IfStep(g, ret, j, bid, instrs, stmts, term, st);
    var stmt, rest := stmts[0], stmts[1..];
    var (joinId, joined) := LowerJoin(g, ret, j, rest, term, st.(block := st.block + 2)).value;
    if rest == [] && term.Jump? {
      NoneAvoids(x);
    } else {
      ListAvoids(g, ret, j, joinId, [], rest, term, st.(block := joinId + 1), x);
    }
    IfAvoids(g, ret, j, bid, instrs, stmt.cond, stmt.yes, stmt.no, joinId, st.block, joined.st, x);
    AvoidsJoin(LowerIf(g, ret, j, bid, instrs, stmt.cond, stmt.yes, stmt.no, joinId, st.block, joined.st).value.blocks,
        joined.blocks, x);
  }

  lemma NoneAvoids(x: nat)
    ensures Avoids([], x)
  {
  }

  lemma OneAvoids(block: Block, x: nat)
    requires x !in Targets(block.term)
    ensures Avoids([block], x)
  {
  }

  lemma AvoidsJoin(a: seq<Block>, b: seq<Block>, x: nat)
    requires Avoids(a, x) && Avoids(b, x)
    ensures Avoids(a + b, x)
  {
  }

  lemma ReturnAvoids(g: Env, ret: Option<CType>, bid: nat, instrs: seq<Instr>, result: Option<Expr>, st: St, x: nat)
    requires LowerReturn(g, ret, bid, instrs, result, st).Some?
    ensures Avoids(LowerReturn(g, ret, bid, instrs, result, st).value.blocks, x)
  {
    hide LowerExpr, Coerce;
  }

  lemma RestAvoids(g: Env, ret: Option<CType>, j: Jumps, part: Blocks, restId: nat, rest: seq<Stmt>, term: Term, x: nat)
    requires Avoids(part.blocks, x) && LowerList(g, ret, j, restId, [], rest, term, part.st).Some?
    requires x < part.st.block && x !in Targets(term) && Passes(j, x)
    ensures Avoids(part.blocks + LowerList(g, ret, j, restId, [], rest, term, part.st).value.blocks, x)
    decreases Size(rest), 2
  {
    hide LowerList, Avoids, Size;
    ListAvoids(g, ret, j, restId, [], rest, term, part.st, x);
    AvoidsJoin(part.blocks, LowerList(g, ret, j, restId, [], rest, term, part.st).value.blocks, x);
  }
}
