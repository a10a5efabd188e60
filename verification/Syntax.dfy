/** The trees the constant-expression parser accepts are those of the grammar in section 6.5
    of ISO/IEC 9899:2011, one nonterminal at a time. */
module Syntax {
  import opened Options
  import opened Source
  import opened Constants
  import opened ConstExpr
  import Grammar

  // ---- The nonterminals ----------------------------------------------------------------------

  predicate PrimaryExpression(t: Tree)
    decreases t, 0
  {
    match t
    case Leaf(token) => token.Ident? || token.Number? || token.CharToken?
    case Parens(e) => ConditionalExpression(e)
    case _ => false
  }

  predicate UnaryExpression(t: Tree)
    decreases t, 1
  {
    PrimaryExpression(t) || (t.Prefix? && UnaryExpression(t.e))
  }

  predicate MultiplicativeExpression(t: Tree)
    decreases t, 2
  {
    UnaryExpression(t) ||
    (t.Binary? && t.op in {OpMul, OpDiv, OpRem} && MultiplicativeExpression(t.l) && UnaryExpression(t.r))
  }

  predicate AdditiveExpression(t: Tree)
    decreases t, 3
  {
    MultiplicativeExpression(t) ||
    (t.Binary? && t.op in {OpAdd, OpSub} && AdditiveExpression(t.l) && MultiplicativeExpression(t.r))
  }

  predicate ShiftExpression(t: Tree)
    decreases t, 4
  {
    AdditiveExpression(t) ||
    (t.Binary? && t.op in {OpShl, OpShr} && ShiftExpression(t.l) && AdditiveExpression(t.r))
  }

  predicate RelationalExpression(t: Tree)
    decreases t, 5
  {
    ShiftExpression(t) ||
    (t.Binary? && t.op in {OpLt, OpGt, OpLe, OpGe} && RelationalExpression(t.l) && ShiftExpression(t.r))
  }

  predicate EqualityExpression(t: Tree)
    decreases t, 6
  {
    RelationalExpression(t) ||
    (t.Binary? && t.op in {OpEq, OpNe} && EqualityExpression(t.l) && RelationalExpression(t.r))
  }

  predicate AndExpression(t: Tree)
    decreases t, 7
  {
    EqualityExpression(t) || (t.Binary? && t.op == OpAnd && AndExpression(t.l) && EqualityExpression(t.r))
  }

  predicate ExclusiveOrExpression(t: Tree)
    decreases t, 8
  {
    AndExpression(t) || (t.Binary? && t.op == OpXor && ExclusiveOrExpression(t.l) && AndExpression(t.r))
  }

  predicate InclusiveOrExpression(t: Tree)
    decreases t, 9
  {
    ExclusiveOrExpression(t) || (t.Binary? && t.op == OpOr && InclusiveOrExpression(t.l) && ExclusiveOrExpression(t.r))
  }

  predicate LogicalAndExpression(t: Tree)
    decreases t, 10
  {
    || InclusiveOrExpression(t)
    || (t.Binary? && t.op == OpLogAnd && LogicalAndExpression(t.l) && InclusiveOrExpression(t.r))
  }

  predicate LogicalOrExpression(t: Tree)
    decreases t, 11
  {
    LogicalAndExpression(t) || (t.Binary? && t.op == OpLogOr && LogicalOrExpression(t.l) && LogicalAndExpression(t.r))
  }

  /** What stands between the question mark and the colon is an expression without commas,
      so again a conditional one. */
  predicate ConditionalExpression(t: Tree)
    decreases t, 12
  {
    LogicalOrExpression(t) ||
    (t.Choice? && LogicalOrExpression(t.c) && ConditionalExpression(t.y) && ConditionalExpression(t.n))
  }

  // ---- They are the levels of precedence -------------------------------------------------------

  /** The nonterminal of a level: 13 is a unary expression, 12 a multiplicative one, and so
      on down to 3, a logical or; below is a conditional. */
  predicate AtLevel(k: nat, t: Tree)
  {
    if k >= 13 then UnaryExpression(t)
    else if k == 12 then MultiplicativeExpression(t)
    else if k == 11 then AdditiveExpression(t)
    else if k == 10 then ShiftExpression(t)
    else if k == 9 then RelationalExpression(t)
    else if k == 8 then EqualityExpression(t)
    else if k == 7 then AndExpression(t)
    else if k == 6 then ExclusiveOrExpression(t)
    else if k == 5 then InclusiveOrExpression(t)
    else if k == 4 then LogicalAndExpression(t)
    else if k == 3 then LogicalOrExpression(t)
    else ConditionalExpression(t)
  }

  /** The operators of a level. */
  predicate OperatorAt(k: nat, op: Operator)
  {
    if k == 12 then op in {OpMul, OpDiv, OpRem}
    else if k == 11 then op in {OpAdd, OpSub}
    else if k == 10 then op in {OpShl, OpShr}
    else if k == 9 then op in {OpLt, OpGt, OpLe, OpGe}
    else if k == 8 then op in {OpEq, OpNe}
    else if k == 7 then op == OpAnd
    else if k == 6 then op == OpXor
    else if k == 5 then op == OpOr
    else if k == 4 then op == OpLogAnd
    else k == 3 && op == OpLogOr
  }

  lemma LevelUnfolds(k: nat, t: Tree)
    requires 3 <= k <= 12
    ensures AtLevel(k, t) <==>
      AtLevel(k + 1, t) || (t.Binary? && OperatorAt(k, t.op) && AtLevel(k, t.l) && AtLevel(k + 1, t.r))
  {
    hide UnaryExpression;
  }

  lemma OperatorsAre(k: nat, op: Operator)
    requires 3 <= k <= 12
    ensures OperatorAt(k, op) <==> Precedence(op) == Some(k)
  {
  }

  lemma {:induction false} LevelIs(k: nat, t: Tree)
    requires 2 <= k <= 13
    ensures AtLevel(k, t) <==> Proper(t) && Level(t) >= k
    decreases t, 2 * (14 - k)
  {
    if k == 13 {
      UnaryIs(t);
    } else if k == 2 {
      ConditionalIs(t);
    } else {
      hide AtLevel, Proper, Level, OperatorAt, Precedence;
      LevelUnfolds(k, t);
      LevelIs(k + 1, t);
      if t.Binary? {
        OperatorsAre(k, t.op);
        LevelIs(k, t.l);
        LevelIs(k + 1, t.r);
        BinaryProper(k, t);
      } else {
        OtherLevel(k, t);
      }
    }
  }

  lemma BinaryProper(k: nat, t: Tree)
    requires t.Binary? && 3 <= k <= 12
    ensures Proper(t) && Level(t) >= k <==>
      (Proper(t) && Level(t) >= k + 1) ||
      (Precedence(t.op) == Some(k) && Proper(t.l) && Level(t.l) >= k && Proper(t.r) && Level(t.r) >= k + 1)
  {
    hide Precedence;
  }

  lemma OtherLevel(k: nat, t: Tree)
    requires !t.Binary? && 3 <= k <= 12
    ensures Level(t) >= k <==> Level(t) >= k + 1
  {
  }

  lemma {:induction false} UnaryIs(t: Tree)
    ensures UnaryExpression(t) <==> Proper(t) && Level(t) >= 13
    decreases t, 0
  {
    hide ConditionalExpression, Precedence;
    match t
    case Leaf(_) =>
    case Parens(e) => LevelIs(2, e); if Proper(e) { ProperLevel(e); }
    case Prefix(_, e) => LevelIs(13, e); LevelAtMost(e);
    case Binary(op, _, _) =>
    case Choice(_, _, _) =>
  }

  lemma ProperLevel(t: Tree)
    requires Proper(t)
    ensures Level(t) >= 2
  {
  }

  lemma LevelAtMost(t: Tree)
    ensures Level(t) <= 13
  {
  }

  lemma {:induction false} ConditionalIs(t: Tree)
    ensures ConditionalExpression(t) <==> Proper(t) && Level(t) >= 2
    decreases t, 23
  {
    hide LogicalOrExpression, Precedence;
    LevelIs(3, t);
    if t.Choice? {
      LevelIs(3, t.c);
      LevelIs(2, t.y);
      LevelIs(2, t.n);
    }
  }

  /** The trees of the parser's grammar are the standard's conditional expressions. */
  lemma ProperIsStandard(t: Tree)
    ensures Proper(t) <==> ConditionalExpression(t)
  {
    hide Proper, ConditionalExpression;
    ConditionalIs(t);
    if Proper(t) { ProperLevel(t); }
  }

  /** Nothing follows that an expression could go on with: an operator, but a comma, or a
      question mark. */
  predicate Ended(toks: seq<Token>)
  {
    toks == [] || (!toks[0].Question? && (toks[0].Op? ==> toks[0].op == OpComma))
  }

  /** The parser accepts exactly the standard's conditional expressions, each with the value
      of its tree. */
  lemma AcceptsStandard(s: Settings, live: bool, toks: seq<Token>, c: Constant, rest: seq<Token>)
    requires Sound(s)
    ensures Expression(s, live, 0, toks) == Ok(Step(c, rest)) <==>
      exists t :: ConditionalExpression(t) && toks == Spell(t) + rest && Fold(s, live, t) == Ok(c) && Ended(rest)
  {
    hide Expression, ConditionalExpression, Proper, Fold, Spell, Stops, Ended;
    Grammar.AcceptsTrees(s, live, toks, c, rest);
    EndedStops(rest);
    forall t ensures Proper(t) <==> ConditionalExpression(t) { ProperIsStandard(t); }
  }

  lemma EndedStops(toks: seq<Token>)
    ensures Ended(toks) <==> Stops(toks, 0)
  {
  }
}
