/** The constant-expression parser accepts exactly the grammar's trees, with the tree
    evaluator's value. */
module Grammar {
  import opened Options
  import opened Source
  import opened Constants
  import opened ConstExpr
  import Literals

  // ---- Every tree is parsed ---------------------------------------------------------------

  /** What an expression's parse must be, once a tree has been read off its front. */
  function Continued(s: Settings, live: bool, minPrec: nat, left: Result<Constant>, rest: seq<Token>): Result<Step>
    requires Sound(s) && (left.Ok? ==> Typed(left.value))
  {
    match left
    case Err(fault) => Err(fault)
    case Ok(c) => Climb(s, live, minPrec, c, rest)
  }

  function Read(left: Result<Constant>, rest: seq<Token>): Result<Step>
  {
    match left
    case Err(fault) => Err(fault)
    case Ok(c) => Ok(Step(c, rest))
  }

  lemma ClimbStops(s: Settings, live: bool, minPrec: nat, left: Constant, toks: seq<Token>)
    requires Sound(s) && Typed(left) && Stops(toks, minPrec)
    ensures Climb(s, live, minPrec, left, toks) == Ok(Step(left, toks))
  {
    hide Expression, ApplyOp, Chosen;
  }

  lemma ExpressionIs(s: Settings, live: bool, minPrec: nat, toks: seq<Token>, left: Result<Constant>, rest: seq<Token>)
    requires Sound(s) && (left.Ok? ==> Typed(left.value)) && ParseUnary(s, live, toks) == Read(left, rest)
    ensures Expression(s, live, minPrec, toks) == Continued(s, live, minPrec, left, rest)
  {
    hide ParseUnary, Climb;
  }

  /** Reading the tokens of a tree gives its value, and continues after them. */
  lemma {:induction false} TreeParses(s: Settings, live: bool, minPrec: nat, t: Tree, rest: seq<Token>)
    requires Sound(s) && Proper(t) && Level(t) >= minPrec && Follows(rest, Level(t))
    ensures Expression(s, live, minPrec, Spell(t) + rest) == Continued(s, live, minPrec, Fold(s, live, t), rest)
    decreases t, 2
  {
    hide Expression, Climb, Continued, Fold, ParseUnary, Spell;
    if t.Binary? {
      BinaryParses(s, live, minPrec, t, rest);
    } else if t.Choice? {
      ChoiceParses(s, live, minPrec, t, rest);
    } else {
      UnaryParses(s, live, t, rest);
      ExpressionIs(s, live, minPrec, Spell(t) + rest, Fold(s, live, t), rest);
    }
  }

  /** A unary expression ends where its tree does, whatever follows. */
  lemma {:induction false} UnaryParses(s: Settings, live: bool, t: Tree, rest: seq<Token>)
    requires Sound(s) && Proper(t) && Level(t) == 13
    ensures ParseUnary(s, live, Spell(t) + rest) == Read(Fold(s, live, t), rest)
    decreases t, 1
  {
    hide ParseUnary, Fold, Spell;
    match t
    case Leaf(_) => LeafParses(s, live, t, rest);
    case Parens(e) => ParensParse(s, live, t, rest);
    case Prefix(_, e) => PrefixParses(s, live, t, rest);
    case Binary(_, _, _) => LevelBelow(t);
    case Choice(_, _, _) =>
  }

  lemma LeafParses(s: Settings, live: bool, t: Tree, rest: seq<Token>)
    requires Sound(s) && Proper(t) && t.Leaf?
    ensures ParseUnary(s, live, Spell(t) + rest) == Read(Fold(s, live, t), rest)
  {
    hide Expression, Atom;
    var toks := Spell(t) + rest;
    assert toks[0] == t.token && toks[1..] == rest;
  }

  lemma {:induction false} ParensParse(s: Settings, live: bool, t: Tree, rest: seq<Token>)
    requires Sound(s) && Proper(t) && t.Parens?
    ensures ParseUnary(s, live, Spell(t) + rest) == Read(Fold(s, live, t), rest)
    decreases t, 0
  {
    hide Expression, Climb;
    var toks, after := Spell(t) + rest, [Close] + rest;
    assert toks[0] == Open && toks[1..] == Spell(t.e) + after && after[1..] == rest;
    TreeParses(s, live, 0, t.e, after);
    if Fold(s, live, t.e).Ok? { ClimbStops(s, live, 0, Fold(s, live, t.e).value, after); }
  }

  lemma {:induction false} PrefixParses(s: Settings, live: bool, t: Tree, rest: seq<Token>)
    requires Sound(s) && Proper(t) && t.Prefix?
    ensures ParseUnary(s, live, Spell(t) + rest) == Read(Fold(s, live, t), rest)
    decreases t, 0
  {
    hide ParsePrimary, ApplyUnary, Spell;
    SpellPrefix(t, rest);
    UnaryParses(s, live, t.e, rest);
  }

  lemma SpellPrefix(t: Tree, rest: seq<Token>)
    requires t.Prefix?
    ensures var toks := Spell(t) + rest; toks[0] == SignToken(t.sign) && toks[1..] == Spell(t.e) + rest
  {
  }

  lemma LevelBelow(t: Tree)
    requires t.Binary?
    ensures Level(t) <= 12
  {
  }

  function AfterRight(s: Settings, live: bool, minPrec: nat, op: Operator, left: Constant,
      right: Result<Step>): Result<Step>
    requires Sound(s) && Typed(left) && (right.Ok? ==> Typed(right.value.c))
  {
    if right.Err? then right
    else Continued(s, live, minPrec, ApplyOp(s.preprocessing, live, op, left, right.value.c), right.value.rest)
  }

  /** One turn of the climb, over an operator. */
  lemma ClimbOperator(s: Settings, live: bool, minPrec: nat, left: Constant, op: Operator, toks: seq<Token>)
    requires Sound(s) && Typed(left) && Precedence(op).Some? && Precedence(op).value >= minPrec
    ensures Climb(s, live, minPrec, left, [Op(op)] + toks) ==
      AfterRight(s, live, minPrec, op, left, Expression(s, live && RightLive(op, left), Precedence(op).value + 1, toks))
  {
    hide Expression, ApplyOp;
    assert ([Op(op)] + toks)[1..] == toks;
  }

  lemma {:induction false} BinaryParses(s: Settings, live: bool, minPrec: nat, t: Tree, rest: seq<Token>)
    requires Sound(s) && Proper(t) && t.Binary? && Level(t) >= minPrec && Follows(rest, Level(t))
    ensures Expression(s, live, minPrec, Spell(t) + rest) == Continued(s, live, minPrec, Fold(s, live, t), rest)
    decreases t, 0
  {
    hide Expression, Climb, ApplyOp, ParseUnary, RightLive;
    var (op, l, r) := (t.op, t.l, t.r);
    var after := Spell(r) + rest;
    assert Spell(t) + rest == Spell(l) + ([Op(op)] + after);
    TreeParses(s, live, minPrec, l, [Op(op)] + after);
    if Fold(s, live, l).Ok? {
      var a := Fold(s, live, l).value;
      ClimbOperator(s, live, minPrec, a, op, after);
      var on := live && RightLive(op, a);
      TreeParses(s, on, Level(t) + 1, r, rest);
      if Fold(s, on, r).Ok? { ClimbStops(s, on, Level(t) + 1, Fold(s, on, r).value, rest); }
    }
  }

  function AfterYes(s: Settings, live: bool, minPrec: nat, test: Constant, yes: Result<Step>): Result<Step>
    requires Sound(s) && Typed(test) && (yes.Ok? ==> Typed(yes.value.c))
  {
    if yes.Err? then yes
    else if yes.value.rest == [] || !yes.value.rest[0].Colon? then Err(Malformed)
    else
      var no := Expression(s, live && !IsTrue(test), 2, yes.value.rest[1..]);
      if no.Err? then no else Continued(s, live, minPrec, Ok(Chosen(IsTrue(test), yes.value.c, no.value.c)),
          no.value.rest)
  }

  /** One turn of the climb, over a conditional. */
  lemma ClimbChoice(s: Settings, live: bool, minPrec: nat, left: Constant, toks: seq<Token>)
    requires Sound(s) && Typed(left) && minPrec <= 2
    ensures Climb(s, live, minPrec, left, [Question] + toks) ==
      AfterYes(s, live, minPrec, left, Expression(s, live && IsTrue(left), 0, toks))
  {
    hide Expression, Chosen, IsTrue;
    assert ([Question] + toks)[1..] == toks;
  }

  lemma {:induction false} ChoiceParses(s: Settings, live: bool, minPrec: nat, t: Tree, rest: seq<Token>)
    requires Sound(s) && Proper(t) && t.Choice? && Level(t) >= minPrec && Follows(rest, Level(t))
    ensures Expression(s, live, minPrec, Spell(t) + rest) == Continued(s, live, minPrec, Fold(s, live, t), rest)
    decreases t, 0
  {
    hide Expression, Climb, ParseUnary, IsTrue, Chosen, Precedence;
    var (c, y, n) := (t.c, t.y, t.n);
    var last := Spell(n) + rest;
    var after := Spell(y) + ([Colon] + last);
    assert Spell(t) + rest == Spell(c) + ([Question] + after);
    TreeParses(s, live, minPrec, c, [Question] + after);
    if Fold(s, live, c).Ok? {
      var test := Fold(s, live, c).value;
      ClimbChoice(s, live, minPrec, test, after);
      var (yes, no) := (live && IsTrue(test), live && !IsTrue(test));
      TreeParses(s, yes, 0, y, [Colon] + last);
      if Fold(s, yes, y).Ok? {
        ClimbStops(s, yes, 0, Fold(s, yes, y).value, [Colon] + last);
        assert ([Colon] + last)[1..] == last;
        LevelAtLeast(n);
        TreeParses(s, no, 2, n, rest);
        if Fold(s, no, n).Ok? { ClimbStops(s, no, 2, Fold(s, no, n).value, rest); }
      }
    }
  }

  lemma LevelAtLeast(t: Tree)
    requires Proper(t)
    ensures 2 <= Level(t) <= 13
  {
  }

  /** A whole tree: every token is read, and the result is the tree evaluator's. */
  lemma WholeParses(s: Settings, live: bool, t: Tree)
    requires Sound(s) && Proper(t)
    ensures Expression(s, live, 0, Spell(t)) == Read(Fold(s, live, t), [])
  {
    hide Expression, Fold, Spell, Proper, Level;
    TreeParses(s, live, 0, t, []);
    assert Spell(t) + [] == Spell(t);
    if Fold(s, live, t).Ok? { ClimbStops(s, live, 0, Fold(s, live, t).value, []); }
  }

  // ---- Only trees are parsed ------------------------------------------------------------------

  /** Whatever is accepted is a tree, of the least precedence asked for, and ends where no
      longer one would do. */
  lemma {:induction false} ParsedIsTree(s: Settings, live: bool, minPrec: nat, toks: seq<Token>) returns (t: Tree)
    requires Sound(s) && minPrec <= 13 && Expression(s, live, minPrec, toks).Ok?
    ensures var step := Expression(s, live, minPrec, toks).value;
      && Proper(t) && Level(t) >= minPrec && toks == Spell(t) + step.rest
      && Fold(s, live, t) == Ok(step.c) && Stops(step.rest, minPrec)
    decreases |toks|, 3
  {
    hide Climb, ParseUnary, Fold, Proper, Level, Spell, Stops, Follows;
    hide Expression;
    ExpressionSplits(s, live, minPrec, toks);
    var left := ParseUnary(s, live, toks).value;
    var l := UnaryIsTree(s, live, toks);
    AllFollow(left.rest);
    t := ClimbIsTree(s, live, minPrec, l, left.c, left.rest);
  }

  lemma AllFollow(toks: seq<Token>)
    ensures Follows(toks, 13)
  {
  }

  lemma {:induction false} UnaryIsTree(s: Settings, live: bool, toks: seq<Token>) returns (t: Tree)
    requires Sound(s) && ParseUnary(s, live, toks).Ok?
    ensures var step := ParseUnary(s, live, toks).value;
      Proper(t) && Level(t) == 13 && toks == Spell(t) + step.rest && Fold(s, live, t) == Ok(step.c)
    decreases |toks|, 2
  {
    hide Expression, ParsePrimary, ApplyUnary, Spell;
    if UnaryOf(toks[0]).Some? {
      var sign := UnaryOf(toks[0]).value;
      var e := UnaryIsTree(s, live, toks[1..]);
      t := Tree.Prefix(sign, e);
      SpellPrefix(t, ParseUnary(s, live, toks).value.rest);
      SignOf(toks[0]);
      HeadTail(toks, Spell(t) + ParseUnary(s, live, toks).value.rest);
    } else {
      t := PrimaryIsTree(s, live, toks);
    }
  }

  lemma SignOf(token: Token)
    ensures UnaryOf(token).Some? ==> SignToken(UnaryOf(token).value) == token
  {
  }

  lemma HeadTail(a: seq<Token>, b: seq<Token>)
    requires a != [] && b != [] && a[0] == b[0] && a[1..] == b[1..]
    ensures a == b
  {
    assert a == [a[0]] + a[1..] && b == [b[0]] + b[1..];
  }

  lemma {:induction false} PrimaryIsTree(s: Settings, live: bool, toks: seq<Token>) returns (t: Tree)
    requires Sound(s) && ParsePrimary(s, live, toks).Ok?
    ensures var step := ParsePrimary(s, live, toks).value;
      Proper(t) && Level(t) == 13 && toks == Spell(t) + step.rest && Fold(s, live, t) == Ok(step.c)
    decreases |toks|, 1
  {
    hide Expression, Atom;
    var step := ParsePrimary(s, live, toks).value;
    assert toks == [toks[0]] + toks[1..];
    if toks[0].Open? {
      var e := ParsedIsTree(s, live, 0, toks[1..]);
      t := Parens(e);
      var after := Expression(s, live, 0, toks[1..]).value.rest;
      assert after == [Close] + step.rest;
    } else {
      t := Leaf(toks[0]);
      AtomToken(s, toks[0]);
    }
  }

  lemma AtomToken(s: Settings, token: Token)
    requires Sound(s) && Atom(s, token).Ok?
    ensures IsAtom(token)
  {
    hide Lookup, Literals.RankedChecked;
  }

  lemma {:induction false} ClimbIsTree(s: Settings, live: bool, minPrec: nat, l: Tree, left: Constant,
      toks: seq<Token>) returns (t: Tree)
    requires Sound(s) && Proper(l) && 13 >= Level(l) >= minPrec && Follows(toks, Level(l)) &&
        Fold(s, live, l) == Ok(left) && Typed(left)
    requires Climb(s, live, minPrec, left, toks).Ok?
    ensures var step := Climb(s, live, minPrec, left, toks).value;
      && Proper(t) && Level(t) >= minPrec && Spell(l) + toks == Spell(t) + step.rest
      && Fold(s, live, t) == Ok(step.c) && Stops(step.rest, minPrec)
    decreases |toks|, 1
  {
    if toks != [] && toks[0].Question? && minPrec <= 2 {
      t := ChoiceIsTree(s, live, minPrec, l, left, toks);
    } else if toks != [] && toks[0].Op? && Precedence(toks[0].op).Some? && Precedence(toks[0].op).value >= minPrec {
      t := OperatorIsTree(s, live, minPrec, l, left, toks);
    } else {
      t := l;
    }
  }

  lemma {:induction false} OperatorIsTree(s: Settings, live: bool, minPrec: nat, l: Tree, left: Constant,
      toks: seq<Token>) returns (t: Tree)
    requires Sound(s) && Proper(l) && 13 >= Level(l) >= minPrec && Follows(toks, Level(l)) &&
        Fold(s, live, l) == Ok(left) && Typed(left)
    requires toks != [] && toks[0].Op? && Precedence(toks[0].op).Some? && Precedence(toks[0].op).value >= minPrec
    requires Climb(s, live, minPrec, left, toks).Ok?
    ensures var step := Climb(s, live, minPrec, left, toks).value;
      && Proper(t) && Level(t) >= minPrec && Spell(l) + toks == Spell(t) + step.rest
      && Fold(s, live, t) == Ok(step.c) && Stops(step.rest, minPrec)
    decreases |toks|, 0
  {
    hide Expression, Climb, ApplyOp, RightLive, Spell, Stops;
    var op, tail := toks[0].op, toks[1..];
    assert toks == [Op(op)] + tail;
    ClimbOperator(s, live, minPrec, left, op, tail);
    var on := live && RightLive(op, left);
    var p := Precedence(op).value;
    var right := Expression(s, on, p + 1, tail).value;
    var r := ParsedIsTree(s, on, p + 1, tail);
    var b := Tree.Binary(op, l, r);
    SpellBinary(op, l, r);
    assert Spell(l) + toks == Spell(b) + right.rest;
    StopFollows(right.rest, p);
    t := ClimbIsTree(s, live, minPrec, b, ApplyOp(s.preprocessing, live, op, left, right.c).value, right.rest);
  }

  lemma ExpressionSplits(s: Settings, live: bool, minPrec: nat, toks: seq<Token>)
    requires Sound(s) && Expression(s, live, minPrec, toks).Ok?
    ensures var left := ParseUnary(s, live, toks);
      left.Ok? && Expression(s, live, minPrec, toks) == Climb(s, live, minPrec, left.value.c, left.value.rest)
  {
    hide Climb, ParseUnary;
  }

  lemma SpellBinary(op: Operator, l: Tree, r: Tree)
    ensures Spell(Tree.Binary(op, l, r)) == Spell(l) + [Op(op)] + Spell(r)
  {
  }

  lemma SpellChoice(c: Tree, y: Tree, n: Tree)
    ensures Spell(Choice(c, y, n)) == Spell(c) + [Question] + Spell(y) + [Colon] + Spell(n)
  {
  }

  /** After an operand nothing follows that the operator should have had. */
  lemma StopFollows(toks: seq<Token>, level: nat)
    requires if level == 2 then Stops(toks, 2) else level > 2 && Stops(toks, level + 1)
    ensures Follows(toks, level)
  {
  }

  lemma {:induction false} ChoiceIsTree(s: Settings, live: bool, minPrec: nat, l: Tree, left: Constant,
      toks: seq<Token>) returns (t: Tree)
    requires Sound(s) && Proper(l) && 13 >= Level(l) >= minPrec && Follows(toks, Level(l)) &&
        Fold(s, live, l) == Ok(left) && Typed(left)
    requires toks != [] && toks[0].Question? && minPrec <= 2
    requires Climb(s, live, minPrec, left, toks).Ok?
    ensures var step := Climb(s, live, minPrec, left, toks).value;
      && Proper(t) && Level(t) >= minPrec && Spell(l) + toks == Spell(t) + step.rest
      && Fold(s, live, t) == Ok(step.c) && Stops(step.rest, minPrec)
    decreases |toks|, 0
  {
    hide Expression, Climb, Chosen, IsTrue, Spell, Stops, Fold, Proper, Level, Follows;
    var tail := toks[1..];
    assert toks == [Question] + tail;
    FollowsQuestion(toks, Level(l));
    ClimbChoice(s, live, minPrec, left, tail);
    var first := Expression(s, live && IsTrue(left), 0, tail).value;
    var y := ParsedIsTree(s, live && IsTrue(left), 0, tail);
    var after := first.rest[1..];
    var second := Expression(s, live && !IsTrue(left), 2, after).value;
    var n := ParsedIsTree(s, live && !IsTrue(left), 2, after);
    SpellsChoice(l, y, n, toks, first.rest, second.rest);
    ChoiceTree(s, live, l, y, n, left, first.c, second.c);
    StopFollows(second.rest, 2);
    t := ClimbIsTree(s, live, minPrec, Choice(l, y, n), Chosen(IsTrue(left), first.c, second.c), second.rest);
  }

  lemma FollowsQuestion(toks: seq<Token>, level: nat)
    requires toks != [] && toks[0].Question? && Follows(toks, level)
    ensures level > 2
  {
  }

  lemma SpellsChoice(l: Tree, y: Tree, n: Tree, toks: seq<Token>, middle: seq<Token>, rest: seq<Token>)
    requires toks != [] && toks[0].Question? && toks[1..] == Spell(y) + middle
    requires middle != [] && middle[0].Colon? && middle[1..] == Spell(n) + rest
    ensures Spell(l) + toks == Spell(Choice(l, y, n)) + rest
  {
    hide Spell;
    SpellChoice(l, y, n);
    assert toks == [Question] + toks[1..] && middle == [Colon] + middle[1..];
  }

  lemma ChoiceTree(s: Settings, live: bool, c: Tree, y: Tree, n: Tree, test: Constant, yes: Constant, no: Constant)
    requires Sound(s) && Proper(c) && Proper(y) && Proper(n) && Level(c) > 2
    requires Fold(s, live, c) == Ok(test) && Typed(test) && Typed(yes) && Typed(no)
    requires Fold(s, live && IsTrue(test), y) == Ok(yes) && Fold(s, live && !IsTrue(test), n) == Ok(no)
    ensures var t := Choice(c, y, n);
      Proper(t) && Level(t) == 2 && Fold(s, live, t) == Ok(Chosen(IsTrue(test), yes, no))
  {
    hide Chosen, IsTrue;
  }

  /** The parser accepts exactly the grammar: a result is some tree's value and what
      follows its tokens, and every tree that is not continued gives that result. */
  lemma AcceptsTrees(s: Settings, live: bool, toks: seq<Token>, c: Constant, rest: seq<Token>)
    requires Sound(s)
    ensures Expression(s, live, 0, toks) == Ok(Step(c, rest)) <==>
      exists t :: Proper(t) && toks == Spell(t) + rest && Fold(s, live, t) == Ok(c) && Stops(rest, 0)
  {
    hide Expression, Climb, Fold, Proper, Spell, Stops, Follows, Level;
    if Expression(s, live, 0, toks) == Ok(Step(c, rest)) {
      var t := ParsedIsTree(s, live, 0, toks);
    }
    forall t | Proper(t) && toks == Spell(t) + rest && Fold(s, live, t) == Ok(c) && Stops(rest, 0)
      ensures Expression(s, live, 0, toks) == Ok(Step(c, rest))
    {
      StopsFollow(rest, Level(t));
      TreeParses(s, live, 0, t, rest);
      ClimbStops(s, live, 0, c, rest);
    }
  }

  lemma StopsFollow(toks: seq<Token>, level: nat)
    requires Stops(toks, 0)
    ensures Follows(toks, level)
  {
  }

  // ---- Parentheses only where needed ----------------------------------------------------------

  /** Any tree over the parser's operators and atoms. */
  predicate Formed(t: Tree)
  {
    match t
    case Leaf(token) => IsAtom(token)
    case Parens(e) => Formed(e)
    case Prefix(_, e) => Formed(e)
    case Binary(op, l, r) => !op.OpComma? && Formed(l) && Formed(r)
    case Choice(c, y, n) => Formed(c) && Formed(y) && Formed(n)
  }

  /** The tree with no parentheses but those its place needs. */
  function Minimal(t: Tree, place: nat): Tree
  {
    match t
    case Leaf(_) => t
    case Parens(e) => Minimal(e, place)
    case Prefix(sign, e) => Tree.Prefix(sign, Minimal(e, 13))
    case Binary(op, l, r) => Placed(Tree.Binary(op, Minimal(l, Level(t)), Minimal(r, Level(t) + 1)), place)
    case Choice(c, y, n) => Placed(Choice(Minimal(c, 3), Minimal(y, 0), Minimal(n, 2)), place)
  }

  function Placed(t: Tree, place: nat): Tree { if Level(t) < place then Parens(t) else t }

  lemma {:induction false} MinimalProper(t: Tree, place: nat)
    requires Formed(t) && place <= 13
    ensures Proper(Minimal(t, place)) && Level(Minimal(t, place)) >= place
  {
    match t
    case Leaf(_) =>
    case Parens(e) => MinimalProper(e, place);
    case Prefix(_, e) =>
      MinimalProper(e, 13);
      LevelAtLeast(Minimal(e, 13));
    case Binary(op, l, r) =>
      MinimalProper(l, Level(t));
      MinimalProper(r, Level(t) + 1);
    case Choice(c, y, n) =>
      MinimalProper(c, 3);
      MinimalProper(y, 0);
      MinimalProper(n, 2);
  }

  lemma {:induction false} MinimalKeepsValue(s: Settings, live: bool, t: Tree, place: nat)
    requires Sound(s)
    ensures Fold(s, live, Minimal(t, place)) == Fold(s, live, t)
    decreases t
  {
    hide ApplyOp, ApplyUnary, Atom, Chosen, IsTrue, RightLive;
    match t
    case Leaf(_) =>
    case Parens(e) => MinimalKeepsValue(s, live, e, place);
    case Prefix(_, e) => MinimalKeepsValue(s, live, e, 13);
    case Binary(op, l, r) =>
      MinimalKeepsValue(s, live, l, Level(t));
      if Fold(s, live, l).Ok? { MinimalKeepsValue(s, live && RightLive(op, Fold(s, live, l).value), r, Level(t) + 1); }
    case Choice(c, y, n) =>
      MinimalKeepsValue(s, live, c, 3);
      if Fold(s, live, c).Ok? {
        var test := Fold(s, live, c).value;
        MinimalKeepsValue(s, live && IsTrue(test), y, 0);
        MinimalKeepsValue(s, live && !IsTrue(test), n, 2);
      }
  }

  /** The round trip: the minimally parenthesised tokens of any tree are all read, and
      yield exactly the tree evaluator's value or fault. */
  lemma RoundTrip(s: Settings, live: bool, t: Tree)
    requires Sound(s) && Formed(t)
    ensures Expression(s, live, 0, Spell(Minimal(t, 0))) == Read(Fold(s, live, t), [])
  {
    hide Expression, Fold, Proper, Spell, Minimal, Formed;
    MinimalProper(t, 0);
    MinimalKeepsValue(s, live, t, 0);
    WholeParses(s, live, Minimal(t, 0));
  }
}
