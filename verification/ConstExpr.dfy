/** Constant expressions: the precedence-climbing parser that evaluates as it goes, and
    the grammar it accepts. */
module ConstExpr {
  import opened Options
  import opened Words
  import opened Source
  import opened ByteWords
  import opened Constants
  import Literals

  /** A character's token carries its value. */
  datatype Token =
    | Ident(name: string)
    | Number(text: string)
    | CharToken(code: int)
    | Op(op: Operator)
    | Bang | Tilde | Open | Close | Question | Colon
    | OtherToken

  datatype Fault = DivisionByZero | InvalidShift | UnknownName | LiteralTooLarge | Malformed

  datatype Result<+T> = Ok(value: T) | Err(fault: Fault) {
    predicate IsFailure() { Err? }

    function PropagateFailure<U>(): Result<U>
      requires Err?
    {
      Err(fault)
    }

    function Extract(): T
      requires Ok?
    {
      value
    }
  }

  datatype Step = Step(c: Constant, rest: seq<Token>)

  /** Whether #if's rules hold, the size of a long, and the constants names stand for. */
  datatype Settings = Settings(preprocessing: bool, longSize: Literals.LongSize, names: seq<(string, Constant)>)

  ghost predicate Sound(s: Settings) { forall i :: 0 <= i < |s.names| ==> Typed(s.names[i].1) }

  function Lookup(names: seq<(string, Constant)>, name: string): Option<Constant>
  {
    if names == [] then None else if names[0].0 == name then Some(names[0].1) else Lookup(names[1..], name)
  }

  /** The first entry of a name counts. */
  lemma {:induction false} LookupFirst(names: seq<(string, Constant)>, name: string)
    ensures match Lookup(names, name)
      case None => forall i :: 0 <= i < |names| ==> names[i].0 != name
      case Some(c) =>
        exists i :: 0 <= i < |names| && names[i] == (name, c) && forall k :: 0 <= k < i ==> names[k].0 != name
  {
    if names != [] && names[0].0 != name {
      var rest := names[1..];
      LookupFirst(rest, name);
      if Lookup(rest, name).Some? {
        var i :| 0 <= i < |rest| && rest[i] == (name, Lookup(rest, name).value) &&
          forall k :: 0 <= k < i ==> rest[k].0 != name;
        assert names[i + 1] == rest[i];
        forall k | 0 <= k < i + 1 ensures names[k].0 != name { if k > 0 { assert names[k] == rest[k - 1]; } }
      } else {
        forall i | 0 <= i < |names| ensures names[i].0 != name { if i > 0 { assert names[i] == rest[i - 1]; } }
      }
    }
  }

  function Precedence(op: Operator): (p: Option<nat>)
    ensures p.Some? ==> 3 <= p.value <= 12
    ensures p.None? <==> op.OpComma?
  {
    match op
    case OpLogOr => Some(3)
    case OpLogAnd => Some(4)
    case OpOr => Some(5)
    case OpXor => Some(6)
    case OpAnd => Some(7)
    case OpEq => Some(8)
    case OpNe => Some(8)
    case OpLt => Some(9)
    case OpLe => Some(9)
    case OpGt => Some(9)
    case OpGe => Some(9)
    case OpShl => Some(10)
    case OpShr => Some(10)
    case OpAdd => Some(11)
    case OpSub => Some(11)
    case OpMul => Some(12)
    case OpDiv => Some(12)
    case OpRem => Some(12)
    case OpComma => None
  }

  function UnaryOf(t: Token): Option<UnaryOperator>
  {
    if t.Bang? then Some(Not)
    else if t.Tilde? then Some(Complement)
    else if t == Op(OpAdd) then Some(Plus)
    else if t == Op(OpSub) then Some(Minus)
    else None
  }

  // ---- Operators ------------------------------------------------------------------------

  function IntOf(preprocessing: bool, v: int): (c: Constant)
    ensures Typed(c)
  {
    IntConstant(if preprocessing then 8 else 4, v)
  }

  predicate IsTruth(op: Operator) { IsRelation(op) || op.OpLogAnd? || op.OpLogOr? }

  /** Whether the right operand can still matter. */
  predicate RightLive(op: Operator, left: Constant)
  {
    if op.OpLogAnd? then IsTrue(left) else if op.OpLogOr? then !IsTrue(left) else true
  }

  function FaultOf(op: Operator): Fault { if IsShift(op) then InvalidShift else DivisionByZero }

  /** A fault where nothing is live is a zero of the type the result would have had. */
  function ApplyOp(preprocessing: bool, live: bool, op: Operator, a: Constant, b: Constant): (r: Result<Constant>)
    requires Typed(a) && Typed(b)
    ensures r.Ok? ==> Typed(r.value)
  {
    BinaryTyped(op, a, b);
    match BinaryConstant(op, a, b)
    case None =>
      if live then Err(FaultOf(op)) else
      var like := if IsShift(op) then a else CommonConstants(a, b).0;
      Ok(Constant(like.size, like.unsigned, Zeros(like.size)))
    case Some(v) => Ok(if IsTruth(op) then IntOf(preprocessing, if IsTrue(v) then 1 else 0) else v)
  }

  function ApplyUnary(preprocessing: bool, op: UnaryOperator, c: Constant): (r: Constant)
    requires Typed(c)
    ensures Typed(r)
  {
    if op.Not? then IntOf(preprocessing, if IsTrue(c) then 0 else 1) else UnaryConstant(op, c)
  }

  lemma BinaryTyped(op: Operator, a: Constant, b: Constant)
    requires Typed(a) && Typed(b)
    ensures var (x, y) := CommonConstants(a, b);
      Typed(x) && Typed(y) && (BinaryConstant(op, a, b).Some? ==> Typed(BinaryConstant(op, a, b).value))
  {
    hide AddCarry, Multiply, BytesOp, ByteWords.Negate, CompareConstants, IsTrue, ShiftTimes, BytesOf, Fill,
        DivideConstants;
    var (x, y) := CommonConstants(a, b);
    DivideTyped(op.OpRem?, x, y);
  }

  lemma DivideTyped(remainder: bool, a: Constant, b: Constant)
    requires Typed(a) && Typed(b) && a.size == b.size
    ensures DivideConstants(remainder, a, b).Some? ==> Typed(DivideConstants(remainder, a, b).value)
  {
    hide Divide, ByteWords.Negate, IsTrue, IsNegative;
  }

  /** The arm chosen, at the type common to both. */
  function Chosen(test: bool, yes: Constant, no: Constant): (c: Constant)
    requires Typed(yes) && Typed(no)
    ensures Typed(c)
  {
    BinaryTyped(OpComma, yes, no);
    if test then CommonConstants(yes, no).0 else CommonConstants(yes, no).1
  }

  // ---- The parser -------------------------------------------------------------------------

  function Expression(s: Settings, live: bool, minPrec: nat, toks: seq<Token>): (r: Result<Step>)
    requires Sound(s)
    ensures r.Ok? ==> Typed(r.value.c) && |r.value.rest| < |toks|
    decreases |toks|, 3
  {
    var left :- ParseUnary(s, live, toks);
    Climb(s, live, minPrec, left.c, left.rest)
  }

  function Climb(s: Settings, live: bool, minPrec: nat, left: Constant, toks: seq<Token>): (r: Result<Step>)
    requires Sound(s) && Typed(left)
    ensures r.Ok? ==> Typed(r.value.c) && |r.value.rest| <= |toks|
    decreases |toks|, 0
  {
    if toks == [] then Ok(Step(left, toks))
    else if toks[0].Question? && minPrec <= 2 then
      match Expression(s, live && IsTrue(left), 0, toks[1..])
      case Err(fault) => Err(fault)
      case Ok(yes) =>
        match Need(Colon, yes.rest)
        case Err(fault) => Err(fault)
        case Ok(after) =>
          match Expression(s, live && !IsTrue(left), 2, after)
          case Err(fault) => Err(fault)
          case Ok(no) => Climb(s, live, minPrec, Chosen(IsTrue(left), yes.c, no.c), no.rest)
    else if toks[0].Op? && Precedence(toks[0].op).Some? && Precedence(toks[0].op).value >= minPrec then
      match Expression(s, live && RightLive(toks[0].op, left), Precedence(toks[0].op).value + 1, toks[1..])
      case Err(fault) => Err(fault)
      case Ok(right) =>
        match ApplyOp(s.preprocessing, live, toks[0].op, left, right.c)
        case Err(fault) => Err(fault)
        case Ok(v) => Climb(s, live, minPrec, v, right.rest)
    else Ok(Step(left, toks))
  }

  function ParseUnary(s: Settings, live: bool, toks: seq<Token>): (r: Result<Step>)
    requires Sound(s)
    ensures r.Ok? ==> Typed(r.value.c) && |r.value.rest| < |toks|
    decreases |toks|, 2
  {
    if toks == [] then Err(Malformed)
    else if UnaryOf(toks[0]).Some? then
      var arg :- ParseUnary(s, live, toks[1..]);
      Ok(Step(ApplyUnary(s.preprocessing, UnaryOf(toks[0]).value, arg.c), arg.rest))
    else ParsePrimary(s, live, toks)
  }

  function ParsePrimary(s: Settings, live: bool, toks: seq<Token>): (r: Result<Step>)
    requires Sound(s)
    ensures r.Ok? ==> Typed(r.value.c) && |r.value.rest| < |toks|
    decreases |toks|, 1
  {
    if toks == [] then Err(Malformed)
    else if toks[0].Open? then
      var inner :- Expression(s, live, 0, toks[1..]);
      var after :- Need(Close, inner.rest);
      Ok(Step(inner.c, after))
    else
      var c :- Atom(s, toks[0]);
      Ok(Step(c, toks[1..]))
  }

  function Need(token: Token, toks: seq<Token>): (r: Result<seq<Token>>)
    ensures r.Ok? ==> |r.value| < |toks|
  {
    if toks != [] && toks[0] == token then Ok(toks[1..]) else Err(Malformed)
  }

  /** A name, an integer literal or a character. */
  function Atom(s: Settings, token: Token): (r: Result<Constant>)
    requires Sound(s)
    ensures r.Ok? ==> Typed(r.value)
  {
    match token
    case Ident(name) =>
      LookupTyped(s.names, name);
      (match Lookup(s.names, name)
       case Some(c) => Ok(c)
       case None => if s.preprocessing then Ok(IntOf(true, 0)) else Err(UnknownName))
    case Number(text) =>
      Literals.LiteralExact(s.longSize, s.preprocessing, text);
      (match Literals.RankedChecked(s.longSize, s.preprocessing, text)
       case Some(literal) => Ok(literal.1)
       case None => Err(LiteralTooLarge))
    case CharToken(v) => Ok(IntOf(s.preprocessing, v))
    case _ => Err(Malformed)
  }

  lemma {:induction false} LookupTyped(names: seq<(string, Constant)>, name: string)
    requires forall i :: 0 <= i < |names| ==> Typed(names[i].1)
    ensures Lookup(names, name).Some? ==> Typed(Lookup(names, name).value)
  {
    if names != [] && names[0].0 != name { LookupTyped(names[1..], name); }
  }

  /** A whole #if condition: whether it holds, and what follows it. */
  function ParseCondition(toks: seq<Token>): Result<(bool, seq<Token>)>
  {
    var step :- Expression(Settings(true, 8, []), true, 0, toks);
    Ok((IsTrue(step.c), step.rest))
  }

  // ---- The grammar ---------------------------------------------------------------------------

  datatype Tree =
    | Leaf(token: Token)
    | Parens(e: Tree)
    | Prefix(sign: UnaryOperator, e: Tree)
    | Binary(op: Operator, l: Tree, r: Tree)
    | Choice(c: Tree, y: Tree, n: Tree)

  predicate IsAtom(t: Token) { t.Ident? || t.Number? || t.CharToken? }

  function SignToken(op: UnaryOperator): Token
  {
    match op
    case Plus => Op(OpAdd)
    case Minus => Op(OpSub)
    case Complement => Tilde
    case Not => Bang
  }

  /** How tightly a tree's top operator binds. */
  function Level(t: Tree): nat
  {
    match t
    case Choice(_, _, _) => 2
    case Binary(op, _, _) => if op.OpComma? then 0 else Precedence(op).value
    case _ => 13
  }

  /** Operands bind tightly enough for their places; binary operators associate to the
      left and the conditional to the right. */
  predicate Proper(t: Tree)
  {
    match t
    case Leaf(token) => IsAtom(token)
    case Parens(e) => Proper(e)
    case Prefix(_, e) => Proper(e) && Level(e) == 13
    case Binary(op, l, r) => !op.OpComma? && Proper(l) && Proper(r) && Level(l) >= Level(t) && Level(r) > Level(t)
    case Choice(c, y, n) => Proper(c) && Proper(y) && Proper(n) && Level(c) > 2
  }

  function Spell(t: Tree): (toks: seq<Token>)
    ensures |toks| > 0
  {
    match t
    case Leaf(token) => [token]
    case Parens(e) => [Open] + Spell(e) + [Close]
    case Prefix(sign, e) => [SignToken(sign)] + Spell(e)
    case Binary(op, l, r) => Spell(l) + [Op(op)] + Spell(r)
    case Choice(c, y, n) => Spell(c) + [Question] + Spell(y) + [Colon] + Spell(n)
  }

  /** The tree evaluator: what a tree is worth, with or without its faults. */
  function Fold(s: Settings, live: bool, t: Tree): (r: Result<Constant>)
    requires Sound(s)
    ensures r.Ok? ==> Typed(r.value)
  {
    match t
    case Leaf(token) => Atom(s, token)
    case Parens(e) => Fold(s, live, e)
    case Prefix(sign, e) =>
      var c :- Fold(s, live, e);
      Ok(ApplyUnary(s.preprocessing, sign, c))
    case Binary(op, l, r) =>
      var a :- Fold(s, live, l);
      var b :- Fold(s, live && RightLive(op, a), r);
      ApplyOp(s.preprocessing, live, op, a, b)
    case Choice(c, y, n) =>
      var test :- Fold(s, live, c);
      var yes :- Fold(s, live && IsTrue(test), y);
      var no :- Fold(s, live && !IsTrue(test), n);
      Ok(Chosen(IsTrue(test), yes, no))
  }

  /** What comes next is not part of a tree of this level. */
  predicate Follows(toks: seq<Token>, level: nat)
  {
    toks == [] ||
    match toks[0]
    case Op(op) => Precedence(op).Some? ==> Precedence(op).value <= level
    case Question => level > 2
    case _ => true
  }

  /** What comes next does not continue an expression of this least precedence. */
  predicate Stops(toks: seq<Token>, minPrec: nat)
  {
    toks == [] ||
    match toks[0]
    case Op(op) => Precedence(op).Some? ==> Precedence(op).value < minPrec
    case Question => minPrec > 2
    case _ => true
  }
}
