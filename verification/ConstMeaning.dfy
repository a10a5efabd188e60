/** What a constant expression means: integers, evaluated lazily. The parser's evaluation
    with its live flag agrees with it. */
module ConstMeaning {
  import opened Options
  import opened Words
  import opened CTypes
  import opened Ir
  import opened Integers
  import opened Source
  import opened ByteWords
  import opened Constants
  import opened ConstExpr
  import opened Grammar
  import Literals

  // ---- The reference ----------------------------------------------------------------------

  /** The type of truth values and characters; #if has one signed type. */
  function IntType(preprocessing: bool): CType { if preprocessing then Long else Int }

  function ResultType(preprocessing: bool, op: Operator, a: CType, b: CType): CType
  {
    if IsTruth(op) then IntType(preprocessing) else if IsShift(op) then a else Usual(a, b)
  }

  /** The type of a tree depends on its shape and atoms alone. */
  function TypeOfTree(s: Settings, t: Tree): CType
    requires Sound(s)
  {
    match t
    case Leaf(token) => if Atom(s, token).Ok? then TypeOf(Atom(s, token).value) else IntType(s.preprocessing)
    case Parens(e) => TypeOfTree(s, e)
    case Prefix(sign, e) => if sign.Not? then IntType(s.preprocessing) else TypeOfTree(s, e)
    case Binary(op, l, r) => ResultType(s.preprocessing, op, TypeOfTree(s, l), TypeOfTree(s, r))
    case Choice(_, y, n) => Usual(TypeOfTree(s, y), TypeOfTree(s, n))
  }

  /** The value of an operator; None is a zero divisor or an invalid shift count. Only an
      overflowing quotient, undefined at run time, has a value here. */
  function Computed(op: Operator, ta: CType, tb: CType, a: int, b: int): Option<int>
  {
    if op.OpDiv? || op.OpRem? then
      var ty := Usual(ta, tb);
      var (x, y) := (Convert(ty, a), Convert(ty, b));
      if y == 0 then None else Some(Convert(ty, if op.OpDiv? then TruncDiv(x, y) else TruncRem(x, y)))
    else BinaryResult(op, ta, tb, a, b)
  }

  function Negated(sign: UnaryOperator, ty: CType, v: int): int
  {
    match sign
    case Plus => v
    case Minus => Convert(ty, -v)
    case Complement => Convert(ty, -v - 1)
    case Not => Truth(v == 0)
  }

  function AtomMeaning(s: Settings, token: Token): Result<int>
  {
    match token
    case Ident(name) =>
      (match Lookup(s.names, name)
       case Some(c) => Ok(ValueOf(c))
       case None => if s.preprocessing then Ok(0) else Err(UnknownName))
    case Number(text) => if Literals.SpeltValue(text) < M64 then Ok(Literals.SpeltValue(text)) else Err(LiteralTooLarge)
    case CharToken(v) => Ok(Convert(IntType(s.preprocessing), v))
    case _ => Err(Malformed)
  }

  /** Lazily, and in integers: an operand of && or || the left one decides, and the arm of
      a conditional not chosen, are not looked at. */
  function Meaning(s: Settings, t: Tree): Result<int>
    requires Sound(s)
  {
    match t
    case Leaf(token) => AtomMeaning(s, token)
    case Parens(e) => Meaning(s, e)
    case Prefix(sign, e) =>
      var v :- Meaning(s, e);
      Ok(Negated(sign, TypeOfTree(s, e), v))
    case Binary(op, l, r) =>
      var a :- Meaning(s, l);
      if op.OpLogAnd? && a == 0 then Ok(0)
      else if op.OpLogOr? && a != 0 then Ok(1)
      else
        var b :- Meaning(s, r);
        if op.OpLogAnd? || op.OpLogOr? then Ok(Truth(b != 0))
        else
          (match Computed(op, TypeOfTree(s, l), TypeOfTree(s, r), a, b)
           case Some(v) => Ok(v)
           case None => Err(if op.OpShl? || op.OpShr? then InvalidShift else DivisionByZero))
    case Choice(c, y, n) =>
      var test :- Meaning(s, c);
      var v :- Meaning(s, if test != 0 then y else n);
      Ok(Convert(TypeOfTree(s, t), v))
  }

  /** Every name is known and every literal fits, wherever it stands. */
  predicate AtomsValid(s: Settings, t: Tree)
    requires Sound(s)
  {
    match t
    case Leaf(token) => Atom(s, token).Ok?
    case Parens(e) => AtomsValid(s, e)
    case Prefix(_, e) => AtomsValid(s, e)
    case Binary(_, l, r) => AtomsValid(s, l) && AtomsValid(s, r)
    case Choice(c, y, n) => AtomsValid(s, c) && AtomsValid(s, y) && AtomsValid(s, n)
  }

  // ---- Operators ----------------------------------------------------------------------------

  lemma IntOfValue(preprocessing: bool, v: int)
    ensures TypeOf(IntOf(preprocessing, v)) == IntType(preprocessing)
    ensures ValueOf(IntOf(preprocessing, v)) == Convert(IntType(preprocessing), v)
  {
    hide Convert, BytesOf, Unsigned, Signed;
    var c := IntOf(preprocessing, v);
    TypedValue(c);
    ConvertedBytes(IntType(preprocessing), c.bytes, v);
  }

  lemma TruthOfValue(preprocessing: bool, b: bool)
    ensures TypeOf(IntOf(preprocessing, if b then 1 else 0)) == IntType(preprocessing)
    ensures ValueOf(IntOf(preprocessing, if b then 1 else 0)) == Truth(b)
  {
    hide ValueOf, TypeOf;
    IntOfValue(preprocessing, if b then 1 else 0);
  }

  /** A conversion to the common type does not make a value zero. */
  lemma CommonTruth(a: Constant, b: Constant)
    requires Typed(a) && Typed(b)
    ensures var (x, y) := CommonConstants(a, b);
      (IsTrue(x) <==> ValueOf(a) != 0) && (IsTrue(y) <==> ValueOf(b) != 0)
  {
    hide ValueOf, CommonConstants, TypeOf, IsTrue, Usual, Convert;
    var (x, y) := CommonConstants(a, b);
    TypedValue(a);
    TypedValue(b);
    CommonValue(a, b);
    TrueValue(x);
    TrueValue(y);
    KeepsTruth(TypeOf(a), TypeOf(b), ValueOf(a));
    UsualSymmetric(TypeOf(a), TypeOf(b));
    KeepsTruth(TypeOf(b), TypeOf(a), ValueOf(b));
  }

  lemma KeepsTruth(ty: CType, other: CType, v: int)
    requires Promoted(ty) && Promoted(other) && InRange(ty, v)
    ensures Convert(Usual(ty, other), v) == 0 <==> v == 0
  {
    hide Usual;
    UsualPreservesValue(ty, other, v);
    UsualPromoted(ty, other);
  }

  lemma FoldedType(op: Operator, a: Constant, b: Constant)
    requires Typed(a) && Typed(b) && !IsTruth(op) && BinaryConstant(op, a, b).Some?
    ensures var v := BinaryConstant(op, a, b).value;
      TypeOf(v) == if IsShift(op) then TypeOf(a) else TypeOf(CommonConstants(a, b).0)
  {
    hide CommonConstants, AddCarry, Multiply, BytesOp, Divide, ByteWords.Negate, CompareConstants, IsTrue, ShiftTimes,
        BytesOf;
    BinaryTyped(op, a, b);
  }

  /** A live operator has the reference's value, or its fault. */
  lemma LiveOperator(preprocessing: bool, op: Operator, a: Constant, b: Constant)
    requires Typed(a) && Typed(b) && Folds(op)
    ensures var r := ApplyOp(preprocessing, true, op, a, b);
      match Computed(op, TypeOf(a), TypeOf(b), ValueOf(a), ValueOf(b))
      case Some(v) => r.Ok? && ValueOf(r.value) == v &&
          TypeOf(r.value) == ResultType(preprocessing, op, TypeOf(a), TypeOf(b))
      case None => r == Err(FaultOf(op))
  {
    hide ValueOf, TypeOf, CommonConstants, BinaryConstant, Computed, Usual, IntOf, IsTrue;
    FoldedIsComputed(op, a, b);
    var folded := BinaryConstant(op, a, b);
    BinaryTyped(op, a, b);
    if folded.Some? {
      if IsTruth(op) {
        TrueValue(folded.value);
        ComputedTruth(op, TypeOf(a), TypeOf(b), ValueOf(a), ValueOf(b));
        TruthOfValue(preprocessing, IsTrue(folded.value));
      } else {
        FoldedType(op, a, b);
        CommonValue(a, b);
      }
    }
  }

  lemma ComputedTruth(op: Operator, ta: CType, tb: CType, a: int, b: int)
    requires IsRelation(op) && Computed(op, ta, tb, a, b).Some?
    ensures var v := Computed(op, ta, tb, a, b).value; v == Truth(v != 0)
  {
    hide BinaryResult;
    RelationTruth(op, ta, tb, a, b);
  }

  lemma RelationTruth(op: Operator, ta: CType, tb: CType, a: int, b: int)
    requires IsRelation(op) && BinaryResult(op, ta, tb, a, b).Some?
    ensures var v := BinaryResult(op, ta, tb, a, b).value; v == Truth(v != 0)
  {
    hide Usual, Convert, BitFold, TruncDiv, TruncRem, Holds, ComparedType, OperationType, Raw;
  }

  lemma FoldedIsComputed(op: Operator, a: Constant, b: Constant)
    requires Typed(a) && Typed(b) && Folds(op)
    ensures var r := Computed(op, TypeOf(a), TypeOf(b), ValueOf(a), ValueOf(b));
      var folded := BinaryConstant(op, a, b);
      (folded.Some? <==> r.Some?) && (r.Some? ==> ValueOf(folded.value) == r.value)
  {
    hide ValueOf, TypeOf, CommonConstants, DivideConstants, Usual, BinaryResult, Convert, TruncDiv, TruncRem;
    if op.OpDiv? || op.OpRem? {
      CommonValue(a, b);
      var (x, y) := CommonConstants(a, b);
      QuotientValue(x, y);
    } else {
      FoldingAgrees(op, a, b);
      TypedValue(a);
      TypedValue(b);
      Defined(op, TypeOf(a), TypeOf(b), ValueOf(a), ValueOf(b));
      hide BinaryConstant;
      Refused(op, a, b);
    }
  }

  lemma Refused(op: Operator, a: Constant, b: Constant)
    requires Typed(a) && Typed(b) && Folds(op) && !op.OpDiv? && !op.OpRem? && Agrees(op, a, b)
    ensures BinaryConstant(op, a, b).None? <==> IsShift(op) && !(0 <= ValueOf(b) < 8 * a.size)
    ensures BinaryResult(op, TypeOf(a), TypeOf(b), ValueOf(a), ValueOf(b)).Some? ==>
      BinaryConstant(op, a, b).Some? && ValueOf(BinaryConstant(op, a, b).value) ==
          BinaryResult(op, TypeOf(a), TypeOf(b), ValueOf(a), ValueOf(b)).value
  {
    hide ValueOf, TypeOf, CommonConstants, BinaryConstant, BinaryResult;
  }

  /** Only a bad shift count, and a bad division, leave an operator undefined. */
  lemma Defined(op: Operator, ta: CType, tb: CType, a: int, b: int)
    requires Promoted(ta) && Promoted(tb) && Folds(op) && !op.OpDiv? && !op.OpRem?
    ensures BinaryResult(op, ta, tb, a, b).None? <==> IsShift(op) && !(0 <= b < 8 * SizeOf(ta))
  {
    hide Usual, Convert, BitFold, TruncDiv, TruncRem, Pow2, Holds;
  }

  /** Where nothing is live an operator has its type all the same. */
  lemma DeadOperator(preprocessing: bool, op: Operator, a: Constant, b: Constant)
    requires Typed(a) && Typed(b) && !op.OpComma?
    ensures var r := ApplyOp(preprocessing, false, op, a, b);
      r.Ok? && TypeOf(r.value) == ResultType(preprocessing, op, TypeOf(a), TypeOf(b))
  {
    hide CommonConstants, BinaryConstant, Usual, IntOf, IsTrue;
    CommonValue(a, b);
    BinaryTyped(op, a, b);
    var folded := BinaryConstant(op, a, b);
    if folded.Some? {
      if IsTruth(op) { TruthOfValue(preprocessing, IsTrue(folded.value)); } else { FoldedType(op, a, b); }
    } else {
      TruthFolds(op, a, b);
    }
  }

  lemma TruthFolds(op: Operator, a: Constant, b: Constant)
    requires Typed(a) && Typed(b)
    ensures IsTruth(op) ==> BinaryConstant(op, a, b).Some?
  {
    hide CommonConstants, CompareConstants, IsTrue, RelationHolds;
  }

  /** && and || never fault, and have the type of a truth value, live or not. */
  lemma LogicalOperator(preprocessing: bool, live: bool, op: Operator, a: Constant, b: Constant)
    requires Typed(a) && Typed(b) && (op.OpLogAnd? || op.OpLogOr?)
    ensures var r := ApplyOp(preprocessing, live, op, a, b);
      && r.Ok? && TypeOf(r.value) == IntType(preprocessing)
      && ValueOf(r.value) == Truth(if op.OpLogAnd? then ValueOf(a) != 0 && ValueOf(b) != 0
          else ValueOf(a) != 0 || ValueOf(b) != 0)
  {
    hide CommonConstants, IntOf, IsTrue, TypeOf, ValueOf, BytesOf;
    var (x, y) := CommonConstants(a, b);
    CommonTruth(a, b);
    var v := if op.OpLogAnd? then IsTrue(x) && IsTrue(y) else IsTrue(x) || IsTrue(y);
    BinaryTyped(op, a, b);
    assert x.size == 4 || x.size == 8;
    TruthValue(4, v);
    TrueValue(BinaryConstant(op, a, b).value);
    TruthOfValue(preprocessing, v);
  }

  lemma UnaryMeaning(preprocessing: bool, sign: UnaryOperator, c: Constant)
    requires Typed(c)
    ensures var r := ApplyUnary(preprocessing, sign, c);
      && TypeOf(r) == (if sign.Not? then IntType(preprocessing) else TypeOf(c))
      && ValueOf(r) == Negated(sign, TypeOf(c), ValueOf(c))
  {
    hide IntOf, IsTrue, TypeOf, ValueOf, Convert, ByteWords.Negate, ByteWords.Complement;
    TrueValue(c);
    TruthOfValue(preprocessing, !IsTrue(c));
    NegateValue(c);
    SameType(c, ByteWords.Negate(c.bytes));
    SameType(c, ByteWords.Complement(c.bytes));
  }

  lemma SameType(c: Constant, bytes: seq<Byte>)
    ensures TypeOf(c.(bytes := bytes)) == TypeOf(c)
  {
  }

  lemma NegateValue(c: Constant)
    requires Typed(c)
    ensures ValueOf(c.(bytes := ByteWords.Negate(c.bytes))) == Convert(TypeOf(c), -ValueOf(c))
    ensures ValueOf(c.(bytes := ByteWords.Complement(c.bytes))) == Convert(TypeOf(c), -ValueOf(c) - 1)
  {
    hide IsTrue, TypeOf, ValueOf, Convert, ByteWords.Negate, ByteWords.Complement, Residue, Pow256, Unsigned;
    var m := Pow256(c.size);
    var k := NegatedCongruent(c);
    UnsignedBound(ByteWords.Negate(c.bytes));
    ByteWords.ModSmall(Unsigned(ByteWords.Negate(c.bytes)), m);
    ByteWords.ModShift(-ValueOf(c), k, m);
    ResultValue(c, ByteWords.Negate(c.bytes), -ValueOf(c));
    var i := Congruent(c);
    ComplementExact(c.bytes);
    UnsignedBound(c.bytes);
    ByteWords.ModSmall(Unsigned(ByteWords.Complement(c.bytes)), m);
    assert Unsigned(ByteWords.Complement(c.bytes)) == -ValueOf(c) - 1 + (1 - i) * m by {
      assert (1 - i) * m == m - i * m;
    }
    ByteWords.ModShift(-ValueOf(c) - 1, 1 - i, m);
    ResultValue(c, ByteWords.Complement(c.bytes), -ValueOf(c) - 1);
  }

  // ---- Trees ----------------------------------------------------------------------------------

  /** What a fold has to do with the reference: dead, a value of the tree's type come what
      may; live, the reference's value or fault. */
  ghost predicate Agree(s: Settings, live: bool, t: Tree)
    requires Sound(s)
  {
    var r := Fold(s, live, t);
    && (r.Ok? ==> TypeOf(r.value) == TypeOfTree(s, t))
    && (!live ==> r.Ok?)
    && (live ==> match Meaning(s, t)
                 case Ok(v) => r.Ok? && ValueOf(r.value) == v
                 case Err(fault) => r == Err(fault))
  }

  lemma AtomAgrees(s: Settings, token: Token)
    requires Sound(s)
    ensures match AtomMeaning(s, token)
      case Ok(v) => Atom(s, token).Ok? && ValueOf(Atom(s, token).value) == v
      case Err(fault) => Atom(s, token) == Err(fault)
  {
    hide Lookup, Literals.RankedChecked, Literals.SpeltValue, ValueOf, IntOf, Convert;
    match token
    case Ident(_) => IntOfValue(true, 0);
    case Number(text) => Literals.LiteralExact(s.longSize, s.preprocessing, text);
    case CharToken(v) => IntOfValue(s.preprocessing, v);
    case _ =>
  }

  /** Evaluation with the live flag is lazy evaluation: an operator's fault surfaces exactly
      where it is live, and size and signedness depend on no operand's value. */
  lemma {:induction false} LiveIsLazy(s: Settings, live: bool, t: Tree)
    requires Sound(s) && Formed(t) && AtomsValid(s, t)
    ensures Agree(s, live, t)
    decreases t, 1
  {
    hide Agree, Fold, Meaning, TypeOfTree, Atom, AtomMeaning;
    match t
    case Leaf(token) => LeafAgrees(s, live, t);
    case Parens(e) =>
      LiveIsLazy(s, live, e);
      ParensAgree(s, live, t);
    case Prefix(sign, e) =>
      LiveIsLazy(s, live, e);
      PrefixAgrees(s, live, t);
    case Binary(op, l, r) =>
      LiveIsLazy(s, live, l);
      forall on: bool ensures Agree(s, on, r) { LiveIsLazy(s, on, r); }
      if op.OpLogAnd? || op.OpLogOr? { LogicalAgrees(s, live, t); } else { OperatorAgrees(s, live, t); }
    case Choice(c, y, n) =>
      LiveIsLazy(s, live, c);
      forall on: bool ensures Agree(s, on, y) && Agree(s, on, n) { LiveIsLazy(s, on, y); LiveIsLazy(s, on, n); }
      ChoiceAgrees(s, live, t);
  }

  lemma LeafAgrees(s: Settings, live: bool, t: Tree)
    requires Sound(s) && t.Leaf? && AtomsValid(s, t)
    ensures Agree(s, live, t)
  {
    hide Atom, AtomMeaning, ValueOf, TypeOf;
    AtomAgrees(s, t.token);
  }

  lemma ParensAgree(s: Settings, live: bool, t: Tree)
    requires Sound(s) && t.Parens? && Agree(s, live, t.e)
    ensures Agree(s, live, t)
  {
    hide ValueOf, TypeOf;
  }

  lemma PrefixAgrees(s: Settings, live: bool, t: Tree)
    requires Sound(s) && t.Prefix? && Agree(s, live, t.e)
    ensures Agree(s, live, t)
  {
    hide ValueOf, TypeOf, ApplyUnary, Negated;
    var r := Fold(s, live, t.e);
    if r.Ok? { UnaryMeaning(s.preprocessing, t.sign, r.value); }
  }

  lemma OperatorAgrees(s: Settings, live: bool, t: Tree)
    requires Sound(s) && t.Binary? && Folds(t.op) && Agree(s, live, t.l) && Agree(s, live, t.r)
    ensures Agree(s, live, t)
  {
    hide ValueOf, TypeOf, ApplyOp, Computed, ResultType;
    var (a, b) := (Fold(s, live, t.l), Fold(s, live, t.r));
    if a.Ok? && b.Ok? {
      LiveOperator(s.preprocessing, t.op, a.value, b.value);
      DeadOperator(s.preprocessing, t.op, a.value, b.value);
    }
  }

  lemma LogicalAgrees(s: Settings, live: bool, t: Tree)
    requires Sound(s) && t.Binary? && (t.op.OpLogAnd? || t.op.OpLogOr?)
    requires Agree(s, live, t.l) && Agree(s, true, t.r) && Agree(s, false, t.r)
    ensures Agree(s, live, t)
  {
    hide ValueOf, TypeOf, ApplyOp, Computed, IsTrue, Usual;
    var a := Fold(s, live, t.l);
    if a.Ok? {
      TrueValue(a.value);
      var b := Fold(s, live && RightLive(t.op, a.value), t.r);
      if b.Ok? { LogicalOperator(s.preprocessing, live, t.op, a.value, b.value); }
    }
  }

  lemma ChoiceAgrees(s: Settings, live: bool, t: Tree)
    requires Sound(s) && t.Choice? && Agree(s, live, t.c)
    requires Agree(s, true, t.y) && Agree(s, false, t.y) && Agree(s, true, t.n) && Agree(s, false, t.n)
    ensures Agree(s, live, t)
  {
    hide ValueOf, TypeOf, CommonConstants, IsTrue, Usual, Convert;
    var c := Fold(s, live, t.c);
    if c.Ok? {
      var test := IsTrue(c.value);
      TrueValue(c.value);
      var (yes, no) := (Fold(s, live && test, t.y), Fold(s, live && !test, t.n));
      if yes.Ok? && no.Ok? { CommonValue(yes.value, no.value); }
    }
  }

  /** From tokens to integers: parsing the minimally parenthesised tokens of a tree reads
      them all, and gives what the tree means. */
  lemma ParsedMeaning(s: Settings, t: Tree)
    requires Sound(s) && Formed(t) && AtomsValid(s, t)
    ensures var r := Expression(s, true, 0, Spell(Minimal(t, 0)));
      match Meaning(s, t)
      case Ok(v) => r.Ok? && r.value.rest == [] && ValueOf(r.value.c) == v && TypeOf(r.value.c) == TypeOfTree(s, t)
      case Err(fault) => r == Err(fault)
  {
    hide Expression, Fold, Meaning, Spell, Minimal, TypeOfTree, ValueOf, TypeOf;
    RoundTrip(s, true, t);
    LiveIsLazy(s, true, t);
  }

  /** A condition of #if holds exactly when its expression means something other than
      zero; unknown names count as zero there. */
  lemma ConditionMeaning(t: Tree)
    requires Formed(t) && AtomsValid(Settings(true, 8, []), t)
    ensures var r := ParseCondition(Spell(Minimal(t, 0)));
      match Meaning(Settings(true, 8, []), t)
      case Ok(v) => r == Ok((v != 0, []))
      case Err(fault) => r == Err(fault)
  {
    hide Expression, Meaning, Spell, Minimal, TypeOfTree, ValueOf, IsTrue, TypeOf;
    var s := Settings(true, 8, []);
    ParsedMeaning(s, t);
    var r := Expression(s, true, 0, Spell(Minimal(t, 0)));
    if r.Ok? { TrueValue(r.value.c); }
  }
}
