/** The types of expressions as ISO/IEC 9899:2011 gives them, from the ranges and ranks of
    the integer types, and that the compiler's are those. */
module Typing {
  import opened Options
  import opened Words
  import opened CTypes
  import opened Source

  // ---- Ranges and ranks --------------------------------------------------------------------

  /** The limits of the types on the target, as <limits.h> would have them. */
  function Least(ty: CType): int
  {
    match ty
    case Char => -128
    case Short => -32768
    case Int => -2147483648
    case Long => -9223372036854775808
    case LongLong => -9223372036854775808
    case _ => 0
  }

  function Greatest(ty: CType): int
  {
    match ty
    case Bool => 1
    case Char => 127
    case UChar => 255
    case Short => 32767
    case UShort => 65535
    case Int => 2147483647
    case UInt => 4294967295
    case Long => 9223372036854775807
    case LongLong => 9223372036854775807
    case _ => 18446744073709551615
  }

  lemma Limits(ty: CType, v: int)
    ensures InRange(ty, v) <==> Least(ty) <= v <= Greatest(ty)
  {
  }

  /** A type takes as many bytes as its values need; _Bool takes one. */
  lemma Sizes(ty: CType)
    ensures if ty.Bool? then SizeOf(ty) == 1 else Greatest(ty) - Least(ty) + 1 == Pow256(SizeOf(ty))
    ensures Modulus(ty) == Pow256(SizeOf(ty)) && (IsUnsigned(ty) <==> Least(ty) == 0)
  {
    ModulusIsPower(ty);
  }

  /** Section 6.3.1.1, paragraph 1. */
  function ConversionRank(ty: CType): nat
  {
    match ty
    case Bool => 1
    case Char => 2
    case UChar => 2
    case Short => 3
    case UShort => 3
    case Int => 4
    case UInt => 4
    case Long => 5
    case ULong => 5
    case LongLong => 6
    case ULongLong => 6
    case Ptr(_) => 0
  }

  /** Type a has every value of type b. */
  predicate Represents(a: CType, b: CType) { Least(a) <= Least(b) && Greatest(b) <= Greatest(a) }

  // ---- Conversions -----------------------------------------------------------------------------

  /** Section 6.3.1.1, paragraph 2: an integer type ranked no higher than int becomes int
      if that has all its values, else unsigned int; any other type stays. */
  predicate Promotes(ty: CType, p: CType)
  {
    if IsInteger(ty) && ConversionRank(ty) <= ConversionRank(Int) then p == (if Represents(Int, ty) then Int else UInt)
    else p == ty
  }

  lemma PromoteIsStandard(ty: CType, p: CType)
    ensures p == Promote(ty) <==> Promotes(ty, p)
  {
  }

  predicate SignedInteger(ty: CType) { IsInteger(ty) && Least(ty) < 0 }

  /** Section 6.3.1.8: the common type of two promoted types. */
  predicate IsCommon(a: CType, b: CType, c: CType)
  {
    if a == b then c == a
    else if SignedInteger(a) == SignedInteger(b) then c == (if ConversionRank(a) > ConversionRank(b) then a else b)
    else if SignedInteger(a) then MixedCommon(a, b, c)
    else MixedCommon(b, a, c)
  }

  predicate MixedCommon(signed: CType, unsigned: CType, c: CType)
  {
    if ConversionRank(unsigned) >= ConversionRank(signed) then c == unsigned
    else if Represents(signed, unsigned) then c == signed
    else IsInteger(c) && !SignedInteger(c) && ConversionRank(c) == ConversionRank(signed)
  }

  lemma UsualIsStandard(a: CType, b: CType, c: CType)
    requires Promoted(a) && Promoted(b)
    ensures c == Usual(a, b) <==> IsCommon(a, b, c)
  {
    UsualIsCommon(a, b);
    CommonUnique(a, b, c, Usual(a, b));
  }

  lemma UsualIsCommon(a: CType, b: CType)
    requires Promoted(a) && Promoted(b)
    ensures IsCommon(a, b, Usual(a, b))
  {
    hide Represents, MixedCommon;
    if a != b && SignedInteger(a) != SignedInteger(b) {
      if SignedInteger(a) { MixedUsual(a, b); } else { MixedUsual(b, a); }
    }
  }

  lemma MixedUsual(signed: CType, unsigned: CType)
    requires Promoted(signed) && Promoted(unsigned) && SignedInteger(signed) && !SignedInteger(unsigned)
    ensures MixedCommon(signed, unsigned, Usual(signed, unsigned)) &&
        MixedCommon(signed, unsigned, Usual(unsigned, signed))
  {
  }

  lemma CommonUnique(a: CType, b: CType, c: CType, d: CType)
    requires Promoted(a) && Promoted(b) && IsCommon(a, b, d)
    ensures c == d <==> IsCommon(a, b, c)
  {
    hide *;
    CommonRule(a, b, c);
    CommonRule(a, b, d);
    if a != b && SignedInteger(a) != SignedInteger(b) {
      if SignedInteger(a) { MixedUnique(a, b, c, d); } else { MixedUnique(b, a, c, d); }
    }
  }

  lemma CommonRule(a: CType, b: CType, c: CType)
    ensures IsCommon(a, b, c) <==>
      if a == b then c == a
      else if SignedInteger(a) == SignedInteger(b) then c == (if ConversionRank(a) > ConversionRank(b) then a else b)
      else if SignedInteger(a) then MixedCommon(a, b, c)
      else MixedCommon(b, a, c)
  {
    hide MixedCommon, SignedInteger, ConversionRank;
  }

  lemma MixedUnique(signed: CType, unsigned: CType, c: CType, d: CType)
    requires Promoted(signed) && MixedCommon(signed, unsigned, d)
    ensures c == d <==> MixedCommon(signed, unsigned, c)
  {
    hide SignedInteger, ConversionRank, Represents, Promoted;
    PromotedIsStandard(signed);
    if MixedCommon(signed, unsigned, c) && ConversionRank(unsigned) < ConversionRank(signed) &&
        !Represents(signed, unsigned) {
      RankUnique(c, d);
    }
  }

  lemma RankUnique(c: CType, d: CType)
    requires IsInteger(c) && IsInteger(d) && ConversionRank(c) == ConversionRank(d) >= ConversionRank(Int)
    requires SignedInteger(c) == SignedInteger(d)
    ensures c == d
  {
  }

  /** The types promotion leads to. */
  lemma PromotedIsStandard(ty: CType)
    ensures Promoted(ty) <==> IsInteger(ty) && ConversionRank(ty) >= ConversionRank(Int)
  {
  }

  // ---- Literals -----------------------------------------------------------------------------------

  /** The table of section 6.4.4.1, paragraph 5. */
  function LiteralTable(s: Suffix): seq<CType>
  {
    if s.longs == 0 then
      if s.unsigned then [UInt, ULong, ULongLong]
      else if s.decimal then [Int, Long, LongLong]
      else [Int, UInt, Long, ULong, LongLong, ULongLong]
    else if s.longs == 1 then
      if s.unsigned then [ULong, ULongLong]
      else if s.decimal then [Long, LongLong]
      else [Long, ULong, LongLong, ULongLong]
    else
      if s.unsigned then [ULongLong]
      else if s.decimal then [LongLong]
      else [LongLong, ULongLong]
  }

  /** The first type of the table that has the value; a decimal literal beyond them all is
      unsigned long long. */
  predicate TypesLiteral(v: nat, s: Suffix, ty: CType)
  {
    var table := LiteralTable(s);
    if exists i :: 0 <= i < |table| && v <= Greatest(table[i])
    then exists i :: 0 <= i < |table| && ty == table[i] && FirstHolding(table, v, i)
    else ty == ULongLong
  }

  predicate FirstHolding(table: seq<CType>, v: nat, i: nat)
    requires i < |table|
  {
    v <= Greatest(table[i]) && forall k :: 0 <= k < i ==> v > Greatest(table[k])
  }

  lemma LiteralIsStandard(v: nat, s: Suffix)
    ensures TypesLiteral(v, s, LiteralType(v, s))
  {
    hide FirstFit, InRange;
    assert Candidates(s) == LiteralTable(s);
    FirstIsFirst(LiteralTable(s), v);
  }

  lemma {:induction false} FirstIsFirst(table: seq<CType>, v: nat)
    ensures var ty := FirstFit(table, v);
      if exists i :: 0 <= i < |table| && v <= Greatest(table[i])
      then exists i :: 0 <= i < |table| && ty == table[i] && FirstHolding(table, v, i)
      else ty == ULongLong
    decreases |table|
  {
    hide Greatest, Least, InRange;
    if table != [] {
      Limits(table[0], v);
      LeastBelow(table[0]);
      if InRange(table[0], v) {
        assert FirstHolding(table, v, 0);
      } else {
        var rest := table[1..];
        FirstIsFirst(rest, v);
        if i :| 0 <= i < |table| && v <= Greatest(table[i]) {
          assert rest[i - 1] == table[i];
          var j :| 0 <= j < |rest| && FirstFit(rest, v) == rest[j] && FirstHolding(rest, v, j);
          assert table[j + 1] == rest[j];
          forall k | 0 <= k < j + 1 ensures v > Greatest(table[k]) {
            if k > 0 { assert table[k] == rest[k - 1]; }
          }
          assert FirstHolding(table, v, j + 1);
        } else {
          forall i | 0 <= i < |rest| ensures v > Greatest(rest[i]) { assert rest[i] == table[i + 1]; }
        }
      }
    }
  }

  lemma LeastBelow(ty: CType)
    ensures Least(ty) <= 0
  {
  }

  // ---- Expressions ----------------------------------------------------------------------------------

  /** The arithmetic conversions of two operands: promoted, then the common type. */
  ghost predicate Converges(a: CType, b: CType, ty: CType)
  {
    IsInteger(a) && IsInteger(b) && exists p, q :: Promotes(a, p) && Promotes(b, q) && IsCommon(p, q, ty)
  }

  /** Sections 6.5.5 to 6.5.12: the type of a binary operator's result, if it has these
      operands. The compiler is laxer than C where it adds two pointers, or compares
      unlike ones. */
  ghost predicate Operates(op: Operator, a: CType, b: CType, ty: CType)
  {
    match op
    case OpLt => ty == Int
    case OpLe => ty == Int
    case OpGt => ty == Int
    case OpGe => ty == Int
    case OpEq => ty == Int
    case OpNe => ty == Int
    case OpLogAnd => ty == Int
    case OpLogOr => ty == Int
    case OpComma => ty == b
    case OpShl => IsInteger(a) && IsInteger(b) && Promotes(a, ty)
    case OpShr => IsInteger(a) && IsInteger(b) && Promotes(a, ty)
    case OpAdd => if a.Ptr? then ty == a else if b.Ptr? then ty == b else Converges(a, b, ty)
    case OpSub => if a.Ptr? then ty == (if b.Ptr? then Long else a) else Converges(a, b, ty)
    case _ => Converges(a, b, ty)
  }

  /** Section 6.5.15: the arms at their common arithmetic type, or the pointer type. */
  ghost predicate Joins(a: CType, b: CType, ty: CType)
  {
    if a.Ptr? then ty == a else if b.Ptr? then ty == b else Converges(a, b, ty)
  }

  /** Section 6.5.16.2: what a compound assignment to a may operate with. */
  predicate Updates(op: Operator, a: CType, b: CType)
  {
    match op
    case OpAdd => a.Ptr? || !b.Ptr?
    case OpSub => a.Ptr? || !b.Ptr?
    case OpMul => !a.Ptr? && !b.Ptr?
    case OpDiv => !a.Ptr? && !b.Ptr?
    case OpRem => !a.Ptr? && !b.Ptr?
    case OpShl => !a.Ptr? && !b.Ptr?
    case OpShr => !a.Ptr? && !b.Ptr?
    case OpAnd => !a.Ptr? && !b.Ptr?
    case OpXor => !a.Ptr? && !b.Ptr?
    case OpOr => !a.Ptr? && !b.Ptr?
    case _ => false
  }

  /** An lvalue: a variable, a global or what a pointer points to. */
  predicate IsLvalue(e: Expr) { e.Var? || e.GlobalVar? || e.Deref? }

  /** Expression e is well formed and has type ty. */
  ghost predicate HasType(g: Env, e: Expr, ty: CType)
    decreases e, 1
  {
    match e
    case Literal(v, s) => v < 0x1_0000_0000_0000_0000 && TypesLiteral(v, s, ty)
    case Character(_) => ty == Int
    case Var(x) => x in g.vars && ty == g.vars[x]
    case GlobalVar(name) => name in g.globals && ty == g.globals[name]
    case Deref(p) => HasType(g, p, Ptr(ty))
    case Invoke(name, args) => name in g.functions && ty == g.functions[name] && HaveTypes(g, args)
    case Unary(uop, x) => exists a :: HasType(g, x, a) && if uop.Not? then ty == Int else Promotes(a, ty)
    case Cast(to, x) => ty == to && WellTyped(g, x)
    case Prefix(_, target) => IsLvalue(target) && HasType(g, target, ty)
    case Postfix(_, target) => IsLvalue(target) && HasType(g, target, ty)
    case Binary(op, l, r) => exists a, b :: HasType(g, l, a) && HasType(g, r, b) && Operates(op, a, b, ty)
    case Conditional(test, yes, no) =>
      WellTyped(g, test) && exists a, b :: HasType(g, yes, a) && HasType(g, no, b) && Joins(a, b, ty)
    case Assignment(target, x) => IsLvalue(target) && HasType(g, target, ty) && WellTyped(g, x)
    case Compound(op, target, x) =>
      IsLvalue(target) && HasType(g, target, ty) && exists b :: HasType(g, x, b) && Updates(op, ty, b)
  }

  ghost predicate WellTyped(g: Env, e: Expr)
    decreases e, 2
  {
    exists ty :: HasType(g, e, ty)
  }

  ghost predicate HaveTypes(g: Env, args: seq<Expr>)
    decreases args, 0
  {
    args == [] || (WellTyped(g, args[0]) && HaveTypes(g, args[1..]))
  }

  // ---- The compiler's types are these ---------------------------------------------------------------

  lemma LiteralUnique(v: nat, s: Suffix, ty: CType)
    requires TypesLiteral(v, s, ty)
    ensures ty == LiteralType(v, s)
  {
    hide LiteralType, LiteralTable, Greatest;
    LiteralIsStandard(v, s);
  }

  lemma ConvergesIsUsual(a: CType, b: CType, ty: CType)
    ensures Converges(a, b, ty) <==> Arithmetic(a, b) == Some(ty)
  {
    hide Converges, IsCommon, Promotes, Usual, Promote, Promoted;
    if IsInteger(a) && IsInteger(b) {
      var p, q := Promote(a), Promote(b);
      PromotesToPromoted(a);
      PromotesToPromoted(b);
      UsualIsStandard(p, q, ty);
      ConvergesAt(a, b, p, q, ty);
    } else {
      OnlyIntegers(a, b, ty);
    }
  }

  lemma OnlyIntegers(a: CType, b: CType, ty: CType)
    ensures Converges(a, b, ty) ==> IsInteger(a) && IsInteger(b)
  {
    hide IsCommon, Promotes;
  }

  lemma ConvergesAt(a: CType, b: CType, p: CType, q: CType, ty: CType)
    requires IsInteger(a) && IsInteger(b) && p == Promote(a) && q == Promote(b)
    ensures Converges(a, b, ty) <==> IsCommon(p, q, ty)
  {
    hide IsCommon, Promotes, Promote;
    PromoteIsStandard(a, p);
    PromoteIsStandard(b, q);
    if Converges(a, b, ty) {
      var x, y :| Promotes(a, x) && Promotes(b, y) && IsCommon(x, y, ty);
      PromoteIsStandard(a, x);
      PromoteIsStandard(b, y);
    }
  }

  lemma PromotesToPromoted(ty: CType)
    requires IsInteger(ty)
    ensures Promoted(Promote(ty))
  {
  }

  lemma OperatesAs(op: Operator, a: CType, b: CType, ty: CType)
    requires Operates(op, a, b, ty) && !op.OpComma? && !op.OpLogAnd? && !op.OpLogOr?
    ensures BinaryType(op, a, b) == Some(ty)
  {
    hide *;
    ConvergesIsUsual(a, b, ty);
    OnlyIntegers(a, b, ty);
    PromoteIsStandard(a, ty);
    if op.OpAdd? || op.OpSub? { SumOperates(op, a, b, ty); } else { PlainOperates(op, a, b, ty); }
  }

  lemma SumOperates(op: Operator, a: CType, b: CType, ty: CType)
    requires Operates(op, a, b, ty) && (op.OpAdd? || op.OpSub?)
    requires Converges(a, b, ty) ==> Arithmetic(a, b) == Some(ty) && IsInteger(a) && IsInteger(b)
    ensures BinaryType(op, a, b) == Some(ty)
  {
    hide Converges, Arithmetic;
  }

  lemma PlainOperates(op: Operator, a: CType, b: CType, ty: CType)
    requires Operates(op, a, b, ty) && !op.OpComma? && !op.OpLogAnd? && !op.OpLogOr? && !op.OpAdd? && !op.OpSub?
    requires Converges(a, b, ty) ==> Arithmetic(a, b) == Some(ty)
    requires Promotes(a, ty) ==> Promote(a) == ty
    ensures BinaryType(op, a, b) == Some(ty)
  {
    hide Operates, BinaryType, Converges, Arithmetic, Promotes, Promote;
    if IsRelation(op) {
      RelationOperates(op, a, b, ty);
    } else if IsShift(op) {
      ShiftOperates(op, a, b, ty);
    } else {
      ArithmeticOperates(op, a, b, ty);
    }
  }

  lemma RelationOperates(op: Operator, a: CType, b: CType, ty: CType)
    requires IsRelation(op)
    ensures (Operates(op, a, b, ty) <==> ty == Int) && BinaryType(op, a, b) == Some(Int)
  {
    hide Converges, Arithmetic, Promotes, Promote;
  }

  lemma ShiftOperates(op: Operator, a: CType, b: CType, ty: CType)
    requires IsShift(op)
    ensures Operates(op, a, b, ty) <==> IsInteger(a) && IsInteger(b) && Promotes(a, ty)
    ensures IsInteger(a) ==> BinaryType(op, a, b) == Some(Promote(a))
  {
    hide Converges, Arithmetic, Promotes, Promote;
  }

  lemma ArithmeticOperates(op: Operator, a: CType, b: CType, ty: CType)
    requires !op.OpComma? && !op.OpLogAnd? && !op.OpLogOr? && !op.OpAdd? && !op.OpSub? && !IsRelation(op) &&
        !IsShift(op)
    ensures (Operates(op, a, b, ty) <==> Converges(a, b, ty)) && BinaryType(op, a, b) == Arithmetic(a, b)
  {
    hide Converges, Arithmetic, Promotes, Promote;
  }

  lemma JoinsAs(a: CType, b: CType, ty: CType)
    requires Joins(a, b, ty)
    ensures ConditionalType(a, b) == Some(ty)
  {
    hide Converges;
    ConvergesIsUsual(a, b, ty);
  }

  /** Arithmetic is done in the type of its result. */
  lemma OperationIsStandard(op: Operator, a: CType, b: CType, ty: CType)
    requires IsInteger(a) && IsInteger(b)
    requires !IsRelation(op) && !op.OpLogAnd? && !op.OpLogOr? && !op.OpComma?
    ensures OperationType(op, a, b) == Some(ty) <==> Operates(op, a, b, ty)
  {
    hide Operates, Converges, Promotes, Promote, Usual, Arithmetic;
    ConvergesIsUsual(a, b, ty);
    PromoteIsStandard(a, ty);
    if IsShift(op) {
      ShiftOperates(op, a, b, ty);
    } else if op.OpAdd? || op.OpSub? {
      SumConverges(op, a, b, ty);
    } else {
      ArithmeticOperates(op, a, b, ty);
    }
  }

  lemma SumConverges(op: Operator, a: CType, b: CType, ty: CType)
    requires IsInteger(a) && IsInteger(b) && (op.OpAdd? || op.OpSub?)
    ensures Operates(op, a, b, ty) <==> Converges(a, b, ty)
  {
    hide Converges;
  }

  /** Sections 6.5.8 and 6.5.9: relations compare at the common type, or as pointers. */
  lemma ComparedIsStandard(a: CType, b: CType, ty: CType)
    ensures ComparedType(a, b) == Some(ty) <==> Joins(a, b, ty)
  {
    hide Converges, Arithmetic;
    ConvergesIsUsual(a, b, ty);
  }

  /** Every well-formed expression has one type, and it is the one the compiler gives it. */
  lemma {:induction false} TypeIsStandard(g: Env, e: Expr, ty: CType)
    requires HasType(g, e, ty)
    ensures ExprType(g, e) == Some(ty)
    decreases e, 1
  {
    hide TypesLiteral, LiteralType, Operates, Joins, Updates, Promotes, Promote, WellTyped, HaveTypes, BinaryType,
        ConditionalType, IsLvalue;
    match e
    case Literal(v, s) => LiteralUnique(v, s, ty);
    case Deref(p) => TypeIsStandard(g, p, Ptr(ty));
    case Unary(uop, x) =>
      var a :| HasType(g, x, a) && if uop.Not? then ty == Int else Promotes(a, ty);
      TypeIsStandard(g, x, a);
      if !uop.Not? { PromoteIsStandard(a, ty); }
    case Prefix(_, target) => TypeIsStandard(g, target, ty);
    case Postfix(_, target) => TypeIsStandard(g, target, ty);
    case Binary(op, l, r) => BinaryHasType(g, op, l, r, ty);
    case Conditional(test, yes, no) => ConditionalHasType(g, test, yes, no, ty);
    case Assignment(target, _) => TypeIsStandard(g, target, ty);
    case Compound(_, target, _) => TypeIsStandard(g, target, ty);
    case _ =>
  }

  lemma {:induction false} BinaryHasType(g: Env, op: Operator, l: Expr, r: Expr, ty: CType)
    requires HasType(g, Binary(op, l, r), ty)
    ensures ExprType(g, Binary(op, l, r)) == Some(ty)
    decreases Binary(op, l, r), 0
  {
    hide Operates, BinaryType;
    var a, b :| HasType(g, l, a) && HasType(g, r, b) && Operates(op, a, b, ty);
    TypeIsStandard(g, l, a);
    TypeIsStandard(g, r, b);
    BinaryIs(op, a, b, ty);
  }

  lemma {:induction false} ConditionalHasType(g: Env, test: Expr, yes: Expr, no: Expr, ty: CType)
    requires HasType(g, Conditional(test, yes, no), ty)
    ensures ExprType(g, Conditional(test, yes, no)) == Some(ty)
    decreases Conditional(test, yes, no), 0
  {
    hide Joins, ConditionalType, WellTyped;
    var a, b :| HasType(g, yes, a) && HasType(g, no, b) && Joins(a, b, ty);
    TypeIsStandard(g, yes, a);
    TypeIsStandard(g, no, b);
    JoinsAs(a, b, ty);
  }

  lemma BinaryIs(op: Operator, a: CType, b: CType, ty: CType)
    requires Operates(op, a, b, ty)
    ensures if op.OpComma? then ty == b else if op.OpLogAnd? || op.OpLogOr? then ty == Int
        else BinaryType(op, a, b) == Some(ty)
  {
    hide BinaryType;
    if !op.OpComma? && !op.OpLogAnd? && !op.OpLogOr? { OperatesAs(op, a, b, ty); }
  }
}
