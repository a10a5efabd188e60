/** The constant evaluator's integers: bytes with a size and a signedness. */
module Constants {
  import opened Options
  import opened Words
  import opened Ir
  import opened CTypes
  import opened Integers
  import opened Source
  import opened ByteWords

  datatype Constant = Constant(size: nat, unsigned: bool, bytes: seq<Byte>)

  predicate IsNegative(c: Constant) { !c.unsigned && Negative(c.bytes) }

  function ConvertConstant(size: nat, unsigned: bool, c: Constant): Constant
  {
    Constant(size, unsigned,
             if size <= |c.bytes| then c.bytes[..size] else c.bytes + Fill(IsNegative(c), size - |c.bytes|))
  }

  function PromoteConstant(c: Constant): Constant { if c.size < 4 then ConvertConstant(4, false, c) else c }

  function IntConstant(size: nat, v: int): Constant { Constant(size, false, BytesOf(v, size)) }

  function ToInt(c: Constant): int
  {
    if IsNegative(c) then -(Unsigned(ByteWords.Negate(c.bytes)) as int) else Unsigned(c.bytes)
  }

  predicate IsTrue(c: Constant) { exists b :: b in c.bytes && b != 0 }

  /** Both at the wider of the two sizes; unsigned if the wider, or either of equals, is. */
  function CommonConstants(a: Constant, b: Constant): (Constant, Constant)
  {
    var size := if a.size >= b.size then a.size else b.size;
    var unsigned := if a.size == b.size then a.unsigned || b.unsigned else if a.size > b.size then a.unsigned
        else b.unsigned;
    (ConvertConstant(size, unsigned, a), ConvertConstant(size, unsigned, b))
  }

  function UnaryConstant(op: UnaryOperator, c: Constant): Constant
  {
    match op
    case Minus => c.(bytes := ByteWords.Negate(c.bytes))
    case Complement => c.(bytes := ByteWords.Complement(c.bytes))
    case Not => IntConstant(c.size, if IsTrue(c) then 0 else 1)
    case Plus => c
  }

  /** Shift one bit at a time. */
  function ShiftTimes(right: bool, negative: bool, n: nat, bytes: seq<Byte>): (r: seq<Byte>)
    ensures |r| == |bytes|
    decreases n
  {
    if n == 0 then bytes
    else ShiftTimes(right, negative, n - 1, if right then Right(if negative then 128 else 0, bytes)
        else MulSmall(2, 0, bytes))
  }

  /** None is an invalid shift count. */
  function ShiftConstant(right: bool, c: Constant, count: Constant): Option<Constant>
  {
    if IsNegative(count) || CompareBytes(count.bytes, BytesOf(c.size * 8, |count.bytes|)) >= 0 then None
    else Some(c.(bytes := ShiftTimes(right, IsNegative(c), ToInt(count), c.bytes)))
  }

  /** -1, 0 or 1 as the first value is below, equal to or above the second. */
  function CompareConstants(a: Constant, b: Constant): int
  {
    if IsNegative(a) != IsNegative(b) then (if IsNegative(a) then -1 else 1) else CompareBytes(a.bytes, b.bytes)
  }

  function Magnitude(c: Constant): (r: seq<Byte>)
    ensures |r| == |c.bytes|
  {
    if IsNegative(c) then ByteWords.Negate(c.bytes) else c.bytes
  }

  /** None is a division by zero. */
  function DivideConstants(remainder: bool, a: Constant, b: Constant): Option<Constant>
    requires |a.bytes| == |b.bytes|
  {
    if !IsTrue(b) then None else
    var (q, r) := Divide(Magnitude(a), Magnitude(b));
    var negative := if remainder then IsNegative(a) else IsNegative(a) != IsNegative(b);
    var bytes := if remainder then r else q;
    Some(a.(bytes := if negative then ByteWords.Negate(bytes) else bytes))
  }

  function BitOpOf(op: Operator): BitOp { if op.OpAnd? then BitAnd else if op.OpOr? then BitOr else BitXor }

  predicate RelationHolds(op: Operator, order: int)
    requires IsRelation(op)
  {
    match op
    case OpEq => order == 0
    case OpNe => order != 0
    case OpLt => order < 0
    case OpLe => order <= 0
    case OpGt => order > 0
    case OpGe => order >= 0
  }

  function TruthConstant(size: nat, v: bool): Constant
  {
    IntConstant(if size < 4 then size else 4, if v then 1 else 0)
  }

  /** Evaluate a binary operator; None is a division by zero, an invalid shift count, or
      an operator constants do not have. */
  function BinaryConstant(op: Operator, left: Constant, right: Constant): Option<Constant>
    requires |left.bytes| == left.size && |right.bytes| == right.size
  {
    var (a, b) := CommonConstants(left, right);
    if IsRelation(op) then Some(TruthConstant(a.size, RelationHolds(op, CompareConstants(a, b))))
    else
      match op
      case OpAdd => Some(a.(bytes := AddBytes(a.bytes, b.bytes)))
      case OpSub => Some(a.(bytes := AddBytes(a.bytes, ByteWords.Negate(b.bytes))))
      case OpMul => Some(a.(bytes := Multiply(a.bytes, b.bytes)))
      case OpDiv => DivideConstants(false, a, b)
      case OpRem => DivideConstants(true, a, b)
      case OpShl => ShiftConstant(false, left, right)
      case OpShr => ShiftConstant(true, left, right)
      case OpLogAnd => Some(TruthConstant(a.size, IsTrue(a) && IsTrue(b)))
      case OpLogOr => Some(TruthConstant(a.size, IsTrue(a) || IsTrue(b)))
      case OpComma => None
      case _ => Some(a.(bytes := BytesOp(BitOpOf(op), a.bytes, b.bytes)))
  }

  // ---- Values -------------------------------------------------------------------------------

  /** A constant of a promoted type: as many bytes as its size, four or eight. */
  predicate Typed(c: Constant) { |c.bytes| == c.size && (c.size == 4 || c.size == 8) }

  function TypeOf(c: Constant): CType
  {
    if c.size == 8 then (if c.unsigned then ULong else Long) else (if c.unsigned then UInt else Int)
  }

  function ValueOf(c: Constant): int { if c.unsigned then Unsigned(c.bytes) else Signed(c.bytes) }

  lemma TypedValue(c: Constant)
    requires Typed(c)
    ensures Promoted(TypeOf(c)) && SizeOf(TypeOf(c)) == c.size && IsUnsigned(TypeOf(c)) == c.unsigned
    ensures ValueOf(c) == ValueOfBytes(TypeOf(c), c.bytes) && InRange(TypeOf(c), ValueOf(c))
    ensures BytesOf(ValueOf(c), c.size) == c.bytes
  {
    hide BytesOf, Unsigned, Signed, Pow256;
    ModulusIsPower(TypeOf(c));
    BytesOfUnsigned(c.bytes);
    UnsignedBound(c.bytes);
    SignedOfBytes(c.bytes);
  }

  /** Bytes congruent to an integer hold the integer converted to the type. */
  lemma ConvertedBytes(ty: CType, bytes: seq<Byte>, v: int)
    requires Promoted(ty) && |bytes| == SizeOf(ty) && bytes == BytesOf(v, |bytes|)
    ensures ValueOfBytes(ty, bytes) == Convert(ty, v)
  {
    hide BytesOf, Unsigned, Signed, Pow256;
    ModulusIsPower(ty);
    UnsignedOfBytes(v, |bytes|);
    if !IsUnsigned(ty) {
      NegativeOfBytes(v, |bytes|);
      SignedIs(bytes);
    }
  }

  lemma SignedIs(bytes: seq<Byte>)
    ensures Signed(bytes) == if Negative(bytes) then Unsigned(bytes) - Pow256(|bytes|) else Unsigned(bytes)
  {
  }

  /** The bytes of a sum, difference and product are those of the integers'. */
  lemma BytesOfMod(bytes: seq<Byte>, v: int)
    requires Unsigned(bytes) == Residue(v, Pow256(|bytes|))
    ensures bytes == BytesOf(v, |bytes|)
  {
    BytesOfUnsigned(bytes);
    UnsignedOfBytes(v, |bytes|);
    BytesOfUnsigned(BytesOf(v, |bytes|));
  }

  // ---- Conversions -------------------------------------------------------------------------------

  /** Converting a constant converts its value. */
  lemma ConvertValue(size: nat, unsigned: bool, c: Constant)
    requires |c.bytes| == c.size && c.size > 0 && (size == 4 || size == 8)
    ensures var r := ConvertConstant(size, unsigned, c);
      Typed(r) && r.unsigned == unsigned && r.size == size && ValueOf(r) == Convert(TypeOf(r), ValueOf(c)) &&
          r.bytes == BytesOf(ValueOf(c), size)
  {
    hide BytesOf, Unsigned, Signed, Pow256, Convert;
    var v, n, r := ValueOf(c), c.size, ConvertConstant(size, unsigned, c);
    ValueBytes(c);
    if size <= n {
      BytesSplit(v, size, n - size);
    } else {
      BytesSplit(v, n, size - n);
      BytesOfSign(IsNegative(c), size - n);
      AboveBytes(c);
    }
    ConvertedBytes(TypeOf(r), r.bytes, v);
  }

  lemma ValueBytes(c: Constant)
    requires |c.bytes| == c.size && c.size > 0
    ensures BytesOf(ValueOf(c), c.size) == c.bytes
  {
    hide BytesOf, Unsigned, Signed, Pow256;
    BytesOfUnsigned(c.bytes);
    SignedOfBytes(c.bytes);
  }

  /** Beyond its bytes a value is all sign. */
  lemma AboveBytes(c: Constant)
    requires |c.bytes| == c.size && c.size > 0
    ensures ValueOf(c) / Pow256(c.size) == if IsNegative(c) then -1 else 0
  {
    hide BytesOf, Unsigned, Pow256;
    var u: int, p: int := Unsigned(c.bytes), Pow256(c.size);
    UnsignedBound(c.bytes);
    if IsNegative(c) { DivUnique(u - p, p, -1, u); } else { DivUnique(u, p, 0, u); }
  }

  /** Promotion of a narrow constant keeps its value. */
  lemma PromoteValue(c: Constant)
    requires |c.bytes| == c.size && (c.size == 1 || c.size == 2 || c.size == 4 || c.size == 8)
    ensures Typed(PromoteConstant(c)) && ValueOf(PromoteConstant(c)) == ValueOf(c)
  {
    hide BytesOf, Unsigned, Signed, Pow256, Convert;
    if c.size < 4 {
      ConvertValue(4, false, c);
      NarrowValue(c);
    }
  }

  lemma NarrowValue(c: Constant)
    requires |c.bytes| == c.size && (c.size == 1 || c.size == 2)
    ensures InRange(Int, ValueOf(c))
  {
    UnsignedBound(c.bytes);
    SignedOfBytes(c.bytes);
    assert Pow256(1) == 256 && Pow256(2) == 65536;
  }

  /** The common type is that of the usual arithmetic conversions. */
  lemma CommonValue(a: Constant, b: Constant)
    requires Typed(a) && Typed(b)
    ensures var (x, y) := CommonConstants(a, b);
      var ty := Usual(TypeOf(a), TypeOf(b));
      && Typed(x) && Typed(y) && TypeOf(x) == ty && TypeOf(y) == ty && x.size == y.size && x.unsigned == y.unsigned
      && ValueOf(x) == Convert(ty, ValueOf(a)) && ValueOf(y) == Convert(ty, ValueOf(b))
  {
    hide BytesOf, Unsigned, Signed, Pow256, Convert, ConvertConstant, ValueOf;
    var size := if a.size >= b.size then a.size else b.size;
    var unsigned := if a.size == b.size then a.unsigned || b.unsigned else if a.size > b.size then a.unsigned
        else b.unsigned;
    ConvertValue(size, unsigned, a);
    ConvertValue(size, unsigned, b);
  }

  lemma ArithmeticIsUsual(a: Constant, b: Constant)
    requires Typed(a) && Typed(b)
    ensures Arithmetic(TypeOf(a), TypeOf(b)) == Some(Usual(TypeOf(a), TypeOf(b))) && Promote(TypeOf(a)) == TypeOf(a)
  {
    hide Usual;
  }

  // ---- Arithmetic -----------------------------------------------------------------------------------

  lemma Congruent(c: Constant) returns (k: int)
    requires Typed(c)
    ensures Unsigned(c.bytes) == ValueOf(c) + k * Pow256(c.size)
  {
    SignedIs(c.bytes);
    k := if c.unsigned || !Negative(c.bytes) then 0 else 1;
  }

  /** Bytes of an integer congruent modulo the size, as a constant of a's type. */
  lemma ResultValue(a: Constant, bytes: seq<Byte>, v: int)
    requires Typed(a) && |bytes| == a.size && Unsigned(bytes) == Residue(v, Pow256(a.size))
    ensures Typed(a.(bytes := bytes)) && ValueOf(a.(bytes := bytes)) == Convert(TypeOf(a), v)
  {
    hide BytesOf, Unsigned, Signed, Pow256, Residue, Convert;
    BytesOfMod(bytes, v);
    TypedValue(a);
    TypedValue(a.(bytes := bytes));
    ConvertedBytes(TypeOf(a), bytes, v);
  }

  lemma SumResidue(u: int, v: int, x: int, y: int, i: int, j: int, m: int)
    requires m > 0 && u == x + i * m && v == y + j * m
    ensures Residue(u + v, m) == Residue(x + y, m)
  {
    hide Residue;
    assert (i + j) * m == i * m + j * m;
    ByteWords.ModShift(x + y, i + j, m);
  }

  lemma ProductResidue(u: int, v: int, x: int, y: int, i: int, j: int, m: int)
    requires m > 0 && u == x + i * m && v == y + j * m
    ensures Residue(u * v, m) == Residue(x * y, m)
  {
    hide Residue;
    ProductOf(x, y, i, j, m);
    ByteWords.ModShift(x * y, i * y + x * j + i * j * m, m);
  }

  lemma ProductOf(x: int, y: int, i: int, j: int, m: int)
    ensures (x + i * m) * (y + j * m) == x * y + (i * y + x * j + i * j * m) * m
  {
    assert (x + i * m) * (y + j * m) == x * y + x * (j * m) + (i * m) * y + (i * m) * (j * m);
    assert x * (j * m) == (x * j) * m && (i * m) * y == (i * y) * m && (i * m) * (j * m) == (i * j * m) * m;
  }

  /** Negated bytes are congruent to the negated value. */
  lemma NegatedCongruent(c: Constant) returns (k: int)
    requires Typed(c)
    ensures Unsigned(ByteWords.Negate(c.bytes)) == -ValueOf(c) + k * Pow256(c.size)
  {
    hide Unsigned, Pow256, ByteWords.Negate, ValueOf;
    NegateExact(c.bytes);
    var i := Congruent(c);
    k := if Unsigned(c.bytes) == 0 then i - 0 else 1 - i;
    if Unsigned(c.bytes) == 0 { k := -i; }
  }

  lemma SumValue(a: Constant, b: Constant)
    requires Typed(a) && Typed(b) && a.size == b.size && a.unsigned == b.unsigned
    ensures ValueOf(a.(bytes := AddBytes(a.bytes, b.bytes))) == Convert(TypeOf(a), ValueOf(a) + ValueOf(b))
    ensures ValueOf(a.(bytes := AddBytes(a.bytes, ByteWords.Negate(b.bytes)))) ==
        Convert(TypeOf(a), ValueOf(a) - ValueOf(b))
    ensures ValueOf(a.(bytes := Multiply(a.bytes, b.bytes))) == Convert(TypeOf(a), ValueOf(a) * ValueOf(b))
  {
    hide Unsigned, Pow256, ByteWords.Negate, ValueOf, Residue, Convert, AddCarry, Multiply, TypeOf;
    var m := Pow256(a.size);
    var i := Congruent(a);
    var j := Congruent(b);
    var k := NegatedCongruent(b);
    AddExact(0, a.bytes, b.bytes);
    AddExact(0, a.bytes, ByteWords.Negate(b.bytes));
    MultiplyExact(a.bytes, b.bytes);
    SumResidue(Unsigned(a.bytes), Unsigned(b.bytes), ValueOf(a), ValueOf(b), i, j, m);
    ProductResidue(Unsigned(a.bytes), Unsigned(b.bytes), ValueOf(a), ValueOf(b), i, j, m);
    SumResidue(Unsigned(a.bytes), Unsigned(ByteWords.Negate(b.bytes)), ValueOf(a), -ValueOf(b), i, k, m);
    ResultValue(a, AddBytes(a.bytes, b.bytes), ValueOf(a) + ValueOf(b));
    ResultValue(a, AddBytes(a.bytes, ByteWords.Negate(b.bytes)), ValueOf(a) - ValueOf(b));
    ResultValue(a, Multiply(a.bytes, b.bytes), ValueOf(a) * ValueOf(b));
  }

  // ---- Division -------------------------------------------------------------------------------------

  lemma MagnitudeValue(c: Constant)
    requires Typed(c)
    ensures Unsigned(Magnitude(c)) == Abs(ValueOf(c)) && (IsNegative(c) <==> ValueOf(c) < 0)
  {
    hide Unsigned, Pow256, ByteWords.Negate, Negative;
    SignedIs(c.bytes);
    UnsignedBound(c.bytes);
    NegateExact(c.bytes);
    ZeroNotNegative(c.bytes);
  }

  lemma ZeroNotNegative(bytes: seq<Byte>)
    ensures Negative(bytes) ==> Unsigned(bytes) != 0
  {
    if Negative(bytes) { SignHalf(bytes); HalfOfPower(|bytes|); }
  }

  lemma TrueValue(c: Constant)
    requires Typed(c)
    ensures IsTrue(c) <==> ValueOf(c) != 0
  {
    hide BytesOf, Signed, Pow256;
    MagnitudeValue(c);
    TypedValue(c);
    if ValueOf(c) == 0 { ZeroBytes(c); }
    if !IsTrue(c) {
      forall i | 0 <= i < |c.bytes| ensures c.bytes[i] == 0 { assert c.bytes[i] in c.bytes; }
      UnsignedOfZeros(c.bytes);
      SignedIs(c.bytes);
      ZeroNotNegative(c.bytes);
    }
  }

  lemma ZeroBytes(c: Constant)
    requires Typed(c) && ValueOf(c) == 0
    ensures forall b :: b in c.bytes ==> b == 0
  {
    TypedValue(c);
    BytesOfSign(false, c.size);
    assert c.bytes == Fill(false, c.size);
  }

  /** Long division of the magnitudes, then the signs: truncating division. */
  lemma QuotientValue(a: Constant, b: Constant)
    requires Typed(a) && Typed(b) && a.size == b.size && a.unsigned == b.unsigned
    ensures forall remainder :: DivideConstants(remainder, a, b).None? <==> ValueOf(b) == 0
    ensures ValueOf(b) != 0 ==>
      && ValueOf(DivideConstants(false, a, b).value) == Convert(TypeOf(a), TruncDiv(ValueOf(a), ValueOf(b)))
      && ValueOf(DivideConstants(true, a, b).value) == Convert(TypeOf(a), TruncRem(ValueOf(a), ValueOf(b)))
  {
    hide Unsigned, Pow256, ByteWords.Negate, ValueOf, Residue, Convert, Divide, TypeOf, Magnitude, IsNegative, IsTrue,
        TruncDiv, TruncRem;
    TrueValue(b);
    if ValueOf(b) != 0 {
      var x, y := ValueOf(a), ValueOf(b);
      MagnitudeValue(a);
      MagnitudeValue(b);
      var (q, r) := Divide(Magnitude(a), Magnitude(b));
      DivideExact(Magnitude(a), Magnitude(b));
      Truncated(x, y, Unsigned(q), Unsigned(r));
      SignedResult(a, q, (x < 0) != (y < 0));
      SignedResult(a, r, x < 0);
    }
  }

  lemma Truncated(x: int, y: int, q: int, r: int)
    requires y != 0 && q >= 0 && 0 <= r < Abs(y) && Abs(x) == q * Abs(y) + r
    ensures TruncDiv(x, y) == (if (x < 0) != (y < 0) then -q else q) && TruncRem(x, y) == if x < 0 then -r else r
  {
    assert q * Abs(y) == Abs(y) * q;
    DivUnique(Abs(x), Abs(y), q, r);
    var t := TruncDiv(x, y);
    assert y * t == if x < 0 then -(Abs(y) * q) else Abs(y) * q by { SignProduct(x, y, q, t); }
  }

  lemma SignProduct(x: int, y: int, q: int, t: int)
    requires t == (if (x < 0) != (y < 0) then -q else q) && y != 0
    ensures y * t == if x < 0 then -(Abs(y) * q) else Abs(y) * q
  {
    assert y * (-q) == -(y * q) && (-y) * q == -(y * q);
  }

  lemma SignedResult(a: Constant, bytes: seq<Byte>, negative: bool)
    requires Typed(a) && |bytes| == a.size
    ensures var r := a.(bytes := if negative then ByteWords.Negate(bytes) else bytes);
      var v: int := Unsigned(bytes);
      ValueOf(r) == Convert(TypeOf(a), if negative then -v else v)
  {
    hide Unsigned, Pow256, ByteWords.Negate, ValueOf, Residue, Convert, TypeOf;
    var m, v: int := Pow256(a.size), Unsigned(bytes);
    UnsignedBound(bytes);
    NegateExact(bytes);
    if negative {
      NegatedResidue(v, m);
      ResultValue(a, ByteWords.Negate(bytes), -v);
    } else {
      ByteWords.ModSmall(v, m);
      ResultValue(a, bytes, v);
    }
  }

  lemma NegatedResidue(v: int, m: int)
    requires 0 <= v < m
    ensures Residue(-v, m) == if v == 0 then 0 else m - v
  {
    hide Residue;
    if v == 0 { ByteWords.ModSmall(0, m); } else {
      ByteWords.ModShift(-v, 1, m);
      ByteWords.ModSmall(m - v, m);
    }
  }

  // ---- Shifts and bits ------------------------------------------------------------------------------

  /** Shifting one bit at a time, n times. */
  lemma {:induction false} ShiftValue(right: bool, c: Constant, n: nat)
    requires Typed(c)
    ensures var r := c.(bytes := ShiftTimes(right, IsNegative(c), n, c.bytes));
      ValueOf(r) == if right then ValueOf(c) / Pow2(n) else Convert(TypeOf(c), ValueOf(c) * Pow2(n))
    decreases n
  {
    hide Unsigned, Pow256, ValueOf, Residue, Convert, TypeOf, Right, MulSmall, Signed, Negative;
    TypedValue(c);
    if n > 0 {
      var c' := c.(bytes := if right then Right(if IsNegative(c) then 128 else 0, c.bytes)
          else MulSmall(2, 0, c.bytes));
      var v := ValueOf(c);
      ShiftOnce(right, c);
      if right { ShiftKeepsSign(c); }
      assert ShiftTimes(right, IsNegative(c), n, c.bytes) == ShiftTimes(right, IsNegative(c), n - 1, c'.bytes);
      LeftIgnoresSign(n - 1, IsNegative(c), IsNegative(c'), c'.bytes);
      ShiftValue(right, c', n - 1);
      if right { DivDiv(v, 2, Pow2(n - 1)); } else { ConvertedProduct(TypeOf(c), v, n); }
    } else {
      assert c.(bytes := c.bytes) == c;
      assert ValueOf(c) / 1 == ValueOf(c) && ValueOf(c) * 1 == ValueOf(c);
    }
  }

  lemma {:induction false} LeftIgnoresSign(n: nat, p: bool, q: bool, bytes: seq<Byte>)
    ensures ShiftTimes(false, p, n, bytes) == ShiftTimes(false, q, n, bytes)
    decreases n
  {
    if n > 0 { LeftIgnoresSign(n - 1, p, q, MulSmall(2, 0, bytes)); }
  }

  lemma ShiftOnce(right: bool, c: Constant)
    requires Typed(c)
    ensures var r := c.(bytes := if right then Right(if IsNegative(c) then 128 else 0, c.bytes)
        else MulSmall(2, 0, c.bytes));
      Typed(r) && TypeOf(r) == TypeOf(c) && ValueOf(r) == if right then ValueOf(c) / 2
          else Convert(TypeOf(c), ValueOf(c) * 2)
  {
    hide Unsigned, Pow256, Residue, Convert, Right, MulSmall, Signed, Negative;
    if right {
      RightExact(c.bytes);
      RightSigned(c.bytes);
      SignedIs(c.bytes);
      SignedIs(Right(0, c.bytes));
    } else {
      LeftExact(c.bytes);
      var k := Congruent(c);
      var m := Pow256(c.size);
      assert 2 * Unsigned(c.bytes) == ValueOf(c) * 2 + (2 * k) * m;
      ByteWords.ModShift(ValueOf(c) * 2, 2 * k, m);
      ResultValue(c, MulSmall(2, 0, c.bytes), ValueOf(c) * 2);
    }
  }

  lemma ShiftKeepsSign(c: Constant)
    requires Typed(c)
    ensures IsNegative(c.(bytes := Right(if IsNegative(c) then 128 else 0, c.bytes))) == IsNegative(c)
  {
    hide Unsigned, Pow256, Convert, Right, Signed, Negative;
    var r := c.(bytes := Right(if IsNegative(c) then 128 else 0, c.bytes));
    ShiftOnce(true, c);
    MagnitudeValue(c);
    MagnitudeValue(r);
  }

  lemma ConvertedProduct(ty: CType, v: int, n: nat)
    requires n > 0 && !ty.Bool?
    ensures Convert(ty, Convert(ty, v * 2) * Pow2(n - 1)) == Convert(ty, v * Pow2(n))
  {
    var p, m := Pow2(n - 1), Modulus(ty);
    ConvertCongruent(ty, v * 2);
    var k := (Convert(ty, v * 2) - v * 2) / m;
    DifferenceDivides(Convert(ty, v * 2), v * 2, m);
    hide Convert;
    DoubledTimes(v, k, m, p);
    ConvertShift(ty, v * Pow2(n), k * p);
  }

  lemma DoubledTimes(v: int, k: int, m: int, p: int)
    ensures (v * 2 + k * m) * p == v * (2 * p) + (k * p) * m
  {
    assert (v * 2 + k * m) * p == (v * 2) * p + (k * m) * p;
    assert (k * m) * p == (k * p) * m;
  }

  lemma ConvertShift(ty: CType, v: int, k: int)
    requires !ty.Bool?
    ensures Convert(ty, v + k * Modulus(ty)) == Convert(ty, v)
  {
    var d := Modulus(ty);
    assert v + k * d == d * (v / d + k) + v % d;
    DivUnique(v + k * d, d, v / d + k, v % d);
  }

  /** A shift is refused exactly for a count that is negative or not below the width. */
  lemma ShiftedValue(op: Operator, left: Constant, count: Constant)
    requires IsShift(op) && Typed(left) && Typed(count)
    ensures var r := ShiftConstant(op.OpShr?, left, count);
      var s := Shifted(op, TypeOf(left), ValueOf(left), ValueOf(count));
      (r.None? <==> s.None?) && (r.Some? ==> ValueOf(r.value) == Convert(TypeOf(left), s.value))
  {
    hide Unsigned, Pow256, Convert, Signed, Negative, Pow2, CompareBytes, ShiftTimes, BytesOf, ValueOf;
    TypedValue(left);
    TypedValue(count);
    MagnitudeValue(count);
    WidthBytes(left.size * 8, count.size);
    CompareExact(count.bytes, BytesOf(left.size * 8, |count.bytes|));
    CountValue(count);
    var n := ValueOf(count);
    if 0 <= n < left.size * 8 {
      ShiftValue(op.OpShr?, left, n);
      if op.OpShr? { QuotientInRange(TypeOf(left), ValueOf(left), Pow2(n)); }
    }
  }

  lemma CountValue(count: Constant)
    requires Typed(count)
    ensures !IsNegative(count) ==> ToInt(count) == ValueOf(count) && Unsigned(count.bytes) == ValueOf(count)
  {
    hide Unsigned;
    SignedIs(count.bytes);
  }

  lemma WidthBytes(width: nat, n: nat)
    requires width < 256 && (n == 4 || n == 8)
    ensures Unsigned(BytesOf(width, n)) == width
  {
    hide BytesOf, Unsigned;
    UnsignedOfBytes(width, n);
    ModulusIsPower(UInt);
    ModulusIsPower(ULong);
  }

  lemma QuotientInRange(ty: CType, v: int, p: int)
    requires Promoted(ty) && InRange(ty, v) && p >= 1
    ensures Convert(ty, v / p) == v / p
  {
    assert InRange(ty, v / p) by { QuotientBetween(v, p); }
  }

  lemma QuotientBetween(v: int, p: int)
    requires p >= 1
    ensures v >= 0 ==> 0 <= v / p <= v
    ensures v < 0 ==> v <= v / p < 0
  {
    var q, r := v / p, v % p;
    QuotientBounds(v, p, q, r);
  }

  lemma QuotientBounds(v: int, p: int, q: int, r: int)
    requires p >= 1 && v == p * q + r && 0 <= r < p
    ensures v >= 0 ==> 0 <= q <= v
    ensures v < 0 ==> v <= q < 0
  {
    if q >= 0 {
      MulMono(q, 1, p);
    } else {
      MulMono(-q, 1, p);
      assert p * q == -((-q) * p);
      if q < v { Beyond(v, p, q); }
    }
  }

  lemma Beyond(v: int, p: int, q: int)
    requires p >= 1 && q < v < 0
    ensures p * q + p <= v
  {
    MulMono(p, -v, -q - 1);
    assert p * (-q - 1) == -(p * q) - p;
    MulMono(-v, 1, p);
    assert p * (-v) == (-v) * p;
  }

  lemma BitsValue(op: BitOp, a: Constant, b: Constant)
    requires Typed(a) && Typed(b) && a.size == b.size && a.unsigned == b.unsigned
    ensures ValueOf(a.(bytes := BytesOp(op, a.bytes, b.bytes))) ==
        Convert(TypeOf(a), BitFold(op, ValueOf(a), ValueOf(b)))
  {
    hide BytesOf, Unsigned, Signed, Pow256, BitFold, BytesOp, ValueOf, Convert;
    TypedValue(a);
    TypedValue(b);
    var v := BitFold(op, ValueOf(a), ValueOf(b));
    BitFoldBytes(op, ValueOf(a), ValueOf(b), a.size);
    ConvertedBytes(TypeOf(a), BytesOp(op, a.bytes, b.bytes), v);
    TypedValue(a.(bytes := BytesOp(op, a.bytes, b.bytes)));
  }

  // ---- Comparisons ----------------------------------------------------------------------------------

  lemma OrderValue(a: Constant, b: Constant)
    requires Typed(a) && Typed(b) && a.size == b.size && a.unsigned == b.unsigned
    ensures CompareConstants(a, b) < 0 <==> ValueOf(a) < ValueOf(b)
    ensures CompareConstants(a, b) == 0 <==> ValueOf(a) == ValueOf(b)
  {
    hide Unsigned, Pow256, CompareBytes, Negative;
    MagnitudeValue(a);
    MagnitudeValue(b);
    CompareExact(a.bytes, b.bytes);
    SignedIs(a.bytes);
    SignedIs(b.bytes);
  }

  lemma TruthValue(size: nat, v: bool)
    requires size == 4
    ensures ValueOf(IntConstant(size, if v then 1 else 0)) == Truth(v) && Typed(IntConstant(size, if v then 1 else 0))
  {
    hide BytesOf, Unsigned, Signed;
    ConvertedBytes(Int, BytesOf(Truth(v), 4), Truth(v));
    TypedValue(IntConstant(size, Truth(v)));
  }

  // ---- Folding agrees with evaluation -------------------------------------------------------------------

  /** The operators that have a value in constants. */
  predicate Folds(op: Operator) { !op.OpLogAnd? && !op.OpLogOr? && !op.OpComma? }

  /** What folding has to do with evaluation. */
  ghost predicate Agrees(op: Operator, a: Constant, b: Constant)
    requires Typed(a) && Typed(b)
  {
    var folded := BinaryConstant(op, a, b);
    var result := BinaryResult(op, TypeOf(a), TypeOf(b), ValueOf(a), ValueOf(b));
    && (result.Some? ==> folded.Some? && ValueOf(folded.value) == result.value)
    && (folded.None? <==> if op.OpDiv? || op.OpRem? then ValueOf(CommonConstants(a, b).1) == 0
                          else IsShift(op) && !(0 <= ValueOf(b) < 8 * a.size))
  }

  /** Folding an operator on constants gives the value the same operator has at run time;
      it is refused exactly for a zero divisor or an invalid shift count, so the only
      operation undefined at run time that folds is an overflowing division. */
  lemma FoldingAgrees(op: Operator, a: Constant, b: Constant)
    requires Folds(op) && Typed(a) && Typed(b)
    ensures Agrees(op, a, b)
  {
    hide Agrees;
    if IsRelation(op) {
      RelationFolds(op, a, b);
    } else if IsShift(op) {
      ShiftFolds(op, a, b);
    } else {
      ArithmeticFolds(op, a, b);
    }
  }

  lemma RelationFolds(op: Operator, a: Constant, b: Constant)
    requires IsRelation(op) && Typed(a) && Typed(b)
    ensures Agrees(op, a, b)
  {
    hide Unsigned, Pow256, ValueOf, Convert, CompareConstants, CommonConstants, Usual, IntConstant, TypeOf,
        RelationHolds, Holds;
    var (x, y) := CommonConstants(a, b);
    CommonValue(a, b);
    ArithmeticIsUsual(a, b);
    TypedValue(a);
    TypedValue(b);
    OrderValue(x, y);
    RelationAgrees(op, CompareConstants(x, y), ValueOf(x), ValueOf(y));
    TruthValue(4, RelationHolds(op, CompareConstants(x, y)));
  }

  lemma ShiftFolds(op: Operator, a: Constant, b: Constant)
    requires IsShift(op) && Typed(a) && Typed(b)
    ensures Agrees(op, a, b)
  {
    hide Unsigned, Pow256, ValueOf, Convert, ShiftConstant, CommonConstants, Usual, Shifted, TypeOf, Pow2;
    ArithmeticIsUsual(a, b);
    TypedValue(a);
    TypedValue(b);
    ShiftRefused(op, TypeOf(a), ValueOf(a), ValueOf(b));
    ShiftedValue(op, a, b);
  }

  lemma ArithmeticFolds(op: Operator, a: Constant, b: Constant)
    requires Folds(op) && !IsRelation(op) && !IsShift(op) && Typed(a) && Typed(b)
    ensures Agrees(op, a, b)
  {
    hide Agrees;
    if op.OpAdd? || op.OpSub? || op.OpMul? {
      SumFolds(op, a, b);
    } else if op.OpDiv? || op.OpRem? {
      QuotientFolds(op, a, b);
    } else {
      BitsFold(op, a, b);
    }
  }

  lemma SumFolds(op: Operator, a: Constant, b: Constant)
    requires (op.OpAdd? || op.OpSub? || op.OpMul?) && Typed(a) && Typed(b)
    ensures Agrees(op, a, b)
  {
    hide Unsigned, Pow256, ValueOf, Convert, AddBytes, Multiply, ByteWords.Negate, CommonConstants, Usual, TypeOf,
        BinaryConstant, BinaryResult;
    var (x, y) := CommonConstants(a, b);
    CommonValue(a, b);
    ArithmeticIsUsual(a, b);
    TypedValue(a);
    TypedValue(b);
    SumValue(x, y);
    SumInBytes(op, a, b);
    SumInRun(op, TypeOf(a), TypeOf(b), TypeOf(x), ValueOf(a), ValueOf(b));
  }

  lemma SumInBytes(op: Operator, a: Constant, b: Constant)
    requires (op.OpAdd? || op.OpSub? || op.OpMul?) && Typed(a) && Typed(b)
    ensures var (x, y) := CommonConstants(a, b);
      BinaryConstant(op, a, b) == Some(x.(bytes :=
        if op.OpAdd? then AddBytes(x.bytes, y.bytes)
        else if op.OpSub? then AddBytes(x.bytes, ByteWords.Negate(y.bytes))
        else Multiply(x.bytes, y.bytes)))
  {
    hide AddBytes, Multiply, ByteWords.Negate, CommonConstants;
  }

  lemma SumInRun(op: Operator, ta: CType, tb: CType, ty: CType, a: int, b: int)
    requires (op.OpAdd? || op.OpSub? || op.OpMul?) && !ta.Ptr? && !tb.Ptr? && Arithmetic(ta, tb) == Some(ty)
    ensures var (v, w) := (Convert(ty, a), Convert(ty, b));
      BinaryResult(op, ta, tb, a, b) ==
        Some(Convert(ty, if op.OpAdd? then v + w else if op.OpSub? then v - w else v * w))
  {
    hide Convert, Arithmetic;
  }

  lemma QuotientFolds(op: Operator, a: Constant, b: Constant)
    requires (op.OpDiv? || op.OpRem?) && Typed(a) && Typed(b)
    ensures Agrees(op, a, b)
  {
    hide Unsigned, Pow256, ValueOf, Convert, AddCarry, Multiply, BytesOp, DivideConstants, ByteWords.Negate,
        CommonConstants, Usual, BitFold, TruncDiv, TruncRem, TypeOf;
    var (x, y) := CommonConstants(a, b);
    CommonValue(a, b);
    ArithmeticIsUsual(a, b);
    TypedValue(a);
    TypedValue(b);
    QuotientValue(x, y);
  }

  lemma BitsFold(op: Operator, a: Constant, b: Constant)
    requires (op.OpAnd? || op.OpXor? || op.OpOr?) && Typed(a) && Typed(b)
    ensures Agrees(op, a, b)
  {
    hide Unsigned, Pow256, ValueOf, Convert, AddCarry, Multiply, BytesOp, DivideConstants, ByteWords.Negate,
        CommonConstants, Usual, BitFold, TruncDiv, TruncRem, TypeOf;
    var (x, y) := CommonConstants(a, b);
    CommonValue(a, b);
    ArithmeticIsUsual(a, b);
    TypedValue(a);
    TypedValue(b);
    BitsValue(BitOpOf(op), x, y);
  }

  lemma ShiftRefused(op: Operator, ty: CType, v: int, n: int)
    requires IsShift(op)
    ensures Shifted(op, ty, v, n).None? <==> !(0 <= n < 8 * SizeOf(ty))
  {
  }

  lemma RelationAgrees(op: Operator, order: int, x: int, y: int)
    requires IsRelation(op) && (order < 0 <==> x < y) && (order == 0 <==> x == y)
    ensures RelationHolds(op, order) == Holds(op, x, y)
  {
  }
}
