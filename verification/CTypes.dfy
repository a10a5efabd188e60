/** The scalar types of the source language on a 64-bit target, and the
    conversions between them. */
module CTypes {
  import opened Words
  import opened Ir

  datatype CType =
    | Bool
    | Char | UChar | Short | UShort
    | Int | UInt | Long | ULong | LongLong | ULongLong
    | Ptr(elem: CType)

  function SizeOf(ty: CType): (n: nat)
    ensures n == 1 || n == 2 || n == 4 || n == 8
  {
    match ty
    case Bool => 1
    case Char => 1
    case UChar => 1
    case Short => 2
    case UShort => 2
    case Int => 4
    case UInt => 4
    case _ => 8
  }

  predicate IsInteger(ty: CType) { !ty.Ptr? }

  predicate IsUnsigned(ty: CType)
  {
    ty.Bool? || ty.UChar? || ty.UShort? || ty.UInt? || ty.ULong? || ty.ULongLong? || ty.Ptr?
  }

  /** How many values the type's bytes can hold. */
  function Modulus(ty: CType): (m: int)
    ensures m == 0x100 || m == 0x1_0000 || m == 0x1_0000_0000 || m == 0x1_0000_0000_0000_0000
  {
    match SizeOf(ty)
    case 1 => 0x100
    case 2 => 0x1_0000
    case 4 => 0x1_0000_0000
    case _ => 0x1_0000_0000_0000_0000
  }

  lemma ModulusIsPower(ty: CType)
    ensures Modulus(ty) == Pow256(SizeOf(ty))
  {
    assert Pow256(1) == 0x100 && Pow256(2) == 0x1_0000 && Pow256(4) == 0x1_0000_0000;
    assert Pow256(8) == 0x1_0000_0000_0000_0000;
  }

  predicate InRange(ty: CType, v: int)
  {
    if ty.Bool? then 0 <= v <= 1
    else if IsUnsigned(ty) then 0 <= v < Modulus(ty)
    else -Modulus(ty) / 2 <= v < Modulus(ty) / 2
  }

  /** Conversion of a value to a type: to _Bool by comparison with zero, otherwise
      modulo the range of the type. */
  function Convert(ty: CType, v: int): (r: int)
    ensures InRange(ty, r)
    ensures InRange(ty, v) ==> r == v
  {
    if ty.Bool? then (if v == 0 then 0 else 1) else
    var low := v % Modulus(ty);
    if !IsUnsigned(ty) && low >= Modulus(ty) / 2 then low - Modulus(ty) else low
  }

  lemma ConvertCongruent(ty: CType, v: int)
    requires !ty.Bool?
    ensures Convert(ty, v) % Modulus(ty) == v % Modulus(ty)
  {
  }

  // ---- Integer promotions and the usual arithmetic conversions -----------------

  function Promote(ty: CType): CType { if IsInteger(ty) && SizeOf(ty) < 4 then Int else ty }

  function Rank(ty: CType): nat
  {
    if ty.LongLong? || ty.ULongLong? then 3 else if ty.Long? || ty.ULong? then 2 else 1
  }

  function Unsigned2(ty: CType): CType
  {
    match ty
    case Int => UInt
    case Long => ULong
    case LongLong => ULongLong
    case _ => ty
  }

  /** The common type of two promoted integer types. */
  function Usual(a: CType, b: CType): CType
  {
    if a == b then a
    else if IsUnsigned(a) == IsUnsigned(b) then (if Rank(a) >= Rank(b) then a else b)
    else
      var signed := if IsUnsigned(a) then b else a;
      var unsigned := if IsUnsigned(a) then a else b;
      if Rank(unsigned) >= Rank(signed) then unsigned
      else if SizeOf(signed) > SizeOf(unsigned) then signed
      else Unsigned2(signed)
  }

  predicate Promoted(ty: CType) { IsInteger(ty) && SizeOf(ty) >= 4 }

  lemma PromotionPreservesValue(ty: CType, v: int)
    requires InRange(ty, v)
    ensures InRange(Promote(ty), v)
    ensures IsInteger(ty) ==> Promoted(Promote(ty))
  {
  }

  /** The usual arithmetic conversions are symmetric, and lead to a promoted type no
      narrower than either operand. */
  lemma UsualSymmetric(a: CType, b: CType)
    requires Promoted(a) && Promoted(b)
    ensures Usual(a, b) == Usual(b, a)
  {
    if Rank(a) == Rank(b) && IsUnsigned(a) == IsUnsigned(b) { RankAndSign(a, b); }
    hide Promoted;
  }

  lemma RankAndSign(a: CType, b: CType)
    requires Promoted(a) && Promoted(b) && Rank(a) == Rank(b) && IsUnsigned(a) == IsUnsigned(b)
    ensures a == b
  {
  }

  lemma UsualPromoted(a: CType, b: CType)
    requires Promoted(a) && Promoted(b)
    ensures Promoted(Usual(a, b)) && SizeOf(Usual(a, b)) >= SizeOf(a)
  {
  }

  /** They keep every value of an operand, except that an unsigned common type takes a
      negative value modulo its range. */
  lemma UsualPreservesValue(a: CType, b: CType, v: int)
    requires Promoted(a) && Promoted(b) && InRange(a, v)
    ensures !(v < 0 && IsUnsigned(Usual(a, b))) ==> InRange(Usual(a, b), v)
    ensures v < 0 && IsUnsigned(Usual(a, b)) ==> Convert(Usual(a, b), v) == v + Modulus(Usual(a, b))
  {
    UsualPromoted(a, b);
    UsualKeepsSign(a, b);
    hide Usual;
  }

  /** A signed common type is as wide as a signed operand and wider than an unsigned one. */
  lemma UsualKeepsSign(a: CType, b: CType)
    requires Promoted(a) && Promoted(b)
    ensures !IsUnsigned(Usual(a, b)) ==> if IsUnsigned(a) then SizeOf(Usual(a, b)) > SizeOf(a)
        else SizeOf(Usual(a, b)) >= SizeOf(a)
  {
  }

  // ---- Integer literals -----------------------------------------------------------

  /** What the spelling of an integer literal says about its type. */
  datatype Suffix = Suffix(unsigned: bool, longs: nat, decimal: bool)

  /** The candidate types of a literal, in the order they are tried. */
  function Candidates(s: Suffix): seq<CType>
  {
    (if s.longs == 0 then OfRank(s, Int, UInt) else []) +
    (if s.longs <= 1 then OfRank(s, Long, ULong) else []) +
    OfRank(s, LongLong, ULongLong)
  }

  function OfRank(s: Suffix, signed: CType, unsigned: CType): seq<CType>
  {
    if s.unsigned then [unsigned] else if s.decimal then [signed] else [signed, unsigned]
  }

  /** The first candidate that holds the value; unsigned long long when none does. */
  function FirstFit(candidates: seq<CType>, v: nat): CType
  {
    if candidates == [] then ULongLong
    else if InRange(candidates[0], v) then candidates[0]
    else FirstFit(candidates[1..], v)
  }

  function LiteralType(v: nat, s: Suffix): CType { FirstFit(Candidates(s), v) }

  lemma {:induction false} FirstFitHolds(candidates: seq<CType>, v: nat)
    requires v < 0x1_0000_0000_0000_0000
    ensures InRange(FirstFit(candidates, v), v)
  {
    if candidates != [] && !InRange(candidates[0], v) { FirstFitHolds(candidates[1..], v); }
  }
}
