/** Words as integers modulo 2 to the 64: what each operation on words does to the
    values they stand for. */
module Integers {
  import opened Options
  import opened Words
  import opened Ir
  import opened CTypes

  const M64: int := 0x1_0000_0000_0000_0000

  lemma DivDiv(v: int, a: int, b: int)
    requires a > 0 && b > 0
    ensures a * b > 0 && v / a / b == v / (a * b)
  {
    var q, r := v / a, v % a;
    var q2, r2 := q / b, q % b;
    assert v == a * q + r && q == b * q2 + r2;
    assert v == (a * b) * q2 + (a * r2 + r) by {
      assert a * q == a * (b * q2) + a * r2;
      assert a * (b * q2) == (a * b) * q2;
    }
    assert 0 <= a * r2 <= a * (b - 1) by { MulMono(a, r2, b - 1); }
    assert a * (b - 1) == a * b - a;
    DivUnique(v, a * b, q2, a * r2 + r);
  }

  lemma MulMono(a: int, x: int, y: int)
    requires a >= 0 && 0 <= x <= y
    ensures 0 <= a * x <= a * y
  {
  }

  lemma DivUnique(v: int, d: int, q: int, r: int)
    requires d > 0 && v == d * q + r && 0 <= r < d
    ensures v / d == q && v % d == r
  {
    var k := v / d - q;
    assert d * k == r - v % d;
    if k > 0 { MulMono(d, 1, k); }
    if k < 0 { MulMono(d, 1, -k); }
  }

  lemma ModDiv(v: int, a: int, b: int)
    requires a > 0 && b > 0
    ensures v % (a * b) == v % a + a * (v / a % b)
  {
    DivDiv(v, a, b);
    var q := v / a;
    assert v == a * q + v % a;
    assert q == b * (q / b) + q % b;
    assert a * q == a * (b * (q / b)) + a * (q % b);
    assert a * (b * (q / b)) == (a * b) * (q / b);
  }

  // ---- Division --------------------------------------------------------------------

  /** A quotient is smaller than the dividend unless the divisor is one or minus one. */
  lemma QuotientSize(x: int, y: int)
    requires y != 0
    ensures y > 1 || y < -1 ==> 0 - Abs(x) <= 2 * TruncDiv(x, y) <= Abs(x)
    ensures x >= 0 && y > 0 ==> 0 <= TruncDiv(x, y) <= x
    ensures y == 1 ==> TruncDiv(x, y) == x
    ensures y == -1 ==> TruncDiv(x, y) == -x
  {
    var q, m := Abs(x) / Abs(y), Abs(y);
    assert Abs(x) == m * q + Abs(x) % m;
    MulMono(q, 1, m);
    if m > 1 { MulMono(q, 2, m); }
    assert m * q == q * m;
  }

  /** Section 6.5.5, paragraph 6: dividend and remainder have one sign, and the remainder is
      smaller than the divisor. */
  lemma DivisionTruncates(x: int, y: int)
    requires y != 0
    ensures x == y * TruncDiv(x, y) + TruncRem(x, y)
    ensures if x >= 0 then 0 <= TruncRem(x, y) < Abs(y) else 0 <= -TruncRem(x, y) < Abs(y)
  {
    var q, m := Abs(x) / Abs(y), Abs(y);
    assert Abs(x) == m * q + Abs(x) % m;
    if (x < 0) == (y < 0) {
      assert y * q == if y < 0 then -(m * q) else m * q;
    } else {
      assert y * (-q) == if y < 0 then m * q else -(m * q);
    }
  }

  // ---- Bytes of integers ------------------------------------------------------------

  lemma {:induction false} UnsignedOfBytes(v: int, n: nat)
    ensures Unsigned(BytesOf(v, n)) == v % Pow256(n)
    decreases n
  {
    if n > 0 {
      UnsignedOfBytes(v / 256, n - 1);
      ModDiv(v, 256, Pow256(n - 1));
      assert BytesOf(v, n)[1..] == BytesOf(v / 256, n - 1);
    }
  }

  lemma {:induction false} BytesOfUnsigned(bytes: seq<Byte>)
    ensures BytesOf(Unsigned(bytes), |bytes|) == bytes
  {
    if bytes != [] {
      BytesOfUnsigned(bytes[1..]);
      var u := Unsigned(bytes[1..]);
      assert (bytes[0] + 256 * u) / 256 == u && (bytes[0] + 256 * u) % 256 == bytes[0];
    }
  }

  /** Integers that agree modulo 256^n have the same n bytes. */
  lemma BytesCongruent(u: int, v: int, n: nat)
    ensures u % Pow256(n) == v % Pow256(n) <==> BytesOf(u, n) == BytesOf(v, n)
  {
    UnsignedOfBytes(u, n);
    UnsignedOfBytes(v, n);
    BytesOfUnsigned(BytesOf(u, n));
    BytesOfUnsigned(BytesOf(v, n));
  }

  lemma {:induction false} BytesSplit(v: int, n: nat, m: nat)
    ensures BytesOf(v, n + m) == BytesOf(v, n) + BytesOf(v / Pow256(n), m)
    decreases n
  {
    if n > 0 {
      BytesSplit(v / 256, n - 1, m);
      DivDiv(v, 256, Pow256(n - 1));
    }
  }

  /** The top byte tells which half of the range a value is in. */
  lemma {:induction false} NegativeOfBytes(v: int, n: nat)
    requires n > 0
    ensures Negative(BytesOf(v, n)) <==> v % Pow256(n) >= Pow256(n) / 2
  {
    var w := v / Pow256(n - 1);
    BytesSplit(v, n - 1, 1);
    assert BytesOf(w, 1) == [w % 256];
    ModDiv(v, Pow256(n - 1), 256);
    var low, p := v % Pow256(n - 1), Pow256(n - 1);
    assert Pow256(n) == p * 256 && Pow256(n) / 2 == p * 128;
    if w % 256 >= 128 { MulMono(p, 128, w % 256); } else { MulMono(p, w % 256, 127); assert p * 127 + p == p * 128; }
  }

  lemma HalfOfPower(n: nat)
    requires n > 0
    ensures Pow256(n) == 2 * (Pow256(n) / 2)
  {
    assert Pow256(n) == 2 * (128 * Pow256(n - 1));
  }

  /** The signed value of a byte string has those bytes, and is in range. */
  lemma SignedOfBytes(bytes: seq<Byte>)
    requires bytes != []
    ensures BytesOf(Signed(bytes), |bytes|) == bytes
    ensures var half := Pow256(|bytes|) / 2; -half <= Signed(bytes) < half && Pow256(|bytes|) == 2 * half
  {
    hide BytesOf, Unsigned, Negative;
    var u: int, n: nat, p: int := Unsigned(bytes), |bytes|, Pow256(|bytes|);
    BytesOfUnsigned(bytes);
    UnsignedBound(bytes);
    NegativeOfBytes(u, n);
    DivUnique(u, p, 0, u);
    HalfOfPower(n);
    if Negative(bytes) {
      DivUnique(u - p, p, -1, u);
      BytesCongruent(u - p, u, n);
    }
  }

  lemma WordShift(v: int, k: int)
    ensures WordOf(v + k * M64) == WordOf(v)
  {
    assert Pow256(8) == M64;
    assert (v + k * M64) % M64 == v % M64;
    BytesCongruent(v + k * M64, v, 8);
  }

  lemma WordEqual(u: int, v: int)
    ensures WordOf(u) == WordOf(v) <==> u % M64 == v % M64
  {
    assert Pow256(8) == M64;
    BytesCongruent(u, v, 8);
  }

  lemma UnsignedWord(v: int)
    ensures Unsigned(WordOf(v)) == v % M64
    ensures Unsigned(WordOf(v)) == v - v / M64 * M64
  {
    assert Pow256(8) == M64;
    UnsignedOfBytes(v, 8);
  }

  lemma SignedWord(v: int)
    ensures Signed(WordOf(v)) == Convert(Long, v)
  {
    assert Pow256(8) == M64;
    UnsignedOfBytes(v, 8);
    NegativeOfBytes(v, 8);
  }

  lemma ZeroWord(v: int)
    ensures WordOf(v) == ZERO <==> v % M64 == 0
  {
    BytesOfSign(false, 8);
    assert WordOf(0) == Fill(false, 8);
    assert Fill(false, 8) == ZERO;
    WordEqual(v, 0);
  }

  lemma TruthWord(b: bool)
    ensures BoolWord(b) == WordOf(if b then 1 else 0)
  {
    ZeroWord(0);
    if b {
      assert WordOf(1) == [1] + BytesOf(0, 7);
      BytesOfSign(false, 7);
      assert Fill(false, 7) == [0, 0, 0, 0, 0, 0, 0];
    }
  }

  /** Extending the low bytes of a word converts its value to the narrow type. */
  lemma ExtendConverts(ty: CType, v: int)
    requires IsInteger(ty) && !ty.Bool? && SizeOf(ty) < 8
    ensures ExtendWord(WordOf(v), !IsUnsigned(ty), SizeOf(ty)) == WordOf(Convert(ty, v))
    ensures Extend(WordOf(v)[..SizeOf(ty)], !IsUnsigned(ty)) == WordOf(Convert(ty, v))
  {
    var n, u := SizeOf(ty), Convert(ty, v);
    ModulusIsPower(ty);
    ConvertCongruent(ty, v);
    BytesSplit(v, n, 8 - n);
    BytesSplit(u, n, 8 - n);
    BytesCongruent(u, v, n);
    NegativeOfBytes(v, n);
    assert WordOf(v)[..n] == BytesOf(v, n);
    DivUnique(u, Modulus(ty), if u < 0 then -1 else 0, if u < 0 then u + Modulus(ty) else u);
    BytesOfSign(u < 0, 8 - n);
  }

  /** A value in range is read back from its word. */
  lemma WordValue(ty: CType, v: int)
    requires InRange(ty, v)
    ensures IsUnsigned(ty) ==> Unsigned(WordOf(v)) == v
    ensures !IsUnsigned(ty) ==> Signed(WordOf(v)) == v
  {
    UnsignedWord(v);
    SignedWord(v);
  }

  /** Conversion to an eight-byte type leaves the word alone. */
  lemma WideConvert(ty: CType, v: int)
    requires SizeOf(ty) == 8
    ensures WordOf(Convert(ty, v)) == WordOf(v)
  {
    ConvertCongruent(ty, v);
    WordEqual(Convert(ty, v), v);
  }

  // ---- Operators ------------------------------------------------------------------

  lemma SumWord(u: int, v: int)
    ensures BinValue(Add, WordOf(u), WordOf(v)) == Some(WordOf(u + v))
    ensures BinValue(Sub, WordOf(u), WordOf(v)) == Some(WordOf(u - v))
  {
    UnsignedWord(u);
    UnsignedWord(v);
    WordShift(u + v, -(u / M64) - v / M64);
    WordShift(u - v, -(u / M64) + v / M64);
  }

  lemma ProductWord(u: int, v: int)
    ensures BinValue(Mul, WordOf(u), WordOf(v)) == Some(WordOf(u * v))
  {
    hide BytesOf, Convert, Signed, Unsigned;
    SignedWord(u);
    SignedWord(v);
    var i := LongShifts(u);
    var j := LongShifts(v);
    ProductShift(u, v, i, j);
    WordShift(u * v, i * v + u * j + i * j * M64);
  }

  lemma LongShifts(v: int) returns (k: int)
    ensures Convert(Long, v) == v + k * M64
  {
    ConvertCongruent(Long, v);
    k := CongruentBy(Convert(Long, v), v);
  }

  lemma ProductShift(u: int, v: int, i: int, j: int)
    ensures (u + i * M64) * (v + j * M64) == u * v + (i * v + u * j + i * j * M64) * M64
  {
    calc {
      (u + i * M64) * (v + j * M64);
      u * v + u * (j * M64) + (i * M64) * v + (i * M64) * (j * M64);
 {
        assert u * (j * M64) == (u * j) * M64;
        assert (i * M64) * v == (i * v) * M64;
        assert (i * M64) * (j * M64) == (i * j * M64) * M64;
      }
      u * v + (u * j) * M64 + (i * v) * M64 + (i * j * M64) * M64;
    }
  }

  lemma CongruentBy(a: int, v: int) returns (k: int)
    requires a % M64 == v % M64
    ensures a == v + k * M64
  {
    k := a / M64 - v / M64;
  }

  lemma EqualWords(u: int, v: int)
    ensures Compare(Eq, WordOf(u), WordOf(v)) == (u % M64 == v % M64)
    ensures Compare(Ne, WordOf(u), WordOf(v)) == (u % M64 != v % M64)
  {
    WordEqual(u, v);
  }

  // ---- Bitwise operators --------------------------------------------------------------

  lemma {:induction false} BitFoldSplit(op: BitOp, l: int, r: int, n: nat)
    ensures BitFold(op, l, r) == Pow2(n) * BitFold(op, l / Pow2(n), r / Pow2(n)) + BitFold(op, l % Pow2(n), r % Pow2(n))
    decreases n
  {
    if n > 0 {
      var p := Pow2(n - 1);
      BitFoldSplit(op, l / 2, r / 2, n - 1);
      BitFoldStep(op, l, r);
      BitFoldStep(op, l % (2 * p), r % (2 * p));
      HalfMod(l, p);
      HalfMod(r, p);
      DoubledSplit(p, BitFold(op, l / 2 / p, r / 2 / p), BitFold(op, l / 2 % p, r / 2 % p));
    } else {
      assert l % 1 == 0 && r % 1 == 0;
    }
  }

  lemma DoubledSplit(p: int, high: int, low: int)
    ensures 2 * (p * high + low) == (2 * p) * high + 2 * low
  {
  }

  lemma HalfMod(v: int, p: int)
    requires p > 0
    ensures v % (2 * p) / 2 == v / 2 % p && v % (2 * p) % 2 == v % 2 && v / (2 * p) == v / 2 / p
  {
    ModDiv(v, 2, p);
    DivDiv(v, 2, p);
  }

  /** One step of the fold, also where it stops. */
  lemma BitFoldStep(op: BitOp, l: int, r: int)
    ensures BitFold(op, l, r) == 2 * BitFold(op, l / 2, r / 2) + (if ApplyBit(op, l % 2 != 0, r % 2 != 0) then 1 else 0)
  {
  }

  /** The bytes of a fold are the folds of the bytes. */
  lemma {:induction false} BitFoldBytes(op: BitOp, l: int, r: int, n: nat)
    ensures BytesOf(BitFold(op, l, r), n) == BytesOp(op, BytesOf(l, n), BytesOf(r, n))
    decreases n
  {
    if n > 0 {
      BitFoldSplit(op, l, r, 8);
      BitFoldBound(op, l % 256, r % 256, 8);
      assert Pow2(8) == 256;
      BitFoldBytes(op, l / 256, r / 256, n - 1);
      DivUnique(BitFold(op, l, r), 256, BitFold(op, l / 256, r / 256), BitFold(op, l % 256, r % 256));
      assert BytesOf(l, n)[1..] == BytesOf(l / 256, n - 1);
      assert BytesOf(r, n)[1..] == BytesOf(r / 256, n - 1);
    }
  }

  lemma DifferenceDivides(a: int, b: int, d: int)
    requires d > 0 && a % d == b % d
    ensures a == b + (a - b) / d * d
  {
    assert a - b == (a / d - b / d) * d;
    DivUnique(a - b, d, a / d - b / d, 0);
  }
}
