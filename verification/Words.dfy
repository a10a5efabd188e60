/** Bytes, 64-bit machine words and byte-addressed memory.

    A word is its eight little-endian bytes, so loads, stores, extensions and
    truncations are slices; arithmetic goes through the values Unsigned and
    Signed read from the bytes. */
module Words {

  type Byte = b: int | 0 <= b < 256

  type Word = w: seq<Byte> | |w| == 8 witness [0, 0, 0, 0, 0, 0, 0, 0]

  const ZERO: Word := [0, 0, 0, 0, 0, 0, 0, 0]

  /** The little-endian value of a byte string. */
  function Unsigned(bytes: seq<Byte>): nat
  {
    if bytes == [] then 0 else bytes[0] + 256 * Unsigned(bytes[1..])
  }

  function Pow2(n: nat): (p: nat)
    ensures p >= 1
  {
    if n == 0 then 1 else 2 * Pow2(n - 1)
  }

  function Pow256(n: nat): (p: nat)
    ensures p >= 1
  {
    if n == 0 then 1 else 256 * Pow256(n - 1)
  }

  /** The n low bytes of v in two's complement. */
  function BytesOf(v: int, n: nat): (bytes: seq<Byte>)
    ensures |bytes| == n
    decreases n, v
  {
    if n == 0 then [] else [v % 256] + BytesOf(v / 256, n - 1)
  }

  function WordOf(v: int): Word { BytesOf(v, 8) }

  predicate Negative(bytes: seq<Byte>) { bytes != [] && bytes[|bytes| - 1] >= 128 }

  /** The two's complement value of a byte string. */
  function Signed(bytes: seq<Byte>): int
  {
    if Negative(bytes) then Unsigned(bytes) - Pow256(|bytes|) else Unsigned(bytes)
  }

  function BoolWord(b: bool): Word { if b then [1, 0, 0, 0, 0, 0, 0, 0] else ZERO }

  function Fill(negative: bool, n: nat): (bytes: seq<Byte>)
    ensures |bytes| == n
  {
    seq(n, _ => if negative then 255 else 0)
  }

  /** The low n bytes of a word, extended with zeros or with the sign. */
  function Extend(bytes: seq<Byte>, signed: bool): (w: Word)
    requires |bytes| <= 8
  {
    bytes + Fill(signed && Negative(bytes), 8 - |bytes|)
  }

  // ---- Bitwise operators --------------------------------------------------

  datatype BitOp = BitAnd | BitOr | BitXor

  predicate ApplyBit(op: BitOp, l: bool, r: bool)
  {
    match op
    case BitAnd => l && r
    case BitOr => l || r
    case BitXor => l != r
  }

  function Magnitude(v: int): nat { if v >= 0 then v else -v - 1 }

  /** bitFoldInt: combine two integers bit by bit until both are sign extension. */
  function BitFold(op: BitOp, l: int, r: int): int
    decreases Magnitude(l) + Magnitude(r)
  {
    if (l == 0 || l == -1) && (r == 0 || r == -1) then
      if ApplyBit(op, l == -1, r == -1) then -1 else 0
    else
      2 * BitFold(op, l / 2, r / 2) + (if ApplyBit(op, l % 2 != 0, r % 2 != 0) then 1 else 0)
  }

  /** Bit i of the infinite two's complement expansion of v. */
  predicate Bit(v: int, i: nat)
    decreases i
  {
    if i == 0 then v % 2 != 0 else Bit(v / 2, i - 1)
  }

  lemma {:induction false} BitOfSign(v: int, i: nat)
    requires v == 0 || v == -1
    ensures Bit(v, i) == (v == -1)
  {
    if i > 0 { BitOfSign(v / 2, i - 1); }
  }

  /** bitFoldInt acts on every bit of the two infinite expansions. */
  lemma {:induction false} BitFoldActsBitwise(op: BitOp, l: int, r: int, i: nat)
    ensures Bit(BitFold(op, l, r), i) == ApplyBit(op, Bit(l, i), Bit(r, i))
    decreases i
  {
    if (l == 0 || l == -1) && (r == 0 || r == -1) {
      BitOfSign(l, i);
      BitOfSign(r, i);
      BitOfSign(BitFold(op, l, r), i);
    } else {
      var low := ApplyBit(op, l % 2 != 0, r % 2 != 0);
      assert BitFold(op, l, r) == 2 * BitFold(op, l / 2, r / 2) + (if low then 1 else 0);
      HalfOfDouble(BitFold(op, l / 2, r / 2), low);
      if i > 0 { BitFoldActsBitwise(op, l / 2, r / 2, i - 1); }
    }
  }

  lemma HalfOfDouble(v: int, low: bool)
    ensures (2 * v + if low then 1 else 0) / 2 == v
    ensures ((2 * v + if low then 1 else 0) % 2 != 0) == low
  {
  }

  lemma {:induction false} BitFoldCommutes(op: BitOp, l: int, r: int)
    ensures BitFold(op, l, r) == BitFold(op, r, l)
    decreases Magnitude(l) + Magnitude(r)
  {
    if !((l == 0 || l == -1) && (r == 0 || r == -1)) { BitFoldCommutes(op, l / 2, r / 2); }
  }

  lemma {:induction false} BitFoldBound(op: BitOp, l: nat, r: nat, n: nat)
    requires l < Pow2(n) && r < Pow2(n)
    ensures 0 <= BitFold(op, l, r) < Pow2(n)
    decreases n
  {
    if !(l == 0 && r == 0) { BitFoldBound(op, l / 2, r / 2, n - 1); }
  }

  function ByteOp(op: BitOp, l: Byte, r: Byte): Byte
  {
    assert Pow2(8) == 256;
    BitFoldBound(op, l, r, 8);
    BitFold(op, l, r)
  }

  /** The bitwise operator on byte strings, zipWith over the shorter. */
  function BytesOp(op: BitOp, l: seq<Byte>, r: seq<Byte>): (bytes: seq<Byte>)
    ensures |bytes| == if |l| <= |r| then |l| else |r|
  {
    if l == [] || r == [] then [] else [ByteOp(op, l[0], r[0])] + BytesOp(op, l[1..], r[1..])
  }

  lemma {:induction false} BytesOpCommutes(op: BitOp, l: seq<Byte>, r: seq<Byte>)
    ensures BytesOp(op, l, r) == BytesOp(op, r, l)
  {
    if l != [] && r != [] {
      BitFoldCommutes(op, l[0], r[0]);
      BytesOpCommutes(op, l[1..], r[1..]);
    }
  }

  // ---- Values of byte strings ---------------------------------------------

  lemma {:induction false} UnsignedBound(bytes: seq<Byte>)
    ensures Unsigned(bytes) < Pow256(|bytes|)
  {
    if bytes != [] { UnsignedBound(bytes[1..]); }
  }

  lemma {:induction false} UnsignedOfZeros(bytes: seq<Byte>)
    requires forall i :: 0 <= i < |bytes| ==> bytes[i] == 0
    ensures Unsigned(bytes) == 0
  {
    if bytes != [] { UnsignedOfZeros(bytes[1..]); }
  }

  lemma {:induction false} UnsignedOfOnes(bytes: seq<Byte>)
    requires forall i :: 0 <= i < |bytes| ==> bytes[i] == 255
    ensures Unsigned(bytes) == Pow256(|bytes|) - 1
  {
    if bytes != [] { UnsignedOfOnes(bytes[1..]); }
  }

  lemma SignFillValue(negative: bool, n: nat)
    ensures Unsigned(Fill(negative, n)) == if negative then Pow256(n) - 1 else 0
    ensures n > 0 ==> Signed(Fill(negative, n)) == if negative then -1 else 0
  {
    if negative { UnsignedOfOnes(Fill(true, n)); } else { UnsignedOfZeros(Fill(false, n)); }
  }

  lemma {:induction false} BytesOfSign(negative: bool, n: nat)
    ensures BytesOf(if negative then -1 else 0, n) == Fill(negative, n)
  {
    if n > 0 {
      BytesOfSign(negative, n - 1);
      assert Fill(negative, n) == [if negative then 255 else 0] + Fill(negative, n - 1);
    }
  }

  // ---- Memory --------------------------------------------------------------

  /** Sparse memory; an address never written reads as zero. */
  type Mem = map<int, Byte>

  function At(m: Mem, x: int): Byte { if x in m then m[x] else 0 }

  function Read(m: Mem, a: int, n: nat): (bytes: seq<Byte>)
    ensures |bytes| == n
    ensures forall i :: 0 <= i < n ==> bytes[i] == At(m, a + i)
  {
    seq<Byte>(n, i => At(m, a + i))
  }

  function ReadWord(m: Mem, a: int): Word { Read(m, a, 8) }

  function Write(m: Mem, a: int, bytes: seq<Byte>): (m': Mem)
    ensures forall x {:trigger At(m', x)} :: At(m', x) == if a <= x < a + |bytes| then bytes[x - a] else At(m, x)
    decreases bytes
  {
    if bytes == [] then m else Write(m[a := bytes[0]], a + 1, bytes[1..])
  }

  lemma {:induction false} WriteBoth(m: Mem, a: int, x: seq<Byte>, y: seq<Byte>)
    ensures Write(m, a, x + y) == Write(Write(m, a, x), a + |x|, y) && Write(m, a, []) == m
    decreases |x|
  {
    if x == [] {
      assert x + y == y;
    } else {
      assert (x + y)[1..] == x[1..] + y;
      WriteBoth(m[a := x[0]], a + 1, x[1..], y);
    }
  }

  lemma ReadSame(m: Mem, m': Mem, a: int, n: nat)
    requires forall x :: a <= x < a + n ==> At(m, x) == At(m', x)
    ensures Read(m, a, n) == Read(m', a, n)
  {
    forall i | 0 <= i < n ensures Read(m, a, n)[i] == Read(m', a, n)[i] {
      assert At(m, a + i) == At(m', a + i);
    }
  }

  lemma ReadAside(m: Mem, a: int, bytes: seq<Byte>, b: int, n: nat)
    requires b + n <= a || a + |bytes| <= b
    ensures Read(Write(m, a, bytes), b, n) == Read(m, b, n)
  {
    ReadSame(m, Write(m, a, bytes), b, n);
  }

  lemma ReadBack(m: Mem, a: int, bytes: seq<Byte>)
    ensures Read(Write(m, a, bytes), a, |bytes|) == bytes
  {
    forall i | 0 <= i < |bytes| ensures Read(Write(m, a, bytes), a, |bytes|)[i] == bytes[i] {
      assert At(Write(m, a, bytes), a + i) == bytes[i];
    }
  }
}
