/** Target integers as little-endian byte strings: the arithmetic of the constant
    evaluator, written byte by byte, is exact modulo 256 to the length. */
module ByteWords {
  import opened Words
  import opened Ir
  import opened Integers

  // ---- The operations --------------------------------------------------------------------

  function MulSmall(factor: nat, carry: nat, bytes: seq<Byte>): (r: seq<Byte>)
    ensures |r| == |bytes|
    decreases bytes
  {
    if bytes == [] then [] else
    var total := bytes[0] * factor + carry;
    [total % 256] + MulSmall(factor, total / 256, bytes[1..])
  }

  function AddSmall(carry: nat, bytes: seq<Byte>): (r: seq<Byte>)
    ensures |r| == |bytes|
    decreases bytes
  {
    if bytes == [] then [] else
    var total := bytes[0] + carry;
    [total % 256] + AddSmall(total / 256, bytes[1..])
  }

  function AddCarry(carry: nat, a: seq<Byte>, b: seq<Byte>): (r: seq<Byte>)
    ensures |r| == if |a| <= |b| then |a| else |b|
    decreases a
  {
    if a == [] || b == [] then [] else
    var n := a[0] + b[0] + carry;
    [n % 256] + AddCarry(n / 256, a[1..], b[1..])
  }

  function AddBytes(a: seq<Byte>, b: seq<Byte>): seq<Byte> { AddCarry(0, a, b) }

  function Complement(bytes: seq<Byte>): (r: seq<Byte>)
    ensures |r| == |bytes|
  {
    if bytes == [] then [] else [255 - bytes[0]] + Complement(bytes[1..])
  }

  function Negate(bytes: seq<Byte>): (r: seq<Byte>)
    ensures |r| == |bytes|
  {
    AddSmall(1, Complement(bytes))
  }

  /** Shift-and-add over the bytes of b; shifted is a moved up one byte each time. */
  function MultiplyFrom(shifted: seq<Byte>, b: seq<Byte>, acc: seq<Byte>): (r: seq<Byte>)
    requires |shifted| == |acc|
    ensures |r| == |acc|
    decreases |b|
  {
    if b == [] then acc
    else MultiplyFrom(MoveUp(shifted), b[1..], AddBytes(acc, MulSmall(b[0], 0, shifted)))
  }

  /** The bytes one place up, the last one dropped. */
  function MoveUp(bytes: seq<Byte>): (r: seq<Byte>)
    ensures |r| == |bytes|
  {
    ([0] + bytes)[..|bytes|]
  }

  function Zeros(n: nat): (r: seq<Byte>)
    ensures |r| == n
  {
    if n == 0 then [] else [0] + Zeros(n - 1)
  }

  function Multiply(a: seq<Byte>, b: seq<Byte>): (r: seq<Byte>)
    ensures |r| == |a|
  {
    MultiplyFrom(a, b, Zeros(|a|))
  }

  /** One bit to the right, from the top byte down; carry is the bit that comes in, in
      place, as 0 or 128. */
  function RightFrom(carry: Byte, reversed: seq<Byte>): (r: seq<Byte>)
    requires carry == 0 || carry == 128
    ensures |r| == |reversed|
    decreases reversed
  {
    if reversed == [] then []
    else [reversed[0] / 2 + carry] + RightFrom(reversed[0] % 2 * 128, reversed[1..])
  }

  function Reverse(bytes: seq<Byte>): (r: seq<Byte>)
    ensures |r| == |bytes|
  {
    if bytes == [] then [] else Reverse(bytes[1..]) + [bytes[0]]
  }

  function Right(fill: Byte, bytes: seq<Byte>): (r: seq<Byte>)
    requires fill == 0 || fill == 128
    ensures |r| == |bytes|
  {
    Reverse(RightFrom(fill, Reverse(bytes)))
  }

  /** Lists compared as lists are: by the first difference, a prefix before its extension. */
  predicate Precedes(a: seq<Byte>, b: seq<Byte>)
  {
    b != [] && (a == [] || a[0] < b[0] || (a[0] == b[0] && Precedes(a[1..], b[1..])))
  }

  function CompareBytes(a: seq<Byte>, b: seq<Byte>): int
  {
    if Precedes(Reverse(a), Reverse(b)) then -1 else if a == b then 0 else 1
  }

  function BitsOf(byte: int, n: nat): (r: seq<int>)
    ensures |r| == n && forall i :: 0 <= i < n ==> r[i] == 0 || r[i] == 1
    decreases n
  {
    if n == 0 then [] else [byte % 2] + BitsOf(byte / 2, n - 1)
  }

  function AllBits(bytes: seq<Byte>): (r: seq<int>)
    ensures |r| == 8 * |bytes| && forall i :: 0 <= i < |r| ==> r[i] == 0 || r[i] == 1
  {
    if bytes == [] then [] else BitsOf(bytes[0], 8) + AllBits(bytes[1..])
  }

  /** Long division, the next bit of the dividend at bits[n - 1]. */
  function DivideFrom(bits: seq<int>, n: nat, quotient: seq<Byte>, remainder: seq<Byte>,
      divisor: seq<Byte>): (r: (seq<Byte>, seq<Byte>))
    requires n <= |bits| && (forall i :: 0 <= i < |bits| ==> bits[i] == 0 || bits[i] == 1) && |remainder| == |divisor|
    ensures |r.0| == |quotient| && |r.1| == |divisor|
    decreases n
  {
    if n == 0 then (quotient, remainder) else
    var trial := AddSmall(bits[n - 1], MulSmall(2, 0, remainder));
    var fits := CompareBytes(trial, divisor) >= 0;
    DivideFrom(bits, n - 1, AddSmall(if fits then 1 else 0, MulSmall(2, 0, quotient)),
               if fits then AddBytes(trial, Negate(divisor)) else trial, divisor)
  }

  /** Quotient and remainder; the remainder is kept with a byte to spare while dividing. */
  function Divide(a: seq<Byte>, b: seq<Byte>): (r: (seq<Byte>, seq<Byte>))
    requires |a| == |b|
    ensures |r.0| == |a| && |r.1| == |a|
  {
    var (q, rem) := DivideFrom(AllBits(a), 8 * |a|, Zeros(|a|), Zeros(|a|) + [0], b + [0]);
    (q, rem[..|a|])
  }

  /** The remainder modulo a power, kept abstract in proofs. */
  function Residue(v: int, m: int): int
    requires m > 0
  {
    v % m
  }

  lemma ModShift(v: int, k: int, m: int)
    requires m > 0
    ensures Residue(v + k * m, m) == Residue(v, m)
  {
    assert v + k * m == m * (v / m + k) + v % m;
    DivUnique(v + k * m, m, v / m + k, v % m);
  }

  lemma ModOf(v: int, m: int) returns (k: int)
    requires m > 0
    ensures Residue(v, m) == v - k * m && 0 <= Residue(v, m) < m
  {
    k := v / m;
  }

  lemma ModOne(v: int)
    ensures Residue(v, 1) == 0
  {
  }

  lemma ModSmall(v: int, m: int)
    requires 0 <= v < m
    ensures Residue(v, m) == v
  {
    DivUnique(v, m, 0, v);
  }

  // ---- Exactness ----------------------------------------------------------------------------

  /** Byte by byte with carry: the low byte and the rest modulo a smaller power. */
  lemma CarryStep(v: int, n: nat)
    requires n > 0
    ensures Residue(v, Pow256(n)) == v % 256 + 256 * Residue(v / 256, Pow256(n - 1))
  {
    ModDiv(v, 256, Pow256(n - 1));
  }

  /** The low byte and the rest of a sum with a multiple of 256. */
  lemma CarrySplit(total: int, x: int)
    ensures (total + 256 * x) / 256 == total / 256 + x && (total + 256 * x) % 256 == total % 256
  {
  }

  lemma MulSplit(factor: int, low: int, high: int, carry: int)
    ensures factor * (low + 256 * high) + carry == (low * factor + carry) + 256 * (factor * high)
  {
    assert factor * (low + 256 * high) == factor * low + factor * (256 * high);
    assert factor * (256 * high) == 256 * (factor * high);
  }

  lemma {:induction false} MulSmallExact(factor: nat, carry: nat, bytes: seq<Byte>)
    ensures Unsigned(MulSmall(factor, carry, bytes)) == Residue(factor * Unsigned(bytes) + carry, Pow256(|bytes|))
    decreases |bytes|
  {
    hide Residue;
    ModOne(factor * Unsigned(bytes) + carry);
    if bytes != [] {
      var total, u := bytes[0] * factor + carry, Unsigned(bytes[1..]);
      MulSmallExact(factor, total / 256, bytes[1..]);
      var r := MulSmall(factor, carry, bytes);
      assert r[1..] == MulSmall(factor, total / 256, bytes[1..]) && r[0] == total % 256;
      MulSplit(factor, bytes[0], u, carry);
      CarrySplit(total, factor * u);
      CarryStep(factor * Unsigned(bytes) + carry, |bytes|);
    }
  }

  lemma {:induction false} AddSmallExact(carry: nat, bytes: seq<Byte>)
    ensures Unsigned(AddSmall(carry, bytes)) == Residue(Unsigned(bytes) + carry, Pow256(|bytes|))
    decreases |bytes|
  {
    hide Residue;
    ModOne(Unsigned(bytes) + carry);
    if bytes != [] {
      var total := bytes[0] + carry;
      AddSmallExact(total / 256, bytes[1..]);
      assert AddSmall(carry, bytes)[1..] == AddSmall(total / 256, bytes[1..]);
      var v := Unsigned(bytes) + carry;
      CarrySplit(total, Unsigned(bytes[1..]));
      CarryStep(v, |bytes|);
    }
  }

  lemma {:induction false} AddExact(carry: nat, a: seq<Byte>, b: seq<Byte>)
    requires |a| == |b|
    ensures Unsigned(AddCarry(carry, a, b)) == Residue(Unsigned(a) + Unsigned(b) + carry, Pow256(|a|))
    decreases |a|
  {
    hide Residue;
    ModOne(Unsigned(a) + Unsigned(b) + carry);
    if a != [] {
      var n := a[0] + b[0] + carry;
      AddExact(n / 256, a[1..], b[1..]);
      assert AddCarry(carry, a, b)[1..] == AddCarry(n / 256, a[1..], b[1..]);
      var v := Unsigned(a) + Unsigned(b) + carry;
      CarrySplit(n, Unsigned(a[1..]) + Unsigned(b[1..]));
      CarryStep(v, |a|);
    }
  }

  lemma {:induction false} ComplementExact(bytes: seq<Byte>)
    ensures Unsigned(Complement(bytes)) == Pow256(|bytes|) - 1 - Unsigned(bytes)
  {
    if bytes != [] {
      ComplementExact(bytes[1..]);
      assert Complement(bytes)[1..] == Complement(bytes[1..]);
    }
  }

  /** Negation modulo 256 to the length. */
  lemma NegateExact(bytes: seq<Byte>)
    ensures Unsigned(Negate(bytes)) == if Unsigned(bytes) == 0 then 0 else Pow256(|bytes|) - Unsigned(bytes)
  {
    hide *;
    ComplementExact(bytes);
    AddSmallExact(1, Complement(bytes));
    UnsignedBound(bytes);
    WholePower(Unsigned(bytes), Pow256(|bytes|));
    NegateIs(bytes);
  }

  lemma NegateIs(bytes: seq<Byte>)
    ensures Negate(bytes) == AddSmall(1, Complement(bytes))
  {
  }

  lemma WholePower(u: int, p: int)
    requires 0 <= u < p
    ensures Residue(p - 1 - u + 1, p) == if u == 0 then 0 else p - u
  {
    hide Residue;
    if u == 0 {
      ModShift(0, 1, p);
      ModSmall(0, p);
    } else {
      ModSmall(p - u, p);
    }
  }

  lemma MoveUpExact(bytes: seq<Byte>)
    ensures Unsigned(MoveUp(bytes)) == Residue(256 * Unsigned(bytes), Pow256(|bytes|))
  {
    hide *;
    if bytes == [] {
      ModOne(256 * Unsigned(bytes));
      NoBytes();
    } else {
      var n := |bytes| - 1;
      MoveUpIs(bytes);
      UnsignedTake(bytes, n);
      UpValue(Unsigned(bytes), |bytes|);
    }
  }

  lemma NoBytes()
    ensures MoveUp([]) == [] && Unsigned([]) == 0 && Pow256(0) == 1
  {
  }

  lemma MoveUpIs(bytes: seq<Byte>)
    requires bytes != []
    ensures Unsigned(MoveUp(bytes)) == 256 * Unsigned(bytes[..|bytes| - 1])
  {
    var up := MoveUp(bytes);
    assert up[1..] == bytes[..|bytes| - 1] && up[0] == 0;
  }

  lemma UpValue(u: int, n: nat)
    requires n > 0
    ensures Residue(256 * u, Pow256(n)) == 256 * Residue(u, Pow256(n - 1))
  {
    hide Residue, Pow256;
    CarrySplit(0, u);
    CarryStep(256 * u, n);
  }

  lemma {:induction false} UnsignedTake(bytes: seq<Byte>, n: nat)
    requires n <= |bytes|
    ensures Unsigned(bytes[..n]) == Residue(Unsigned(bytes), Pow256(n))
    decreases n
  {
    hide Residue;
    ModOne(Unsigned(bytes));
    if n > 0 {
      UnsignedTake(bytes[1..], n - 1);
      assert bytes[..n][1..] == bytes[1..][..n - 1];
      CarryStep(Unsigned(bytes), n);
    }
  }

  lemma {:induction false} UnsignedAppend(a: seq<Byte>, b: seq<Byte>)
    ensures Unsigned(a + b) == Unsigned(a) + Pow256(|a|) * Unsigned(b)
  {
    if a == [] {
      assert a + b == b;
    } else {
      assert (a + b)[1..] == a[1..] + b;
      UnsignedAppend(a[1..], b);
    }
  }

  /** The product accumulates exactly. */
  lemma {:induction false} MultiplyFromExact(shifted: seq<Byte>, b: seq<Byte>, acc: seq<Byte>)
    requires |shifted| == |acc|
    ensures Unsigned(MultiplyFrom(shifted, b, acc)) ==
        Residue(Unsigned(acc) + Unsigned(shifted) * Unsigned(b), Pow256(|acc|))
    decreases |b|
  {
    hide Residue, Pow256, MulSmall, MoveUp, AddCarry;
    var m := Pow256(|acc|);
    UnsignedBound(acc);
    if b == [] {
      ModSmall(Unsigned(acc), m);
    } else {
      var s, u, a := Unsigned(shifted), Unsigned(b[1..]), Unsigned(acc);
      var part, up := MulSmall(b[0], 0, shifted), MoveUp(shifted);
      MultiplyFromExact(up, b[1..], AddBytes(acc, part));
      MulSmallExact(b[0], 0, shifted);
      AddExact(0, acc, part);
      MoveUpExact(shifted);
      ProductStep(a, s, b[0], u, m, Unsigned(part), Unsigned(AddBytes(acc, part)), Unsigned(up));
    }
  }

  lemma ProductStep(a: int, s: int, b0: int, u: int, m: int, part: int, sum: int, up: int)
    requires m > 0 && part == Residue(b0 * s, m) && sum == Residue(a + part, m) && up == Residue(256 * s, m)
    ensures Residue(sum + up * u, m) == Residue(a + s * (b0 + 256 * u), m)
  {
    hide Residue;
    var i := ModOf(b0 * s, m);
    var j := ModOf(a + part, m);
    var k := ModOf(256 * s, m);
    ProductSum(a, s, b0, u, m, i, j, k);
    ModShift(a + s * (b0 + 256 * u), -(i + j + k * u), m);
  }

  lemma ProductSum(a: int, s: int, b0: int, u: int, m: int, i: int, j: int, k: int)
    ensures (a + (b0 * s - i * m) - j * m) + (256 * s - k * m) * u == (a + s * (b0 + 256 * u)) + (-(i + j + k * u)) * m
  {
    assert (256 * s - k * m) * u == 256 * s * u - k * m * u;
    assert k * m * u == k * u * m;
    assert s * (b0 + 256 * u) == b0 * s + 256 * s * u;
    assert (-(i + j + k * u)) * m == -(i * m) - j * m - k * u * m;
  }

  lemma {:induction false} ZerosValue(n: nat)
    ensures Unsigned(Zeros(n)) == 0
  {
    if n > 0 {
      ZerosValue(n - 1);
      assert Zeros(n)[1..] == Zeros(n - 1);
    }
  }

  lemma MultiplyExact(a: seq<Byte>, b: seq<Byte>)
    ensures Unsigned(Multiply(a, b)) == Residue(Unsigned(a) * Unsigned(b), Pow256(|a|))
  {
    ZerosValue(|a|);
    MultiplyFromExact(a, b, Zeros(|a|));
  }

  // ---- Comparison --------------------------------------------------------------------------------

  lemma {:induction false} PrecedesLast(a: seq<Byte>, b: seq<Byte>, x: Byte, y: Byte)
    requires |a| == |b|
    ensures Precedes(a + [x], b + [y]) <==> Precedes(a, b) || (a == b && x < y)
  {
    if a == [] {
      assert a + [x] == [x] && b + [y] == [y];
    } else {
      assert (a + [x])[1..] == a[1..] + [x] && (b + [y])[1..] == b[1..] + [y];
      PrecedesLast(a[1..], b[1..], x, y);
      assert a == [a[0]] + a[1..] && b == [b[0]] + b[1..];
    }
  }

  lemma {:induction false} ReverseInjective(a: seq<Byte>, b: seq<Byte>)
    requires |a| == |b| && Reverse(a) == Reverse(b)
    ensures a == b
  {
    if a != [] {
      var x, y := Reverse(a[1..]), Reverse(b[1..]);
      assert (x + [a[0]])[..|x|] == x && (y + [b[0]])[..|y|] == y;
      assert (x + [a[0]])[|x|] == a[0] && (y + [b[0]])[|y|] == b[0];
      ReverseInjective(a[1..], b[1..]);
      assert a == [a[0]] + a[1..] && b == [b[0]] + b[1..];
    }
  }

  lemma UnsignedInjective(a: seq<Byte>, b: seq<Byte>)
    requires |a| == |b| && Unsigned(a) == Unsigned(b)
    ensures a == b
  {
    BytesOfUnsigned(a);
    BytesOfUnsigned(b);
  }

  lemma {:induction false} PrecedesExact(a: seq<Byte>, b: seq<Byte>)
    requires |a| == |b|
    ensures Precedes(Reverse(a), Reverse(b)) <==> Unsigned(a) < Unsigned(b)
    decreases |a|
  {
    if a != [] {
      PrecedesExact(a[1..], b[1..]);
      PrecedesLast(Reverse(a[1..]), Reverse(b[1..]), a[0], b[0]);
      if Reverse(a[1..]) == Reverse(b[1..]) {
        ReverseInjective(a[1..], b[1..]);
      } else if Unsigned(a[1..]) == Unsigned(b[1..]) {
        UnsignedInjective(a[1..], b[1..]);
        assert false;
      }
    }
  }

  /** The order of byte strings of one length is the order of their values. */
  lemma CompareExact(a: seq<Byte>, b: seq<Byte>)
    requires |a| == |b|
    ensures CompareBytes(a, b) < 0 <==> Unsigned(a) < Unsigned(b)
    ensures CompareBytes(a, b) == 0 <==> Unsigned(a) == Unsigned(b)
    ensures CompareBytes(a, b) > 0 <==> Unsigned(a) > Unsigned(b)
  {
    PrecedesExact(a, b);
    if Unsigned(a) == Unsigned(b) { UnsignedInjective(a, b); }
  }

  // ---- Division -----------------------------------------------------------------------------------

  /** The value of the n low bits. */
  function BitValue(bits: seq<int>, n: nat): int
    requires n <= |bits|
  {
    if n == 0 then 0 else BitValue(bits, n - 1) + bits[n - 1] * Pow2(n - 1)
  }

  lemma {:induction false} BitValueBound(bits: seq<int>, n: nat)
    requires n <= |bits| && forall i :: 0 <= i < |bits| ==> bits[i] == 0 || bits[i] == 1
    ensures 0 <= BitValue(bits, n) < Pow2(n)
  {
    if n > 0 { BitValueBound(bits, n - 1); }
  }

  lemma {:induction false} BitsValue(byte: nat, n: nat)
    requires byte < Pow2(n)
    ensures BitValue(BitsOf(byte, n), n) == byte
    decreases n
  {
    if n > 0 {
      BitsValue(byte / 2, n - 1);
      BitValueShift(BitsOf(byte / 2, n - 1), n - 1, byte % 2);
    }
  }

  lemma {:induction false} BitValueShift(bits: seq<int>, n: nat, low: int)
    requires n <= |bits|
    ensures BitValue([low] + bits, n + 1) == low + 2 * BitValue(bits, n)
  {
    if n > 0 {
      BitValueShift(bits, n - 1, low);
      assert ([low] + bits)[n] == bits[n - 1];
      assert bits[n - 1] * Pow2(n) == 2 * (bits[n - 1] * Pow2(n - 1));
    } else {
      assert BitValue([low] + bits, 1) == BitValue([low] + bits, 0) + low * Pow2(0);
    }
  }

  lemma {:induction false} BitValueAppend(a: seq<int>, b: seq<int>, n: nat)
    requires n <= |b|
    ensures BitValue(a + b, |a| + n) == BitValue(a, |a|) + Pow2(|a|) * BitValue(b, n)
  {
    if n > 0 {
      BitValueAppend(a, b, n - 1);
      PowAdd(|a|, n - 1);
      assert (a + b)[|a| + n - 1] == b[n - 1];
      Distribute(Pow2(|a|), BitValue(b, n - 1), b[n - 1], Pow2(n - 1));
    } else {
      BitValuePrefix(a, b, |a|);
    }
  }

  lemma Distribute(p: int, v: int, bit: int, q: int)
    ensures p * (v + bit * q) == p * v + bit * (p * q)
  {
    assert p * (bit * q) == bit * (p * q);
  }

  lemma {:induction false} BitValuePrefix(a: seq<int>, b: seq<int>, n: nat)
    requires n <= |a|
    ensures BitValue(a + b, n) == BitValue(a, n)
  {
    if n > 0 { BitValuePrefix(a, b, n - 1); }
  }

  lemma {:induction false} PowAdd(a: nat, b: nat)
    ensures Pow2(a + b) == Pow2(a) * Pow2(b)
  {
    if a > 0 {
      PowAdd(a - 1, b);
      assert 2 * (Pow2(a - 1) * Pow2(b)) == (2 * Pow2(a - 1)) * Pow2(b);
    }
  }

  /** The bits of a byte string have its value. */
  lemma {:induction false} AllBitsValue(bytes: seq<Byte>)
    ensures BitValue(AllBits(bytes), 8 * |bytes|) == Unsigned(bytes)
  {
    if bytes != [] {
      assert Pow2(8) == 256;
      AllBitsValue(bytes[1..]);
      BitsValue(bytes[0], 8);
      BitValueAppend(BitsOf(bytes[0], 8), AllBits(bytes[1..]), 8 * |bytes[1..]|);
    }
  }

  /** Long division keeps: quotient times divisor plus remainder is what has been read. */
  lemma {:induction false} DivideFromExact(bits: seq<int>, n: nat, quotient: seq<Byte>, remainder: seq<Byte>,
      divisor: seq<Byte>)
    requires n <= |bits| && (forall i :: 0 <= i < |bits| ==> bits[i] == 0 || bits[i] == 1) && |remainder| == |divisor|
    requires 0 < Unsigned(divisor) && Unsigned(remainder) < Unsigned(divisor) &&
        2 * Unsigned(divisor) <= Pow256(|divisor|)
    requires Unsigned(quotient) * Pow2(n) + Pow2(n) <= Pow256(|quotient|)
    ensures var (q, r) := DivideFrom(bits, n, quotient, remainder, divisor);
      && Unsigned(q) * Unsigned(divisor) + Unsigned(r) ==
          (Unsigned(quotient) * Unsigned(divisor) + Unsigned(remainder)) * Pow2(n) + BitValue(bits, n)
      && Unsigned(r) < Unsigned(divisor)
    decreases n
  {
    hide Residue, Unsigned, Pow256, Pow2, BitValue, AddSmall, MulSmall, CompareBytes, AddCarry, Negate;
    BitValueNone(bits);
    if n > 0 {
      var d, q, r, bit := Unsigned(divisor), Unsigned(quotient), Unsigned(remainder), bits[n - 1];
      var trial := AddSmall(bit, MulSmall(2, 0, remainder));
      var fits := CompareBytes(trial, divisor) >= 0;
      var rest := if fits then AddBytes(trial, Negate(divisor)) else trial;
      var more := AddSmall(if fits then 1 else 0, MulSmall(2, 0, quotient));
      TrialStep(bit, remainder, divisor);
      QuotientStep(quotient, fits, n);
      DivideFromExact(bits, n - 1, more, rest, divisor);
      BitValueTop(bits, n);
      RemainderStep(q, d, r, bit, fits, Pow2(n - 1));
    }
  }

  lemma BitValueTop(bits: seq<int>, n: nat)
    requires 0 < n <= |bits|
    ensures BitValue(bits, n) == BitValue(bits, n - 1) + bits[n - 1] * Pow2(n - 1) && Pow2(n) == 2 * Pow2(n - 1)
  {
  }

  lemma BitValueNone(bits: seq<int>)
    ensures BitValue(bits, 0) == 0 && Pow2(0) == 1
  {
  }

  /** One bit is brought down, and the divisor subtracted if it fits. */
  lemma TrialStep(bit: int, remainder: seq<Byte>, divisor: seq<Byte>)
    requires (bit == 0 || bit == 1) && |remainder| == |divisor|
    requires 0 < Unsigned(divisor) && Unsigned(remainder) < Unsigned(divisor) &&
        2 * Unsigned(divisor) <= Pow256(|divisor|)
    ensures var trial := AddSmall(bit, MulSmall(2, 0, remainder));
      var fits := CompareBytes(trial, divisor) >= 0;
      var rest := if fits then AddBytes(trial, Negate(divisor)) else trial;
      var t := 2 * Unsigned(remainder) + bit;
      (fits <==> t >= Unsigned(divisor)) && Unsigned(rest) == (if fits then t - Unsigned(divisor) else t) &&
          Unsigned(rest) < Unsigned(divisor)
  {
    hide Unsigned, Pow256, Residue, AddSmall, MulSmall, CompareBytes, AddCarry, Negate;
    var r, m := Unsigned(remainder), Pow256(|divisor|);
    var trial := AddSmall(bit, MulSmall(2, 0, remainder));
    MulSmallExact(2, 0, remainder);
    AddSmallExact(bit, MulSmall(2, 0, remainder));
    ModSmall(2 * r, m);
    ModSmall(2 * r + bit, m);
    CompareExact(trial, divisor);
    if 2 * r + bit >= Unsigned(divisor) { SubtractExact(trial, divisor); }
  }

  lemma SubtractExact(a: seq<Byte>, b: seq<Byte>)
    requires |a| == |b| && Unsigned(b) <= Unsigned(a)
    ensures Unsigned(AddBytes(a, Negate(b))) == Unsigned(a) - Unsigned(b)
  {
    hide Unsigned, Pow256, AddCarry, Negate, Residue;
    var m := Pow256(|a|);
    NegateExact(b);
    AddExact(0, a, Negate(b));
    UnsignedBound(a);
    SubtractMod(Unsigned(a), Unsigned(b), m);
  }

  lemma SubtractMod(u: int, v: int, m: int)
    requires 0 <= v <= u < m
    ensures Residue(u + (if v == 0 then 0 else m - v) + 0, m) == u - v
  {
    hide Residue;
    ModSmall(u - v, m);
    if v != 0 { ModShift(u - v, 1, m); }
  }

  lemma QuotientStep(quotient: seq<Byte>, fits: bool, n: nat)
    requires n > 0 && Unsigned(quotient) * Pow2(n) + Pow2(n) <= Pow256(|quotient|)
    ensures var more := AddSmall(if fits then 1 else 0, MulSmall(2, 0, quotient));
      var q' := 2 * Unsigned(quotient) + if fits then 1 else 0;
      Unsigned(more) == q' && q' * Pow2(n - 1) + Pow2(n - 1) <= Pow256(|quotient|)
  {
    var q: int, m, p := Unsigned(quotient), Pow256(|quotient|), Pow2(n - 1);
    assert Pow2(n) == 2 * p;
    hide Unsigned, Pow256, Pow2, MulSmall, AddSmall, Residue;
    var q' := 2 * q + if fits then 1 else 0;
    DoubledBound(q, q', p, m);
    MulSmallExact(2, 0, quotient);
    AddSmallExact(if fits then 1 else 0, MulSmall(2, 0, quotient));
    ModSmall(2 * q, m);
    ModSmall(q', m);
  }

  lemma DoubledBound(q: int, q': int, p: int, m: int)
    requires q >= 0 && p >= 1 && q * (2 * p) + 2 * p <= m && 2 * q <= q' <= 2 * q + 1
    ensures q' * p + p <= m && q' < m && 2 * q < m
  {
    assert (2 * q + 2) * p == q * (2 * p) + 2 * p;
    MulMono(p, q' + 1, 2 * q + 2);
    assert (q' + 1) * p == q' * p + p;
    MulMono(q' + 1, 1, p);
  }

  lemma RemainderStep(q: int, d: int, r: int, bit: int, fits: bool, p: int)
    ensures var r' := if fits then 2 * r + bit - d else 2 * r + bit;
      var q' := 2 * q + if fits then 1 else 0;
      (q' * d + r') * p + 0 == (q * d + r) * (2 * p) + bit * p
  {
    var r' := if fits then 2 * r + bit - d else 2 * r + bit;
    var q' := 2 * q + if fits then 1 else 0;
    assert q' * d + r' == 2 * (q * d + r) + bit by {
      assert (2 * q + 1) * d == 2 * (q * d) + d;
      assert (2 * q) * d == 2 * (q * d);
    }
    assert (2 * (q * d + r) + bit) * p == (q * d + r) * (2 * p) + bit * p;
  }

  /** The quotient and remainder of two byte strings of one length. */
  lemma DivideExact(a: seq<Byte>, b: seq<Byte>)
    requires |a| == |b| && Unsigned(b) != 0
    ensures var (q, r) := Divide(a, b);
      Unsigned(a) == Unsigned(q) * Unsigned(b) + Unsigned(r) && Unsigned(r) < Unsigned(b)
  {
    hide Unsigned, Pow256, Pow2, DivideFrom, AllBits, Zeros, BitValue, Residue;
    var n := |a|;
    var (q, r) := DivideFrom(AllBits(a), 8 * n, Zeros(n), Zeros(n) + [0], b + [0]);
    Widened(b);
    BytePower(n);
    AllBitsValue(a);
    DivideFromExact(AllBits(a), 8 * n, Zeros(n), Zeros(n) + [0], b + [0]);
    UnsignedTake(r, n);
    ModSmall(Unsigned(r), Pow256(n));
  }

  /** The divisor with its spare byte, and the zeros division starts from. */
  lemma Widened(b: seq<Byte>)
    ensures Unsigned(Zeros(|b|)) == 0 && Unsigned(Zeros(|b|) + [0]) == 0 && Unsigned(b + [0]) == Unsigned(b)
    ensures Unsigned(b) < Pow256(|b|) && 2 * Unsigned(b) <= Pow256(|b| + 1)
  {
    ZerosValue(|b|);
    assert Unsigned([0]) == 0;
    UnsignedAppend(Zeros(|b|), [0]);
    UnsignedAppend(b, [0]);
    UnsignedBound(b);
  }

  lemma {:induction false} BytePower(n: nat)
    ensures Pow2(8 * n) == Pow256(n)
  {
    if n > 0 {
      BytePower(n - 1);
      PowAdd(8, 8 * (n - 1));
      assert Pow2(8) == 256;
    }
  }

  // ---- Shifting right ---------------------------------------------------------------------------------

  /** The value of bytes listed from the top down. */
  function TopDown(reversed: seq<Byte>): nat
  {
    if reversed == [] then 0 else reversed[0] * Pow256(|reversed| - 1) + TopDown(reversed[1..])
  }

  lemma {:induction false} ReverseValue(bytes: seq<Byte>)
    ensures TopDown(Reverse(bytes)) == Unsigned(bytes)
  {
    if bytes != [] {
      ReverseValue(bytes[1..]);
      TopDownLast(Reverse(bytes[1..]), bytes[0]);
    }
  }

  lemma {:induction false} TopDownLast(reversed: seq<Byte>, last: Byte)
    ensures TopDown(reversed + [last]) == 256 * TopDown(reversed) + last
  {
    if reversed != [] {
      assert (reversed + [last])[1..] == reversed[1..] + [last];
      TopDownLast(reversed[1..], last);
      var n := |reversed|;
      assert Pow256(n) == 256 * Pow256(n - 1);
      assert reversed[0] * (256 * Pow256(n - 1)) == 256 * (reversed[0] * Pow256(n - 1));
    } else {
      assert [last][1..] == [] && reversed + [last] == [last];
      assert TopDown([last]) == last * Pow256(0) + TopDown([]);
    }
  }

  lemma {:induction false} ReverseTwice(bytes: seq<Byte>)
    ensures Reverse(Reverse(bytes)) == bytes
  {
    if bytes != [] {
      ReverseTwice(bytes[1..]);
      ReverseLast(Reverse(bytes[1..]), bytes[0]);
    }
  }

  lemma {:induction false} ReverseLast(bytes: seq<Byte>, last: Byte)
    ensures Reverse(bytes + [last]) == [last] + Reverse(bytes)
  {
    if bytes == [] {
      assert bytes + [last] == [last] && [last][1..] == [];
    } else {
      assert (bytes + [last])[1..] == bytes[1..] + [last];
      ReverseLast(bytes[1..], last);
    }
  }

  /** Halving from the top, the bit that comes in above. */
  lemma {:induction false} RightFromExact(carry: Byte, reversed: seq<Byte>)
    requires carry == 0 || carry == 128
    ensures TopDown(RightFrom(carry, reversed)) == (carry / 128 * Pow256(|reversed|) + TopDown(reversed)) / 2
    decreases |reversed|
  {
    if reversed != [] {
      var n, top, rest := |reversed| - 1, reversed[0], reversed[1..];
      var bit, c := top % 2, carry / 128;
      RightFromExact(bit * 128, rest);
      assert RightFrom(carry, reversed)[1..] == RightFrom(bit * 128, rest);
      var p, t := Pow256(n), TopDown(rest);
      assert TopDown(RightFrom(carry, reversed)) == (top / 2 + carry) * p + (bit * p + t) / 2;
      RightStep(c, top, p, t);
    } else {
      if carry == 128 { assert 1 * Pow256(0) / 2 == 0; }
    }
  }

  lemma RightStep(c: int, top: int, p: int, t: int)
    requires (c == 0 || c == 1) && 0 <= top && p > 0 && t >= 0
    ensures (top / 2 + 128 * c) * p + (top % 2 * p + t) / 2 == (c * (256 * p) + (top * p + t)) / 2
  {
    var h, bit := top / 2, top % 2;
    assert top * p == 2 * (h * p) + bit * p by { assert top == 2 * h + bit; }
    assert c * (256 * p) == 2 * (128 * c * p);
    assert (h + 128 * c) * p == h * p + 128 * c * p;
    var x := bit * p + t;
    assert (2 * (h * p + 128 * c * p) + x) / 2 == h * p + 128 * c * p + x / 2;
  }

  /** One bit right, with zero coming in: halving. */
  lemma RightExact(bytes: seq<Byte>)
    ensures Unsigned(Right(0, bytes)) == Unsigned(bytes) / 2
  {
    hide Unsigned, Pow256;
    RightValue(0, bytes);
  }

  /** One bit right, with the sign coming in: halving the signed value, rounded down. */
  lemma RightSigned(bytes: seq<Byte>)
    requires bytes != []
    ensures Signed(Right(if Negative(bytes) then 128 else 0, bytes)) == Signed(bytes) / 2
  {
    hide Unsigned, Pow256, BytesOf, Negative;
    var r := Right(if Negative(bytes) then 128 else 0, bytes);
    RightValue(if Negative(bytes) then 128 else 0, bytes);
    HalfOfPower(|bytes|);
    SignHalf(bytes);
    SignHalf(r);
  }

  /** The signed value is negative in the upper half of the unsigned range. */
  lemma SignHalf(bytes: seq<Byte>)
    requires bytes != []
    ensures Negative(bytes) <==> Unsigned(bytes) >= Pow256(|bytes|) / 2
    ensures Unsigned(bytes) < Pow256(|bytes|)
  {
    hide Unsigned, Pow256, BytesOf, Negative;
    var u, p := Unsigned(bytes), Pow256(|bytes|);
    BytesOfUnsigned(bytes);
    UnsignedBound(bytes);
    NegativeOfBytes(u, |bytes|);
    DivUnique(u, p, 0, u);
  }

  lemma RightValue(fill: Byte, bytes: seq<Byte>)
    requires fill == 0 || fill == 128
    ensures Unsigned(Right(fill, bytes)) == (fill / 128 * Pow256(|bytes|) + Unsigned(bytes)) / 2
  {
    ReverseValue(bytes);
    RightFromExact(fill, Reverse(bytes));
    ReverseValue(Right(fill, bytes));
    ReverseTwice(RightFrom(fill, Reverse(bytes)));
  }

  /** One bit left is doubling. */
  lemma LeftExact(bytes: seq<Byte>)
    ensures Unsigned(MulSmall(2, 0, bytes)) == Residue(2 * Unsigned(bytes), Pow256(|bytes|))
  {
    hide Residue, Unsigned, Pow256, MulSmall;
    MulSmallExact(2, 0, bytes);
  }
}
