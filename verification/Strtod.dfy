/** Decimal and hexadecimal integers to binary64: the digit loop with its guard against
    overflow, and the normalisation that builds the bits. */
module Strtod {
  import opened Words
  import opened Integers
  import opened Literals
  import ByteWords

  const HIDDEN: nat := 0x10_0000_0000_0000
  const OVERFLOW: nat := 0x20_0000_0000_0000
  const INFINITY: nat := 0x7FF0_0000_0000_0000

  // ---- The digits -------------------------------------------------------------------------

  /** What the scaled significand keeps of the digits' value: never more than it, all of it
      while nothing was shifted out, and then the value no longer fits 64 bits. */
  ghost predicate Keeps(integer: nat, exp2: nat, value: nat)
  {
    integer < M64 && exp2 <= 4096 && integer * Pow2(exp2) <= value && Near(integer, exp2, value)
    && if exp2 == 0 then integer == value else value >= M64
  }

  const UNIT: nat := 0x800_0000_0000_0000

  /** Once bits are lost the significand stays above 2 to the 59, and each bit of scale has
      lost at most one part in that many; the scale stops growing at 4096. */
  ghost predicate Near(integer: nat, exp2: nat, value: nat)
  {
    exp2 > 0 ==> integer >= UNIT && (exp2 < 4096 ==> (value + 1) * UNIT <= integer * Pow2(exp2) * (UNIT + exp2))
  }

  /** The digits after position start, up to the first that is none: a significand below
      2 to the 64 and a power of two whose product never exceeds the exact value, and
      is that value exactly when the value fits, and short of it by little otherwise. */
  method ReadDigits(s: string, start: nat, base: nat) returns (integer: nat, exp2: nat, end: nat)
    requires start <= |s| && 2 <= base <= 16
    ensures start <= end <= |s| && (end < |s| ==> DigitValue(s[end]) >= base)
    ensures forall i :: start <= i < end ==> DigitValue(s[i]) < base
    ensures integer < M64 && exp2 <= 4096
    ensures integer * Pow2(exp2) <= DigitsValue(base, 0, s[start..])
    ensures exp2 == 0 <==> DigitsValue(base, 0, s[start..]) < M64
    ensures exp2 == 0 ==> integer == DigitsValue(base, 0, s[start..])
    ensures Near(integer, exp2, DigitsValue(base, 0, s[start..]))
  {
    hide Pow2, DigitsValue, DigitValue, Shifted;
    PowZero();
    integer, exp2, end := 0, 0, start;
    ghost var value: nat := 0;
    while end < |s| && DigitValue(s[end]) < base
      invariant start <= end <= |s|
      invariant forall i :: start <= i < end ==> DigitValue(s[i]) < base
      invariant DigitsValue(base, value, s[end..]) == DigitsValue(base, 0, s[start..])
      invariant Keeps(integer, exp2, value)
    {
      DigitStep(base, value, s, end);
      integer, exp2 := TakeDigit(integer, exp2, base, DigitValue(s[end]), value);
      value := Shifted(value, base, DigitValue(s[end]));
      end := end + 1;
    }
    DigitsEnd(base, value, s, end);
  }

  function Shifted(value: nat, base: nat, digit: nat): nat { value * base + digit }

  /** One digit: halve until it fits, then append what the scale leaves of it. */
  method TakeDigit(integer0: nat, exp0: nat, base: nat, digit: nat, ghost value: nat) returns (integer: nat, exp2: nat)
    requires 2 <= base <= 16 && digit < base && Keeps(integer0, exp0, value)
    ensures Keeps(integer, exp2, Shifted(value, base, digit))
  {
    hide Pow2, Keeps, Addend, Shifted, Awaits;
    NoSmaller(integer0, exp0, base, digit, value);
    integer, exp2 := MakeRoom(integer0, exp0, base, digit, value);
    Accumulated(integer, exp2, base, digit, value);
    integer := integer * base + Addend(digit, exp2);
  }

  /** What the significand keeps while it makes room for a digit. */
  ghost predicate Awaits(integer: nat, exp2: nat, base: nat, digit: nat, value: nat)
  {
    && exp2 <= 4096 && integer * Pow2(exp2) <= value && Near(integer, exp2, value)
    && if exp2 == 0 then integer == value else value * base + digit >= M64
  }

  /** Halve the significand until another digit fits. */
  method MakeRoom(integer0: nat, exp0: nat, base: nat, digit: nat, ghost value: nat) returns (integer: nat, exp2: nat)
    requires 2 <= base <= 16 && digit < base && integer0 < M64 && Awaits(integer0, exp0, base, digit, value)
    ensures integer <= (M64 - 1 - digit) / base && Awaits(integer, exp2, base, digit, value)
  {
    hide Pow2, Near;
    integer, exp2 := integer0, exp0;
    while integer > (M64 - 1 - digit) / base
      invariant integer < M64 && exp2 <= 4096
      invariant integer * Pow2(exp2) <= value
      invariant if exp2 == 0 then integer == value else value * base + digit >= M64
      invariant Near(integer, exp2, value)
    {
      if exp2 == 0 { TooLarge(integer, base, digit); }
      StillLarge(integer, base, digit);
      HalvedNear(integer, exp2, value);
      Halved(integer, exp2);
      integer := integer / 2;
      if exp2 < 4096 { exp2 := exp2 + 1; }
    }
  }

  lemma DigitStep(base: nat, value: nat, s: string, end: nat)
    requires end < |s| && DigitValue(s[end]) < base
    ensures DigitsValue(base, value, s[end..]) ==
        DigitsValue(base, Shifted(value, base, DigitValue(s[end])), s[end + 1..])
  {
    assert s[end..][1..] == s[end + 1..] && s[end..][0] == s[end];
  }

  lemma DigitsEnd(base: nat, value: nat, s: string, end: nat)
    requires end <= |s| && (end < |s| ==> DigitValue(s[end]) >= base)
    ensures DigitsValue(base, value, s[end..]) == value
  {
    assert end < |s| ==> s[end..][0] == s[end];
  }

  lemma TooLarge(integer: nat, base: nat, digit: nat)
    requires 2 <= base <= 16 && digit < base && integer > (M64 - 1 - digit) / base
    ensures integer * base + digit >= M64
  {
    var q := (M64 - 1 - digit) / base;
    assert M64 - 1 - digit == base * q + (M64 - 1 - digit) % base;
    MulMono(base, q + 1, integer);
    assert base * (q + 1) == base * q + base;
  }

  lemma Halved(integer: nat, exp2: nat)
    ensures integer / 2 * Pow2(exp2 + 1) <= integer * Pow2(exp2)
    ensures integer / 2 * Pow2(exp2) <= integer * Pow2(exp2)
  {
    var p := Pow2(exp2);
    assert Pow2(exp2 + 1) == 2 * p;
    assert integer / 2 * (2 * p) == (integer / 2 * 2) * p;
    MulMono(p, integer / 2 * 2, integer);
    MulMono(p, integer / 2, integer);
  }

  /** What is halved has 61 bits or more. */
  lemma StillLarge(integer: nat, base: nat, digit: nat)
    requires 2 <= base <= 16 && digit < base && integer > (M64 - 1 - digit) / base
    ensures integer >= 2 * UNIT
  {
    var q, rest := (M64 - 1 - digit) / base, (M64 - 1 - digit) % base;
    assert M64 - 1 - digit == base * q + rest;
    if q + 1 < 2 * UNIT { MulMono(q + 1, base, 16); }
  }

  lemma HalvedNear(integer: nat, exp2: nat, value: nat)
    requires integer >= 2 * UNIT && exp2 <= 4096 && Near(integer, exp2, value) && (exp2 == 0 ==> value == integer)
    ensures Near(integer / 2, if exp2 < 4096 then exp2 + 1 else exp2, value)
  {
    hide Pow2;
    var half, p, k := integer / 2, Pow2(exp2), UNIT + exp2;
    PowDoubles(half, exp2);
    if exp2 == 0 {
      PowZero();
      assert (value + 1) * UNIT <= (2 * half + 2) * UNIT <= half * 2 * (UNIT + 1);
    } else if exp2 < 4095 {
      OneBitLost(half, integer, p, k);
    }
  }

  lemma Regrouped(half: nat, integer: nat, p: nat, k: nat)
    ensures integer * p * k == (p * k) * integer
    ensures (p * k) * (2 * half + 1) == 2 * (half * (p * k)) + p * k
    ensures half * (2 * p) * (k + 1) == 2 * (half * (p * k)) + p * (2 * half)
  {
    assert half * (2 * p) == 2 * (half * p);
    assert 2 * (half * p) * (k + 1) == 2 * (half * p) * k + 2 * (half * p);
    assert half * p * k == half * (p * k);
  }

  lemma OneBitLost(half: nat, integer: nat, p: nat, k: nat)
    requires integer <= 2 * half + 1 && k <= 2 * half
    ensures integer * p * k <= half * (2 * p) * (k + 1)
  {
    var q := p * k;
    MulMono(q, integer, 2 * half + 1);
    MulMono(p, k, 2 * half);
    Regrouped(half, integer, p, k);
  }

  /** A digit appended keeps the distance in proportion. */
  lemma AppendedNear(integer: nat, exp2: nat, base: nat, digit: nat, addend: nat, value: nat)
    requires base >= 2 && digit < base && Near(integer, exp2, value)
    ensures Near(integer * base + addend, exp2, value * base + digit)
  {
    hide Pow2;
    if exp2 > 0 {
      MulMono(integer, 1, base);
      if exp2 < 4096 {
        var p, k := Pow2(exp2), UNIT + exp2;
        InProportion(integer, base, addend, value, digit, p, k);
      }
    }
  }

  lemma InProportion(integer: nat, base: nat, addend: nat, value: nat, digit: nat, p: nat, k: nat)
    requires digit < base && (value + 1) * UNIT <= integer * p * k
    ensures (value * base + digit + 1) * UNIT <= (integer * base + addend) * p * k
  {
    var w, m := integer * base + addend, p * k;
    assert value * base + digit + 1 <= (value + 1) * base;
    assert (value * base + digit + 1) * UNIT <= (value + 1) * base * UNIT;
    assert (value + 1) * base * UNIT == base * ((value + 1) * UNIT);
    MulMono(base, (value + 1) * UNIT, integer * p * k);
    assert base * (integer * p * k) == m * (integer * base);
    MulMono(m, integer * base, w);
    assert m * w == w * p * k;
  }

  /** What the scale leaves of a digit. */
  function Addend(digit: nat, exp2: nat): nat { if exp2 < 64 then Quotient(digit, Pow2(exp2)) else 0 }

  function Quotient(v: nat, p: nat): nat
    requires p >= 1
  {
    v / p
  }

  lemma NoSmaller(integer: nat, exp2: nat, base: nat, digit: nat, value: nat)
    requires base >= 2 && Keeps(integer, exp2, value)
    ensures integer < M64 && Awaits(integer, exp2, base, digit, value)
  {
    hide Pow2, Near;
    MulMono(value, 1, base);
  }

  /** Adding a digit: it fits, keeps the bound, and is exact while nothing was dropped. */
  lemma Accumulated(integer: nat, exp2: nat, base: nat, digit: nat, value: nat)
    requires 2 <= base <= 16 && digit < base && integer <= (M64 - 1 - digit) / base
    requires Awaits(integer, exp2, base, digit, value)
    ensures Keeps(integer * base + Addend(digit, exp2), exp2, Shifted(value, base, digit))
  {
    hide Pow2;
    hide Near;
    var p, addend := Pow2(exp2), Addend(digit, exp2);
    AppendedNear(integer, exp2, base, digit, addend, value);
    AddendBelow(digit, p, addend);
    RoomLeft(integer, base, digit);
    ScaledSum(integer, base, digit, addend, value, p);
    if exp2 == 0 { PowZero(); }
  }

  lemma RoomLeft(integer: nat, base: nat, digit: nat)
    requires 2 <= base <= 16 && digit < base && integer <= (M64 - 1 - digit) / base
    ensures integer * base + digit < M64
  {
    var q := (M64 - 1 - digit) / base;
    MulMono(base, integer, q);
    assert M64 - 1 - digit == base * q + (M64 - 1 - digit) % base;
  }

  lemma ScaledSum(integer: nat, base: nat, digit: nat, addend: nat, value: nat, p: nat)
    requires integer * p <= value && addend * p <= digit
    ensures (integer * base + addend) * p <= value * base + digit
  {
    assert (integer * base + addend) * p == (integer * p) * base + addend * p;
    MulMono(base, integer * p, value);
  }

  lemma AddendBelow(digit: nat, p: nat, addend: nat)
    requires p >= 1 && (addend == digit / p || addend == 0)
    ensures addend * p <= digit && addend <= digit
  {
    assert digit == p * (digit / p) + digit % p;
    if addend != 0 { MulMono(addend, 1, p); }
  }

  // ---- Normalisation ---------------------------------------------------------------------------

  function CeilDiv(m: nat, d: nat): nat
    requires d >= 1
  {
    (m + d - 1) / d
  }

  /** The significand r, in [2^52, 2^53), that stands for m scaled by a power of two:
      rounded up when bits are dropped, exact otherwise. */
  ghost predicate Normal(m: nat, exp2: int, r: nat, e: int)
  {
    HIDDEN <= r < OVERFLOW && if e >= exp2 then r == CeilDiv(m, Pow2(e - exp2)) else r == m * Pow2(exp2 - e)
  }

  /** Rounding up loses less than one unit of the last place. */
  lemma RoundedUp(m: nat, exp2: int, r: nat, e: int)
    requires Normal(m, exp2, r, e) && e >= exp2
    ensures 0 <= r * Pow2(e - exp2) - m < Pow2(e - exp2)
  {
    CeilBound(m, Pow2(e - exp2));
  }

  lemma CeilBound(m: nat, d: nat)
    requires d >= 1
    ensures m <= CeilDiv(m, d) * d < m + d
  {
    var q, r := (m + d - 1) / d, (m + d - 1) % d;
    assert m + d - 1 == d * q + r;
    assert q * d == d * q;
  }

  /** Halving upwards twice is dividing by four upwards. */
  lemma CeilTwice(m: nat, d: nat)
    requires d >= 1
    ensures CeilDiv(m, d) / 2 + CeilDiv(m, d) % 2 == CeilDiv(m, 2 * d)
  {
    var c := CeilDiv(m, d);
    CeilBound(m, d);
    var h := c / 2 + c % 2;
    assert c <= 2 * h <= c + 1;
    CeilUnique(m, d, c, h);
  }

  lemma CeilUnique(m: nat, d: nat, c: nat, h: nat)
    requires d >= 1 && m <= c * d < m + d && c <= 2 * h <= c + 1
    ensures CeilDiv(m, 2 * d) == h
  {
    var v := m + 2 * d - 1;
    Doubled(h, d);
    MulMono(d, c, 2 * h);
    if c < 2 * h { OneMoreTimes(c, d); }
    DivUnique(v, 2 * d, h, v - (2 * d) * h);
  }

  lemma Doubled(h: nat, d: nat)
    ensures (2 * d) * h == d * (2 * h)
  {
  }

  lemma OneMoreTimes(c: nat, d: nat)
    ensures d * (c + 1) == c * d + d
  {
  }

  /** The bits of the binary64 nearest above in magnitude: zero and infinity out of range. */
  method FromScaled(mantissa: nat, exp2: int) returns (bits: nat)
    requires mantissa < M64
    ensures mantissa == 0 ==> bits == 0
    ensures mantissa != 0 ==> exists r: nat, e: int :: Normal(mantissa, exp2, r, e) && bits == Encoded(r, e)
  {
    hide Pow2, BitFold, CeilDiv;
    if mantissa == 0 { return 0; }
    var m, e := mantissa, exp2;
    PowZero();
    while m >= OVERFLOW
      invariant e >= exp2 && m == CeilDiv(mantissa, Pow2(e - exp2)) && m >= 1
      invariant m >= HIDDEN || e == exp2
    {
      CeilTwice(mantissa, Pow2(e - exp2));
      PowDoubles(mantissa, e - exp2);
      m := m / 2 + m % 2;
      e := e + 1;
    }
    while m < HIDDEN
      invariant 1 <= m < OVERFLOW
      invariant if e >= exp2 then m == CeilDiv(mantissa, Pow2(e - exp2)) else m == mantissa * Pow2(exp2 - e)
      invariant m < HIDDEN ==> e <= exp2
      decreases OVERFLOW - m
    {
      PowDoubles(mantissa, exp2 - e);
      m := m * 2;
      e := e - 1;
    }
    assert Normal(mantissa, exp2, m, e);
    var exponent := e + 52;
    if exponent <= -1023 { return 0; }
    if exponent >= 1024 { return INFINITY; }
    var fraction := m - HIDDEN;
    OrIsSum(exponent + 1023, fraction);
    bits := BitFold(BitOr, (exponent + 1023) * HIDDEN, fraction);
  }

  lemma PowDoubles(m: nat, k: nat)
    ensures Pow2(k + 1) == 2 * Pow2(k) && m * Pow2(k + 1) == 2 * (m * Pow2(k))
  {
  }

  lemma PowZero()
    ensures Pow2(0) == 1 && forall m: nat :: CeilDiv(m, Pow2(0)) == m
  {
  }

  /** The format's rule: exponent field and fraction, zero below it, infinity above it. */
  function Encoded(r: nat, e: int): nat
    requires HIDDEN <= r < OVERFLOW
  {
    if e + 52 <= -1023 then 0 else if e + 52 >= 1024 then INFINITY else (e + 52 + 1023) * HIDDEN + (r - HIDDEN)
  }

  /** The exponent field and the fraction do not overlap. */
  lemma OrIsSum(high: nat, low: nat)
    requires low < HIDDEN
    ensures BitFold(BitOr, high * HIDDEN, low) == high * HIDDEN + low
  {
    Pow52();
    BitFoldSplit(BitOr, high * HIDDEN, low, 52);
    DivUnique(high * HIDDEN, HIDDEN, high, 0);
    DivUnique(low, HIDDEN, 0, low);
    OrZero(high);
    BitFoldCommutes(BitOr, 0, low);
    OrZero(low);
  }

  lemma Pow52()
    ensures Pow2(52) == HIDDEN
  {
    hide Pow2;
    PowFive();
    PowSum(5, 8, 32, 256);
    PowSum(13, 13, 0x2000, 0x2000);
    PowSum(26, 26, 0x400_0000, 0x400_0000);
  }

  lemma PowFive()
    ensures Pow2(5) == 32 && Pow2(8) == 256
  {
  }

  lemma PowSum(a: nat, b: nat, v: nat, w: nat)
    requires Pow2(a) == v && Pow2(b) == w
    ensures Pow2(a + b) == v * w
  {
    hide Pow2;
    ByteWords.PowAdd(a, b);
  }

  lemma {:induction false} OrZero(v: nat)
    ensures BitFold(BitOr, v, 0) == v
    decreases v
  {
    if v > 0 { OrZero(v / 2); }
  }

  // ---- Reading the bits back -------------------------------------------------------------------------

  /** The exponent and significand bits encode, for a normal number. */
  function Decoded(bits: nat): (int, nat) { (bits / HIDDEN - 1023 - 52, bits % HIDDEN + HIDDEN) }

  predicate IsNormal(bits: nat) { 1 <= bits / HIDDEN <= 2046 }

  /** Decoding gives back the exponent and significand, for every one in range. */
  lemma DecodeEncoded(r: nat, e: int)
    requires HIDDEN <= r < OVERFLOW && -1023 < e + 52 < 1024
    ensures IsNormal(Encoded(r, e)) && Decoded(Encoded(r, e)) == (e, r)
  {
    DivUnique(Encoded(r, e), HIDDEN, e + 52 + 1023, r - HIDDEN);
  }

  const SIGN: nat := 0x8000_0000_0000_0000

  /** The digits after an optional sign. */
  function AfterSign(s: string): string
  {
    if s != [] && s[0] in "+-" then s[1..] else s
  }

  /** What a significand r at exponent e is to a value that did not fit 64 bits: above it by
      less than one unit of the last place, and, unless out of range, below it by less than
      e parts in 2 to the 59. */
  ghost predicate Close(value: nat, r: nat, e: int)
  {
    e > 0 && r * Pow2(e) < value + Pow2(e) && (e < 972 ==> value * UNIT < r * Pow2(e) * (UNIT + e))
  }

  /** The normalised significand is close. */
  lemma NormalClose(integer: nat, exp2: nat, value: nat, r: nat, e: int)
    requires 0 < exp2 <= 4096 && integer * Pow2(exp2) <= value && Near(integer, exp2, value)
    requires Normal(integer, exp2, r, e)
    ensures Close(value, r, e)
  {
    hide Pow2, CeilDiv;
    if e < exp2 {
      var p := Pow2(exp2 - e);
      MulMono(integer, 1, p);
      assert false;
    }
    var d, p := Pow2(e - exp2), Pow2(exp2);
    CeilBound(integer, d);
    ByteWords.PowAdd(e - exp2, exp2);
    ScaledBounds(integer, r, d, p);
    if e < 972 { BelowScaled(value, integer * p, r * Pow2(e), exp2, e); }
  }

  lemma ScaledBounds(integer: nat, r: nat, d: nat, p: nat)
    requires p >= 1 && integer <= r * d < integer + d
    ensures integer * p <= r * (d * p) < integer * p + d * p
  {
    MulMono(p, integer, r * d);
    MulMono(p, r * d + 1, integer + d);
    assert r * (d * p) == p * (r * d) && p * (integer + d) == integer * p + d * p;
  }

  lemma BelowScaled(value: nat, low: nat, high: nat, exp2: nat, e: nat)
    requires (value + 1) * UNIT <= low * (UNIT + exp2) && low <= high && exp2 <= e
    ensures value * UNIT < high * (UNIT + e)
  {
    MulMono(UNIT + exp2, low, high);
    MulMono(high, UNIT + exp2, UNIT + e);
    assert (UNIT + exp2) * low == low * (UNIT + exp2) && (UNIT + exp2) * high == high * (UNIT + exp2);
  }

  /** A whole number: an optional sign, digits in base 10 unless another is given, then the
      bits. Values of up to 53 bits come out exactly, all others below 2 to the 64 less than
      one unit of the last place above, and greater ones close; a minus sets the sign bit
      alone. */
  method ParseWhole(s: string, base0: nat) returns (bits: nat, end: nat)
    requires base0 == 0 || 2 <= base0 <= 16
    ensures var base := if base0 == 0 then 10 else base0;
      var v := DigitsValue(base, 0, AfterSign(s));
      var magnitude := if s != [] && s[0] == '-' then bits - SIGN else bits;
      && end <= |s| && (end < |s| ==> DigitValue(s[end]) >= base)
      && (v == 0 ==> magnitude == 0)
      && (0 < v < M64 ==> 0 <= magnitude && IsNormal(magnitude) && var (e, r) := Decoded(magnitude); Normal(v, 0, r, e))
      && (v >= M64 ==> exists r: nat, e: int :: HIDDEN <= r < OVERFLOW && Close(v, r, e) && magnitude == Encoded(r, e))
  {
    hide Pow2, CeilDiv, DigitsValue, DigitValue, Near, Close;
    var base := if base0 == 0 then 10 else base0;
    var negative, start := false, 0;
    if |s| > 0 && s[0] == '-' {
      negative, start := true, 1;
    } else if |s| > 0 && s[0] == '+' {
      start := 1;
    }
    assert s[start..] == AfterSign(s);
    var integer, exp2;
    integer, exp2, end := ReadDigits(s, start, base);
    bits := FromScaled(integer, exp2);
    if exp2 == 0 && integer > 0 {
      ghost var r: nat, e: int :| Normal(integer, exp2, r, e) && bits == Encoded(r, e);
      SmallExponent(integer, r, e);
      DecodeEncoded(r, e);
    }
    if exp2 > 0 {
      AboveZero(integer, exp2, DigitsValue(base, 0, s[start..]));
      ghost var r: nat, e: int :| Normal(integer, exp2, r, e) && bits == Encoded(r, e);
      NormalClose(integer, exp2, DigitsValue(base, 0, s[start..]), r, e);
    }
    if negative { bits := bits + SIGN; }
  }

  lemma AboveZero(integer: nat, exp2: nat, value: nat)
    requires exp2 > 0 && Near(integer, exp2, value)
    ensures integer > 0
  {
  }

  /** A number below 2 to the 64 has an exponent well inside the range. */
  lemma SmallExponent(m: nat, r: nat, e: int)
    requires 0 < m < M64 && Normal(m, 0, r, e)
    ensures -53 <= e <= 12
  {
    Pow52();
    PowThirteen();
    if e >= 0 {
      var p := Pow2(e);
      CeilBound(m, p);
      MulMono(p, HIDDEN, r);
      assert p * r == r * p;
      if e > 12 { PowGrows(13, e); }
    } else {
      var p := Pow2(-e);
      MulMono(p, 1, m);
      assert p * m == m * p;
      if e < -53 { PowGrows(54, -e); }
    }
  }

  lemma PowThirteen()
    ensures Pow2(13) == 0x2000 && Pow2(54) == 2 * OVERFLOW
  {
    hide Pow2;
    PowFive();
    PowSum(5, 8, 32, 256);
    Pow52();
    PowDoubles(1, 52);
    PowDoubles(1, 53);
  }

  lemma {:induction false} PowGrows(a: nat, b: nat)
    requires a <= b
    ensures Pow2(a) <= Pow2(b)
    decreases b
  {
    if a < b { PowGrows(a, b - 1); }
  }
}
