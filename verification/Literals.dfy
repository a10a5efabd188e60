/** Integer literals, from their spelling to a typed constant. */
module Literals {
  import opened Options
  import opened Words
  import opened CTypes
  import opened Integers
  import opened ByteWords
  import opened Constants
  import Source

  function IsDecimal(c: char): bool { '0' <= c <= '9' }

  /** The value of a digit; 99 is no digit in any base. */
  function DigitValue(c: char): (d: nat)
    ensures d < 16 || d == 99
  {
    if IsDecimal(c) then c as int - '0' as int
    else if 'a' <= c <= 'f' then 10 + c as int - 'a' as int
    else if 'A' <= c <= 'F' then 10 + c as int - 'A' as int
    else 99
  }

  predicate IsSuffixLetter(c: char) { c == 'u' || c == 'U' || c == 'l' || c == 'L' }

  /** The spelling without its suffix letters. */
  function StripSuffix(text: string): (r: string)
    ensures |r| <= |text| && r == text[..|r|] && (r != [] ==> !IsSuffixLetter(r[|r| - 1]))
  {
    if text != [] && IsSuffixLetter(text[|text| - 1]) then StripSuffix(text[..|text| - 1]) else text
  }

  predicate HasUnsigned(text: string) { exists c :: c in text && (c == 'u' || c == 'U') }

  function CountLongs(text: string): nat
  {
    if text == [] then 0 else (if text[0] == 'l' || text[0] == 'L' then 1 else 0) + CountLongs(text[1..])
  }

  /** Base and digits: 0x for sixteen, another leading 0 for eight. */
  function Split(clean: string): (r: (nat, string))
    ensures r.0 == 8 || r.0 == 10 || r.0 == 16
  {
    if |clean| >= 2 && clean[0] == '0' && (clean[1] == 'x' || clean[1] == 'X') then (16, clean[2..])
    else if clean != [] && clean[0] == '0' then (8, clean[1..])
    else (10, clean)
  }

  /** Read digits up to the first that is none, in eight bytes. */
  function ReadBytes(base: nat, bytes: seq<Byte>, text: string): (r: seq<Byte>)
    requires |bytes| == 8
    ensures |r| == 8
    decreases text
  {
    if text == [] || DigitValue(text[0]) >= base then bytes
    else ReadBytes(base, AddSmall(DigitValue(text[0]), MulSmall(base, 0, bytes)), text[1..])
  }

  /** Whether the digits fit in eight bytes, watching a ninth. */
  predicate Fits(base: nat, bytes: seq<Byte>, text: string)
    requires |bytes| == 9
    decreases text
  {
    text == [] || DigitValue(text[0]) >= base ||
    var next := AddSmall(DigitValue(text[0]), MulSmall(base, 0, bytes));
    next[8] == 0 && Fits(base, next, text[1..])
  }

  /** The exact value of the digits up to the first that is none, after v. */
  function DigitsValue(base: nat, v: nat, text: string): nat
    decreases text
  {
    if text == [] || DigitValue(text[0]) >= base then v
    else DigitsValue(base, v * base + DigitValue(text[0]), text[1..])
  }

  // ---- The type of a literal --------------------------------------------------------------

  datatype Candidate = Candidate(rank: nat, size: nat, unsigned: bool)

  function CandidatesOfRank(unsigned: bool, nonDecimal: bool, rank: nat, size: nat): (r: seq<Candidate>)
    ensures forall c :: c in r ==> c.size == size
  {
    if unsigned then [Candidate(rank, size, true)]
    else if nonDecimal then [Candidate(rank, size, false), Candidate(rank, size, true)]
    else [Candidate(rank, size, false)]
  }

  /** The bytes of a long on the target. */
  type LongSize = n: nat | n == 4 || n == 8 witness 4

  /** The candidate types of a literal; the preprocessor has one size. */
  function CandidateList(longSize: LongSize, preprocessing: bool, unsigned: bool, nonDecimal: bool,
      longs: nat): (r: seq<Candidate>)
    ensures forall c :: c in r ==> c.size == 4 || c.size == 8
  {
    if preprocessing || longs >= 2 then CandidatesOfRank(unsigned, nonDecimal, 3, 8)
    else if longs == 1 then
      CandidatesOfRank(unsigned, nonDecimal, 2, longSize) + CandidatesOfRank(unsigned, nonDecimal, 3, 8)
    else
      CandidatesOfRank(unsigned, nonDecimal, 1, 4) + CandidatesOfRank(unsigned, nonDecimal, 2, longSize) +
      CandidatesOfRank(unsigned, nonDecimal, 3, 8)
  }

  /** The greatest value of a type, as eight bytes. */
  function Limit(c: Candidate): (r: seq<Byte>)
    requires c.size == 4 || c.size == 8
    ensures |r| == 8
  {
    Fill(true, c.size - 1) + [if c.unsigned then 255 else 127] + Fill(false, 8 - c.size)
  }

  function Choose(bytes: seq<Byte>, remaining: seq<Candidate>): (nat, Constant)
    requires |bytes| == 8 && forall c :: c in remaining ==> c.size == 4 || c.size == 8
  {
    if remaining == [] then (3, Constant(8, true, bytes)) else
    var c := remaining[0];
    if CompareBytes(bytes, Limit(c)) <= 0 then (c.rank, Constant(c.size, c.unsigned, bytes[..c.size]))
    else Choose(bytes, remaining[1..])
  }

  function Ranked(longSize: LongSize, preprocessing: bool, text: string): (nat, Constant)
  {
    var clean := StripSuffix(text);
    var (base, digits) := Split(clean);
    var bytes := ReadBytes(base, Zeros(8), digits);
    var nonDecimal := |text| >= 2 && text[0] == '0';
    Choose(bytes, CandidateList(longSize, preprocessing, HasUnsigned(text), nonDecimal, CountLongs(text)))
  }

  /** None is the diagnostic for a literal beyond 64 bits. */
  function RankedChecked(longSize: LongSize, preprocessing: bool, text: string): Option<(nat, Constant)>
  {
    var (base, digits) := Split(StripSuffix(text));
    if Fits(base, Zeros(9), digits) then Some(Ranked(longSize, preprocessing, text)) else None
  }

  /** The value spelt, in mathematics. */
  function SpeltValue(text: string): nat
  {
    var (base, digits) := Split(StripSuffix(text));
    DigitsValue(base, 0, digits)
  }

  // ---- The value is exact --------------------------------------------------------------------

  lemma {:induction false} DigitsGrow(base: nat, v: nat, text: string)
    requires base >= 1
    ensures DigitsValue(base, v, text) >= v
    decreases |text|
  {
    if text != [] && DigitValue(text[0]) < base {
      MulMono(v, 1, base);
      DigitsGrow(base, v * base + DigitValue(text[0]), text[1..]);
    }
  }

  lemma {:induction false} ReadExact(base: nat, bytes: seq<Byte>, text: string)
    requires |bytes| == 8 && (base == 8 || base == 10 || base == 16) && DigitsValue(base, Unsigned(bytes), text) < M64
    ensures Unsigned(ReadBytes(base, bytes, text)) == DigitsValue(base, Unsigned(bytes), text)
    decreases |text|
  {
    hide Unsigned, MulSmall, AddSmall, Residue, DigitValue;
    if text != [] && DigitValue(text[0]) < base {
      var v, d := Unsigned(bytes), DigitValue(text[0]);
      DigitsGrow(base, v * base + d, text[1..]);
      AppendDigit(base, bytes, d);
      ReadExact(base, AddSmall(d, MulSmall(base, 0, bytes)), text[1..]);
    }
  }

  /** One more digit, where the bytes can hold it. */
  lemma AppendDigit(base: nat, bytes: seq<Byte>, d: nat)
    requires (base == 8 || base == 10 || base == 16) && Unsigned(bytes) * base + d < Pow256(|bytes|)
    ensures Unsigned(AddSmall(d, MulSmall(base, 0, bytes))) == Unsigned(bytes) * base + d
  {
    hide Unsigned, MulSmall, AddSmall, Residue, Pow256;
    var v, m := Unsigned(bytes), Pow256(|bytes|);
    MulSmallExact(base, 0, bytes);
    AddSmallExact(d, MulSmall(base, 0, bytes));
    ModSmall(v * base, m);
    ModSmall(v * base + d, m);
    assert base * v + 0 == v * base;
  }

  /** The ninth byte stays zero exactly while the value stays below 2 to the 64. */
  lemma {:induction false} FitsExact(base: nat, bytes: seq<Byte>, text: string)
    requires |bytes| == 9 && (base == 8 || base == 10 || base == 16) && Unsigned(bytes) < M64
    ensures Fits(base, bytes, text) <==> DigitsValue(base, Unsigned(bytes), text) < M64
    decreases |text|
  {
    hide Unsigned, MulSmall, AddSmall, Residue, DigitValue;
    if text != [] && DigitValue(text[0]) < base {
      var v, d := Unsigned(bytes), DigitValue(text[0]);
      var next := AddSmall(d, MulSmall(base, 0, bytes));
      NinePower();
      AppendDigit(base, bytes, d);
      NinthByte(next);
      DigitsGrow(base, v * base + d, text[1..]);
      if next[8] == 0 { FitsExact(base, next, text[1..]); }
    }
  }

  lemma NinePower()
    ensures Pow256(9) == 256 * M64 && Pow256(8) == M64
  {
  }

  lemma NinthByte(bytes: seq<Byte>)
    requires |bytes| == 9
    ensures bytes[8] == 0 <==> Unsigned(bytes) < M64
  {
    hide Unsigned, Pow256;
    var low := bytes[..8];
    assert bytes == low + [bytes[8]];
    UnsignedAppend(low, [bytes[8]]);
    UnsignedBound(low);
    NinePower();
    OneByte(bytes[8]);
  }

  lemma OneByte(b: Byte)
    ensures Unsigned([b]) == b
  {
    assert [b][1..] == [];
  }

  // ---- The type is the first that holds it ---------------------------------------------------

  function TypeOfRank(rank: nat, unsigned: bool): CType
  {
    if rank == 1 then (if unsigned then UInt else Int)
    else if rank == 2 then (if unsigned then ULong else Long)
    else (if unsigned then ULongLong else LongLong)
  }

  predicate Sized(c: Candidate) {
    (c.rank == 1 && c.size == 4) || (c.rank == 2 && (c.size == 4 || c.size == 8)) || (c.rank == 3 && c.size == 8)
  }

  /** The values a candidate type has. */
  predicate Fitting(c: Candidate, v: nat)
  {
    v < if c.size == 4 then (if c.unsigned then 0x1_0000_0000 else 0x8000_0000)
        else (if c.unsigned then M64 else M64 / 2)
  }

  /** The first candidate that has the value; unsigned long long when none does. */
  function FirstFitting(candidates: seq<Candidate>, v: nat): Candidate
  {
    if candidates == [] then Candidate(3, 8, true)
    else if Fitting(candidates[0], v) then candidates[0]
    else FirstFitting(candidates[1..], v)
  }

  function TypesOf(candidates: seq<Candidate>): seq<CType>
  {
    if candidates == [] then [] else [TypeOfRank(candidates[0].rank, candidates[0].unsigned)] + TypesOf(candidates[1..])
  }

  lemma LimitValue(c: Candidate, v: nat)
    requires Sized(c)
    ensures v <= Unsigned(Limit(c)) <==> Fitting(c, v)
  {
    hide Unsigned, Pow256, Fill;
    var n := c.size - 1;
    var top: Byte := if c.unsigned then 255 else 127;
    SignFillValue(true, n);
    UnsignedAppend(Fill(true, n), [top]);
    OneByte(top);
    SignFillValue(false, 8 - c.size);
    UnsignedAppend(Fill(true, n) + [top], Fill(false, 8 - c.size));
    LimitPowers();
  }

  lemma LimitPowers()
    ensures Pow256(3) == 0x100_0000 && Pow256(7) == 0x100_0000_0000_0000
  {
  }

  lemma {:induction false} ChooseFirst(bytes: seq<Byte>, remaining: seq<Candidate>)
    requires |bytes| == 8 && (forall c :: c in remaining ==> Sized(c)) && forall c :: c in remaining ==>
        c.size == 4 || c.size == 8
    ensures var (rank, c) := Choose(bytes, remaining);
      Typed(c) && ValueOf(c) == Unsigned(bytes) &&
          Candidate(rank, c.size, c.unsigned) == FirstFitting(remaining, Unsigned(bytes))
    decreases |remaining|
  {
    hide Unsigned, CompareBytes, Limit, Fitting;
    if remaining != [] {
      var c := remaining[0];
      LimitValue(c, Unsigned(bytes));
      CompareExact(bytes, Limit(c));
      if Unsigned(bytes) <= Unsigned(Limit(c)) {
        TruncatedValue(c, bytes);
      } else {
        ChooseFirst(bytes, remaining[1..]);
      }
    }
  }

  /** Dropping high bytes of a value in range keeps it. */
  lemma TruncatedValue(c: Candidate, bytes: seq<Byte>)
    requires Sized(c) && |bytes| == 8 && Fitting(c, Unsigned(bytes))
    ensures ValueOf(Constant(c.size, c.unsigned, bytes[..c.size])) == Unsigned(bytes)
  {
    hide Unsigned, Pow256, BytesOf;
    var v := Unsigned(bytes);
    var low := Constant(c.size, c.unsigned, bytes[..c.size]);
    BytesOfUnsigned(bytes);
    BytesSplit(v, c.size, 8 - c.size);
    TypedValue(low);
    ConvertedBytes(TypeOf(low), low.bytes, v);
    FittingRange(c, v);
  }

  lemma FittingRange(c: Candidate, v: nat)
    requires Sized(c) && Fitting(c, v)
    ensures forall bytes: seq<Byte> :: InRange(TypeOf(Constant(c.size, c.unsigned, bytes)), v)
  {
  }

  /** A literal is accepted exactly when its value is below 2 to the 64; it then has that
      value, and the first candidate type that holds it, unsigned long long if none does,
      whatever the size of a long. */
  lemma LiteralExact(longSize: LongSize, preprocessing: bool, text: string)
    ensures RankedChecked(longSize, preprocessing, text).Some? <==> SpeltValue(text) < M64
    ensures SpeltValue(text) < M64 ==>
      var (rank, c) := RankedChecked(longSize, preprocessing, text).value;
      var nonDecimal := |text| >= 2 && text[0] == '0';
      var candidates := CandidateList(longSize, preprocessing, HasUnsigned(text), nonDecimal, CountLongs(text));
      && Typed(c) && ValueOf(c) == SpeltValue(text)
      && Candidate(rank, c.size, c.unsigned) == FirstFitting(candidates, SpeltValue(text))
  {
    hide Unsigned, Fits, ReadBytes, DigitsValue, Choose, StripSuffix, Split, HasUnsigned, CountLongs, FirstFitting,
        RankedChecked, SpeltValue, CandidateList, ValueOf, Zeros;
    var (base, digits) := Split(StripSuffix(text));
    var nonDecimal := |text| >= 2 && text[0] == '0';
    var candidates := CandidateList(longSize, preprocessing, HasUnsigned(text), nonDecimal, CountLongs(text));
    CheckedIs(longSize, preprocessing, text);
    ZerosValue(8);
    ZerosValue(9);
    FitsExact(base, Zeros(9), digits);
    if DigitsValue(base, 0, digits) < M64 {
      ReadExact(base, Zeros(8), digits);
      CandidatesSized(longSize, preprocessing, HasUnsigned(text), nonDecimal, CountLongs(text));
      ChooseFirst(ReadBytes(base, Zeros(8), digits), candidates);
    }
  }

  lemma CandidatesSized(longSize: LongSize, preprocessing: bool, unsigned: bool, nonDecimal: bool, longs: nat)
    ensures forall c :: c in CandidateList(longSize, preprocessing, unsigned, nonDecimal, longs) ==>
        Sized(c) && (c.size == 4 || c.size == 8)
  {
  }

  lemma CheckedIs(longSize: LongSize, preprocessing: bool, text: string)
    ensures var (base, digits) := Split(StripSuffix(text));
      var nonDecimal := |text| >= 2 && text[0] == '0';
      var candidates := CandidateList(longSize, preprocessing, HasUnsigned(text), nonDecimal, CountLongs(text));
      && SpeltValue(text) == DigitsValue(base, 0, digits)
      && (forall c :: c in candidates ==> c.size == 4 || c.size == 8)
      && RankedChecked(longSize, preprocessing, text) ==
           if Fits(base, Zeros(9), digits) then Some(Choose(ReadBytes(base, Zeros(8), digits), candidates)) else None
  {
    hide Fits, ReadBytes, DigitsValue, Choose, StripSuffix, Split, HasUnsigned, CountLongs, Zeros;
    CandidatesSized(longSize, preprocessing, HasUnsigned(text), |text| >= 2 && text[0] == '0', CountLongs(text));
  }

  /** Outside the preprocessor, with a long of eight bytes, the first fitting candidate is
      the type the source language gives the literal. */
  lemma LiteralTypeAgrees(unsigned: bool, decimal: bool, longs: nat, v: nat)
    ensures var first := FirstFitting(CandidateList(8, false, unsigned, !decimal, longs), v);
      TypeOfRank(first.rank, first.unsigned) == LiteralType(v, Suffix(unsigned, longs, decimal))
  {
    hide CandidateList, FirstFitting, FirstFit, Candidates;
    var candidates := CandidateList(8, false, unsigned, !decimal, longs);
    CandidatesAgree(unsigned, decimal, longs);
    WideCandidates(unsigned, !decimal, longs);
    FirstAgrees(candidates, v);
  }

  lemma WideCandidates(unsigned: bool, nonDecimal: bool, longs: nat)
    ensures forall c :: c in CandidateList(8, false, unsigned, nonDecimal, longs) ==>
        Sized(c) && (c.rank == 2 ==> c.size == 8)
  {
  }

  lemma {:induction false} FirstAgrees(candidates: seq<Candidate>, v: nat)
    requires forall c :: c in candidates ==> Sized(c) && (c.rank == 2 ==> c.size == 8)
    ensures var first := FirstFitting(candidates, v);
        TypeOfRank(first.rank, first.unsigned) == FirstFit(TypesOf(candidates), v)
    decreases |candidates|
  {
    if candidates != [] {
      assert TypesOf(candidates)[1..] == TypesOf(candidates[1..]);
      assert InRange(TypeOfRank(candidates[0].rank, candidates[0].unsigned), v) == Fitting(candidates[0], v);
      FirstAgrees(candidates[1..], v);
    }
  }

  lemma CandidatesAgree(unsigned: bool, decimal: bool, longs: nat)
    ensures TypesOf(CandidateList(8, false, unsigned, !decimal, longs)) == Candidates(Suffix(unsigned, longs, decimal))
  {
    TypesAppend(CandidatesOfRank(unsigned, !decimal, 1, 4) + CandidatesOfRank(unsigned, !decimal, 2, 8),
        CandidatesOfRank(unsigned, !decimal, 3, 8));
    TypesAppend(CandidatesOfRank(unsigned, !decimal, 1, 4), CandidatesOfRank(unsigned, !decimal, 2, 8));
    TypesAppend(CandidatesOfRank(unsigned, !decimal, 2, 8), CandidatesOfRank(unsigned, !decimal, 3, 8));
    RankTypes(unsigned, decimal, 1, 4);
    RankTypes(unsigned, decimal, 2, 8);
    RankTypes(unsigned, decimal, 3, 8);
  }

  lemma {:induction false} TypesAppend(a: seq<Candidate>, b: seq<Candidate>)
    ensures TypesOf(a + b) == TypesOf(a) + TypesOf(b)
  {
    if a == [] {
      assert a + b == b;
    } else {
      assert (a + b)[1..] == a[1..] + b;
      TypesAppend(a[1..], b);
    }
  }

  lemma RankTypes(unsigned: bool, decimal: bool, rank: nat, size: nat)
    ensures TypesOf(CandidatesOfRank(unsigned, !decimal, rank, size)) ==
      OfRank(Suffix(unsigned, 0, decimal), TypeOfRank(rank, false), TypeOfRank(rank, true))
  {
    var list := CandidatesOfRank(unsigned, !decimal, rank, size);
    if |list| == 1 {
      assert list[1..] == [];
    } else {
      assert list[1..] == [list[1]] && [list[1]][1..] == [];
      assert TypesOf([list[1]]) == [TypeOfRank(rank, true)] + TypesOf([]);
    }
  }
}
