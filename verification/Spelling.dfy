/** What an integer literal says, read off its spelling as section 6.4.4.1 of
    ISO/IEC 9899:2011 has it: digits by their place, a base by its prefix, and the first type
    of the table that has the value. Nothing here is defined by the functions that read it. */
module Spelling {
  import opened Options
  import opened CTypes
  import opened Integers
  import opened Constants
  import opened Literals

  const SMALL := "0123456789abcdef"
  const CAPITAL := "0123456789ABCDEF"

  /** A character is a digit worth d. */
  predicate Worth(c: char, d: nat) { d < 16 && (c == SMALL[d] || c == CAPITAL[d]) }

  predicate Digits(base: nat, text: string, worths: seq<nat>)
  {
    |text| == |worths| && forall i :: 0 <= i < |text| ==> Worth(text[i], worths[i]) && worths[i] < base
  }

  function Power(base: nat, n: nat): nat { if n == 0 then 1 else base * Power(base, n - 1) }

  /** Every digit times its place. */
  function PlaceValue(base: nat, worths: seq<nat>): nat
  {
    if worths == [] then 0 else worths[0] * Power(base, |worths| - 1) + PlaceValue(base, worths[1..])
  }

  /** The prefix of a base. A decimal literal has none and starts with another digit. */
  predicate Prefixed(base: nat, prefix: string, digits: string)
  {
    || (base == 16 && (prefix == "0x" || prefix == "0X"))
    || (base == 8 && prefix == "0")
    || (base == 10 && prefix == "" && digits != [] && digits[0] != '0')
  }

  predicate Letters(suffix: string) { forall c :: c in suffix ==> c in "uUlL" }

  /** A literal of the given base, digits and suffix. */
  ghost predicate Spells(text: string, base: nat, worths: seq<nat>, suffix: string)
  {
    exists prefix, digits ::
      && text == prefix + digits + suffix
      && Digits(base, digits, worths) && Prefixed(base, prefix, digits) && Letters(suffix)
  }

  // ---- The type --------------------------------------------------------------------------------

  /** The sizes of int, long and long long. */
  function RankSize(longSize: LongSize, rank: nat): nat { if rank == 1 then 4 else if rank == 2 then longSize else 8 }

  /** The rows of the table: from the rank the suffix asks for up; unsigned types for a
      suffix u, and beside the signed ones for a literal that is not decimal. Under #if every
      literal has the greatest rank. */
  predicate Offered(preprocessing: bool, decimal: bool, suffix: string, c: Candidate)
  {
    var longs := multiset(suffix)['l'] + multiset(suffix)['L'];
    && 1 <= c.rank <= 3 && (preprocessing ==> c.rank == 3)
    && (longs >= 1 ==> c.rank >= 2) && (longs >= 2 ==> c.rank == 3)
    && (if 'u' in suffix || 'U' in suffix then c.unsigned else c.unsigned ==> !decimal)
  }

  predicate Holds(c: Candidate, v: nat)
  {
    v <= if c.size == 4 then (if c.unsigned then 0xFFFF_FFFF else 0x7FFF_FFFF)
         else (if c.unsigned then 0xFFFF_FFFF_FFFF_FFFF else 0x7FFF_FFFF_FFFF_FFFF)
  }

  predicate Before(c: Candidate, d: Candidate)
  {
    c.rank < d.rank || (c.rank == d.rank && !c.unsigned && d.unsigned)
  }

  predicate Usable(longSize: LongSize, preprocessing: bool, decimal: bool, suffix: string, v: nat, c: Candidate)
  {
    Offered(preprocessing, decimal, suffix, c) && c.size == RankSize(longSize, c.rank) && Holds(c, v)
  }

  // ---- Digits and suffix ------------------------------------------------------------------------

  lemma WorthIs(c: char, d: nat)
    requires Worth(c, d)
    ensures DigitValue(c) == d && c !in "uUlLxX"
  {
    assert d == 0 || d == 1 || d == 2 || d == 3 || d == 4 || d == 5 || d == 6 || d == 7 || d == 8 || d == 9 ||
      d == 10 || d == 11 || d == 12 || d == 13 || d == 14 || d == 15;
  }

  /** Every digit is worth what it is read as; no other character is a digit. */
  lemma DigitWorth(c: char)
    ensures DigitValue(c) < 16 ==> Worth(c, DigitValue(c))
  {
    var d := DigitValue(c);
    if '0' <= c <= '9' {
      assert SMALL[d] as int == 48 + d;
    } else if 'a' <= c <= 'f' {
      assert SMALL[d] as int == 87 + d;
    } else if 'A' <= c <= 'F' {
      assert CAPITAL[d] as int == 55 + d;
    }
  }

  lemma {:induction false} Stripped(body: string, suffix: string)
    requires Letters(suffix) && (body == [] || body[|body| - 1] !in "uUlL")
    ensures StripSuffix(body + suffix) == body
    decreases |suffix|
  {
    if suffix == [] {
      assert body + suffix == body;
    } else {
      var last := |suffix| - 1;
      assert suffix[last] in suffix;
      assert (body + suffix)[..|body| + last] == body + suffix[..last];
      Stripped(body, suffix[..last]);
    }
  }

  lemma {:induction false} LongsCounted(text: string)
    ensures CountLongs(text) == multiset(text)['l'] + multiset(text)['L']
  {
    if text != [] {
      assert text == [text[0]] + text[1..];
      LongsCounted(text[1..]);
    }
  }

  lemma {:induction false} DigitsRead(base: nat, v: nat, text: string, worths: seq<nat>)
    requires base <= 16 && Digits(base, text, worths)
    ensures DigitsValue(base, v, text) == v * Power(base, |worths|) + PlaceValue(base, worths)
    decreases |text|
  {
    if text == [] {
    } else {
      var d, n := worths[0], |worths| - 1;
      WorthIs(text[0], d);
      DigitsRead(base, v * base + d, text[1..], worths[1..]);
      PlaceStep(v, base, d, Power(base, n));
    }
  }

  lemma PlaceStep(v: nat, base: nat, d: nat, p: nat)
    ensures (v * base + d) * p == v * (base * p) + d * p
  {
  }

  // ---- The literal -------------------------------------------------------------------------------

  /** The base, the digits and the suffix are those of the spelling. */
  lemma SpeltAs(text: string, base: nat, worths: seq<nat>, suffix: string)
    requires Spells(text, base, worths, suffix)
    ensures SpeltValue(text) == PlaceValue(base, worths)
    ensures HasUnsigned(text) <==> 'u' in suffix || 'U' in suffix
    ensures CountLongs(text) == multiset(suffix)['l'] + multiset(suffix)['L']
    ensures |text| >= 2 && text[0] == '0' ==> base != 10
    ensures base != 10 ==> text != "" && text[0] == '0'
    ensures base != 10 && |text| < 2 ==> PlaceValue(base, worths) == 0 && suffix == ""
  {
    hide *;
    var prefix, digits := Parts(text, base, worths, suffix);
    var body := prefix + digits;
    assert text == body + suffix;
    Plain(base, prefix, digits, worths);
    ValueSpelt(body, base, digits, worths, suffix) by { DigitsOf(base, prefix, digits, worths); }
    SuffixSpelt(body, suffix);
    FirstDigit(prefix, digits, suffix, base, worths);
    NoPlaces(base, worths);
  }

  lemma Parts(text: string, base: nat, worths: seq<nat>, suffix: string) returns (prefix: string, digits: string)
    requires Spells(text, base, worths, suffix)
    ensures text == prefix + digits + suffix
    ensures Digits(base, digits, worths) && Prefixed(base, prefix, digits) && Letters(suffix)
  {
    prefix, digits :|
      && text == prefix + digits + suffix
      && Digits(base, digits, worths) && Prefixed(base, prefix, digits) && Letters(suffix);
  }

  lemma ValueSpelt(body: string, base: nat, digits: string, worths: seq<nat>, suffix: string)
    requires Letters(suffix) && (forall c :: c in body ==> c !in "uUlL")
    requires Split(body) == (base, digits) && Digits(base, digits, worths)
    ensures SpeltValue(body + suffix) == PlaceValue(base, worths)
  {
    hide DigitsValue, DigitValue, PlaceValue, StripSuffix, Split, Digits, Letters;
    if body != [] { assert body[|body| - 1] in body; }
    Stripped(body, suffix);
    DigitsRead(base, 0, digits, worths);
  }

  lemma SuffixSpelt(body: string, suffix: string)
    requires forall c :: c in body ==> c !in "uUlL"
    ensures HasUnsigned(body + suffix) <==> 'u' in suffix || 'U' in suffix
    ensures CountLongs(body + suffix) == multiset(suffix)['l'] + multiset(suffix)['L']
  {
    hide CountLongs, HasUnsigned;
    LongsCounted(body + suffix);
    UnsignedIs(body + suffix);
    assert multiset(body + suffix) == multiset(body) + multiset(suffix);
    assert 'l' !in body && 'L' !in body && 'u' !in body && 'U' !in body;
  }

  lemma UnsignedIs(text: string)
    ensures HasUnsigned(text) <==> 'u' in text || 'U' in text
  {
    assert 'u' in text ==> HasUnsigned(text);
    assert 'U' in text ==> HasUnsigned(text);
  }

  lemma FirstDigit(prefix: string, digits: string, suffix: string, base: nat, worths: seq<nat>)
    requires Digits(base, digits, worths) && Prefixed(base, prefix, digits)
    ensures var text := prefix + digits + suffix;
      && (|text| >= 2 && text[0] == '0' ==> base != 10)
      && (base != 10 ==> text != "" && text[0] == '0')
      && (base != 10 && |text| < 2 ==> worths == [] && suffix == "")
  {
  }

  lemma NoPlaces(base: nat, worths: seq<nat>)
    ensures worths == [] ==> PlaceValue(base, worths) == 0
  {
  }

  /** Neither a prefix nor a digit is a suffix letter. */
  lemma Plain(base: nat, prefix: string, digits: string, worths: seq<nat>)
    requires Digits(base, digits, worths) && Prefixed(base, prefix, digits)
    ensures forall c :: c in prefix + digits ==> c !in "uUlL"
  {
    forall c | c in digits ensures c !in "uUlL" {
      var i :| 0 <= i < |digits| && digits[i] == c;
      WorthIs(c, worths[i]);
    }
  }

  lemma DigitsOf(base: nat, prefix: string, digits: string, worths: seq<nat>)
    requires Digits(base, digits, worths) && Prefixed(base, prefix, digits)
    ensures Split(prefix + digits) == (base, digits)
  {
    hide DigitValue;
    if digits != [] { WorthIs(digits[0], worths[0]); }
    assert (prefix + digits)[|prefix|..] == digits;
    if base == 16 { assert (prefix + digits)[..2] == prefix; }
  }

  /** The first candidate that has the value is the first usable one of the table, or
      unsigned long long when the table has none. */
  lemma FirstUsable(longSize: LongSize, preprocessing: bool, decimal: bool, suffix: string, v: nat)
    ensures var unsigned := 'u' in suffix || 'U' in suffix;
      var longs := multiset(suffix)['l'] + multiset(suffix)['L'];
      var c := FirstFitting(CandidateList(longSize, preprocessing, unsigned, !decimal, longs), v);
      IsFirst(longSize, preprocessing, decimal, suffix, v, c)
  {
    hide CandidateList, FirstFitting, Ordered, Usable, Fitting, Offered;
    var unsigned := 'u' in suffix || 'U' in suffix;
    var longs := multiset(suffix)['l'] + multiset(suffix)['L'];
    var list := CandidateList(longSize, preprocessing, unsigned, !decimal, longs);
    forall d ensures Usable(longSize, preprocessing, decimal, suffix, v, d) <==> d in list && Fitting(d, v) {
      TableRow(longSize, preprocessing, decimal, suffix, v, d);
    }
    TableOrdered(longSize, preprocessing, unsigned, !decimal, longs);
    FirstOfList(list, v);
  }

  lemma TableRow(longSize: LongSize, preprocessing: bool, decimal: bool, suffix: string, v: nat, d: Candidate)
    ensures var unsigned := 'u' in suffix || 'U' in suffix;
      var longs := multiset(suffix)['l'] + multiset(suffix)['L'];
      Usable(longSize, preprocessing, decimal, suffix, v, d) <==>
        d in CandidateList(longSize, preprocessing, unsigned, !decimal, longs) && Fitting(d, v)
  {
  }

  lemma TableOrdered(longSize: LongSize, preprocessing: bool, unsigned: bool, nonDecimal: bool, longs: nat)
    ensures Ordered(CandidateList(longSize, preprocessing, unsigned, nonDecimal, longs))
  {
    hide CandidatesOfRank, Ordered, RanksWithin, Before;
    var ints, wide := CandidatesOfRank(unsigned, nonDecimal, 1, 4), CandidatesOfRank(unsigned, nonDecimal, 2, longSize);
    var widest := CandidatesOfRank(unsigned, nonDecimal, 3, 8);
    RankOrdered(unsigned, nonDecimal, 1, 4);
    RankOrdered(unsigned, nonDecimal, 2, longSize);
    RankOrdered(unsigned, nonDecimal, 3, 8);
    Append(ints, wide, 1, 1, 2);
    Append(wide, widest, 2, 2, 3);
    Append(ints + wide, widest, 1, 2, 3);
  }

  predicate RanksWithin(list: seq<Candidate>, low: nat, high: nat) { forall c :: c in list ==> low <= c.rank <= high }

  lemma RankOrdered(unsigned: bool, nonDecimal: bool, rank: nat, size: nat)
    ensures var list := CandidatesOfRank(unsigned, nonDecimal, rank, size);
        Ordered(list) && RanksWithin(list, rank, rank)
  {
  }

  lemma Append(front: seq<Candidate>, back: seq<Candidate>, low: nat, middle: nat, high: nat)
    requires Ordered(front) && RanksWithin(front, low, middle) && middle < high
    requires Ordered(back) && RanksWithin(back, high, high) && low <= middle
    ensures Ordered(front + back) && RanksWithin(front + back, low, high)
  {
    forall i, j | 0 <= i < j < |front + back| ensures Before((front + back)[i], (front + back)[j]) {
      if i < |front| <= j {
        assert front[i] in front && back[j - |front|] in back;
      }
    }
  }

  predicate Ordered(list: seq<Candidate>) { forall i, j :: 0 <= i < j < |list| ==> Before(list[i], list[j]) }

  lemma {:induction false} FirstOfList(list: seq<Candidate>, v: nat)
    requires Ordered(list)
    ensures var c := FirstFitting(list, v);
      if exists d :: d in list && Fitting(d, v) then
        c in list && Fitting(c, v) && forall d :: d in list && Fitting(d, v) && d != c ==> Before(c, d)
      else c == Candidate(3, 8, true)
    decreases |list|
  {
    if list != [] {
      FirstOfList(list[1..], v);
      assert list == [list[0]] + list[1..];
    }
  }

  ghost predicate IsFirst(longSize: LongSize, preprocessing: bool, decimal: bool, suffix: string, v: nat, c: Candidate)
  {
    if exists d :: Usable(longSize, preprocessing, decimal, suffix, v, d) then
      && Usable(longSize, preprocessing, decimal, suffix, v, c)
      && forall d :: Usable(longSize, preprocessing, decimal, suffix, v, d) && d != c ==> Before(c, d)
    else c == Candidate(3, 8, true)
  }

  /** The literal 0 is octal, and too short for the test that looks for it; its type is the
      first in either column. */
  lemma ZeroFirst(longSize: LongSize, preprocessing: bool, c: Candidate)
    requires IsFirst(longSize, preprocessing, true, "", 0, c)
    ensures IsFirst(longSize, preprocessing, false, "", 0, c)
  {
    var least := if preprocessing then Candidate(3, 8, false) else Candidate(1, 4, false);
    assert Usable(longSize, preprocessing, true, "", 0, least);
    assert Usable(longSize, preprocessing, false, "", 0, least);
    assert c == least;
  }

  /** A literal is accepted exactly when the value of its digits is below 2 to the 64; it
      then has that value and the first type of the table that holds it. */
  lemma SpellingIsStandard(longSize: LongSize, preprocessing: bool, text: string, base: nat, worths: seq<nat>,
      suffix: string)
    requires Spells(text, base, worths, suffix)
    ensures RankedChecked(longSize, preprocessing, text).Some? <==> PlaceValue(base, worths) < M64
    ensures RankedChecked(longSize, preprocessing, text).Some? ==>
      var (rank, c) := RankedChecked(longSize, preprocessing, text).value;
      && Typed(c) && ValueOf(c) == PlaceValue(base, worths)
      && IsFirst(longSize, preprocessing, base == 10, suffix, PlaceValue(base, worths),
           Candidate(rank, c.size, c.unsigned))
  {
    hide PlaceValue, RankedChecked, SpeltValue, CandidateList, FirstFitting, CountLongs, HasUnsigned, IsFirst, Typed,
        ValueOf;
    SpeltAs(text, base, worths, suffix);
    LiteralExact(longSize, preprocessing, text);
    var nonDecimal := |text| >= 2 && text[0] == '0';
    FirstUsable(longSize, preprocessing, !nonDecimal, suffix, PlaceValue(base, worths));
    if base != 10 && !nonDecimal && PlaceValue(base, worths) < M64 {
      var (rank, c) := RankedChecked(longSize, preprocessing, text).value;
      ZeroFirst(longSize, preprocessing, Candidate(rank, c.size, c.unsigned));
    }
  }
}
