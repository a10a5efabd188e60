/** Sizes, offsets and alignments are the least that a layout in declaration order, with
    every member aligned, can have. */
module LeastLayout {
  import opened Layout

  // ---- Alignment -----------------------------------------------------------------------------

  /** A scalar of a power of two bytes up to eight is aligned to its size, a wider one to eight. */
  lemma ScalarAligned(size: nat)
    ensures size in {1, 2, 4, 8} ==> AlignOf(Scalar(size)) == size
    ensures size >= 8 ==> AlignOf(Scalar(size)) == 8
  {
  }

  /** What every member's alignment divides. */
  predicate Aligns(a: nat, fields: seq<Field>)
  {
    a > 0 && forall i :: 0 <= i < |fields| ==> a % AlignOf(fields[i].ty) == 0
  }

  /** An aggregate's alignment is the least that every member's divides. */
  lemma AggregateAligned(ty: Type)
    requires ty.Struct? || ty.Union?
    ensures Aligns(AlignOf(ty), ty.fields)
    ensures forall a: nat :: Aligns(a, ty.fields) ==> AlignOf(ty) <= a
  {
    hide AlignOf;
    AlignmentIs(ty);
    forall i | 0 <= i < |ty.fields| ensures AlignOf(ty) % AlignOf(ty.fields[i].ty) == 0 {
      FieldAlign(ty.fields, i);
      Divides(AlignOf(ty.fields[i].ty), AlignOf(ty));
    }
    forall a: nat | Aligns(a, ty.fields) ensures AlignOf(ty) <= a { AlignmentLeast(ty.fields, a); }
  }

  lemma AlignmentIs(ty: Type)
    requires ty.Struct? || ty.Union?
    ensures AlignOf(ty) == AggregateAlign(ty.fields)
  {
  }

  lemma Divides(a: nat, b: nat)
    requires IsAlign(a) && IsAlign(b) && a <= b
    ensures b % a == 0
  {
  }

  lemma {:induction false} AlignmentLeast(fields: seq<Field>, a: nat)
    requires Aligns(a, fields)
    ensures AggregateAlign(fields) <= a
    decreases |fields|
  {
    hide AlignOf;
    if fields != [] {
      AlignmentLeast(fields[1..], a);
      NoSmaller(a, AlignOf(fields[0].ty));
    }
  }

  lemma NoSmaller(a: nat, d: nat)
    requires a > 0 && d > 0 && a % d == 0
    ensures d <= a
  {
    if a < d { SmallRemainder(a, d); }
  }

  lemma SmallRemainder(a: nat, d: nat)
    requires a < d
    ensures a % d == a
  {
  }

  /** An array is as strict as its elements and as large as all of them. */
  lemma ArrayIs(elem: Type, count: nat)
    ensures AlignOf(Array(elem, count)) == AlignOf(elem) && SizeOf(Array(elem, count)) == count * SizeOf(elem)
  {
    hide FoldFields, UnionFields, AggregateAlign, AlignUp;
    assert SizeOf(Array(elem, count)) == SizeOf(elem) * count;
  }

  // ---- Offsets and sizes ---------------------------------------------------------------------------

  /** A layout of a structure: every member aligned, each past the ones before it, and a size
      that has room for all and keeps an array of structures aligned. */
  ghost predicate Allows(fields: seq<Field>, places: seq<nat>, size: nat)
  {
    && |places| == |fields|
    && (forall i :: 0 <= i < |fields| ==> places[i] % AlignOf(fields[i].ty) == 0)
    && (forall i :: 0 <= i < |fields| ==> places[i] + SizeOf(fields[i].ty) <= size)
    && (forall i, k :: 0 <= i < k < |fields| ==> places[i] + SizeOf(fields[i].ty) <= places[k])
    && size % AggregateAlign(fields) == 0
  }

  function Starts(fields: seq<Field>): (places: seq<nat>)
    ensures |places| == |fields| && forall i :: 0 <= i < |fields| ==> places[i] == Start(0, fields, i)
  {
    seq(|fields|, i requires 0 <= i < |fields| => Start(0, fields, i))
  }

  /** The compiler's layout is one. */
  lemma StructureAllowed(fields: seq<Field>)
    ensures Allows(fields, Starts(fields), SizeOf(Struct(fields)))
  {
    hide Starts, SizeOf, AlignOf, Start;
    var ty := Struct(fields);
    SizeAligned(ty);
    AlignmentIs(ty);
    forall i | 0 <= i < |fields|
      ensures Start(0, fields, i) % AlignOf(fields[i].ty) == 0
      ensures Start(0, fields, i) + SizeOf(fields[i].ty) <= SizeOf(ty)
    {
      FieldInside(ty, i);
    }
    forall i, k | 0 <= i < k < |fields| ensures Start(0, fields, i) + SizeOf(fields[i].ty) <= Start(0, fields, k) {
      StartsApart(0, fields, i, k);
    }
  }

  /** No layout has a member earlier, or the structure smaller. */
  lemma StructureLeast(fields: seq<Field>, places: seq<nat>, size: nat)
    requires Allows(fields, places, size)
    ensures forall i :: 0 <= i < |fields| ==> Start(0, fields, i) <= places[i]
    ensures SizeOf(Struct(fields)) <= size
  {
    hide SizeOf, AlignOf, FoldFields;
    StartsLeast(0, 1, fields, places);
    SizeIs(fields);
    AlignUpLeast(FoldFields(0, 1, fields).0, AggregateAlign(fields), size);
  }

  lemma SizeIs(fields: seq<Field>)
    ensures SizeOf(Struct(fields)) == AlignUp(FoldFields(0, 1, fields).0, AggregateAlign(fields))
  {
    hide AlignUp;
    FoldAlign(0, 1, fields);
    AtLeastOne(fields);
  }

  lemma AtLeastOne(fields: seq<Field>)
    ensures Max(1, AggregateAlign(fields)) == AggregateAlign(fields)
  {
  }

  lemma AlignUpLeast(offset: nat, align: nat, x: nat)
    requires IsAlign(align) && x >= offset && x % align == 0
    ensures AlignUp(offset, align) <= x
  {
  }

  lemma {:induction false} StartsLeast(offset: nat, maxAlign: nat, fields: seq<Field>, places: seq<nat>)
    requires IsAlign(maxAlign) && |places| == |fields|
    requires forall i :: 0 <= i < |fields| ==> places[i] % AlignOf(fields[i].ty) == 0 && places[i] >= offset
    requires forall i, k :: 0 <= i < k < |fields| ==> places[i] + SizeOf(fields[i].ty) <= places[k]
    ensures forall i :: 0 <= i < |fields| ==> Start(offset, fields, i) <= places[i]
    ensures FoldFields(offset, maxAlign, fields).0 <=
        if fields == [] then offset else places[|fields| - 1] + SizeOf(fields[|fields| - 1].ty)
    decreases |fields|
  {
    hide SizeOf, AlignOf, AlignUp;
    if fields != [] {
      var align := AlignOf(fields[0].ty);
      AlignUpLeast(offset, align, places[0]);
      var next := AlignUp(offset, align) + SizeOf(fields[0].ty);
      var rest, after := fields[1..], places[1..];
      forall i | 0 <= i < |rest| ensures after[i] >= next { assert after[i] == places[i + 1]; }
      StartsLeast(next, Max(maxAlign, align), rest, after);
      forall i | 0 <= i < |fields| ensures Start(offset, fields, i) <= places[i] {
        if i > 0 { assert Start(offset, fields, i) == Start(next, rest, i - 1) && places[i] == after[i - 1]; }
      }
    }
  }

  /** A union has room for each member at its start, keeps an array of unions aligned, and is
      no larger than that needs. */
  lemma UnionLeast(fields: seq<Field>, size: nat)
    ensures forall i :: 0 <= i < |fields| ==> SizeOf(fields[i].ty) <= SizeOf(Union(fields))
    ensures SizeOf(Union(fields)) % AggregateAlign(fields) == 0
    ensures (forall i :: 0 <= i < |fields| ==> SizeOf(fields[i].ty) <= size) && size % AggregateAlign(fields) == 0 ==>
      SizeOf(Union(fields)) <= size
  {
    hide SizeOf, AlignOf, UnionFields, Start;
    var ty := Union(fields);
    forall i | 0 <= i < |fields| ensures SizeOf(fields[i].ty) <= SizeOf(ty) { FieldInside(ty, i); }
    SizeAligned(ty);
    AlignmentIs(ty);
    UnionSize(fields);
    if (forall i :: 0 <= i < |fields| ==> SizeOf(fields[i].ty) <= size) && size % AggregateAlign(fields) == 0 {
      WidestLeast(fields, size);
      AlignUpLeast(UnionFields(fields).0, AggregateAlign(fields), size);
    }
  }

  lemma UnionSize(fields: seq<Field>)
    ensures SizeOf(Union(fields)) == AlignUp(UnionFields(fields).0, AggregateAlign(fields))
  {
    hide AlignUp;
    UnionAlign(fields);
  }

  lemma {:induction false} WidestLeast(fields: seq<Field>, size: nat)
    requires forall i :: 0 <= i < |fields| ==> SizeOf(fields[i].ty) <= size
    ensures UnionFields(fields).0 <= size
    decreases |fields|
  {
    hide SizeOf, AlignOf;
    if fields != [] { WidestLeast(fields[1..], size); }
  }
}
