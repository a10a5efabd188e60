/** Layout of structures and unions: the size and alignment of types, the offset of a
    member, and the walks that emit static data and run-time initialisers. Named
    aggregates stand resolved, with their fields. */
module Layout {
  import opened Options

  datatype Type =
    | Scalar(size: nat)
    | Array(elem: Type, count: nat)
    | Struct(fields: seq<Field>)
    | Union(fields: seq<Field>)

  /** A field without a name makes its own members members of what it is in. */
  datatype Field = Field(name: string, ty: Type)

  function Max(a: nat, b: nat): nat { if a >= b then a else b }

  function AlignUp(offset: nat, align: nat): nat
    requires align > 0
  {
    if offset % align == 0 then offset else offset + align - offset % align
  }

  predicate IsAlign(a: nat) { a == 1 || a == 2 || a == 4 || a == 8 }

  function AlignOf(ty: Type): (a: nat)
    ensures IsAlign(a)
  {
    match ty
    case Scalar(size) => if size >= 8 then 8 else if size >= 4 then 4 else if size >= 2 then 2 else 1
    case Array(elem, _) => AlignOf(elem)
    case Struct(fields) => AggregateAlign(fields)
    case Union(fields) => AggregateAlign(fields)
  }

  function AggregateAlign(fields: seq<Field>): (a: nat)
    ensures IsAlign(a)
  {
    if fields == [] then 1 else Max(AlignOf(fields[0].ty), AggregateAlign(fields[1..]))
  }

  function SizeOf(ty: Type): nat
  {
    match ty
    case Scalar(size) => size
    case Array(elem, count) => SizeOf(elem) * count
    case Struct(fields) =>
      var (size, align) := FoldFields(0, 1, fields);
      AlignUp(size, align)
    case Union(fields) =>
      var (size, align) := UnionFields(fields);
      AlignUp(size, align)
  }

  /** The end of the last field and the strictest alignment. */
  function FoldFields(offset: nat, maxAlign: nat, fields: seq<Field>): (r: (nat, nat))
    requires IsAlign(maxAlign)
    ensures IsAlign(r.1)
    decreases fields
  {
    if fields == [] then (offset, maxAlign) else
    var align := AlignOf(fields[0].ty);
    FoldFields(AlignUp(offset, align) + SizeOf(fields[0].ty), Max(maxAlign, align), fields[1..])
  }

  function UnionFields(fields: seq<Field>): (r: (nat, nat))
    ensures IsAlign(r.1)
    decreases fields
  {
    if fields == [] then (0, 1) else
    var (size, align) := UnionFields(fields[1..]);
    (Max(SizeOf(fields[0].ty), size), Max(AlignOf(fields[0].ty), align))
  }

  // ---- Looking a member up ----------------------------------------------------------------

  function UnionOffset(isUnion: bool, aligned: nat): nat { if isUnion then 0 else aligned }

  function FieldOffset(isUnion: bool, name: string, offset: nat, fields: seq<Field>): Option<(Type, nat)>
    decreases fields
  {
    if fields == [] then None else
    var (ty, aligned) := (fields[0].ty, AlignUp(offset, AlignOf(fields[0].ty)));
    if fields[0].name == name then Some((ty, UnionOffset(isUnion, aligned)))
    else
      var nested := if fields[0].name == "" then AnonymousMember(UnionOffset(isUnion, aligned), ty, name) else None;
      if nested.Some? then nested else FieldOffset(isUnion, name, aligned + SizeOf(ty), fields[1..])
  }

  function AnonymousMember(start: nat, ty: Type, name: string): Option<(Type, nat)>
    decreases ty
  {
    match ty
    case Struct(fields) => NestedOffset(start, false, name, 0, fields)
    case Union(fields) => NestedOffset(start, true, name, 0, fields)
    case _ => None
  }

  function NestedOffset(start: nat, isUnion: bool, name: string, offset: nat, fields: seq<Field>): Option<(Type, nat)>
    decreases fields
  {
    if fields == [] then None else
    var (ty, aligned) := (fields[0].ty, AlignUp(offset, AlignOf(fields[0].ty)));
    var member := start + UnionOffset(isUnion, aligned);
    if fields[0].name == name then Some((ty, member))
    else
      var nested := if fields[0].name == "" then AnonymousMember(member, ty, name) else None;
      if nested.Some? then nested else NestedOffset(start, isUnion, name, aligned + SizeOf(ty), fields[1..])
  }

  function Member(ty: Type, name: string): Option<(Type, nat)>
  {
    match ty
    case Struct(fields) => FieldOffset(false, name, 0, fields)
    case Union(fields) => FieldOffset(true, name, 0, fields)
    case _ => None
  }

  // ---- Emitting data ----------------------------------------------------------------------------

  datatype DataValue = DataByte(b: int) | DataAddress(symbol: string)

  const WORD: nat := 8

  function DataSize(values: seq<DataValue>): nat
  {
    if values == [] then 0 else (if values[0].DataByte? then 1 else WORD) + DataSize(values[1..])
  }

  function ZeroData(n: nat): (r: seq<DataValue>)
    ensures |r| == n
  {
    if n == 0 then [] else [DataByte(0)] + ZeroData(n - 1)
  }

  /** An address that does not fit whole gives way to zeros. */
  function TakeData(size: nat, values: seq<DataValue>): seq<DataValue>
    decreases values
  {
    if size == 0 || values == [] then []
    else if values[0].DataByte? then [values[0]] + TakeData(size - 1, values[1..])
    else if size >= WORD then [values[0]] + TakeData(size - WORD, values[1..])
    else ZeroData(size)
  }

  function PadData(size: nat, values: seq<DataValue>): seq<DataValue>
  {
    if DataSize(values) >= size then TakeData(size, values) else values + ZeroData(size - DataSize(values))
  }

  /** The data of each field given, zeros for the rest, and padding between them. */
  function StructFields(offset: nat, fields: seq<Field>, values: seq<seq<DataValue>>): (seq<DataValue>, nat)
    decreases |fields|
  {
    if fields == [] then ([], offset) else
    var (size, aligned) := (SizeOf(fields[0].ty), AlignUp(offset, AlignOf(fields[0].ty)));
    var data := if values == [] then ZeroData(size) else values[0];
    var (rest, end) := StructFields(aligned + size, fields[1..], if values == [] then [] else values[1..]);
    (ZeroData(aligned - offset) + PadData(size, data) + rest, end)
  }

  /** The static data of a structure. */
  function StructData(fields: seq<Field>, values: seq<seq<DataValue>>): seq<DataValue>
  {
    var (data, used) := StructFields(0, fields, values);
    PadData(SizeOf(Struct(fields)), PadData(used, data))
  }

  /** Where each of n run-time initialisers is stored, and at what type. */
  function InitWrites(offset: nat, fields: seq<Field>, n: nat): (r: seq<(nat, Type)>)
    decreases |fields|
  {
    if fields == [] || n == 0 then [] else
    var (size, aligned) := (SizeOf(fields[0].ty), AlignUp(offset, AlignOf(fields[0].ty)));
    [(aligned, fields[0].ty)] + InitWrites(aligned + size, fields[1..], n - 1)
  }

  // ---- The layout itself --------------------------------------------------------------------------

  /** Where field i of a structure starts, after what precedes it. */
  function Start(offset: nat, fields: seq<Field>, i: nat): nat
    requires i < |fields|
    decreases |fields|
  {
    var aligned := AlignUp(offset, AlignOf(fields[0].ty));
    if i == 0 then aligned else Start(aligned + SizeOf(fields[0].ty), fields[1..], i - 1)
  }

  /** A path of field numbers into nested aggregates, and where it leads. */
  function Place(ty: Type, path: seq<nat>): Option<(Type, nat)>
    decreases |path|, 1
  {
    if path == [] then Some((ty, 0))
    else if ty.Struct? || ty.Union? then PlaceIn(ty.Union?, 0, ty.fields, path)
    else None
  }

  function PlaceIn(isUnion: bool, offset: nat, fields: seq<Field>, path: seq<nat>): Option<(Type, nat)>
    requires path != []
    decreases |path|, 0
  {
    if path[0] >= |fields| then None else
    var start := if isUnion then 0 else Start(offset, fields, path[0]);
    var inner :- Place(fields[path[0]].ty, path[1..]);
    Some((inner.0, start + inner.1))
  }

  /** The path goes through fields without a name to one with this name. */
  predicate Named(fields: seq<Field>, path: seq<nat>, name: string)
    decreases |path|
  {
    && path != [] && path[0] < |fields|
    && var field := fields[path[0]];
       if |path| == 1 then field.name == name
       else field.name == "" && (field.ty.Struct? || field.ty.Union?) && Named(field.ty.fields, path[1..], name)
  }

  // ---- Alignment --------------------------------------------------------------------------------------

  lemma AlignedUp(offset: nat, align: nat)
    requires IsAlign(align)
    ensures offset <= AlignUp(offset, align) < offset + align && AlignUp(offset, align) % align == 0
  {
  }

  lemma Stricter(a: nat, b: nat, v: nat)
    requires IsAlign(a) && IsAlign(b) && a <= b && v % b == 0
    ensures v % a == 0
  {
    if b == 8 {
      OfEight(v);
      if a == 1 { assert v % 1 == 0; } else if a == 2 { assert v % 2 == 0; } else if a == 4 { assert v % 4 == 0; }
    } else if b == 4 {
      OfFour(v);
      if a == 1 { assert v % 1 == 0; } else if a == 2 { assert v % 2 == 0; }
    } else if a == 1 {
      assert v % 1 == 0;
    }
  }

  lemma OfEight(v: nat)
    requires v % 8 == 0
    ensures v % 4 == 0 && v % 2 == 0
  {
    var k := v / 8;
    assert v == 4 * (2 * k) && v == 2 * (4 * k);
  }

  lemma OfFour(v: nat)
    requires v % 4 == 0
    ensures v % 2 == 0
  {
    Doubled(v, 2 * (v / 4));
  }

  lemma Doubled(v: nat, half: nat)
    requires v == half + half
    ensures v % 2 == 0
  {
  }

  lemma SumAligned(a: nat, v: nat, w: nat)
    requires IsAlign(a) && v % a == 0 && w % a == 0
    ensures (v + w) % a == 0
  {
    if a == 1 {
      assert (v + w) % 1 == 0;
    } else if a == 2 {
      SumOfTwo(v, w);
    } else if a == 4 {
      SumOfFour(v, w);
    } else {
      SumOfEight(v, w);
    }
  }

  lemma SumOfTwo(v: nat, w: nat)
    requires v % 2 == 0 && w % 2 == 0
    ensures (v + w) % 2 == 0
  {
  }

  lemma SumOfFour(v: nat, w: nat)
    requires v % 4 == 0 && w % 4 == 0
    ensures (v + w) % 4 == 0
  {
  }

  lemma SumOfEight(v: nat, w: nat)
    requires v % 8 == 0 && w % 8 == 0
    ensures (v + w) % 8 == 0
  {
  }

  lemma {:induction false} FieldAlign(fields: seq<Field>, i: nat)
    requires i < |fields|
    ensures AlignOf(fields[i].ty) <= AggregateAlign(fields)
    decreases |fields|
  {
    if i > 0 { FieldAlign(fields[1..], i - 1); }
  }

  /** The two folds find the alignment the third does. */
  lemma {:induction false} FoldAlign(offset: nat, maxAlign: nat, fields: seq<Field>)
    requires IsAlign(maxAlign)
    ensures FoldFields(offset, maxAlign, fields).1 == Max(maxAlign, AggregateAlign(fields))
    decreases |fields|
  {
    if fields != [] {
      var align := AlignOf(fields[0].ty);
      FoldAlign(AlignUp(offset, align) + SizeOf(fields[0].ty), Max(maxAlign, align), fields[1..]);
    }
  }

  lemma {:induction false} UnionAlign(fields: seq<Field>)
    ensures UnionFields(fields).1 == AggregateAlign(fields)
    decreases |fields|
  {
    if fields != [] { UnionAlign(fields[1..]); }
  }

  // ---- Fields of a structure -----------------------------------------------------------------------------

  /** Every field starts aligned and after those before it, and ends before the fold's end. */
  lemma {:induction false} StartBounds(offset: nat, maxAlign: nat, fields: seq<Field>, i: nat)
    requires i < |fields| && IsAlign(maxAlign)
    ensures offset <= Start(offset, fields, i)
    ensures Start(offset, fields, i) % AlignOf(fields[i].ty) == 0
    ensures Start(offset, fields, i) + SizeOf(fields[i].ty) <= FoldFields(offset, maxAlign, fields).0
    decreases |fields|
  {
    hide AlignOf, SizeOf, AlignUp;
    var align := AlignOf(fields[0].ty);
    AlignedUp(offset, align);
    var next := AlignUp(offset, align) + SizeOf(fields[0].ty);
    if i == 0 {
      FoldGrows(next, Max(maxAlign, align), fields[1..]);
    } else {
      StartBounds(next, Max(maxAlign, align), fields[1..], i - 1);
    }
  }

  lemma {:induction false} FoldGrows(offset: nat, maxAlign: nat, fields: seq<Field>)
    requires IsAlign(maxAlign)
    ensures offset <= FoldFields(offset, maxAlign, fields).0
    decreases |fields|
  {
    hide AlignOf, SizeOf, AlignUp;
    if fields != [] {
      var align := AlignOf(fields[0].ty);
      AlignedUp(offset, align);
      FoldGrows(AlignUp(offset, align) + SizeOf(fields[0].ty), Max(maxAlign, align), fields[1..]);
    }
  }

  /** Fields do not overlap. */
  lemma {:induction false} StartsApart(offset: nat, fields: seq<Field>, i: nat, j: nat)
    requires i < j < |fields|
    ensures Start(offset, fields, i) + SizeOf(fields[i].ty) <= Start(offset, fields, j)
    decreases |fields|
  {
    hide AlignOf, SizeOf, AlignUp;
    var next := AlignUp(offset, AlignOf(fields[0].ty)) + SizeOf(fields[0].ty);
    if i == 0 { StartBounds(next, 1, fields[1..], j - 1); } else { StartsApart(next, fields[1..], i - 1, j - 1); }
  }

  lemma {:induction false} UnionHolds(fields: seq<Field>, i: nat)
    requires i < |fields|
    ensures SizeOf(fields[i].ty) <= UnionFields(fields).0
    decreases |fields|
  {
    hide AlignOf, SizeOf;
    if i > 0 { UnionHolds(fields[1..], i - 1); }
  }

  /** A field lies in its aggregate, at a multiple of its alignment. */
  lemma FieldInside(ty: Type, i: nat)
    requires (ty.Struct? || ty.Union?) && i < |ty.fields|
    ensures var start := if ty.Union? then 0 else Start(0, ty.fields, i);
      start + SizeOf(ty.fields[i].ty) <= SizeOf(ty) && start % AlignOf(ty.fields[i].ty) == 0
    ensures AlignOf(ty.fields[i].ty) <= AlignOf(ty)
  {
    FieldAlign(ty.fields, i);
    if ty.Struct? {
      StartBounds(0, 1, ty.fields, i);
      AlignedUp(FoldFields(0, 1, ty.fields).0, FoldFields(0, 1, ty.fields).1);
    } else {
      UnionHolds(ty.fields, i);
      AlignedUp(UnionFields(ty.fields).0, UnionFields(ty.fields).1);
    }
  }

  /** An aggregate's size is a multiple of its alignment, so the elements of an array of
      them are aligned too. */
  lemma SizeAligned(ty: Type)
    requires ty.Struct? || ty.Union?
    ensures SizeOf(ty) % AlignOf(ty) == 0
  {
    if ty.Struct? {
      FoldAlign(0, 1, ty.fields);
      AlignedUp(FoldFields(0, 1, ty.fields).0, FoldFields(0, 1, ty.fields).1);
    } else {
      UnionAlign(ty.fields);
      AlignedUp(UnionFields(ty.fields).0, UnionFields(ty.fields).1);
    }
  }

  // ---- Nested places ------------------------------------------------------------------------------------------

  /** Whatever a path leads to lies in the aggregate, at a multiple of its alignment. */
  lemma {:induction false} PlaceInside(ty: Type, path: seq<nat>)
    requires Place(ty, path).Some?
    ensures var (inner, offset) := Place(ty, path).value;
      offset + SizeOf(inner) <= SizeOf(ty) && offset % AlignOf(inner) == 0 && AlignOf(inner) <= AlignOf(ty)
    decreases |path|
  {
    hide AlignOf, SizeOf, Start;
    if path != [] {
      var field := ty.fields[path[0]].ty;
      var start := if ty.Union? then 0 else Start(0, ty.fields, path[0]);
      FieldInside(ty, path[0]);
      PlaceInside(field, path[1..]);
      var (inner, offset) := Place(field, path[1..]).value;
      Stricter(AlignOf(inner), AlignOf(field), start);
      SumAligned(AlignOf(inner), start, offset);
    }
  }

  /** Paths that part in a structure lead to places that do not overlap. */
  lemma {:induction false} PlacesApart(ty: Type, common: seq<nat>, i: nat, j: nat, p: seq<nat>, q: seq<nat>)
    requires i < j
    requires Place(ty, common).Some? && Place(ty, common).value.0.Struct?
    requires Place(ty, common + [i] + p).Some? && Place(ty, common + [j] + q).Some?
    ensures var (a, b) := (Place(ty, common + [i] + p).value, Place(ty, common + [j] + q).value);
      a.1 + SizeOf(a.0) <= b.1
    decreases |common|
  {
    hide AlignOf, SizeOf, Start;
    var (x, y) := (common + [i] + p, common + [j] + q);
    if common == [] {
      assert x == [i] + p && x[1..] == p && y == [j] + q && y[1..] == q;
      StartsApart(0, ty.fields, i, j);
      PlaceInside(ty.fields[i].ty, p);
    } else {
      assert x[1..] == common[1..] + [i] + p && y[1..] == common[1..] + [j] + q;
      PlacesApart(ty.fields[common[0]].ty, common[1..], i, j, p, q);
    }
  }

  // ---- The lookup -------------------------------------------------------------------------------------------------

  function Shifted(start: nat, found: Option<(Type, nat)>): Option<(Type, nat)>
  {
    if found.None? then None else Some((found.value.0, start + found.value.1))
  }

  /** The nested walk is the outer one, from where the member starts. */
  lemma {:induction false} NestedIsShifted(start: nat, isUnion: bool, name: string, offset: nat, fields: seq<Field>)
    ensures NestedOffset(start, isUnion, name, offset, fields) ==
        Shifted(start, FieldOffset(isUnion, name, offset, fields))
    decreases fields
  {
    hide AlignOf, SizeOf, AlignUp;
    if fields != [] {
      var (ty, aligned) := (fields[0].ty, AlignUp(offset, AlignOf(fields[0].ty)));
      var at := UnionOffset(isUnion, aligned);
      AnonymousIsShifted(start + at, ty, name);
      AnonymousIsShifted(at, ty, name);
      NestedIsShifted(start, isUnion, name, aligned + SizeOf(ty), fields[1..]);
    }
  }

  lemma {:induction false} AnonymousIsShifted(start: nat, ty: Type, name: string)
    ensures AnonymousMember(start, ty, name) == Shifted(start, Member(ty, name))
    decreases ty
  {
    match ty
    case Struct(fields) => NestedIsShifted(start, false, name, 0, fields);
    case Union(fields) => NestedIsShifted(start, true, name, 0, fields);
    case _ =>
  }

  /** One step of the lookup. */
  lemma LookupStep(isUnion: bool, name: string, offset: nat, fields: seq<Field>)
    requires fields != []
    ensures var (ty, aligned) := (fields[0].ty, AlignUp(offset, AlignOf(fields[0].ty)));
      FieldOffset(isUnion, name, offset, fields) ==
        if fields[0].name == name then Some((ty, UnionOffset(isUnion, aligned)))
        else if fields[0].name == "" && Member(ty, name).Some?
            then Shifted(UnionOffset(isUnion, aligned), Member(ty, name))
        else FieldOffset(isUnion, name, aligned + SizeOf(ty), fields[1..])
  {
    hide AlignOf, SizeOf, AlignUp, AnonymousMember, Member;
    AnonymousIsShifted(UnionOffset(isUnion, AlignUp(offset, AlignOf(fields[0].ty))), fields[0].ty, name);
  }

  /** What the lookup finds is where a path of that name leads. */
  lemma {:induction false} FoundIsNamed(isUnion: bool, name: string, offset: nat, fields: seq<Field>)
      returns (path: seq<nat>)
    requires FieldOffset(isUnion, name, offset, fields).Some?
    ensures Named(fields, path, name) && PlaceIn(isUnion, offset, fields, path) ==
        FieldOffset(isUnion, name, offset, fields)
    decreases fields
  {
    hide AlignOf, SizeOf, AlignUp, AnonymousMember;
    LookupStep(isUnion, name, offset, fields);
    var ty := fields[0].ty;
    if fields[0].name == name {
      path := [0];
    } else if fields[0].name == "" && Member(ty, name).Some? {
      var inner := FoundIsNamed(ty.Union?, name, 0, ty.fields);
      path := [0] + inner;
      assert path[1..] == inner;
    } else {
      var rest := FoundIsNamed(isUnion, name, AlignUp(offset, AlignOf(ty)) + SizeOf(ty), fields[1..]);
      path := [rest[0] + 1] + rest[1..];
      assert path[1..] == rest[1..];
    }
  }

  /** Every path of that name makes the lookup find something. */
  lemma {:induction false} NamedIsFound(isUnion: bool, name: string, offset: nat, fields: seq<Field>, path: seq<nat>)
    requires Named(fields, path, name)
    ensures FieldOffset(isUnion, name, offset, fields).Some?
    decreases fields
  {
    hide AlignOf, SizeOf, AlignUp, AnonymousMember;
    LookupStep(isUnion, name, offset, fields);
    var ty := fields[0].ty;
    if path[0] == 0 {
      if |path| > 1 { NamedIsFound(ty.Union?, name, 0, ty.fields, path[1..]); }
    } else if !(fields[0].name == name || (fields[0].name == "" && Member(ty, name).Some?)) {
      var rest := [path[0] - 1] + path[1..];
      assert rest[1..] == path[1..];
      NamedIsFound(isUnion, name, AlignUp(offset, AlignOf(ty)) + SizeOf(ty), fields[1..], rest);
    }
  }

  /** Member lookup, directly and through nested unnamed aggregates: it succeeds exactly
      when the name is somewhere there, and then gives a place of that name, inside the
      aggregate and aligned. */
  lemma MemberFound(ty: Type, name: string)
    requires ty.Struct? || ty.Union?
    ensures Member(ty, name).Some? <==> exists path :: Named(ty.fields, path, name)
    ensures Member(ty, name).Some? ==>
      exists path :: Named(ty.fields, path, name) && Place(ty, path) == Member(ty, name)
    ensures Member(ty, name).Some? ==> var (inner, offset) := Member(ty, name).value;
      offset + SizeOf(inner) <= SizeOf(ty) && offset % AlignOf(inner) == 0
  {
    hide AlignOf, SizeOf, FieldOffset, Named, PlaceIn;
    if path :| Named(ty.fields, path, name) { NamedIsFound(ty.Union?, name, 0, ty.fields, path); }
    if Member(ty, name).Some? {
      var path := FoundIsNamed(ty.Union?, name, 0, ty.fields);
      NamedPath(ty.fields, path, name);
      assert Place(ty, path) == Member(ty, name);
      PlaceInside(ty, path);
    }
  }

  lemma NamedPath(fields: seq<Field>, path: seq<nat>, name: string)
    requires Named(fields, path, name)
    ensures path != []
  {
  }

  // ---- Data ---------------------------------------------------------------------------------

  lemma {:induction false} DataSum(a: seq<DataValue>, b: seq<DataValue>)
    ensures DataSize(a + b) == DataSize(a) + DataSize(b)
  {
    if a == [] {
      assert a + b == b;
    } else {
      assert (a + b)[1..] == a[1..] + b;
      DataSum(a[1..], b);
    }
  }

  lemma {:induction false} ZeroSize(n: nat)
    ensures DataSize(ZeroData(n)) == n
  {
    if n > 0 {
      ZeroSize(n - 1);
      assert ZeroData(n)[1..] == ZeroData(n - 1);
    }
  }

  lemma {:induction false} TakeSize(size: nat, values: seq<DataValue>)
    requires DataSize(values) >= size
    ensures DataSize(TakeData(size, values)) == size
    ensures DataSize(values) == size ==> TakeData(size, values) == values
    decreases |values|
  {
    if size == 0 || values == [] {
      if values != [] && DataSize(values) == 0 { assert false; }
    } else if values[0].DataByte? {
      TakeSize(size - 1, values[1..]);
      assert TakeData(size, values)[1..] == TakeData(size - 1, values[1..]);
    } else if size >= WORD {
      TakeSize(size - WORD, values[1..]);
      assert TakeData(size, values)[1..] == TakeData(size - WORD, values[1..]);
    } else {
      ZeroSize(size);
    }
  }

  /** Padded data has exactly the size asked for; data of that size is kept as it is, and
      shorter data is kept and followed by zeros. */
  lemma PadExact(size: nat, values: seq<DataValue>)
    ensures DataSize(PadData(size, values)) == size
    ensures DataSize(values) <= size ==> PadData(size, values) == values + ZeroData(size - DataSize(values))
  {
    if DataSize(values) >= size {
      TakeSize(size, values);
    } else {
      ZeroSize(size - DataSize(values));
      DataSum(values, ZeroData(size - DataSize(values)));
    }
  }

  /** The data walk ends where the size walk does. */
  lemma {:induction false} StructFieldsSize(offset: nat, maxAlign: nat, fields: seq<Field>, values: seq<seq<DataValue>>)
    requires IsAlign(maxAlign)
    ensures var (data, end) := StructFields(offset, fields, values);
      end == FoldFields(offset, maxAlign, fields).0 && end >= offset && DataSize(data) == end - offset
    decreases |fields|
  {
    hide AlignOf, SizeOf, AlignUp, PadData, ZeroData, DataSize;
    NoData();
    if fields != [] {
      var align := AlignOf(fields[0].ty);
      AlignedUp(offset, align);
      var (size, aligned) := (SizeOf(fields[0].ty), AlignUp(offset, align));
      var data := if values == [] then ZeroData(size) else values[0];
      var tail := if values == [] then [] else values[1..];
      var (rest, end) := StructFields(aligned + size, fields[1..], tail);
      StructFieldsSize(aligned + size, Max(maxAlign, align), fields[1..], tail);
      ZeroSize(aligned - offset);
      PadExact(size, data);
      DataSum(ZeroData(aligned - offset), PadData(size, data));
      DataSum(ZeroData(aligned - offset) + PadData(size, data), rest);
    }
  }

  lemma NoData()
    ensures DataSize([]) == 0
  {
  }

  /** The data of field i, given or zero. */
  function FieldData(fields: seq<Field>, values: seq<seq<DataValue>>, i: nat): seq<DataValue>
    requires i < |fields|
  {
    PadData(SizeOf(fields[i].ty), if i < |values| then values[i] else ZeroData(SizeOf(fields[i].ty)))
  }

  /** The data walk puts each field's data where the layout has the field. */
  lemma {:induction false} StructFieldAt(offset: nat, fields: seq<Field>, values: seq<seq<DataValue>>, i: nat)
      returns (before: seq<DataValue>, after: seq<DataValue>)
    requires i < |fields|
    ensures StructFields(offset, fields, values).0 == before + FieldData(fields, values, i) + after
    ensures offset + DataSize(before) == Start(offset, fields, i)
    decreases |fields|
  {
    hide AlignOf, SizeOf, AlignUp, PadData, ZeroData, DataSize;
    var align := AlignOf(fields[0].ty);
    AlignedUp(offset, align);
    var (size, aligned) := (SizeOf(fields[0].ty), AlignUp(offset, align));
    var data := if values == [] then ZeroData(size) else values[0];
    var tail := if values == [] then [] else values[1..];
    var rest := StructFields(aligned + size, fields[1..], tail).0;
    ZeroSize(aligned - offset);
    if i == 0 {
      before, after := ZeroData(aligned - offset), rest;
    } else {
      before, after := StructFieldAt(aligned + size, fields[1..], tail, i - 1);
      var head := ZeroData(aligned - offset) + PadData(size, data);
      PadExact(size, data);
      DataSum(ZeroData(aligned - offset), PadData(size, data));
      DataSum(head, before);
      Regroup(head, before, FieldData(fields[1..], tail, i - 1), after);
      before := head + before;
    }
  }

  lemma Regroup(a: seq<DataValue>, b: seq<DataValue>, c: seq<DataValue>, d: seq<DataValue>)
    ensures a + (b + c + d) == a + b + c + d
  {
  }

  /** A structure's static data has exactly its size. */
  lemma StructDataExact(fields: seq<Field>, values: seq<seq<DataValue>>)
    ensures DataSize(StructData(fields, values)) == SizeOf(Struct(fields))
    ensures exists n: nat :: StructData(fields, values) == StructFields(0, fields, values).0 + ZeroData(n)
  {
    hide StructFields, FoldFields, PadData, ZeroData;
    var (data, used) := StructFields(0, fields, values);
    StructFieldsSize(0, 1, fields, values);
    EndsInside(fields);
    PadExact(used, data);
    NoZeros(data);
    PadExact(SizeOf(Struct(fields)), data);
  }

  lemma NoZeros(data: seq<DataValue>)
    ensures data + ZeroData(0) == data
  {
  }

  lemma EndsInside(fields: seq<Field>)
    ensures FoldFields(0, 1, fields).0 <= SizeOf(Struct(fields))
  {
    AlignedUp(FoldFields(0, 1, fields).0, FoldFields(0, 1, fields).1);
  }

  // ---- The walks agree ----------------------------------------------------------------------

  lemma {:induction false} InitWriteAt(offset: nat, fields: seq<Field>, n: nat, i: nat)
    requires i < |fields| && i < n
    ensures var writes := InitWrites(offset, fields, n);
      |writes| == (if n <= |fields| then n else |fields|) && writes[i] == (Start(offset, fields, i), fields[i].ty)
    decreases |fields|
  {
    hide AlignOf, SizeOf, AlignUp;
    var next := AlignUp(offset, AlignOf(fields[0].ty)) + SizeOf(fields[0].ty);
    if i > 0 {
      InitWriteAt(next, fields[1..], n - 1, i - 1);
    } else if |fields| > 1 && n > 1 {
      InitWriteAt(next, fields[1..], n - 1, 0);
    }
  }

  /** Member lookup, static data and run-time initialisers use the same offset for a field
      whose name is its own. */
  lemma WalksAgree(fields: seq<Field>, values: seq<seq<DataValue>>, n: nat, i: nat)
      returns (before: seq<DataValue>, after: seq<DataValue>)
    requires i < |fields| && i < n
    requires forall path :: Named(fields, path, fields[i].name) ==> path == [i]
    ensures var start := Start(0, fields, i);
      && Member(Struct(fields), fields[i].name) == Some((fields[i].ty, start))
      && i < |InitWrites(0, fields, n)| && InitWrites(0, fields, n)[i] == (start, fields[i].ty)
      && StructData(fields, values) == before + FieldData(fields, values, i) + after && DataSize(before) == start
  {
    hide StructFields, StructData, FieldData, FieldOffset, Start;
    var name := fields[i].name;
    InitWriteAt(0, fields, n, i);
    assert Named(fields, [i], name);
    NamedIsFound(false, name, 0, fields, [i]);
    var path := FoundIsNamed(false, name, 0, fields);
    StructDataExact(fields, values);
    before, after := StructFieldAt(0, fields, values, i);
    var k: nat :| StructData(fields, values) == StructFields(0, fields, values).0 + ZeroData(k);
    after := after + ZeroData(k);
  }
}
