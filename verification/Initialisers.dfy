/** Initialiser lists, nested to any depth: the static data they become and the stores they
    become at run time put the same thing in the same place. */
module Initialisers {
  import opened Options
  import opened Layout

  /** An expression, as the data it would be in static storage, or a list in braces. */
  datatype Init = Leaf(data: seq<DataValue>) | Braces(items: seq<Init>)

  predicate Aggregate(ty: Type) { !ty.Scalar? }

  /** Bytes that are zero past a size, such as a string whose zero byte does not fit. */
  predicate ZeroPast(data: seq<DataValue>, size: nat)
  {
    && (forall i :: 0 <= i < |data| ==> data[i].DataByte?)
    && (forall i :: size <= i < |data| ==> data[i] == DataByte(0))
  }

  /** No list has more items than what it initialises, and braces around a scalar hold one
      item; an expression's data fits its type, but for the zero byte of a string. */
  predicate Fitting(ty: Type, init: Init)
    decreases init, 1
  {
    match init
    case Leaf(data) => DataSize(data) <= SizeOf(ty) || ZeroPast(data, SizeOf(ty))
    case Braces(items) =>
      match ty
      case Scalar(_) => |items| == 1 && Fitting(ty, items[0])
      case Array(elem, count) => |items| <= count && FittingArray(elem, items)
      case Struct(fields) => FittingFields(fields, items)
      case Union(fields) => |items| <= 1 && FittingFields(fields, items)
  }

  predicate FittingArray(elem: Type, items: seq<Init>)
    decreases items, 0
  {
    items == [] || (Fitting(elem, items[0]) && FittingArray(elem, items[1..]))
  }

  predicate FittingFields(fields: seq<Field>, items: seq<Init>)
    decreases items, 0
  {
    items == [] || (fields != [] && Fitting(fields[0].ty, items[0]) && FittingFields(fields[1..], items[1..]))
  }

  // ---- Static data ------------------------------------------------------------------------

  function GlobalValue(ty: Type, init: Init): seq<DataValue>
    decreases init, 1
  {
    match init
    case Leaf(data) => data
    case Braces(items) =>
      if !Aggregate(ty) && |items| == 1 then GlobalValue(ty, items[0])
      else
        match ty
        case Array(elem, count) => PadData(SizeOf(elem) * count, ArrayData(elem, items))
        case Struct(fields) =>
          var (data, used) := StructFields(0, fields, FieldValues(fields, items));
          PadData(used, data)
        case Union(fields) =>
          var size := UnionFields(fields).0;
          if fields == [] || items == [] then ZeroData(size) else PadData(size, GlobalValue(fields[0].ty, items[0]))
        case Scalar(size) => ZeroData(size)
  }

  function ArrayData(elem: Type, items: seq<Init>): seq<DataValue>
    decreases items, 0
  {
    if items == [] then [] else PadData(SizeOf(elem), GlobalValue(elem, items[0])) + ArrayData(elem, items[1..])
  }

  /** The data of the fields that have an initialiser. */
  function FieldValues(fields: seq<Field>, items: seq<Init>): seq<seq<DataValue>>
    decreases items, 0
  {
    if fields == [] || items == [] then []
        else [GlobalValue(fields[0].ty, items[0])] + FieldValues(fields[1..], items[1..])
  }

  /** The data of a variable of a type. */
  function GlobalData(ty: Type, init: Init): seq<DataValue> { PadData(SizeOf(ty), GlobalValue(ty, init)) }

  /** It has exactly the type's size, whatever the initialiser. */
  lemma DataExact(ty: Type, init: Init)
    ensures DataSize(GlobalData(ty, init)) == SizeOf(ty)
  {
    PadExact(SizeOf(ty), GlobalValue(ty, init));
  }

  // ---- Stores at run time --------------------------------------------------------------------

  /** An expression stored at an offset, as a type. */
  datatype Write = Write(offset: nat, ty: Type, init: Init)

  function ElementWrites(offset: nat, ty: Type, init: Init): seq<Write>
    decreases init, 1
  {
    match init
    case Leaf(_) => [Write(offset, ty, init)]
    case Braces(items) =>
      match ty
      case Scalar(_) => if |items| == 1 then ElementWrites(offset, ty, items[0]) else [Write(offset, ty, init)]
      case Array(elem, _) => ArrayWrites(offset, elem, 0, items)
      case Struct(fields) => StructWrites(offset, 0, fields, items)
      case Union(fields) => if fields == [] || items == [] then [] else ElementWrites(offset, fields[0].ty, items[0])
  }

  function ArrayWrites(start: nat, elem: Type, index: nat, items: seq<Init>): seq<Write>
    decreases items, 0
  {
    if items == [] then [] else
    ElementWrites(start + index * SizeOf(elem), elem, items[0]) + ArrayWrites(start, elem, index + 1, items[1..])
  }

  function StructWrites(start: nat, offset: nat, fields: seq<Field>, items: seq<Init>): seq<Write>
    decreases items, 0
  {
    if fields == [] || items == [] then [] else
    var aligned := AlignUp(offset, AlignOf(fields[0].ty));
    ElementWrites(start + aligned, fields[0].ty, items[0]) +
        StructWrites(start, aligned + SizeOf(fields[0].ty), fields[1..], items[1..])
  }

  // ---- What is stored ------------------------------------------------------------------------

  /** A byte of an object: a number, or one of the bytes of an address. */
  datatype Cell = ByteCell(b: int) | AddressCell(symbol: string, index: int)

  function Cells(data: seq<DataValue>): (r: seq<Cell>)
    ensures |r| == DataSize(data)
  {
    if data == [] then [] else
    var first := if data[0].DataByte? then [ByteCell(data[0].b)] else seq(WORD, i => AddressCell(data[0].symbol, i));
    first + Cells(data[1..])
  }

  function Zeros(n: nat): (r: seq<Cell>)
    ensures |r| == n
  {
    seq(n, _ => ByteCell(0))
  }

  /** The bytes after the stores, in order; none if a store is not inside them or not an
      expression's. */
  function Stored(cells: seq<Cell>, writes: seq<Write>): Option<seq<Cell>>
    decreases |writes|
  {
    if writes == [] then Some(cells)
    else if !writes[0].init.Leaf? then None
    else
      var bytes := Cells(PadData(SizeOf(writes[0].ty), writes[0].init.data));
      var end := writes[0].offset + |bytes|;
      if end > |cells| then None
      else Stored(cells[..writes[0].offset] + bytes + cells[end..], writes[1..])
  }

  lemma {:induction false} StoredBoth(cells: seq<Cell>, a: seq<Write>, b: seq<Write>)
    requires Stored(cells, a).Some?
    ensures Stored(cells, a + b) == Stored(Stored(cells, a).value, b)
    decreases |a|
  {
    hide Cells, PadData, SizeOf;
    if a == [] {
      assert a + b == b;
    } else {
      assert (a + b)[1..] == a[1..] + b;
      var bytes := Cells(PadData(SizeOf(a[0].ty), a[0].init.data));
      StoredBoth(cells[..a[0].offset] + bytes + cells[a[0].offset + |bytes|..], a[1..], b);
    }
  }

  lemma {:induction false} CellsSum(a: seq<DataValue>, b: seq<DataValue>)
    ensures Cells(a + b) == Cells(a) + Cells(b)
  {
    if a == [] {
      assert a + b == b;
    } else {
      assert (a + b)[1..] == a[1..] + b;
      CellsSum(a[1..], b);
    }
  }

  lemma {:induction false} CellsZero(n: nat)
    ensures Cells(ZeroData(n)) == Zeros(n)
  {
    if n > 0 {
      CellsZero(n - 1);
      assert ZeroData(n)[1..] == ZeroData(n - 1);
    }
  }

  // ---- They agree ----------------------------------------------------------------------------------

  /** Clearing an object and making the stores of its initialiser, nested to any depth,
      leaves exactly the bytes of its static data: every store is inside the object, and
      what no store reaches is zero. */
  lemma ClearedAndStored(ty: Type, init: Init)
    requires Fitting(ty, init)
    ensures Stored(Zeros(SizeOf(ty)), ElementWrites(0, ty, init)) == Some(Cells(GlobalData(ty, init)))
  {
    hide Stored, ElementWrites, GlobalData, SizeOf, Cells, Zeros;
    Fills([], ty, init, []);
    assert [] + Zeros(SizeOf(ty)) + [] == Zeros(SizeOf(ty));
    assert [] + Cells(GlobalData(ty, init)) + [] == Cells(GlobalData(ty, init));
  }

  /** The same for an object inside another. */
  lemma {:induction false} Fills(pre: seq<Cell>, ty: Type, init: Init, post: seq<Cell>)
    requires Fitting(ty, init)
    ensures Stored(pre + Zeros(SizeOf(ty)) + post, ElementWrites(|pre|, ty, init)) ==
        Some(pre + Cells(GlobalData(ty, init)) + post)
    decreases init, 2
  {
    hide Stored, Cells, Zeros, PadData, SizeOf, StructFields, FieldValues, ArrayData, StructWrites, ArrayWrites,
        FittingArray, FittingFields, ZeroData, DataSize, UnionFields;
    if init.Leaf? {
      OneStored(pre, ty, init, post);
    } else {
      match ty
      case Scalar(_) => Fills(pre, ty, init.items[0], post);
      case Array(elem, count) => FillsArray(pre, elem, count, init.items, post);
      case Struct(fields) => FillsStruct(pre, fields, init.items, post);
      case Union(fields) => FillsUnion(pre, fields, init.items, post);
    }
  }

  lemma OneStored(pre: seq<Cell>, ty: Type, init: Init, post: seq<Cell>)
    requires init.Leaf?
    ensures Stored(pre + Zeros(SizeOf(ty)) + post, [Write(|pre|, ty, init)]) ==
        Some(pre + Cells(PadData(SizeOf(ty), init.data)) + post)
  {
    hide Cells, PadData, SizeOf;
    PadExact(SizeOf(ty), init.data);
    var all, end := pre + Zeros(SizeOf(ty)) + post, |pre| + SizeOf(ty);
    assert all[..|pre|] == pre && all[end..] == post;
  }

  lemma {:induction false} FillsArray(pre: seq<Cell>, elem: Type, count: nat, items: seq<Init>, post: seq<Cell>)
    requires |items| <= count && FittingArray(elem, items)
    ensures var ty := Array(elem, count);
      Stored(pre + Zeros(SizeOf(ty)) + post, ArrayWrites(|pre|, elem, 0, items)) ==
        Some(pre + Cells(GlobalData(ty, Braces(items))) + post)
    decreases items, 1
  {
    hide Stored, Cells, Zeros, PadData, ArrayData, ArrayWrites, FittingArray, ZeroData, DataSize;
    var data, size := ArrayData(elem, items), SizeOf(elem) * count;
    ArrayIs(elem, count);
    ArraySize(elem, items);
    Scaled(SizeOf(elem), |items|, count);
    PadTwice(data, size, size);
    CellsPadded(data, size - DataSize(data));
    FillsItems(pre, |pre|, elem, 0, items, size, post);
  }

  lemma {:induction false} FillsItems(pre: seq<Cell>, start: nat, elem: Type, index: nat, items: seq<Init>, room: nat,
      post: seq<Cell>)
    requires FittingArray(elem, items) && |pre| == start + index * SizeOf(elem) && SizeOf(elem) * |items| <= room
    ensures Stored(pre + Zeros(room) + post, ArrayWrites(start, elem, index, items)) ==
        Some(pre + (Cells(ArrayData(elem, items)) + Zeros(room - SizeOf(elem) * |items|)) + post)
    decreases items, 0
  {
    hide Stored, PadData, SizeOf, GlobalValue, ElementWrites, Fitting, ZeroData, DataSize, Zeros, Cells;
    var size := SizeOf(elem);
    if items == [] {
      NothingStored(pre + Zeros(room) + post);
      NoCells(Zeros(room));
    } else {
      OneMore(size, |items|);
      var first, rest := GlobalData(elem, items[0]), ArrayData(elem, items[1..]);
      var writes, more := ElementWrites(|pre|, elem, items[0]), ArrayWrites(start, elem, index + 1, items[1..]);
      DataExact(elem, items[0]);
      SplitZeros(pre, size, room - size, post);
      Fills(pre, elem, items[0], Zeros(room - size) + post);
      StoredBoth(pre + Zeros(room) + post, writes, more);
      assert start + (index + 1) * size == |pre| + size;
      Joined(pre, Cells(first), Zeros(room - size), post);
      FillsItems(pre + Cells(first), start, elem, index + 1, items[1..], room - size, post);
      CellsSum(first, rest);
      var end := Zeros(room - size * |items|);
      assert Cells(first) + (Cells(rest) + end) == Cells(first) + Cells(rest) + end;
      Joined(pre, Cells(first), Cells(rest) + end, post);
    }
  }

  lemma {:induction false} FillsStruct(pre: seq<Cell>, fields: seq<Field>, items: seq<Init>, post: seq<Cell>)
    requires FittingFields(fields, items)
    ensures var ty := Struct(fields);
      Stored(pre + Zeros(SizeOf(ty)) + post, StructWrites(|pre|, 0, fields, items)) ==
        Some(pre + Cells(GlobalData(ty, Braces(items))) + post)
    decreases items, 1
  {
    hide Stored, Cells, Zeros, PadData, SizeOf, StructFields, FieldValues, StructWrites, FittingFields, ZeroData,
        DataSize, FoldFields;
    var values, size := FieldValues(fields, items), SizeOf(Struct(fields));
    var (data, used) := StructFields(0, fields, values);
    StructFieldsSize(0, 1, fields, values);
    EndsInside(fields);
    PadTwice(data, used, size);
    CellsPadded(data, size - used);
    FillsMembers(pre, |pre|, 0, fields, items, size, post);
  }

  lemma {:induction false} FillsMembers(pre: seq<Cell>, start: nat, offset: nat, fields: seq<Field>, items: seq<Init>,
      room: nat, post: seq<Cell>)
    requires FittingFields(fields, items) && |pre| == start + offset
    requires DataSize(StructFields(offset, fields, FieldValues(fields, items)).0) <= room
    ensures var data := StructFields(offset, fields, FieldValues(fields, items)).0;
      Stored(pre + Zeros(room) + post, StructWrites(start, offset, fields, items)) ==
        Some(pre + (Cells(data) + Zeros(room - DataSize(data))) + post)
    decreases items, 0
  {
    hide Stored, PadData, SizeOf, AlignOf, AlignUp, GlobalValue, ElementWrites, Fitting, ZeroData, DataSize, Zeros,
        Cells;
    if items == [] {
      ZerosUnset(offset, fields);
      NothingStored(pre + Zeros(room) + post);
      var n := DataSize(StructFields(offset, fields, []).0);
      CellsZero(n);
      ZerosSum(n, room - n);
    } else {
      var size, aligned := SizeOf(fields[0].ty), AlignUp(offset, AlignOf(fields[0].ty));
      AlignedUp(offset, AlignOf(fields[0].ty));
      var tail := FieldValues(fields[1..], items[1..]);
      assert FieldValues(fields, items)[1..] == tail;
      var gap, first := ZeroData(aligned - offset), GlobalData(fields[0].ty, items[0]);
      var rest := StructFields(aligned + size, fields[1..], tail).0;
      MemberFilled(pre, start, offset, aligned, fields, items, room, post, rest);
    }
  }

  lemma {:induction false} MemberFilled(pre: seq<Cell>, start: nat, offset: nat, aligned: nat, fields: seq<Field>,
      items: seq<Init>, room: nat, post: seq<Cell>, rest: seq<DataValue>)
    requires fields != [] && items != [] && FittingFields(fields, items) && |pre| == start + offset
    requires aligned == AlignUp(offset, AlignOf(fields[0].ty)) && aligned >= offset
    requires var size := SizeOf(fields[0].ty);
      rest == StructFields(aligned + size, fields[1..], FieldValues(fields[1..], items[1..])).0
    requires var data := ZeroData(aligned - offset) + GlobalData(fields[0].ty, items[0]) + rest;
      DataSize(data) <= room
    ensures var data := ZeroData(aligned - offset) + GlobalData(fields[0].ty, items[0]) + rest;
      Stored(pre + Zeros(room) + post, StructWrites(start, offset, fields, items)) ==
        Some(pre + (Cells(data) + Zeros(room - DataSize(data))) + post)
    decreases items, 0, 0
  {
    hide Stored, PadData, SizeOf, AlignOf, AlignUp, GlobalData, ElementWrites, Fitting, ZeroData, DataSize, Zeros,
        Cells, StructFields, FieldValues;
    var size, n := SizeOf(fields[0].ty), aligned - offset;
    var gap, first := ZeroData(n), GlobalData(fields[0].ty, items[0]);
    ZeroSize(n);
    DataExact(fields[0].ty, items[0]);
    DataSum(gap, first);
    DataSum(gap + first, rest);
    CellsZero(n);
    CellsSum(gap, first);
    CellsSum(gap + first, rest);
    var left := room - n - size;
    SplitZeros(pre, n, room - n, post);
    SplitZeros(pre + Zeros(n), size, left, post);
    var writes := ElementWrites(start + aligned, fields[0].ty, items[0]);
    var more := StructWrites(start, aligned + size, fields[1..], items[1..]);
    Fills(pre + Zeros(n), fields[0].ty, items[0], Zeros(left) + post);
    StoredBoth(pre + Zeros(room) + post, writes, more);
    Joined(pre + Zeros(n), Cells(first), Zeros(left), post);
    FillsMembers(pre + Zeros(n) + Cells(first), start, aligned + size, fields[1..], items[1..], left, post);
    var end := Zeros(left - DataSize(rest));
    assert pre + Zeros(n) + Cells(first) + (Cells(rest) + end) + post ==
      pre + (Zeros(n) + Cells(first) + Cells(rest) + end) + post;
  }

  lemma {:induction false} FillsUnion(pre: seq<Cell>, fields: seq<Field>, items: seq<Init>, post: seq<Cell>)
    requires |items| <= 1 && FittingFields(fields, items)
    ensures var ty := Union(fields);
      Stored(pre + Zeros(SizeOf(ty)) + post, ElementWrites(|pre|, ty, Braces(items))) ==
        Some(pre + Cells(GlobalData(ty, Braces(items))) + post)
    decreases items, 1
  {
    hide Stored, Cells, Zeros, PadData, SizeOf, ZeroData, DataSize, UnionFields, Fitting;
    var size, whole := UnionFields(fields).0, SizeOf(Union(fields));
    UnionInside(fields);
    if items == [] {
      NothingStored(pre + Zeros(whole) + post);
      ZeroSize(size);
      PadExact(whole, ZeroData(size));
      ZeroSum(size, whole - size);
      CellsZero(whole);
    } else {
      var ty, value := fields[0].ty, GlobalValue(fields[0].ty, items[0]);
      UnionHolds(fields, 0);
      ValueFits(ty, items[0]);
      PadMore(value, SizeOf(ty), size);
      PadExact(size, value);
      PadExact(whole, PadData(size, value));
      var first, a, b := GlobalData(ty, items[0]), ZeroData(size - SizeOf(ty)), ZeroData(whole - size);
      ZeroSum(size - SizeOf(ty), whole - size);
      assert first + a + b == first + (a + b);
      CellsPadded(first, whole - SizeOf(ty));
      SplitZeros(pre, SizeOf(ty), whole - SizeOf(ty), post);
      Fills(pre, ty, items[0], Zeros(whole - SizeOf(ty)) + post);
      Joined(pre, Cells(first), Zeros(whole - SizeOf(ty)), post);
    }
  }

  // ---- Regrouping --------------------------------------------------------------------------------

  lemma NothingStored(cells: seq<Cell>)
    ensures Stored(cells, []) == Some(cells)
  {
  }

  lemma NoCells(cells: seq<Cell>)
    ensures Cells([]) + cells == cells
  {
  }

  lemma OneMore(size: nat, n: nat)
    requires n > 0
    ensures size * n == size + size * (n - 1) && size * n >= size
  {
  }

  lemma ZerosSum(a: nat, b: nat)
    ensures Zeros(a) + Zeros(b) == Zeros(a + b)
  {
  }

  lemma SplitZeros(pre: seq<Cell>, a: nat, b: nat, post: seq<Cell>)
    ensures pre + Zeros(a + b) + post == pre + Zeros(a) + (Zeros(b) + post)
    ensures pre + Zeros(a + b) + post == pre + Zeros(a) + Zeros(b) + post
  {
    ZerosSum(a, b);
  }

  lemma Joined(pre: seq<Cell>, a: seq<Cell>, b: seq<Cell>, post: seq<Cell>)
    ensures pre + a + (b + post) == pre + a + b + post == pre + (a + b) + post
  {
  }

  lemma CellsPadded(data: seq<DataValue>, n: nat)
    ensures Cells(data + ZeroData(n)) == Cells(data) + Zeros(n)
  {
    CellsSum(data, ZeroData(n));
    CellsZero(n);
  }

  /** Padding, then padding to at least that size. */
  lemma PadTwice(data: seq<DataValue>, size: nat, more: nat)
    requires DataSize(data) <= size <= more
    ensures PadData(more, PadData(size, data)) == data + ZeroData(more - DataSize(data))
  {
    hide PadData, DataSize, ZeroData;
    PadExact(size, data);
    PadExact(more, PadData(size, data));
    ZeroSum(size - DataSize(data), more - size);
    var a, b := ZeroData(size - DataSize(data)), ZeroData(more - size);
    assert data + a + b == data + (a + b);
  }

  /** Fields without an initialiser are zero. */
  lemma {:induction false} ZerosUnset(offset: nat, fields: seq<Field>)
    ensures var data := StructFields(offset, fields, []).0; data == ZeroData(DataSize(data))
    decreases |fields|
  {
    hide PadData, SizeOf, AlignOf, AlignUp, ZeroData, DataSize;
    if fields == [] {
      NoData();
      NoZeros([]);
    } else {
      var size, aligned := SizeOf(fields[0].ty), AlignUp(offset, AlignOf(fields[0].ty));
      AlignedUp(offset, AlignOf(fields[0].ty));
      ZerosUnset(aligned + size, fields[1..]);
      var n, m := aligned - offset, DataSize(StructFields(aligned + size, fields[1..], []).0);
      ZeroSize(size);
      PadExact(size, ZeroData(size));
      NoZeros(ZeroData(size));
      ZeroSum(n, size);
      ZeroSum(n + size, m);
      ZeroSize(n + size + m);
    }
  }

  lemma Scaled(size: nat, n: nat, count: nat)
    requires n <= count
    ensures size * n <= size * count
  {
    assert size * count == size * n + size * (count - n);
  }

  lemma {:induction false} ArraySize(elem: Type, items: seq<Init>)
    ensures DataSize(ArrayData(elem, items)) == SizeOf(elem) * |items|
    decreases |items|
  {
    hide PadData, SizeOf, GlobalValue;
    if items == [] {
      NoData();
    } else {
      ArraySize(elem, items[1..]);
      var first := PadData(SizeOf(elem), GlobalValue(elem, items[0]));
      PadExact(SizeOf(elem), GlobalValue(elem, items[0]));
      DataSum(first, ArrayData(elem, items[1..]));
      OneMore(SizeOf(elem), |items|);
    }
  }

  /** Padding to a greater size adds zeros. */
  lemma PadMore(value: seq<DataValue>, size: nat, more: nat)
    requires (DataSize(value) <= size || ZeroPast(value, size)) && size <= more
    ensures PadData(more, value) == PadData(size, value) + ZeroData(more - size)
  {
    hide DataSize, ZeroData, TakeData;
    if DataSize(value) <= size {
      hide PadData;
      PadExact(size, value);
      PadExact(more, value);
      ZeroSum(size - DataSize(value), more - size);
      var a, b := ZeroData(size - DataSize(value)), ZeroData(more - size);
      assert value + a + b == value + (a + b);
    } else {
      BytesTaken(value, size);
      AllZero(value, size);
      var n := |value| - size;
      if |value| >= more {
        BytesTaken(value, more);
        ZeroSum(more - size, |value| - more);
        assert value[..more] == value[..size] + value[size..][..more - size];
        assert value[size..][..more - size] == ZeroData(more - size);
      } else {
        ZeroSum(n, more - |value|);
        assert value + ZeroData(more - |value|) == value[..size] + (value[size..] + ZeroData(more - |value|));
      }
    }
  }

  lemma {:induction false} AllZero(value: seq<DataValue>, size: nat)
    requires ZeroPast(value, size) && size <= |value|
    ensures value[size..] == ZeroData(|value| - size)
    decreases |value| - size
  {
    if size < |value| {
      AllZero(value, size + 1);
      assert value[size..] == [value[size]] + value[size + 1..];
    }
  }

  /** Bytes are cut off where asked. */
  lemma {:induction false} BytesTaken(value: seq<DataValue>, size: nat)
    requires forall i :: 0 <= i < |value| ==> value[i].DataByte?
    ensures DataSize(value) == |value|
    ensures size <= |value| ==> TakeData(size, value) == value[..size]
    decreases |value|
  {
    if value != [] {
      BytesTaken(value[1..], if size == 0 then 0 else size - 1);
      if 0 < size <= |value| { assert value[..size] == [value[0]] + value[1..][..size - 1]; }
    }
  }

  lemma {:induction false} ZeroSum(a: nat, b: nat)
    ensures ZeroData(a + b) == ZeroData(a) + ZeroData(b)
    decreases a
  {
    if a == 0 {
      assert ZeroData(0) + ZeroData(b) == ZeroData(b);
    } else {
      ZeroSum(a - 1, b);
      assert a + b - 1 == a - 1 + b;
      assert [DataByte(0)] + (ZeroData(a - 1) + ZeroData(b)) == ([DataByte(0)] + ZeroData(a - 1)) + ZeroData(b);
    }
  }

  /** Before padding, data is no longer than its type, unless it is a string. */
  lemma {:induction false} ValueFits(ty: Type, init: Init)
    requires Fitting(ty, init)
    ensures DataSize(GlobalValue(ty, init)) <= SizeOf(ty) || ZeroPast(GlobalValue(ty, init), SizeOf(ty))
    decreases init
  {
    hide PadData, SizeOf, AlignOf, StructFields, FieldValues, ArrayData, FittingArray, FittingFields, ZeroData,
        DataSize, ZeroPast, UnionFields;
    if init.Braces? {
      match ty
      case Scalar(_) => ValueFits(ty, init.items[0]);
      case Array(elem, count) =>
        PadExact(SizeOf(elem) * count, ArrayData(elem, init.items));
        ArrayIs(elem, count);
      case Struct(fields) =>
        var (data, used) := StructFields(0, fields, FieldValues(fields, init.items));
        StructFieldsSize(0, 1, fields, FieldValues(fields, init.items));
        EndsInside(fields);
        PadExact(used, data);
      case Union(fields) =>
        var size := UnionFields(fields).0;
        ZeroSize(size);
        UnionInside(fields);
        if fields != [] && init.items != [] { PadExact(size, GlobalValue(fields[0].ty, init.items[0])); }
    }
  }

  lemma UnionInside(fields: seq<Field>)
    ensures UnionFields(fields).0 <= SizeOf(Union(fields))
  {
    hide AlignOf;
    AlignedUp(UnionFields(fields).0, UnionFields(fields).1);
  }

  lemma ArrayIs(elem: Type, count: nat)
    ensures SizeOf(Array(elem, count)) == SizeOf(elem) * count
  {
  }
}
