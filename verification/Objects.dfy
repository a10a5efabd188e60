/** Local objects with an initialiser list: the lowered code that clears one and stores each
    item runs as C initialises it, and constants leave the static data of the same list. */
module Objects {
  import opened Options
  import opened Words
  import opened Ir
  import opened CTypes
  import opened Source
  import opened Lowering
  import opened Represent
  import opened ExprCorrect
  import Copies
  import Initialisers
  import opened Integers
  import Layout
  import LoweringCorrect

  datatype Shape =
    | Plain(ty: CType)
    | Row(elem: Shape, count: nat)
    | Record(members: seq<Shape>)
    | Choice(members: seq<Shape>)

  /** An item of an initialiser list. */
  datatype Initial = Value(e: Expr) | List(items: seq<Initial>)

  /** The layout of an object of this shape; members are found by position. */
  function Laid(shape: Shape): Layout.Type
  {
    match shape
    case Plain(ty) => Layout.Scalar(SizeOf(ty))
    case Row(elem, count) => Layout.Array(Laid(elem), count)
    case Record(members) => Layout.Struct(Fields(members))
    case Choice(members) => Layout.Union(Fields(members))
  }

  function Fields(members: seq<Shape>): (fields: seq<Layout.Field>)
    ensures |fields| == |members|
  {
    if members == [] then [] else [Layout.Field("", Laid(members[0]))] + Fields(members[1..])
  }

  function Bytes(shape: Shape): nat { Layout.SizeOf(Laid(shape)) }

  /** A scalar has its type's size, a row its elements one after the other, and the members of
      a record or choice are laid out in their order. */
  lemma {:induction false} ShapesLaid(members: seq<Shape>)
    ensures forall ty :: Laid(Plain(ty)) == Layout.Scalar(SizeOf(ty))
    ensures forall elem, count :: Laid(Row(elem, count)) == Layout.Array(Laid(elem), count)
    ensures Laid(Record(members)).Struct? && Laid(Choice(members)).Union?
    ensures Laid(Record(members)).fields == Laid(Choice(members)).fields == Fields(members)
    ensures forall k :: 0 <= k < |members| ==> Fields(members)[k].ty == Laid(members[k])
  {
    if members != [] { ShapesLaid(members[1..]); }
  }

  /** The bytes of so many elements of a row. */
  function Rows(n: nat, elem: Shape): nat { n * Bytes(elem) }

  // ---- The lowering -----------------------------------------------------------------------

  function ElementCode(g: Env, dst: Operand, offset: nat, shape: Shape, init: Initial, n: nat): (code: Option<Effects>)
    ensures code.Some? ==> n <= code.value.next
    decreases init, 2
  {
    var a := Copies.OffsetAddress(dst, offset, n);
    var w :- if shape.Plain? then ScalarCode(g, a.op, shape.ty, init, a.next)
             else if init.List? then ListCode(g, a.op, shape, init.items, a.next)
             else None;
    Some(Effects(a.instrs + w.instrs, w.next))
  }

  /** Braces around one item of a scalar are ignored. */
  function ScalarCode(g: Env, a: Operand, ty: CType, init: Initial, n: nat): (code: Option<Effects>)
    ensures code.Some? ==> n <= code.value.next
    decreases init, 1
  {
    match init
    case List(items) => if |items| == 1 then ScalarCode(g, a, ty, items[0], n) else None
    case Value(e) =>
      var x :- LowerExpr(g, e, n);
      var cc := Coerce(ty, x.op, x.next);
      Some(Effects(x.instrs + cc.instrs + [StoreInstr(ty, a, cc.op)], cc.next))
  }

  function ListCode(g: Env, dst: Operand, shape: Shape, items: seq<Initial>, n: nat): (code: Option<Effects>)
    ensures code.Some? ==> n <= code.value.next
    decreases items, 1
  {
    match shape
    case Plain(_) => Some(Effects([], n))
    case Row(elem, _) => RowCode(g, dst, elem, 0, items, n)
    case Record(members) => RecordCode(g, dst, 0, members, items, n)
    case Choice(members) =>
      if members == [] || items == [] then Some(Effects([], n)) else ElementCode(g, dst, 0, members[0], items[0], n)
  }

  function RowCode(g: Env, dst: Operand, elem: Shape, index: nat, items: seq<Initial>, n: nat): (code: Option<Effects>)
    ensures code.Some? ==> n <= code.value.next
    decreases items, 0
  {
    if items == [] then Some(Effects([], n)) else
    var first :- ElementCode(g, dst, Rows(index, elem), elem, items[0], n);
    var rest :- RowCode(g, dst, elem, index + 1, items[1..], first.next);
    Some(Effects(first.instrs + rest.instrs, rest.next))
  }

  function RecordCode(g: Env, dst: Operand, offset: nat, members: seq<Shape>, items: seq<Initial>,
      n: nat): (code: Option<Effects>)
    ensures code.Some? ==> n <= code.value.next
    decreases items, 0
  {
    if members == [] || items == [] then Some(Effects([], n)) else
    var aligned := Layout.AlignUp(offset, Layout.AlignOf(Laid(members[0])));
    var first :- ElementCode(g, dst, aligned, members[0], items[0], n);
    var rest :- RecordCode(g, dst, aligned + Bytes(members[0]), members[1..], items[1..], first.next);
    Some(Effects(first.instrs + rest.instrs, rest.next))
  }

  /** A declaration of an object with a list: clear it, then store the items. */
  function ObjectCode(g: Env, dst: Operand, shape: Shape, items: seq<Initial>, n: nat): (code: Option<Effects>)
    ensures code.Some? ==> n <= code.value.next
  {
    var zero := Copies.ZeroBytes(dst, 0, Bytes(shape), n);
    var w :- ListCode(g, dst, shape, items, zero.next);
    Some(Effects(zero.instrs + w.instrs, w.next))
  }

  // ---- Meaning -----------------------------------------------------------------------------

  /** An expression that initialises the scalar at an address. */
  datatype Leaf = Leaf(address: nat, ty: CType, e: Expr)

  /** The scalars a list initialises, in order, in an object at an address. */
  function Leaves(a: nat, shape: Shape, init: Initial): seq<Leaf>
    decreases init, 1
  {
    match init
    case Value(e) => if shape.Plain? then [Leaf(a, shape.ty, e)] else []
    case List(items) =>
      match shape
      case Plain(_) => if |items| == 1 then Leaves(a, shape, items[0]) else []
      case Row(elem, _) => RowLeaves(a, elem, 0, items)
      case Record(members) => RecordLeaves(a, 0, members, items)
      case Choice(members) => if members == [] || items == [] then [] else Leaves(a, members[0], items[0])
  }

  function RowLeaves(a: nat, elem: Shape, index: nat, items: seq<Initial>): seq<Leaf>
    decreases items, 0
  {
    if items == [] then [] else
    Leaves(a + Rows(index, elem), elem, items[0]) + RowLeaves(a, elem, index + 1, items[1..])
  }

  function RecordLeaves(a: nat, offset: nat, members: seq<Shape>, items: seq<Initial>): seq<Leaf>
    decreases items, 0
  {
    if members == [] || items == [] then [] else
    var aligned := Layout.AlignUp(offset, Layout.AlignOf(Laid(members[0])));
    Leaves(a + aligned, members[0], items[0]) +
    RecordLeaves(a, aligned + Bytes(members[0]), members[1..], items[1..])
  }

  /** Each expression is evaluated, converted to its scalar's type, and stored there. */
  ghost function StoreLeaves(c: Context, g: Env, leaves: seq<Leaf>, s: Config): Option<Config>
    decreases |leaves|
  {
    if leaves == [] then Some(s) else
    var s1 :- StoreLeaf(c, g, leaves[0], s);
    StoreLeaves(c, g, leaves[1..], s1)
  }

  ghost function StoreLeaf(c: Context, g: Env, leaf: Leaf, s: Config): Option<Config>
  {
    var r :- Eval(c, g, leaf.e, s);
    if leaf.address + SizeOf(leaf.ty) > M64 then None
    else Put(c, leaf.ty, Memory(leaf.address), Convert(leaf.ty, r.v), r.s)
  }

  function Cleared(a: nat, n: nat, s: Config): Config { s.(mem := Write(s.mem, a, Fill(false, n))) }

  /** How C initialises an object at an address with a list; one past it is an address too. */
  ghost function Initialised(c: Context, g: Env, a: nat, shape: Shape, items: seq<Initial>, s: Config): Option<Config>
  {
    if a + Bytes(shape) < M64 && c.frame.Visible(a, Bytes(shape))
    then StoreLeaves(c, g, Leaves(a, shape, List(items)), Cleared(a, Bytes(shape), s))
    else None
  }

  lemma {:induction false} StoreBoth(c: Context, g: Env, a: seq<Leaf>, b: seq<Leaf>, s: Config)
    ensures StoreLeaves(c, g, a + b, s) ==
        if StoreLeaves(c, g, a, s).Some? then StoreLeaves(c, g, b, StoreLeaves(c, g, a, s).value) else None
    decreases |a|
  {
    hide StoreLeaf;
    if a == [] {
      assert a + b == b;
    } else {
      assert (a + b)[1..] == a[1..] + b;
      if StoreLeaf(c, g, a[0], s).Some? { StoreBoth(c, g, a[1..], b, StoreLeaf(c, g, a[0], s).value); }
    }
  }

  // ---- The code runs as the meaning says ------------------------------------------------------

  /** An operand with the address of an object, which later code leaves alone. */
  ghost predicate Anchored(c: Context, g: Env, op: Operand, n: nat, m: State, a: nat)
  {
    Ir.Value(c, m, op) == Some(WordOf(a)) && Copies.Fixed(c.frame, op, n) && (op.Temp? ==> op.t !in g.vars)
  }

  lemma AnchoredStays(c: Context, g: Env, op: Operand, n: nat, next: nat, m: State, m': State, a: nat)
    requires Anchored(c, g, op, n, m, a) && Keeps(g, n, m, m') && n <= next
    ensures Anchored(c, g, op, next, m', a)
  {
    hide WordOf;
  }

  /** The address of an element. */
  lemma OffsetRuns(c: Context, g: Env, dst: Operand, offset: nat, n: nat, s: Config, m: State, a: nat)
      returns (m': State)
    requires Anchored(c, g, dst, n, m, a) && a + offset < M64
    requires Starts(c, g, n, Copies.OffsetAddress(dst, offset, n).next, s, m)
    ensures var code := Copies.OffsetAddress(dst, offset, n);
      && Reaches(c, g, n, code.next, code.instrs, m, s, s, m')
      && Anchored(c, g, code.op, code.next, m', a + offset) && Keeps(g, n, m, m')
  {
    hide Rel, Runs, WordOf, Ir.Value;
    m' := Copies.AddressRuns(c, dst, offset, n, m, a);
    AddsRel(c, g, n, s, m, m');
    AddsKeeps(g, n, n, m, m');
  }

  /** One scalar. */
  lemma {:induction false} ScalarRuns(c: Context, g: Env, a: Operand, ty: CType, init: Initial, n: nat, s: Config,
      m: State, d: nat) returns (m': State)
    requires ScalarCode(g, a, ty, init, n).Some? && Anchored(c, g, a, n, m, d)
    requires Starts(c, g, n, ScalarCode(g, a, ty, init, n).value.next, s, m)
    requires StoreLeaves(c, g, Leaves(d, Plain(ty), init), s).Some?
    ensures var code := ScalarCode(g, a, ty, init, n).value;
      Reaches(c, g, n, code.next, code.instrs, m, s, StoreLeaves(c, g, Leaves(d, Plain(ty), init), s).value, m')
    decreases init
  {
    hide Rel, Runs, Ir.Value, WordOf, BytesOf, Coerce, Convert, LowerExpr, Eval, InRange, StoreInstr, Owned, Keeps;
    match init
    case List(items) => m' := ScalarRuns(c, g, a, ty, items[0], n, s, m, d);
    case Value(e) =>
      OneLeaf(c, g, Leaf(d, ty, e), s);
      var x, r := LowerExpr(g, e, n).value, Eval(c, g, e, s).value;
      var cc := Coerce(ty, x.op, x.next);
      OwnedPart(c.frame, n, x.next, cc.next);
      var m1 := LoweringCorrect.ExprRuns(c, g, e, n, s, m);
      var v := Convert(ty, r.v);
      OwnedTail(c.frame, n, x.next, cc.next);
      var m2 := CoerceYields(c, g, Pending(e), n, x, ExprType(g, e).value, ty, m, s, r, m1);
      AnchoredStays(c, g, a, n, n, m, m2, d);
      SameMemory(c, g, r.s, m2);
      m' := StoreRuns(c, ty, a, cc.op, d, v, v, m2, r.s);
      RunsBoth(c, x.instrs + cc.instrs, [StoreInstr(ty, a, cc.op)], m, m2, m');
      Stored(c, g, n, m, m2, m', r.s, d, BytesOf(v, SizeOf(ty)));
  }

  lemma OneLeaf(c: Context, g: Env, leaf: Leaf, s: Config)
    requires StoreLeaves(c, g, [leaf], s).Some?
    ensures Eval(c, g, leaf.e, s).Some? && leaf.address + SizeOf(leaf.ty) <= M64
    ensures c.frame.Visible(leaf.address, SizeOf(leaf.ty))
    ensures var r := Eval(c, g, leaf.e, s).value;
      StoreLeaves(c, g, [leaf], s).value ==
      r.s.(mem := Write(r.s.mem, leaf.address, BytesOf(Convert(leaf.ty, r.v), SizeOf(leaf.ty))))
  {
    hide Eval, BytesOf, Convert, Write;
    assert [leaf][1..] == [];
    assert StoreLeaves(c, g, [leaf], s) == StoreLeaf(c, g, leaf, s);
  }

  lemma OwnedPart(f: Frame, lo: nat, mid: nat, hi: nat)
    requires Owned(f, lo, hi) && mid <= hi
    ensures Owned(f, lo, mid)
  {
  }

  lemma OwnedTail(f: Frame, lo: nat, mid: nat, hi: nat)
    requires Owned(f, lo, hi) && lo <= mid
    ensures Owned(f, mid, hi)
  {
  }

  /** A write to memory changes neither variables nor temporaries. */
  lemma Stored(c: Context, g: Env, n: nat, m: State, m2: State, m': State, s: Config, a: int, bytes: seq<Byte>)
    requires Rel(c, g, s, m2) && Keeps(g, n, m, m2) && m' == m2.(mem := Write(m2.mem, a, bytes))
    ensures Rel(c, g, s.(mem := Write(s.mem, a, bytes)), m') && Keeps(g, n, m, m')
  {
    hide Write;
  }

  lemma SameMemory(c: Context, g: Env, s: Config, m: State)
    requires Rel(c, g, s, m)
    ensures s.mem == m.mem
  {
  }

  /** No list has more items than the elements it initialises, and braces around a scalar
      hold one item. */
  predicate Fitting(shape: Shape, init: Initial)
    decreases init, 1
  {
    init.Value? ||
    match shape
    case Plain(_) => |init.items| == 1 && Fitting(shape, init.items[0])
    case Row(elem, count) => |init.items| <= count && FittingRow(elem, init.items)
    case Record(members) => FittingRecord(members, init.items)
    case Choice(members) => |init.items| <= 1 && FittingRecord(members, init.items)
  }

  predicate FittingRow(elem: Shape, items: seq<Initial>)
    decreases items, 0
  {
    items == [] || (Fitting(elem, items[0]) && FittingRow(elem, items[1..]))
  }

  predicate FittingRecord(members: seq<Shape>, items: seq<Initial>)
    decreases items, 0
  {
    items == [] || (members != [] && Fitting(members[0], items[0]) && FittingRecord(members[1..], items[1..]))
  }

  /** Where the members end. */
  function End(offset: nat, members: seq<Shape>): nat { Layout.StructFields(offset, Fields(members), []).1 }

  lemma EndStep(offset: nat, members: seq<Shape>)
    ensures offset <= End(offset, members)
    ensures members != [] ==>
      var aligned := Layout.AlignUp(offset, Layout.AlignOf(Laid(members[0])));
      offset <= aligned && End(offset, members) == End(aligned + Bytes(members[0]), members[1..])
  {
    hide Layout.AlignOf, Layout.SizeOf, Layout.PadData, Layout.ZeroData;
    Layout.StructFieldsSize(offset, 1, Fields(members), []);
    if members != [] { Layout.AlignedUp(offset, Layout.AlignOf(Laid(members[0]))); }
  }

  lemma EndInside(members: seq<Shape>)
    ensures End(0, members) <= Bytes(Record(members))
  {
    Layout.StructFieldsSize(0, 1, Fields(members), []);
    Layout.EndsInside(Fields(members));
  }

  lemma FirstInside(members: seq<Shape>)
    requires members != []
    ensures Bytes(members[0]) <= Bytes(Choice(members))
  {
    assert Fields(members)[0].ty == Laid(members[0]);
    Layout.FieldInside(Laid(Choice(members)), 0);
  }

  /** An element at an offset of the object dst points to. */
  lemma {:induction false} ElementRuns(c: Context, g: Env, dst: Operand, offset: nat, shape: Shape, init: Initial,
      n: nat, s: Config, m: State, a: nat) returns (m': State)
    requires ElementCode(g, dst, offset, shape, init, n).Some? && Fitting(shape, init)
    requires Anchored(c, g, dst, n, m, a) && a + offset + Bytes(shape) < M64
    requires Starts(c, g, n, ElementCode(g, dst, offset, shape, init, n).value.next, s, m)
    requires StoreLeaves(c, g, Leaves(a + offset, shape, init), s).Some?
    ensures var code := ElementCode(g, dst, offset, shape, init, n).value;
      Reaches(c, g, n, code.next, code.instrs, m, s, StoreLeaves(c, g, Leaves(a + offset, shape, init), s).value, m')
    decreases init, 2
  {
    hide Rel, Runs, Ir.Value, WordOf, ScalarCode, ListCode, StoreLeaves, Copies.OffsetAddress, Owned, Keeps, Anchored,
        Bytes;
    var code := Copies.OffsetAddress(dst, offset, n);
    var next := ElementCode(g, dst, offset, shape, init, n).value.next;
    OwnedPart(c.frame, n, code.next, next);
    var m1 := OffsetRuns(c, g, dst, offset, n, s, m, a);
    StartsLater(c, g, n, code.next, next, code.instrs, m, m1, s, s);
    if shape.Plain? {
      m' := ScalarRuns(c, g, code.op, shape.ty, init, code.next, s, m1, a + offset);
    } else {
      m' := ListRuns(c, g, code.op, shape, init.items, code.next, s, m1, a + offset);
    }
    var w := if shape.Plain? then ScalarCode(g, code.op, shape.ty, init, code.next).value
        else ListCode(g, code.op, shape, init.items, code.next).value;
    ReachesBoth(c, g, n, code.next, w.next, code.instrs, w.instrs, m, m1, m', s, s,
        StoreLeaves(c, g, Leaves(a + offset, shape, init), s).value);
  }

  lemma {:induction false} ListRuns(c: Context, g: Env, dst: Operand, shape: Shape, items: seq<Initial>, n: nat,
      s: Config, m: State, a: nat) returns (m': State)
    requires !shape.Plain? && ListCode(g, dst, shape, items, n).Some? && Fitting(shape, List(items))
    requires Anchored(c, g, dst, n, m, a) && a + Bytes(shape) < M64
    requires Starts(c, g, n, ListCode(g, dst, shape, items, n).value.next, s, m)
    requires StoreLeaves(c, g, Leaves(a, shape, List(items)), s).Some?
    ensures var code := ListCode(g, dst, shape, items, n).value;
      Reaches(c, g, n, code.next, code.instrs, m, s, StoreLeaves(c, g, Leaves(a, shape, List(items)), s).value, m')
    decreases items, 2
  {
    hide Rel, Runs, Ir.Value, WordOf, ElementCode, RowCode, RecordCode, Owned, Keeps, Anchored, RowLeaves, RecordLeaves,
        Reaches, Bytes;
    match shape
    case Row(elem, count) =>
      RowInside(elem, count, |items|);
      m' := RowRuns(c, g, dst, elem, 0, items, n, s, m, a);
    case Record(members) =>
      EndInside(members);
      m' := RecordRuns(c, g, dst, 0, members, items, n, s, m, a);
    case Choice(members) =>
      if members == [] || items == [] {
        NothingRuns(c, g, n, m, s);
        m' := m;
      } else {
        FirstInside(members);
        m' := ElementRuns(c, g, dst, 0, members[0], items[0], n, s, m, a);
      }
  }

  lemma NothingRuns(c: Context, g: Env, n: nat, m: State, s: Config)
    requires Rel(c, g, s, m)
    ensures Reaches(c, g, n, n, [], m, s, s, m)
  {
    ReachesNone(c, g, n, m, s);
  }

  lemma RowInside(elem: Shape, count: nat, n: nat)
    requires n <= count
    ensures Rows(n, elem) <= Bytes(Row(elem, count))
  {
    hide Layout.SizeOf;
    Initialisers.ArrayIs(Laid(elem), count);
    Initialisers.Scaled(Bytes(elem), n, count);
  }

  lemma {:induction false} RowRuns(c: Context, g: Env, dst: Operand, elem: Shape, index: nat, items: seq<Initial>,
      n: nat, s: Config, m: State, a: nat) returns (m': State)
    requires RowCode(g, dst, elem, index, items, n).Some? && FittingRow(elem, items)
    requires Anchored(c, g, dst, n, m, a) && a + Rows(index + |items|, elem) < M64
    requires Starts(c, g, n, RowCode(g, dst, elem, index, items, n).value.next, s, m)
    requires StoreLeaves(c, g, RowLeaves(a, elem, index, items), s).Some?
    ensures var code := RowCode(g, dst, elem, index, items, n).value;
      Reaches(c, g, n, code.next, code.instrs, m, s, StoreLeaves(c, g, RowLeaves(a, elem, index, items), s).value, m')
    decreases items, 1
  {
    hide Rel, Runs, Ir.Value, WordOf, ElementCode, Owned, Keeps, Anchored, Leaves, StoreLeaves, Reaches, Bytes, Rows,
        Fitting;
    if items == [] {
      NothingRuns(c, g, n, m, s);
      NoLeaves(c, g, s);
      m' := m;
    } else {
      OneMore(index, |items|, elem);
      var first := Leaves(a + Rows(index, elem), elem, items[0]);
      var rest := RowLeaves(a, elem, index + 1, items[1..]);
      var code := ElementCode(g, dst, Rows(index, elem), elem, items[0], n).value;
      var next := RowCode(g, dst, elem, index, items, n).value.next;
      StoreBoth(c, g, first, rest, s);
      StartsPart(c, g, n, code.next, next, s, m);
      var m1 := ElementRuns(c, g, dst, Rows(index, elem), elem, items[0], n, s, m, a);
      var s1 := StoreLeaves(c, g, first, s).value;
      Later(c, g, dst, n, code.next, next, code.instrs, m, m1, s, s1, a);
      m' := RowRuns(c, g, dst, elem, index + 1, items[1..], code.next, s1, m1, a);
      var w := RowCode(g, dst, elem, index + 1, items[1..], code.next).value;
      ReachesBoth(c, g, n, code.next, w.next, code.instrs, w.instrs, m, m1, m', s, s1,
          StoreLeaves(c, g, rest, s1).value);
    }
  }

  lemma NoLeaves(c: Context, g: Env, s: Config)
    ensures StoreLeaves(c, g, [], s) == Some(s)
  {
  }

  lemma OneMore(index: nat, n: nat, elem: Shape)
    requires n > 0
    ensures Rows(index, elem) + Bytes(elem) <= Rows(index + n, elem)
    ensures Rows(index + 1 + (n - 1), elem) == Rows(index + n, elem)
  {
    hide Bytes;
    Split(index + 1, n - 1, Bytes(elem));
    Split(index, 1, Bytes(elem));
  }

  lemma Split(x: nat, y: nat, size: nat)
    ensures (x + y) * size == x * size + y * size
  {
  }

  lemma StartsPart(c: Context, g: Env, n: nat, mid: nat, next: nat, s: Config, m: State)
    requires Starts(c, g, n, next, s, m) && mid <= next
    ensures Starts(c, g, n, mid, s, m) && Rel(c, g, s, m)
  {
    hide Rel;
  }

  /** Between two elements. */
  lemma Later(c: Context, g: Env, dst: Operand, n: nat, mid: nat, next: nat, instrs: seq<Instr>, m: State, m1: State,
      s: Config, s1: Config, a: nat)
    requires Starts(c, g, n, next, s, m) && Reaches(c, g, n, mid, instrs, m, s, s1, m1) && mid <= next
    requires Anchored(c, g, dst, n, m, a)
    ensures Starts(c, g, mid, next, s1, m1) && Anchored(c, g, dst, mid, m1, a)
  {
    hide Rel, Runs, Anchored, Keeps;
    StartsLater(c, g, n, mid, next, instrs, m, m1, s, s1);
    AnchoredStays(c, g, dst, n, mid, m, m1, a);
  }

  lemma {:induction false} RecordRuns(c: Context, g: Env, dst: Operand, offset: nat, members: seq<Shape>,
      items: seq<Initial>, n: nat, s: Config, m: State, a: nat) returns (m': State)
    requires RecordCode(g, dst, offset, members, items, n).Some? && FittingRecord(members, items)
    requires Anchored(c, g, dst, n, m, a) && a + End(offset, members) < M64
    requires Starts(c, g, n, RecordCode(g, dst, offset, members, items, n).value.next, s, m)
    requires StoreLeaves(c, g, RecordLeaves(a, offset, members, items), s).Some?
    ensures var code := RecordCode(g, dst, offset, members, items, n).value;
      Reaches(c, g, n, code.next, code.instrs, m, s,
          StoreLeaves(c, g, RecordLeaves(a, offset, members, items), s).value, m')
    decreases items, 1
  {
    hide Rel, Runs, Ir.Value, WordOf, ElementCode, Owned, Keeps, Anchored, Leaves, StoreLeaves, Reaches, Bytes, Fitting,
        End, Layout.AlignUp, Layout.AlignOf;
    if members == [] || items == [] {
      NothingRuns(c, g, n, m, s);
      NoLeaves(c, g, s);
      m' := m;
    } else {
      var size, aligned := Bytes(members[0]), Layout.AlignUp(offset, Layout.AlignOf(Laid(members[0])));
      EndStep(offset, members);
      EndStep(aligned + size, members[1..]);
      var first := Leaves(a + aligned, members[0], items[0]);
      var rest := RecordLeaves(a, aligned + size, members[1..], items[1..]);
      var code := ElementCode(g, dst, aligned, members[0], items[0], n).value;
      var next := RecordCode(g, dst, offset, members, items, n).value.next;
      StoreBoth(c, g, first, rest, s);
      StartsPart(c, g, n, code.next, next, s, m);
      var m1 := ElementRuns(c, g, dst, aligned, members[0], items[0], n, s, m, a);
      var s1 := StoreLeaves(c, g, first, s).value;
      Later(c, g, dst, n, code.next, next, code.instrs, m, m1, s, s1, a);
      m' := RecordRuns(c, g, dst, aligned + size, members[1..], items[1..], code.next, s1, m1, a);
      var w := RecordCode(g, dst, aligned + size, members[1..], items[1..], code.next).value;
      ReachesBoth(c, g, n, code.next, w.next, code.instrs, w.instrs, m, m1, m', s, s1,
          StoreLeaves(c, g, rest, s1).value);
    }
  }

  /** The code of a local object with a list leaves what C's initialisation of it does. */
  lemma ObjectRuns(c: Context, g: Env, dst: Operand, shape: Shape, items: seq<Initial>, n: nat, s: Config, m: State,
      a: nat) returns (m': State)
    requires !shape.Plain? && ObjectCode(g, dst, shape, items, n).Some? && Fitting(shape, List(items))
    requires Anchored(c, g, dst, n, m, a) && Initialised(c, g, a, shape, items, s).Some?
    requires Starts(c, g, n, ObjectCode(g, dst, shape, items, n).value.next, s, m)
    ensures var code := ObjectCode(g, dst, shape, items, n).value;
      Reaches(c, g, n, code.next, code.instrs, m, s, Initialised(c, g, a, shape, items, s).value, m')
  {
    hide Runs, Ir.Value, WordOf, ListCode, Leaves, StoreLeaves, Bytes, Fitting, Write, Copies.ZeroBytes, Copies.Filled,
        Frame.Visible;
    var size := Bytes(shape);
    var zero := Copies.ZeroBytes(dst, 0, size, n);
    var next := ObjectCode(g, dst, shape, items, n).value.next;
    OwnedPart(c.frame, n, zero.next, next);
    var m1 := Copies.ZeroRuns(c, dst, 0, size, n, m, a);
    var s1 := Cleared(a, size, s);
    assert Keeps(g, n, m, m1) && Rel(c, g, s1, m1);
    Later(c, g, dst, n, zero.next, next, zero.instrs, m, m1, s, s1, a);
    m' := ListRuns(c, g, dst, shape, items, zero.next, s1, m1, a);
    var w := ListCode(g, dst, shape, items, zero.next).value;
    ReachesBoth(c, g, n, zero.next, w.next, zero.instrs, w.instrs, m, m1, m', s, s1,
        StoreLeaves(c, g, Leaves(a, shape, List(items)), s1).value);
  }

  // ---- Constants leave the static data -----------------------------------------------------------

  /** An expression with the same value everywhere, and no effects. */
  ghost predicate Constant(c: Context, g: Env, e: Expr, v: int) { forall s :: Eval(c, g, e, s) == Some(Res(v, s)) }

  function DataOf(bytes: seq<Byte>): (data: seq<Layout.DataValue>)
    ensures |data| == |bytes| && forall i :: 0 <= i < |bytes| ==> data[i] == Layout.DataByte(bytes[i])
  {
    seq(|bytes|, i requires 0 <= i < |bytes| => Layout.DataByte(bytes[i]))
  }

  /** The data is that of a constant converted to the type. */
  ghost predicate ConstantData(c: Context, g: Env, e: Expr, ty: CType, data: Initialisers.Init)
  {
    data.Leaf? && exists v :: Constant(c, g, e, v) && data.data == DataOf(BytesOf(Convert(ty, v), SizeOf(ty)))
  }

  /** The static initialiser of the same list. */
  ghost predicate Spelt(c: Context, g: Env, shape: Shape, init: Initial, data: Initialisers.Init)
    decreases init, 1
  {
    match init
    case Value(e) => shape.Plain? && ConstantData(c, g, e, shape.ty, data)
    case List(items) =>
      data.Braces? && |data.items| == |items| &&
      match shape
      case Plain(_) => |items| == 1 && Spelt(c, g, shape, items[0], data.items[0])
      case Row(elem, _) => SpeltRow(c, g, elem, items, data.items)
      case Record(members) => SpeltRecord(c, g, members, items, data.items)
      case Choice(members) => SpeltRecord(c, g, members, items, data.items)
  }

  ghost predicate SpeltRow(c: Context, g: Env, elem: Shape, items: seq<Initial>, data: seq<Initialisers.Init>)
    requires |items| == |data|
    decreases items, 0
  {
    items == [] || (Spelt(c, g, elem, items[0], data[0]) && SpeltRow(c, g, elem, items[1..], data[1..]))
  }

  ghost predicate SpeltRecord(c: Context, g: Env, members: seq<Shape>, items: seq<Initial>,
      data: seq<Initialisers.Init>)
    requires |items| == |data|
    decreases items, 0
  {
    items == [] || members == [] ||
    (Spelt(c, g, members[0], items[0], data[0]) && SpeltRecord(c, g, members[1..], items[1..], data[1..]))
  }

  lemma {:induction false} LaidFits(c: Context, g: Env, shape: Shape, init: Initial, data: Initialisers.Init)
    requires Fitting(shape, init) && Spelt(c, g, shape, init, data)
    ensures Initialisers.Fitting(Laid(shape), data)
    decreases init, 1
  {
    hide ConstantData, Layout.SizeOf;
    match init
    case Value(e) => ScalarFits(c, g, e, shape.ty, data);
    case List(items) =>
      match shape
      case Plain(_) => LaidFits(c, g, shape, items[0], data.items[0]);
      case Row(elem, _) => RowFits(c, g, elem, items, data.items);
      case Record(members) => RecordFits(c, g, members, items, data.items);
      case Choice(members) => RecordFits(c, g, members, items, data.items);
  }

  lemma ScalarFits(c: Context, g: Env, e: Expr, ty: CType, data: Initialisers.Init)
    requires ConstantData(c, g, e, ty, data)
    ensures Initialisers.Fitting(Layout.Scalar(SizeOf(ty)), data)
  {
    hide Constant, BytesOf, Convert, DataOf;
    var v :| Constant(c, g, e, v) && data.data == DataOf(BytesOf(Convert(ty, v), SizeOf(ty)));
    CellsOfBytes(BytesOf(Convert(ty, v), SizeOf(ty)));
  }

  lemma {:induction false} RowFits(c: Context, g: Env, elem: Shape, items: seq<Initial>, data: seq<Initialisers.Init>)
    requires |items| == |data| && FittingRow(elem, items) && SpeltRow(c, g, elem, items, data)
    ensures Initialisers.FittingArray(Laid(elem), data)
    decreases items, 0
  {
    hide Spelt, Fitting, Initialisers.Fitting, Laid;
    if items != [] {
      LaidFits(c, g, elem, items[0], data[0]);
      RowFits(c, g, elem, items[1..], data[1..]);
    }
  }

  lemma {:induction false} RecordFits(c: Context, g: Env, members: seq<Shape>, items: seq<Initial>,
      data: seq<Initialisers.Init>)
    requires |items| == |data| && FittingRecord(members, items) && SpeltRecord(c, g, members, items, data)
    ensures Initialisers.FittingFields(Fields(members), data)
    decreases items, 0
  {
    hide Spelt, Fitting, Initialisers.Fitting, Laid;
    if items != [] {
      LaidFits(c, g, members[0], items[0], data[0]);
      RecordFits(c, g, members[1..], items[1..], data[1..]);
      assert Fields(members)[1..] == Fields(members[1..]);
    }
  }

  /** A leaf, and the abstract store of the same place and data. */
  ghost predicate Matches(c: Context, g: Env, a: nat, leaf: Leaf, w: Initialisers.Write)
  {
    && leaf.address == a + w.offset && w.ty == Layout.Scalar(SizeOf(leaf.ty))
    && ConstantData(c, g, leaf.e, leaf.ty, w.init)
  }

  ghost predicate AllMatch(c: Context, g: Env, a: nat, leaves: seq<Leaf>, writes: seq<Initialisers.Write>)
  {
    |leaves| == |writes| && forall k :: 0 <= k < |leaves| ==> Matches(c, g, a, leaves[k], writes[k])
  }

  lemma MatchBoth(c: Context, g: Env, a: nat, x: seq<Leaf>, y: seq<Leaf>, v: seq<Initialisers.Write>,
      w: seq<Initialisers.Write>)
    requires AllMatch(c, g, a, x, v) && AllMatch(c, g, a, y, w)
    ensures AllMatch(c, g, a, x + y, v + w)
  {
    hide Matches;
  }

  lemma {:induction false} LeavesMatch(c: Context, g: Env, a: nat, offset: nat, shape: Shape, init: Initial,
      data: Initialisers.Init)
    requires Fitting(shape, init) && Spelt(c, g, shape, init, data)
    ensures AllMatch(c, g, a, Leaves(a + offset, shape, init), Initialisers.ElementWrites(offset, Laid(shape), data))
    decreases init, 1
  {
    hide Constant, BytesOf, Convert, DataOf, RowLeaves, RecordLeaves, Initialisers.ArrayWrites,
        Initialisers.StructWrites;
    match init
    case Value(e) =>
    case List(items) =>
      match shape
      case Plain(_) => LeavesMatch(c, g, a, offset, shape, items[0], data.items[0]);
      case Row(elem, _) => RowMatches(c, g, a, offset, elem, 0, items, data.items);
      case Record(members) => RecordMatches(c, g, a, offset, 0, members, items, data.items);
      case Choice(members) =>
        if members != [] && items != [] { LeavesMatch(c, g, a, offset, members[0], items[0], data.items[0]); }
  }

  lemma {:induction false} RowMatches(c: Context, g: Env, a: nat, offset: nat, elem: Shape, index: nat,
      items: seq<Initial>, data: seq<Initialisers.Init>)
    requires |items| == |data| && FittingRow(elem, items) && SpeltRow(c, g, elem, items, data)
    ensures AllMatch(c, g, a, RowLeaves(a + offset, elem, index, items),
        Initialisers.ArrayWrites(offset, Laid(elem), index, data))
    decreases items, 0
  {
    hide Matches, Spelt, Fitting, Leaves, Initialisers.ElementWrites, Laid, Layout.SizeOf;
    if items != [] {
      var at := offset + Rows(index, elem);
      LeavesMatch(c, g, a, at, elem, items[0], data[0]);
      RowMatches(c, g, a, offset, elem, index + 1, items[1..], data[1..]);
      assert a + offset + Rows(index, elem) == a + at;
      MatchBoth(c, g, a, Leaves(a + at, elem, items[0]), RowLeaves(a + offset, elem, index + 1, items[1..]),
          Initialisers.ElementWrites(at, Laid(elem), data[0]),
          Initialisers.ArrayWrites(offset, Laid(elem), index + 1, data[1..]));
    }
  }

  lemma {:induction false} RecordMatches(c: Context, g: Env, a: nat, start: nat, offset: nat, members: seq<Shape>,
      items: seq<Initial>, data: seq<Initialisers.Init>)
    requires |items| == |data| && FittingRecord(members, items) && SpeltRecord(c, g, members, items, data)
    ensures AllMatch(c, g, a, RecordLeaves(a + start, offset, members, items),
        Initialisers.StructWrites(start, offset, Fields(members), data))
    decreases items, 0
  {
    hide Matches, Spelt, Fitting, Leaves, Initialisers.ElementWrites, Laid, Layout.SizeOf, Layout.AlignOf,
        Layout.AlignUp;
    if items != [] {
      var aligned := Layout.AlignUp(offset, Layout.AlignOf(Laid(members[0])));
      var next := aligned + Bytes(members[0]);
      LeavesMatch(c, g, a, start + aligned, members[0], items[0], data[0]);
      RecordMatches(c, g, a, start, next, members[1..], items[1..], data[1..]);
      assert Fields(members)[1..] == Fields(members[1..]);
      assert a + start + aligned == a + (start + aligned);
      MatchBoth(c, g, a, Leaves(a + (start + aligned), members[0], items[0]),
          RecordLeaves(a + start, next, members[1..], items[1..]),
          Initialisers.ElementWrites(start + aligned, Laid(members[0]), data[0]),
          Initialisers.StructWrites(start, next, Fields(members[1..]), data[1..]));
    }
  }

  /** Memory from a on holds these bytes. */
  ghost predicate Holds(mem: Mem, a: int, cells: seq<Initialisers.Cell>)
  {
    forall i :: 0 <= i < |cells| ==> cells[i] == Initialisers.ByteCell(At(mem, a + i))
  }

  ghost predicate SameOutside(mem: Mem, mem': Mem, a: int, n: nat)
  {
    forall x :: !(a <= x < a + n) ==> At(mem', x) == At(mem, x)
  }

  lemma {:induction false} CellsOfBytes(bytes: seq<Byte>)
    ensures var data := DataOf(bytes);
      && Layout.DataSize(data) == |bytes| && |Initialisers.Cells(data)| == |bytes|
      && forall i :: 0 <= i < |bytes| ==> Initialisers.Cells(data)[i] == Initialisers.ByteCell(bytes[i])
    decreases |bytes|
  {
    hide DataOf;
    if bytes != [] {
      CellsOfBytes(bytes[1..]);
      assert DataOf(bytes)[1..] == DataOf(bytes[1..]);
    }
  }

  /** One store, in memory and in the list of bytes. */
  lemma OneHolds(c: Context, g: Env, a: nat, leaf: Leaf, w: Initialisers.Write, s: Config,
      cells: seq<Initialisers.Cell>)
    requires Matches(c, g, a, leaf, w) && Holds(s.mem, a, cells) && Initialisers.Stored(cells, [w]).Some?
    requires a + |cells| <= M64 && c.frame.Visible(a, |cells|)
    ensures StoreLeaf(c, g, leaf, s).Some?
    ensures var s1 := StoreLeaf(c, g, leaf, s).value;
      && s1.vars == s.vars && s1.trace == s.trace && SameOutside(s.mem, s1.mem, a, |cells|)
      && |Initialisers.Stored(cells, [w]).value| == |cells|
      && Holds(s1.mem, a, Initialisers.Stored(cells, [w]).value)
  {
    hide Constant, BytesOf, Convert, Write, Initialisers.Cells, Layout.PadData, Layout.DataSize, Eval, Frame.Hidden;
    var v :| Constant(c, g, leaf.e, v) && w.init.data == DataOf(BytesOf(Convert(leaf.ty, v), SizeOf(leaf.ty)));
    var bytes := BytesOf(Convert(leaf.ty, v), SizeOf(leaf.ty));
    CellsOfBytes(bytes);
    Layout.PadExact(|bytes|, DataOf(bytes));
    Layout.NoZeros(DataOf(bytes));
    Everywhere(c, g, leaf.e, v, s);
    assert [w][1..] == [];
    var end := w.offset + |bytes|;
    var after := cells[..w.offset] + Initialisers.Cells(DataOf(bytes)) + cells[end..];
    assert Initialisers.Stored(cells, [w]) == Some(after);
    var mem1 := Write(s.mem, leaf.address, bytes);
    forall i | 0 <= i < |after| ensures after[i] == Initialisers.ByteCell(At(mem1, a + i)) {
      if w.offset <= i < end { assert after[i] == Initialisers.Cells(DataOf(bytes))[i - w.offset]; }
      else { assert after[i] == cells[i]; }
    }
  }

  lemma Everywhere(c: Context, g: Env, e: Expr, v: int, s: Config)
    requires Constant(c, g, e, v)
    ensures Eval(c, g, e, s) == Some(Res(v, s))
  {
    hide Eval;
  }

  lemma StoredFirst(cells: seq<Initialisers.Cell>, writes: seq<Initialisers.Write>)
    requires writes != [] && Initialisers.Stored(cells, writes).Some?
    ensures Initialisers.Stored(cells, [writes[0]]).Some?
    ensures Initialisers.Stored(cells, writes) ==
        Initialisers.Stored(Initialisers.Stored(cells, [writes[0]]).value, writes[1..])
  {
    hide Initialisers.Cells, Layout.PadData;
    assert [writes[0]][1..] == [];
  }

  lemma {:induction false} StoresHold(c: Context, g: Env, a: nat, leaves: seq<Leaf>, writes: seq<Initialisers.Write>,
      s: Config, cells: seq<Initialisers.Cell>)
    requires AllMatch(c, g, a, leaves, writes) && Holds(s.mem, a, cells) && Initialisers.Stored(cells, writes).Some?
    requires a + |cells| <= M64 && c.frame.Visible(a, |cells|)
    ensures StoreLeaves(c, g, leaves, s).Some?
    ensures var s' := StoreLeaves(c, g, leaves, s).value;
      && s'.vars == s.vars && s'.trace == s.trace && SameOutside(s.mem, s'.mem, a, |cells|)
      && Holds(s'.mem, a, Initialisers.Stored(cells, writes).value)
    decreases |leaves|
  {
    hide Matches, Holds, StoreLeaf, Frame.Visible, At;
    if leaves != [] {
      hide Initialisers.Stored;
      StoredFirst(cells, writes);
      OneHolds(c, g, a, leaves[0], writes[0], s, cells);
      var s1 := StoreLeaf(c, g, leaves[0], s).value;
      StoresHold(c, g, a, leaves[1..], writes[1..], s1, Initialisers.Stored(cells, [writes[0]]).value);
    }
  }

  /** A list of constants leaves in the object exactly the bytes of the static data the same
      list becomes, and changes nothing else. */
  lemma ConstantsLeaveData(c: Context, g: Env, a: nat, shape: Shape, items: seq<Initial>, data: Initialisers.Init,
      s: Config)
    requires Fitting(shape, List(items)) && Spelt(c, g, shape, List(items), data)
    requires a + Bytes(shape) < M64 && c.frame.Visible(a, Bytes(shape))
    ensures Initialised(c, g, a, shape, items, s).Some?
    ensures var s' := Initialised(c, g, a, shape, items, s).value;
      && s'.vars == s.vars && s'.trace == s.trace && SameOutside(s.mem, s'.mem, a, Bytes(shape))
      && Holds(s'.mem, a, Initialisers.Cells(Initialisers.GlobalData(Laid(shape), data)))
  {
    hide Fitting, Spelt, Frame.Visible, StoreLeaves, Leaves, Write, Initialisers.Stored, Initialisers.Fitting,
        Initialisers.ElementWrites, Layout.SizeOf, Laid, Initialisers.Cells, Initialisers.GlobalData;
    var size := Bytes(shape);
    LaidFits(c, g, shape, List(items), data);
    Initialisers.ClearedAndStored(Laid(shape), data);
    LeavesMatch(c, g, a, 0, shape, List(items), data);
    var s1 := Cleared(a, size, s);
    assert Holds(s1.mem, a, Initialisers.Zeros(size));
    StoresHold(c, g, a, Leaves(a + 0, shape, List(items)), Initialisers.ElementWrites(0, Laid(shape), data), s1,
        Initialisers.Zeros(size));
  }

  /** The run-time code of a local object whose items are constants leaves in it the bytes
      the same list has as static data. */
  lemma ObjectHoldsData(c: Context, g: Env, dst: Operand, shape: Shape, items: seq<Initial>, data: Initialisers.Init,
      n: nat, s: Config, m: State, a: nat) returns (m': State)
    requires !shape.Plain? && ObjectCode(g, dst, shape, items, n).Some?
    requires Fitting(shape, List(items)) && Spelt(c, g, shape, List(items), data)
    requires a + Bytes(shape) < M64 && c.frame.Visible(a, Bytes(shape)) && Anchored(c, g, dst, n, m, a)
    requires Starts(c, g, n, ObjectCode(g, dst, shape, items, n).value.next, s, m)
    ensures Runs(c, ObjectCode(g, dst, shape, items, n).value.instrs, m, m') && Keeps(g, n, m, m')
    ensures Holds(m'.mem, a, Initialisers.Cells(Initialisers.GlobalData(Laid(shape), data)))
    ensures SameOutside(m.mem, m'.mem, a, Bytes(shape))
  {
    hide Fitting, Spelt, Frame.Visible, ObjectCode, Initialised, Laid, Initialisers.Cells, Initialisers.GlobalData,
        Runs, Keeps, Holds, SameOutside, Bytes, Anchored, Owned;
    ConstantsLeaveData(c, g, a, shape, items, data, s);
    m' := ObjectRuns(c, g, dst, shape, items, n, s, m, a);
    SameMemory(c, g, s, m);
    SameMemory(c, g, Initialised(c, g, a, shape, items, s).value, m');
  }
}
