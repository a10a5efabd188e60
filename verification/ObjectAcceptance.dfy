/** Which initialiser lists of local objects the compiler accepts. */
module ObjectAcceptance {
  import opened Options
  import opened CTypes
  import opened Source
  import opened Lowering
  import opened Typing
  import opened Acceptance
  import opened Objects
  import Copies
  import Ir
  import Layout

  /** A scalar takes a well-formed expression, perhaps in braces; an aggregate takes a list
      whose items its elements take in turn, a union's only its first. Items past the last
      element are ignored. */
  ghost predicate Takes(g: Env, shape: Shape, init: Initial)
  {
    match init
    case Value(e) => shape.Plain? && WellTyped(g, e)
    case List(items) =>
      match shape
      case Plain(_) => |items| == 1 && Takes(g, shape, items[0])
      case Row(elem, _) => forall k :: 0 <= k < |items| ==> Takes(g, elem, items[k])
      case Record(members) => forall k :: 0 <= k < |items| && k < |members| ==> Takes(g, members[k], items[k])
      case Choice(members) => members != [] && items != [] ==> Takes(g, members[0], items[0])
  }

  lemma {:induction false} ElementAccepted(g: Env, dst: Ir.Operand, offset: nat, shape: Shape, init: Initial, n: nat)
    ensures ElementCode(g, dst, offset, shape, init, n).Some? <==> Takes(g, shape, init)
    decreases init, 2
  {
    hide ScalarCode, ListCode, Copies.OffsetAddress, WellTyped;
    var a := Copies.OffsetAddress(dst, offset, n);
    if shape.Plain? {
      ScalarAccepted(g, a.op, shape.ty, init, a.next);
    } else if init.List? {
      ListAccepted(g, a.op, shape, init.items, a.next);
    }
  }

  lemma {:induction false} ScalarAccepted(g: Env, a: Ir.Operand, ty: CType, init: Initial, n: nat)
    ensures ScalarCode(g, a, ty, init, n).Some? <==> Takes(g, Plain(ty), init)
    decreases init, 1
  {
    hide LowerExpr, Coerce, WellTyped;
    match init
    case Value(e) => ExprAccepted(g, e, n);
    case List(items) => if |items| == 1 { ScalarAccepted(g, a, ty, items[0], n); }
  }

  lemma {:induction false} ListAccepted(g: Env, dst: Ir.Operand, shape: Shape, items: seq<Initial>, n: nat)
    requires !shape.Plain?
    ensures ListCode(g, dst, shape, items, n).Some? <==> Takes(g, shape, List(items))
    decreases items, 1
  {
    hide RowCode, RecordCode, ElementCode, WellTyped;
    match shape
    case Row(elem, _) => RowAccepted(g, dst, elem, 0, items, n);
    case Record(members) => RecordAccepted(g, dst, 0, members, items, n);
    case Choice(members) => if members != [] && items != [] { ElementAccepted(g, dst, 0, members[0], items[0], n); }
  }

  lemma {:induction false} RowAccepted(g: Env, dst: Ir.Operand, elem: Shape, index: nat, items: seq<Initial>, n: nat)
    ensures RowCode(g, dst, elem, index, items, n).Some? <==> forall k :: 0 <= k < |items| ==> Takes(g, elem, items[k])
    decreases items, 0
  {
    hide ElementCode, Takes, Rows;
    if items != [] {
      ElementAccepted(g, dst, Rows(index, elem), elem, items[0], n);
      var first := ElementCode(g, dst, Rows(index, elem), elem, items[0], n);
      if first.Some? { RowAccepted(g, dst, elem, index + 1, items[1..], first.value.next); }
      assert forall k :: 1 <= k < |items| ==> items[k] == items[1..][k - 1];
      if forall k :: 0 <= k < |items| ==> Takes(g, elem, items[k]) {
        assert forall k :: 0 <= k < |items[1..]| ==> items[1..][k] == items[k + 1];
      }
    }
  }

  lemma {:induction false} RecordAccepted(g: Env, dst: Ir.Operand, offset: nat, members: seq<Shape>,
      items: seq<Initial>, n: nat)
    ensures RecordCode(g, dst, offset, members, items, n).Some? <==>
      forall k :: 0 <= k < |items| && k < |members| ==> Takes(g, members[k], items[k])
    decreases items, 0
  {
    hide ElementCode, Takes, Bytes, Layout.AlignUp, Layout.AlignOf, Laid;
    if members != [] && items != [] {
      var aligned := Layout.AlignUp(offset, Layout.AlignOf(Laid(members[0])));
      ElementAccepted(g, dst, aligned, members[0], items[0], n);
      var first := ElementCode(g, dst, aligned, members[0], items[0], n);
      if first.Some? {
        RecordAccepted(g, dst, aligned + Bytes(members[0]), members[1..], items[1..], first.value.next);
      }
      TailTakes(g, members, items);
    }
  }

  lemma TailTakes(g: Env, members: seq<Shape>, items: seq<Initial>)
    requires members != [] && items != []
    ensures (forall k :: 0 <= k < |items| && k < |members| ==> Takes(g, members[k], items[k])) <==>
      Takes(g, members[0], items[0]) &&
      forall k :: 0 <= k < |items[1..]| && k < |members[1..]| ==> Takes(g, members[1..][k], items[1..][k])
  {
    hide Takes;
    if Takes(g, members[0], items[0]) &&
        forall k :: 0 <= k < |items[1..]| && k < |members[1..]| ==> Takes(g, members[1..][k], items[1..][k]) {
      forall k | 0 <= k < |items| && k < |members| ensures Takes(g, members[k], items[k]) {
        if k > 0 { assert members[k] == members[1..][k - 1] && items[k] == items[1..][k - 1]; }
      }
    }
  }

  /** The declaration of an aggregate with a list compiles exactly when the aggregate takes it. */
  lemma ObjectAccepted(g: Env, dst: Ir.Operand, shape: Shape, items: seq<Initial>, n: nat)
    requires !shape.Plain?
    ensures ObjectCode(g, dst, shape, items, n).Some? <==> Takes(g, shape, List(items))
  {
    hide ListCode, Takes, Copies.ZeroBytes, Bytes;
    ListAccepted(g, dst, shape, items, Copies.ZeroBytes(dst, 0, Bytes(shape), n).next);
  }
}
