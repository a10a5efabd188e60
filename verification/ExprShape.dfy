/** Lowered expressions define exactly the fresh temporaries they number. */
module ExprShape {
  import opened Options
  import opened Words
  import opened Ir
  import opened Allocation
  import opened CTypes
  import opened Source
  import opened Lowering
  import opened Shape

  ghost predicate Good(g: Env, base: nat, n: nat, code: Code)
  {
    VarsBelow(g, base) && Fresh(g, base, n, code.next, code.instrs) && Known(g, base, code.next, code.op)
  }

  lemma CoerceGood(g: Env, base: nat, ty: CType, op: Operand, n: nat)
    requires VarsBelow(g, base) && base <= n && Known(g, base, n, op)
    ensures Good(g, base, n, Coerce(ty, op, n))
  {
    hide Fresh;
    Nothing(g, base, n);
    if ty.Bool? && ImmediateValue(op).None? {
      Next(g, base, n, Bin(n, Ne, op, Imm(0)));
    } else if !ty.Bool? && IsInteger(ty) && SizeOf(ty) < 8 && CoerceImmediate(ty, op).None? {
      Next(g, base, n, Ext(n, !IsUnsigned(ty), SizeOf(ty), op));
    }
  }

  lemma ThenGood(g: Env, base: nat, n: nat, a: Code, ty: CType)
    requires Good(g, base, n, a)
    ensures Good(g, base, n, Then(ty, a))
  {
    hide Shaped, Coerce;
    var cc := Coerce(ty, a.op, a.next);
    CoerceGood(g, base, ty, a.op, a.next);
    Both(g, base, n, a.next, cc.next, a.instrs, cc.instrs);
  }

  /** Code, then an instruction into the next fresh temporary. */
  lemma StepGood(g: Env, base: nat, n: nat, mid: nat, list: seq<Instr>, i: Instr)
    requires VarsBelow(g, base) && Fresh(g, base, n, mid, list) && Flat(i) &&
        (forall t: nat :: Defines(i, t) <==> t == mid)
    requires forall k :: 0 <= k < |Reads(i)| ==> Known(g, base, mid, Reads(i)[k])
    ensures Fresh(g, base, n, mid + 1, list + [i])
  {
    hide Shaped;
    Next(g, base, mid, i);
    Both(g, base, n, mid, mid + 1, list, [i]);
  }

  /** Code, then a conversion of op. */
  lemma CoercedGood(g: Env, base: nat, n: nat, mid: nat, list: seq<Instr>, ty: CType, op: Operand)
    requires VarsBelow(g, base) && Fresh(g, base, n, mid, list) && Known(g, base, mid, op)
    ensures var cc := Coerce(ty, op, mid);
        Fresh(g, base, n, cc.next, list + cc.instrs) && Known(g, base, cc.next, cc.op)
  {
    hide Shaped, Coerce;
    CoerceGood(g, base, ty, op, mid);
    Both(g, base, n, mid, Coerce(ty, op, mid).next, list, Coerce(ty, op, mid).instrs);
  }

  lemma UnaryGood(g: Env, base: nat, n: nat, uop: UnaryOperator, ty: CType, a: Code)
    requires Good(g, base, n, a)
    ensures Good(g, base, n, LowerUnary(uop, ty, a))
  {
    hide Shaped, Coerce, Fresh;
    if uop.Plus? {
      ThenGood(g, base, n, a, Promote(ty));
    } else {
      var zero := a.next;
      FreshOrder(g, base, n, zero, a.instrs);
      StepGood(g, base, n, zero, a.instrs, Const(zero, 0));
      FreshOrder(g, base, n, zero + 1, a.instrs + [Const(zero, 0)]);
      if uop.Not? {
        StepGood(g, base, n, zero + 1, a.instrs + [Const(zero, 0)], Bin(zero + 1, Eq, a.op, Temp(zero)));
        assert a.instrs + [Const(zero, 0)] + [Bin(zero + 1, Eq, a.op, Temp(zero))] ==
            a.instrs + [Const(zero, 0), Bin(zero + 1, Eq, a.op, Temp(zero))];
      } else {
        NegateGood(g, base, n, uop, Promote(ty), a);
      }
    }
  }

  lemma NegateGood(g: Env, base: nat, n: nat, uop: UnaryOperator, ty: CType, a: Code)
    requires Good(g, base, n, a) && Fresh(g, base, n, a.next + 1, a.instrs + [Const(a.next, 0)])
    ensures Good(g, base, n, NegateCode(uop, ty, a))
  {
    hide Shaped, Coerce, Fresh;
    var zero := a.next;
    FreshOrder(g, base, n, zero, a.instrs);
    var negate := Bin(zero + 1, Sub, Temp(zero), a.op);
    StepGood(g, base, n, zero + 1, a.instrs + [Const(zero, 0)], negate);
    assert a.instrs + [Const(zero, 0)] + [negate] == a.instrs + [Const(zero, 0), negate];
    if uop.Minus? {
      CoercedGood(g, base, n, zero + 2, a.instrs + [Const(zero, 0), negate], ty, Temp(zero + 1));
    } else {
      var less := Bin(zero + 2, Sub, Temp(zero + 1), Imm(1));
      StepGood(g, base, n, zero + 2, a.instrs + [Const(zero, 0), negate], less);
      assert a.instrs + [Const(zero, 0), negate] + [less] == a.instrs + [Const(zero, 0), negate, less];
      CoercedGood(g, base, n, zero + 3, a.instrs + [Const(zero, 0), negate, less], ty, Temp(zero + 2));
    }
  }

  lemma FreshOrder(g: Env, base: nat, lo: nat, hi: nat, list: seq<Instr>)
    requires Fresh(g, base, lo, hi, list)
    ensures base <= lo <= hi
  {
  }

  /** Two operands, the second lowered after the first. */
  ghost predicate Pair(g: Env, base: nat, n: nat, a: Code, b: Code)
  {
    VarsBelow(g, base) && Fresh(g, base, n, b.next, a.instrs + b.instrs) && Known(g, base, b.next, a.op) &&
        Known(g, base, b.next, b.op)
  }

  lemma PairGood(g: Env, base: nat, n: nat, a: Code, b: Code)
    requires Good(g, base, n, a) && Good(g, base, a.next, b)
    ensures Pair(g, base, n, a, b)
  {
    hide Shaped;
    Both(g, base, n, a.next, b.next, a.instrs, b.instrs);
  }

  lemma ConvertedGood(g: Env, base: nat, n: nat, a: Code, b: Code, ty: CType)
    requires Pair(g, base, n, a, b)
    ensures var (ac, bc) := Converted(a, b, ty);
      && Fresh(g, base, n, bc.next, a.instrs + b.instrs + ac.instrs + bc.instrs)
      && Known(g, base, bc.next, ac.op) && Known(g, base, bc.next, bc.op)
  {
    hide Shaped, Coerce, Fresh;
    var (ac, bc) := Converted(a, b, ty);
    CoercedGood(g, base, n, b.next, a.instrs + b.instrs, ty, a.op);
    CoercedGood(g, base, n, ac.next, a.instrs + b.instrs + ac.instrs, ty, b.op);
  }

  lemma OperatorGood(g: Env, base: nat, n: nat, op: Operator, ta: CType, tb: CType, a: Code, b: Code)
    requires Pair(g, base, n, a, b) && LowerOperator(op, ta, tb, a, b).Some?
    ensures Good(g, base, n, LowerOperator(op, ta, tb, a, b).value)
  {
    hide Shaped, Coerce, Fresh, ArithmeticOp, RelationOp, ScaledOffset;
    FreshOrder(g, base, n, b.next, a.instrs + b.instrs);
    if IsRelation(op) {
      var ty := ComparedType(ta, tb).value;
      var (ac, bc) := Converted(a, b, ty);
      ConvertedGood(g, base, n, a, b, ty);
      StepGood(g, base, n, bc.next, a.instrs + b.instrs + ac.instrs + bc.instrs,
          Bin(bc.next, RelationOp(op, ty), ac.op, bc.op));
    } else if (op.OpAdd? && ta.Ptr?) || (op.OpSub? && ta.Ptr? && !tb.Ptr?) {
      OffsetGood(g, base, n, if op.OpAdd? then Add else Sub, a, b, SizeOf(ta.elem));
    } else if op.OpSub? && ta.Ptr? {
      var diff := Bin(b.next, Sub, a.op, b.op);
      var quotient := Bin(b.next + 1, Div, Temp(b.next), Imm(SizeOf(ta.elem)));
      StepGood(g, base, n, b.next, a.instrs + b.instrs, diff);
      StepGood(g, base, n, b.next + 1, a.instrs + b.instrs + [diff], quotient);
      assert a.instrs + b.instrs + [diff] + [quotient] == a.instrs + b.instrs + [diff, quotient];
    } else {
      var ty := OperationType(op, ta, tb).value;
      ArithmeticGood(g, base, n, op, ty, a, b);
    }
  }

  lemma ArithmeticGood(g: Env, base: nat, n: nat, op: Operator, ty: CType, a: Code, b: Code)
    requires Pair(g, base, n, a, b) && ArithmeticOp(op, ty).Some?
    ensures Good(g, base, n, LowerShift(op, ty, a, b).value) && Good(g, base, n, LowerPlain(op, ty, a, b).value)
  {
    hide Shaped, Coerce, Fresh, ArithmeticOp;
    FreshOrder(g, base, n, b.next, a.instrs + b.instrs);
    var iop := ArithmeticOp(op, ty).value;
    StepGood(g, base, n, b.next, a.instrs + b.instrs, Bin(b.next, iop, a.op, b.op));
    CoercedGood(g, base, n, b.next + 1, a.instrs + b.instrs + [Bin(b.next, iop, a.op, b.op)], ty, Temp(b.next));
    var (ac, bc) := Converted(a, b, ty);
    ConvertedGood(g, base, n, a, b, ty);
    var list := a.instrs + b.instrs + ac.instrs + bc.instrs;
    StepGood(g, base, n, bc.next, list, Bin(bc.next, iop, ac.op, bc.op));
    CoercedGood(g, base, n, bc.next + 1, list + [Bin(bc.next, iop, ac.op, bc.op)], ty, Temp(bc.next));
  }

  lemma OffsetGood(g: Env, base: nat, n: nat, op: BinOp, a: Code, b: Code, size: nat)
    requires Pair(g, base, n, a, b)
    ensures Good(g, base, n, LowerOffset(op, a, b, size))
  {
    hide Shaped, Fresh;
    FreshOrder(g, base, n, b.next, a.instrs + b.instrs);
    var sc := ScaledOffset(b.op, size, b.next);
    var list := a.instrs + b.instrs;
    if size != 1 && !b.op.Imm? {
      StepGood(g, base, n, b.next, list, Bin(b.next, Mul, b.op, Imm(size)));
    } else {
      assert list + [] == list;
    }
    StepGood(g, base, n, sc.next, list + sc.instrs, Bin(sc.next, op, a.op, sc.op));
  }

  // ---- Places -------------------------------------------------------------------------------

  predicate PlaceKnown(g: Env, base: nat, hi: nat, place: LValue)
  {
    match place
    case LLocal(t, _) => t in g.vars
    case LAddress(a, _) => Known(g, base, hi, a)
  }

  lemma ReadGood(g: Env, base: nat, n: nat, place: LValue)
    requires VarsBelow(g, base) && base <= n && PlaceKnown(g, base, n, place)
    ensures Good(g, base, n, ReadPlace(place, n))
  {
    hide Fresh, Coerce;
    match place
    case LLocal(t, ty) => CoerceGood(g, base, ty, Temp(t), n);
    case LAddress(a, ty) => Next(g, base, n, LoadInstr(n, ty, a));
  }

  lemma WriteGood(g: Env, base: nat, n: nat, mid: nat, list: seq<Instr>, place: LValue, op: Operand)
    requires VarsBelow(g, base) && Fresh(g, base, n, mid, list) && PlaceKnown(g, base, mid, place) &&
        Known(g, base, mid, op)
    ensures Fresh(g, base, n, mid, list + WritePlace(place, op))
  {
    hide Shaped;
    if place.LLocal? {
      Same(g, base, mid, Copy(place.t, op));
    } else {
      Same(g, base, mid, StoreInstr(place.ty, place.a, op));
    }
    Both(g, base, n, mid, mid, list, WritePlace(place, op));
  }

  lemma PlaceLater(g: Env, base: nat, hi: nat, hi': nat, place: LValue)
    requires PlaceKnown(g, base, hi, place) && hi <= hi'
    ensures PlaceKnown(g, base, hi', place)
  {
  }

  lemma PlaceGood(g: Env, base: nat, target: Expr, n: nat)
    requires VarsBelow(g, base) && base <= n && LowerPlace(g, target, n).Some?
    ensures var p := LowerPlace(g, target, n).value;
        Fresh(g, base, n, p.next, p.instrs) && PlaceKnown(g, base, p.next, p.place)
    decreases target, 0
  {
    hide Shaped, Fresh, LowerExpr;
    Nothing(g, base, n);
    if target.Deref? { ExprGood(g, base, target.p, n); }
  }

  /** A place's address, then its value. */
  lemma CurrentGood(g: Env, base: nat, target: Expr, n: nat)
    requires VarsBelow(g, base) && base <= n && LowerPlace(g, target, n).Some?
    ensures var p := LowerPlace(g, target, n).value;
      var cur := ReadPlace(p.place, p.next);
      Fresh(g, base, n, cur.next, p.instrs + cur.instrs) && Known(g, base, cur.next, cur.op) &&
          PlaceKnown(g, base, cur.next, p.place)
    decreases target, 1
  {
    hide Shaped, LowerExpr, ReadPlace, LowerPlace;
    var p := LowerPlace(g, target, n).value;
    var cur := ReadPlace(p.place, p.next);
    PlaceGood(g, base, target, n);
    ReadGood(g, base, p.next, p.place);
    PlaceLater(g, base, p.next, cur.next, p.place);
    Both(g, base, n, p.next, cur.next, p.instrs, cur.instrs);
  }

  lemma PrefixGood(g: Env, base: nat, up: bool, target: Expr, n: nat)
    requires VarsBelow(g, base) && base <= n && LowerPrefix(g, up, target, n).Some?
    ensures Good(g, base, n, LowerPrefix(g, up, target, n).value)
    decreases target, 2
  {
    hide Shaped, Fresh, LowerExpr, ReadPlace, LowerPlace, Coerce, WritePlace;
    var p := LowerPlace(g, target, n).value;
    var cur := ReadPlace(p.place, p.next);
    CurrentGood(g, base, target, n);
    FreshOrder(g, base, n, cur.next, p.instrs + cur.instrs);
    var step := Bin(cur.next, StepOp(up), cur.op, Imm(StepOf(p.place.ty)));
    var list := p.instrs + cur.instrs + [step];
    StepGood(g, base, n, cur.next, p.instrs + cur.instrs, step);
    CoercedGood(g, base, n, cur.next + 1, list, p.place.ty, Temp(cur.next));
    var cc := Coerce(p.place.ty, Temp(cur.next), cur.next + 1);
    PlaceLater(g, base, cur.next, cc.next, p.place);
    WriteGood(g, base, n, cc.next, list + cc.instrs, p.place, cc.op);
  }

  lemma PostfixGood(g: Env, base: nat, up: bool, target: Expr, n: nat)
    requires VarsBelow(g, base) && base <= n && LowerPostfix(g, up, target, n).Some?
    ensures Good(g, base, n, LowerPostfix(g, up, target, n).value)
    decreases target, 2
  {
    hide Shaped, LowerExpr, ReadPlace, LowerPlace, WritePlace;
    var p := LowerPlace(g, target, n).value;
    var cur := ReadPlace(p.place, p.next);
    CurrentGood(g, base, target, n);
    FreshOrder(g, base, n, cur.next, p.instrs + cur.instrs);
    var out, was := cur.next, cur.next + 1;
    var keep, step := Bin(was, Add, cur.op, Imm(0)), Bin(out, StepOp(up), Temp(was), Imm(StepOf(p.place.ty)));
    SwappedGood(g, base, out, keep, step);
    Both(g, base, n, out, was + 1, p.instrs + cur.instrs, [keep, step]);
    PlaceLater(g, base, cur.next, was + 1, p.place);
    WriteGood(g, base, n, was + 1, p.instrs + cur.instrs + [keep, step], p.place, Temp(out));
  }

  /** Two instructions that define two fresh temporaries in the other order. */
  lemma SwappedGood(g: Env, base: nat, out: nat, a: Instr, b: Instr)
    requires VarsBelow(g, base) && base <= out && a.Bin? && b.Bin? && a.t == out + 1 && b.t == out
    requires Known(g, base, out, a.a) && Known(g, base, out, a.b) && Known(g, base, out + 2, b.a) &&
        Known(g, base, out + 2, b.b)
    ensures Fresh(g, base, out, out + 2, [a, b])
  {
    hide Shaped;
    One(g, base, out + 2, a);
    One(g, base, out + 2, b);
    assert Made(g, out + 2, a) == {out + 1} && Made(g, out + 2, b) == {out};
    Join(g, base, out + 2, out + 2, {out + 1}, {out}, [a], [b]);
    assert [a] + [b] == [a, b] && {out + 1} + {out} == Range(out, out + 2);
  }

  // ---- All expressions ----------------------------------------------------------------------

  lemma {:induction false} ArgsGood(g: Env, base: nat, args: seq<Expr>, n: nat)
    requires VarsBelow(g, base) && base <= n && LowerArgs(g, args, n).Some?
    ensures var a := LowerArgs(g, args, n).value;
      Fresh(g, base, n, a.next, a.instrs) && forall k :: 0 <= k < |a.ops| ==> Known(g, base, a.next, a.ops[k])
    decreases args
  {
    hide Shaped, LowerExpr;
    if args == [] {
      Nothing(g, base, n);
    } else {
      var a := LowerExpr(g, args[0], n).value;
      var rest := LowerArgs(g, args[1..], a.next).value;
      ExprGood(g, base, args[0], n);
      ArgsGood(g, base, args[1..], a.next);
      Both(g, base, n, a.next, rest.next, a.instrs, rest.instrs);
    }
  }

  lemma EffectsGood(g: Env, base: nat, e: Expr, n: nat)
    requires VarsBelow(g, base) && base <= n && LowerEffects(g, e, n).Some?
    ensures var a := LowerEffects(g, e, n).value; Fresh(g, base, n, a.next, a.instrs)
    decreases e, 4
  {
    hide Shaped, LowerExpr, LowerArgs, LowerPrefix;
    match e
    case Invoke(name, args) =>
      var a := LowerArgs(g, args, n).value;
      ArgsGood(g, base, args, n);
      Same(g, base, a.next, Instr.Call(None, name, a.ops));
      Both(g, base, n, a.next, a.next, a.instrs, [Instr.Call(None, name, a.ops)]);
    case Postfix(up, target) => PrefixGood(g, base, up, target, n);
    case _ => ExprGood(g, base, e, n);
  }

  lemma TruthGood(g: Env, base: nat, e: Expr, n: nat)
    requires VarsBelow(g, base) && base <= n && LowerTruth(g, e, n).Some?
    ensures Good(g, base, n, LowerTruth(g, e, n).value)
    decreases e, 4
  {
    hide Shaped, Fresh, LowerExpr;
    var a := LowerExpr(g, e, n).value;
    ExprGood(g, base, e, n);
    FreshOrder(g, base, n, a.next, a.instrs);
    if !IsBoolean(e) { StepGood(g, base, n, a.next, a.instrs, Bin(a.next, Ne, a.op, Imm(0))); }
  }

  lemma LogicalGood(g: Env, base: nat, op: Operator, l: Expr, r: Expr, n: nat)
    requires VarsBelow(g, base) && base <= n && LowerLogical(g, op, l, r, n).Some?
    ensures Good(g, base, n, LowerLogical(g, op, l, r, n).value)
    decreases Binary(op, l, r), 0
  {
    hide Shaped, LowerExpr, LowerTruth;
    var a := LowerExpr(g, l, n).value;
    var b := LowerTruth(g, r, a.next).value;
    ExprGood(g, base, l, n);
    TruthGood(g, base, r, a.next);
    var i := LowerLogical(g, op, l, r, n).value.instrs[0];
    Nothing(g, base, b.next);
    EmptyShaped(g, base, b.next);
    Wider(g, base, a.next, b.next, Range(n, a.next), a.instrs);
    RangeJoin(n, a.next, b.next);
    RangeEnd(n, b.next);
    var ft, ff := if op.OpLogAnd? then Range(a.next, b.next) else {}, if op.OpLogAnd? then {}
        else Range(a.next, b.next);
    CondShaped(g, base, b.next, Range(n, a.next), ft, ff, i);
    assert Range(n, a.next) + ft + ff + {b.next} == Range(n, b.next + 1);
  }

  lemma EmptyShaped(g: Env, base: nat, hi: nat)
    ensures Shaped(g, base, hi, {}, [])
  {
  }

  lemma RangeEnd(lo: nat, hi: nat)
    requires lo <= hi
    ensures Range(lo, hi) + {hi} == Range(lo, hi + 1) && hi !in Range(lo, hi)
  {
  }

  lemma ConditionalGood(g: Env, base: nat, test: Expr, yes: Expr, no: Expr, n: nat)
    requires VarsBelow(g, base) && base <= n && LowerConditional(g, test, yes, no, n).Some?
    ensures Good(g, base, n, LowerConditional(g, test, yes, no, n).value)
    decreases Conditional(test, yes, no), 0
  {
    hide Shaped, LowerExpr, Coerce, ConditionalType;
    var c := LowerExpr(g, test, n).value;
    var y := LowerExpr(g, yes, c.next).value;
    var z := LowerExpr(g, no, y.next).value;
    var ty := ExprType(g, Conditional(test, yes, no)).value;
    var yc := Coerce(ty, y.op, z.next);
    var zc := Coerce(ty, z.op, yc.next);
    ExprGood(g, base, test, n);
    ExprGood(g, base, yes, c.next);
    ExprGood(g, base, no, y.next);
    CoerceGood(g, base, ty, y.op, z.next);
    CoerceGood(g, base, ty, z.op, yc.next);
    var i := LowerConditional(g, test, yes, no, n).value.instrs[0];
    var hi := zc.next;
    Wider(g, base, c.next, hi, Range(n, c.next), c.instrs);
    Wider(g, base, y.next, hi, Range(c.next, y.next), y.instrs);
    Wider(g, base, z.next, hi, Range(y.next, z.next), z.instrs);
    Wider(g, base, yc.next, hi, Range(z.next, yc.next), yc.instrs);
    Join(g, base, hi, hi, Range(c.next, y.next), Range(z.next, yc.next), y.instrs, yc.instrs);
    Join(g, base, hi, hi, Range(y.next, z.next), Range(yc.next, zc.next), z.instrs, zc.instrs);
    CondShaped(g, base, hi, Range(n, c.next), Range(c.next, y.next) + Range(z.next, yc.next),
        Range(y.next, z.next) + Range(yc.next, zc.next), i);
    assert Range(n, c.next) + (Range(c.next, y.next) + Range(z.next, yc.next)) +
        (Range(y.next, z.next) + Range(yc.next, zc.next)) + {hi} == Range(n, hi + 1);
  }

  lemma AssignmentGood(g: Env, base: nat, target: Expr, x: Expr, n: nat)
    requires VarsBelow(g, base) && base <= n && LowerAssignment(g, target, x, n).Some?
    ensures Good(g, base, n, LowerAssignment(g, target, x, n).value)
    decreases Assignment(target, x), 0
  {
    hide Shaped, LowerExpr, LowerPlace, Coerce, WritePlace;
    var p := LowerPlace(g, target, n).value;
    var a := LowerExpr(g, x, p.next).value;
    var cc := Coerce(p.place.ty, a.op, a.next);
    PlaceGood(g, base, target, n);
    ExprGood(g, base, x, p.next);
    Both(g, base, n, p.next, a.next, p.instrs, a.instrs);
    CoercedGood(g, base, n, a.next, p.instrs + a.instrs, p.place.ty, a.op);
    PlaceLater(g, base, p.next, cc.next, p.place);
    WriteGood(g, base, n, cc.next, p.instrs + a.instrs + cc.instrs, p.place, cc.op);
  }

  lemma CompoundOpGood(g: Env, base: nat, n: nat, mid: nat, list: seq<Instr>, op: Operator, ta: CType, tb: CType,
      a: Operand, b: Operand)
    requires VarsBelow(g, base) && Fresh(g, base, n, mid, list) && Known(g, base, mid, a) && Known(g, base, mid, b)
    requires LowerCompoundOp(op, ta, tb, a, b, mid).Some?
    ensures var o := LowerCompoundOp(op, ta, tb, a, b, mid).value;
        Fresh(g, base, n, o.next, list + o.instrs) && Known(g, base, o.next, o.op)
  {
    hide Shaped, Fresh, Coerce, ArithmeticOp;
    FreshOrder(g, base, n, mid, list);
    if ta.Ptr? && (op.OpAdd? || op.OpSub?) {
      var iop := if op.OpAdd? then Add else Sub;
      if SizeOf(ta.elem) == 1 {
        StepGood(g, base, n, mid, list, Bin(mid, iop, a, b));
      } else {
        var scale, move := Bin(mid, Mul, b, Imm(SizeOf(ta.elem))), Bin(mid + 1, iop, a, Temp(mid));
        StepGood(g, base, n, mid, list, scale);
        StepGood(g, base, n, mid + 1, list + [scale], move);
        assert list + [scale] + [move] == list + [scale, move];
      }
    } else {
      var ty := OperationType(op, ta, tb).value;
      var iop := ArithmeticOp(op, ty).value;
      var to := if IsShift(op) then Promote(tb) else ty;
      var ac := Coerce(ty, a, mid);
      var bc := Coerce(to, b, ac.next);
      CoercedGood(g, base, n, mid, list, ty, a);
      CoercedGood(g, base, n, ac.next, list + ac.instrs, to, b);
      StepGood(g, base, n, bc.next, list + ac.instrs + bc.instrs, Bin(bc.next, iop, ac.op, bc.op));
      assert list + ac.instrs + bc.instrs + [Bin(bc.next, iop, ac.op, bc.op)] ==
          list + (ac.instrs + bc.instrs + [Bin(bc.next, iop, ac.op, bc.op)]);
    }
  }

  lemma CompoundGood(g: Env, base: nat, op: Operator, target: Expr, x: Expr, n: nat)
    requires VarsBelow(g, base) && base <= n && LowerCompound(g, op, target, x, n).Some?
    ensures Good(g, base, n, LowerCompound(g, op, target, x, n).value)
    decreases Compound(op, target, x), 0
  {
    hide Shaped, Fresh, ExprType, LowerExpr, LowerPlace, Coerce, WritePlace, ReadPlace, LowerCompoundOp;
    var p := LowerPlace(g, target, n).value;
    var cur := ReadPlace(p.place, p.next);
    var a := LowerExpr(g, x, cur.next).value;
    var o := LowerCompoundOp(op, p.place.ty, ExprType(g, x).value, cur.op, a.op, a.next).value;
    var cc := Coerce(p.place.ty, o.op, o.next);
    CurrentGood(g, base, target, n);
    ExprGood(g, base, x, cur.next);
    var list := p.instrs + cur.instrs + a.instrs;
    Both(g, base, n, cur.next, a.next, p.instrs + cur.instrs, a.instrs);
    CompoundOpGood(g, base, n, a.next, list, op, p.place.ty, ExprType(g, x).value, cur.op, a.op);
    CoercedGood(g, base, n, o.next, list + o.instrs, p.place.ty, o.op);
    PlaceLater(g, base, cur.next, cc.next, p.place);
    WriteGood(g, base, n, cc.next, list + o.instrs + cc.instrs, p.place, cc.op);
  }

  lemma BinaryGood(g: Env, base: nat, op: Operator, l: Expr, r: Expr, n: nat)
    requires VarsBelow(g, base) && base <= n && LowerBinary(g, op, l, r, n).Some?
    ensures Good(g, base, n, LowerBinary(g, op, l, r, n).value)
    decreases Binary(op, l, r), 0
  {
    hide Shaped, Fresh, LowerExpr, LowerOperator, ExprType;
    var tl, tr := ExprType(g, l).value, ExprType(g, r).value;
    var first, second := if PointerLast(op, tl, tr) then r else l, if PointerLast(op, tl, tr) then l else r;
    var a := LowerExpr(g, first, n).value;
    var b := LowerExpr(g, second, a.next).value;
    ExprGood(g, base, first, n);
    FreshOrder(g, base, n, a.next, a.instrs);
    ExprGood(g, base, second, a.next);
    PairGood(g, base, n, a, b);
    OperatorGood(g, base, n, op, if PointerLast(op, tl, tr) then tr else tl, if PointerLast(op, tl, tr) then tl
        else tr, a, b);
  }

  /** Lowering an expression numbers fresh temporaries consecutively, and its code defines
      each of them, mentions nothing but variables and temporaries defined so far, and
      has at most one conditional for each. */
  lemma {:induction false} ExprGood(g: Env, base: nat, e: Expr, n: nat)
    requires VarsBelow(g, base) && base <= n && LowerExpr(g, e, n).Some?
    ensures Good(g, base, n, LowerExpr(g, e, n).value)
    decreases e, 3
  {
    hide Shaped, Coerce, LowerArgs, LowerEffects, LowerPrefix, LowerPostfix, LowerLogical, LowerBinary,
        LowerConditional, LowerAssignment, LowerCompound, LowerUnary, ExprType;
    match e
    case Literal(_, _) => Nothing(g, base, n);
    case Character(_) => Nothing(g, base, n);
    case Var(x) => CoerceGood(g, base, g.vars[x], Temp(x), n);
    case GlobalVar(_) => CurrentGood(g, base, e, n);
    case Deref(_) => CurrentGood(g, base, e, n);
    case Invoke(name, args) =>
      var a := LowerArgs(g, args, n).value;
      ArgsGood(g, base, args, n);
      StepGood(g, base, n, a.next, a.instrs, Instr.Call(Some(a.next), name, a.ops));
    case Unary(uop, x) =>
      ExprGood(g, base, x, n);
      UnaryGood(g, base, n, uop, ExprType(g, x).value, LowerExpr(g, x, n).value);
    case Cast(ty, x) =>
      ExprGood(g, base, x, n);
      ThenGood(g, base, n, LowerExpr(g, x, n).value, ty);
    case Prefix(up, target) => PrefixGood(g, base, up, target, n);
    case Postfix(up, target) => PostfixGood(g, base, up, target, n);
    case Binary(op, l, r) =>
      if op.OpComma? {
        var a := LowerEffects(g, l, n).value;
        var b := LowerExpr(g, r, a.next).value;
        EffectsGood(g, base, l, n);
        ExprGood(g, base, r, a.next);
        Both(g, base, n, a.next, b.next, a.instrs, b.instrs);
      } else if op.OpLogAnd? || op.OpLogOr? {
        LogicalGood(g, base, op, l, r, n);
      } else {
        BinaryGood(g, base, op, l, r, n);
      }
    case Conditional(test, yes, no) => ConditionalGood(g, base, test, yes, no, n);
    case Assignment(target, x) => AssignmentGood(g, base, target, x, n);
    case Compound(op, target, x) => CompoundGood(g, base, op, target, x, n);
  }
}
