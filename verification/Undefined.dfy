/** When an expression or a statement has no meaning: exactly when one of the faults listed
    here happens on the way, everything before it having its value. Whatever else a program
    does is defined, so the results about programs with a meaning are about all the others.
    A type that is missing is a fault too; well-formed programs have none. */
module Undefined {
  import opened Options
  import opened Words
  import opened Ir
  import opened CTypes
  import opened Integers
  import opened Source
  import opened Statements
  import opened Typing

  // ---- Faults of one operation -------------------------------------------------------------

  predicate Outside(ty: CType, v: int) { v < Least(ty) || v > Greatest(ty) }

  /** No value of the type can be read there: a variable that was never given one, memory
      that is not the program's, or a _Bool's byte that is neither 0 nor 1. */
  ghost predicate Unreadable(c: Context, ty: CType, place: Place, s: Config)
  {
    match place
    case Local(x) => x !in s.vars || Outside(ty, s.vars[x])
    case Memory(address) =>
      !c.frame.Visible(address, SizeOf(ty)) || (ty.Bool? && At(s.mem, address) > 1)
  }

  ghost predicate Unwritable(c: Context, ty: CType, place: Place, s: Config)
  {
    match place
    case Local(x) => x !in s.vars
    case Memory(address) => !c.frame.Visible(address, SizeOf(ty))
  }

  /** Section 6.5.5, paragraph 5, and 6.5.7, paragraph 3: a zero divisor, a quotient out of
      range, a count that is negative or not below the width. */
  predicate Faults(op: Operator, ty: CType, a: int, b: int)
  {
    match op
    case OpDiv => Convert(ty, b) == 0 || (Least(ty) < 0 && Convert(ty, a) == Least(ty) && Convert(ty, b) == -1)
    case OpRem => Convert(ty, b) == 0 || (Least(ty) < 0 && Convert(ty, a) == Least(ty) && Convert(ty, b) == -1)
    case OpShl => b < 0 || b >= 8 * SizeOf(ty)
    case OpShr => b < 0 || b >= 8 * SizeOf(ty)
    case _ => false
  }

  /** The variable an expression's value is still read from, if it is. */
  function ResultVariable(e: Expr): Option<nat>
  {
    match e
    case Var(x) => Some(x)
    case Unary(uop, x) => if uop.Plus? then ResultVariable(x) else None
    case Cast(_, x) => ResultVariable(x)
    case Binary(op, _, r) => if op.OpComma? then ResultVariable(r) else None
    case Assignment(_, r) => ResultVariable(r)
    case _ => None
  }

  /** A later operand changed the variable that holds an earlier one's value. */
  predicate Changed(x: Option<nat>, s: Config, s': Config)
  {
    x.Some? && !(x.value in s.vars && x.value in s'.vars && s.vars[x.value] == s'.vars[x.value])
  }

  function PlaceVariable(target: Expr): Option<nat> { if target.Deref? then ResultVariable(target.p) else None }

  // ---- Expressions --------------------------------------------------------------------------------

  ghost predicate NoValue(c: Context, g: Env, e: Expr, s: Config)
    decreases e, 1
  {
    match e
    case Literal(v, _) => v >= 0x1_0000_0000_0000_0000
    case Character(v) => Outside(Int, v)
    case Var(_) => UndefinedRead(c, g, e, s)
    case GlobalVar(_) => UndefinedRead(c, g, e, s)
    case Deref(_) => UndefinedRead(c, g, e, s)
    case Invoke(name, args) =>
      name !in g.functions ||
      (match EvalArgs(c, g, args, s)
       case None => UndefinedArgs(c, g, args, s)
       case Some(rs) =>
         var ty := g.functions[name];
         Outside(ty, ValueOfBytes(ty, CallEffect(c, name, WordsOf(rs.vs), rs.s).1)))
    case Unary(uop, x) =>
      var ty := ExprType(g, x);
      NoValue(c, g, x, s) || ty.None? || ((uop.Minus? || uop.Complement?) && ty.value.Ptr?)
    case Cast(_, x) => NoValue(c, g, x, s)
    case Prefix(_, target) => UndefinedRead(c, g, target, s)
    case Postfix(up, target) =>
      (match EvalRead(c, g, target, s)
       case None => UndefinedRead(c, g, target, s)
       case Some(r) =>
         g.reading.Guarded? &&
         StepsOut(up, ExprType(g, target).value, EvalPlace(c, g, target, s).value.place, r.v))
    case Binary(op, l, r) => UndefinedBinary(c, g, op, l, r, s)
    case Conditional(test, yes, no) =>
      ExprType(g, e).None? ||
      (match Eval(c, g, test, s)
       case None => NoValue(c, g, test, s)
       case Some(t) => NoValue(c, g, if t.v != 0 then yes else no, t.s))
    case Assignment(target, x) =>
      var ty := ExprType(g, target);
      ty.None? ||
      (match EvalPlace(c, g, target, s)
       case None => UndefinedPlace(c, g, target, s)
       case Some(p) =>
         match Eval(c, g, x, p.s)
         case None => NoValue(c, g, x, p.s)
         case Some(r) => Changed(PlaceVariable(target), p.s, r.s) || Unwritable(c, ty.value, p.place, r.s))
    case Compound(op, target, x) =>
      ExprType(g, x).None? ||
      (match EvalRead(c, g, target, s)
       case None => UndefinedRead(c, g, target, s)
       case Some(was) =>
         match Eval(c, g, x, was.s)
         case None => NoValue(c, g, x, was.s)
         case Some(r) =>
           var ty := ExprType(g, target).value;
           || Changed(PlaceVariable(target), was.s, r.s) || Changed(ResultVariable(target), was.s, r.s)
           || UndefinedUpdate(g.reading, op, ty, ExprType(g, x).value, was.v, r.v)
           || Unwritable(c, ty, EvalPlace(c, g, target, s).value.place, r.s))
  }

  /** The operands in turn, the pointer first when it is the right one of a sum; then the
      operation. The comma, && and || evaluate their right operand last if at all. */
  ghost predicate UndefinedBinary(c: Context, g: Env, op: Operator, l: Expr, r: Expr, s: Config)
    decreases Binary(op, l, r), 0
  {
    if op.OpComma? then
      match Perform(c, g, l, s)
      case None => UndefinedEffects(c, g, l, s)
      case Some(s') => NoValue(c, g, r, s')
    else if op.OpLogAnd? || op.OpLogOr? then
      match Eval(c, g, l, s)
      case None => NoValue(c, g, l, s)
      case Some(a) => (a.v != 0) == op.OpLogAnd? && NoValue(c, g, r, a.s)
    else if ExprType(g, l).None? || ExprType(g, r).None? then true
    else
      var tl, tr := ExprType(g, l).value, ExprType(g, r).value;
      if op.OpAdd? && !tl.Ptr? && tr.Ptr? then
        match Eval(c, g, r, s)
        case None => NoValue(c, g, r, s)
        case Some(b) =>
          match Eval(c, g, l, b.s)
          case None => NoValue(c, g, l, b.s)
          case Some(a) => Changed(ResultVariable(r), b.s, a.s)
      else
        match Eval(c, g, l, s)
        case None => NoValue(c, g, l, s)
        case Some(a) =>
          match Eval(c, g, r, a.s)
          case None => NoValue(c, g, r, a.s)
          case Some(b) => Changed(ResultVariable(l), a.s, b.s) || UndefinedOperation(op, tl, tr, a.v, b.v)
  }

  /** Relations and sums always have a value, and so has a pointer moved or subtracted. */
  predicate UndefinedOperation(op: Operator, ta: CType, tb: CType, a: int, b: int)
  {
    match op
    case OpLt => false
    case OpLe => false
    case OpGt => false
    case OpGe => false
    case OpEq => false
    case OpNe => false
    case OpAdd => false
    case OpSub => !ta.Ptr? && tb.Ptr?
    case OpShl => ta.Ptr? || tb.Ptr? || Faults(op, Promote(ta), a, b)
    case OpShr => ta.Ptr? || tb.Ptr? || Faults(op, Promote(ta), a, b)
    case _ => ta.Ptr? || tb.Ptr? || Faults(op, Usual(Promote(ta), Promote(tb)), a, b)
  }

  /** What a compound assignment computes; the guarded reading leaves one sum out. */
  predicate UndefinedUpdate(reading: Reading, op: Operator, ta: CType, tb: CType, a: int, b: int)
  {
    if ta.Ptr? then !op.OpAdd? && !op.OpSub?
    else
      || IsRelation(op) || op.OpLogAnd? || op.OpLogOr? || op.OpComma? || tb.Ptr?
      || UndefinedOperation(op, ta, tb, a, b)
      || (ta.Bool? && reading.Guarded? && SumLost(op, Usual(Promote(ta), Promote(tb)), a, b))
  }

  ghost predicate UndefinedRead(c: Context, g: Env, e: Expr, s: Config)
    decreases e, 0, 1
  {
    var ty := ExprType(g, e);
    ty.None? ||
    (match EvalPlace(c, g, e, s)
     case None => UndefinedPlace(c, g, e, s)
     case Some(p) => Unreadable(c, ty.value, p.place, p.s))
  }

  /** Not an lvalue; a pointer has no negative values. */
  ghost predicate UndefinedPlace(c: Context, g: Env, target: Expr, s: Config)
    decreases target, 0, 0
  {
    match target
    case Var(_) => false
    case GlobalVar(_) => false
    case Deref(p) =>
      (match Eval(c, g, p, s)
       case None => NoValue(c, g, p, s)
       case Some(r) => r.v < 0)
    case _ => true
  }

  ghost predicate UndefinedArgs(c: Context, g: Env, args: seq<Expr>, s: Config)
    decreases args
  {
    args != [] &&
    (match Eval(c, g, args[0], s)
     case None => NoValue(c, g, args[0], s)
     case Some(first) =>
       match EvalArgs(c, g, args[1..], first.s)
       case None => UndefinedArgs(c, g, args[1..], first.s)
       case Some(rest) => Changed(ResultVariable(args[0]), first.s, rest.s))
  }

  /** A call for its effects may return anything; a postfix step is the prefix one. */
  ghost predicate UndefinedEffects(c: Context, g: Env, e: Expr, s: Config)
    decreases e, 2
  {
    match e
    case Invoke(name, args) => name !in g.functions || UndefinedArgs(c, g, args, s)
    case Postfix(_, target) => UndefinedRead(c, g, target, s)
    case _ => NoValue(c, g, e, s)
  }

  // ---- These are all the faults there are --------------------------------------------------------

  lemma OutsideRange(ty: CType, v: int)
    ensures Outside(ty, v) <==> !InRange(ty, v)
  {
    Limits(ty, v);
  }

  /** Every byte string is a value of a type of that size, but for _Bool. */
  lemma BytesInRange(ty: CType, bytes: seq<Byte>)
    requires |bytes| == SizeOf(ty)
    ensures InRange(ty, ValueOfBytes(ty, bytes)) <==> !(ty.Bool? && bytes[0] > 1)
  {
    hide Pow256;
    ModulusIsPower(ty);
    UnsignedBound(bytes);
    SignedOfBytes(bytes);
    if ty.Bool? { assert Unsigned(bytes) == bytes[0] + 256 * Unsigned(bytes[1..]) && bytes[1..] == []; }
  }

  lemma FetchFails(c: Context, ty: CType, place: Place, s: Config)
    ensures Fetch(c, ty, place, s).None? <==> Unreadable(c, ty, place, s)
  {
    hide ValueOfBytes, InRange, Outside;
    match place
    case Local(x) => if x in s.vars { OutsideRange(ty, s.vars[x]); }
    case Memory(address) => BytesInRange(ty, Read(s.mem, address, SizeOf(ty)));
  }

  lemma PutFails(c: Context, ty: CType, place: Place, v: int, s: Config)
    ensures Put(c, ty, place, v, s).None? <==> Unwritable(c, ty, place, s)
  {
  }

  lemma {:induction false} PendingIsResult(e: Expr)
    ensures Pending(e) == if ResultVariable(e).Some? then {ResultVariable(e).value} else {}
    decreases e
  {
    match e
    case Unary(uop, x) => if uop.Plus? { PendingIsResult(x); }
    case Cast(_, x) => PendingIsResult(x);
    case Binary(op, _, r) => if op.OpComma? { PendingIsResult(r); }
    case Assignment(_, r) => PendingIsResult(r);
    case _ =>
  }

  lemma SteadyUnlessChanged(e: Expr, s: Config, s': Config)
    ensures Steady(Pending(e), s, s') <==> !Changed(ResultVariable(e), s, s')
    ensures Steady(PendingPlace(e), s, s') <==> !Changed(PlaceVariable(e), s, s')
    ensures Steady(PendingPlace(e) + Pending(e), s, s') <==>
      !Changed(PlaceVariable(e), s, s') && !Changed(ResultVariable(e), s, s')
  {
    hide Pending, ResultVariable;
    PendingIsResult(e);
    if e.Deref? { PendingIsResult(e.p); }
  }

  lemma QuotientFails(ty: CType, x: int, y: int)
    requires InRange(ty, x) && InRange(ty, y) && y != 0
    ensures InRange(ty, TruncDiv(x, y)) <==> !(Least(ty) < 0 && x == Least(ty) && y == -1)
  {
    hide Least, Greatest, InRange, TruncDiv;
    Limits(ty, x);
    Limits(ty, y);
    Limits(ty, TruncDiv(x, y));
    Halves(ty);
    QuotientSize(x, y);
  }

  lemma Halves(ty: CType)
    ensures Least(ty) == 0 || Least(ty) + Greatest(ty) == -1
    ensures Least(ty) <= 0 < Greatest(ty)
  {
  }

  lemma RawFails(op: Operator, ty: CType, a: int, b: int)
    requires !IsRelation(op) && !op.OpLogAnd? && !op.OpLogOr? && !op.OpComma?
    ensures Raw(op, ty, a, b).None? <==> Faults(op, ty, a, b)
  {
    hide Convert, Least, InRange, TruncDiv, TruncRem, BitFold, Pow2;
    if op.OpDiv? || op.OpRem? {
      if Convert(ty, b) != 0 { QuotientFails(ty, Convert(ty, a), Convert(ty, b)); }
    }
  }

  lemma OperationFails(op: Operator, ta: CType, tb: CType, a: int, b: int)
    requires !op.OpLogAnd? && !op.OpLogOr? && !op.OpComma? && !PointerLast(op, ta, tb)
    ensures BinaryResult(op, ta, tb, a, b).None? <==> UndefinedOperation(op, ta, tb, a, b)
  {
    hide Raw, Usual, Promote, Convert, Least, Faults, SizeOf, TruncDiv, UndefinedOperation, OperationType;
    if IsRelation(op) {
      AlwaysCompared(op, ta, tb, a, b);
    } else if ta.Ptr? || tb.Ptr? {
      OperationPointers(op, ta, tb, a, b);
    } else {
      Integral(op, ta, tb);
      RawFails(op, OperationType(op, ta, tb).value, a, b);
      OperationIs(op, ta, tb, a, b);
    }
  }

  lemma AlwaysCompared(op: Operator, ta: CType, tb: CType, a: int, b: int)
    requires IsRelation(op)
    ensures ComparedType(ta, tb).Some? && !UndefinedOperation(op, ta, tb, a, b)
  {
    hide Usual, Promote;
  }

  lemma OperationPointers(op: Operator, ta: CType, tb: CType, a: int, b: int)
    requires (ta.Ptr? || tb.Ptr?) && !IsRelation(op)
    requires !op.OpLogAnd? && !op.OpLogOr? && !op.OpComma? && !PointerLast(op, ta, tb)
    ensures BinaryResult(op, ta, tb, a, b).None? <==> UndefinedOperation(op, ta, tb, a, b)
  {
    hide Raw, Usual, Promote, Convert, Least, Faults, SizeOf, TruncDiv;
  }

  lemma UpdateFails(reading: Reading, op: Operator, ta: CType, tb: CType, a: int, b: int)
    ensures CompoundResult(reading, op, ta, tb, a, b).None? <==> UndefinedUpdate(reading, op, ta, tb, a, b)
  {
    hide *;
    UpdateIs(reading, op, ta, tb, a, b);
    UpdateRule(reading, op, ta, tb, a, b);
    if ta.Ptr? {
    } else if tb.Ptr? {
      Integral(op, ta, tb);
    } else {
      Integral(op, ta, tb);
      var ty := OperationType(op, ta, tb).value;
      NoSumLost(op, ta, tb, a, b);
      if IsRelation(op) || op.OpLogAnd? || op.OpLogOr? || op.OpComma? {
        NoUpdate(op, ty, a, b);
      } else {
        RawFails(op, ty, a, b);
        OperationIs(op, ta, tb, a, b);
        assert Raw(op, ty, a, b).None? <==> UndefinedOperation(op, ta, tb, a, b);
      }
    }
  }

  lemma UpdateRule(reading: Reading, op: Operator, ta: CType, tb: CType, a: int, b: int)
    ensures UndefinedUpdate(reading, op, ta, tb, a, b) <==>
      if ta.Ptr? then !op.OpAdd? && !op.OpSub?
      else
        || IsRelation(op) || op.OpLogAnd? || op.OpLogOr? || op.OpComma? || tb.Ptr?
        || UndefinedOperation(op, ta, tb, a, b)
        || (ta.Bool? && reading.Guarded? && SumLost(op, Usual(Promote(ta), Promote(tb)), a, b))
  {
    hide IsRelation, UndefinedOperation, SumLost, Usual, Promote;
  }

  lemma Integral(op: Operator, ta: CType, tb: CType)
    requires !ta.Ptr?
    ensures OperationType(op, ta, tb).Some? <==> !tb.Ptr?
  {
    hide Promote, Usual;
  }

  lemma UpdateIs(reading: Reading, op: Operator, ta: CType, tb: CType, a: int, b: int)
    ensures CompoundResult(reading, op, ta, tb, a, b).None? <==>
      if ta.Ptr? then !op.OpAdd? && !op.OpSub?
      else
        var ty := OperationType(op, ta, tb);
        ty.None? || Raw(op, ty.value, a, b).None? ||
            (ta.Bool? && reading.Guarded? && SumLost(op, ty.value, a, b))
  {
    hide Raw, Convert, OperationType, SumLost, SizeOf, Truth;
  }

  lemma OperationIs(op: Operator, ta: CType, tb: CType, a: int, b: int)
    requires !ta.Ptr? && !tb.Ptr? && !IsRelation(op) && !op.OpLogAnd? && !op.OpLogOr? && !op.OpComma?
    ensures UndefinedOperation(op, ta, tb, a, b) <==> Faults(op, OperationType(op, ta, tb).value, a, b)
  {
    hide Convert, Promote, Usual, Least;
  }

  lemma NoSumLost(op: Operator, ta: CType, tb: CType, a: int, b: int)
    requires !ta.Ptr? && !tb.Ptr?
    ensures SumLost(op, OperationType(op, ta, tb).value, a, b) <==> SumLost(op, Usual(Promote(ta), Promote(tb)), a, b)
  {
    hide Convert, Promote, Usual;
  }

  lemma NoUpdate(op: Operator, ty: CType, a: int, b: int)
    requires IsRelation(op) || op.OpLogAnd? || op.OpLogOr? || op.OpComma?
    ensures Raw(op, ty, a, b).None?
  {
  }

  // ---- Expressions: none but these --------------------------------------------------------------

  /** An expression has no value exactly when it meets one of the faults. */
  lemma {:induction false} EvalFails(c: Context, g: Env, e: Expr, s: Config)
    ensures Eval(c, g, e, s).None? <==> NoValue(c, g, e, s)
    decreases e, 1
  {
    hide ExprType, Fetch, Put, Convert, EvalArgs, EvalInvoke, EvalRead, EvalPlace, EvalPrefix, EvalPostfix, EvalLogical,
        EvalBinary, EvalConditional, EvalAssignment, EvalCompound, UndefinedRead, UndefinedPlace, UndefinedBinary,
        UndefinedArgs, StepsOut, Least, Greatest, LiteralType, Perform, UndefinedEffects;
    match e
    case Literal(_, _) =>
    case Character(v) => OutsideRange(Int, v);
    case Var(_) => ReadFails(c, g, e, s);
    case GlobalVar(_) => ReadFails(c, g, e, s);
    case Deref(_) => ReadFails(c, g, e, s);
    case Invoke(name, args) => InvokeFails(c, g, name, args, s);
    case Unary(_, x) => EvalFails(c, g, x, s);
    case Cast(_, x) => EvalFails(c, g, x, s);
    case Prefix(up, target) => PrefixFails(c, g, up, target, s);
    case Postfix(up, target) => PostfixFails(c, g, up, target, s);
    case Binary(op, l, r) => BinaryFails(c, g, op, l, r, s);
    case Conditional(test, yes, no) => ConditionalFails(c, g, test, yes, no, s);
    case Assignment(target, x) => AssignmentFails(c, g, target, x, s);
    case Compound(op, target, x) => CompoundFails(c, g, op, target, x, s);
  }

  lemma {:induction false} InvokeFails(c: Context, g: Env, name: string, args: seq<Expr>, s: Config)
    ensures EvalInvoke(c, g, name, args, s).None? <==> NoValue(c, g, Invoke(name, args), s)
    decreases Invoke(name, args), 0
  {
    hide Eval, EvalArgs, UndefinedArgs, Least, Greatest, InRange, Outside, ValueOfBytes;
    ArgsFail(c, g, args, s);
    var rs := EvalArgs(c, g, args, s);
    if name in g.functions && rs.Some? {
      var ty := g.functions[name];
      OutsideRange(ty, ValueOfBytes(ty, CallEffect(c, name, WordsOf(rs.value.vs), rs.value.s).1));
    }
  }

  lemma {:induction false} ReadFails(c: Context, g: Env, e: Expr, s: Config)
    ensures EvalRead(c, g, e, s).None? <==> UndefinedRead(c, g, e, s)
    decreases e, 0, 1
  {
    hide Eval, EvalPlace, UndefinedPlace, NoValue, Fetch, Unreadable, ExprType;
    PlaceFails(c, g, e, s);
    var ty, p := ExprType(g, e), EvalPlace(c, g, e, s);
    if ty.Some? && p.Some? { FetchFails(c, ty.value, p.value.place, p.value.s); }
  }

  lemma {:induction false} PlaceFails(c: Context, g: Env, target: Expr, s: Config)
    ensures EvalPlace(c, g, target, s).None? <==> UndefinedPlace(c, g, target, s)
    decreases target, 0, 0
  {
    hide Eval, NoValue;
    if target.Deref? { EvalFails(c, g, target.p, s); }
  }

  lemma {:induction false} PrefixFails(c: Context, g: Env, up: bool, target: Expr, s: Config)
    ensures EvalPrefix(c, g, up, target, s).None? <==> UndefinedRead(c, g, target, s)
    decreases target, 2
  {
    hide Eval, EvalPlace, UndefinedPlace, UndefinedRead, NoValue, Fetch, Put, Unreadable, Unwritable, ExprType, Convert;
    ReadFails(c, g, target, s);
    if EvalRead(c, g, target, s).Some? {
      var p, ty := EvalPlace(c, g, target, s).value, ExprType(g, target).value;
      WritableAfterRead(c, ty, p.place, p.s, Convert(ty, Stepped(up, ty, Fetch(c, ty, p.place, p.s).value)));
    }
  }

  lemma WritableAfterRead(c: Context, ty: CType, place: Place, s: Config, v: int)
    requires Fetch(c, ty, place, s).Some?
    ensures Put(c, ty, place, v, s).Some?
  {
  }

  lemma {:induction false} PostfixFails(c: Context, g: Env, up: bool, target: Expr, s: Config)
    ensures EvalPostfix(c, g, up, target, s).None? <==> NoValue(c, g, Postfix(up, target), s)
    decreases Postfix(up, target), 0
  {
    hide Eval, EvalPlace, UndefinedPlace, UndefinedRead, Fetch, Put, Unreadable, Unwritable, ExprType, Convert,
        StepsOut;
    ReadFails(c, g, target, s);
    if EvalRead(c, g, target, s).Some? {
      var p, ty := EvalPlace(c, g, target, s).value, ExprType(g, target).value;
      var v := Stepped(up, ty, Fetch(c, ty, p.place, p.s).value);
      WritableAfterRead(c, ty, p.place, p.s, v);
      WritableAfterRead(c, ty, p.place, p.s, Convert(ty, v));
    }
  }

  lemma {:induction false} BinaryFails(c: Context, g: Env, op: Operator, l: Expr, r: Expr, s: Config)
    ensures Eval(c, g, Binary(op, l, r), s).None? <==> UndefinedBinary(c, g, op, l, r, s)
    decreases Binary(op, l, r), 0, 1
  {
    hide NoValue, UndefinedEffects, Perform, ExprType, BinaryResult, UndefinedOperation, Changed, Steady, EvalArgs,
        EvalPlace, EvalInvoke, EvalRead, EvalPrefix, EvalPostfix, EvalConditional, EvalAssignment, EvalCompound,
        Convert, EvalLogical, EvalBinary, ResultVariable, Pending;
    if op.OpComma? {
      EffectsFail(c, g, l, s);
      if Perform(c, g, l, s).Some? { EvalFails(c, g, r, Perform(c, g, l, s).value); }
    } else if op.OpLogAnd? || op.OpLogOr? {
      EvalFails(c, g, l, s);
      var a := Eval(c, g, l, s);
      if a.None? {
        LeftFails(c, g, op, l, r, s);
      } else {
        EvalFails(c, g, r, a.value.s);
        RightFails(c, g, op, l, r, s, a.value);
      }
    } else {
      OperandsFail(c, g, op, l, r, s);
    }
  }

  lemma LeftFails(c: Context, g: Env, op: Operator, l: Expr, r: Expr, s: Config)
    requires (op.OpLogAnd? || op.OpLogOr?) && Eval(c, g, l, s).None?
    ensures EvalLogical(c, g, op, l, r, s).None?
    ensures UndefinedBinary(c, g, op, l, r, s) <==> NoValue(c, g, l, s)
  {
    hide Eval, NoValue, ExprType;
  }

  lemma RightFails(c: Context, g: Env, op: Operator, l: Expr, r: Expr, s: Config, a: Res)
    requires (op.OpLogAnd? || op.OpLogOr?) && Eval(c, g, l, s) == Some(a)
    ensures EvalLogical(c, g, op, l, r, s).None? <==> (a.v != 0) == op.OpLogAnd? && Eval(c, g, r, a.s).None?
    ensures UndefinedBinary(c, g, op, l, r, s) <==> (a.v != 0) == op.OpLogAnd? && NoValue(c, g, r, a.s)
  {
    hide Eval, NoValue, ExprType, Truth;
  }

  lemma {:induction false} OperandsFail(c: Context, g: Env, op: Operator, l: Expr, r: Expr, s: Config)
    requires !op.OpComma? && !op.OpLogAnd? && !op.OpLogOr?
    ensures EvalBinary(c, g, op, l, r, s).None? <==> UndefinedBinary(c, g, op, l, r, s)
    decreases Binary(op, l, r), 0, 0
  {
    hide *;
    if ExprType(g, l).None? || ExprType(g, r).None? {
      Untyped(c, g, op, l, r, s);
    } else {
      var tl, tr := ExprType(g, l).value, ExprType(g, r).value;
      var last := PointerLast(op, tl, tr);
      var (x, y) := if last then (r, l) else (l, r);
      EvalFails(c, g, x, s);
      var a := Eval(c, g, x, s);
      if a.None? {
        FirstFails(c, g, op, l, r, s);
      } else {
        EvalFails(c, g, y, a.value.s);
        SecondFails(c, g, op, l, r, s, a.value);
      }
    }
  }

  lemma Untyped(c: Context, g: Env, op: Operator, l: Expr, r: Expr, s: Config)
    requires !op.OpComma? && !op.OpLogAnd? && !op.OpLogOr? && (ExprType(g, l).None? || ExprType(g, r).None?)
    ensures EvalBinary(c, g, op, l, r, s).None? && UndefinedBinary(c, g, op, l, r, s)
  {
    hide Eval, NoValue, ExprType, BinaryResult, UndefinedOperation, Changed, Steady;
  }

  lemma FirstFails(c: Context, g: Env, op: Operator, l: Expr, r: Expr, s: Config)
    requires !op.OpComma? && !op.OpLogAnd? && !op.OpLogOr? && ExprType(g, l).Some? && ExprType(g, r).Some?
    requires var x := if PointerLast(op, ExprType(g, l).value, ExprType(g, r).value) then r else l;
      Eval(c, g, x, s).None? && NoValue(c, g, x, s)
    ensures EvalBinary(c, g, op, l, r, s).None? && UndefinedBinary(c, g, op, l, r, s)
  {
    hide Eval, NoValue, ExprType, BinaryResult, UndefinedOperation, Changed, Steady;
  }

  lemma SecondFails(c: Context, g: Env, op: Operator, l: Expr, r: Expr, s: Config, a: Res)
    requires !op.OpComma? && !op.OpLogAnd? && !op.OpLogOr? && ExprType(g, l).Some? && ExprType(g, r).Some?
    requires var last := PointerLast(op, ExprType(g, l).value, ExprType(g, r).value);
      var (x, y) := if last then (r, l) else (l, r);
      Eval(c, g, x, s) == Some(a) && (Eval(c, g, y, a.s).None? <==> NoValue(c, g, y, a.s))
    ensures EvalBinary(c, g, op, l, r, s).None? <==> UndefinedBinary(c, g, op, l, r, s)
  {
    hide Eval, NoValue, ExprType, BinaryResult, UndefinedOperation, Changed, Steady;
    var tl, tr := ExprType(g, l).value, ExprType(g, r).value;
    var last := PointerLast(op, tl, tr);
    var (x, y) := if last then (r, l) else (l, r);
    var (tx, ty) := if last then (tr, tl) else (tl, tr);
    var b := Eval(c, g, y, a.s);
    if b.Some? {
      SteadyUnlessChanged(x, a.s, b.value.s);
      OperationFails(op, tx, ty, a.v, b.value.v);
      if last { SumDefined(tx, ty, a.v, b.value.v); }
    }
  }

  lemma SumDefined(ta: CType, tb: CType, a: int, b: int)
    ensures !UndefinedOperation(OpAdd, ta, tb, a, b)
  {
  }

  lemma {:induction false} ConditionalFails(c: Context, g: Env, test: Expr, yes: Expr, no: Expr, s: Config)
    ensures EvalConditional(c, g, test, yes, no, s).None? <==> NoValue(c, g, Conditional(test, yes, no), s)
    decreases Conditional(test, yes, no), 0
  {
    hide Eval, ExprType, Convert;
    EvalFails(c, g, test, s);
    var t := Eval(c, g, test, s);
    if t.Some? { EvalFails(c, g, if t.value.v != 0 then yes else no, t.value.s); }
  }

  lemma {:induction false} AssignmentFails(c: Context, g: Env, target: Expr, x: Expr, s: Config)
    ensures EvalAssignment(c, g, target, x, s).None? <==> NoValue(c, g, Assignment(target, x), s)
    decreases Assignment(target, x), 0
  {
    hide Eval, ExprType, Convert, EvalPlace, UndefinedPlace, Put, Unwritable, Steady, Changed;
    PlaceFails(c, g, target, s);
    var p := EvalPlace(c, g, target, s);
    if p.Some? {
      EvalFails(c, g, x, p.value.s);
      var r := Eval(c, g, x, p.value.s);
      if r.Some? && ExprType(g, target).Some? {
        var ty := ExprType(g, target).value;
        SteadyUnlessChanged(target, p.value.s, r.value.s);
        PutFails(c, ty, p.value.place, Convert(ty, r.value.v), r.value.s);
      }
    }
  }

  lemma {:induction false} CompoundFails(c: Context, g: Env, op: Operator, target: Expr, x: Expr, s: Config)
    ensures EvalCompound(c, g, op, target, x, s).None? <==> NoValue(c, g, Compound(op, target, x), s)
    decreases Compound(op, target, x), 0
  {
    hide Eval, ExprType, Convert, EvalPlace, UndefinedRead, Fetch, Put, Unwritable, Steady, Changed, CompoundResult,
        UndefinedUpdate;
    ReadFails(c, g, target, s);
    var was := EvalRead(c, g, target, s);
    if was.Some? && ExprType(g, x).Some? {
      var p, ty := EvalPlace(c, g, target, s).value, ExprType(g, target).value;
      EvalFails(c, g, x, p.s);
      var r := Eval(c, g, x, p.s);
      if r.Some? {
        SteadyUnlessChanged(target, p.s, r.value.s);
        UpdateFails(g.reading, op, ty, ExprType(g, x).value, was.value.v, r.value.v);
        var v := CompoundResult(g.reading, op, ty, ExprType(g, x).value, was.value.v, r.value.v);
        if v.Some? { PutFails(c, ty, p.place, v.value, r.value.s); }
      }
    }
  }

  lemma {:induction false} ArgsFail(c: Context, g: Env, args: seq<Expr>, s: Config)
    ensures EvalArgs(c, g, args, s).None? <==> UndefinedArgs(c, g, args, s)
    decreases args
  {
    hide Eval, NoValue, Steady, Changed;
    if args != [] {
      EvalFails(c, g, args[0], s);
      var first := Eval(c, g, args[0], s);
      if first.Some? {
        ArgsFail(c, g, args[1..], first.value.s);
        var rest := EvalArgs(c, g, args[1..], first.value.s);
        if rest.Some? { SteadyUnlessChanged(args[0], first.value.s, rest.value.s); }
      }
    }
  }

  lemma {:induction false} EffectsFail(c: Context, g: Env, e: Expr, s: Config)
    ensures Perform(c, g, e, s).None? <==> UndefinedEffects(c, g, e, s)
    decreases e, 2
  {
    hide Eval, NoValue, EvalPrefix, UndefinedRead, EvalArgs, UndefinedArgs;
    match e
    case Invoke(_, args) => ArgsFail(c, g, args, s);
    case Postfix(up, target) => PrefixFails(c, g, up, target, s);
    case _ => EvalFails(c, g, e, s);
  }
}
