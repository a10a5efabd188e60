/** Programs in which no run can take a guard: a check on the program's text and types. */
module Portability {
  import opened Options
  import opened Words
  import opened Ir
  import opened CTypes
  import opened Integers
  import opened Source
  import opened Readings

  /** No _Bool is added to in unsigned int, and no _Bool but a variable is stepped for the
      value before the step. */
  predicate Portable(g: Env, e: Expr)
    decreases e
  {
    match e
    case Invoke(_, args) => PortableArgs(g, args)
    case Unary(_, x) => Portable(g, x)
    case Deref(p) => Portable(g, p)
    case Cast(_, x) => Portable(g, x)
    case Prefix(_, target) => Portable(g, target)
    case Postfix(_, target) => Portable(g, target) && (ExprType(g, target) == Some(Bool) ==> target.Var?)
    case Binary(_, l, r) => Portable(g, l) && Portable(g, r)
    case Conditional(test, yes, no) => Portable(g, test) && Portable(g, yes) && Portable(g, no)
    case Assignment(target, r) => Portable(g, target) && Portable(g, r)
    case Compound(op, target, r) => Portable(g, target) && Portable(g, r) &&
        !BoolSum(op, ExprType(g, target), ExprType(g, r))
    case _ => true
  }

  predicate PortableArgs(g: Env, args: seq<Expr>)
    decreases args
  {
    args == [] || (Portable(g, args[0]) && PortableArgs(g, args[1..]))
  }

  predicate BoolSum(op: Operator, target: Option<CType>, r: Option<CType>)
  {
    op.OpAdd? && target == Some(Bool) && r.Some? && Arithmetic(Bool, r.value) == Some(UInt)
  }

  lemma StandardTypes(g: Env, e: Expr)
    ensures ExprType(With(g, Guarded), e) == ExprType(g, e) && ExprType(With(g, Standard), e) == ExprType(g, e)
  {
    TypeSame(g, Guarded, e);
    TypeSame(g, Standard, e);
  }

  /** A portable expression takes no guard. */
  lemma {:induction false} EvalPortable(c: Context, g: Env, e: Expr, s: Config)
    requires Portable(g, e)
    ensures Eval(c, With(g, Guarded), e, s) == Eval(c, With(g, Standard), e, s)
    decreases e, 1
  {
    hide EvalRead, EvalInvoke, EvalPrefix, EvalPostfix, EvalLogical, EvalBinary, EvalConditional, EvalAssignment,
        EvalCompound, EvalUnary, ExprType, Perform, Convert, BoolSum;
    match e
    case Literal(_, _) =>
    case Character(_) =>
    case Var(_) => ReadPortable(c, g, e, s);
    case GlobalVar(_) => ReadPortable(c, g, e, s);
    case Deref(_) => ReadPortable(c, g, e, s);
    case Invoke(name, args) => InvokePortable(c, g, name, args, s);
    case Unary(_, x) =>
      EvalPortable(c, g, x, s);
      StandardTypes(g, x);
    case Cast(_, x) => EvalPortable(c, g, x, s);
    case Prefix(up, target) => PrefixPortable(c, g, up, target, s);
    case Postfix(up, target) => PostfixPortable(c, g, up, target, s);
    case Binary(op, l, x) =>
      if op.OpComma? {
        PerformPortable(c, g, l, s);
        var s' := Perform(c, With(g, Guarded), l, s);
        if s'.Some? { EvalPortable(c, g, x, s'.value); }
      } else if op.OpLogAnd? || op.OpLogOr? {
        LogicalPortable(c, g, op, l, x, s);
      } else {
        BinaryPortable(c, g, op, l, x, s);
      }
    case Conditional(test, yes, no) => ConditionalPortable(c, g, test, yes, no, s);
    case Assignment(target, x) => AssignmentPortable(c, g, target, x, s);
    case Compound(op, target, x) => CompoundPortable(c, g, op, target, x, s);
  }

  /** Two expressions, one after the other. */
  lemma BothPortable(c: Context, g: Env, first: Expr, second: Expr, whole: Expr, s: Config)
    requires Portable(g, first) && Portable(g, second) && first < whole && second < whole
    ensures var r := Eval(c, With(g, Guarded), first, s);
      r == Eval(c, With(g, Standard), first, s) &&
          (r.Some? ==> Eval(c, With(g, Guarded), second, r.value.s) == Eval(c, With(g, Standard), second, r.value.s))
    decreases whole, 0, 0
  {
    hide Eval;
    EvalPortable(c, g, first, s);
    var r := Eval(c, With(g, Guarded), first, s);
    if r.Some? { EvalPortable(c, g, second, r.value.s); }
  }

  lemma ReadPortable(c: Context, g: Env, e: Expr, s: Config)
    requires Portable(g, e) && (e.Var? || e.GlobalVar? || e.Deref?)
    ensures EvalRead(c, With(g, Guarded), e, s) == EvalRead(c, With(g, Standard), e, s)
    decreases e, 0, 1
  {
    hide ExprType, EvalPlace, Fetch;
    StandardTypes(g, e);
    PlacePortable(c, g, e, s);
  }

  lemma PlacePortable(c: Context, g: Env, target: Expr, s: Config)
    requires Portable(g, target)
    ensures EvalPlace(c, With(g, Guarded), target, s) == EvalPlace(c, With(g, Standard), target, s)
    decreases target, 0, 0
  {
    hide Eval;
    if target.Deref? { EvalPortable(c, g, target.p, s); }
  }

  lemma InvokePortable(c: Context, g: Env, name: string, args: seq<Expr>, s: Config)
    requires PortableArgs(g, args)
    ensures EvalInvoke(c, With(g, Guarded), name, args, s) == EvalInvoke(c, With(g, Standard), name, args, s)
    decreases Invoke(name, args), 0
  {
    hide EvalArgs, CallEffect, ValueOfBytes, InRange;
    ArgsPortable(c, g, args, s);
  }

  lemma {:induction false} ArgsPortable(c: Context, g: Env, args: seq<Expr>, s: Config)
    requires PortableArgs(g, args)
    ensures EvalArgs(c, With(g, Guarded), args, s) == EvalArgs(c, With(g, Standard), args, s)
    decreases args
  {
    hide Eval, Steady, Pending, Portable;
    if args != [] {
      EvalPortable(c, g, args[0], s);
      var first := Eval(c, With(g, Guarded), args[0], s);
      if first.Some? { ArgsPortable(c, g, args[1..], first.value.s); }
    }
  }

  lemma PrefixPortable(c: Context, g: Env, up: bool, target: Expr, s: Config)
    requires Portable(g, target)
    ensures EvalPrefix(c, With(g, Guarded), up, target, s) == EvalPrefix(c, With(g, Standard), up, target, s)
    decreases target, 2
  {
    hide ExprType, EvalPlace, Fetch, Put, Convert, Stepped, Portable;
    StandardTypes(g, target);
    PlacePortable(c, g, target, s);
  }

  lemma PostfixPortable(c: Context, g: Env, up: bool, target: Expr, s: Config)
    requires Portable(g, Postfix(up, target))
    ensures EvalPostfix(c, With(g, Guarded), up, target, s) == EvalPostfix(c, With(g, Standard), up, target, s)
    decreases Postfix(up, target), 0
  {
    hide ExprType, Fetch, Put, Convert, Stepped, Eval;
    StandardTypes(g, target);
    PlacePortable(c, g, target, s);
  }

  lemma LogicalPortable(c: Context, g: Env, op: Operator, l: Expr, x: Expr, s: Config)
    requires Portable(g, Binary(op, l, x))
    ensures EvalLogical(c, With(g, Guarded), op, l, x, s) == EvalLogical(c, With(g, Standard), op, l, x, s)
    decreases Binary(op, l, x), 0
  {
    hide Eval;
    BothPortable(c, g, l, x, Binary(op, l, x), s);
  }

  lemma BinaryPortable(c: Context, g: Env, op: Operator, l: Expr, x: Expr, s: Config)
    requires Portable(g, Binary(op, l, x))
    ensures EvalBinary(c, With(g, Guarded), op, l, x, s) == EvalBinary(c, With(g, Standard), op, l, x, s)
    decreases Binary(op, l, x), 0
  {
    hide Eval, ExprType, BinaryResult, Steady, Pending;
    StandardTypes(g, l);
    StandardTypes(g, x);
    BothPortable(c, g, l, x, Binary(op, l, x), s);
    BothPortable(c, g, x, l, Binary(op, l, x), s);
  }

  lemma ConditionalPortable(c: Context, g: Env, test: Expr, yes: Expr, no: Expr, s: Config)
    requires Portable(g, Conditional(test, yes, no))
    ensures EvalConditional(c, With(g, Guarded), test, yes, no, s) ==
        EvalConditional(c, With(g, Standard), test, yes, no, s)
    decreases Conditional(test, yes, no), 0
  {
    hide Eval, ExprType, Convert;
    StandardTypes(g, Conditional(test, yes, no));
    BothPortable(c, g, test, yes, Conditional(test, yes, no), s);
    BothPortable(c, g, test, no, Conditional(test, yes, no), s);
  }

  lemma AssignmentPortable(c: Context, g: Env, target: Expr, x: Expr, s: Config)
    requires Portable(g, Assignment(target, x))
    ensures EvalAssignment(c, With(g, Guarded), target, x, s) == EvalAssignment(c, With(g, Standard), target, x, s)
    decreases Assignment(target, x), 0
  {
    hide Eval, EvalPlace, ExprType, Convert, Put, Steady, PendingPlace;
    StandardTypes(g, target);
    PlacePortable(c, g, target, s);
    var p := EvalPlace(c, With(g, Guarded), target, s);
    if p.Some? { EvalPortable(c, g, x, p.value.s); }
  }

  lemma CompoundPortable(c: Context, g: Env, op: Operator, target: Expr, x: Expr, s: Config)
    requires Portable(g, Compound(op, target, x))
    ensures EvalCompound(c, With(g, Guarded), op, target, x, s) == EvalCompound(c, With(g, Standard), op, target, x, s)
    decreases Compound(op, target, x), 0
  {
    hide Eval, EvalPlace, ExprType, Fetch, Put, Steady, PendingPlace, Pending, CompoundResult;
    StandardTypes(g, target);
    StandardTypes(g, x);
    PlacePortable(c, g, target, s);
    var p := EvalPlace(c, With(g, Guarded), target, s);
    if p.Some? {
      EvalPortable(c, g, x, p.value.s);
      if ExprType(g, target).Some? && ExprType(g, x).Some? {
        ResultPortable(op, ExprType(g, target).value, ExprType(g, x).value);
      }
    }
  }

  lemma ResultPortable(op: Operator, ta: CType, tb: CType)
    requires !BoolSum(op, Some(ta), Some(tb))
    ensures forall a, b :: CompoundResult(Guarded, op, ta, tb, a, b) == CompoundResult(Standard, op, ta, tb, a, b)
  {
    hide Raw, Convert, Usual;
  }

  lemma PerformPortable(c: Context, g: Env, e: Expr, s: Config)
    requires Portable(g, e)
    ensures Perform(c, With(g, Guarded), e, s) == Perform(c, With(g, Standard), e, s)
    decreases e, 2
  {
    hide Eval, EvalArgs, EvalPrefix, CallEffect;
    match e
    case Invoke(_, args) => ArgsPortable(c, g, args, s);
    case Postfix(up, target) => PrefixPortable(c, g, up, target, s);
    case _ => EvalPortable(c, g, e, s);
  }

  // ---- Portable means free of two constructs ----------------------------------------------------

  /** An expression and everything in it. */
  function Parts(e: Expr): seq<Expr>
    decreases e
  {
    [e] +
    match e
    case Invoke(_, args) => ArgsParts(args)
    case Unary(_, x) => Parts(x)
    case Deref(p) => Parts(p)
    case Cast(_, x) => Parts(x)
    case Prefix(_, target) => Parts(target)
    case Postfix(_, target) => Parts(target)
    case Binary(_, l, r) => Parts(l) + Parts(r)
    case Conditional(test, yes, no) => Parts(test) + Parts(yes) + Parts(no)
    case Assignment(target, r) => Parts(target) + Parts(r)
    case Compound(_, target, r) => Parts(target) + Parts(r)
    case _ => []
  }

  function ArgsParts(args: seq<Expr>): seq<Expr>
    decreases args
  {
    if args == [] then [] else Parts(args[0]) + ArgsParts(args[1..])
  }

  /** b += u with a _Bool b and a u that makes the sum unsigned int; or b++ and b-- where b is
      a _Bool in memory. */
  predicate Excepted(g: Env, e: Expr)
  {
    || (e.Compound? && e.op.OpAdd? && ExprType(g, e.target) == Some(Bool) && ExprType(g, e.r) == Some(UInt))
    || (e.Postfix? && ExprType(g, e.target) == Some(Bool) && !e.target.Var?)
  }

  predicate FreeOf(g: Env, parts: seq<Expr>) { forall x :: x in parts ==> !Excepted(g, x) }

  lemma BoolSumIsUnsigned(g: Env, e: Expr)
    requires e.Compound?
    ensures BoolSum(e.op, ExprType(g, e.target), ExprType(g, e.r)) <==> Excepted(g, e)
  {
    hide ExprType;
  }

  /** An expression is portable exactly when neither construct is in it. */
  lemma {:induction false} PortableExactly(g: Env, e: Expr)
    ensures Portable(g, e) <==> FreeOf(g, Parts(e))
    decreases e
  {
    hide Excepted, ExprType, BoolSum;
    match e
    case Invoke(_, args) => ArgsExactly(g, args); Split(g, e, ArgsParts(args), [], []);
    case Unary(_, x) => PortableExactly(g, x); Split(g, e, Parts(x), [], []);
    case Deref(p) => PortableExactly(g, p); Split(g, e, Parts(p), [], []);
    case Cast(_, x) => PortableExactly(g, x); Split(g, e, Parts(x), [], []);
    case Prefix(_, x) => PortableExactly(g, x); Split(g, e, Parts(x), [], []);
    case Postfix(_, x) => PortableExactly(g, x); Split(g, e, Parts(x), [], []);
    case Binary(_, l, r) => PortableExactly(g, l); PortableExactly(g, r); Split(g, e, Parts(l), Parts(r), []);
    case Conditional(a, b, x) =>
      PortableExactly(g, a);
      PortableExactly(g, b);
      PortableExactly(g, x);
      Split(g, e, Parts(a), Parts(b), Parts(x));
    case Assignment(l, r) => PortableExactly(g, l); PortableExactly(g, r); Split(g, e, Parts(l), Parts(r), []);
    case Compound(_, l, r) =>
      PortableExactly(g, l);
      PortableExactly(g, r);
      BoolSumIsUnsigned(g, e);
      Split(g, e, Parts(l), Parts(r), []);
    case _ => Split(g, e, [], [], []);
  }

  lemma Split(g: Env, e: Expr, a: seq<Expr>, b: seq<Expr>, d: seq<Expr>)
    ensures FreeOf(g, [e] + (a + b + d)) <==> !Excepted(g, e) && FreeOf(g, a) && FreeOf(g, b) && FreeOf(g, d)
    ensures a + [] + [] == a && a + b + [] == a + b && FreeOf(g, [])
    ensures !e.Compound? && !e.Postfix? ==> !Excepted(g, e)
    ensures e.Postfix? ==> (Excepted(g, e) <==> ExprType(g, e.target) == Some(Bool) && !e.target.Var?)
  {
    hide ExprType;
    var all := [e] + (a + b + d);
    if FreeOf(g, all) {
      assert e in all && (forall x :: x in a ==> x in all) && (forall x :: x in b ==> x in all) &&
        forall x :: x in d ==> x in all;
    }
  }

  lemma {:induction false} ArgsExactly(g: Env, args: seq<Expr>)
    ensures PortableArgs(g, args) <==> FreeOf(g, ArgsParts(args))
    decreases args
  {
    hide Excepted;
    if args != [] {
      PortableExactly(g, args[0]);
      ArgsExactly(g, args[1..]);
      var a, b := Parts(args[0]), ArgsParts(args[1..]);
      assert forall x :: x in a + b <==> x in a || x in b;
      if FreeOf(g, a + b) { assert FreeOf(g, a) && FreeOf(g, b); }
    }
  }
}
