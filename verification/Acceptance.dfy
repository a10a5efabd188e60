/** What the compiler accepts: exactly the well-formed expressions and statements. */
module Acceptance {
  import opened Options
  import opened Ir
  import opened CTypes
  import opened Source
  import opened Statements
  import opened Lowering
  import opened LowerStatements
  import opened LowerFunction
  import opened SwitchClauses
  import opened Typing

  // ---- Operators -----------------------------------------------------------------------------

  /** The type an operator's result has, if it has one. */
  lemma ResultType(op: Operator, a: CType, b: CType) returns (ty: CType)
    ensures (exists t :: Operates(op, a, b, t)) ==> Operates(op, a, b, ty)
    ensures Operates(op, a, b, ty) || !exists t :: Operates(op, a, b, t)
  {
    if t :| Operates(op, a, b, t) { ty := t; } else { ty := Int; }
  }

  lemma IntegersConverge(a: CType, b: CType)
    ensures (exists ty :: Converges(a, b, ty)) <==> IsInteger(a) && IsInteger(b)
  {
    hide Converges, Usual, Promote;
    if IsInteger(a) && IsInteger(b) {
      ConvergesIsUsual(a, b, Usual(Promote(a), Promote(b)));
    } else {
      forall ty ensures !Converges(a, b, ty) { OnlyIntegers(a, b, ty); }
    }
  }

  lemma AnyPromotes(a: CType)
    ensures exists ty :: Promotes(a, ty)
  {
    PromoteIsStandard(a, Promote(a));
  }

  lemma OperatorAccepted(op: Operator, a: CType, b: CType, ac: Code, bc: Code)
    requires !op.OpComma? && !op.OpLogAnd? && !op.OpLogOr?
    ensures (exists ty :: Operates(op, a, b, ty)) <==>
        if PointerLast(op, a, b) then LowerOperator(op, b, a, ac, bc).Some? else LowerOperator(op, a, b, ac, bc).Some?
  {
    hide Operates, LowerOperator, Converges, Promotes, IsRelation, PointerLast, IsInteger;
    IntegersConverge(a, b);
    AnyPromotes(a);
    if IsRelation(op) {
      RelationAccepted(op, a, b, ac, bc);
    } else if op.OpAdd? || op.OpSub? {
      SumAccepted(op, a, b, ac, bc);
    } else {
      PlainAccepted(op, a, b, ac, bc);
    }
  }

  lemma RelationAccepted(op: Operator, a: CType, b: CType, ac: Code, bc: Code)
    requires IsRelation(op)
    ensures !PointerLast(op, a, b) && LowerOperator(op, a, b, ac, bc).Some? && exists ty :: Operates(op, a, b, ty)
  {
    hide LowerOperator, Operates, IsRelation;
    RelationOperates(op, a, b);
    RelationLowers(op, a, b, ac, bc);
    NotSum(op);
  }

  lemma NotSum(op: Operator)
    requires IsRelation(op)
    ensures !op.OpAdd? && !op.OpSub?
  {
  }

  lemma RelationLowers(op: Operator, a: CType, b: CType, ac: Code, bc: Code)
    requires IsRelation(op)
    ensures LowerOperator(op, a, b, ac, bc).Some?
  {
    hide LowerRelation, ComparedType, IsRelation, LowerShift, LowerPlain, LowerOffset, LowerDifference, OperationType,
        SizeOf;
    Comparable(a, b);
  }

  lemma Comparable(a: CType, b: CType)
    ensures ComparedType(a, b).Some?
  {
    hide Usual, Promote;
  }

  lemma RelationOperates(op: Operator, a: CType, b: CType)
    requires IsRelation(op)
    ensures Operates(op, a, b, Int)
  {
    hide Converges;
  }

  lemma SumAccepted(op: Operator, a: CType, b: CType, ac: Code, bc: Code)
    requires (op.OpAdd? || op.OpSub?) && ((exists ty :: Converges(a, b, ty)) <==> IsInteger(a) && IsInteger(b))
    ensures (exists ty :: Operates(op, a, b, ty)) <==>
        if PointerLast(op, a, b) then LowerOperator(op, b, a, ac, bc).Some? else LowerOperator(op, a, b, ac, bc).Some?
  {
    hide Converges, LowerOperator, IsInteger, Operates;
    SumLowers(op, a, b, ac, bc);
    if a.Ptr? {
      PointerOperates(op, a, b, if op.OpSub? && b.Ptr? then Long else a);
    } else if op.OpAdd? && b.Ptr? {
      PointerOperates(op, a, b, b);
    } else {
      SameType(op, a, b);
    }
  }

  lemma PointerOperates(op: Operator, a: CType, b: CType, ty: CType)
    requires op.OpAdd? || op.OpSub?
    requires if a.Ptr? then ty == (if op.OpSub? && b.Ptr? then Long else a) else op.OpAdd? && b.Ptr? && ty == b
    ensures Operates(op, a, b, ty)
  {
    hide Converges;
  }

  lemma SumLowers(op: Operator, a: CType, b: CType, ac: Code, bc: Code)
    requires op.OpAdd? || op.OpSub?
    ensures (if PointerLast(op, a, b) then LowerOperator(op, b, a, ac, bc).Some?
             else LowerOperator(op, a, b, ac, bc).Some?) <==>
      a.Ptr? || (op.OpAdd? && b.Ptr?) || (IsInteger(a) && IsInteger(b))
  {
    hide LowerOffset, LowerDifference, Converted, Coerce, Usual, Promote, SizeOf;
  }

  lemma SameType(op: Operator, a: CType, b: CType)
    requires (op.OpAdd? || op.OpSub?) && !a.Ptr? && !(op.OpAdd? && b.Ptr?)
    ensures (exists ty :: Operates(op, a, b, ty)) <==> exists ty :: Converges(a, b, ty)
  {
    hide Converges;
    if ty :| Converges(a, b, ty) { assert Operates(op, a, b, ty); }
    if ty :| Operates(op, a, b, ty) { assert Converges(a, b, ty); }
  }

  predicate IsPlain(op: Operator)
  {
    !IsRelation(op) && !op.OpComma? && !op.OpLogAnd? && !op.OpLogOr? && !op.OpAdd? && !op.OpSub?
  }

  lemma PlainAccepted(op: Operator, a: CType, b: CType, ac: Code, bc: Code)
    requires IsPlain(op)
    requires (exists ty :: Converges(a, b, ty)) <==> IsInteger(a) && IsInteger(b)
    requires exists ty :: Promotes(a, ty)
    ensures !PointerLast(op, a, b)
    ensures (exists ty :: Operates(op, a, b, ty)) <==> LowerOperator(op, a, b, ac, bc).Some?
  {
    hide Converges, Promotes, Operates, LowerOperator, IsInteger;
    PlainLowers(op, a, b, ac, bc);
    forall ty ensures Operates(op, a, b, ty) <==>
        if IsShift(op) then IsInteger(a) && IsInteger(b) && Promotes(a, ty) else Converges(a, b, ty) {
      PlainOperates(op, a, b, ty);
    }
  }

  lemma PlainOperates(op: Operator, a: CType, b: CType, ty: CType)
    requires IsPlain(op)
    ensures Operates(op, a, b, ty) <==>
        if IsShift(op) then IsInteger(a) && IsInteger(b) && Promotes(a, ty) else Converges(a, b, ty)
  {
    hide Converges, Promotes;
  }

  lemma PlainLowers(op: Operator, a: CType, b: CType, ac: Code, bc: Code)
    requires IsPlain(op)
    ensures !PointerLast(op, a, b) && (LowerOperator(op, a, b, ac, bc).Some? <==> IsInteger(a) && IsInteger(b))
  {
    hide Converted, Coerce, Usual, Promote;
  }

  lemma CompoundAccepted(op: Operator, a: CType, b: CType, x: Operand, y: Operand, n: nat)
    ensures Updates(op, a, b) <==> LowerCompoundOp(op, a, b, x, y, n).Some?
  {
    hide Coerce, SizeOf, IsUnsigned, OperationType, IsShift, Updates, Promote;
    UpdatesWhen(op, a, b);
    ArithmeticWhen(op, a, b);
  }

  lemma UpdatesWhen(op: Operator, a: CType, b: CType)
    ensures Updates(op, a, b) <==>
      if a.Ptr? && (op.OpAdd? || op.OpSub?) then true
      else OperationType(op, a, b).Some? && !IsRelation(op) && !op.OpLogAnd? && !op.OpLogOr? && !op.OpComma?
  {
    hide Usual, Promote;
  }

  lemma ArithmeticWhen(op: Operator, a: CType, b: CType)
    ensures forall ty ::
      ArithmeticOp(op, ty).Some? <==> !IsRelation(op) && !op.OpLogAnd? && !op.OpLogOr? && !op.OpComma?
  {
    hide IsUnsigned;
  }

  lemma JoinsExists(a: CType, b: CType)
    ensures exists ty :: Joins(a, b, ty)
  {
    hide Converges;
    IntegersConverge(a, b);
    if a.Ptr? {
      assert Joins(a, b, a);
    } else if b.Ptr? {
      assert Joins(a, b, b);
    } else {
      var ty :| Converges(a, b, ty);
      assert Joins(a, b, ty);
    }
  }

  // ---- Expressions -----------------------------------------------------------------------------

  /** A well-formed expression has the compiler's type for it. */
  lemma TypeOf(g: Env, e: Expr) returns (ty: CType)
    requires WellTyped(g, e)
    ensures HasType(g, e, ty) && ExprType(g, e) == Some(ty)
  {
    hide HasType, ExprType;
    ty :| HasType(g, e, ty);
    TypeIsStandard(g, e, ty);
  }

  /** An expression's parts decide whether it is well formed. */
  lemma PartsTyped(g: Env, e: Expr)
    ensures match e
      case Literal(v, s) => WellTyped(g, e) <==> v < 0x1_0000_0000_0000_0000
      case Character(_) => WellTyped(g, e)
      case Var(x) => WellTyped(g, e) <==> x in g.vars
      case GlobalVar(name) => WellTyped(g, e) <==> name in g.globals
      case Invoke(name, args) => WellTyped(g, e) <==> name in g.functions && HaveTypes(g, args)
      case Cast(_, x) => WellTyped(g, e) <==> WellTyped(g, x)
      case Prefix(_, target) => WellTyped(g, e) <==> IsLvalue(target) && WellTyped(g, target)
      case Postfix(_, target) => WellTyped(g, e) <==> IsLvalue(target) && WellTyped(g, target)
      case Assignment(target, x) =>
        WellTyped(g, e) <==> IsLvalue(target) && WellTyped(g, target) && WellTyped(g, x)
      case _ => true
  {
    hide LiteralType, TypesLiteral;
    match e
    case Literal(v, s) =>
      LiteralIsStandard(v, s);
      assert v < 0x1_0000_0000_0000_0000 ==> HasType(g, e, LiteralType(v, s));
    case Character(_) => assert HasType(g, e, Int);
    case Var(x) => assert x in g.vars ==> HasType(g, e, g.vars[x]);
    case GlobalVar(name) => assert name in g.globals ==> HasType(g, e, g.globals[name]);
    case Invoke(name, args) => assert name in g.functions && HaveTypes(g, args) ==> HasType(g, e, g.functions[name]);
    case Cast(ty, x) => assert WellTyped(g, x) ==> HasType(g, e, ty);
    case _ => SameTypes(g, e);
  }

  /** Steps and assignments have their target's type. */
  lemma SameTypes(g: Env, e: Expr)
    ensures e.Prefix? || e.Postfix? ==> (WellTyped(g, e) <==> IsLvalue(e.target) && WellTyped(g, e.target))
    ensures e.Assignment? ==> (WellTyped(g, e) <==> IsLvalue(e.target) && WellTyped(g, e.target) && WellTyped(g, e.r))
  {
    hide TypesLiteral, Operates, Joins, Updates, Promotes;
    if e.Prefix? || e.Postfix? || e.Assignment? {
      if ty :| HasType(g, e.target, ty) {
        assert HasType(g, e, ty) <==> IsLvalue(e.target) && (e.Assignment? ==> WellTyped(g, e.r));
      }
    }
  }

  lemma DerefTyped(g: Env, e: Expr)
    requires e.Deref?
    ensures WellTyped(g, e) <==> WellTyped(g, e.p) && ExprType(g, e.p).Some? && ExprType(g, e.p).value.Ptr?
  {
    if WellTyped(g, e.p) {
      var ty := TypeOf(g, e.p);
      if ty.Ptr? { assert HasType(g, e, ty.elem); }
      if t :| HasType(g, e, t) { TypeIsStandard(g, e.p, Ptr(t)); }
    }
  }

  lemma UnaryTyped(g: Env, e: Expr)
    requires e.Unary?
    ensures WellTyped(g, e) <==> WellTyped(g, e.e)
  {
    hide Promotes;
    if a :| HasType(g, e.e, a) {
      AnyPromotes(a);
      var ty :| Promotes(a, ty);
      assert HasType(g, e, if e.uop.Not? then Int else ty);
    }
  }

  lemma BinaryTyped(g: Env, e: Expr)
    requires e.Binary?
    ensures WellTyped(g, e) <==>
      WellTyped(g, e.l) && WellTyped(g, e.r) && ExprType(g, e.l).Some? && ExprType(g, e.r).Some? &&
      exists ty :: Operates(e.op, ExprType(g, e.l).value, ExprType(g, e.r).value, ty)
  {
    hide Operates, ExprType;
    if WellTyped(g, e) {
      var ty := TypeOf(g, e);
      var a, b :| HasType(g, e.l, a) && HasType(g, e.r, b) && Operates(e.op, a, b, ty);
      TypeIsStandard(g, e.l, a);
      TypeIsStandard(g, e.r, b);
    }
    if WellTyped(g, e.l) && WellTyped(g, e.r) {
      var a := TypeOf(g, e.l);
      var b := TypeOf(g, e.r);
      if ty :| Operates(e.op, a, b, ty) { assert HasType(g, e, ty); }
    }
  }

  lemma ConditionalTyped(g: Env, e: Expr)
    requires e.Conditional?
    ensures WellTyped(g, e) <==> WellTyped(g, e.test) && WellTyped(g, e.yes) && WellTyped(g, e.no)
    ensures WellTyped(g, e) ==> ExprType(g, e).Some?
  {
    hide Joins, ExprType;
    if WellTyped(g, e.yes) && WellTyped(g, e.no) && WellTyped(g, e.test) {
      var a := TypeOf(g, e.yes);
      var b := TypeOf(g, e.no);
      JoinsExists(a, b);
      var ty :| Joins(a, b, ty);
      assert HasType(g, e, ty);
      TypeIsStandard(g, e, ty);
    }
  }

  lemma CompoundTyped(g: Env, e: Expr)
    requires e.Compound?
    ensures WellTyped(g, e) <==>
      IsLvalue(e.target) && WellTyped(g, e.target) && WellTyped(g, e.r) &&
      ExprType(g, e.target).Some? && ExprType(g, e.r).Some? &&
      Updates(e.op, ExprType(g, e.target).value, ExprType(g, e.r).value)
  {
    hide Updates, ExprType;
    if WellTyped(g, e) {
      var ty := TypeOf(g, e);
      var b :| HasType(g, e.r, b) && Updates(e.op, ty, b);
      TypeIsStandard(g, e.target, ty);
      TypeIsStandard(g, e.r, b);
    }
    if IsLvalue(e.target) && WellTyped(g, e.target) && WellTyped(g, e.r) {
      var a := TypeOf(g, e.target);
      var b := TypeOf(g, e.r);
      if Updates(e.op, a, b) { assert HasType(g, e, a); }
    }
  }

  /** Lowering accepts exactly the well-formed expressions. */
  lemma {:induction false} ExprAccepted(g: Env, e: Expr, n: nat)
    ensures LowerExpr(g, e, n).Some? <==> WellTyped(g, e)
    decreases e, 3
  {
    hide *;
    PartsTyped(g, e);
    match e
    case Literal(_, _) => AtomAccepted(g, e, n);
    case Character(_) => AtomAccepted(g, e, n);
    case Var(_) => AtomAccepted(g, e, n);
    case GlobalVar(_) => ReadAccepted(g, e, n);
    case Deref(_) => ReadAccepted(g, e, n);
    case Invoke(_, args) =>
      ArgsAccepted(g, args, n);
      InvokeAccepted(g, e, n);
    case Unary(_, x) =>
      ExprAccepted(g, x, n);
      UnaryTyped(g, e);
      UnaryAccepted(g, e, n);
    case Cast(_, x) =>
      ExprAccepted(g, x, n);
      CastAccepted(g, e, n);
    case Prefix(up, target) => StepAccepted(g, e, n);
    case Postfix(up, target) => StepAccepted(g, e, n);
    case Binary(op, l, r) =>
      if op.OpComma? {
        CommaAccepted(g, e, n);
      } else if op.OpLogAnd? || op.OpLogOr? {
        LogicalAccepted(g, e, n);
      } else {
        BinaryAccepted(g, e, n);
      }
    case Conditional(_, _, _) => ConditionalAccepted(g, e, n);
    case Assignment(_, _) => AssignmentAccepted(g, e, n);
    case Compound(_, _, _) => UpdateAccepted(g, e, n);
  }

  lemma AtomAccepted(g: Env, e: Expr, n: nat)
    requires e.Literal? || e.Character? || e.Var?
    ensures LowerExpr(g, e, n).Some? <==> match e
      case Literal(v, _) => v < 0x1_0000_0000_0000_0000
      case Character(_) => true
      case Var(x) => x in g.vars
      case _ => true
  {
    hide Coerce, LiteralOperand;
  }

  lemma InvokeAccepted(g: Env, e: Expr, n: nat)
    requires e.Invoke?
    ensures LowerExpr(g, e, n).Some? <==> e.name in g.functions && LowerArgs(g, e.args, n).Some?
  {
    hide LowerArgs;
  }

  lemma UnaryAccepted(g: Env, e: Expr, n: nat)
    requires e.Unary? && (LowerExpr(g, e.e, n).Some? <==> WellTyped(g, e.e))
    ensures LowerExpr(g, e, n).Some? <==> WellTyped(g, e.e)
  {
    hide LowerUnary, WellTyped, HasType;
    if WellTyped(g, e.e) { var _ := TypeOf(g, e.e); }
  }

  lemma CastAccepted(g: Env, e: Expr, n: nat)
    requires e.Cast?
    ensures LowerExpr(g, e, n).Some? <==> LowerExpr(g, e.e, n).Some?
  {
    hide Then;
  }

  /** An lvalue's place, with its type. */
  lemma {:induction false} PlaceAccepted(g: Env, e: Expr, n: nat)
    ensures LowerPlace(g, e, n).Some? <==> IsLvalue(e) && WellTyped(g, e)
    ensures LowerPlace(g, e, n).Some? ==> Some(LowerPlace(g, e, n).value.place.ty) == ExprType(g, e)
    decreases e, 0
  {
    hide WellTyped, HasType, LowerExpr;
    PartsTyped(g, e);
    if e.Deref? {
      ExprAccepted(g, e.p, n);
      DerefTyped(g, e);
    }
  }

  lemma {:induction false} ReadAccepted(g: Env, e: Expr, n: nat)
    requires e.GlobalVar? || e.Deref?
    ensures LowerExpr(g, e, n).Some? <==> WellTyped(g, e)
    decreases e, 1
  {
    hide WellTyped, HasType, LowerPlace, ReadPlace;
    PlaceAccepted(g, e, n);
  }

  lemma {:induction false} StepAccepted(g: Env, e: Expr, n: nat)
    requires e.Prefix? || e.Postfix?
    ensures LowerExpr(g, e, n).Some? <==> WellTyped(g, e)
    decreases e, 1
  {
    hide WellTyped, HasType, LowerPlace, ReadPlace, Coerce, WritePlace;
    SameTypes(g, e);
    PlaceAccepted(g, e.target, n);
  }

  lemma {:induction false} EffectsAccepted(g: Env, e: Expr, n: nat)
    ensures LowerEffects(g, e, n).Some? <==> WellTyped(g, e)
    decreases e, 4
  {
    hide WellTyped, HasType, LowerExpr, LowerArgs, LowerPrefix;
    PartsTyped(g, e);
    if e.Invoke? {
      ArgsAccepted(g, e.args, n);
    } else if e.Postfix? {
      PrefixAccepted(g, e.up, e.target, n);
    } else {
      ExprAccepted(g, e, n);
    }
  }

  lemma {:induction false} PrefixAccepted(g: Env, up: bool, target: Expr, n: nat)
    ensures LowerPrefix(g, up, target, n).Some? <==> IsLvalue(target) && WellTyped(g, target)
    decreases target, 1
  {
    hide WellTyped, HasType, LowerPlace, ReadPlace, Coerce, WritePlace;
    PlaceAccepted(g, target, n);
  }

  lemma {:induction false} ArgsAccepted(g: Env, args: seq<Expr>, n: nat)
    ensures LowerArgs(g, args, n).Some? <==> HaveTypes(g, args)
    decreases args
  {
    hide WellTyped, HasType, LowerExpr;
    if args != [] {
      ExprAccepted(g, args[0], n);
      if LowerExpr(g, args[0], n).Some? { ArgsAccepted(g, args[1..], LowerExpr(g, args[0], n).value.next); }
    }
  }

  lemma {:induction false} CommaAccepted(g: Env, e: Expr, n: nat)
    requires e.Binary? && e.op.OpComma?
    ensures LowerExpr(g, e, n).Some? <==> WellTyped(g, e)
    decreases e, 1
  {
    hide WellTyped, HasType, LowerEffects;
    BinaryTyped(g, e);
    EffectsAccepted(g, e.l, n);
    if WellTyped(g, e.l) { var _ := TypeOf(g, e.l); }
    if WellTyped(g, e.r) { var b := TypeOf(g, e.r); }
    if LowerEffects(g, e.l, n).Some? { ExprAccepted(g, e.r, LowerEffects(g, e.l, n).value.next); }
    if WellTyped(g, e.l) && WellTyped(g, e.r) {
      assert Operates(e.op, ExprType(g, e.l).value, ExprType(g, e.r).value, ExprType(g, e.r).value);
    }
  }

  lemma {:induction false} LogicalAccepted(g: Env, e: Expr, n: nat)
    requires e.Binary? && (e.op.OpLogAnd? || e.op.OpLogOr?)
    ensures LowerExpr(g, e, n).Some? <==> WellTyped(g, e)
    decreases e, 1
  {
    hide WellTyped, HasType, LowerExpr, Operates, ExprType;
    BinaryTyped(g, e);
    LogicalLowers(g, e, n);
    ExprAccepted(g, e.l, n);
    if LowerExpr(g, e.l, n).Some? { ExprAccepted(g, e.r, LowerExpr(g, e.l, n).value.next); }
    if WellTyped(g, e.l) && WellTyped(g, e.r) {
      var a := TypeOf(g, e.l);
      var b := TypeOf(g, e.r);
      LogicalOperates(e.op, a, b);
    }
  }

  lemma LogicalOperates(op: Operator, a: CType, b: CType)
    requires op.OpLogAnd? || op.OpLogOr?
    ensures Operates(op, a, b, Int)
  {
    hide Converges;
  }

  lemma LogicalLowers(g: Env, e: Expr, n: nat)
    requires e.Binary? && (e.op.OpLogAnd? || e.op.OpLogOr?)
    ensures LowerExpr(g, e, n).Some? <==>
      LowerExpr(g, e.l, n).Some? && LowerExpr(g, e.r, LowerExpr(g, e.l, n).value.next).Some?
  {
    assert LowerExpr(g, e, n) == LowerLogical(g, e.op, e.l, e.r, n);
    hide LowerExpr;
    if LowerExpr(g, e.l, n).Some? { TruthLowers(g, e.r, LowerExpr(g, e.l, n).value.next); }
    hide LowerTruth;
  }

  lemma TruthLowers(g: Env, e: Expr, n: nat)
    ensures LowerTruth(g, e, n).Some? <==> LowerExpr(g, e, n).Some?
  {
    hide LowerExpr, IsBoolean;
  }

  lemma {:induction false} BinaryAccepted(g: Env, e: Expr, n: nat)
    requires e.Binary? && !e.op.OpComma? && !e.op.OpLogAnd? && !e.op.OpLogOr?
    ensures LowerExpr(g, e, n).Some? <==> WellTyped(g, e)
    decreases e, 1
  {
    hide WellTyped, HasType, LowerOperator, Operates, ExprType;
    BinaryTyped(g, e);
    if WellTyped(g, e.l) { var _ := TypeOf(g, e.l); }
    if WellTyped(g, e.r) { var _ := TypeOf(g, e.r); }
    var a, b := ExprType(g, e.l), ExprType(g, e.r);
    if a.Some? && b.Some? {
      var (x, y) := if PointerLast(e.op, a.value, b.value) then (e.r, e.l) else (e.l, e.r);
      ExprAccepted(g, x, n);
      if LowerExpr(g, x, n).Some? {
        var xc := LowerExpr(g, x, n).value;
        ExprAccepted(g, y, xc.next);
        if LowerExpr(g, y, xc.next).Some? {
          OperatorAccepted(e.op, a.value, b.value, xc, LowerExpr(g, y, xc.next).value);
        }
      }
    }
  }

  lemma {:induction false} ConditionalAccepted(g: Env, e: Expr, n: nat)
    requires e.Conditional?
    ensures LowerExpr(g, e, n).Some? <==> WellTyped(g, e)
    decreases e, 1
  {
    hide WellTyped, HasType, ExprType, Coerce;
    ConditionalTyped(g, e);
    ExprAccepted(g, e.test, n);
    if LowerExpr(g, e.test, n).Some? {
      var c := LowerExpr(g, e.test, n).value;
      ExprAccepted(g, e.yes, c.next);
      if LowerExpr(g, e.yes, c.next).Some? { ExprAccepted(g, e.no, LowerExpr(g, e.yes, c.next).value.next); }
    }
  }

  lemma {:induction false} AssignmentAccepted(g: Env, e: Expr, n: nat)
    requires e.Assignment?
    ensures LowerExpr(g, e, n).Some? <==> WellTyped(g, e)
    decreases e, 1
  {
    hide WellTyped, HasType, LowerPlace, WritePlace, Coerce;
    SameTypes(g, e);
    PlaceAccepted(g, e.target, n);
    if LowerPlace(g, e.target, n).Some? { ExprAccepted(g, e.r, LowerPlace(g, e.target, n).value.next); }
  }

  lemma {:induction false} UpdateAccepted(g: Env, e: Expr, n: nat)
    requires e.Compound?
    ensures LowerExpr(g, e, n).Some? <==> WellTyped(g, e)
    decreases e, 1
  {
    hide WellTyped, HasType, LowerPlace, WritePlace, ReadPlace, Coerce, LowerCompoundOp, Updates, ExprType;
    CompoundTyped(g, e);
    PlaceAccepted(g, e.target, n);
    if WellTyped(g, e.r) { var _ := TypeOf(g, e.r); }
    if LowerPlace(g, e.target, n).Some? {
      var p := LowerPlace(g, e.target, n).value;
      var cur := ReadPlace(p.place, p.next);
      ExprAccepted(g, e.r, cur.next);
      if LowerExpr(g, e.r, cur.next).Some? && ExprType(g, e.r).Some? {
        var a := LowerExpr(g, e.r, cur.next).value;
        CompoundAccepted(e.op, p.place.ty, ExprType(g, e.r).value, cur.op, a.op, a.next);
      }
    }
  }

  // ---- Statements ---------------------------------------------------------------------------------

  ghost predicate AcceptedMaybe(g: Env, e: Option<Expr>) { e.Some? ==> WellTyped(g, e.value) }

  ghost predicate AcceptedDeclare(g: Env, ds: seq<Declarator>)
  {
    forall k :: 0 <= k < |ds| ==> ds[k].x in g.vars && AcceptedMaybe(g, ds[k].init)
  }

  ghost predicate AcceptedInit(g: Env, init: ForInit)
  {
    match init
    case NoInit => true
    case InitExpr(e) => WellTyped(g, e)
    case InitDecls(ds) => AcceptedDeclare(g, ds)
  }

  /** Well-formed statements: names declared, expressions well formed, break in a loop or a
      switch, continue in a loop, and labels directly in a switch. What follows a jump is
      never reached, and not looked at. */
  ghost predicate Accepted(g: Env, stmts: seq<Stmt>, breaks: bool, continues: bool)
    decreases Size(stmts), 1
  {
    if stmts == [] then true else
    HeadSize(stmts);
    match stmts[0]
    case ReturnWith(result) => AcceptedMaybe(g, result)
    case Break => breaks
    case Continue => continues
    case Case(_) => false
    case Default => false
    case stmt => AcceptedOne(g, stmt, breaks, continues) && Accepted(g, stmts[1..], breaks, continues)
  }

  ghost predicate AcceptedOne(g: Env, stmt: Stmt, breaks: bool, continues: bool)
    decreases StmtSize(stmt), 0
  {
    match stmt
    case Declare(ds) => AcceptedDeclare(g, ds)
    case Evaluate(e) => WellTyped(g, e)
    case If(cond, yes, no) =>
      WellTyped(g, cond) && Accepted(g, yes, breaks, continues) && Accepted(g, no, breaks, continues)
    case While(cond, body) => WellTyped(g, cond) && Accepted(g, body, true, true)
    case DoWhile(body, cond) => WellTyped(g, cond) && Accepted(g, body, true, true)
    case For(init, test, step, body) =>
      AcceptedInit(g, init) && AcceptedMaybe(g, test) && AcceptedMaybe(g, step) && Accepted(g, body, true, true)
    case Switch(value, body) =>
      WellTyped(g, value) && AcceptedLabels(g, Labelled(body), continues)
    case Scope(body) => Accepted(g, body, breaks, continues)
    case _ => true
  }

  /** The statements in the block that is a switch's body. */
  function Labelled(body: seq<Stmt>): (stmts: seq<Stmt>)
    ensures Size(stmts) <= Size(body)
  {
    if |body| == 1 && body[0].Scope? then
      HeadSize(body);
      body[0].body
    else body
  }

  /** Every label's constant, and the statements from it to the next label. */
  ghost predicate AcceptedLabels(g: Env, stmts: seq<Stmt>, continues: bool)
    decreases Size(stmts), 2
  {
    if stmts == [] then true else
    HeadSize(stmts);
    (stmts[0].Case? || stmts[0].Default? ==>
      (stmts[0].Case? ==> WellTyped(g, stmts[0].constant)) && Accepted(g, Stretch(stmts[1..]), true, continues)) &&
    AcceptedLabels(g, stmts[1..], continues)
  }

  /** The statements before the next label. */
  function Stretch(stmts: seq<Stmt>): (r: seq<Stmt>)
    ensures Size(r) <= Size(stmts)
  {
    if stmts == [] || stmts[0].Case? || stmts[0].Default? then [] else
    HeadSize(stmts);
    HeadSize([stmts[0]] + Stretch(stmts[1..]));
    [stmts[0]] + Stretch(stmts[1..])
  }

  lemma {:induction false} ConditionAccepted(g: Env, bid: nat, instrs: seq<Instr>, cond: Expr, yes: nat, no: nat,
      st: St)
    ensures LowerCondition(g, bid, instrs, cond, yes, no, st).Some? <==> WellTyped(g, cond)
    decreases cond
  {
    hide WellTyped, LowerValueCondition, LowerComparison, Operates, ExprType;
    match cond
    case Binary(op, l, r) =>
      if op.OpLogAnd? || op.OpLogOr? {
        ShortAccepted(g, bid, instrs, cond, yes, no, st);
      } else {
        ValueAccepted(g, bid, instrs, cond, yes, no, st);
        if IsRelation(op) { ComparisonAccepted(g, bid, instrs, op, l, r, yes, no, st); }
      }
    case Unary(Not, x) =>
      ConditionAccepted(g, bid, instrs, x, no, yes, st);
      UnaryTyped(g, cond);
    case _ => ValueAccepted(g, bid, instrs, cond, yes, no, st);
  }

  lemma {:induction false} ShortAccepted(g: Env, bid: nat, instrs: seq<Instr>, cond: Expr, yes: nat, no: nat, st: St)
    requires cond.Binary? && (cond.op.OpLogAnd? || cond.op.OpLogOr?)
    ensures LowerCondition(g, bid, instrs, cond, yes, no, st).Some? <==> WellTyped(g, cond)
    decreases cond, 0
  {
    hide WellTyped, LowerValueCondition, LowerComparison, Operates, ExprType;
    BinaryTyped(g, cond);
    var right := st.block;
    var (y, n) := if cond.op.OpLogAnd? then (right, no) else (yes, right);
    ConditionAccepted(g, bid, instrs, cond.l, y, n, st.(block := right + 1));
    var a := LowerCondition(g, bid, instrs, cond.l, y, n, st.(block := right + 1));
    if a.Some? { ConditionAccepted(g, right, [], cond.r, yes, no, a.value.st); }
    if WellTyped(g, cond.l) && WellTyped(g, cond.r) {
      var p := TypeOf(g, cond.l);
      var q := TypeOf(g, cond.r);
      LogicalOperates(cond.op, p, q);
    }
  }

  lemma ValueAccepted(g: Env, bid: nat, instrs: seq<Instr>, cond: Expr, yes: nat, no: nat, st: St)
    ensures LowerValueCondition(g, bid, instrs, cond, yes, no, st).Some? <==> WellTyped(g, cond)
  {
    hide WellTyped, LowerExpr;
    ExprAccepted(g, cond, st.temp);
  }

  lemma ComparisonAccepted(g: Env, bid: nat, instrs: seq<Instr>, op: Operator, l: Expr, r: Expr, yes: nat, no: nat,
      st: St)
    requires IsRelation(op)
    ensures LowerComparison(g, bid, instrs, op, l, r, yes, no, st).Some? <==> WellTyped(g, Binary(op, l, r))
  {
    hide WellTyped, LowerExpr, Operates, ExprType, Converted;
    BinaryTyped(g, Binary(op, l, r));
    ExprAccepted(g, l, st.temp);
    if LowerExpr(g, l, st.temp).Some? { ExprAccepted(g, r, LowerExpr(g, l, st.temp).value.next); }
    if WellTyped(g, l) && WellTyped(g, r) {
      var p := TypeOf(g, l);
      var q := TypeOf(g, r);
      RelationOperates(op, p, q);
    }
  }

  lemma {:induction false} DeclareAccepted(g: Env, ds: seq<Declarator>, n: nat)
    ensures LowerDeclare(g, ds, n).Some? <==> AcceptedDeclare(g, ds)
    decreases |ds|
  {
    hide WellTyped, LowerExpr, Coerce;
    if ds != [] {
      if ds[0].init.Some? { ExprAccepted(g, ds[0].init.value, n); }
      if ds[0].x in g.vars && LowerDeclarator(g, ds[0], n).Some? {
        DeclareAccepted(g, ds[1..], LowerDeclarator(g, ds[0], n).value.next);
        DeclareSplit(g, ds);
      }
    }
  }

  lemma DeclareSplit(g: Env, ds: seq<Declarator>)
    requires ds != []
    ensures AcceptedDeclare(g, ds) <==>
      ds[0].x in g.vars && AcceptedMaybe(g, ds[0].init) && AcceptedDeclare(g, ds[1..])
  {
    hide AcceptedMaybe;
    if AcceptedDeclare(g, ds[1..]) && ds[0].x in g.vars && AcceptedMaybe(g, ds[0].init) {
      forall k | 0 <= k < |ds| ensures ds[k].x in g.vars && AcceptedMaybe(g, ds[k].init) {
        if k > 0 { assert ds[k] == ds[1..][k - 1]; }
      }
    }
  }

  lemma MaybeAccepted(g: Env, step: Option<Expr>, n: nat)
    ensures LowerStep(g, step, n).Some? <==> AcceptedMaybe(g, step)
  {
    hide WellTyped, LowerEffects;
    if step.Some? { EffectsAccepted(g, step.value, n); }
  }

  lemma InitAccepted(g: Env, init: ForInit, n: nat)
    ensures LowerInit(g, init, n).Some? <==> AcceptedInit(g, init)
  {
    hide WellTyped, LowerEffects, LowerDeclare, AcceptedDeclare;
    if init.InitExpr? { EffectsAccepted(g, init.e, n); }
    if init.InitDecls? { DeclareAccepted(g, init.ds, n); }
  }

  lemma TestAccepted(g: Env, test: Option<Expr>, condId: nat, bodyId: nat, restId: nat, st: St)
    ensures LowerTest(g, test, condId, bodyId, restId, st).Some? <==> AcceptedMaybe(g, test)
  {
    hide WellTyped, LowerCondition;
    if test.Some? { ConditionAccepted(g, condId, [], test.value, bodyId, restId, st); }
  }

  lemma ReturnAccepted(g: Env, ret: Option<CType>, bid: nat, instrs: seq<Instr>, result: Option<Expr>, st: St)
    ensures LowerReturn(g, ret, bid, instrs, result, st).Some? <==> AcceptedMaybe(g, result)
  {
    hide WellTyped, LowerExpr, Coerce;
    if result.Some? { ExprAccepted(g, result.value, st.temp); }
  }

  /** Lowering accepts exactly the well-formed statements, whatever surrounds them. */
  lemma {:induction false} ListAccepted(g: Env, ret: Option<CType>, j: Jumps, bid: nat, instrs: seq<Instr>,
      stmts: seq<Stmt>, term: Term, st: St)
    ensures LowerList(g, ret, j, bid, instrs, stmts, term, st).Some? <==>
      Accepted(g, stmts, j.breakTo.Some?, j.continueTo.Some?)
    decreases Size(stmts), 3
  {
    hide LowerExpr, LowerEffects, LowerDeclare, LowerFor, LowerSwitch, LowerIf, LowerJoin, LowerWhile, LowerDoWhile,
        LowerReturn, Size, StmtSize, AcceptedOne, WellTyped, AcceptedMaybe, AcceptedDeclare;
    if stmts != [] {
      HeadSize(stmts);
      var rest := stmts[1..];
      match stmts[0]
      case ReturnWith(result) => ReturnAccepted(g, ret, bid, instrs, result, st);
      case Declare(ds) =>
        DeclareAccepted(g, ds, st.temp);
        OneIs(g, stmts[0], j);
        if LowerDeclare(g, ds, st.temp).Some? {
          var a := LowerDeclare(g, ds, st.temp).value;
          ListAccepted(g, ret, j, bid, instrs + a.instrs, rest, term, st.(temp := a.next));
        }
      case Typedef =>
        OneIs(g, stmts[0], j);
        ListAccepted(g, ret, j, bid, instrs, rest, term, st);
      case Evaluate(e) =>
        EffectsAccepted(g, e, st.temp);
        OneIs(g, stmts[0], j);
        if LowerEffects(g, e, st.temp).Some? {
          var a := LowerEffects(g, e, st.temp).value;
          ListAccepted(g, ret, j, bid, instrs + a.instrs, rest, term, st.(temp := a.next));
        }
      case Scope(body) => ScopeAccepted(g, ret, j, bid, instrs, stmts, term, st);
      case While(_, _) => LoopAccepted(g, ret, j, bid, instrs, stmts, term, st);
      case DoWhile(_, _) => LoopAccepted(g, ret, j, bid, instrs, stmts, term, st);
      case For(_, _, _, _) => LoopAccepted(g, ret, j, bid, instrs, stmts, term, st);
      case Switch(value, body) => SwitchAccepted(g, ret, j, bid, instrs, stmts, term, st);
      case If(cond, yes, no) => IfAccepted(g, ret, j, bid, instrs, stmts, term, st);
      case _ =>
    }
  }

  lemma {:induction false} LoopAccepted(g: Env, ret: Option<CType>, j: Jumps, bid: nat, instrs: seq<Instr>,
      stmts: seq<Stmt>, term: Term, st: St)
    requires stmts != [] && (stmts[0].While? || stmts[0].DoWhile? || stmts[0].For?)
    ensures LowerList(g, ret, j, bid, instrs, stmts, term, st).Some? <==>
      Accepted(g, stmts, j.breakTo.Some?, j.continueTo.Some?)
    decreases Size(stmts), 2
  {
    hide LowerExpr, LowerEffects, LowerDeclare, LowerFor, LowerSwitch, LowerIf, LowerJoin, LowerWhile, LowerDoWhile,
        LowerReturn, Size, StmtSize, AcceptedOne, WellTyped, AcceptedMaybe, AcceptedDeclare;
    HeadSize(stmts);
    var rest := stmts[1..];
    match stmts[0]
    case While(cond, body) =>
      WhileAccepted(g, ret, j, bid, instrs, stmts[0], st);
      var a := LowerWhile(g, ret, bid, instrs, cond, body, st);
      if a.Some? { ListAccepted(g, ret, j, st.block + 2, [], rest, term, a.value.st); }
    case DoWhile(body, cond) =>
      DoWhileAccepted(g, ret, j, bid, instrs, stmts[0], st);
      var a := LowerDoWhile(g, ret, bid, instrs, body, cond, st);
      if a.Some? { ListAccepted(g, ret, j, st.block + 2, [], rest, term, a.value.st); }
    case For(init, test, step, body) =>
      ForAccepted(g, ret, j, bid, instrs, stmts[0], st.block, st.(block := st.block + 1));
      var a := LowerFor(g, ret, bid, instrs, init, test, step, body, st.block, st.(block := st.block + 1));
      if a.Some? { ListAccepted(g, ret, j, st.block, [], rest, term, a.value.st); }
    case _ =>
  }

  lemma OneIs(g: Env, stmt: Stmt, j: Jumps)
    ensures var ok := AcceptedOne(g, stmt, j.breakTo.Some?, j.continueTo.Some?);
      (stmt.Declare? ==> (ok <==> AcceptedDeclare(g, stmt.ds))) && (stmt.Typedef? ==> ok) &&
      (stmt.Evaluate? ==> (ok <==> WellTyped(g, stmt.e)))
  {
    hide AcceptedDeclare, WellTyped;
  }

  lemma {:induction false} ScopeAccepted(g: Env, ret: Option<CType>, j: Jumps, bid: nat, instrs: seq<Instr>,
      stmts: seq<Stmt>, term: Term, st: St)
    requires stmts != [] && stmts[0].Scope?
    ensures LowerList(g, ret, j, bid, instrs, stmts, term, st).Some? <==>
      Accepted(g, stmts, j.breakTo.Some?, j.continueTo.Some?)
    decreases Size(stmts), 2
  {
    hide Size, StmtSize;
    HeadSize(stmts);
    var body, rest := stmts[0].body, stmts[1..];
    var b, c := j.breakTo.Some?, j.continueTo.Some?;
    assert Accepted(g, stmts, b, c) == (Accepted(g, body, b, c) && Accepted(g, rest, b, c)) by {
      assert AcceptedOne(g, stmts[0], b, c) == Accepted(g, body, b, c);
    }
    ScopeLowers(g, ret, j, bid, instrs, stmts, term, st);
    hide LowerList, Accepted;
    if rest == [] {
      ListAccepted(g, ret, j, bid, instrs, body, term, st);
      NoneAccepted(g, b, c);
    } else {
      ListAccepted(g, ret, j, bid, instrs, body, Jump(st.block), st.(block := st.block + 1));
      var a := LowerList(g, ret, j, bid, instrs, body, Jump(st.block), st.(block := st.block + 1));
      if a.Some? { ListAccepted(g, ret, j, st.block, [], rest, term, a.value.st); }
    }
  }

  lemma NoneAccepted(g: Env, breaks: bool, continues: bool)
    ensures Accepted(g, [], breaks, continues)
  {
  }

  lemma ScopeLowers(g: Env, ret: Option<CType>, j: Jumps, bid: nat, instrs: seq<Instr>, stmts: seq<Stmt>, term: Term,
      st: St)
    requires stmts != [] && stmts[0].Scope?
    ensures var body, rest := stmts[0].body, stmts[1..];
      var a := LowerList(g, ret, j, bid, instrs, body, Jump(st.block), st.(block := st.block + 1));
      LowerList(g, ret, j, bid, instrs, stmts, term, st).Some? <==>
        if rest == [] then LowerList(g, ret, j, bid, instrs, body, term, st).Some?
        else a.Some? && LowerList(g, ret, j, st.block, [], rest, term, a.value.st).Some?
  {
    hide LowerFor, LowerSwitch, LowerIf, LowerJoin, LowerWhile, LowerDoWhile, LowerReturn, LowerExpr, LowerEffects,
        LowerDeclare, Size, StmtSize;
  }

  lemma {:induction false} WhileAccepted(g: Env, ret: Option<CType>, j: Jumps, bid: nat, instrs: seq<Instr>,
      stmt: Stmt, st: St)
    requires stmt.While?
    ensures LowerWhile(g, ret, bid, instrs, stmt.cond, stmt.body, st).Some? <==>
      AcceptedOne(g, stmt, j.breakTo.Some?, j.continueTo.Some?)
    decreases StmtSize(stmt), 1
  {
    hide LowerCondition, WellTyped, LowerList, Accepted, Size;
    var condId, bodyId, restId := st.block, st.block + 1, st.block + 2;
    var st' := st.(block := st.block + 3);
    ConditionAccepted(g, condId, [], stmt.cond, bodyId, restId, st');
    var a := LowerCondition(g, condId, [], stmt.cond, bodyId, restId, st');
    if a.Some? {
      ListAccepted(g, ret, Jumps(Some(restId), Some(condId)), bodyId, [], stmt.body, Jump(condId), a.value.st);
    }
  }

  lemma {:induction false} DoWhileAccepted(g: Env, ret: Option<CType>, j: Jumps, bid: nat, instrs: seq<Instr>,
      stmt: Stmt, st: St)
    requires stmt.DoWhile?
    ensures LowerDoWhile(g, ret, bid, instrs, stmt.body, stmt.cond, st).Some? <==>
      AcceptedOne(g, stmt, j.breakTo.Some?, j.continueTo.Some?)
    decreases StmtSize(stmt), 1
  {
    hide LowerCondition, WellTyped, LowerList, Accepted, Size;
    var bodyId, condId, restId := st.block, st.block + 1, st.block + 2;
    var st' := st.(block := st.block + 3);
    ConditionAccepted(g, condId, [], stmt.cond, bodyId, restId, st');
    var a := LowerCondition(g, condId, [], stmt.cond, bodyId, restId, st');
    if a.Some? {
      ListAccepted(g, ret, Jumps(Some(restId), Some(condId)), bodyId, [], stmt.body, Jump(condId), a.value.st);
    }
  }

  lemma {:induction false} ForAccepted(g: Env, ret: Option<CType>, j: Jumps, bid: nat, instrs: seq<Instr>, stmt: Stmt,
      restId: nat, st: St)
    requires stmt.For?
    ensures LowerFor(g, ret, bid, instrs, stmt.init, stmt.test, stmt.step, stmt.body, restId, st).Some? <==>
      AcceptedOne(g, stmt, j.breakTo.Some?, j.continueTo.Some?)
    decreases StmtSize(stmt), 1
  {
    hide LowerInit, LowerTest, LowerStep, WellTyped, LowerList, Accepted, Size, AcceptedInit, AcceptedMaybe;
    var condId, bodyId, stepId := st.block, st.block + 1, st.block + 2;
    InitAccepted(g, stmt.init, st.temp);
    var i := LowerInit(g, stmt.init, st.temp);
    if i.Some? {
      var st1 := St(i.value.next, st.block + 3);
      TestAccepted(g, stmt.test, condId, bodyId, restId, st1);
      var a := LowerTest(g, stmt.test, condId, bodyId, restId, st1);
      if a.Some? {
        MaybeAccepted(g, stmt.step, a.value.st.temp);
        var s := LowerStep(g, stmt.step, a.value.st.temp);
        if s.Some? {
          ListAccepted(g, ret, Jumps(Some(restId), Some(stepId)), bodyId, [], stmt.body, Jump(stepId),
              a.value.st.(temp := s.value.next));
        }
      }
    }
  }

  lemma {:induction false} IfAccepted(g: Env, ret: Option<CType>, j: Jumps, bid: nat, instrs: seq<Instr>,
      stmts: seq<Stmt>, term: Term, st: St)
    requires stmts != [] && stmts[0].If?
    ensures LowerList(g, ret, j, bid, instrs, stmts, term, st).Some? <==>
      Accepted(g, stmts, j.breakTo.Some?, j.continueTo.Some?)
    decreases Size(stmts), 2
  {
    hide Size, StmtSize, WellTyped;
    HeadSize(stmts);
    var stmt, rest := stmts[0], stmts[1..];
    var b, c := j.breakTo.Some?, j.continueTo.Some?;
    assert Accepted(g, stmts, b, c) == (AcceptedOne(g, stmt, b, c) && Accepted(g, rest, b, c));
    IfLowers(g, ret, j, bid, instrs, stmts, term, st);
    hide LowerList, Accepted, LowerIf, LowerJoin, AcceptedOne;
    JoinAccepted(g, ret, j, rest, term, st.(block := st.block + 2));
    var joined := LowerJoin(g, ret, j, rest, term, st.(block := st.block + 2));
    if joined.Some? { ArmsAccepted(g, ret, j, bid, instrs, stmt, joined.value.0, st.block, joined.value.1.st); }
  }

  lemma IfLowers(g: Env, ret: Option<CType>, j: Jumps, bid: nat, instrs: seq<Instr>, stmts: seq<Stmt>, term: Term,
      st: St)
    requires stmts != [] && stmts[0].If?
    ensures var joined := LowerJoin(g, ret, j, stmts[1..], term, st.(block := st.block + 2));
      LowerList(g, ret, j, bid, instrs, stmts, term, st).Some? <==>
        joined.Some? && LowerIf(g, ret, j, bid, instrs, stmts[0].cond, stmts[0].yes, stmts[0].no, joined.value.0,
            st.block, joined.value.1.st).Some?
  {
    hide LowerFor, LowerSwitch, LowerIf, LowerJoin, LowerWhile, LowerDoWhile, LowerReturn, LowerExpr, LowerEffects,
        LowerDeclare, Size, StmtSize;
  }

  lemma {:induction false} JoinAccepted(g: Env, ret: Option<CType>, j: Jumps, rest: seq<Stmt>, term: Term, st: St)
    ensures LowerJoin(g, ret, j, rest, term, st).Some? <==> Accepted(g, rest, j.breakTo.Some?, j.continueTo.Some?)
    decreases Size(rest), 4
  {
    hide LowerList, Accepted, Size;
    NoneAccepted(g, j.breakTo.Some?, j.continueTo.Some?);
    ListAccepted(g, ret, j, st.block, [], rest, term, st.(block := st.block + 1));
  }

  lemma {:induction false} ArmsAccepted(g: Env, ret: Option<CType>, j: Jumps, bid: nat, instrs: seq<Instr>, stmt: Stmt,
      joinId: nat, yesId: nat, st: St)
    requires stmt.If?
    ensures LowerIf(g, ret, j, bid, instrs, stmt.cond, stmt.yes, stmt.no, joinId, yesId, st).Some? <==>
      AcceptedOne(g, stmt, j.breakTo.Some?, j.continueTo.Some?)
    decreases StmtSize(stmt), 1
  {
    hide LowerCondition, WellTyped, LowerList, Accepted, Size;
    NoneAccepted(g, j.breakTo.Some?, j.continueTo.Some?);
    ListAccepted(g, ret, j, yesId, [], stmt.yes, Jump(joinId), st);
    var a := LowerList(g, ret, j, yesId, [], stmt.yes, Jump(joinId), st);
    if a.Some? {
      ListAccepted(g, ret, j, yesId + 1, [], stmt.no, Jump(joinId), a.value.st);
      var b := if stmt.no == [] then Some(Blocks([], a.value.st))
          else LowerList(g, ret, j, yesId + 1, [], stmt.no, Jump(joinId), a.value.st);
      if b.Some? {
        ConditionAccepted(g, bid, instrs, stmt.cond, yesId, if stmt.no == [] then joinId else yesId + 1, b.value.st);
      }
    }
  }

  // ---- Switches ------------------------------------------------------------------------------------

  ghost predicate AcceptedClauses(g: Env, clauses: seq<Clause>, continues: bool)
  {
    forall k :: 0 <= k < |clauses| ==> AcceptedMaybe(g, clauses[k].tag) && Accepted(g, clauses[k].body, true, continues)
  }

  lemma ClausesSplit(g: Env, clauses: seq<Clause>, continues: bool)
    requires clauses != []
    ensures AcceptedClauses(g, clauses, continues) <==>
      AcceptedMaybe(g, clauses[0].tag) && Accepted(g, clauses[0].body, true, continues) &&
      AcceptedClauses(g, clauses[1..], continues)
  {
    hide AcceptedMaybe, Accepted;
    if AcceptedMaybe(g, clauses[0].tag) && Accepted(g, clauses[0].body, true, continues) &&
        AcceptedClauses(g, clauses[1..], continues) {
      forall k | 0 <= k < |clauses|
        ensures AcceptedMaybe(g, clauses[k].tag) && Accepted(g, clauses[k].body, true, continues) {
        if k > 0 { assert clauses[k] == clauses[1..][k - 1]; }
      }
    }
  }

  /** A stretch without labels ends where the next clause's label stands. */
  lemma {:induction false} StretchOfFlat(body: seq<Stmt>, clauses: seq<Clause>)
    requires Plain(body)
    ensures Stretch(body + Flat(clauses)) == body
    decreases |body|
  {
    hide Size;
    if body == [] {
      assert body + Flat(clauses) == Flat(clauses);
    } else {
      assert body[0] in body;
      assert (body + Flat(clauses))[1..] == body[1..] + Flat(clauses);
      StretchOfFlat(body[1..], clauses);
    }
  }

  lemma {:induction false} PlainSkipped(g: Env, body: seq<Stmt>, rest: seq<Stmt>, continues: bool)
    requires Plain(body)
    ensures AcceptedLabels(g, body + rest, continues) <==> AcceptedLabels(g, rest, continues)
    decreases |body|
  {
    hide Size, Accepted, WellTyped;
    if body == [] {
      assert body + rest == rest;
    } else {
      assert body[0] in body;
      assert (body + rest)[1..] == body[1..] + rest;
      PlainSkipped(g, body[1..], rest, continues);
    }
  }

  lemma {:induction false} FlatAccepted(g: Env, clauses: seq<Clause>, continues: bool)
    requires PlainClauses(clauses)
    ensures AcceptedLabels(g, Flat(clauses), continues) <==> AcceptedClauses(g, clauses, continues)
    decreases |clauses|
  {
    hide Size, Accepted, WellTyped, Stretch;
    if clauses != [] {
      var flat, after := Flat(clauses), clauses[0].body + Flat(clauses[1..]);
      ClausesSplit(g, clauses, continues);
      assert flat[0] == LabelOf(clauses[0]) && flat[1..] == after;
      StretchOfFlat(clauses[0].body, clauses[1..]);
      PlainSkipped(g, clauses[0].body, Flat(clauses[1..]), continues);
      FlatAccepted(g, clauses[1..], continues);
    }
  }

  lemma {:induction false} FromLabelAccepted(g: Env, stmts: seq<Stmt>, continues: bool)
    ensures AcceptedLabels(g, FromLabel(stmts), continues) <==> AcceptedLabels(g, stmts, continues)
    decreases |stmts|
  {
    hide Size, Accepted, WellTyped, Stretch;
    if stmts != [] && !IsLabel(stmts[0]) { FromLabelAccepted(g, stmts[1..], continues); }
  }

  lemma CollectAccepted(g: Env, stmts: seq<Stmt>, continues: bool)
    ensures AcceptedLabels(g, stmts, continues) <==> AcceptedClauses(g, CollectClauses(stmts), continues)
  {
    hide AcceptedLabels, AcceptedClauses, CollectFrom;
    CollectFlat(None, [], [], stmts);
    assert Flat([]) + Started(None, []) + FromLabel(stmts) == FromLabel(stmts);
    FlatAccepted(g, CollectClauses(stmts), continues);
    FromLabelAccepted(g, stmts, continues);
  }

  lemma {:induction false} DispatchAccepted(g: Env, bid: nat, value: Operand, otherwise: nat, cases: seq<(Expr, nat)>,
      st: St)
    ensures LowerDispatch(g, bid, value, otherwise, cases, st).Some? <==>
      forall k :: 0 <= k < |cases| ==> WellTyped(g, cases[k].0)
    decreases |cases|
  {
    hide WellTyped, LowerExpr;
    if cases != [] {
      ExprAccepted(g, cases[0].0, st.temp);
      if |cases| > 1 && LowerExpr(g, cases[0].0, st.temp).Some? {
        DispatchAccepted(g, st.block, value, otherwise, cases[1..],
            St(LowerExpr(g, cases[0].0, st.temp).value.next, st.block + 1));
        TailCases(g, cases);
      }
    }
  }

  lemma TailCases(g: Env, cases: seq<(Expr, nat)>)
    requires cases != []
    ensures (forall k :: 0 <= k < |cases| ==> WellTyped(g, cases[k].0)) <==>
      WellTyped(g, cases[0].0) && forall k :: 0 <= k < |cases[1..]| ==> WellTyped(g, cases[1..][k].0)
  {
    hide WellTyped;
    if WellTyped(g, cases[0].0) && forall k :: 0 <= k < |cases[1..]| ==> WellTyped(g, cases[1..][k].0) {
      forall k | 0 <= k < |cases| ensures WellTyped(g, cases[k].0) {
        if k > 0 { assert cases[k] == cases[1..][k - 1]; }
      }
    }
  }

  lemma {:induction false} TagsAccepted(g: Env, clauses: seq<Clause>, first: nat)
    ensures (forall k :: 0 <= k < |SwitchCases(clauses, first)| ==> WellTyped(g, SwitchCases(clauses, first)[k].0)) <==>
      forall k :: 0 <= k < |clauses| ==> AcceptedMaybe(g, clauses[k].tag)
    decreases |clauses|
  {
    hide WellTyped;
    if clauses != [] {
      TagsAccepted(g, clauses[1..], first + 1);
      var cases := SwitchCases(clauses, first);
      if clauses[0].tag.Some? {
        TailCases(g, cases);
        assert cases[1..] == SwitchCases(clauses[1..], first + 1);
      } else {
        assert cases == SwitchCases(clauses[1..], first + 1);
      }
      TailTags(g, clauses);
    }
  }

  lemma TailTags(g: Env, clauses: seq<Clause>)
    requires clauses != []
    ensures (forall k :: 0 <= k < |clauses| ==> AcceptedMaybe(g, clauses[k].tag)) <==>
      AcceptedMaybe(g, clauses[0].tag) && forall k :: 0 <= k < |clauses[1..]| ==> AcceptedMaybe(g, clauses[1..][k].tag)
  {
    hide AcceptedMaybe;
    if AcceptedMaybe(g, clauses[0].tag) &&
        forall k :: 0 <= k < |clauses[1..]| ==> AcceptedMaybe(g, clauses[1..][k].tag) {
      forall k | 0 <= k < |clauses| ensures AcceptedMaybe(g, clauses[k].tag) {
        if k > 0 { assert clauses[k] == clauses[1..][k - 1]; }
      }
    }
  }

  ghost predicate AcceptedBodies(g: Env, clauses: seq<Clause>, continues: bool)
  {
    forall k :: 0 <= k < |clauses| ==> Accepted(g, clauses[k].body, true, continues)
  }

  lemma {:induction false} BodiesAccepted(g: Env, ret: Option<CType>, j: Jumps, restId: nat, clauses: seq<Clause>,
      first: nat, st: St)
    requires j.breakTo.Some?
    ensures LowerClauses(g, ret, j, restId, clauses, first, st).Some? <==>
      AcceptedBodies(g, clauses, j.continueTo.Some?)
    decreases ClausesSize(clauses), 4
  {
    hide LowerList, Accepted, Size;
    if clauses != [] {
      var through := if |clauses| == 1 then restId else first + 1;
      ListAccepted(g, ret, j, first, [], clauses[0].body, Jump(through), st);
      var a := LowerList(g, ret, j, first, [], clauses[0].body, Jump(through), st);
      if a.Some? {
        BodiesAccepted(g, ret, j, restId, clauses[1..], first + 1, a.value.st);
        TailBodies(g, clauses, j.continueTo.Some?);
      }
    }
  }

  lemma TailBodies(g: Env, clauses: seq<Clause>, continues: bool)
    requires clauses != []
    ensures AcceptedBodies(g, clauses, continues) <==>
      Accepted(g, clauses[0].body, true, continues) && AcceptedBodies(g, clauses[1..], continues)
  {
    hide Accepted;
    if Accepted(g, clauses[0].body, true, continues) && AcceptedBodies(g, clauses[1..], continues) {
      forall k | 0 <= k < |clauses| ensures Accepted(g, clauses[k].body, true, continues) {
        if k > 0 { assert clauses[k] == clauses[1..][k - 1]; }
      }
    }
  }

  lemma {:induction false} DispatchedAccepted(g: Env, ret: Option<CType>, j: Jumps, dispatchId: nat, restId: nat,
      value: Operand, stmts: seq<Stmt>, st: St)
    ensures LowerSwitch(g, ret, j, dispatchId, restId, value, stmts, st).Some? <==>
      AcceptedLabels(g, stmts, j.continueTo.Some?)
    decreases Size(stmts), 5
  {
    hide LowerDispatch, LowerClauses, Accepted, AcceptedLabels, WellTyped, CollectClauses, Size, AcceptedMaybe;
    var clauses, first := CollectClauses(stmts), st.block;
    CollectedSize(stmts);
    CollectAccepted(g, stmts, j.continueTo.Some?);
    var cases, otherwise := SwitchCases(clauses, first), DefaultTarget(restId, clauses, first);
    var st' := st.(block := first + |clauses|);
    DispatchAccepted(g, dispatchId, value, otherwise, cases, st');
    TagsAccepted(g, clauses, first);
    var a := LowerDispatch(g, dispatchId, value, otherwise, cases, st');
    if a.Some? { BodiesAccepted(g, ret, Jumps(Some(restId), j.continueTo), restId, clauses, first, a.value.st); }
  }

  lemma CollectedSize(stmts: seq<Stmt>)
    ensures ClausesSize(CollectClauses(stmts)) <= Size(stmts)
  {
    hide CollectFrom;
    CollectSize(None, [], [], stmts);
  }

  lemma {:induction false} SwitchAccepted(g: Env, ret: Option<CType>, j: Jumps, bid: nat, instrs: seq<Instr>,
      stmts: seq<Stmt>, term: Term, st: St)
    requires stmts != [] && stmts[0].Switch?
    ensures LowerList(g, ret, j, bid, instrs, stmts, term, st).Some? <==>
      Accepted(g, stmts, j.breakTo.Some?, j.continueTo.Some?)
    decreases Size(stmts), 2
  {
    hide Size, StmtSize, WellTyped, AcceptedLabels;
    HeadSize(stmts);
    var stmt, rest := stmts[0], stmts[1..];
    var body := SwitchBody(stmt.body);
    var b, c := j.breakTo.Some?, j.continueTo.Some?;
    assert AcceptedOne(g, stmt, b, c) == (WellTyped(g, stmt.value) && AcceptedLabels(g, body, c));
    assert Accepted(g, stmts, b, c) == (AcceptedOne(g, stmt, b, c) && Accepted(g, rest, b, c));
    SwitchLowers(g, ret, j, bid, instrs, stmts, term, st);
    hide LowerList, Accepted, AcceptedOne, LowerExpr, LowerSwitch;
    ExprAccepted(g, stmt.value, st.temp);
    var v := LowerExpr(g, stmt.value, st.temp);
    if v.Some? {
      var st' := St(v.value.next, st.block + 2);
      DispatchedAccepted(g, ret, j, st.block, st.block + 1, v.value.op, body, st');
      var a := LowerSwitch(g, ret, j, st.block, st.block + 1, v.value.op, body, st');
      if a.Some? { ListAccepted(g, ret, j, st.block + 1, [], rest, term, a.value.st); }
    }
  }

  lemma SwitchLowers(g: Env, ret: Option<CType>, j: Jumps, bid: nat, instrs: seq<Instr>, stmts: seq<Stmt>, term: Term,
      st: St)
    requires stmts != [] && stmts[0].Switch?
    ensures var v := LowerExpr(g, stmts[0].value, st.temp);
      LowerList(g, ret, j, bid, instrs, stmts, term, st).Some? <==>
        v.Some? &&
        var a := LowerSwitch(g, ret, j, st.block, st.block + 1, v.value.op, SwitchBody(stmts[0].body),
            St(v.value.next, st.block + 2));
        a.Some? && LowerList(g, ret, j, st.block + 1, [], stmts[1..], term, a.value.st).Some?
  {
    hide LowerFor, LowerSwitch, LowerIf, LowerJoin, LowerWhile, LowerDoWhile, LowerReturn, LowerExpr, LowerEffects,
        LowerDeclare, Size, StmtSize;
  }

  // ---- Functions -----------------------------------------------------------------------------------

  /** A function compiles exactly when its body is well formed. */
  lemma FunctionAccepted(g: Env, f: Function, st: St)
    ensures LowerWhole(g, f, st).Some? <==> Accepted(g, f.body, false, false)
  {
    hide LowerList, Accepted;
    ListAccepted(g, ReturnType(f), Jumps(None, None), st.block, LowerParams(f.params, 0), f.body, DefaultTerm(f),
        st.(block := st.block + 1));
  }
}
