/** Lowering of expressions to the intermediate code. The only state is the number
    of the next fresh temporary; a variable's number is its temporary. */
module Lowering {
  import opened Options
  import opened Words
  import opened Ir
  import opened CTypes
  import opened Source

  /** Instructions, the operand that holds the result after them, and the next fresh
      temporary. */
  datatype Code = Code(instrs: seq<Instr>, op: Operand, next: nat)

  datatype LValue = LLocal(t: nat, ty: CType) | LAddress(a: Operand, ty: CType)

  datatype PlaceCode = PlaceCode(instrs: seq<Instr>, place: LValue, next: nat)

  datatype ArgsCode = ArgsCode(instrs: seq<Instr>, ops: seq<Operand>, next: nat)

  /** Instructions without a result. */
  datatype Effects = Effects(instrs: seq<Instr>, next: nat)

  // ---- Conversions ------------------------------------------------------------------

  /** A literal that does not fit a signed 32-bit immediate is carried as bytes. */
  function LiteralOperand(v: nat): Operand { if v >= 0x8000_0000 then Bytes(WordOf(v)) else Imm(v) }

  function ImmediateValue(op: Operand): Option<int>
  {
    match op
    case Imm(v) => Some(v)
    case Bytes(bytes) => Some(Unsigned(bytes))
    case _ => None
  }

  function CoerceBool(op: Operand, n: nat): (code: Code)
    ensures n <= code.next <= n + 1
  {
    match ImmediateValue(op)
    case Some(v) => Code([], Imm(if v == 0 then 0 else 1), n)
    case None => Code([Bin(n, Ne, op, Imm(0))], Temp(n), n + 1)
  }

  /** Conversion of an immediate at compile time, where there is one. */
  function CoerceImmediate(ty: CType, op: Operand): Option<Operand>
  {
    if SizeOf(ty) >= 4 then
      if op.Imm? && (!IsUnsigned(ty) || op.v >= 0) then Some(op) else None
    else
      var v :- ImmediateValue(op);
      var modulus := Modulus(ty);
      var masked := v % modulus;
      Some(Imm(if !IsUnsigned(ty) && masked >= modulus / 2 then masked - modulus else masked))
  }

  function Coerce(ty: CType, op: Operand, n: nat): (code: Code)
    ensures n <= code.next <= n + 1
  {
    if ty.Bool? then CoerceBool(op, n)
    else if !IsInteger(ty) || SizeOf(ty) >= 8 then Code([], op, n)
    else
      match CoerceImmediate(ty, op)
      case Some(op') => Code([], op', n)
      case None => Code([Ext(n, !IsUnsigned(ty), SizeOf(ty), op)], Temp(n), n + 1)
  }

  function WidthOf(ty: CType): Width
  {
    match SizeOf(ty)
    case 1 => W1
    case 2 => W2
    case 4 => W4
    case _ => W8
  }

  /** _Bool and the pointers are not signed integer types. */
  function LoadInstr(t: nat, ty: CType, a: Operand): Instr { Load(t, WidthOf(ty), !IsUnsigned(ty), a) }

  function StoreInstr(ty: CType, a: Operand, b: Operand): Instr { Instr.Store(WidthOf(ty), a, b) }

  // ---- Operators ----------------------------------------------------------------------

  function RelationOp(op: Operator, ty: CType): BinOp
    requires IsRelation(op)
  {
    match op
    case OpEq => Eq
    case OpNe => Ne
    case OpLt => if IsUnsigned(ty) then Ult else Lt
    case OpLe => if IsUnsigned(ty) then Ule else Le
    case OpGt => if IsUnsigned(ty) then Ugt else Gt
    case OpGe => if IsUnsigned(ty) then Uge else Ge
  }

  function ArithmeticOp(op: Operator, ty: CType): Option<BinOp>
  {
    match op
    case OpAdd => Some(Add)
    case OpSub => Some(Sub)
    case OpMul => Some(Mul)
    case OpDiv => Some(if IsUnsigned(ty) then Udiv else Div)
    case OpRem => Some(if IsUnsigned(ty) then Umod else Mod)
    case OpShl => Some(Shl)
    case OpShr => Some(if IsUnsigned(ty) then Shr else Sar)
    case OpAnd => Some(And)
    case OpXor => Some(Xor)
    case OpOr => Some(Or)
    case _ => None
  }

  function ScaledOffset(op: Operand, size: nat, n: nat): (code: Code)
    ensures n <= code.next <= n + 1
  {
    if size == 1 then Code([], op, n)
    else if op.Imm? then Code([], Imm(op.v * size), n)
    else Code([Bin(n, Mul, op, Imm(size))], Temp(n), n + 1)
  }

  /** Code followed by a conversion of its result. */
  function Then(ty: CType, a: Code): (code: Code)
    ensures a.next <= code.next
  {
    var cc := Coerce(ty, a.op, a.next);
    Code(a.instrs + cc.instrs, cc.op, cc.next)
  }

  function NegateCode(uop: UnaryOperator, ty: CType, a: Code): (code: Code)
    ensures a.next < code.next
  {
    var zero := a.next;
    if uop.Minus? then
      var cc := Coerce(ty, Temp(zero + 1), zero + 2);
      Code(a.instrs + [Const(zero, 0), Bin(zero + 1, Sub, Temp(zero), a.op)] + cc.instrs, cc.op, cc.next)
    else
      var cc := Coerce(ty, Temp(zero + 2), zero + 3);
      Code(a.instrs + [Const(zero, 0), Bin(zero + 1, Sub, Temp(zero), a.op),
          Bin(zero + 2, Sub, Temp(zero + 1), Imm(1))] + cc.instrs, cc.op, cc.next)
  }

  function LowerUnary(uop: UnaryOperator, ty: CType, a: Code): (code: Code)
    ensures a.next <= code.next
  {
    match uop
    case Plus => Then(Promote(ty), a)
    case Not => Code(a.instrs + [Const(a.next, 0), Bin(a.next + 1, Eq, a.op, Temp(a.next))], Temp(a.next + 1),
        a.next + 2)
    case _ => NegateCode(uop, Promote(ty), a)
  }

  // ---- Expressions ----------------------------------------------------------------------

  /** Two operands, each converted to ty. */
  function Converted(a: Code, b: Code, ty: CType): (Code, Code)
  {
    var ac := Coerce(ty, a.op, b.next);
    (ac, Coerce(ty, b.op, ac.next))
  }

  function LowerRelation(op: Operator, ty: CType, a: Code, b: Code): Code
    requires IsRelation(op)
  {
    var (ac, bc) := Converted(a, b, ty);
    Code(a.instrs + b.instrs + ac.instrs + bc.instrs + [Bin(bc.next, RelationOp(op, ty), ac.op, bc.op)], Temp(bc.next),
        bc.next + 1)
  }

  function LowerPlain(op: Operator, ty: CType, a: Code, b: Code): Option<Code>
  {
    var iop :- ArithmeticOp(op, ty);
    var (ac, bc) := Converted(a, b, ty);
    var out := bc.next;
    var cc := Coerce(ty, Temp(out), out + 1);
    Some(Code(a.instrs + b.instrs + ac.instrs + bc.instrs + [Bin(out, iop, ac.op, bc.op)] + cc.instrs, cc.op, cc.next))
  }

  function LowerShift(op: Operator, ty: CType, a: Code, b: Code): Option<Code>
  {
    var iop :- ArithmeticOp(op, ty);
    var cc := Coerce(ty, Temp(b.next), b.next + 1);
    Some(Code(a.instrs + b.instrs + [Bin(b.next, iop, a.op, b.op)] + cc.instrs, cc.op, cc.next))
  }

  function LowerOffset(op: BinOp, p: Code, i: Code, size: nat): Code
  {
    var sc := ScaledOffset(i.op, size, i.next);
    Code(p.instrs + i.instrs + sc.instrs + [Bin(sc.next, op, p.op, sc.op)], Temp(sc.next), sc.next + 1)
  }

  function LowerDifference(a: Code, b: Code, size: nat): Code
  {
    Code(a.instrs + b.instrs + [Bin(b.next, Sub, a.op, b.op), Bin(b.next + 1, Div, Temp(b.next), Imm(size))],
         Temp(b.next + 1), b.next + 2)
  }

  /** A binary operator on lowered operands; b was lowered after a. */
  function LowerOperator(op: Operator, ta: CType, tb: CType, a: Code, b: Code): (code: Option<Code>)
    ensures code.Some? ==> b.next <= code.value.next
    ensures code.Some? ==> a.instrs + b.instrs <= code.value.instrs
  {
    if IsRelation(op) then
      var ty :- ComparedType(ta, tb);
      Some(LowerRelation(op, ty, a, b))
    else if op.OpAdd? && ta.Ptr? then Some(LowerOffset(Add, a, b, SizeOf(ta.elem)))
    else if op.OpSub? && ta.Ptr? && !tb.Ptr? then Some(LowerOffset(Sub, a, b, SizeOf(ta.elem)))
    else if op.OpSub? && ta.Ptr? then Some(LowerDifference(a, b, SizeOf(ta.elem)))
    else
      var ty :- OperationType(op, ta, tb);
      if IsShift(op) then LowerShift(op, ty, a, b) else LowerPlain(op, ty, a, b)
  }

  /** The operation of a compound assignment, not yet converted to the target's type. */
  function LowerCompoundOp(op: Operator, ta: CType, tb: CType, a: Operand, b: Operand, n: nat): (code: Option<Code>)
    ensures code.Some? ==> n < code.value.next
  {
    if ta.Ptr? && (op.OpAdd? || op.OpSub?) then
      var iop := if op.OpAdd? then Add else Sub;
      if SizeOf(ta.elem) == 1 then Some(Code([Bin(n, iop, a, b)], Temp(n), n + 1))
      else Some(Code([Bin(n, Mul, b, Imm(SizeOf(ta.elem))), Bin(n + 1, iop, a, Temp(n))], Temp(n + 1), n + 2))
    else
      var ty :- OperationType(op, ta, tb);
      var iop :- ArithmeticOp(op, ty);
      var ac := Coerce(ty, a, n);
      var bc := Coerce(if IsShift(op) then Promote(tb) else ty, b, ac.next);
      Some(Code(ac.instrs + bc.instrs + [Bin(bc.next, iop, ac.op, bc.op)], Temp(bc.next), bc.next + 1))
  }

  function ReadPlace(place: LValue, n: nat): (code: Code)
    ensures n <= code.next <= n + 1
  {
    match place
    case LLocal(t, ty) => Coerce(ty, Temp(t), n)
    case LAddress(a, ty) => Code([LoadInstr(n, ty, a)], Temp(n), n + 1)
  }

  function WritePlace(place: LValue, op: Operand): seq<Instr>
  {
    match place
    case LLocal(t, _) => [Copy(t, op)]
    case LAddress(a, ty) => [StoreInstr(ty, a, op)]
  }

  function StepOp(up: bool): BinOp { if up then Add else Sub }

  predicate IsBoolean(e: Expr)
  {
    (e.Unary? && e.uop.Not?) || (e.Binary? && (IsRelation(e.op) || e.op.OpLogAnd? || e.op.OpLogOr?))
  }

  function LowerExpr(g: Env, e: Expr, n: nat): (r: Option<Code>)
    ensures r.Some? ==> n <= r.value.next
    decreases e, 1
  {
    match e
    case Literal(v, _) => if v < 0x1_0000_0000_0000_0000 then Some(Code([], LiteralOperand(v), n)) else None
    case Character(v) => Some(Code([], Imm(v), n))
    case Var(x) => if x in g.vars then Some(Coerce(g.vars[x], Temp(x), n)) else None
    case GlobalVar(_) => LowerRead(g, e, n)
    case Deref(_) => LowerRead(g, e, n)
    case Invoke(name, args) =>
      if name !in g.functions then None else
      var a :- LowerArgs(g, args, n);
      Some(Code(a.instrs + [Instr.Call(Some(a.next), name, a.ops)], Temp(a.next), a.next + 1))
    case Unary(uop, x) =>
      var a :- LowerExpr(g, x, n);
      var ty :- ExprType(g, x);
      Some(LowerUnary(uop, ty, a))
    case Cast(ty, x) =>
      var a :- LowerExpr(g, x, n);
      Some(Then(ty, a))
    case Prefix(up, target) => LowerPrefix(g, up, target, n)
    case Postfix(up, target) => LowerPostfix(g, up, target, n)
    case Binary(op, l, r) =>
      if op.OpComma? then
        var a :- LowerEffects(g, l, n);
        var b :- LowerExpr(g, r, a.next);
        Some(Code(a.instrs + b.instrs, b.op, b.next))
      else if op.OpLogAnd? || op.OpLogOr? then LowerLogical(g, op, l, r, n)
      else LowerBinary(g, op, l, r, n)
    case Conditional(test, yes, no) => LowerConditional(g, test, yes, no, n)
    case Assignment(target, x) => LowerAssignment(g, target, x, n)
    case Compound(op, target, x) => LowerCompound(g, op, target, x, n)
  }

  function LowerLogical(g: Env, op: Operator, l: Expr, r: Expr, n: nat): (code: Option<Code>)
    ensures code.Some? ==> n <= code.value.next
    decreases Binary(op, l, r), 0
  {
    var a :- LowerExpr(g, l, n);
    var b :- LowerTruth(g, r, a.next);
    var cond := if op.OpLogAnd? then Cond(b.next, a.instrs, a.op, b.instrs, b.op, [], Imm(0))
                else Cond(b.next, a.instrs, a.op, [], Imm(1), b.instrs, b.op);
    Some(Code([cond], Temp(b.next), b.next + 1))
  }

  function LowerBinary(g: Env, op: Operator, l: Expr, r: Expr, n: nat): (code: Option<Code>)
    ensures code.Some? ==> n <= code.value.next
    decreases Binary(op, l, r), 0
  {
    var tl :- ExprType(g, l);
    var tr :- ExprType(g, r);
    if PointerLast(op, tl, tr) then
      var b :- LowerExpr(g, r, n);
      var a :- LowerExpr(g, l, b.next);
      LowerOperator(op, tr, tl, b, a)
    else
      var a :- LowerExpr(g, l, n);
      var b :- LowerExpr(g, r, a.next);
      LowerOperator(op, tl, tr, a, b)
  }

  function LowerConditional(g: Env, test: Expr, yes: Expr, no: Expr, n: nat): (code: Option<Code>)
    ensures code.Some? ==> n <= code.value.next
    decreases Conditional(test, yes, no), 0
  {
    var c :- LowerExpr(g, test, n);
    var y :- LowerExpr(g, yes, c.next);
    var z :- LowerExpr(g, no, y.next);
    var ty :- ExprType(g, Conditional(test, yes, no));
    var yc := Coerce(ty, y.op, z.next);
    var zc := Coerce(ty, z.op, yc.next);
    Some(Code([Cond(zc.next, c.instrs, c.op, y.instrs + yc.instrs, yc.op, z.instrs + zc.instrs, zc.op)], Temp(zc.next),
        zc.next + 1))
  }

  function LowerAssignment(g: Env, target: Expr, x: Expr, n: nat): (code: Option<Code>)
    ensures code.Some? ==> n <= code.value.next
    decreases Assignment(target, x), 0
  {
    var p :- LowerPlace(g, target, n);
    var a :- LowerExpr(g, x, p.next);
    var cc := Coerce(p.place.ty, a.op, a.next);
    Some(Code(p.instrs + a.instrs + cc.instrs + WritePlace(p.place, cc.op), cc.op, cc.next))
  }

  function LowerCompound(g: Env, op: Operator, target: Expr, x: Expr, n: nat): (code: Option<Code>)
    ensures code.Some? ==> n <= code.value.next
    decreases Compound(op, target, x), 0
  {
    var p :- LowerPlace(g, target, n);
    var cur := ReadPlace(p.place, p.next);
    var a :- LowerExpr(g, x, cur.next);
    var tx :- ExprType(g, x);
    var o :- LowerCompoundOp(op, p.place.ty, tx, cur.op, a.op, a.next);
    var cc := Coerce(p.place.ty, o.op, o.next);
    Some(Code(p.instrs + cur.instrs + a.instrs + o.instrs + cc.instrs + WritePlace(p.place, cc.op), cc.op, cc.next))
  }

  function LowerPostfix(g: Env, up: bool, target: Expr, n: nat): (r: Option<Code>)
    ensures r.Some? ==> n <= r.value.next
    decreases Postfix(up, target), 0
  {
    var p :- LowerPlace(g, target, n);
    var cur := ReadPlace(p.place, p.next);
    var out, was := cur.next, cur.next + 1;
    Some(Code(p.instrs + cur.instrs + [Bin(was, Add, cur.op, Imm(0)),
        Bin(out, StepOp(up), Temp(was), Imm(StepOf(p.place.ty)))] +
              WritePlace(p.place, Temp(out)), Temp(was), was + 1))
  }

  function LowerPrefix(g: Env, up: bool, target: Expr, n: nat): (r: Option<Code>)
    ensures r.Some? ==> n <= r.value.next
    decreases target, 2
  {
    var p :- LowerPlace(g, target, n);
    var cur := ReadPlace(p.place, p.next);
    var cc := Coerce(p.place.ty, Temp(cur.next), cur.next + 1);
    Some(Code(p.instrs + cur.instrs + [Bin(cur.next, StepOp(up), cur.op, Imm(StepOf(p.place.ty)))] + cc.instrs +
        WritePlace(p.place, cc.op),
              cc.op, cc.next))
  }

  function LowerRead(g: Env, e: Expr, n: nat): (r: Option<Code>)
    ensures r.Some? ==> n <= r.value.next
    decreases e, 0, 1
  {
    var p :- LowerPlace(g, e, n);
    var cur := ReadPlace(p.place, p.next);
    Some(Code(p.instrs + cur.instrs, cur.op, cur.next))
  }

  function LowerPlace(g: Env, target: Expr, n: nat): (r: Option<PlaceCode>)
    ensures r.Some? ==> n <= r.value.next
    decreases target, 0, 0
  {
    match target
    case Var(x) => if x in g.vars then Some(PlaceCode([], LLocal(x, g.vars[x]), n)) else None
    case GlobalVar(name) => if name in g.globals then Some(PlaceCode([], LAddress(Global(name), g.globals[name]), n))
        else None
    case Deref(p) =>
      var a :- LowerExpr(g, p, n);
      var ty :- ExprType(g, target);
      Some(PlaceCode(a.instrs, LAddress(a.op, ty), a.next))
    case _ => None
  }

  function LowerArgs(g: Env, args: seq<Expr>, n: nat): (r: Option<ArgsCode>)
    ensures r.Some? ==> n <= r.value.next && |r.value.ops| == |args|
    decreases args
  {
    if args == [] then Some(ArgsCode([], [], n)) else
    var first :- LowerExpr(g, args[0], n);
    var rest :- LowerArgs(g, args[1..], first.next);
    Some(ArgsCode(first.instrs + rest.instrs, [first.op] + rest.ops, rest.next))
  }

  /** The truth value of an expression, as 0 or 1. */
  function LowerTruth(g: Env, e: Expr, n: nat): (r: Option<Code>)
    ensures r.Some? ==> n <= r.value.next
    decreases e, 2
  {
    var a :- LowerExpr(g, e, n);
    if IsBoolean(e) then Some(a)
    else Some(Code(a.instrs + [Bin(a.next, Ne, a.op, Imm(0))], Temp(a.next), a.next + 1))
  }

  /** An expression whose value is not used. */
  function LowerEffects(g: Env, e: Expr, n: nat): (r: Option<Effects>)
    ensures r.Some? ==> n <= r.value.next
    decreases e, 3
  {
    match e
    case Invoke(name, args) =>
      if name !in g.functions then None else
      var a :- LowerArgs(g, args, n);
      Some(Effects(a.instrs + [Instr.Call(None, name, a.ops)], a.next))
    case Postfix(up, target) =>
      var a :- LowerPrefix(g, up, target, n);
      Some(Effects(a.instrs, a.next))
    case _ =>
      var a :- LowerExpr(g, e, n);
      Some(Effects(a.instrs, a.next))
  }
}
