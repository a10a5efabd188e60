/** The structured source language, with names resolved, and its meaning.

    Values are integers in the range of their type, as C defines them: operands are
    converted to the common type, unsigned results are taken modulo the range, and
    so are signed ones that overflow. Where C leaves behaviour undefined a program
    has no result here. Operands are evaluated left to right; an operand that is a
    variable must not be changed by an operand evaluated after it.

    In three places the compiled code does not do what C says: see Reading. */
module Source {
  import opened Options
  import opened Words
  import opened Ir
  import opened CTypes

  datatype Operator =
    | OpAdd | OpSub | OpMul | OpDiv | OpRem | OpShl | OpShr
    | OpLt | OpLe | OpGt | OpGe | OpEq | OpNe
    | OpAnd | OpXor | OpOr | OpLogAnd | OpLogOr | OpComma

  datatype UnaryOperator = Plus | Minus | Complement | Not

  datatype Expr =
    | Literal(value: nat, suffix: Suffix)
    | Character(code: int)
    | Var(x: nat)
    | GlobalVar(name: string)
    | Invoke(name: string, args: seq<Expr>)
    | Unary(uop: UnaryOperator, e: Expr)
    | Deref(p: Expr)
    | Cast(ty: CType, e: Expr)
    | Prefix(up: bool, target: Expr)
    | Postfix(up: bool, target: Expr)
    | Binary(op: Operator, l: Expr, r: Expr)
    | Conditional(test: Expr, yes: Expr, no: Expr)
    | Assignment(target: Expr, r: Expr)
    | Compound(op: Operator, target: Expr, r: Expr)

  /** How the three constructs the compiler gets wrong are read: as C has them, as they
      are compiled, or with no result wherever these two differ. They are a compound
      assignment to a _Bool, a postfix step of a _Bool in memory, and a case label. */
  datatype Reading = Standard | AsCompiled | Guarded

  /** Types of variables and globals, result types of the known functions, and the reading. */
  datatype Env = Env(vars: map<nat, CType>, globals: map<string, CType>, functions: map<string, CType>,
      reading: Reading)

  /** A variable's number is below that of every fresh temporary. */
  predicate VarsBelow(g: Env, n: nat) { forall x :: x in g.vars ==> x < n }

  // ---- Types of expressions -------------------------------------------------------

  predicate IsEquality(op: Operator) { op.OpEq? || op.OpNe? }
  predicate IsOrder(op: Operator) { op.OpLt? || op.OpLe? || op.OpGt? || op.OpGe? }
  predicate IsRelation(op: Operator) { IsEquality(op) || IsOrder(op) }
  predicate IsShift(op: Operator) { op.OpShl? || op.OpShr? }

  function Arithmetic(a: CType, b: CType): Option<CType>
  {
    if IsInteger(a) && IsInteger(b) then Some(Usual(Promote(a), Promote(b))) else None
  }

  /** The type a relation compares its operands at: pointers as pointers. */
  function ComparedType(a: CType, b: CType): Option<CType>
  {
    if a.Ptr? then Some(a) else if b.Ptr? then Some(b) else Arithmetic(a, b)
  }

  function ConditionalType(a: CType, b: CType): Option<CType>
  {
    ComparedType(a, b)
  }

  function BinaryType(op: Operator, a: CType, b: CType): Option<CType>
  {
    if IsRelation(op) then Some(Int)
    else if IsShift(op) then (if IsInteger(a) then Some(Promote(a)) else None)
    else if op.OpAdd? && a.Ptr? then Some(a)
    else if op.OpAdd? && b.Ptr? then Some(b)
    else if op.OpSub? && a.Ptr? then Some(if b.Ptr? then Long else a)
    else Arithmetic(a, b)
  }

  function ExprType(g: Env, e: Expr): Option<CType>
  {
    match e
    case Literal(v, suffix) => Some(LiteralType(v, suffix))
    case Character(_) => Some(Int)
    case Var(x) => if x in g.vars then Some(g.vars[x]) else None
    case GlobalVar(name) => if name in g.globals then Some(g.globals[name]) else None
    case Invoke(name, _) => if name in g.functions then Some(g.functions[name]) else None
    case Unary(uop, x) =>
      var ty :- ExprType(g, x);
      Some(if uop.Not? then Int else Promote(ty))
    case Deref(p) =>
      var ty :- ExprType(g, p);
      if ty.Ptr? then Some(ty.elem) else None
    case Cast(ty, _) => Some(ty)
    case Prefix(_, target) => ExprType(g, target)
    case Postfix(_, target) => ExprType(g, target)
    case Binary(op, l, r) =>
      if op.OpComma? then ExprType(g, r)
      else if op.OpLogAnd? || op.OpLogOr? then Some(Int)
      else
        var a :- ExprType(g, l);
        var b :- ExprType(g, r);
        BinaryType(op, a, b)
    case Conditional(_, yes, no) =>
      var a :- ExprType(g, yes);
      var b :- ExprType(g, no);
      ConditionalType(a, b)
    case Assignment(target, _) => ExprType(g, target)
    case Compound(_, target, _) => ExprType(g, target)
  }

  // ---- Values -----------------------------------------------------------------------

  datatype Config = Config(vars: map<nat, int>, mem: Mem, trace: seq<Event>)

  datatype Res = Res(v: int, s: Config)

  function Truth(b: bool): int { if b then 1 else 0 }

  predicate Holds(op: Operator, a: int, b: int)
    requires IsRelation(op)
  {
    match op
    case OpLt => a < b
    case OpLe => a <= b
    case OpGt => a > b
    case OpGe => a >= b
    case OpEq => a == b
    case OpNe => a != b
  }

  /** The exact result of an arithmetic operator on operands of its type. */
  function Exact(op: Operator, ty: CType, a: int, b: int): Option<int>
  {
    match op
    case OpAdd => Some(a + b)
    case OpSub => Some(a - b)
    case OpMul => Some(a * b)
    case OpDiv => if b != 0 && InRange(ty, TruncDiv(a, b)) then Some(TruncDiv(a, b)) else None
    case OpRem => if b != 0 && InRange(ty, TruncDiv(a, b)) then Some(TruncRem(a, b)) else None
    case OpAnd => Some(BitFold(BitAnd, a, b))
    case OpXor => Some(BitFold(BitXor, a, b))
    case OpOr => Some(BitFold(BitOr, a, b))
    case _ => None
  }

  function Shifted(op: Operator, ty: CType, a: int, n: int): Option<int>
  {
    if !(0 <= n < 8 * SizeOf(ty)) then None
    else if op.OpShl? then Some(a * Pow2(n))
    else if op.OpShr? then Some(a / Pow2(n))
    else None
  }

  /** The exact result of op at the type it is computed in, before conversion to it. */
  function Raw(op: Operator, ty: CType, a: int, b: int): Option<int>
  {
    if IsShift(op) then Shifted(op, ty, Convert(ty, a), b) else Exact(op, ty, Convert(ty, a), Convert(ty, b))
  }

  /** The type op is computed in. */
  function OperationType(op: Operator, a: CType, b: CType): Option<CType>
  {
    if IsShift(op) then (if IsInteger(a) && IsInteger(b) then Some(Promote(a)) else None) else Arithmetic(a, b)
  }

  /** A binary operator that evaluates both operands. */
  function BinaryResult(op: Operator, ta: CType, tb: CType, a: int, b: int): Option<int>
  {
    if IsRelation(op) then
      var ty :- ComparedType(ta, tb);
      Some(Truth(Holds(op, Convert(ty, a), Convert(ty, b))))
    else if op.OpAdd? && ta.Ptr? then Some(Convert(ta, a + b * SizeOf(ta.elem)))
    else if op.OpSub? && ta.Ptr? && !tb.Ptr? then Some(Convert(ta, a - b * SizeOf(ta.elem)))
    else if op.OpSub? && ta.Ptr? then Some(TruncDiv(Convert(Long, a - b), SizeOf(ta.elem)))
    else
      var ty :- OperationType(op, ta, tb);
      var v :- Raw(op, ty, a, b);
      Some(Convert(ty, v))
  }

  /** An integer added to a pointer: the pointer is evaluated first. */
  predicate PointerLast(op: Operator, a: CType, b: CType) { op.OpAdd? && !a.Ptr? && b.Ptr? }

  /** The new value of a compound assignment. */
  function CompoundResult(reading: Reading, op: Operator, ta: CType, tb: CType, a: int, b: int): Option<int>
  {
    if ta.Ptr? then
      if op.OpAdd? then Some(Convert(ta, a + b * SizeOf(ta.elem)))
      else if op.OpSub? then Some(Convert(ta, a - b * SizeOf(ta.elem)))
      else None
    else
      var ty :- OperationType(op, ta, tb);
      var v :- Raw(op, ty, a, b);
      if !ta.Bool? || reading.Standard? then Some(Convert(ta, Convert(ty, v)))
      else if reading.AsCompiled? then Some(Truth(v % 0x1_0000_0000_0000_0000 != 0))
      else if SumLost(op, ty, a, b) then None
      else Some(Convert(ta, Convert(ty, v)))
  }

  /** A sum of a true _Bool that is zero in its type, but not as a word: the compiled code
      takes the truth of the word. */
  predicate SumLost(op: Operator, ty: CType, a: int, b: int)
  {
    op.OpAdd? && ty.UInt? && a == 1 && Convert(ty, b) == 0xffff_ffff
  }

  function StepOf(ty: CType): nat { if ty.Ptr? then SizeOf(ty.elem) else 1 }

  function Stepped(up: bool, ty: CType, v: int): int { if up then v + StepOf(ty) else v - StepOf(ty) }

  // ---- Memory and places --------------------------------------------------------------

  function ValueOfBytes(ty: CType, bytes: seq<Byte>): int
  {
    if IsUnsigned(ty) then Unsigned(bytes) else Signed(bytes)
  }

  datatype Place = Local(x: nat) | Memory(address: nat)

  /** The value at a place, which must be one of its type. */
  ghost function Fetch(c: Context, ty: CType, place: Place, s: Config): Option<int>
  {
    match place
    case Local(x) => if x in s.vars && InRange(ty, s.vars[x]) then Some(s.vars[x]) else None
    case Memory(address) =>
      var v := ValueOfBytes(ty, Read(s.mem, address, SizeOf(ty)));
      if c.frame.Visible(address, SizeOf(ty)) && InRange(ty, v) then Some(v) else None
  }

  ghost function Put(c: Context, ty: CType, place: Place, v: int, s: Config): Option<Config>
  {
    match place
    case Local(x) => if x in s.vars then Some(s.(vars := s.vars[x := v])) else None
    case Memory(address) =>
      if c.frame.Visible(address, SizeOf(ty)) then Some(s.(mem := Write(s.mem, address, BytesOf(v, SizeOf(ty)))))
          else None
  }

  /** Variables whose value is the result of an expression. A later operand that
      changes one is unsequenced with reading it. */
  function Pending(e: Expr): set<nat>
  {
    match e
    case Var(x) => {x}
    case Unary(Plus, x) => Pending(x)
    case Cast(_, x) => Pending(x)
    case Binary(OpComma, _, r) => Pending(r)
    case Assignment(_, r) => Pending(r)
    case _ => {}
  }

  function PendingPlace(target: Expr): set<nat> { if target.Deref? then Pending(target.p) else {} }

  predicate Steady(xs: set<nat>, s: Config, s': Config)
  {
    forall x :: x in xs ==> x in s.vars && x in s'.vars && s.vars[x] == s'.vars[x]
  }

  function CallEffect(c: Context, name: string, args: seq<Word>, s: Config): (Config, Word)
  {
    var trace := s.trace + [Event(Direct(name), args)];
    var effect := c.world.call(trace, s.mem);
    (Config(s.vars, effect.mem, trace), effect.result)
  }

  function WordsOf(vs: seq<int>): (ws: seq<Word>)
    ensures |ws| == |vs|
  {
    if vs == [] then [] else [WordOf(vs[0])] + WordsOf(vs[1..])
  }

  datatype ArgsRes = ArgsRes(vs: seq<int>, s: Config)
  datatype PlaceRes = PlaceRes(place: Place, s: Config)

  // ---- Evaluation ---------------------------------------------------------------------

  ghost function Eval(c: Context, g: Env, e: Expr, s: Config): Option<Res>
    decreases e, 1
  {
    match e
    case Literal(v, _) => if v < 0x1_0000_0000_0000_0000 then Some(Res(v, s)) else None
    case Character(v) => if InRange(Int, v) then Some(Res(v, s)) else None
    case Var(_) => EvalRead(c, g, e, s)
    case GlobalVar(_) => EvalRead(c, g, e, s)
    case Deref(_) => EvalRead(c, g, e, s)
    case Invoke(name, args) => EvalInvoke(c, g, name, args, s)
    case Unary(uop, x) =>
      var r :- Eval(c, g, x, s);
      var ty :- ExprType(g, x);
      EvalUnary(uop, ty, r)
    case Cast(ty, x) =>
      var r :- Eval(c, g, x, s);
      Some(Res(Convert(ty, r.v), r.s))
    case Prefix(up, target) => EvalPrefix(c, g, up, target, s)
    case Postfix(up, target) => EvalPostfix(c, g, up, target, s)
    case Binary(op, l, r) =>
      if op.OpComma? then
        var s' :- Perform(c, g, l, s);
        Eval(c, g, r, s')
      else if op.OpLogAnd? || op.OpLogOr? then EvalLogical(c, g, op, l, r, s)
      else EvalBinary(c, g, op, l, r, s)
    case Conditional(test, yes, no) => EvalConditional(c, g, test, yes, no, s)
    case Assignment(target, x) => EvalAssignment(c, g, target, x, s)
    case Compound(op, target, x) => EvalCompound(c, g, op, target, x, s)
  }

  ghost function EvalInvoke(c: Context, g: Env, name: string, args: seq<Expr>, s: Config): Option<Res>
    decreases Invoke(name, args), 0
  {
    if name !in g.functions then None else
    var rs :- EvalArgs(c, g, args, s);
    var (s', w) := CallEffect(c, name, WordsOf(rs.vs), rs.s);
    var v := ValueOfBytes(g.functions[name], w);
    if InRange(g.functions[name], v) then Some(Res(v, s')) else None
  }

  function EvalUnary(uop: UnaryOperator, ty: CType, r: Res): Option<Res>
  {
    match uop
    case Plus => Some(r)
    case Not => Some(Res(Truth(r.v == 0), r.s))
    case Minus => if ty.Ptr? then None else Some(Res(Convert(Promote(ty), -r.v), r.s))
    case Complement => if ty.Ptr? then None else Some(Res(Convert(Promote(ty), -r.v - 1), r.s))
  }

  ghost function EvalPrefix(c: Context, g: Env, up: bool, target: Expr, s: Config): Option<Res>
    decreases target, 2
  {
    var ty :- ExprType(g, target);
    var p :- EvalPlace(c, g, target, s);
    var v :- Fetch(c, ty, p.place, p.s);
    var v' := Convert(ty, Stepped(up, ty, v));
    var s' :- Put(c, ty, p.place, v', p.s);
    Some(Res(v', s'))
  }

  /** A step takes a _Bool in memory out of its range: the compiled code stores the byte
      unconverted. */
  predicate StepsOut(up: bool, ty: CType, place: Place, v: int)
  {
    ty.Bool? && place.Memory? && v == if up then 1 else 0
  }

  /** The value before the step. */
  ghost function EvalPostfix(c: Context, g: Env, up: bool, target: Expr, s: Config): Option<Res>
    decreases Postfix(up, target), 0
  {
    var ty :- ExprType(g, target);
    var p :- EvalPlace(c, g, target, s);
    var v :- Fetch(c, ty, p.place, p.s);
    if g.reading.Guarded? && StepsOut(up, ty, p.place, v) then None else
    var v' := Stepped(up, ty, v);
    var s' :- Put(c, ty, p.place, if g.reading.AsCompiled? && p.place.Memory? then v' else Convert(ty, v'), p.s);
    Some(Res(v, s'))
  }

  ghost function EvalLogical(c: Context, g: Env, op: Operator, l: Expr, r: Expr, s: Config): Option<Res>
    decreases Binary(op, l, r), 0
  {
    var a :- Eval(c, g, l, s);
    if (a.v != 0) == op.OpLogOr? then Some(Res(Truth(op.OpLogOr?), a.s)) else
    var b :- Eval(c, g, r, a.s);
    Some(Res(Truth(b.v != 0), b.s))
  }

  ghost function EvalBinary(c: Context, g: Env, op: Operator, l: Expr, r: Expr, s: Config): Option<Res>
    decreases Binary(op, l, r), 0
  {
    var tl :- ExprType(g, l);
    var tr :- ExprType(g, r);
    if PointerLast(op, tl, tr) then
      var b :- Eval(c, g, r, s);
      var a :- Eval(c, g, l, b.s);
      if !Steady(Pending(r), b.s, a.s) then None else
      var v :- BinaryResult(op, tr, tl, b.v, a.v);
      Some(Res(v, a.s))
    else
      var a :- Eval(c, g, l, s);
      var b :- Eval(c, g, r, a.s);
      if !Steady(Pending(l), a.s, b.s) then None else
      var v :- BinaryResult(op, tl, tr, a.v, b.v);
      Some(Res(v, b.s))
  }

  ghost function EvalConditional(c: Context, g: Env, test: Expr, yes: Expr, no: Expr, s: Config): Option<Res>
    decreases Conditional(test, yes, no), 0
  {
    var ty :- ExprType(g, Conditional(test, yes, no));
    var t :- Eval(c, g, test, s);
    var r :- Eval(c, g, if t.v != 0 then yes else no, t.s);
    Some(Res(Convert(ty, r.v), r.s))
  }

  ghost function EvalAssignment(c: Context, g: Env, target: Expr, x: Expr, s: Config): Option<Res>
    decreases Assignment(target, x), 0
  {
    var ty :- ExprType(g, target);
    var p :- EvalPlace(c, g, target, s);
    var r :- Eval(c, g, x, p.s);
    if !Steady(PendingPlace(target), p.s, r.s) then None else
    var v := Convert(ty, r.v);
    var s' :- Put(c, ty, p.place, v, r.s);
    Some(Res(v, s'))
  }

  ghost function EvalCompound(c: Context, g: Env, op: Operator, target: Expr, x: Expr, s: Config): Option<Res>
    decreases Compound(op, target, x), 0
  {
    var ty :- ExprType(g, target);
    var tx :- ExprType(g, x);
    var p :- EvalPlace(c, g, target, s);
    var was :- Fetch(c, ty, p.place, p.s);
    var r :- Eval(c, g, x, p.s);
    if !Steady(PendingPlace(target) + Pending(target), p.s, r.s) then None else
    var v :- CompoundResult(g.reading, op, ty, tx, was, r.v);
    var s' :- Put(c, ty, p.place, v, r.s);
    Some(Res(v, s'))
  }

  /** The value stored at a place. */
  ghost function EvalRead(c: Context, g: Env, e: Expr, s: Config): Option<Res>
    decreases e, 0, 1
  {
    var ty :- ExprType(g, e);
    var p :- EvalPlace(c, g, e, s);
    var v :- Fetch(c, ty, p.place, p.s);
    Some(Res(v, p.s))
  }

  /** The place an assignable expression denotes. */
  ghost function EvalPlace(c: Context, g: Env, target: Expr, s: Config): Option<PlaceRes>
    decreases target, 0, 0
  {
    match target
    case Var(x) => Some(PlaceRes(Local(x), s))
    case GlobalVar(name) => Some(PlaceRes(Memory(Unsigned(c.world.global(name))), s))
    case Deref(p) =>
      var r :- Eval(c, g, p, s);
      if r.v >= 0 then Some(PlaceRes(Memory(r.v), r.s)) else None
    case _ => None
  }

  ghost function EvalArgs(c: Context, g: Env, args: seq<Expr>, s: Config): (r: Option<ArgsRes>)
    ensures r.Some? ==> |r.value.vs| == |args|
    decreases args
  {
    if args == [] then Some(ArgsRes([], s)) else
    var first :- Eval(c, g, args[0], s);
    var rest :- EvalArgs(c, g, args[1..], first.s);
    if Steady(Pending(args[0]), first.s, rest.s) then Some(ArgsRes([first.v] + rest.vs, rest.s)) else None
  }

  /** An expression evaluated for its effects only. */
  ghost function Perform(c: Context, g: Env, e: Expr, s: Config): Option<Config>
    decreases e, 2
  {
    match e
    case Invoke(name, args) =>
      if name !in g.functions then None else
      var rs :- EvalArgs(c, g, args, s);
      Some(CallEffect(c, name, WordsOf(rs.vs), rs.s).0)
    case Postfix(up, target) =>
      var r :- EvalPrefix(c, g, up, target, s);
      Some(r.s)
    case _ =>
      var r :- Eval(c, g, e, s);
      Some(r.s)
  }
}
