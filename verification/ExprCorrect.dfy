/** Lowered expressions compute the values, effects and calls of the source. */
module ExprCorrect {
  import opened Options
  import opened Words
  import opened Ir
  import opened CTypes
  import opened Integers
  import opened Source
  import opened Lowering
  import opened Represent
  import opened OperatorCorrect

  /** Variables are below every fresh temporary, and the fresh temporaries from n on
      are storage of the function's own. */
  ghost predicate Starts(c: Context, g: Env, n: nat, next: nat, s: Config, m: State)
  {
    g.reading.AsCompiled? && VarsBelow(g, n) && Rel(c, g, s, m) && Owned(c.frame, n, next)
  }

  /** What running lowered code from m must reach. */
  ghost predicate Reaches(c: Context, g: Env, n: nat, next: nat, instrs: seq<Instr>, m: State, s: Config, s': Config,
      m': State)
  {
    && n <= next && Runs(c, instrs, m, m') && Rel(c, g, s', m') && Keeps(g, n, m, m') && s.vars.Keys <= s'.vars.Keys
  }

  /** Code whose operand then holds v, a value of type ty. */
  ghost predicate Yields(c: Context, g: Env, pending: set<nat>, n: nat, code: Code, ty: CType, m: State, s: Config,
      r: Res, m': State)
  {
    && Reaches(c, g, n, code.next, code.instrs, m, s, r.s, m')
    && Value(c, m', code.op) == Some(WordOf(r.v))
    && OperandOf(g, pending, code.op, n, code.next)
    && (code.op.Temp? ==> c.frame.Private(code.op.t))
    && InRange(ty, r.v)
  }

  /** Code that denotes a place. */
  ghost predicate Denotes(c: Context, g: Env, n: nat, p: PlaceCode, place: Place, m: State, ty: CType,
      pending: set<nat>)
  {
    && p.place.ty == ty
    && match p.place
       case LLocal(t, _) => place == Local(t) && t in g.vars && ty == g.vars[t]
       case LAddress(a, _) =>
         place.Memory? && place.address < M64 && Value(c, m, a) == Some(WordOf(place.address)) &&
         OperandOf(g, pending, a, n, p.next)
  }

  // ---- Composition -----------------------------------------------------------------------

  lemma ReachesBoth(c: Context, g: Env, n: nat, mid: nat, next: nat, a: seq<Instr>, b: seq<Instr>, m: State, m1: State,
      m2: State, s: Config, s1: Config, s2: Config)
    requires Reaches(c, g, n, mid, a, m, s, s1, m1) && Reaches(c, g, mid, next, b, m1, s1, s2, m2)
    ensures Reaches(c, g, n, next, a + b, m, s, s2, m2)
  {
    hide Rel, Runs;
    RunsBoth(c, a, b, m, m1, m2);
    KeepsBoth(g, n, mid, m, m1, m2);
  }

  /** Code that only fills fresh temporaries, after code that reaches s. */
  lemma ReachesMore(c: Context, g: Env, n: nat, mid: nat, next: nat, a: seq<Instr>, b: seq<Instr>, m: State, m1: State,
      m2: State, s: Config, s1: Config)
    requires Reaches(c, g, n, mid, a, m, s, s1, m1) && VarsBelow(g, n) && Runs(c, a + b, m, m2) && Adds(mid, m1, m2) &&
        mid <= next
    ensures Reaches(c, g, n, next, a + b, m, s, s1, m2)
  {
    AddsRel(c, g, mid, s1, m1, m2);
    AddsKeeps(g, mid, mid, m1, m2);
    KeepsBoth(g, n, mid, m, m1, m2);
  }

  lemma ReachesNone(c: Context, g: Env, n: nat, m: State, s: Config)
    requires Rel(c, g, s, m)
    ensures Reaches(c, g, n, n, [], m, s, s, m)
  {
    RunsNone(c, m);
  }

  lemma StartsLater(c: Context, g: Env, n: nat, mid: nat, next: nat, a: seq<Instr>, m: State, m1: State, s: Config,
      s1: Config)
    requires Starts(c, g, n, next, s, m) && Reaches(c, g, n, mid, a, m, s, s1, m1) && mid <= next
    ensures Starts(c, g, mid, next, s1, m1)
  {
  }

  /** Fresh temporaries added after both operands. */
  lemma FinishYields(c: Context, g: Env, pending: set<nat>, n: nat, lo: nat, before: seq<Instr>, code: Code, ty: CType,
      m: State, m1: State, s: Config, s1: Config, v: int, m': State)
    requires Reaches(c, g, n, lo, before, m, s, s1, m1) && VarsBelow(g, n) && before <= code.instrs &&
        Owned(c.frame, lo, code.next)
    requires Finishes(c, m, lo, m1, code, v, m') && InRange(ty, v)
    ensures Yields(c, g, pending, n, code, ty, m, s, Res(v, s1), m')
  {
    hide Rel, Runs;
    assert before + code.instrs[|before|..] == code.instrs;
    ReachesMore(c, g, n, lo, code.next, before, code.instrs[|before|..], m, m1, m', s, s1);
  }

  /** A conversion at the end of code. */
  lemma CoerceYields(c: Context, g: Env, pending: set<nat>, n: nat, a: Code, ta: CType, ty: CType, m: State, s: Config,
      r: Res, m1: State) returns (m': State)
    requires Yields(c, g, pending, n, a, ta, m, s, r, m1) && VarsBelow(g, n) &&
        Owned(c.frame, a.next, Coerce(ty, a.op, a.next).next)
    ensures var cc := Coerce(ty, a.op, a.next);
      Yields(c, g, pending, n, Code(a.instrs + cc.instrs, cc.op, cc.next), ty, m, s, Res(Convert(ty, r.v), r.s), m')
  {
    hide Rel, Runs, Coerce, Value, BytesOf, Convert, InRange, AtType;
    var cc := Coerce(ty, a.op, a.next);
    m' := CoerceRuns(c, ty, a.op, a.next, m1, r.v);
    AtTypeOfValue(ty, ta, r.v);
    RunsBoth(c, a.instrs, cc.instrs, m, m1, m');
    ReachesMore(c, g, n, a.next, cc.next, a.instrs, cc.instrs, m, m1, m', s, r.s);
  }

  // ---- Reading and writing places ------------------------------------------------------------

  lemma VarReads(c: Context, g: Env, x: nat, n: nat, m: State, s: Config) returns (m': State)
    requires x in g.vars && x in s.vars && Starts(c, g, n, Coerce(g.vars[x], Temp(x), n).next, s, m)
    ensures Yields(c, g, {x}, n, Coerce(g.vars[x], Temp(x), n), g.vars[x], m, s, Res(s.vars[x], s), m') &&
        Adds(n, m, m')
  {
    hide Runs, Coerce, BytesOf, AtType;
    var ty, w := g.vars[x], m.env[x];
    var cc := Coerce(ty, Temp(x), n);
    BytesOfUnsigned(w);
    m' := CoerceRuns(c, ty, Temp(x), n, m, Unsigned(w));
    AddsRel(c, g, n, s, m, m');
    AddsKeeps(g, n, n, m, m');
  }

  /** Loading a value of a type from memory extends it as the type says. */
  lemma LoadedWord(ty: CType, bytes: seq<Byte>)
    requires |bytes| == SizeOf(ty)
    ensures Extend(bytes, !IsUnsigned(ty)) == WordOf(ValueOfBytes(ty, bytes))
  {
    var as' := if ty.Bool? then UChar else if ty.Ptr? then ULong else ty;
    var v := ValueOfBytes(ty, bytes);
    BytesValue(as', bytes);
    BytesSplit(v, |bytes|, 8 - |bytes|);
    if SizeOf(ty) < 8 { ExtendConverts(as', v); } else { assert bytes + [] == bytes; }
  }

  lemma BytesValue(ty: CType, bytes: seq<Byte>)
    requires |bytes| == SizeOf(ty) && !ty.Bool?
    ensures InRange(ty, ValueOfBytes(ty, bytes)) && BytesOf(ValueOfBytes(ty, bytes), |bytes|) == bytes
  {
    hide BytesOf, Unsigned, Signed, Pow256;
    ModulusIsPower(ty);
    if IsUnsigned(ty) {
      UnsignedBound(bytes);
      BytesOfUnsigned(bytes);
    } else {
      SignedOfBytes(bytes);
    }
  }

  lemma AddressValue(address: nat)
    requires address < M64
    ensures Unsigned(WordOf(address)) == address
  {
    UnsignedWord(address);
  }

  lemma LoadRuns(c: Context, ty: CType, a: Operand, address: nat, n: nat, m: State, s: Config, v: int)
      returns (m': State)
    requires s.mem == m.mem && c.frame.Private(n) && Value(c, m, a) == Some(WordOf(address)) && address < M64
    requires Fetch(c, ty, Memory(address), s) == Some(v)
    ensures Runs(c, [LoadInstr(n, ty, a)], m, m') && Adds(n, m, m') && Value(c, m', Temp(n)) == Some(WordOf(v))
  {
    hide BytesOf, Extend, ValueOfBytes;
    AddressValue(address);
    var bytes := Read(m.mem, address, SizeOf(ty));
    LoadedWord(ty, bytes);
    m' := Set(m, n, WordOf(v));
    assert WidthOf(ty).Size() == SizeOf(ty);
    RunsOne(c, LoadInstr(n, ty, a), m, m');
  }

  /** Reading the place a place code denotes. */
  lemma PlaceReads(c: Context, g: Env, target: Expr, n: nat, p: PlaceCode, place: Place, ty: CType, m: State,
      s: Config, v: int) returns (m': State)
    requires n <= p.next && Denotes(c, g, n, p, place, m, ty, PendingPlace(target)) && Fetch(c, ty, place, s) == Some(v)
    requires Starts(c, g, p.next, ReadPlace(p.place, p.next).next, s, m)
    ensures Yields(c, g, if p.place.LLocal? then {p.place.t}
        else {}, p.next, ReadPlace(p.place, p.next), ty, m, s, Res(v, s), m') && Adds(p.next, m, m')
  {
    hide Runs, BytesOf, Coerce;
    match p.place
    case LLocal(x, _) => m' := VarReads(c, g, x, p.next, m, s);
    case LAddress(a, _) =>
      assert c.frame.Private(p.next);
      m' := LoadRuns(c, ty, a, place.address, p.next, m, s, v);
      AddsRel(c, g, p.next, s, m, m');
      AddsKeeps(g, p.next, p.next, m, m');
  }

  lemma StoredBytes(ty: CType, u: int, v: int)
    requires u == v || (!ty.Bool? && v == Convert(ty, u))
    ensures WordOf(u)[..SizeOf(ty)] == BytesOf(v, SizeOf(ty))
  {
    var n := SizeOf(ty);
    BytesSplit(u, n, 8 - n);
    if u != v {
      ConvertCongruent(ty, u);
      ModulusIsPower(ty);
      BytesCongruent(u, v, n);
    }
  }

  /** What a write leaves: the place has the value, and the operand written its word. */
  ghost predicate Written(c: Context, g: Env, place: LValue, op: Operand, m: State, s': Config, m': State)
  {
    Runs(c, WritePlace(place, op), m, m') && Rel(c, g, s', m') && Value(c, m', op) == Value(c, m, op) &&
    forall t :: t in m.env && t !in g.vars ==> t in m'.env && m'.env[t] == m.env[t]
  }

  /** A word of integer u stored at a place leaves v there: a variable is read at its type,
      memory holds the low bytes. */
  ghost predicate Stores(ty: CType, place: Place, u: int, v: int)
  {
    if place.Local? then v == AtType(ty, u) else u == v || (!ty.Bool? && v == Convert(ty, u))
  }

  /** Writing a word that leaves v at the place. */
  lemma PlaceWrites(c: Context, g: Env, n: nat, p: PlaceCode, place: Place, pending: set<nat>, ty: CType, op: Operand,
      u: int, v: int, m: State, s: Config, s': Config) returns (m': State)
    requires Denotes(c, g, n, p, place, m, ty, pending) && Rel(c, g, s, m) && Put(c, ty, place, v, s) == Some(s')
    requires Value(c, m, op) == Some(WordOf(u)) && (op.Temp? ==> c.frame.Private(op.t))
    requires Stores(ty, place, u, v)
    ensures Written(c, g, p.place, op, m, s', m')
  {
    hide BytesOf, Unsigned, AtType, Convert;
    match p.place
    case LLocal(x, _) =>
      m' := Set(m, x, WordOf(u));
      BytesOfUnsigned(WordOf(u));
      AtTypeOfWord(ty, Unsigned(WordOf(u)), u);
      RunsOne(c, Copy(x, op), m, m');
    case LAddress(a, _) =>
      m' := StoreRuns(c, ty, a, op, place.address, u, v, m, s);
  }

  lemma StoreRuns(c: Context, ty: CType, a: Operand, op: Operand, address: nat, u: int, v: int, m: State, s: Config)
      returns (m': State)
    requires Value(c, m, a) == Some(WordOf(address)) && address < M64 && Value(c, m, op) == Some(WordOf(u)) &&
        (op.Temp? ==> c.frame.Private(op.t))
    requires s.mem == m.mem && c.frame.Visible(address, SizeOf(ty))
    requires u == v || (!ty.Bool? && v == Convert(ty, u))
    ensures Runs(c, [StoreInstr(ty, a, op)], m, m') && m' == m.(mem := Write(m.mem, address, BytesOf(v, SizeOf(ty))))
    ensures Value(c, m', op) == Value(c, m, op)
  {
    hide BytesOf, Convert, Unsigned, AtType;
    AddressValue(address);
    StoredBytes(ty, u, v);
    m' := m.(mem := Write(m.mem, address, BytesOf(v, SizeOf(ty))));
    assert WidthOf(ty).Size() == SizeOf(ty);
    RunsOne(c, StoreInstr(ty, a, op), m, m');
  }

  /** Code, then a write of its result or of another operand. */
  lemma WriteReaches(c: Context, g: Env, n: nat, next: nat, before: seq<Instr>, p: PlaceCode, place: Place,
      pending: set<nat>, ty: CType, op: Operand, u: int, v: int, m: State, m1: State, s: Config, s1: Config,
      s2: Config) returns (m2: State)
    requires Reaches(c, g, n, next, before, m, s, s1, m1) && Denotes(c, g, n, p, place, m1, ty, pending) &&
        Put(c, ty, place, v, s1) == Some(s2)
    requires Value(c, m1, op) == Some(WordOf(u)) && (op.Temp? ==> c.frame.Private(op.t))
    requires Stores(ty, place, u, v)
    ensures Reaches(c, g, n, next, before + WritePlace(p.place, op), m, s, s2, m2) &&
        Written(c, g, p.place, op, m1, s2, m2)
  {
    hide Rel, Runs, Value, BytesOf, AtType, Denotes;
    m2 := PlaceWrites(c, g, n, p, place, pending, ty, op, u, v, m1, s1, s2);
    RunsBoth(c, before, WritePlace(p.place, op), m, m1, m2);
  }

  /** A place stays what it is while operands that leave its address alone are evaluated. */
  lemma DenotesStays(c: Context, g: Env, n: nat, p: PlaceCode, place: Place, ty: CType, pending: set<nat>, s: Config,
      m: State, s': Config, m': State)
    requires Denotes(c, g, n, p, place, m, ty, pending) && n <= p.next && VarsBelow(g, n) && Owned(c.frame, n, p.next)
    requires Rel(c, g, s, m) && Rel(c, g, s', m') && Keeps(g, p.next, m, m') && Steady(pending, s, s')
    ensures Denotes(c, g, n, p, place, m', ty, pending)
  {
    hide Rel, Value, BytesOf, Steady, OperandOf;
    if p.place.LAddress? { ValueStays(c, g, pending, p.place.a, n, p.next, s, m, s', m', place.address); }
  }

  lemma DenotesAdds(c: Context, g: Env, n: nat, p: PlaceCode, place: Place, ty: CType, pending: set<nat>, lo: nat,
      m: State, m': State)
    requires Denotes(c, g, n, p, place, m, ty, pending) && n <= p.next <= lo && VarsBelow(g, n) && Adds(lo, m, m')
    ensures Denotes(c, g, n, p, place, m', ty, pending)
  {
    hide BytesOf;
    if p.place.LAddress? { ValueAdds(c, lo, m, m', p.place.a); }
  }
}
