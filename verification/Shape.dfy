/** The shape of lowered code: which temporaries it defines, mentions and sets by
    conditionals, and that it takes no address and reads no parameter. */
module Shape {
  import opened Options
  import opened Words
  import opened Ir
  import opened Allocation
  import opened Labels
  import opened CTypes
  import opened Source
  import opened Lowering

  // ---- Counting over concatenations ---------------------------------------------------------

  lemma {:induction false} SuffixCounts(a: seq<Instr>, b: seq<Instr>, k: nat, t: nat)
    requires k <= |b|
    ensures DefinesFrom(a + b, |a| + k, t) == DefinesFrom(b, k, t)
    ensures UsesFrom(a + b, |a| + k, t) == UsesFrom(b, k, t)
    ensures CondsFrom(a + b, |a| + k, t) == CondsFrom(b, k, t)
    decreases |b| - k
  {
    hide Defines, Uses, Conds;
    if k < |b| { SuffixCounts(a, b, k + 1, t); }
  }

  lemma {:induction false} PrefixCounts(a: seq<Instr>, b: seq<Instr>, k: nat, t: nat)
    requires k <= |a|
    ensures DefinesFrom(a + b, k, t) == (DefinesFrom(a, k, t) || DefinesFrom(b, 0, t))
    ensures UsesFrom(a + b, k, t) == UsesFrom(a, k, t) + UsesFrom(b, 0, t)
    ensures CondsFrom(a + b, k, t) == CondsFrom(a, k, t) + CondsFrom(b, 0, t)
    decreases |a| - k
  {
    hide Defines, Uses, Conds;
    if k < |a| { PrefixCounts(a, b, k + 1, t); } else { SuffixCounts(a, b, 0, t); }
  }

  // ---- Instruction lists ----------------------------------------------------------------------

  /** Neither a parameter, nor storage, nor an address of a temporary. */
  predicate Ordinary(i: Instr)
  {
    match i
    case Param(_, _) => false
    case Alloca(_, _) => false
    case AddrOf(_, _) => false
    case Cond(_, ci, _, ti, _, fi, _) =>
      (forall x :: x in ci ==> Ordinary(x)) && (forall x :: x in ti ==> Ordinary(x)) &&
          (forall x :: x in fi ==> Ordinary(x))
    case _ => true
  }

  predicate AllOrdinary(list: seq<Instr>) { forall x :: x in list ==> Ordinary(x) }

  predicate Within(lo: nat, t: nat, hi: nat) { lo <= t < hi }

  function Range(lo: nat, hi: nat): set<nat> { set t: nat | lo <= t < hi && Within(lo, t, hi) }

  /** The temporaries below hi that are not variables and that an instruction defines. */
  function Made(g: Env, hi: nat, i: Instr): set<nat> { set t: nat | t < hi && Defines(i, t) && t !in g.vars }

  /** The list defines the fresh temporaries and otherwise variables only, mentions only
      variables and temporaries from base up to hi, and has at most one conditional for
      each fresh temporary. */
  ghost predicate Counted(g: Env, base: nat, hi: nat, made: set<nat>, list: seq<Instr>)
  {
    && (forall t: nat :: t in made ==> DefinesFrom(list, 0, t))
    && (forall t: nat :: DefinesFrom(list, 0, t) ==> t in made || t in g.vars)
    && (forall t: nat :: UsesFrom(list, 0, t) > 0 ==> base <= t < hi || t in g.vars)
    && (forall t: nat :: CondsFrom(list, 0, t) <= if t in made then 1 else 0)
  }

  ghost predicate Shaped(g: Env, base: nat, hi: nat, made: set<nat>, list: seq<Instr>)
  {
    Counted(g, base, hi, made, list) && AllOrdinary(list)
  }

  predicate Known(g: Env, base: nat, hi: nat, op: Operand) { op.Temp? ==> base <= op.t < hi || op.t in g.vars }

  lemma CountedJoin(g: Env, base: nat, mid: nat, hi: nat, f: set<nat>, f': set<nat>, a: seq<Instr>, b: seq<Instr>)
    requires Counted(g, base, mid, f, a) && Counted(g, base, hi, f', b) && mid <= hi && f !! f'
    ensures Counted(g, base, hi, f + f', a + b)
  {
    forall t: nat
      ensures DefinesFrom(a + b, 0, t) == (DefinesFrom(a, 0, t) || DefinesFrom(b, 0, t))
      ensures UsesFrom(a + b, 0, t) == UsesFrom(a, 0, t) + UsesFrom(b, 0, t)
      ensures CondsFrom(a + b, 0, t) == CondsFrom(a, 0, t) + CondsFrom(b, 0, t)
    {
      PrefixCounts(a, b, 0, t);
    }
  }

  lemma Join(g: Env, base: nat, mid: nat, hi: nat, f: set<nat>, f': set<nat>, a: seq<Instr>, b: seq<Instr>)
    requires Shaped(g, base, mid, f, a) && Shaped(g, base, hi, f', b) && mid <= hi && f !! f'
    ensures Shaped(g, base, hi, f + f', a + b)
  {
    hide Counted;
    CountedJoin(g, base, mid, hi, f, f', a, b);
  }

  lemma RangeJoin(lo: nat, mid: nat, hi: nat)
    requires lo <= mid <= hi
    ensures Range(lo, mid) + Range(mid, hi) == Range(lo, hi) && Range(lo, mid) !! Range(mid, hi)
  {
  }

  /** Code over consecutive ranges of fresh temporaries. */
  ghost predicate Fresh(g: Env, base: nat, lo: nat, hi: nat, list: seq<Instr>)
  {
    base <= lo <= hi && Shaped(g, base, hi, Range(lo, hi), list)
  }

  lemma Both(g: Env, base: nat, lo: nat, mid: nat, hi: nat, a: seq<Instr>, b: seq<Instr>)
    requires Fresh(g, base, lo, mid, a) && Fresh(g, base, mid, hi, b)
    ensures Fresh(g, base, lo, hi, a + b)
  {
    hide Shaped, Range;
    RangeJoin(lo, mid, hi);
    Join(g, base, mid, hi, Range(lo, mid), Range(mid, hi), a, b);
  }

  lemma Nothing(g: Env, base: nat, n: nat)
    requires base <= n
    ensures Fresh(g, base, n, n, [])
  {
  }

  lemma KnownLater(g: Env, base: nat, hi: nat, hi': nat, op: Operand)
    requires Known(g, base, hi, op) && hi <= hi'
    ensures Known(g, base, hi', op)
  {
  }

  lemma {:induction false} ArgUsesKnown(g: Env, base: nat, hi: nat, ops: seq<Operand>, k: nat, t: nat)
    requires k <= |ops| && forall i :: 0 <= i < |ops| ==> Known(g, base, hi, ops[i])
    ensures ArgUses(ops, k, t) > 0 ==> base <= t < hi || t in g.vars
    decreases |ops| - k
  {
    if k < |ops| { ArgUsesKnown(g, base, hi, ops, k + 1, t); }
  }

  /** The operands an instruction without nested lists reads. */
  function Reads(i: Instr): seq<Operand>
  {
    match i
    case Copy(_, a) => [a]
    case Load(_, _, _, a) => [a]
    case Store(_, a, b) => [a, b]
    case Ext(_, _, _, a) => [a]
    case Bin(_, _, a, b) => [a, b]
    case Call(_, _, args) => args
    case _ => []
  }

  predicate Flat(i: Instr) { i.Const? || i.Copy? || i.Load? || i.Store? || i.Ext? || i.Bin? || i.Call? }

  /** A flat instruction defines one temporary or none. */
  lemma One(g: Env, base: nat, hi: nat, i: Instr)
    requires Flat(i) && forall k :: 0 <= k < |Reads(i)| ==> Known(g, base, hi, Reads(i)[k])
    requires forall t: nat :: Defines(i, t) ==> t < hi || t in g.vars
    ensures Shaped(g, base, hi, Made(g, hi, i), [i])
  {
    forall t: nat
      ensures DefinesFrom([i], 0, t) == Defines(i, t) && UsesFrom([i], 0, t) == Uses(i, t) && CondsFrom([i], 0, t) == 0
      ensures Uses(i, t) > 0 ==> base <= t < hi || t in g.vars
    {
      assert !DefinesFrom([i], 1, t) && UsesFrom([i], 1, t) == 0 && CondsFrom([i], 1, t) == 0;
      if i.Call? {
        assert Reads(i) == i.args;
        ArgUsesKnown(g, base, hi, i.args, 0, t);
      } else {
        var r := Reads(i);
        assert i.Copy? || i.Load? || i.Ext? ==> Known(g, base, hi, r[0]);
        assert i.Store? || i.Bin? ==> Known(g, base, hi, r[0]) && Known(g, base, hi, r[1]);
      }
    }
  }

  /** A flat instruction that defines the next fresh temporary. */
  lemma Next(g: Env, base: nat, n: nat, i: Instr)
    requires Flat(i) && base <= n && n !in g.vars && (forall t: nat :: Defines(i, t) <==> t == n)
    requires forall k :: 0 <= k < |Reads(i)| ==> Known(g, base, n, Reads(i)[k])
    ensures Fresh(g, base, n, n + 1, [i])
  {
    hide Shaped;
    forall k | 0 <= k < |Reads(i)| ensures Known(g, base, n + 1, Reads(i)[k]) {
      KnownLater(g, base, n, n + 1, Reads(i)[k]);
    }
    One(g, base, n + 1, i);
    assert Made(g, n + 1, i) == Range(n, n + 1);
  }

  /** A flat instruction that defines a variable, or nothing. */
  lemma Same(g: Env, base: nat, n: nat, i: Instr)
    requires Flat(i) && base <= n && (forall t: nat :: Defines(i, t) ==> t in g.vars)
    requires forall k :: 0 <= k < |Reads(i)| ==> Known(g, base, n, Reads(i)[k])
    ensures Fresh(g, base, n, n, [i])
  {
    hide Shaped;
    One(g, base, n, i);
    assert Made(g, n, i) == Range(n, n);
  }

  // ---- Conditionals ---------------------------------------------------------------------------

  lemma CondShaped(g: Env, base: nat, hi: nat, fc: set<nat>, ft: set<nat>, ff: set<nat>, i: Instr)
    requires i.Cond? && Shaped(g, base, hi, fc, i.ci) && Shaped(g, base, hi, ft, i.ti) && Shaped(g, base, hi, ff, i.fi)
    requires fc !! ft && fc !! ff && ft !! ff && i.t !in fc + ft + ff && i.t == hi && base <= hi && i.t !in g.vars
    requires Known(g, base, hi, i.co) && Known(g, base, hi, i.to) && Known(g, base, hi, i.fo)
    ensures Shaped(g, base, hi + 1, fc + ft + ff + {i.t}, [i])
  {
    forall t: nat
      ensures DefinesFrom([i], 0, t) == Defines(i, t) && UsesFrom([i], 0, t) == Uses(i, t) &&
          CondsFrom([i], 0, t) == Conds(i, t)
    {
      assert !DefinesFrom([i], 1, t) && UsesFrom([i], 1, t) == 0 && CondsFrom([i], 1, t) == 0;
    }
  }

  lemma Wider(g: Env, base: nat, hi: nat, hi': nat, made: set<nat>, list: seq<Instr>)
    requires Shaped(g, base, hi, made, list) && hi <= hi'
    ensures Shaped(g, base, hi', made, list)
  {
  }
}
