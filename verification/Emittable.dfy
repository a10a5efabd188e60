/** What the back end accepts: any function whose operands have locations, whose results
    are not stack objects and whose conditional branches compare. Nothing else is refused. */
module Emittable {
  import opened Options
  import opened Ir
  import opened Allocation
  import opened Emission

  /** A temporary has a slot a result can be stored in. */
  predicate Slotted(f: Layout, t: nat) { t in f.locs && f.locs[t].Stack? }

  /** Every result of an instruction, nested ones included, can be stored. */
  predicate Storable(f: Layout, i: Instr)
    decreases i, 0
  {
    match i
    case Param(t, _) => Slotted(f, t)
    case Alloca(_, _) => true
    case Const(t, _) => Slotted(f, t)
    case Copy(t, _) => Slotted(f, t)
    case AddrOf(t, _) => Slotted(f, t)
    case Load(t, _, _, _) => Slotted(f, t)
    case Store(_, _, _) => true
    case Ext(t, _, _, _) => Slotted(f, t)
    case Bin(t, _, _, _) => Slotted(f, t)
    case Call(res, _, _) => res.Some? ==> Slotted(f, res.value)
    case CallIndirect(res, _, _) => res.Some? ==> Slotted(f, res.value)
    case Cond(t, ci, _, ti, _, fi, _) =>
      Slotted(f, t) && StorableFrom(f, ci, 0) && StorableFrom(f, ti, 0) && StorableFrom(f, fi, 0)
  }

  predicate StorableFrom(f: Layout, list: seq<Instr>, k: nat)
    requires k <= |list|
    decreases list, |list| - k
  {
    k == |list| || (Storable(f, list[k]) && StorableFrom(f, list, k + 1))
  }

  ghost predicate Located(f: Layout, i: Instr) { forall t: nat :: Uses(i, t) > 0 ==> t in f.locs }

  ghost predicate LocatedFrom(f: Layout, list: seq<Instr>, k: nat)
    requires k <= |list|
  {
    forall t: nat :: UsesFrom(list, k, t) > 0 ==> t in f.locs
  }

  predicate Found(f: Layout, a: Operand) { a.Temp? ==> a.t in f.locs }

  // ---- Operands and arguments --------------------------------------------------------------

  lemma LoadEmits(f: Layout, rax: Option<nat>, bias: nat, a: Operand)
    requires Found(f, a)
    ensures EmitLoad(f, rax, bias, a).Some?
  {
  }

  lemma StoreEmits(f: Layout, omit: Option<nat>, t: nat)
    ensures EmitStore(f, omit, t).Some? <==> Slotted(f, t)
  {
  }

  lemma {:induction false} PushesEmit(f: Layout, rax: Option<nat>, args: seq<Operand>, k: nat, pushed: nat)
    requires k <= |args| && forall a :: a in args ==> Found(f, a)
    ensures EmitPushes(f, rax, args, k, pushed).Some?
    decreases k
  {
    if k > 6 {
      LoadEmits(f, rax, 8 * pushed, args[k - 1]);
      PushesEmit(f, EmitLoad(f, rax, 8 * pushed, args[k - 1]).value.rax, args, k - 1, pushed + 1);
    }
  }

  lemma {:induction false} MovesEmit(f: Layout, rax: Option<nat>, args: seq<Operand>, k: nat)
    requires k <= |args| && forall a :: a in args ==> Found(f, a)
    ensures EmitMoves(f, rax, args, k).Some?
    decreases |args| - k
  {
    if k < |args| && k < 6 {
      LoadEmits(f, rax, StackBytes(|args|), args[k]);
      MovesEmit(f, EmitLoad(f, rax, StackBytes(|args|), args[k]).value.rax, args, k + 1);
    }
  }

  lemma {:induction false} ArgUsed(args: seq<Operand>, k: nat, i: nat)
    requires k <= i < |args| && args[i].Temp?
    ensures ArgUses(args, k, args[i].t) > 0
    decreases |args| - k
  {
    if k < i { ArgUsed(args, k + 1, i); }
  }

  lemma ArgumentsEmit(f: Layout, rax: Option<nat>, args: seq<Operand>)
    requires forall t: nat :: ArgUses(args, 0, t) > 0 ==> t in f.locs
    ensures EmitArguments(f, rax, args).Some?
  {
    forall a | a in args ensures Found(f, a) {
      if a.Temp? {
        var i :| 0 <= i < |args| && args[i] == a;
        ArgUsed(args, 0, i);
      }
    }
    PushesEmit(f, rax, args, |args|, 0);
    MovesEmit(f, EmitPushes(f, rax, args, |args|, 0).value.rax, args, 0);
  }

  lemma PairEmits(f: Layout, rax: Option<nat>, a: Operand, b: Operand, park: bool)
    requires Found(f, a) && Found(f, b)
    ensures EmitPair(f, rax, a, b, park).Some?
  {
  }

  lemma BinEmits(f: Layout, rax: Option<nat>, omit: Option<nat>, t: nat, op: BinOp, a: Operand, b: Operand)
    requires Found(f, a) && Found(f, b)
    ensures EmitBin(f, rax, omit, t, op, a, b).Some? <==> Slotted(f, t)
  {
    hide EmitLoad, EmitPair, EmitStore, Slotted, Commutative;
    var left := if Turned(op, a, b) then b else a;
    LoadEmits(f, rax, 0, left);
    StoreEmits(f, omit, t);
    var (left', right', park) := PairOrder(rax, op, a, b);
    PairEmits(f, rax, left', right', park);
  }

  // ---- Instructions ---------------------------------------------------------------------------

  /** The operands of an instruction are used by it. */
  lemma OperandsFound(f: Layout, i: Instr)
    requires Located(f, i)
    ensures i.Copy? || i.Load? || i.Ext? ==> Found(f, i.a)
    ensures i.Store? || i.Bin? ==> Found(f, i.a) && Found(f, i.b)
    ensures i.AddrOf? ==> i.src in f.locs
    ensures i.CallIndirect? ==> Found(f, i.callee)
    ensures i.Call? || i.CallIndirect? ==> forall t: nat :: ArgUses(i.args, 0, t) > 0 ==> t in f.locs
    ensures i.Cond? ==> Found(f, i.co) && Found(f, i.to) && Found(f, i.fo)
    ensures i.Cond? ==> LocatedFrom(f, i.ci, 0) && LocatedFrom(f, i.ti, 0) && LocatedFrom(f, i.fi, 0)
  {
    match i
    case Copy(_, a) => if a.Temp? { assert Uses(i, a.t) > 0; }
    case Load(_, _, _, a) => if a.Temp? { assert Uses(i, a.t) > 0; }
    case Ext(_, _, _, a) => if a.Temp? { assert Uses(i, a.t) > 0; }
    case Store(_, a, b) => PairFound(f, i, a, b);
    case Bin(_, _, a, b) => PairFound(f, i, a, b);
    case AddrOf(_, src) => assert Uses(i, src) > 0;
    case Call(_, _, args) => forall t: nat ensures Uses(i, t) == ArgUses(args, 0, t) {}
    case CallIndirect(_, callee, args) =>
      forall t: nat ensures Uses(i, t) == OperandUse(callee, t) + ArgUses(args, 0, t) {}
      if callee.Temp? { assert Uses(i, callee.t) > 0; }
    case Cond(_, ci, co, ti, to, fi, fo) =>
      forall t: nat ensures Uses(i, t) == UsesFrom(ci, 0, t) + OperandUse(co, t) + UsesFrom(ti, 0, t) +
          OperandUse(to, t) + UsesFrom(fi, 0, t) + OperandUse(fo, t) {}
      if co.Temp? { assert OperandUse(co, co.t) == 1; }
      if to.Temp? { assert OperandUse(to, to.t) == 1; }
      if fo.Temp? { assert OperandUse(fo, fo.t) == 1; }
    case _ =>
  }

  lemma PairFound(f: Layout, i: Instr, a: Operand, b: Operand)
    requires Located(f, i) && (i.Store? || i.Bin?) && i.a == a && i.b == b
    ensures Found(f, a) && Found(f, b)
  {
    if a.Temp? { assert Uses(i, a.t) > 0; }
    if b.Temp? { assert Uses(i, b.t) > 0; }
  }

  lemma {:induction false} InstrEmits(f: Layout, rax: Option<nat>, omit: Option<nat>, i: Instr)
    requires Located(f, i)
    ensures EmitInstr(f, rax, omit, i).Some? <==> Storable(f, i)
    decreases i, 0
  {
    hide EmitArguments, EmitLoad, EmitPair, EmitBin, EmitStore, EmitThenLoad, EmitArm, Slotted, Uses, Located,
        LocatedFrom, EmitAddressOf;
    OperandsFound(f, i);
    if i.Cond? {
      ThenLoadEmits(f, i.ci, rax, i.co);
      ArmEmits(f, i.ti, i.to, i.t);
      ArmEmits(f, i.fi, i.fo, i.t);
    } else {
      FlatEmits(f, rax, omit, i);
    }
  }

  lemma FlatEmits(f: Layout, rax: Option<nat>, omit: Option<nat>, i: Instr)
    requires Located(f, i) && !i.Cond?
    ensures EmitInstr(f, rax, omit, i).Some? <==> Storable(f, i)
  {
    hide EmitArguments, EmitLoad, EmitPair, EmitBin, EmitStore, Slotted, Uses, Located;
    OperandsFound(f, i);
    match i
    case Param(t, _) => StoreEmits(f, omit, t);
    case Const(t, _) => StoreEmits(f, omit, t);
    case Copy(t, a) => StoreEmits(f, omit, t); LoadEmits(f, rax, 0, a);
    case AddrOf(t, _) => StoreEmits(f, omit, t);
    case Load(t, _, _, a) => StoreEmits(f, omit, t); LoadEmits(f, rax, 0, a);
    case Store(_, a, b) => PairEmits(f, rax, a, b, false);
    case Ext(t, _, _, a) => StoreEmits(f, omit, t); LoadEmits(f, rax, 0, a);
    case Bin(t, op, a, b) => BinEmits(f, rax, omit, t, op, a, b);
    case Call(res, _, args) =>
      ArgumentsEmit(f, rax, args);
      if res.Some? { StoreEmits(f, omit, res.value); }
    case CallIndirect(res, callee, args) =>
      ArgumentsEmit(f, rax, args);
      LoadEmits(f, EmitArguments(f, rax, args).value.rax, StackBytes(|args|), callee);
      if res.Some? { StoreEmits(f, omit, res.value); }
    case Alloca(_, _) =>
  }

  lemma ArmEmits(f: Layout, list: seq<Instr>, a: Operand, t: nat)
    requires LocatedFrom(f, list, 0) && Found(f, a)
    ensures EmitArm(f, list, a, t).Some? <==> StorableFrom(f, list, 0) && Slotted(f, t)
    decreases list, |list| + 2
  {
    hide EmitThenLoad, StorableFrom, EmitStore, LocatedFrom;
    ThenLoadEmits(f, list, None, a);
    StoreEmits(f, None, t);
  }

  lemma ThenLoadEmits(f: Layout, list: seq<Instr>, rax: Option<nat>, a: Operand)
    requires LocatedFrom(f, list, 0) && Found(f, a)
    ensures EmitThenLoad(f, list, rax, a).Some? <==> StorableFrom(f, list, 0)
    decreases list, |list| + 1
  {
    hide EmitFrom, EmitLoad, StorableFrom, LocatedFrom;
    FromEmits(f, list, 0, rax, OperandTemp(a));
    if EmitFrom(f, list, 0, rax, OperandTemp(a)).Some? {
      LoadEmits(f, EmitFrom(f, list, 0, rax, OperandTemp(a)).value.rax, 0, a);
    }
  }

  /** A list is accepted exactly when its results can be stored. */
  lemma {:induction false} FromEmits(f: Layout, list: seq<Instr>, k: nat, rax: Option<nat>, final: Option<nat>)
    requires k <= |list| && LocatedFrom(f, list, k)
    ensures EmitFrom(f, list, k, rax, final).Some? <==> StorableFrom(f, list, k)
    decreases list, |list| - k
  {
    hide EmitInstr, Storable, Located, LocatedFrom;
    if k < |list| {
      FirstLocated(f, list, k);
      var c := EmitInstr(f, rax, Elides(f, list, k, final), list[k]);
      InstrEmits(f, rax, Elides(f, list, k, final), list[k]);
      if c.Some? { FromEmits(f, list, k + 1, c.value.rax, final); }
    }
  }

  lemma FirstLocated(f: Layout, list: seq<Instr>, k: nat)
    requires k < |list| && LocatedFrom(f, list, k)
    ensures Located(f, list[k]) && LocatedFrom(f, list, k + 1)
  {
    hide Uses;
    forall t: nat ensures UsesFrom(list, k, t) == Uses(list[k], t) + UsesFrom(list, k + 1, t) {}
  }

  // ---- Blocks ----------------------------------------------------------------------------------

  lemma TermEmits(f: Layout, rax: Option<nat>, term: Term, next: Option<nat>)
    requires forall t: nat :: TermUses(term, t) > 0 ==> t in f.locs
    ensures EmitTerm(f, rax, term, next).Some? <==> Compares(term)
  {
    match term
    case Ret(value) => if value.Some? && value.value.Temp? { assert TermUses(term, value.value.t) > 0; }
    case Jump(_) =>
    case Branch(a, _, _) => if a.Temp? { assert TermUses(term, a.t) > 0; }
    case BranchCmp(_, a, b, _, _) =>
      if a.Temp? { assert TermUses(term, a.t) > 0; }
      if b.Temp? { assert TermUses(term, b.t) > 0; }
      PairEmits(f, rax, a, b, true);
  }

  ghost predicate LocatedBlocks(f: Layout, blocks: seq<Block>, k: nat)
    requires k <= |blocks|
  {
    forall t: nat :: UsesBlocks(blocks, k, t) > 0 ==> t in f.locs
  }

  predicate StorableBlocks(f: Layout, blocks: seq<Block>, k: nat)
    requires k <= |blocks|
  {
    forall i :: k <= i < |blocks| ==> StorableFrom(f, blocks[i].instrs, 0) && Compares(blocks[i].term)
  }

  lemma {:induction false} BlocksEmit(f: Layout, blocks: seq<Block>, k: nat)
    requires k <= |blocks| && LocatedBlocks(f, blocks, k)
    ensures EmitBlocks(f, blocks, k).Some? <==> StorableBlocks(f, blocks, k)
    decreases |blocks| - k
  {
    hide EmitFrom, EmitTerm, LocatedFrom, LocatedBlocks, StorableFrom, Compares;
    if k < |blocks| {
      FirstBlockLocated(f, blocks, k);
      var block := blocks[k];
      FromEmits(f, block.instrs, 0, None, TermTemp(block));
      var body := EmitFrom(f, block.instrs, 0, None, TermTemp(block));
      if body.Some? { TermEmits(f, body.value.rax, block.term, NextId(blocks, k)); }
      BlocksEmit(f, blocks, k + 1);
    }
  }

  lemma FirstBlockLocated(f: Layout, blocks: seq<Block>, k: nat)
    requires k < |blocks| && LocatedBlocks(f, blocks, k)
    ensures LocatedFrom(f, blocks[k].instrs, 0) && LocatedBlocks(f, blocks, k + 1)
    ensures forall t: nat :: TermUses(blocks[k].term, t) > 0 ==> t in f.locs
  {
    forall t: nat ensures UsesBlocks(blocks, k, t) == UsesFrom(blocks[k].instrs, 0, t) +
        TermUses(blocks[k].term, t) + UsesBlocks(blocks, k + 1, t) {}
  }

  /** A temporary is mentioned somewhere, as an operand or for its address. */
  ghost predicate Mentions(blocks: seq<Block>, t: nat) { UsesBlocks(blocks, 0, t) > 0 }

  /** The back end emits code for a function exactly when every temporary it mentions is
      defined in it, no result goes to a stack object, and branches on two operands compare. */
  lemma FunctionEmits(blocks: seq<Block>)
    ensures EmitFunction(blocks).Some? <==>
      && (forall t: nat :: Mentions(blocks, t) ==> DefinesBlocks(blocks, 0, t))
      && StorableBlocks(LayoutOf(blocks), blocks, 0)
  {
    hide EmitBlocks, StorableBlocks, UsesBlocks, DefinesBlocks, AllocFunction, LayoutOf;
    forall t: nat ensures t in AllocFunction(blocks).locs <==> DefinesBlocks(blocks, 0, t) {
      AllocFunctionDomain(blocks, t);
    }
    LayoutLocs(blocks);
    if Allocated(blocks) {
      assert LocatedBlocks(LayoutOf(blocks), blocks, 0);
      BlocksEmit(LayoutOf(blocks), blocks, 0);
      forall t: nat | Mentions(blocks, t) ensures DefinesBlocks(blocks, 0, t) { assert UsesBlocks(blocks, 0, t) > 0; }
    } else {
      var t: nat :| UsesBlocks(blocks, 0, t) > 0 && t !in AllocFunction(blocks).locs;
      assert Mentions(blocks, t) && !DefinesBlocks(blocks, 0, t);
    }
  }

  lemma LayoutLocs(blocks: seq<Block>)
    ensures LayoutOf(blocks).locs == AllocFunction(blocks).locs
  {
  }
}
