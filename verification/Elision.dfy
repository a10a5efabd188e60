/** Why leaving a store out is safe: a temporary used once in the whole function,
    by the instruction after its definition, is read nowhere else.

    Each use is either loose or covered by a left-out store just before it, and
    the two kinds add up to the function-wide use count. */
module Elision {
  import opened Options
  import opened Words
  import opened Ir
  import opened Machine
  import opened Allocation
  import opened Emission

  lemma ConsumesUses(i: Instr, t: nat)
    requires Consumes(i, t)
    ensures Uses(i, t) >= 1
  {
  }

  /** The operands an instruction can take from rax as the instruction before left it. */
  function FirstReads(i: Instr): seq<Operand>
  {
    match i
    case Copy(_, a) => [a]
    case Load(_, _, _, a) => [a]
    case Ext(_, _, _, a) => [a]
    case Store(_, a, _) => [a]
    case Bin(_, op, a, b) =>
      if op in [BinOp.Add, BinOp.Mul, BinOp.Eq, BinOp.Ne, BinOp.And, BinOp.Or, BinOp.Xor] then [a, b] else [a]
    case Call(_, _, args) => if 1 <= |args| <= 6 then [args[0]] else []
    case CallIndirect(_, _, args) => if 1 <= |args| <= 6 then [args[0]] else []
    case _ => []
  }

  /** A store is left out exactly when the instruction computes a temporary used once, which
      the next instruction can take from rax, or what follows the list reads first. */
  lemma LeftOutExactly(f: Layout, list: seq<Instr>, k: nat, final: Option<nat>, t: nat)
    requires k < |list|
    ensures Elides(f, list, k, final) == Some(t) <==>
      && Defines(list[k], t) && !list[k].Alloca? && !list[k].Cond? && UsesOf(f, t) == 1
      && if k + 1 < |list| then Temp(t) in FirstReads(list[k + 1]) else final == Some(t)
  {
    if k + 1 < |list| { ConsumesFirst(list[k + 1], t); }
  }

  /** The back end knows the uses of every temporary that has a location. */
  lemma UsesKnown(blocks: seq<Block>, t: nat)
    ensures UsesOf(LayoutOf(blocks), t) == if t in AllocFunction(blocks).locs then UsesBlocks(blocks, 0, t) else 0
  {
  }

  lemma ConsumesFirst(i: Instr, t: nat)
    ensures Consumes(i, t) <==> Temp(t) in FirstReads(i)
  {
  }

  /** 1 if the instruction before position k left out the store of t. */
  function Covered(f: Layout, list: seq<Instr>, k: nat, final: Option<nat>, t: nat): nat
    requires k < |list|
  {
    if k > 0 && Elides(f, list, k - 1, final) == Some(t) then 1 else 0
  }

  /** 1 if the last instruction of the list left out the store of t. */
  function Last(f: Layout, list: seq<Instr>, final: Option<nat>, t: nat): nat
  {
    if list != [] && Elides(f, list, |list| - 1, final) == Some(t) then 1 else 0
  }

  function LooseEnd(f: Layout, list: seq<Instr>, a: Operand, t: nat): nat
  {
    OperandUse(a, t) - Last(f, list, OperandTemp(a), t)
  }

  /** Uses of t that read its slot, counting none that a left-out store covers. */
  function Loose(f: Layout, i: Instr, t: nat): (n: nat)
    decreases i, 0
  {
    match i
    case Cond(_, ci, co, ti, to, fi, fo) =>
      LooseFrom(f, ci, 0, OperandTemp(co), t) + LooseEnd(f, ci, co, t) +
      LooseFrom(f, ti, 0, OperandTemp(to), t) + LooseEnd(f, ti, to, t) +
      LooseFrom(f, fi, 0, OperandTemp(fo), t) + LooseEnd(f, fi, fo, t)
    case _ => Uses(i, t)
  }

  function LooseFrom(f: Layout, list: seq<Instr>, k: nat, final: Option<nat>, t: nat): (n: nat)
    requires k <= |list|
    decreases list, |list| - k
  {
    if k == |list| then 0 else
    assert Covered(f, list, k, final, t) <= Loose(f, list[k], t) by {
      if Covered(f, list, k, final, t) == 1 { ConsumesUses(list[k], t); }
    }
    Loose(f, list[k], t) - Covered(f, list, k, final, t) + LooseFrom(f, list, k + 1, final, t)
  }

  /** How many stores of t are left out. */
  function Sites(f: Layout, i: Instr, t: nat): nat
    decreases i, 0
  {
    match i
    case Cond(_, ci, co, ti, to, fi, fo) =>
      SitesFrom(f, ci, 0, OperandTemp(co), t) + SitesFrom(f, ti, 0, OperandTemp(to), t) +
          SitesFrom(f, fi, 0, OperandTemp(fo), t)
    case _ => 0
  }

  function SitesFrom(f: Layout, list: seq<Instr>, k: nat, final: Option<nat>, t: nat): nat
    requires k <= |list|
    decreases list, |list| - k
  {
    if k == |list| then 0 else
    Sites(f, list[k], t) + (if Elides(f, list, k, final) == Some(t) then 1 else 0) + SitesFrom(f, list, k + 1, final, t)
  }

  lemma {:induction false} UsesSplit(f: Layout, i: Instr, t: nat)
    ensures Uses(i, t) == Loose(f, i, t) + Sites(f, i, t)
    decreases i, 0
  {
    match i
    case Cond(_, ci, co, ti, to, fi, fo) =>
      UsesFromSplit(f, ci, 0, OperandTemp(co), t);
      UsesFromSplit(f, ti, 0, OperandTemp(to), t);
      UsesFromSplit(f, fi, 0, OperandTemp(fo), t);
    case _ =>
  }

  lemma {:induction false} UsesFromSplit(f: Layout, list: seq<Instr>, k: nat, final: Option<nat>, t: nat)
    requires k <= |list|
    ensures k == |list| ==>
      UsesFrom(list, k, t) == LooseFrom(f, list, k, final, t) == SitesFrom(f, list, k, final, t) == 0
    ensures k < |list| ==>
      UsesFrom(list, k, t) + Last(f, list, final, t) ==
      LooseFrom(f, list, k, final, t) + Covered(f, list, k, final, t) + SitesFrom(f, list, k, final, t)
    decreases list, |list| - k
  {
    if k < |list| {
      UsesSplit(f, list[k], t);
      UsesFromSplit(f, list, k + 1, final, t);
    }
  }

  /** Only temporaries counted once are ever left unstored. */
  lemma {:induction false} SitesOnce(f: Layout, i: Instr, t: nat)
    ensures Sites(f, i, t) > 0 ==> UsesOf(f, t) == 1
    decreases i, 0
  {
    match i
    case Cond(_, ci, co, ti, to, fi, fo) =>
      SitesFromOnce(f, ci, 0, OperandTemp(co), t);
      SitesFromOnce(f, ti, 0, OperandTemp(to), t);
      SitesFromOnce(f, fi, 0, OperandTemp(fo), t);
    case _ =>
  }

  lemma {:induction false} SitesFromOnce(f: Layout, list: seq<Instr>, k: nat, final: Option<nat>, t: nat)
    requires k <= |list|
    ensures SitesFrom(f, list, k, final, t) > 0 ==> UsesOf(f, t) == 1
    decreases list, |list| - k
  {
    if k < |list| {
      SitesOnce(f, list[k], t);
      SitesFromOnce(f, list, k + 1, final, t);
    }
  }

  // ---- Whole functions ----------------------------------------------------------

  function LooseTerm(f: Layout, block: Block, t: nat): nat
  {
    TermUses(block.term, t) - Last(f, block.instrs, TermTemp(block), t)
  }

  function LooseBlocks(f: Layout, blocks: seq<Block>, k: nat, t: nat): nat
    requires k <= |blocks|
    decreases |blocks| - k
  {
    if k == |blocks| then 0
    else
      LooseFrom(f, blocks[k].instrs, 0, TermTemp(blocks[k]), t) + LooseTerm(f, blocks[k], t) +
      LooseBlocks(f, blocks, k + 1, t)
  }

  function SitesBlocks(f: Layout, blocks: seq<Block>, k: nat, t: nat): nat
    requires k <= |blocks|
    decreases |blocks| - k
  {
    if k == |blocks| then 0
    else SitesFrom(f, blocks[k].instrs, 0, TermTemp(blocks[k]), t) + SitesBlocks(f, blocks, k + 1, t)
  }

  lemma {:induction false} UsesBlocksSplit(f: Layout, blocks: seq<Block>, k: nat, t: nat)
    requires k <= |blocks|
    ensures UsesBlocks(blocks, k, t) == LooseBlocks(f, blocks, k, t) + SitesBlocks(f, blocks, k, t)
    ensures SitesBlocks(f, blocks, k, t) > 0 ==> UsesOf(f, t) == 1
    decreases |blocks| - k
  {
    if k < |blocks| {
      UsesFromSplit(f, blocks[k].instrs, 0, TermTemp(blocks[k]), t);
      SitesFromOnce(f, blocks[k].instrs, 0, TermTemp(blocks[k]), t);
      UsesBlocksSplit(f, blocks, k + 1, t);
    }
  }

  /** The temporaries whose store is left out somewhere in the function. */
  ghost function Elided(blocks: seq<Block>): set<nat>
  {
    set t | t in AllocFunction(blocks).locs && SitesBlocks(LayoutOf(blocks), blocks, 0, t) > 0
  }

  /** A temporary some store of which is left out is never read from its slot. */
  lemma ElidedNeverRead(blocks: seq<Block>, t: nat)
    ensures SitesBlocks(LayoutOf(blocks), blocks, 0, t) > 0 <==> t in Elided(blocks)
    ensures t in Elided(blocks) ==> UsesBlocks(blocks, 0, t) == 1 && LooseBlocks(LayoutOf(blocks), blocks, 0, t) == 0
  {
    UsesBlocksSplit(LayoutOf(blocks), blocks, 0, t);
  }

  // ---- Taking the condition apart along the code ---------------------------------

  /** From position k on, no temporary of dropped is read from its slot, and every
      store left out is of one of them. */
  ghost predicate Safe(f: Layout, dropped: set<nat>, list: seq<Instr>, k: nat, final: Option<nat>)
    requires k <= |list|
  {
    && (forall t :: t in dropped ==> LooseFrom(f, list, k, final, t) == 0)
    && (forall t: nat :: SitesFrom(f, list, k, final, t) > 0 ==> t in dropped)
  }

  /** Instruction i reads, of the temporaries in dropped, only prev, and that once. */
  ghost predicate SafeInstr(f: Layout, dropped: set<nat>, i: Instr, prev: Option<nat>)
  {
    && (forall t :: t in dropped ==> Loose(f, i, t) == if prev == Some(t) then 1 else 0)
    && (forall t: nat :: Sites(f, i, t) > 0 ==> t in dropped)
    && (prev.Some? ==> prev.value in dropped && Consumes(i, prev.value))
  }

  function Before(f: Layout, list: seq<Instr>, k: nat, final: Option<nat>): Option<nat>
    requires k < |list|
  {
    if k > 0 then Elides(f, list, k - 1, final) else None
  }

  lemma SafeStep(f: Layout, dropped: set<nat>, list: seq<Instr>, k: nat, final: Option<nat>)
    requires k < |list| && Safe(f, dropped, list, k, final)
    requires var p := Before(f, list, k, final); p.Some? ==> p.value in dropped
    ensures Safe(f, dropped, list, k + 1, final)
    ensures SafeInstr(f, dropped, list[k], Before(f, list, k, final))
    ensures Elides(f, list, k, final).Some? ==> Elides(f, list, k, final).value in dropped
  {
    var omit := Elides(f, list, k, final);
    if omit.Some? { assert SitesFrom(f, list, k, final, omit.value) > 0; }
    forall t | t in dropped
      ensures LooseFrom(f, list, k + 1, final, t) == 0
      ensures Loose(f, list[k], t) == if Before(f, list, k, final) == Some(t) then 1 else 0
    {
      assert LooseFrom(f, list, k, final, t) == 0;
      if Covered(f, list, k, final, t) == 1 { ConsumesUses(list[k], t); }
    }
    forall t: nat
      ensures SitesFrom(f, list, k + 1, final, t) > 0 ==> t in dropped
      ensures Sites(f, list[k], t) > 0 ==> t in dropped
    {
      if SitesFrom(f, list, k + 1, final, t) > 0 || Sites(f, list[k], t) > 0 {
        assert SitesFrom(f, list, k, final, t) > 0;
      }
    }
  }

  /** The operand read after a list is in dropped only if the list ends by leaving it in rax. */
  ghost predicate SafeEnd(f: Layout, dropped: set<nat>, list: seq<Instr>, a: Operand)
  {
    forall t :: t in dropped ==> LooseEnd(f, list, a, t) == 0
  }

  lemma SafeCond(f: Layout, dropped: set<nat>, i: Instr)
    requires i.Cond? && SafeInstr(f, dropped, i, None)
    ensures Safe(f, dropped, i.ci, 0, OperandTemp(i.co)) && SafeEnd(f, dropped, i.ci, i.co)
    ensures Safe(f, dropped, i.ti, 0, OperandTemp(i.to)) && SafeEnd(f, dropped, i.ti, i.to)
    ensures Safe(f, dropped, i.fi, 0, OperandTemp(i.fo)) && SafeEnd(f, dropped, i.fi, i.fo)
  {
    forall t | t in dropped
      ensures LooseFrom(f, i.ci, 0, OperandTemp(i.co), t) == 0 && LooseEnd(f, i.ci, i.co, t) == 0
      ensures LooseFrom(f, i.ti, 0, OperandTemp(i.to), t) == 0 && LooseEnd(f, i.ti, i.to, t) == 0
      ensures LooseFrom(f, i.fi, 0, OperandTemp(i.fo), t) == 0 && LooseEnd(f, i.fi, i.fo, t) == 0
    {
      assert Loose(f, i, t) == 0;
    }
    forall t: nat
      ensures SitesFrom(f, i.ci, 0, OperandTemp(i.co), t) > 0 ==> t in dropped
      ensures SitesFrom(f, i.ti, 0, OperandTemp(i.to), t) > 0 ==> t in dropped
      ensures SitesFrom(f, i.fi, 0, OperandTemp(i.fo), t) > 0 ==> t in dropped
    {
      if t !in dropped { assert Sites(f, i, t) == 0; }
    }
  }

  /** Every block of the function is safe for the function's left-out stores. */
  ghost predicate SafeBlock(f: Layout, dropped: set<nat>, block: Block)
  {
    && Safe(f, dropped, block.instrs, 0, TermTemp(block))
    && (forall t :: t in dropped ==> LooseTerm(f, block, t) == 0)
  }

  lemma {:induction false} SumsCoverBlock(f: Layout, blocks: seq<Block>, k: nat, j: nat, t: nat)
    requires k <= j < |blocks|
    ensures LooseBlocks(f, blocks, k, t) >= LooseFrom(f, blocks[j].instrs, 0, TermTemp(blocks[j]), t) +
        LooseTerm(f, blocks[j], t)
    ensures SitesBlocks(f, blocks, k, t) >= SitesFrom(f, blocks[j].instrs, 0, TermTemp(blocks[j]), t)
    decreases j - k
  {
    if k < j { SumsCoverBlock(f, blocks, k + 1, j, t); }
  }

  lemma BlocksSafe(blocks: seq<Block>, k: nat)
    requires k < |blocks|
    ensures SafeBlock(LayoutOf(blocks), Elided(blocks), blocks[k])
  {
    var f := LayoutOf(blocks);
    forall t: nat
      ensures t in Elided(blocks) ==>
        LooseFrom(f, blocks[k].instrs, 0, TermTemp(blocks[k]), t) == 0 && LooseTerm(f, blocks[k], t) == 0
      ensures SitesFrom(f, blocks[k].instrs, 0, TermTemp(blocks[k]), t) > 0 ==> t in Elided(blocks)
    {
      ElidedNeverRead(blocks, t);
      SumsCoverBlock(f, blocks, 0, k, t);
    }
  }

  /** Temporaries whose address is taken are always stored. */
  lemma {:induction false} ExposedUsed(i: Instr, t: nat, f: Layout)
    requires t in Exposed(i)
    ensures Loose(f, i, t) >= 1
    decreases i, 0
  {
    match i
    case Cond(_, ci, co, ti, to, fi, fo) =>
      if t in ExposedFrom(ci, 0) { ExposedFromUsed(ci, 0, OperandTemp(co), t, f); }
      if t in ExposedFrom(ti, 0) { ExposedFromUsed(ti, 0, OperandTemp(to), t, f); }
      if t in ExposedFrom(fi, 0) { ExposedFromUsed(fi, 0, OperandTemp(fo), t, f); }
    case _ =>
  }

  lemma {:induction false} ExposedFromUsed(list: seq<Instr>, k: nat, final: Option<nat>, t: nat, f: Layout)
    requires k <= |list| && t in ExposedFrom(list, k)
    ensures LooseFrom(f, list, k, final, t) >= 1
    decreases list, |list| - k
  {
    if t in Exposed(list[k]) {
      ExposedUsed(list[k], t, f);
    } else {
      ExposedFromUsed(list, k + 1, final, t, f);
    }
  }

  lemma {:induction false} ExposedBlocksUsed(blocks: seq<Block>, k: nat, t: nat, f: Layout)
    requires k <= |blocks| && t in ExposedBlocks(blocks, k)
    ensures LooseBlocks(f, blocks, k, t) >= 1
    decreases |blocks| - k
  {
    if t in ExposedFrom(blocks[k].instrs, 0) {
      ExposedFromUsed(blocks[k].instrs, 0, TermTemp(blocks[k]), t, f);
    } else {
      ExposedBlocksUsed(blocks, k + 1, t, f);
    }
  }

  lemma ElidedPrivate(blocks: seq<Block>)
    ensures Elided(blocks) !! ExposedBlocks(blocks, 0)
  {
    forall t | t in Elided(blocks) && t in ExposedBlocks(blocks, 0)
      ensures false
    {
      ElidedNeverRead(blocks, t);
      ExposedBlocksUsed(blocks, 0, t, LayoutOf(blocks));
    }
  }
}
