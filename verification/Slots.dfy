/** The allocator as the back end runs it: a growing array of cells, one for each
    temporary, filled in place; uses are counted in the same cells. A missing
    allocation is a fatal diagnostic. */
module Slots {
  import opened Options
  import opened Ir
  import opened Allocation
  import opened Emission

  datatype Kind = Unplaced | OnStack | OnObject

  datatype Cell = Cell(kind: Kind, slot: nat, slots: nat, uses: nat)

  const EMPTY_CELL := Cell(Unplaced, 0, 0, 0)

  function Place(cell: Cell): Loc { if cell.kind.OnObject? then Object(cell.slot, cell.slots) else Stack(cell.slot) }

  /** How often a block mentions a temporary. */
  function BlockUses(block: Block, t: nat): nat { UsesFrom(block.instrs, 0, t) + TermUses(block.term, t) }

  lemma UsesStep(blocks: seq<Block>, k: nat, t: nat)
    requires k < |blocks|
    ensures UsesBlocks(blocks, k, t) == BlockUses(blocks[k], t) + UsesBlocks(blocks, k + 1, t)
  {
  }

  class LocArray {
    var items: array<Cell>
    var nextSlot: nat
    const word: SlotSize

    constructor (word: SlotSize)
      ensures this.word == word && fresh(items) && Valid() && View() == Unallocated(word) && Uncounted()
    {
      this.word := word;
      items := new Cell[0];
      nextSlot := 0;
    }

    predicate Valid()
      reads this
    {
      items.Length == 0 || items.Length >= 64
    }

    ghost predicate Placed(t: nat)
      reads this, items
    {
      t < items.Length && !items[t].kind.Unplaced?
    }

    /** The locations given so far. */
    ghost function View(): Alloc
      reads this, items
    {
      Alloc(map t: nat | t < items.Length && Placed(t) :: Place(items[t]), nextSlot, word)
    }

    ghost function UsesAt(t: nat): nat
      reads this, items
    {
      if t < items.Length then items[t].uses else 0
    }

    ghost predicate Uncounted()
      reads this, items
    {
      forall t: nat :: UsesAt(t) == 0
    }

    /** What emission goes by: locations, counts and the size of the frame. */
    ghost function Known(): Layout
      reads this, items
    {
      Layout(View().locs, map t | t in View().locs :: UsesAt(t), nextSlot)
    }

    /** Grow to hold a temporary, doubling from 64; what is there is kept. */
    method EnsureLoc(temp: nat)
      requires Valid()
      modifies this`items
      ensures Valid() && temp < items.Length && (items == old(items) || fresh(items))
      ensures View() == old(View()) && forall t: nat :: UsesAt(t) == old(UsesAt(t))
    {
      if temp < items.Length { return; }
      var cap := if items.Length == 0 then 64 else items.Length;
      while temp >= cap
        invariant cap >= 64 && cap >= items.Length
        decreases temp - cap
      {
        cap := cap * 2;
      }
      var grown := new Cell[cap];
      var i := 0;
      while i < cap
        invariant 0 <= i <= cap && items == old(items)
        invariant forall t :: 0 <= t < i ==> grown[t] == if t < items.Length then items[t] else EMPTY_CELL
      {
        grown[i] := if i < items.Length then items[i] else EMPTY_CELL;
        i := i + 1;
      }
      items := grown;
      assert forall t: nat :: t < items.Length ==> items[t] == if t < old(items.Length) then old(items[t])
          else EMPTY_CELL;
      assert forall t: nat :: Placed(t) == old(Placed(t));
      assert View().locs == old(View().locs);
    }

    /** A temporary gets the next slot unless it has a location. */
    method Define(temp: nat)
      requires Valid()
      modifies this, items
      ensures Valid() && (items == old(items) || fresh(items))
      ensures View() == AllocDef(old(View()), temp) && forall t: nat :: UsesAt(t) == old(UsesAt(t))
    {
      EnsureLoc(temp);
      if !items[temp].kind.Unplaced? { return; }
      items[temp] := Cell(OnStack, nextSlot, 1, items[temp].uses);
      nextSlot := nextSlot + 1;
    }

    /** An object gets as many slots as cover its bytes. */
    method DefineObject(temp: nat, size: int)
      requires Valid()
      modifies this, items
      ensures Valid() && (items == old(items) || fresh(items))
      ensures View() == AllocObject(old(View()), temp, size) && forall t: nat :: UsesAt(t) == old(UsesAt(t))
    {
      EnsureLoc(temp);
      if !items[temp].kind.Unplaced? { return; }
      var bytes := if size < 1 then 1 else size;
      var slots := (bytes + word - 1) / word;
      items[temp] := Cell(OnObject, nextSlot, slots, items[temp].uses);
      nextSlot := nextSlot + slots;
    }

    method AllocateInstr(i: Instr)
      requires Valid()
      modifies this, items
      ensures Valid() && (items == old(items) || fresh(items))
      ensures View() == AllocInstr(i, old(View())) && forall t: nat :: UsesAt(t) == old(UsesAt(t))
      decreases i, 0
    {
      match i
      case Alloca(t, size) => DefineObject(t, size);
      case Store(_, _, _) =>
      case Call(res, _, _) => if res.Some? { Define(res.value); }
      case CallIndirect(res, _, _) => if res.Some? { Define(res.value); }
      case Cond(t, ci, _, ti, _, fi, _) =>
        Allocate(ci);
        Allocate(ti);
        Allocate(fi);
        Define(t);
      case _ => Define(i.t);
    }

    /** Place what a list defines, nested lists included. */
    method Allocate(list: seq<Instr>)
      requires Valid()
      modifies this, items
      ensures Valid() && (items == old(items) || fresh(items))
      ensures View() == AllocFrom(list, 0, old(View())) && forall t: nat :: UsesAt(t) == old(UsesAt(t))
      decreases list
    {
      var k := 0;
      while k < |list|
        invariant 0 <= k <= |list| && Valid() && (items == old(items) || fresh(items))
        invariant AllocFrom(list, k, View()) == AllocFrom(list, 0, old(View())) &&
            forall t: nat :: UsesAt(t) == old(UsesAt(t))
      {
        AllocateInstr(list[k]);
        k := k + 1;
      }
    }

    /** Whether a temporary has a location; the program stops if not. */
    method Lookup(temp: nat) returns (ok: bool)
      ensures ok <==> temp in View().locs
    {
      ok := temp < items.Length && !items[temp].kind.Unplaced?;
    }

    method CountUse(temp: nat) returns (ok: bool)
      requires Valid()
      modifies items
      ensures Valid() && View() == old(View()) && (ok <==> temp in View().locs)
      ensures ok ==> forall t: nat :: UsesAt(t) == old(UsesAt(t)) + if t == temp then 1 else 0
    {
      ok := Lookup(temp);
      if ok { items[temp] := items[temp].(uses := items[temp].uses + 1); }
    }

    method CountOperand(a: Operand) returns (ok: bool)
      requires Valid()
      modifies items
      ensures Valid() && View() == old(View()) && (ok <==> forall t: nat :: OperandUse(a, t) > 0 ==> t in View().locs)
      ensures ok ==> forall t: nat :: UsesAt(t) == old(UsesAt(t)) + OperandUse(a, t)
    {
      ok := true;
      if a.Temp? {
        ok := CountUse(a.t);
        assert OperandUse(a, a.t) == 1;
      }
    }

    method CountArgs(args: seq<Operand>) returns (ok: bool)
      requires Valid()
      modifies items
      ensures Valid() && View() == old(View()) &&
          (ok <==> forall t: nat :: ArgUses(args, 0, t) > 0 ==> t in View().locs)
      ensures ok ==> forall t: nat :: UsesAt(t) == old(UsesAt(t)) + ArgUses(args, 0, t)
    {
      var k := 0;
      ok := true;
      while k < |args|
        invariant 0 <= k <= |args| && Valid() && View() == old(View()) && ok
        invariant forall t: nat :: UsesAt(t) + ArgUses(args, k, t) == old(UsesAt(t)) + ArgUses(args, 0, t)
        invariant (forall t: nat :: ArgUses(args, 0, t) > 0 ==> t in View().locs) <==>
            (forall t: nat :: ArgUses(args, k, t) > 0 ==> t in View().locs)
      {
        ok := CountOperand(args[k]);
        assert forall t: nat :: ArgUses(args, k, t) == OperandUse(args[k], t) + ArgUses(args, k + 1, t);
        if !ok { return; }
        k := k + 1;
      }
    }

    method CountInstr(i: Instr) returns (ok: bool)
      requires Valid()
      modifies items
      ensures Valid() && View() == old(View()) && (ok <==> forall t: nat :: Uses(i, t) > 0 ==> t in View().locs)
      ensures ok ==> forall t: nat :: UsesAt(t) == old(UsesAt(t)) + Uses(i, t)
      decreases i, 1
    {
      ok := true;
      match i
      case Copy(_, a) => ok := CountOperand(a);
      case Load(_, _, _, a) => ok := CountOperand(a);
      case Ext(_, _, _, a) => ok := CountOperand(a);
      case AddrOf(_, src) =>
        ok := CountUse(src);
        assert Uses(i, src) == 1;
      case Store(_, a, b) => ok := CountPair(a, b);
      case Bin(_, _, a, b) => ok := CountPair(a, b);
      case Call(_, _, args) => ok := CountArgs(args);
      case CallIndirect(_, callee, args) =>
        ok := CountOperand(callee);
        if !ok {
          assert forall t: nat :: Uses(i, t) >= OperandUse(callee, t);
          return;
        }
        ok := CountArgs(args);
        assert forall t: nat :: Uses(i, t) == OperandUse(callee, t) + ArgUses(args, 0, t);
      case Cond(_, ci, co, ti, to, fi, fo) => ok := CountCond(i);
      case _ =>
    }

    method CountPair(a: Operand, b: Operand) returns (ok: bool)
      requires Valid()
      modifies items
      ensures Valid() && View() == old(View()) &&
          (ok <==> forall t: nat :: OperandUse(a, t) + OperandUse(b, t) > 0 ==> t in View().locs)
      ensures ok ==> forall t: nat :: UsesAt(t) == old(UsesAt(t)) + OperandUse(a, t) + OperandUse(b, t)
    {
      ok := CountOperand(a);
      if !ok {
        assert forall t: nat :: OperandUse(a, t) + OperandUse(b, t) >= OperandUse(a, t);
        return;
      }
      ok := CountOperand(b);
      assert forall t: nat :: OperandUse(a, t) + OperandUse(b, t) > 0 <==> OperandUse(a, t) > 0 || OperandUse(b, t) > 0;
    }

    /** A list, then the operand read after it. */
    method CountThen(list: seq<Instr>, a: Operand) returns (ok: bool)
      requires Valid()
      modifies items
      ensures Valid() && View() == old(View()) &&
          (ok <==> forall t: nat :: UsesFrom(list, 0, t) + OperandUse(a, t) > 0 ==> t in View().locs)
      ensures ok ==> forall t: nat :: UsesAt(t) == old(UsesAt(t)) + (UsesFrom(list, 0, t) + OperandUse(a, t))
      decreases list, |list| + 1
    {
      ok := CountList(list);
      if !ok {
        assert forall t: nat :: UsesFrom(list, 0, t) + OperandUse(a, t) >= UsesFrom(list, 0, t);
        return;
      }
      ok := CountOperand(a);
      assert forall t: nat :: UsesFrom(list, 0, t) + OperandUse(a, t) > 0 <==>
          UsesFrom(list, 0, t) > 0 || OperandUse(a, t) > 0;
    }

    method CountCond(i: Instr) returns (ok: bool)
      requires Valid() && i.Cond?
      modifies items
      ensures Valid() && View() == old(View()) && (ok <==> forall t: nat :: Uses(i, t) > 0 ==> t in View().locs)
      ensures ok ==> forall t: nat :: UsesAt(t) == old(UsesAt(t)) + Uses(i, t)
      decreases i, 0
    {
      assert forall t: nat ::
        Uses(i, t) == (UsesFrom(i.ci, 0, t) + OperandUse(i.co, t)) + (UsesFrom(i.ti, 0, t) + OperandUse(i.to, t)) +
            (UsesFrom(i.fi, 0, t) + OperandUse(i.fo, t));
      ok := CountThen(i.ci, i.co);
      if ok { ok := CountThen(i.ti, i.to); }
      if ok { ok := CountThen(i.fi, i.fo); }
    }

    /** Count the uses in a list, nested lists included. */
    method CountList(list: seq<Instr>) returns (ok: bool)
      requires Valid()
      modifies items
      ensures Valid() && View() == old(View()) &&
          (ok <==> forall t: nat :: UsesFrom(list, 0, t) > 0 ==> t in View().locs)
      ensures ok ==> forall t: nat :: UsesAt(t) == old(UsesAt(t)) + UsesFrom(list, 0, t)
      decreases list, |list|
    {
      var k := 0;
      ok := true;
      while k < |list|
        invariant 0 <= k <= |list| && Valid() && View() == old(View()) && ok
        invariant forall t: nat :: UsesAt(t) + UsesFrom(list, k, t) == old(UsesAt(t)) + UsesFrom(list, 0, t)
        invariant (forall t: nat :: UsesFrom(list, 0, t) > 0 ==> t in View().locs) <==>
            (forall t: nat :: UsesFrom(list, k, t) > 0 ==> t in View().locs)
      {
        assert forall t: nat :: UsesFrom(list, k, t) == Uses(list[k], t) + UsesFrom(list, k + 1, t);
        ok := CountInstr(list[k]);
        if !ok { return; }
        k := k + 1;
      }
    }

    method CountTerm(term: Term) returns (ok: bool)
      requires Valid()
      modifies items
      ensures Valid() && View() == old(View()) && (ok <==> forall t: nat :: TermUses(term, t) > 0 ==> t in View().locs)
      ensures ok ==> forall t: nat :: UsesAt(t) == old(UsesAt(t)) + TermUses(term, t)
    {
      ok := true;
      match term
      case Ret(value) => if value.Some? { ok := CountOperand(value.value); }
      case Jump(_) =>
      case Branch(a, _, _) => ok := CountOperand(a);
      case BranchCmp(_, a, b, _, _) => ok := CountPair(a, b);
    }

    method CountBlock(block: Block) returns (ok: bool)
      requires Valid()
      modifies items
      ensures Valid() && View() == old(View()) &&
          (ok <==> forall t: nat :: BlockUses(block, t) > 0 ==> t in View().locs)
      ensures ok ==> forall t: nat :: UsesAt(t) == old(UsesAt(t)) + BlockUses(block, t)
    {
      ok := CountList(block.instrs);
      if !ok { return; }
      ok := CountTerm(block.term);
    }

    /** Count the uses in a whole function. */
    method CountFunction(blocks: seq<Block>) returns (ok: bool)
      requires Valid()
      modifies items
      ensures Valid() && View() == old(View()) &&
          (ok <==> forall t: nat :: UsesBlocks(blocks, 0, t) > 0 ==> t in View().locs)
      ensures ok ==> forall t: nat :: UsesAt(t) == old(UsesAt(t)) + UsesBlocks(blocks, 0, t)
    {
      hide UsesFrom, TermUses, BlockUses;
      var k := 0;
      ok := true;
      while k < |blocks|
        invariant 0 <= k <= |blocks| && Valid() && View() == old(View()) && ok
        invariant forall t: nat :: UsesAt(t) + UsesBlocks(blocks, k, t) == old(UsesAt(t)) + UsesBlocks(blocks, 0, t)
        invariant (forall t: nat :: UsesBlocks(blocks, 0, t) > 0 ==> t in View().locs) <==>
            (forall t: nat :: UsesBlocks(blocks, k, t) > 0 ==> t in View().locs)
      {
        forall t: nat ensures UsesBlocks(blocks, k, t) == BlockUses(blocks[k], t) + UsesBlocks(blocks, k + 1, t) {
          UsesStep(blocks, k, t);
        }
        ok := CountBlock(blocks[k]);
        if !ok { return; }
        k := k + 1;
      }
    }

    /** Place every temporary of a function, then count the uses; false is a fatal
        diagnostic, exactly for a temporary used but never defined. */
    method AllocateFunction(blocks: seq<Block>) returns (ok: bool)
      requires Valid() && View() == Unallocated(word) && Uncounted()
      modifies this, items
      ensures Valid() && View() == AllocFunction(blocks, word) && (ok <==> Allocated(blocks))
      ensures ok && word == 8 ==> Known() == LayoutOf(blocks)
    {
      var k := 0;
      while k < |blocks|
        invariant 0 <= k <= |blocks| && Valid() && (items == old(items) || fresh(items))
        invariant AllocBlocks(blocks, k, View()) == AllocBlocks(blocks, 0, Unallocated(word))
        invariant forall t: nat :: UsesAt(t) == 0
      {
        Allocate(blocks[k].instrs);
        k := k + 1;
      }
      ok := CountFunction(blocks);
      forall t: nat ensures t in AllocFunction(blocks, word).locs <==> t in AllocFunction(blocks).locs {
        AllocFunctionDomain(blocks, t, word);
        AllocFunctionDomain(blocks, t);
      }
    }
  }
}
