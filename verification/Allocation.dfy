/** Slot allocation and use counting, as functions of the intermediate code. */
module Allocation {
  import opened Options
  import opened Words
  import opened Ir

  /** The bytes of a slot: eight, or four on i386. */
  type SlotSize = n: nat | n == 4 || n == 8 witness 8

  datatype Alloc = Alloc(locs: map<nat, Loc>, next: nat, word: SlotSize)

  function Unallocated(word: SlotSize): Alloc { Alloc(map[], 0, word) }

  const EMPTY := Unallocated(8)

  /** A temporary keeps the location it got first. */
  function AllocDef(a: Alloc, t: nat): Alloc
  {
    if t in a.locs then a else Alloc(a.locs[t := Stack(a.next)], a.next + 1, a.word)
  }

  function ObjectSlots(word: SlotSize, size: int): nat { ((if size < 1 then 1 else size) + word - 1) / word }

  function AllocObject(a: Alloc, t: nat, size: int): Alloc
  {
    if t in a.locs then a
    else
      var slots := ObjectSlots(a.word, size);
      Alloc(a.locs[t := Object(a.next, slots)], a.next + slots, a.word)
  }

  function AllocInstr(i: Instr, a: Alloc): Alloc
    decreases i, 0
  {
    match i
    case Alloca(t, size) => AllocObject(a, t, size)
    case Store(_, _, _) => a
    case Call(res, _, _) => if res.Some? then AllocDef(a, res.value) else a
    case CallIndirect(res, _, _) => if res.Some? then AllocDef(a, res.value) else a
    case Cond(t, ci, _, ti, _, fi, _) =>
      AllocDef(AllocFrom(fi, 0, AllocFrom(ti, 0, AllocFrom(ci, 0, a))), t)
    case _ => AllocDef(a, i.t)
  }

  function AllocFrom(list: seq<Instr>, k: nat, a: Alloc): Alloc
    requires k <= |list|
    decreases list, |list| - k
  {
    if k == |list| then a else AllocFrom(list, k + 1, AllocInstr(list[k], a))
  }

  function AllocBlocks(blocks: seq<Block>, k: nat, a: Alloc): Alloc
    requires k <= |blocks|
    decreases |blocks| - k
  {
    if k == |blocks| then a else AllocBlocks(blocks, k + 1, AllocFrom(blocks[k].instrs, 0, a))
  }

  function AllocFunction(blocks: seq<Block>, word: SlotSize := 8): Alloc
  {
    AllocBlocks(blocks, 0, Unallocated(word))
  }

  // ---- Slots are disjoint, in range, and never move ---------------------------

  /** b extends a: earlier locations are kept, new ones lie past a.next. */
  ghost predicate Grows(a: Alloc, b: Alloc)
  {
    && a.next <= b.next && a.word == b.word
    && (forall t :: t in a.locs ==> t in b.locs && b.locs[t] == a.locs[t])
    && (forall t :: t in b.locs && t !in a.locs ==> a.next <= b.locs[t].slot)
  }

  ghost predicate Packed(a: Alloc) { Frame(0, a.locs, {}, a.next).Laid() }

  lemma DefGrows(a: Alloc, t: nat)
    requires Packed(a)
    ensures Packed(AllocDef(a, t)) && Grows(a, AllocDef(a, t))
  {
  }

  lemma ObjectGrows(a: Alloc, t: nat, size: int)
    requires Packed(a)
    ensures Packed(AllocObject(a, t, size)) && Grows(a, AllocObject(a, t, size))
  {
  }

  lemma GrowsTransitive(a: Alloc, b: Alloc, c: Alloc)
    requires Grows(a, b) && Grows(b, c)
    ensures Grows(a, c)
  {
  }

  lemma {:induction false} AllocInstrGrows(i: Instr, a: Alloc)
    requires Packed(a)
    ensures Packed(AllocInstr(i, a)) && Grows(a, AllocInstr(i, a))
    decreases i, 0
  {
    match i
    case Alloca(t, size) => ObjectGrows(a, t, size);
    case Store(_, _, _) =>
    case Call(res, _, _) => if res.Some? { DefGrows(a, res.value); }
    case CallIndirect(res, _, _) => if res.Some? { DefGrows(a, res.value); }
    case Cond(t, ci, _, ti, _, fi, _) =>
      var c := AllocFrom(ci, 0, a);
      var d := AllocFrom(ti, 0, c);
      var e := AllocFrom(fi, 0, d);
      AllocFromGrows(ci, 0, a);
      AllocFromGrows(ti, 0, c);
      AllocFromGrows(fi, 0, d);
      DefGrows(e, t);
      GrowsTransitive(a, c, d);
      GrowsTransitive(a, d, e);
      GrowsTransitive(a, e, AllocDef(e, t));
    case _ => DefGrows(a, i.t);
  }

  lemma {:induction false} AllocFromGrows(list: seq<Instr>, k: nat, a: Alloc)
    requires k <= |list| && Packed(a)
    ensures Packed(AllocFrom(list, k, a)) && Grows(a, AllocFrom(list, k, a))
    decreases list, |list| - k
  {
    if k < |list| {
      AllocInstrGrows(list[k], a);
      AllocFromGrows(list, k + 1, AllocInstr(list[k], a));
      GrowsTransitive(a, AllocInstr(list[k], a), AllocFrom(list, k, a));
    }
  }

  lemma {:induction false} AllocBlocksGrows(blocks: seq<Block>, k: nat, a: Alloc)
    requires k <= |blocks| && Packed(a)
    ensures Packed(AllocBlocks(blocks, k, a)) && Grows(a, AllocBlocks(blocks, k, a))
    decreases |blocks| - k
  {
    if k < |blocks| {
      AllocFromGrows(blocks[k].instrs, 0, a);
      AllocBlocksGrows(blocks, k + 1, AllocFrom(blocks[k].instrs, 0, a));
      GrowsTransitive(a, AllocFrom(blocks[k].instrs, 0, a), AllocBlocks(blocks, k, a));
    }
  }

  /** The frame of a function: all its locations are disjoint ranges of [0, total). */
  lemma AllocFunctionLaid(blocks: seq<Block>, base: int, exposed: set<nat>, word: SlotSize := 8)
    ensures var a := AllocFunction(blocks, word); Frame(base, a.locs, exposed, a.next).Laid()
  {
    AllocBlocksGrows(blocks, 0, Unallocated(word));
    var a := AllocFunction(blocks, word);
    assert Frame(0, a.locs, {}, a.next).Laid();
  }

  /** The temporaries an instruction gives a location, with their nested ones. */
  predicate Defines(i: Instr, t: nat)
    decreases i, 0
  {
    match i
    case Store(_, _, _) => false
    case Call(res, _, _) => res == Some(t)
    case CallIndirect(res, _, _) => res == Some(t)
    case Cond(u, ci, _, ti, _, fi, _) => u == t || DefinesFrom(ci, 0, t) || DefinesFrom(ti, 0, t) ||
        DefinesFrom(fi, 0, t)
    case _ => i.t == t
  }

  predicate DefinesFrom(list: seq<Instr>, k: nat, t: nat)
    requires k <= |list|
    decreases list, |list| - k
  {
    k < |list| && (Defines(list[k], t) || DefinesFrom(list, k + 1, t))
  }

  predicate DefinesBlocks(blocks: seq<Block>, k: nat, t: nat)
    requires k <= |blocks|
    decreases |blocks| - k
  {
    k < |blocks| && (DefinesFrom(blocks[k].instrs, 0, t) || DefinesBlocks(blocks, k + 1, t))
  }

  lemma {:induction false} AllocInstrDomain(i: Instr, a: Alloc, t: nat)
    ensures t in AllocInstr(i, a).locs <==> t in a.locs || Defines(i, t)
    decreases i, 0
  {
    match i
    case Cond(u, ci, _, ti, _, fi, _) =>
      AllocFromDomain(ci, 0, a, t);
      AllocFromDomain(ti, 0, AllocFrom(ci, 0, a), t);
      AllocFromDomain(fi, 0, AllocFrom(ti, 0, AllocFrom(ci, 0, a)), t);
    case _ =>
  }

  lemma {:induction false} AllocFromDomain(list: seq<Instr>, k: nat, a: Alloc, t: nat)
    requires k <= |list|
    ensures t in AllocFrom(list, k, a).locs <==> t in a.locs || DefinesFrom(list, k, t)
    decreases list, |list| - k
  {
    if k < |list| {
      AllocInstrDomain(list[k], a, t);
      AllocFromDomain(list, k + 1, AllocInstr(list[k], a), t);
    }
  }

  lemma {:induction false} AllocBlocksDomain(blocks: seq<Block>, k: nat, a: Alloc, t: nat)
    requires k <= |blocks|
    ensures t in AllocBlocks(blocks, k, a).locs <==> t in a.locs || DefinesBlocks(blocks, k, t)
    decreases |blocks| - k
  {
    if k < |blocks| {
      AllocFromDomain(blocks[k].instrs, 0, a, t);
      AllocBlocksDomain(blocks, k + 1, AllocFrom(blocks[k].instrs, 0, a), t);
    }
  }

  /** Exactly the temporaries the function defines have a location. */
  lemma AllocFunctionDomain(blocks: seq<Block>, t: nat, word: SlotSize := 8)
    ensures t in AllocFunction(blocks, word).locs <==> DefinesBlocks(blocks, 0, t)
  {
    AllocBlocksDomain(blocks, 0, Unallocated(word), t);
  }

  // ---- Objects are covered ---------------------------------------------------

  /** What a temporary is defined as: a word, or an object of some bytes. */
  datatype Kind = Scalar | Storage(size: int)

  /** What the first instruction to define t makes of it, nested ones in their order. */
  function KindOf(i: Instr, t: nat): Option<Kind>
    decreases i, 0
  {
    match i
    case Alloca(u, size) => if u == t then Some(Storage(size)) else None
    case Store(_, _, _) => None
    case Call(res, _, _) => if res == Some(t) then Some(Scalar) else None
    case CallIndirect(res, _, _) => if res == Some(t) then Some(Scalar) else None
    case Cond(u, ci, _, ti, _, fi, _) =>
      FirstKind(KindFrom(ci, 0, t), FirstKind(KindFrom(ti, 0, t),
          FirstKind(KindFrom(fi, 0, t), if u == t then Some(Scalar) else None)))
    case _ => if i.t == t then Some(Scalar) else None
  }

  function FirstKind(a: Option<Kind>, b: Option<Kind>): Option<Kind> { if a.Some? then a else b }

  function KindFrom(list: seq<Instr>, k: nat, t: nat): Option<Kind>
    requires k <= |list|
    decreases list, |list| - k
  {
    if k == |list| then None else FirstKind(KindOf(list[k], t), KindFrom(list, k + 1, t))
  }

  function KindBlocks(blocks: seq<Block>, k: nat, t: nat): Option<Kind>
    requires k <= |blocks|
    decreases |blocks| - k
  {
    if k == |blocks| then None else FirstKind(KindFrom(blocks[k].instrs, 0, t), KindBlocks(blocks, k + 1, t))
  }

  /** From a to b, t keeps its location, or gets one of the kind, or still has none. */
  ghost predicate Given(a: Alloc, b: Alloc, t: nat, kind: Option<Kind>)
  {
    a.word == b.word &&
    if t in a.locs then t in b.locs && b.locs[t] == a.locs[t]
    else match kind
      case None => t !in b.locs
      case Some(Scalar) => t in b.locs && b.locs[t].Stack?
      case Some(Storage(size)) => t in b.locs && b.locs[t].Object? && b.locs[t].slots == ObjectSlots(a.word, size)
  }

  lemma {:induction false} AllocInstrKind(i: Instr, a: Alloc, t: nat)
    ensures Given(a, AllocInstr(i, a), t, KindOf(i, t))
    decreases i, 0
  {
    match i
    case Cond(u, ci, _, ti, _, fi, _) =>
      AllocFromKind(ci, 0, a, t);
      AllocFromKind(ti, 0, AllocFrom(ci, 0, a), t);
      AllocFromKind(fi, 0, AllocFrom(ti, 0, AllocFrom(ci, 0, a)), t);
    case _ =>
  }

  lemma {:induction false} AllocFromKind(list: seq<Instr>, k: nat, a: Alloc, t: nat)
    requires k <= |list|
    ensures Given(a, AllocFrom(list, k, a), t, KindFrom(list, k, t))
    decreases list, |list| - k
  {
    if k < |list| {
      AllocInstrKind(list[k], a, t);
      AllocFromKind(list, k + 1, AllocInstr(list[k], a), t);
    }
  }

  lemma {:induction false} AllocBlocksKind(blocks: seq<Block>, k: nat, a: Alloc, t: nat)
    requires k <= |blocks|
    ensures Given(a, AllocBlocks(blocks, k, a), t, KindBlocks(blocks, k, t))
    decreases |blocks| - k
  {
    if k < |blocks| {
      AllocFromKind(blocks[k].instrs, 0, a, t);
      AllocBlocksKind(blocks, k + 1, AllocFrom(blocks[k].instrs, 0, a), t);
    }
  }

  /** One word, or the fewest slots that cover an object's bytes, at least one. */
  predicate Serves(word: SlotSize, loc: Loc, kind: Option<Kind>)
  {
    && kind.Some?
    && (loc.Stack? <==> kind.value.Scalar?)
    && (loc.Object? ==>
         word * loc.slots >= kind.value.size && loc.slots >= 1 &&
         (loc.slots > 1 ==> word * (loc.slots - 1) < kind.value.size))
  }

  /** In the finished layout every temporary has what its first definition asks for. */
  lemma ObjectsCovered(blocks: seq<Block>, t: nat, word: SlotSize := 8)
    ensures var locs, kind := AllocFunction(blocks, word).locs, KindBlocks(blocks, 0, t);
      (t in locs <==> kind.Some?) && (t in locs ==> Serves(word, locs[t], kind))
  {
    AllocBlocksKind(blocks, 0, Unallocated(word), t);
  }

  /** The layout of a function: locations for exactly the temporaries it defines, disjoint
      and in the frame, each of the size its first definition asks for. */
  lemma FunctionLayout(blocks: seq<Block>, base: int, exposed: set<nat>, word: SlotSize := 8)
    ensures var a := AllocFunction(blocks, word);
      && Frame(base, a.locs, exposed, a.next).Laid()
      && (forall t: nat :: t in a.locs <==> DefinesBlocks(blocks, 0, t))
      && (forall t: nat :: t in a.locs ==> Serves(word, a.locs[t], KindBlocks(blocks, 0, t)))
  {
    hide AllocFunction, DefinesBlocks, KindBlocks;
    AllocFunctionLaid(blocks, base, exposed, word);
    var a := AllocFunction(blocks, word);
    forall t: nat
      ensures t in a.locs <==> DefinesBlocks(blocks, 0, t)
      ensures t in a.locs ==> Serves(word, a.locs[t], KindBlocks(blocks, 0, t))
    {
      AllocFunctionDomain(blocks, t, word);
      ObjectsCovered(blocks, t, word);
    }
  }

  // ---- Uses -----------------------------------------------------------------

  function OperandUse(a: Operand, t: nat): nat { if a == Temp(t) then 1 else 0 }

  function ArgUses(args: seq<Operand>, k: nat, t: nat): nat
    requires k <= |args|
    decreases |args| - k
  {
    if k == |args| then 0 else OperandUse(args[k], t) + ArgUses(args, k + 1, t)
  }

  /** How often an instruction mentions a temporary as an operand or takes its address. */
  function Uses(i: Instr, t: nat): nat
    decreases i, 0
  {
    match i
    case Param(_, _) => 0
    case Alloca(_, _) => 0
    case Const(_, _) => 0
    case Copy(_, a) => OperandUse(a, t)
    case AddrOf(_, src) => if src == t then 1 else 0
    case Load(_, _, _, a) => OperandUse(a, t)
    case Store(_, a, b) => OperandUse(a, t) + OperandUse(b, t)
    case Ext(_, _, _, a) => OperandUse(a, t)
    case Bin(_, _, a, b) => OperandUse(a, t) + OperandUse(b, t)
    case Call(_, _, args) => ArgUses(args, 0, t)
    case CallIndirect(_, callee, args) => OperandUse(callee, t) + ArgUses(args, 0, t)
    case Cond(_, ci, co, ti, to, fi, fo) =>
      UsesFrom(ci, 0, t) + OperandUse(co, t) + UsesFrom(ti, 0, t) + OperandUse(to, t) +
      UsesFrom(fi, 0, t) + OperandUse(fo, t)
  }

  function UsesFrom(list: seq<Instr>, k: nat, t: nat): nat
    requires k <= |list|
    decreases list, |list| - k
  {
    if k == |list| then 0 else Uses(list[k], t) + UsesFrom(list, k + 1, t)
  }

  function TermUses(term: Term, t: nat): nat
  {
    match term
    case Ret(value) => if value.Some? then OperandUse(value.value, t) else 0
    case Jump(_) => 0
    case Branch(a, _, _) => OperandUse(a, t)
    case BranchCmp(_, a, b, _, _) => OperandUse(a, t) + OperandUse(b, t)
  }

  function UsesBlocks(blocks: seq<Block>, k: nat, t: nat): nat
    requires k <= |blocks|
    decreases |blocks| - k
  {
    if k == |blocks| then 0
    else UsesFrom(blocks[k].instrs, 0, t) + TermUses(blocks[k].term, t) + UsesBlocks(blocks, k + 1, t)
  }

  /** The operands of an instruction, a temporary whose address it takes, and those of the
      instructions nested in it. */
  function Mentioned(i: Instr): seq<Operand>
    decreases i, 0
  {
    match i
    case Param(_, _) => []
    case Alloca(_, _) => []
    case Const(_, _) => []
    case Copy(_, a) => [a]
    case AddrOf(_, src) => [Temp(src)]
    case Load(_, _, _, a) => [a]
    case Store(_, a, b) => [a, b]
    case Ext(_, _, _, a) => [a]
    case Bin(_, _, a, b) => [a, b]
    case Call(_, _, args) => args
    case CallIndirect(_, callee, args) => [callee] + args
    case Cond(_, ci, co, ti, to, fi, fo) =>
      MentionedFrom(ci, 0) + [co] + (MentionedFrom(ti, 0) + [to]) + (MentionedFrom(fi, 0) + [fo])
  }

  function MentionedFrom(list: seq<Instr>, k: nat): seq<Operand>
    requires k <= |list|
    decreases list, |list| - k
  {
    if k == |list| then [] else Mentioned(list[k]) + MentionedFrom(list, k + 1)
  }

  lemma {:induction false} ArgUsesCount(args: seq<Operand>, k: nat, t: nat)
    requires k <= |args|
    ensures ArgUses(args, k, t) == multiset(args[k..])[Temp(t)]
    decreases |args| - k
  {
    if k < |args| {
      ArgUsesCount(args, k + 1, t);
      assert args[k..] == [args[k]] + args[k + 1..];
    }
  }

  /** A temporary is counted once for every time it is mentioned. */
  lemma {:induction false} UsesCount(i: Instr, t: nat)
    ensures Uses(i, t) == multiset(Mentioned(i))[Temp(t)]
    decreases i, 0
  {
    if i.Cond? {
      hide Uses, Mentioned, OperandUse;
      CondIs(i, t);
      UsesFromCount(i.ci, 0, t);
      UsesFromCount(i.ti, 0, t);
      UsesFromCount(i.fi, 0, t);
      var test, yes, no := MentionedFrom(i.ci, 0), MentionedFrom(i.ti, 0), MentionedFrom(i.fi, 0);
      CountBoth(test + [i.co], yes + [i.to], t);
      CountBoth(test + [i.co] + (yes + [i.to]), no + [i.fo], t);
      CountBoth(test, [i.co], t);
      CountBoth(yes, [i.to], t);
      CountBoth(no, [i.fo], t);
    } else {
      FlatCount(i, t);
    }
  }

  lemma CondIs(i: Instr, t: nat)
    requires i.Cond?
    ensures Uses(i, t) == UsesFrom(i.ci, 0, t) + OperandUse(i.co, t) + UsesFrom(i.ti, 0, t) + OperandUse(i.to, t) +
        UsesFrom(i.fi, 0, t) + OperandUse(i.fo, t)
    ensures Mentioned(i) == MentionedFrom(i.ci, 0) + [i.co] + (MentionedFrom(i.ti, 0) + [i.to]) +
        (MentionedFrom(i.fi, 0) + [i.fo])
  {
  }

  lemma FlatCount(i: Instr, t: nat)
    requires !i.Cond?
    ensures Uses(i, t) == multiset(Mentioned(i))[Temp(t)]
  {
    if i.Call? || i.CallIndirect? {
      hide Uses, Mentioned, OperandUse;
      CallIs(i, t);
      ArgUsesCount(i.args, 0, t);
      assert i.args[0..] == i.args;
      if i.CallIndirect? { CountBoth([i.callee], i.args, t); CountBoth([], [i.callee], t); }
    }
  }

  lemma CallIs(i: Instr, t: nat)
    requires i.Call? || i.CallIndirect?
    ensures i.Call? ==> Mentioned(i) == i.args && Uses(i, t) == ArgUses(i.args, 0, t)
    ensures i.CallIndirect? ==>
      Mentioned(i) == [i.callee] + i.args && Uses(i, t) == OperandUse(i.callee, t) + ArgUses(i.args, 0, t)
  {
  }

  lemma CountBoth(a: seq<Operand>, b: seq<Operand>, t: nat)
    ensures multiset(a + b)[Temp(t)] == multiset(a)[Temp(t)] + multiset(b)[Temp(t)]
    ensures |b| == 1 ==> multiset(b)[Temp(t)] == OperandUse(b[0], t)
  {
    assert multiset(a + b) == multiset(a) + multiset(b);
    if |b| == 1 { assert b == [b[0]]; }
  }

  lemma {:induction false} UsesFromCount(list: seq<Instr>, k: nat, t: nat)
    requires k <= |list|
    ensures UsesFrom(list, k, t) == multiset(MentionedFrom(list, k))[Temp(t)]
    decreases list, |list| - k
  {
    hide Uses, Mentioned;
    if k < |list| {
      UsesCount(list[k], t);
      UsesFromCount(list, k + 1, t);
      CountBoth(Mentioned(list[k]), MentionedFrom(list, k + 1), t);
    }
  }

  /** Every temporary the function mentions has a location; otherwise counting fails. */
  ghost predicate Allocated(blocks: seq<Block>)
  {
    forall t: nat :: UsesBlocks(blocks, 0, t) > 0 ==> t in AllocFunction(blocks).locs
  }

  // ---- Exposed temporaries ----------------------------------------------------

  function Exposed(i: Instr): set<nat>
    decreases i, 0
  {
    match i
    case AddrOf(_, src) => {src}
    case Cond(_, ci, _, ti, _, fi, _) => ExposedFrom(ci, 0) + ExposedFrom(ti, 0) + ExposedFrom(fi, 0)
    case _ => {}
  }

  function ExposedFrom(list: seq<Instr>, k: nat): set<nat>
    requires k <= |list|
    decreases list, |list| - k
  {
    if k == |list| then {} else Exposed(list[k]) + ExposedFrom(list, k + 1)
  }

  function ExposedBlocks(blocks: seq<Block>, k: nat): set<nat>
    requires k <= |blocks|
    decreases |blocks| - k
  {
    if k == |blocks| then {} else ExposedFrom(blocks[k].instrs, 0) + ExposedBlocks(blocks, k + 1)
  }

  /** An instruction with those nested in it. */
  function WithNested(i: Instr): seq<Instr>
    decreases i, 0
  {
    [i] + if i.Cond? then NestedFrom(i.ci, 0) + NestedFrom(i.ti, 0) + NestedFrom(i.fi, 0) else []
  }

  function NestedFrom(list: seq<Instr>, k: nat): seq<Instr>
    requires k <= |list|
    decreases list, |list| - k
  {
    if k == |list| then [] else WithNested(list[k]) + NestedFrom(list, k + 1)
  }

  predicate TakesAddress(instrs: seq<Instr>, t: nat) { exists i :: i in instrs && i.AddrOf? && i.src == t }

  lemma TakesEither(a: seq<Instr>, b: seq<Instr>, t: nat)
    ensures TakesAddress(a + b, t) <==> TakesAddress(a, t) || TakesAddress(b, t)
  {
    if i :| i in a && i.AddrOf? && i.src == t { assert i in a + b; }
    if i :| i in b && i.AddrOf? && i.src == t { assert i in a + b; }
  }

  lemma {:induction false} ExposedInstr(i: Instr, t: nat)
    ensures t in Exposed(i) <==> TakesAddress(WithNested(i), t)
    decreases i, 0
  {
    hide TakesAddress;
    TakesOne(i, t);
    if i.Cond? {
      ExposedList(i.ci, 0, t);
      ExposedList(i.ti, 0, t);
      ExposedList(i.fi, 0, t);
      TakesEither(NestedFrom(i.ci, 0), NestedFrom(i.ti, 0), t);
      TakesEither(NestedFrom(i.ci, 0) + NestedFrom(i.ti, 0), NestedFrom(i.fi, 0), t);
      TakesEither([i], NestedFrom(i.ci, 0) + NestedFrom(i.ti, 0) + NestedFrom(i.fi, 0), t);
    } else {
      assert [i] + [] == [i];
    }
  }

  lemma TakesOne(i: Instr, t: nat)
    ensures TakesAddress([i], t) <==> i.AddrOf? && i.src == t
    ensures !TakesAddress([], t)
  {
    assert i in [i];
  }

  lemma {:induction false} ExposedList(list: seq<Instr>, k: nat, t: nat)
    requires k <= |list|
    ensures t in ExposedFrom(list, k) <==> TakesAddress(NestedFrom(list, k), t)
    decreases list, |list| - k
  {
    hide TakesAddress, Exposed, WithNested;
    if k < |list| {
      ExposedInstr(list[k], t);
      ExposedList(list, k + 1, t);
      TakesEither(WithNested(list[k]), NestedFrom(list, k + 1), t);
    } else {
      TakesOne(Store(W1, Imm(0), Imm(0)), t);
    }
  }

  /** The exposed temporaries are those whose address some instruction takes. */
  lemma {:induction false} ExposedExactly(blocks: seq<Block>, k: nat, t: nat)
    requires k <= |blocks|
    ensures t in ExposedBlocks(blocks, k) <==>
      exists j :: k <= j < |blocks| && TakesAddress(NestedFrom(blocks[j].instrs, 0), t)
    decreases |blocks| - k
  {
    hide TakesAddress, NestedFrom, ExposedFrom;
    if k < |blocks| {
      ExposedList(blocks[k].instrs, 0, t);
      ExposedExactly(blocks, k + 1, t);
    }
  }

  /** The frame a call of the function runs in. */
  function FunctionFrame(blocks: seq<Block>, base: int): Frame
  {
    Frame(base, AllocFunction(blocks).locs, ExposedBlocks(blocks, 0), AllocFunction(blocks).next)
  }
}
