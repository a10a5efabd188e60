/** The emitter as the back end runs it: it appends to its output and keeps, in place,
    which temporary rax holds and whose store to leave out. Each method emits exactly the
    code the specification gives for the state it starts in; false is a fatal
    diagnostic. */
module Emitter {
  import opened Options
  import opened Words
  import opened Ir
  import opened Machine
  import opened Allocation
  import opened Emission
  import opened Slots

  /** Code after instructions already emitted. */
  function Prefixed(done: seq<Insn>, code: Option<Code>): Option<Code>
  {
    if code.None? then None else Some(Code(done + code.value.insns, code.value.rax))
  }

  lemma PrefixedTwice(a: seq<Insn>, b: seq<Insn>, code: Option<Code>)
    ensures Prefixed(a, Prefixed(b, code)) == Prefixed(a + b, code)
  {
    if code.Some? { assert a + (b + code.value.insns) == a + b + code.value.insns; }
  }

  lemma PrefixedNone(code: Option<Code>)
    ensures Prefixed([], code) == code
  {
    if code.Some? { assert [] + code.value.insns == code.value.insns; }
  }

  lemma Regroup(ok: bool, out: seq<Insn>, a: seq<Insn>, b: seq<Insn>, store: Option<Code>)
    ensures ok && store.Some? ==> out + a + b + store.value.insns == out + (a + b + store.value.insns)
  {
  }

  lemma PushStep(f: Layout, rax: Option<nat>, args: seq<Operand>, k: nat, pushed: nat, done: seq<Insn>)
    requires 6 < k <= |args|
    ensures var l := EmitLoad(f, rax, 8 * pushed, args[k - 1]);
      Prefixed(done, EmitPushes(f, rax, args, k, pushed)) ==
        if l.None? then None else Prefixed(done + (l.value.insns + [PushRax]),
            EmitPushes(f, l.value.rax, args, k - 1, pushed + 1))
  {
    hide EmitLoad;
    var l := EmitLoad(f, rax, 8 * pushed, args[k - 1]);
    if l.Some? { PrefixedTwice(done, l.value.insns + [PushRax], EmitPushes(f, l.value.rax, args, k - 1, pushed + 1)); }
  }

  lemma MoveStep(f: Layout, rax: Option<nat>, args: seq<Operand>, k: nat, done: seq<Insn>)
    requires k < |args| && k < 6
    ensures var l := EmitLoad(f, rax, StackBytes(|args|), args[k]);
      Prefixed(done, EmitMoves(f, rax, args, k)) ==
        if l.None? then None else Prefixed(done + (l.value.insns + [MoveToArg(k)]),
            EmitMoves(f, l.value.rax, args, k + 1))
  {
    hide EmitLoad;
    var l := EmitLoad(f, rax, StackBytes(|args|), args[k]);
    if l.Some? { PrefixedTwice(done, l.value.insns + [MoveToArg(k)], EmitMoves(f, l.value.rax, args, k + 1)); }
  }

  /** A load, instructions on the value loaded, and a store of the result. */
  function AndStore(load: Option<Code>, insns: seq<Insn>, store: Option<Code>): Option<Code>
  {
    if load.None? || store.None? then None
        else Some(Code(load.value.insns + insns + store.value.insns, store.value.rax))
  }

  lemma CondGrouped(out: seq<Insn>, t: nat, c: seq<Insn>, y: seq<Insn>, n: seq<Insn>)
    ensures out + c + [Test, JumpCompare(Eq, ElseLabel(t))] + y + [JumpTo(DoneLabel(t)), Mark(ElseLabel(t))] + n +
        [Mark(DoneLabel(t))] ==
      out + CondCode(t, c, y, n)
  {
  }

  lemma InstrStep(f: Layout, rax: Option<nat>, list: seq<Instr>, k: nat, final: Option<nat>, done: seq<Insn>)
    requires k < |list|
    ensures var c := EmitInstr(f, rax, Elides(f, list, k, final), list[k]);
      Prefixed(done, EmitFrom(f, list, k, rax, final)) ==
        if c.None? then None else Prefixed(done + c.value.insns, EmitFrom(f, list, k + 1, c.value.rax, final))
  {
    hide EmitInstr, Elides;
    var c := EmitInstr(f, rax, Elides(f, list, k, final), list[k]);
    if c.Some? { PrefixedTwice(done, c.value.insns, EmitFrom(f, list, k + 1, c.value.rax, final)); }
  }

  lemma CondKeepsStore(f: Layout, list: seq<Instr>, k: nat, final: Option<nat>)
    requires k < |list|
    ensures list[k].Cond? ==> Elides(f, list, k, final) == None
  {
  }

  /** An instruction whose result has no location cannot be emitted. */
  lemma DefMissing(f: Layout, rax: Option<nat>, omit: Option<nat>, i: Instr)
    requires DefTemp(i).Some? && DefTemp(i).value !in f.locs
    ensures EmitInstr(f, rax, omit, i).None?
  {
    hide EmitLoad, EmitPair, EmitArguments;
  }

  class EmitState {
    var raxTemp: Option<nat>
    var omitStore: Option<nat>
    var out: seq<Insn>
    const locs: LocArray

    /** What the allocation was when emission began; emission does not change it. */
    ghost const f: Layout

    constructor (locs: LocArray)
      ensures this.locs == locs && raxTemp == None && omitStore == None && out == [] && f == locs.Known() && Valid()
    {
      this.locs := locs;
      f := locs.Known();
      raxTemp, omitStore, out := None, None, [];
    }

    ghost predicate Valid()
      reads locs, locs.items
    {
      locs.Known() == f
    }

    /** The method has appended the code, or failed where there is none. */
    twostate predicate Emitted(ok: bool, code: Option<Code>)
      reads this
    {
      && ok == code.Some?
      && omitStore == old(omitStore)
      && (ok ==> out == old(out) + code.value.insns && raxTemp == code.value.rax)
    }

    method Emit(insns: seq<Insn>)
      modifies this`out
      ensures out == old(out) + insns
    {
      out := out + insns;
    }

    method LoadOperand(bias: nat, a: Operand) returns (ok: bool)
      requires Valid()
      modifies this
      ensures Valid()
      ensures Emitted(ok, EmitLoad(f, old(raxTemp), bias, a))
    {
      ok := true;
      match a
      case Imm(v) =>
        raxTemp := None;
        Emit([if FitsInt32(v) then LoadImmediate(v) else LoadImmediate64(WordOf(v))]);
      case Bytes(bytes) =>
        raxTemp := None;
        Emit([LoadImmediate64(PadBytes(bytes))]);
      case Global(name) =>
        raxTemp := None;
        Emit([LoadLabel(name)]);
      case Func(name) =>
        raxTemp := None;
        Emit([LoadFunction(name)]);
      case Temp(t) =>
        ok := locs.Lookup(t);
        if !ok { return; }
        var stack := locs.items[t].kind.OnStack?;
        var slot := locs.items[t].slot;
        if bias == 0 && stack && raxTemp == Some(t) {
          assert out == out + [];
          return;
        }
        raxTemp := None;
        Emit([if stack then LoadRsp(8 * slot + bias) else LeaRsp(8 * slot + bias)]);
        if bias == 0 && stack { raxTemp := Some(t); }
    }

    /** Store rax, unless this is the store to leave out; either way rax holds t. */
    method StoreTemp(t: nat) returns (ok: bool)
      requires Valid()
      modifies this
      ensures Valid()
      ensures Emitted(ok, EmitStore(f, old(omitStore), t))
    {
      ok := locs.Lookup(t);
      if !ok { return; }
      if locs.items[t].kind.OnObject? { return false; }
      if omitStore != Some(t) { Emit([StoreRsp(8 * locs.items[t].slot)]); } else { assert out == out + []; }
      raxTemp := Some(t);
    }

    method AddressOf(src: nat) returns (ok: bool)
      requires Valid()
      modifies this
      ensures Valid()
      ensures Emitted(ok, EmitAddressOf(f, src))
    {
      ok := locs.Lookup(src);
      if !ok { return; }
      raxTemp := None;
      Emit([LeaRsp(8 * locs.items[src].slot)]);
    }

    /** Both operands, left in rbx and right in rax. */
    method LoadPair(left: Operand, right: Operand, park: bool) returns (ok: bool)
      requires Valid()
      modifies this
      ensures Valid()
      ensures Emitted(ok, EmitPair(f, old(raxTemp), left, right, park))
    {
      hide EmitLoad;
      if park && right.Temp? && raxTemp == Some(right.t) {
        Emit([CopyRaxToRbx]);
        ok := LoadOperand(0, left);
        if !ok { return; }
        Emit([Exchange]);
        raxTemp := None;
      } else {
        ok := LoadOperand(0, left);
        if !ok { return; }
        Emit([CopyRaxToRbx]);
        ok := LoadOperand(0, right);
      }
    }

    /** Code already emitted, then a store of its result. */
    method StoreAfter(t: nat, insns: seq<Insn>) returns (ok: bool)
      requires Valid()
      modifies this
      ensures Valid()
      ensures omitStore == old(omitStore)
      ensures ok == EmitStore(f, old(omitStore), t).Some?
      ensures ok ==>
        out == old(out) + insns + EmitStore(f, old(omitStore), t).value.insns &&
        raxTemp == EmitStore(f, old(omitStore), t).value.rax
    {
      Emit(insns);
      ok := StoreTemp(t);
    }

    method Binary(t: nat, op: BinOp, a: Operand, b: Operand) returns (ok: bool)
      requires Valid()
      modifies this
      ensures Valid()
      ensures Emitted(ok, EmitBin(f, old(raxTemp), old(omitStore), t, op, a, b))
    {
      hide EmitLoad, EmitPair, EmitStore, BinCode;
      var left, right := a, b;
      if op.Add? && left.Imm? && !right.Imm? { left, right := right, left; }
      if op.Add? && right.Imm? && FitsInt32(right.v) {
        ok := LoadOperand(0, left);
        if !ok { return; }
        raxTemp := None;
        ok := StoreAfter(t, [AddImmediate(right.v)]);
        Regroup(ok, old(out), EmitLoad(f, old(raxTemp), 0, left).value.insns, [AddImmediate(right.v)],
            EmitStore(f, old(omitStore), t));
        return;
      }
      var swapped := false;
      if Commutative(op) && right.Temp? && raxTemp == Some(right.t) {
        left, right := b, a;
        swapped := true;
      }
      ghost var order := PairOrder(raxTemp, op, a, b);
      assert order == (left, right, !swapped && !Turned(op, a, b));
      hide PairOrder;
      ok := LoadPair(left, right, !swapped && !Turned(op, a, b));
      if !ok { return; }
      ok := StoreAfter(t, BinCode(op));
      Regroup(ok, old(out), EmitPair(f, old(raxTemp), left, right, order.2).value.insns, BinCode(op),
          EmitStore(f, old(omitStore), t));
    }

    /** Push the arguments past the sixth, last first, then move the others into their
        registers; every push shifts the slots further from the stack pointer. */
    method Arguments(args: seq<Operand>) returns (ok: bool)
      requires Valid()
      modifies this
      ensures Valid()
      ensures Emitted(ok, EmitArguments(f, old(raxTemp), args))
    {
      hide EmitPushes, EmitMoves;
      ok := Pushes(args);
      if !ok { return; }
      ok := Moves(args);
    }

    method Pushes(args: seq<Operand>) returns (ok: bool)
      requires Valid()
      modifies this
      ensures Valid()
      ensures Emitted(ok, EmitPushes(f, old(raxTemp), args, |args|, 0))
    {
      var k, pushed := |args|, 0;
      ok := true;
      ghost var done: seq<Insn> := [];
      PrefixedNone(EmitPushes(f, raxTemp, args, |args|, 0));
      while k > 6
        invariant 0 <= k <= |args| && pushed == |args| - k && ok && Valid() && omitStore == old(omitStore) &&
            out == old(out) + done
        invariant EmitPushes(f, old(raxTemp), args, |args|, 0) ==
            Prefixed(done, EmitPushes(f, raxTemp, args, k, pushed))
      {
        ghost var load, rax := EmitLoad(f, raxTemp, 8 * pushed, args[k - 1]), raxTemp;
        ok := LoadOperand(8 * pushed, args[k - 1]);
        PushStep(f, rax, args, k, pushed, done);
        if !ok { return; }
        Emit([PushRax]);
        done := done + (load.value.insns + [PushRax]);
        k, pushed := k - 1, pushed + 1;
      }
    }

    method Moves(args: seq<Operand>) returns (ok: bool)
      requires Valid()
      modifies this
      ensures Valid()
      ensures Emitted(ok, EmitMoves(f, old(raxTemp), args, 0))
    {
      var k := 0;
      ok := true;
      ghost var done: seq<Insn> := [];
      PrefixedNone(EmitMoves(f, raxTemp, args, 0));
      while k < |args| && k < 6
        invariant 0 <= k <= |args| && ok && Valid() && omitStore == old(omitStore) && out == old(out) + done
        invariant EmitMoves(f, old(raxTemp), args, 0) == Prefixed(done, EmitMoves(f, raxTemp, args, k))
      {
        ghost var load, rax := EmitLoad(f, raxTemp, StackBytes(|args|), args[k]), raxTemp;
        ok := LoadOperand(StackBytes(|args|), args[k]);
        MoveStep(f, rax, args, k, done);
        if !ok { return; }
        Emit([MoveToArg(k)]);
        done := done + (load.value.insns + [MoveToArg(k)]);
        k := k + 1;
      }
    }

    method Result(res: Option<nat>, insns: seq<Insn>) returns (ok: bool)
      requires Valid()
      modifies this
      ensures Valid()
      ensures omitStore == old(omitStore) && ok == EmitResult(f, old(omitStore), res).Some?
      ensures ok ==>
        out == old(out) + insns + EmitResult(f, old(omitStore), res).value.insns &&
        raxTemp == EmitResult(f, old(omitStore), res).value.rax
    {
      raxTemp := None;
      Emit(insns);
      ok := true;
      if res.Some? { ok := StoreTemp(res.value); } else { assert out == out + []; }
    }

    /** A load of an operand, instructions on it, and a store of the result. */
    method Through(t: nat, a: Operand, insns: seq<Insn>) returns (ok: bool)
      requires Valid()
      modifies this
      ensures Valid()
      ensures Emitted(ok, AndStore(EmitLoad(f, old(raxTemp), 0, a), insns, EmitStore(f, old(omitStore), t)))
    {
      hide EmitLoad, EmitStore;
      ok := LoadOperand(0, a);
      if !ok { return; }
      ok := StoreAfter(t, insns);
      Regroup(ok, old(out), EmitLoad(f, old(raxTemp), 0, a).value.insns, insns, EmitStore(f, old(omitStore), t));
    }

    /** Instructions that leave a value in rax, and a store of it. */
    method Direct(t: nat, insns: seq<Insn>) returns (ok: bool)
      requires Valid()
      modifies this
      ensures Valid()
      ensures Emitted(ok, AndStore(Some(Code([], None)), insns, EmitStore(f, old(omitStore), t)))
    {
      hide EmitStore;
      ok := StoreAfter(t, insns);
      assert [] + insns == insns;
      Regroup(ok, old(out), [], insns, EmitStore(f, old(omitStore), t));
      assert out + [] == out;
    }

    /** An instruction without nested lists. */
    method Flat(i: Instr) returns (ok: bool)
      requires Valid() && !i.Cond?
      modifies this
      ensures Valid() && Emitted(ok, EmitInstr(f, old(raxTemp), old(omitStore), i))
    {
      hide EmitLoad, EmitStore, EmitPair, EmitBin, EmitArguments, ExtCode, LoadCode, Cleanup, EmitResult,
          EmitAddressOf, EmitThenLoad, EmitArm;
      ok := true;
      match i
      case Param(t, index) =>
        var insn := if index < 6 then MoveFromArg(index) else LoadRsp(locs.nextSlot * 8 + 8 + (index - 6) * 8);
        assert insn == EmitParam(f, index);
        ok := Direct(t, [insn]);
      case Alloca(_, _) => assert out + [] == out;
      case Const(t, v) => ok := Direct(t, EmitImmediate(v).insns);
      case Copy(t, a) => ok := Through(t, a, []);
      case AddrOf(t, src) =>
        ok := AddressOf(src);
        if !ok { return; }
        ok := StoreAfter(t, []);
        Regroup(ok, old(out), EmitAddressOf(f, src).value.insns, [], EmitStore(f, old(omitStore), t));
      case Load(t, width, signed, a) => ok := Through(t, a, LoadCode(width, signed));
      case Store(width, a, b) =>
        ok := LoadPair(a, b, false);
        if !ok { return; }
        Emit([StoreMem(width)]);
      case Ext(t, signed, size, a) => ok := Through(t, a, ExtCode(signed, size));
      case Bin(t, op, a, b) => ok := Binary(t, op, a, b);
      case Call(res, name, args) => ok := DirectCall(res, name, args);
      case CallIndirect(res, callee, args) => ok := IndirectCall(res, callee, args);
    }

    method DirectCall(res: Option<nat>, name: string, args: seq<Operand>) returns (ok: bool)
      requires Valid()
      modifies this
      ensures Valid() && Emitted(ok, EmitInstr(f, old(raxTemp), old(omitStore), Instr.Call(res, name, args)))
    {
      hide EmitArguments, Cleanup, EmitResult;
      ok := Arguments(args);
      if !ok { return; }
      ok := Result(res, [CallFunction(name, |args|)] + Cleanup(|args|));
      Regroup(ok, old(out), EmitArguments(f, old(raxTemp), args).value.insns,
          [CallFunction(name, |args|)] + Cleanup(|args|), EmitResult(f, old(omitStore), res));
      assert EmitArguments(f, old(raxTemp), args).value.insns + ([CallFunction(name, |args|)] + Cleanup(|args|)) ==
        EmitArguments(f, old(raxTemp), args).value.insns + [CallFunction(name, |args|)] + Cleanup(|args|);
    }

    method IndirectCall(res: Option<nat>, callee: Operand, args: seq<Operand>) returns (ok: bool)
      requires Valid()
      modifies this
      ensures Valid() && Emitted(ok, EmitInstr(f, old(raxTemp), old(omitStore), CallIndirect(res, callee, args)))
    {
      hide EmitArguments, Cleanup, EmitResult, EmitLoad;
      ghost var p := EmitArguments(f, raxTemp, args);
      ok := Arguments(args);
      if !ok { return; }
      ghost var l := EmitLoad(f, raxTemp, StackBytes(|args|), callee);
      ok := LoadOperand(StackBytes(|args|), callee);
      if !ok { return; }
      var call := [CallRax(|args|)] + Cleanup(|args|);
      ok := Result(res, call);
      assert old(out) + p.value.insns + l.value.insns == old(out) + (p.value.insns + l.value.insns);
      Regroup(ok, old(out), p.value.insns + l.value.insns, call, EmitResult(f, old(omitStore), res));
      assert p.value.insns + l.value.insns + call ==
          p.value.insns + l.value.insns + [CallRax(|args|)] + Cleanup(|args|);
    }

    method Instruction(i: Instr) returns (ok: bool)
      requires Valid() && (i.Cond? ==> omitStore == None)
      modifies this
      ensures Valid() && Emitted(ok, EmitInstr(f, old(raxTemp), old(omitStore), i))
      decreases i, 0
    {
      if !i.Cond? {
        ok := Flat(i);
        return;
      }
      hide EmitThenLoad, EmitArm;
      ghost var c, y, n := EmitThenLoad(f, i.ci, raxTemp, i.co), EmitArm(f, i.ti, i.to, i.t),
          EmitArm(f, i.fi, i.fo, i.t);
      ok := ThenLoad(i.ci, i.co);
      if !ok { return; }
      Emit([Test, JumpCompare(Eq, ElseLabel(i.t))]);
      raxTemp := None;
      ok := Arm(i.ti, i.to, i.t);
      if !ok { return; }
      Emit([JumpTo(DoneLabel(i.t)), Mark(ElseLabel(i.t))]);
      raxTemp := None;
      ok := Arm(i.fi, i.fo, i.t);
      if !ok { return; }
      Emit([Mark(DoneLabel(i.t))]);
      raxTemp := None;
      CondGrouped(old(out), i.t, c.value.insns, y.value.insns, n.value.insns);
    }

    method ThenLoad(list: seq<Instr>, a: Operand) returns (ok: bool)
      requires Valid() && omitStore == None
      modifies this
      ensures Valid() && Emitted(ok, EmitThenLoad(f, list, old(raxTemp), a))
      decreases list, |list| + 1
    {
      hide EmitFrom, EmitLoad;
      ok := Instructions(list, OperandTemp(a));
      if !ok { return; }
      ok := LoadOperand(0, a);
    }

    method Arm(list: seq<Instr>, a: Operand, t: nat) returns (ok: bool)
      requires Valid() && omitStore == None && raxTemp == None
      modifies this
      ensures Valid() && Emitted(ok, EmitArm(f, list, a, t))
      decreases list, |list| + 2
    {
      hide EmitThenLoad, EmitStore;
      ok := ThenLoad(list, a);
      if !ok { return; }
      ok := StoreTemp(t);
    }

    /** A list of instructions; before each, decide whether its store is left out. */
    method Instructions(list: seq<Instr>, final: Option<nat>) returns (ok: bool)
      requires Valid() && omitStore == None
      modifies this
      ensures Valid() && Emitted(ok, EmitFrom(f, list, 0, old(raxTemp), final))
      decreases list, |list|
    {
      hide EmitInstr;
      var k := 0;
      ok := true;
      ghost var done: seq<Insn> := [];
      PrefixedNone(EmitFrom(f, list, 0, raxTemp, final));
      while k < |list|
        invariant 0 <= k <= |list| && ok && Valid() && omitStore == None && out == old(out) + done
        invariant EmitFrom(f, list, 0, old(raxTemp), final) == Prefixed(done, EmitFrom(f, list, k, raxTemp, final))
      {
        ghost var rax, omit := raxTemp, Elides(f, list, k, final);
        ghost var code := EmitInstr(f, rax, omit, list[k]);
        InstrStep(f, rax, list, k, final, done);
        ok := ChooseOmission(list, k, final);
        if !ok {
          omitStore := None;
          return;
        }
        CondKeepsStore(f, list, k, final);
        ok := Instruction(list[k]);
        omitStore := None;
        if !ok { return; }
        done := done + code.value.insns;
        k := k + 1;
      }
    }

    /** Set the store to leave out for instruction k. */
    method ChooseOmission(list: seq<Instr>, k: nat, final: Option<nat>) returns (ok: bool)
      requires Valid() && omitStore == None && k < |list|
      modifies this`omitStore
      ensures Valid() && (ok ==> omitStore == Elides(f, list, k, final))
      ensures !ok ==> EmitInstr(f, raxTemp, Elides(f, list, k, final), list[k]).None?
    {
      ok := true;
      var def := DefTemp(list[k]);
      if def.Some? && k + 1 < |list| {
        ok := locs.Lookup(def.value);
        if !ok {
          DefMissing(f, raxTemp, Elides(f, list, k, final), list[k]);
          return;
        }
        if locs.items[def.value].uses == 1 && Consumes(list[k + 1], def.value) { omitStore := def; }
      } else if def.Some? && k + 1 == |list| && def == final {
        ok := locs.Lookup(def.value);
        if !ok {
          DefMissing(f, raxTemp, Elides(f, list, k, final), list[k]);
          return;
        }
        if locs.items[def.value].uses == 1 { omitStore := def; }
      }
    }

    /** The method has appended the instructions, or failed where there are none. */
    twostate predicate Appended(ok: bool, insns: Option<seq<Insn>>)
      reads this
    {
      && ok == insns.Some?
      && omitStore == old(omitStore)
      && (ok ==> out == old(out) + insns.value)
    }

    /** A block's end: fall through where the next block is the target. */
    method Terminator(term: Term, next: Option<nat>) returns (ok: bool)
      requires Valid()
      modifies this
      ensures Valid() && Appended(ok, EmitTerm(f, old(raxTemp), term, next)) && (ok ==> raxTemp == None)
    {
      hide EmitLoad, EmitPair, BranchCode;
      ok := true;
      match term
      case Ret(value) =>
        ghost var l := if value.Some? then EmitLoad(f, raxTemp, 0, value.value) else Some(EmitImmediate(0));
        if value.Some? {
          ok := LoadOperand(0, value.value);
          if !ok { return; }
        } else {
          Emit(EmitImmediate(0).insns);
        }
        var pop := if locs.nextSlot > 0 then [AddRsp(locs.nextSlot * 8)] else [];
        Emit(pop + [Leave]);
        raxTemp := None;
        assert l.value.insns + (pop + [Leave]) == l.value.insns + pop + [Leave];
      case Jump(target) =>
        Emit(if next == Some(target) then [] else [JumpTo(BlockLabel(target))]);
        raxTemp := None;
      case Branch(a, yes, no) =>
        ghost var l := EmitLoad(f, raxTemp, 0, a);
        ok := LoadOperand(0, a);
        if !ok { return; }
        Emit([Test]);
        CompareBranch(Ne, yes, no, next);
        assert old(out) + l.value.insns + [Test] + BranchCode(Ne, yes, no, next) ==
            old(out) + (l.value.insns + [Test] + BranchCode(Ne, yes, no, next));
      case BranchCmp(op, a, b, yes, no) =>
        if !IsComparison(op) { return false; }
        ghost var p := EmitPair(f, raxTemp, a, b, true);
        ok := LoadPair(a, b, true);
        if !ok { return; }
        Emit([Cmp]);
        CompareBranch(op, yes, no, next);
        assert old(out) + p.value.insns + [Cmp] + BranchCode(op, yes, no, next) ==
            old(out) + (p.value.insns + [Cmp] + BranchCode(op, yes, no, next));
    }

    method CompareBranch(op: BinOp, yes: nat, no: nat, next: Option<nat>)
      modifies this`out, this`raxTemp
      ensures out == old(out) + BranchCode(op, yes, no, next) && raxTemp == None
    {
      if next == Some(yes) {
        Emit([JumpCompare(Invert(op), BlockLabel(no))]);
      } else if next == Some(no) {
        Emit([JumpCompare(op, BlockLabel(yes))]);
      } else {
        Emit([JumpCompare(op, BlockLabel(yes))]);
        Emit([JumpTo(BlockLabel(no))]);
      }
      raxTemp := None;
    }

    /** All blocks, in order. */
    method Blocks(blocks: seq<Block>) returns (ok: bool)
      requires Valid() && omitStore == None && raxTemp == None
      modifies this
      ensures Valid() && Appended(ok, EmitBlocks(f, blocks, 0))
    {
      hide EmitFrom, EmitTerm;
      var k := 0;
      ok := true;
      ghost var done: seq<Insn> := [];
      assert EmitBlocks(f, blocks, 0).Some? ==> [] + EmitBlocks(f, blocks, 0).value == EmitBlocks(f, blocks, 0).value;
      while k < |blocks|
        invariant 0 <= k <= |blocks| && ok && Valid() && omitStore == None && raxTemp == None && out == old(out) + done
        invariant var rest := EmitBlocks(f, blocks, k);
          EmitBlocks(f, blocks, 0) == if rest.None? then None else Some(done + rest.value)
      {
        var block := blocks[k];
        ghost var code := EmitBlock(f, block, NextId(blocks, k));
        if block.id != 0 {
          raxTemp := None;
          Emit([Mark(BlockLabel(block.id))]);
        }
        ghost var body := EmitFrom(f, block.instrs, 0, None, TermTemp(block));
        ok := Instructions(block.instrs, TermTemp(block));
        if !ok { return; }
        ok := Terminator(block.term, NextId(blocks, k));
        if !ok { return; }
        ghost var term := EmitTerm(f, body.value.rax, block.term, NextId(blocks, k));
        BlockGrouped(old(out), done, BlockMark(block.id), body.value.insns, term.value, EmitBlocks(f, blocks, k + 1));
        done := done + code.value;
        k := k + 1;
      }
    }
  }

  lemma BlockGrouped(out: seq<Insn>, done: seq<Insn>, mark: seq<Insn>, body: seq<Insn>, term: seq<Insn>,
      rest: Option<seq<Insn>>)
    ensures out + done + mark + body + term == out + (done + (mark + body + term))
    ensures rest.Some? ==> done + ((mark + body + term) + rest.value) == done + (mark + body + term) + rest.value
  {
  }

  /** The back end, run on a function: it succeeds exactly when the specification has code
      for the function, and emits that code. */
  method EmitCode(blocks: seq<Block>) returns (ok: bool, code: seq<Insn>)
    ensures ok <==> EmitFunction(blocks).Some?
    ensures ok ==> code == EmitFunction(blocks).value
  {
    code := [];
    var locs := new LocArray(8);
    ok := locs.AllocateFunction(blocks);
    if !ok { return; }
    var state := new EmitState(locs);
    if locs.nextSlot > 0 { state.Emit([SubRsp(locs.nextSlot * 8)]); }
    assert state.out == Prologue(LayoutOf(blocks));
    ok := state.Blocks(blocks);
    code := state.out;
  }
}
