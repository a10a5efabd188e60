/** How the machine's storage represents the state of the intermediate code. */
module Relation {
  import opened Options
  import opened Words
  import opened Ir
  import opened Machine
  import opened Emission

  /** A callee depends on and changes visible storage only. */
  ghost predicate Respects(w: World, f: Frame)
  {
    forall trace: seq<Event>, m1: Mem, m2: Mem ::
      Agree(f, m1, m2) ==>
        && w.call(trace, m1).result == w.call(trace, m2).result
        && Agree(f, w.call(trace, m1).mem, w.call(trace, m2).mem)
        && KeepsHidden(f, m2, w.call(trace, m2).mem)
  }

  ghost predicate Agree(f: Frame, m1: Mem, m2: Mem)
  {
    forall x :: !f.Hidden(x) ==> At(m1, x) == At(m2, x)
  }

  ghost predicate KeepsHidden(f: Frame, m: Mem, m': Mem)
  {
    forall x :: f.Hidden(x) && x >= f.base ==> At(m, x) == At(m', x)
  }

  /** Memories agree on visible storage; the slot of every private temporary holds its
      value, except for those in dropped; the return address is intact. */
  ghost predicate MemRel(f: Frame, dropped: set<nat>, s: State, m: Mem, link: Word)
  {
    && Agree(f, s.mem, m)
    && (forall t :: t in s.env ==> f.Private(t))
    && (forall t :: t in s.env && t !in dropped ==> ReadWord(m, f.SlotAddress(f.locs[t].slot)) == s.env[t])
    && ReadWord(m, f.ReturnAddress()) == link
  }

  /** rax holds the temporary the emitter believes it holds. */
  ghost predicate CacheOk(f: Frame, s: State, rax: Option<nat>, w: Word)
  {
    rax.Some? ==> rax.value in f.locs && f.locs[rax.value].Stack? && TempValue(f, s, rax.value) == Some(w)
  }

  /** bias bytes have been pushed since the prologue. */
  ghost predicate CpuRel(f: Frame, dropped: set<nat>, s: State, rax: Option<nat>, cpu: Cpu, link: Word, bias: nat)
  {
    && MemRel(f, dropped, s, cpu.mem, link)
    && cpu.trace == s.trace
    && cpu.rsp == f.base - bias
    && CacheOk(f, s, rax, cpu.rax)
  }

  lemma Forget(f: Frame, dropped: set<nat>, s: State, rax: Option<nat>, cpu: Cpu, cpu': Cpu, link: Word, bias: nat)
    requires CpuRel(f, dropped, s, rax, cpu, link, bias)
    requires cpu'.mem == cpu.mem && cpu'.rsp == cpu.rsp && cpu'.trace == cpu.trace
    ensures CpuRel(f, dropped, s, None, cpu', link, bias)
  {
  }

  ghost predicate Fits(c: Context, f: Layout, dropped: set<nat>)
  {
    && c.frame.locs == f.locs
    && c.frame.total == f.total
    && c.frame.Laid()
    && dropped !! c.frame.exposed
    && Respects(c.world, c.frame)
  }

  // ---- Frames -----------------------------------------------------------------

  lemma SlotByte(f: Frame, slot: nat, x: int)
    requires f.SlotAddress(slot) <= x < f.SlotAddress(slot) + 8
    ensures (x - f.base) / 8 == slot
  {
  }

  /** The slot of an exposed temporary is visible, that of a private one is hidden. */
  lemma SlotVisibility(f: Frame, t: nat, x: int)
    requires f.Laid() && t in f.locs && f.locs[t].Stack?
    requires f.SlotAddress(f.locs[t].slot) <= x < f.SlotAddress(f.locs[t].slot) + 8
    ensures f.base <= x < f.ReturnAddress()
    ensures f.Hidden(x) <==> t !in f.exposed
  {
    SlotByte(f, f.locs[t].slot, x);
    if t !in f.exposed { assert f.Private(t); }
  }

  lemma SlotsApart(f: Frame, t: nat, u: nat)
    requires f.Laid() && t in f.locs && u in f.locs && t != u && f.locs[t].Stack? && f.locs[u].Stack?
    ensures f.locs[t].slot != f.locs[u].slot
  {
  }

  // ---- Writes preserve the relation ---------------------------------------------

  /** A change confined to storage below the frame is not seen. */
  /** Objects and temporaries whose address is taken are the program's to use, and so is
      everything past the return address. */
  lemma StorageVisible(f: Frame, t: nat)
    requires f.Laid() && t in f.locs && !f.Private(t)
    ensures f.Visible(f.SlotAddress(f.locs[t].slot), 8 * SlotCount(f.locs[t]))
  {
    var slot, count := f.locs[t].slot, SlotCount(f.locs[t]);
    forall x | f.SlotAddress(slot) <= x < f.SlotAddress(slot) + 8 * count ensures !f.Hidden(x) {
      var k := (x - f.base) / 8;
      assert slot <= k < slot + count;
      assert !f.PrivateSlot(k);
    }
  }

  lemma CallerVisible(f: Frame, a: int, n: nat)
    requires f.Laid() && a >= f.ReturnAddress() + 8
    ensures f.Visible(a, n)
  {
    forall x | a <= x < a + n ensures !f.Hidden(x) {
      assert (x - f.base) / 8 > f.total;
    }
  }

  lemma BelowFrame(f: Frame, dropped: set<nat>, s: State, m: Mem, m': Mem, link: Word)
    requires f.Laid() && MemRel(f, dropped, s, m, link)
    requires forall x :: x >= f.base ==> At(m', x) == At(m, x)
    ensures MemRel(f, dropped, s, m', link)
  {
    forall t | t in s.env && t !in dropped
      ensures ReadWord(m', f.SlotAddress(f.locs[t].slot)) == s.env[t]
    {
      ReadSame(m, m', f.SlotAddress(f.locs[t].slot), 8);
    }
    ReadSame(m, m', f.ReturnAddress(), 8);
  }

  lemma AgreeDespiteSlot(f: Frame, m: Mem, m': Mem, t: nat, w: Word)
    requires f.Laid() && f.Private(t) && Agree(f, m, m')
    ensures Agree(f, m, Write(m', f.SlotAddress(f.locs[t].slot), w))
  {
    var a := f.SlotAddress(f.locs[t].slot);
    forall x | !f.Hidden(x) ensures At(m, x) == At(Write(m', a, w), x) {
      if a <= x < a + 8 { SlotVisibility(f, t, x); }
    }
  }

  lemma SlotKept(f: Frame, m: Mem, t: nat, u: nat, w: Word)
    requires f.Laid() && f.Private(t) && f.Private(u) && t != u
    ensures var b := f.SlotAddress(f.locs[u].slot);
      ReadWord(Write(m, f.SlotAddress(f.locs[t].slot), w), b) == ReadWord(m, b)
  {
    SlotsApart(f, t, u);
    ReadAside(m, f.SlotAddress(f.locs[t].slot), w, f.SlotAddress(f.locs[u].slot), 8);
  }

  lemma WritePrivate(f: Frame, dropped: set<nat>, s: State, m: Mem, link: Word, t: nat, w: Word)
    requires f.Laid() && MemRel(f, dropped, s, m, link) && f.Private(t)
    ensures MemRel(f, dropped, s.(env := s.env[t := w]), Write(m, f.SlotAddress(f.locs[t].slot), w), link)
  {
    var a := f.SlotAddress(f.locs[t].slot);
    var m' := Write(m, a, w);
    AgreeDespiteSlot(f, s.mem, m, t, w);
    forall u | u in s.env && u != t && u !in dropped
      ensures ReadWord(m', f.SlotAddress(f.locs[u].slot)) == s.env[u]
    {
      SlotKept(f, m, t, u, w);
    }
    ReadBack(m, a, w);
    InFrame(f, t);
    ReadAside(m, a, w, f.ReturnAddress(), 8);
  }

  lemma InFrame(f: Frame, t: nat)
    requires f.Laid() && t in f.locs && f.locs[t].Stack?
    ensures f.base <= f.SlotAddress(f.locs[t].slot) <= f.ReturnAddress() - 8
  {
  }

  lemma WriteVisible(f: Frame, dropped: set<nat>, s: State, m: Mem, link: Word, a: int, bytes: seq<Byte>)
    requires f.Laid() && MemRel(f, dropped, s, m, link) && f.Visible(a, |bytes|)
    ensures MemRel(f, dropped, s.(mem := Write(s.mem, a, bytes)), Write(m, a, bytes), link)
  {
    var m' := Write(m, a, bytes);
    forall t | t in s.env && t !in dropped
      ensures ReadWord(m', f.SlotAddress(f.locs[t].slot)) == s.env[t]
    {
      var b := f.SlotAddress(f.locs[t].slot);
      forall x | b <= x < b + 8 ensures At(m, x) == At(m', x) { SlotVisibility(f, t, x); }
      ReadSame(m, m', b, 8);
    }
    forall x | f.ReturnAddress() <= x < f.ReturnAddress() + 8 ensures At(m, x) == At(m', x) {
      assert f.Hidden(x);
    }
    ReadSame(m, m', f.ReturnAddress(), 8);
  }

  /** A call leaves the two memories related. */
  lemma CallMemory(w: World, f: Frame, dropped: set<nat>, s: State, m: Mem, link: Word, trace: seq<Event>)
    requires f.Laid() && MemRel(f, dropped, s, m, link) && Respects(w, f)
    ensures w.call(trace, s.mem).result == w.call(trace, m).result
    ensures MemRel(f, dropped, State(s.env, w.call(trace, s.mem).mem, trace), w.call(trace, m).mem, link)
  {
    assert Agree(f, s.mem, m);
    var m' := w.call(trace, m).mem;
    assert KeepsHidden(f, m, m');
    forall t | t in s.env && t !in dropped
      ensures ReadWord(m', f.SlotAddress(f.locs[t].slot)) == s.env[t]
    {
      var b := f.SlotAddress(f.locs[t].slot);
      forall x | b <= x < b + 8 ensures At(m, x) == At(m', x) { SlotVisibility(f, t, x); }
      ReadSame(m, m', b, 8);
    }
    forall x | f.ReturnAddress() <= x < f.ReturnAddress() + 8 ensures At(m, x) == At(m', x) {
      assert f.Hidden(x);
    }
    ReadSame(m, m', f.ReturnAddress(), 8);
  }

  // ---- Loading and storing temporaries --------------------------------------------

  lemma TempInSlot(f: Frame, dropped: set<nat>, s: State, m: Mem, link: Word, t: nat, w: Word)
    requires f.Laid() && MemRel(f, dropped, s, m, link)
    requires t in f.locs && f.locs[t].Stack? && t !in dropped && TempValue(f, s, t) == Some(w)
    ensures ReadWord(m, f.SlotAddress(f.locs[t].slot)) == w
  {
    var b := f.SlotAddress(f.locs[t].slot);
    if t in f.exposed {
      forall x | b <= x < b + 8 ensures At(s.mem, x) == At(m, x) { SlotVisibility(f, t, x); }
      ReadSame(s.mem, m, b, 8);
    }
  }

  /** The instruction that loads a temporary's location loads its value. */
  lemma LocationValue(world: World, f: Frame, dropped: set<nat>, s: State, cpu: Cpu, link: Word, bias: nat, t: nat,
      w: Word)
    requires f.Laid() && MemRel(f, dropped, s, cpu.mem, link) && cpu.rsp == f.base - bias
    requires TempValue(f, s, t) == Some(w) && t !in dropped
    ensures Exec(world, [EmitLocation(f.locs[t], bias)], cpu) == Some(cpu.(rax := w))
  {
    if f.locs[t].Stack? {
      TempInSlot(f, dropped, s, cpu.mem, link, t, w);
      ExecOne(world, LoadRsp(8 * f.locs[t].slot + bias), cpu);
    } else {
      ExecOne(world, LeaRsp(8 * f.locs[t].slot + bias), cpu);
    }
  }

  lemma ExecNone(w: World, cpu: Cpu)
    ensures Exec(w, [], cpu) == Some(cpu)
  {
  }

  lemma ExecOne(w: World, i: Insn, cpu: Cpu)
    ensures Exec(w, [i], cpu) == Exec1(w, i, cpu)
  {
    hide Exec1;
  }

  /** The emitted load brings the operand's value into rax and changes nothing else. */
  lemma LoadCorrect(c: Context, f: Layout, dropped: set<nat>, s: State, rax: Option<nat>, cpu: Cpu, link: Word,
      bias: nat, a: Operand, w: Word)
    requires Fits(c, f, dropped) && CpuRel(c.frame, dropped, s, rax, cpu, link, bias)
    requires Value(c, s, a) == Some(w) && EmitLoad(f, rax, bias, a).Some?
    requires a.Temp? && a.t in dropped ==> bias == 0 && rax == Some(a.t)
    ensures Exec(c.world, EmitLoad(f, rax, bias, a).value.insns, cpu) == Some(cpu.(rax := w))
    ensures CpuRel(c.frame, dropped, s, EmitLoad(f, rax, bias, a).value.rax, cpu.(rax := w), link, bias)
  {
    if a.Temp? {
      if !(bias == 0 && c.frame.locs[a.t].Stack? && rax == Some(a.t)) {
        LocationValue(c.world, c.frame, dropped, s, cpu, link, bias, a.t, w);
      }
    } else {
      ExecOne(c.world, EmitLoad(f, rax, bias, a).value.insns[0], cpu);
    }
  }

  /** The emitted store assigns rax to the temporary, in its slot or by keeping it in rax. */
  lemma StoreCorrect(c: Context, f: Layout, dropped: set<nat>, s: State, cpu: Cpu, link: Word, omit: Option<nat>,
      t: nat) returns (s': State, cpu': Cpu)
    requires Fits(c, f, dropped) && CpuRel(c.frame, dropped, s, None, cpu, link, 0)
    requires EmitStore(f, omit, t).Some? && (omit == Some(t) ==> t in dropped)
    ensures Assign(c.frame, s, t, cpu.rax) == Some(s')
    ensures Exec(c.world, EmitStore(f, omit, t).value.insns, cpu) == Some(cpu')
    ensures CpuRel(c.frame, dropped, s', Some(t), cpu', link, 0)
  {
    var a := c.frame.SlotAddress(c.frame.locs[t].slot);
    s' := Assign(c.frame, s, t, cpu.rax).value;
    if omit == Some(t) {
      cpu' := cpu;
    } else {
      cpu' := cpu.(mem := Write(cpu.mem, a, cpu.rax));
      ExecOne(c.world, StoreRsp(8 * f.locs[t].slot), cpu);
      if t in c.frame.exposed {
        StoreExposed(c.frame, dropped, s, cpu.mem, link, t, cpu.rax);
      } else {
        WritePrivate(c.frame, dropped, s, cpu.mem, link, t, cpu.rax);
      }
    }
  }

  lemma StoreExposed(f: Frame, dropped: set<nat>, s: State, m: Mem, link: Word, t: nat, w: Word)
    requires f.Laid() && MemRel(f, dropped, s, m, link) && t in f.locs && f.locs[t].Stack? && t in f.exposed
    ensures var a := f.SlotAddress(f.locs[t].slot); var s' := s.(mem := Write(s.mem, a, w));
      MemRel(f, dropped, s', Write(m, a, w), link) && TempValue(f, s', t) == Some(w)
  {
    var a := f.SlotAddress(f.locs[t].slot);
    forall x | a <= x < a + 8 ensures !f.Hidden(x) { SlotVisibility(f, t, x); }
    WriteVisible(f, dropped, s, m, link, a, w);
    ReadBack(s.mem, a, w);
  }
}
