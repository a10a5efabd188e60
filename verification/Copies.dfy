/** Copying and clearing objects with word-sized accesses. */
module Copies {
  import opened Options
  import opened Words
  import opened Ir
  import opened Integers
  import opened Lowering
  import opened Represent

  // ---- The lowering -----------------------------------------------------------------------

  function ChunkWidth(remaining: int): Width { if remaining >= 8 then W8 else if remaining >= 4 then W4 else W1 }

  function OffsetAddress(start: Operand, offset: int, next: nat): (code: Code)
    ensures next <= code.next
  {
    if offset == 0 then Code([], start, next) else Code([Bin(next, Add, start, Imm(offset))], Temp(next), next + 1)
  }

  function ZeroBytes(dst: Operand, offset: int, remaining: int, next: nat): (code: Effects)
    ensures next <= code.next
    decreases remaining
  {
    if remaining <= 0 then Effects([], next) else
    var width := ChunkWidth(remaining);
    var d := OffsetAddress(dst, offset, next);
    var rest := ZeroBytes(dst, offset + width.Size(), remaining - width.Size(), d.next);
    Effects(d.instrs + [Store(width, d.op, Imm(0))] + rest.instrs, rest.next)
  }

  /** The code of one chunk. */
  function ChunkCode(dst: Operand, src: Operand, offset: int, remaining: int, next: nat): (code: Effects)
    ensures next < code.next
  {
    var width := ChunkWidth(remaining);
    var d := OffsetAddress(dst, offset, next);
    var s := OffsetAddress(src, offset, d.next);
    Effects(d.instrs + s.instrs + [Load(s.next, width, false, s.op), Store(width, d.op, Temp(s.next))], s.next + 1)
  }

  function CopyBytes(dst: Operand, src: Operand, offset: int, remaining: int, next: nat): (code: Effects)
    ensures next <= code.next
    decreases remaining
  {
    if remaining <= 0 then Effects([], next) else
    var width := ChunkWidth(remaining);
    var chunk := ChunkCode(dst, src, offset, remaining, next);
    var rest := CopyBytes(dst, src, offset + width.Size(), remaining - width.Size(), chunk.next);
    Effects(chunk.instrs + rest.instrs, rest.next)
  }

  // ---- Running them ---------------------------------------------------------------------------

  /** An operand whose value only a new assignment of its own temporary changes. */
  ghost predicate Fixed(f: Frame, op: Operand, next: nat)
  {
    op.Temp? ==> op.t < next && op.t in f.locs && op.t !in f.exposed
  }

  /** Memory as it was, but for the bytes given at a. */
  ghost predicate Filled(mem: Mem, mem': Mem, a: int, bytes: seq<Byte>)
  {
    forall x {:trigger At(mem', x)} :: At(mem', x) == if a <= x < a + |bytes| then bytes[x - a] else At(mem, x)
  }

  /** What the lowered code may change besides memory: fresh temporaries. */
  ghost predicate Aside(next: nat, m: State, m': State)
  {
    m'.trace == m.trace && forall t :: t in m.env && t < next ==> t in m'.env && m'.env[t] == m.env[t]
  }

  lemma FixedValue(c: Context, op: Operand, next: nat, m: State, m': State)
    requires Fixed(c.frame, op, next) && Aside(next, m, m') && Value(c, m, op).Some?
    ensures Value(c, m', op) == Value(c, m, op)
  {
  }

  lemma AddressRuns(c: Context, start: Operand, offset: nat, next: nat, m: State, a: nat) returns (m': State)
    requires Value(c, m, start) == Some(WordOf(a)) && a + offset < M64
    requires Fixed(c.frame, start, next) && Owned(c.frame, next, OffsetAddress(start, offset, next).next)
    ensures var code := OffsetAddress(start, offset, next);
      && Runs(c, code.instrs, m, m') && Adds(next, m, m') && Value(c, m', code.op) == Some(WordOf(a + offset))
      && Fixed(c.frame, code.op, code.next)
  {
    hide WordOf;
    m' := m;
    RunsNone(c, m);
    if offset != 0 {
      UnsignedWord(a);
      UnsignedWord(offset);
      BinRuns(c, next, Add, start, Imm(offset), m, WordOf(a), WordOf(offset), WordOf(a + offset));
      m' := Set(m, next, WordOf(a + offset));
    }
  }

  lemma SmallWord(a: nat)
    requires a < M64
    ensures Unsigned(WordOf(a)) == a
  {
    UnsignedWord(a);
  }

  lemma StoreRuns(c: Context, width: Width, a: Operand, b: Operand, m: State, address: nat, w: Word) returns (m': State)
    requires Value(c, m, a) == Some(WordOf(address)) && Value(c, m, b) == Some(w) && address < M64
    requires c.frame.Visible(address, width.Size()) && (b.Temp? ==> b.t in c.frame.locs && b.t !in c.frame.exposed)
    ensures Runs(c, [Store(width, a, b)], m, m') && m' == m.(mem := Write(m.mem, address, w[..width.Size()]))
  {
    hide Write, Read, WordOf, Unsigned, Frame.Visible;
    SmallWord(address);
    m' := m.(mem := Write(m.mem, address, w[..width.Size()]));
    RunsOne(c, Store(width, a, b), m, m');
  }

  lemma LoadRuns(c: Context, width: Width, out: nat, a: Operand, m: State, address: nat)
    requires Value(c, m, a) == Some(WordOf(address)) && address < M64
    requires c.frame.Visible(address, width.Size()) && c.frame.Private(out)
    ensures var w := Extend(Read(m.mem, address, width.Size()), false);
      Runs(c, [Load(out, width, false, a)], m, Set(m, out, w)) &&
          w[..width.Size()] == Read(m.mem, address, width.Size())
  {
    hide Write, Read, WordOf, Unsigned, Frame.Visible;
    SmallWord(address);
    RunsOne(c, Load(out, width, false, a), m, Set(m, out, Extend(Read(m.mem, address, width.Size()), false)));
  }

  lemma VisibleWithin(f: Frame, a: int, n: nat, b: int, k: nat)
    requires f.Visible(a, n) && a <= b && b + k <= a + n
    ensures f.Visible(b, k)
  {
    hide Frame.Hidden;
  }

  lemma FillTwice(mem: Mem, mem1: Mem, mem2: Mem, a: int, low: seq<Byte>, high: seq<Byte>)
    requires Filled(mem, mem1, a, low) && Filled(mem1, mem2, a + |low|, high)
    ensures Filled(mem, mem2, a, low + high)
  {
    hide At;
    var bytes := low + high;
    forall x ensures At(mem2, x) == if a <= x < a + |bytes| then bytes[x - a] else At(mem, x) {
      assert At(mem2, x) == if a + |low| <= x < a + |low| + |high| then high[x - (a + |low|)] else At(mem1, x);
      assert At(mem1, x) == if a <= x < a + |low| then low[x - a] else At(mem, x);
    }
  }

  lemma ChunkFits(remaining: nat)
    requires remaining > 0
    ensures ChunkWidth(remaining).Size() <= remaining
  {
  }

  /** Clearing: every byte of the object is zero afterwards and nothing else changed. Only
      the object's own bytes need be accessible, so nothing beyond them is accessed. */
  lemma {:induction false} ZeroRuns(c: Context, dst: Operand, offset: nat, remaining: nat, next: nat, m: State, d: nat)
      returns (m': State)
    requires Value(c, m, dst) == Some(WordOf(d)) && Fixed(c.frame, dst, next) && d + offset + remaining <= M64
    requires c.frame.Visible(d + offset, remaining)
    requires Owned(c.frame, next, ZeroBytes(dst, offset, remaining, next).next)
    ensures Runs(c, ZeroBytes(dst, offset, remaining, next).instrs, m, m') && Aside(next, m, m')
    ensures m'.mem == Write(m.mem, d + offset, Fill(false, remaining))
    ensures Filled(m.mem, m'.mem, d + offset, Fill(false, remaining))
    decreases remaining
  {
    hide WordOf, Write, Runs, Frame.Visible, OffsetAddress, Value, Fill;
    WriteBoth(m.mem, d + offset, [], []);
    if remaining == 0 {
      m' := m;
      RunsNone(c, m);
    } else {
      ChunkFits(remaining);
      var width := ChunkWidth(remaining);
      var n := width.Size();
      var code := OffsetAddress(dst, offset, next);
      var m1 := AddressRuns(c, dst, offset, next, m, d);
      VisibleWithin(c.frame, d + offset, remaining, d + offset, n);
      VisibleWithin(c.frame, d + offset, remaining, d + offset + n, remaining - n);
      ZeroValue(c, m1, n);
      var m2 := StoreRuns(c, width, code.op, Imm(0), m1, d + offset, WordOf(0));
      FixedValue(c, dst, next, m, m2);
      m' := ZeroRuns(c, dst, offset + n, remaining - n, code.next, m2, d);
      FillTwice(m.mem, m2.mem, m'.mem, d + offset, Fill(false, n), Fill(false, remaining - n));
      FillSum(n, remaining - n);
      WriteBoth(m.mem, d + offset, Fill(false, n), Fill(false, remaining - n));
      var rest := ZeroBytes(dst, offset + n, remaining - n, code.next);
      RunsBoth(c, code.instrs, [Store(width, code.op, Imm(0))], m, m1, m2);
      RunsBoth(c, code.instrs + [Store(width, code.op, Imm(0))], rest.instrs, m, m2, m');
    }
  }

  lemma ZeroValue(c: Context, m: State, n: nat)
    requires n <= 8
    ensures Value(c, m, Imm(0)) == Some(WordOf(0)) && WordOf(0)[..n] == Fill(false, n)
  {
    assert WordOf(0) == ZERO;
  }

  lemma FillSum(a: nat, b: nat)
    ensures Fill(false, a) + Fill(false, b) == Fill(false, a + b)
  {
  }

  /** Objects that coincide or do not meet. */
  predicate Apart(a: nat, b: nat, n: nat) { a == b || a + n <= b || b + n <= a }

  /** Copying: the object's bytes are those the source had, and nothing else changed. */
  lemma {:induction false} CopyRuns(c: Context, dst: Operand, src: Operand, offset: nat, remaining: nat, next: nat,
      m: State, d: nat, s: nat) returns (m': State)
    requires Value(c, m, dst) == Some(WordOf(d)) && Fixed(c.frame, dst, next) && d + offset + remaining <= M64
    requires Value(c, m, src) == Some(WordOf(s)) && Fixed(c.frame, src, next) && s + offset + remaining <= M64
    requires c.frame.Visible(d + offset, remaining) && c.frame.Visible(s + offset, remaining)
    requires Apart(d + offset, s + offset, remaining)
    requires Owned(c.frame, next, CopyBytes(dst, src, offset, remaining, next).next)
    ensures Runs(c, CopyBytes(dst, src, offset, remaining, next).instrs, m, m') && Aside(next, m, m')
    ensures Filled(m.mem, m'.mem, d + offset, Read(m.mem, s + offset, remaining))
    decreases remaining
  {
    hide WordOf, Write, Runs, Frame.Visible, OffsetAddress, Value, Read, ChunkCode, Filled, CopyBytes, Fixed;
    CopyUnfolds(dst, src, offset, remaining, next);
    if remaining == 0 {
      m' := m;
      RunsNone(c, m);
      NothingFilled(m.mem, d + offset, s + offset);
    } else {
      var n := ChunkWidth(remaining).Size();
      var chunk := ChunkCode(dst, src, offset, remaining, next);
      Parts(c.frame, d + offset, n, remaining);
      Parts(c.frame, s + offset, n, remaining);
      var m1 := ChunkRuns(c, dst, src, offset, remaining, next, m, d, s);
      FixedLater(c.frame, dst, next, chunk.next);
      FixedLater(c.frame, src, next, chunk.next);
      FixedValue(c, dst, next, m, m1);
      FixedValue(c, src, next, m, m1);
      m' := CopyRuns(c, dst, src, offset + n, remaining - n, chunk.next, m1, d, s);
      SourceKept(m.mem, m1.mem, d + offset, s + offset, n, remaining);
      FillTwice(m.mem, m1.mem, m'.mem, d + offset, Read(m.mem, s + offset, n),
          Read(m.mem, s + offset + n, remaining - n));
      RunsBoth(c, chunk.instrs, CopyBytes(dst, src, offset + n, remaining - n, chunk.next).instrs, m, m1, m');
    }
  }

  lemma CopyUnfolds(dst: Operand, src: Operand, offset: int, remaining: nat, next: nat)
    ensures var code := CopyBytes(dst, src, offset, remaining, next);
      if remaining == 0 then code == Effects([], next) else
      var n := ChunkWidth(remaining).Size();
      var chunk := ChunkCode(dst, src, offset, remaining, next);
      var rest := CopyBytes(dst, src, offset + n, remaining - n, chunk.next);
      n <= remaining && code == Effects(chunk.instrs + rest.instrs, rest.next)
  {
    hide ChunkCode;
  }

  lemma NothingFilled(mem: Mem, a: int, b: int)
    ensures Filled(mem, mem, a, Read(mem, b, 0))
  {
  }

  lemma Parts(f: Frame, a: int, n: nat, whole: nat)
    requires n <= whole && f.Visible(a, whole)
    ensures f.Visible(a, n) && f.Visible(a + n, whole - n)
  {
    VisibleWithin(f, a, whole, a, n);
    VisibleWithin(f, a, whole, a + n, whole - n);
  }

  lemma FixedLater(f: Frame, op: Operand, next: nat, later: nat)
    requires Fixed(f, op, next) && next <= later
    ensures Fixed(f, op, later)
  {
  }

  lemma ChunkRuns(c: Context, dst: Operand, src: Operand, offset: nat, remaining: nat, next: nat, m: State, d: nat,
      s: nat) returns (m': State)
    requires remaining > 0
    requires Value(c, m, dst) == Some(WordOf(d)) && Fixed(c.frame, dst, next) && d + offset < M64
    requires Value(c, m, src) == Some(WordOf(s)) && Fixed(c.frame, src, next) && s + offset < M64
    requires var n := ChunkWidth(remaining).Size(); c.frame.Visible(d + offset, n) && c.frame.Visible(s + offset, n)
    requires Owned(c.frame, next, ChunkCode(dst, src, offset, remaining, next).next)
    ensures Runs(c, ChunkCode(dst, src, offset, remaining, next).instrs, m, m') && Aside(next, m, m')
    ensures Filled(m.mem, m'.mem, d + offset, Read(m.mem, s + offset, ChunkWidth(remaining).Size()))
  {
    hide WordOf, Write, Runs, Frame.Visible, OffsetAddress, Value, Read, Extend;
    var width := ChunkWidth(remaining);
    var a := OffsetAddress(dst, offset, next);
    var b := OffsetAddress(src, offset, a.next);
    var t := b.next;
    var m1 := AddressRuns(c, dst, offset, next, m, d);
    FixedValue(c, src, next, m, m1);
    var m2 := AddressRuns(c, src, offset, a.next, m1, s);
    FixedValue(c, a.op, a.next, m1, m2);
    LoadRuns(c, width, t, b.op, m2, s + offset);
    var w := Extend(Read(m2.mem, s + offset, width.Size()), false);
    var m3 := Set(m2, t, w);
    FixedValue(c, a.op, a.next, m2, m3);
    Loaded(c, t, m2, w);
    m' := StoreRuns(c, width, a.op, Temp(t), m3, d + offset, w);
    RunsBoth(c, a.instrs, b.instrs, m, m1, m2);
    var load, store := [Load(t, width, false, b.op)], [Store(width, a.op, Temp(t))];
    RunsBoth(c, a.instrs + b.instrs, load, m, m2, m3);
    RunsBoth(c, a.instrs + b.instrs + load, store, m, m3, m');
    assert a.instrs + b.instrs + load + store == ChunkCode(dst, src, offset, remaining, next).instrs;
  }

  lemma Loaded(c: Context, t: nat, m: State, w: Word)
    requires c.frame.Private(t)
    ensures Value(c, Set(m, t, w), Temp(t)) == Some(w)
  {
  }

  /** What is still to be copied has not been overwritten. */
  lemma SourceKept(mem: Mem, mem': Mem, d: nat, s: nat, n: nat, remaining: nat)
    requires n <= remaining && Apart(d, s, remaining) && Filled(mem, mem', d, Read(mem, s, n))
    ensures Read(mem', s + n, remaining - n) == Read(mem, s + n, remaining - n)
    ensures Read(mem, s, n) + Read(mem, s + n, remaining - n) == Read(mem, s, remaining)
  {
    ReadSame(mem, mem', s + n, remaining - n);
  }
}
