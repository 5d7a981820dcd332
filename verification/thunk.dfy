/** Interrupt thunks: `handle_irq_local` emits a few instructions that push a handler's address and jump
    to a common entry point, and `set_idt_entry` points an interrupt gate at them.  The emitted bytes
    are given their meaning by a decoder for exactly the instructions involved. */
module Thunk {
  import opened Words
  import opened ByteMemory

  // ---------- Emitted code ----------

  /** The low n bytes of v, little-endian: what storing v through a pointer to an n-byte word writes. */
  function LittleEndian(v: nat, n: nat): (b: seq<byte>)
    ensures |b| == n && forall i :: 0 <= i < n ==> b[i] == ByteOf(v, i)
  {
    seq(n, i requires 0 <= i < n => ByteOf(v, i))
  }

  /** `isr_entry_point - next`, modulo the address space. */
  function Displacement(next: nat, entry: nat, space: nat): nat
    requires next < space && entry < space
  {
    if entry >= next then entry - next else entry - next + space
  }

  function Code64(next: u64, func: u64, entry: u64): (code: seq<byte>)
    ensures |code| == 24
  {
    [0x48, 0x83, 0xec, 0x08]
    + ([0xc7, 0x04, 0x24] + LittleEndian(func, 4))
    + ([0xc7, 0x44, 0x24, 0x04] + LittleEndian(func / TWO32, 4))
    + ([0xe9] + LittleEndian(Displacement(next, entry, TWO64), 4))
  }

  function Code32(next: u32, func: u32, entry: u32): (code: seq<byte>)
    ensures |code| == 10
  {
    ([0x68] + LittleEndian(func, 4)) + ([0xe9] + LittleEndian(Displacement(next, entry, TWO32), 4))
  }

  // ---------- The processor ----------

  datatype Cpu = Cpu(ip: nat, sp: nat, mem: Memory)

  ghost predicate Wf(c: Cpu) {
    (c.mem.space == TWO32 || c.mem.space == TWO64) && c.mem.Addr(c.ip) && c.mem.Addr(c.sp)
  }

  /** Address plus a signed displacement. */
  function Shifted(m: Memory, a: nat, d: int): (r: nat)
    requires m.Addr(a) && 0 <= d + m.space <= 2 * m.space
    ensures m.Addr(r)
  {
    if a + d >= m.space then a + d - m.space else if a + d < 0 then a + d + m.space else a + d
  }

  function Imm32(m: Memory, a: nat): u32
    requires m.Addr(a) && 4 < m.space
  {
    m.Load(a, 4) % TWO32
  }

  datatype Outcome = Undefined | Next(c: Cpu)

  /** One instruction: lowering the stack pointer by a byte immediate (64-bit only), storing a 32-bit
      immediate on top of the stack or at a byte displacement from it, a jump by a 32-bit displacement,
      and pushing a 32-bit immediate (32-bit only).  The flags are not modelled. */
  ghost function Execute(c: Cpu): Outcome
    requires Wf(c)
  {
    var m, ip := c.mem, c.ip;
    var b0, b1, b2, b3 := m.at(ip), m.at(m.Plus(ip, 1)), m.at(m.Plus(ip, 2)), m.at(m.Plus(ip, 3));
    if b0 == 0x48 && b1 == 0x83 && b2 == 0xec && m.space == TWO64 then
      Next(Cpu(m.Plus(ip, 4), Shifted(m, c.sp, -Signed8(b3)), m))
    else if b0 == 0xc7 && b1 == 0x04 && b2 == 0x24 then
      Next(Cpu(m.Plus(ip, 7), c.sp, m.Store(c.sp, 4, Imm32(m, m.Plus(ip, 3)))))
    else if b0 == 0xc7 && b1 == 0x44 && b2 == 0x24 then
      Next(Cpu(m.Plus(ip, 8), c.sp, m.Store(Shifted(m, c.sp, Signed8(b3)), 4, Imm32(m, m.Plus(ip, 4)))))
    else if b0 == 0xe9 then
      Next(Cpu(Shifted(m, m.Plus(ip, 5), Signed32(Imm32(m, m.Plus(ip, 1)))), c.sp, m))
    else if b0 == 0x68 && m.space == TWO32 then
      var sp := Shifted(m, c.sp, -4);
      Next(Cpu(m.Plus(ip, 5), sp, m.Store(sp, 4, Imm32(m, m.Plus(ip, 1)))))
    else Undefined
  }

  ghost function ExecuteN(c: Cpu, n: nat): Outcome
    requires Wf(c)
    decreases n
  {
    if n == 0 then Next(c)
    else
      match Execute(c)
      case Undefined => Undefined
      case Next(c') => ExecuteN(c', n - 1)
  }

  /** `code` lies in memory at address a. */
  ghost predicate Loaded(m: Memory, a: nat, code: seq<byte>) {
    m.Addr(a) && |code| < m.space && forall i :: 0 <= i < |code| ==> m.at(m.Plus(a, i)) == code[i]
  }

  lemma LoadedPart(m: Memory, a: nat, code: seq<byte>, k: nat)
    requires Loaded(m, a, code) && k < |code|
    ensures Loaded(m, m.Plus(a, k), code[k..])
  {
    forall i | 0 <= i < |code| - k ensures m.at(m.Plus(m.Plus(a, k), i)) == code[k..][i] {
      assert m.Plus(m.Plus(a, k), i) == m.Plus(a, k + i);
    }
  }

  lemma LoadedSurvives(m: Memory, later: Memory, a: nat, code: seq<byte>, b: nat, n: nat)
    requires Loaded(m, a, code) && m.Addr(b) && m.ChangedOnlyAt(later, b, n) && m.Apart(b, n, a, |code|)
    ensures Loaded(later, a, code)
  {
    forall i | 0 <= i < |code| ensures later.at(later.Plus(a, i)) == code[i] {
      assert m.Distance(b, m.Plus(a, i)) >= n;
    }
  }

  /** An immediate in the instruction stream reads back modulo 2^32. */
  lemma ImmediateReads(m: Memory, a: nat, code: seq<byte>, v: nat)
    requires Loaded(m, a, code) && |code| >= 4 && code[..4] == LittleEndian(v, 4)
    ensures Imm32(m, a) == v % TWO32
  {
    var b, low := m.Bytes(a, 4), v % TWO32;
    PowerValues();
    forall k | 0 <= k < 4 ensures b[k] == ByteOf(low, k) {
      assert code[k] == code[..4][k];
      HighPartIgnored(low, v / TWO32, 4, k);
    }
    ValueOfBytes(low, b);
  }

  /** The low n bytes do not depend on what lies above them. */
  lemma {:induction false} HighPartIgnored(low: nat, high: nat, n: nat, k: nat)
    requires k < n
    ensures ByteOf(low + Pow256(n) * high, k) == ByteOf(low, k)
    decreases k
  {
    var rest := Pow256(n - 1) * high;
    assert Pow256(n) * high == 256 * rest;
    assert (low + 256 * rest) % 256 == low % 256 && (low + 256 * rest) / 256 == low / 256 + rest;
    if k > 0 {
      HighPartIgnored(low / 256, high, n - 1, k - 1);
    }
  }

  // ---------- Each instruction ----------

  lemma ExecuteSub(c: Cpu, code: seq<byte>)
    requires Wf(c) && c.mem.space == TWO64 && |code| >= 4 && Loaded(c.mem, c.ip, code)
    requires code[..4] == [0x48, 0x83, 0xec, 0x08]
    ensures Execute(c) == Next(Cpu(c.mem.Plus(c.ip, 4), Shifted(c.mem, c.sp, -8), c.mem))
  {
    hide Memory.Load;
    assert code[0] == code[..4][0] && code[1] == code[..4][1] && code[2] == code[..4][2] && code[3] == code[..4][3];
    assert c.mem.Plus(c.ip, 0) == c.ip;
  }

  lemma ExecuteMovTop(c: Cpu, code: seq<byte>, v: nat)
    requires Wf(c) && |code| >= 7 && Loaded(c.mem, c.ip, code)
    requires code[..7] == [0xc7, 0x04, 0x24] + LittleEndian(v, 4)
    ensures Execute(c) == Next(Cpu(c.mem.Plus(c.ip, 7), c.sp, c.mem.Store(c.sp, 4, v % TWO32)))
  {
    hide Memory.Load, Memory.Store, ByteOf;
    assert code[0] == code[..7][0] && code[1] == code[..7][1] && code[2] == code[..7][2];
    assert c.mem.Plus(c.ip, 0) == c.ip;
    LoadedPart(c.mem, c.ip, code, 3);
    assert code[3..][..4] == code[..7][3..] == LittleEndian(v, 4);
    ImmediateReads(c.mem, c.mem.Plus(c.ip, 3), code[3..], v);
  }

  lemma ExecuteMovAbove(c: Cpu, code: seq<byte>, v: nat)
    requires Wf(c) && |code| >= 8 && Loaded(c.mem, c.ip, code)
    requires code[..8] == [0xc7, 0x44, 0x24, 0x04] + LittleEndian(v, 4)
    ensures Execute(c) == Next(Cpu(c.mem.Plus(c.ip, 8), c.sp, c.mem.Store(c.mem.Plus(c.sp, 4), 4, v % TWO32)))
  {
    hide Memory.Load, Memory.Store, ByteOf;
    assert code[0] == code[..8][0] && code[1] == code[..8][1] && code[2] == code[..8][2] && code[3] == code[..8][3];
    assert c.mem.Plus(c.ip, 0) == c.ip;
    LoadedPart(c.mem, c.ip, code, 4);
    assert code[4..][..4] == code[..8][4..] == LittleEndian(v, 4);
    ImmediateReads(c.mem, c.mem.Plus(c.ip, 4), code[4..], v);
  }

  lemma ExecuteJmp(c: Cpu, code: seq<byte>, d: nat)
    requires Wf(c) && |code| >= 5 && Loaded(c.mem, c.ip, code)
    requires code[..5] == [0xe9] + LittleEndian(d, 4)
    ensures Execute(c) == Next(Cpu(Shifted(c.mem, c.mem.Plus(c.ip, 5), Signed32(d % TWO32)), c.sp, c.mem))
  {
    hide Memory.Load, Memory.Store, ByteOf;
    assert code[0] == code[..5][0];
    assert c.mem.Plus(c.ip, 0) == c.ip;
    LoadedPart(c.mem, c.ip, code, 1);
    assert code[1..][..4] == code[..5][1..] == LittleEndian(d, 4);
    ImmediateReads(c.mem, c.mem.Plus(c.ip, 1), code[1..], d);
  }

  lemma ExecutePush(c: Cpu, code: seq<byte>, v: nat)
    requires Wf(c) && c.mem.space == TWO32 && |code| >= 5 && Loaded(c.mem, c.ip, code)
    requires code[..5] == [0x68] + LittleEndian(v, 4)
    ensures var sp := Shifted(c.mem, c.sp, -4);
            Execute(c) == Next(Cpu(c.mem.Plus(c.ip, 5), sp, c.mem.Store(sp, 4, v % TWO32)))
  {
    hide Memory.Load, Memory.Store, ByteOf;
    assert code[0] == code[..5][0];
    assert c.mem.Plus(c.ip, 0) == c.ip;
    LoadedPart(c.mem, c.ip, code, 1);
    assert code[1..][..4] == code[..5][1..] == LittleEndian(v, 4);
    ImmediateReads(c.mem, c.mem.Plus(c.ip, 1), code[1..], v);
  }

  // ---------- The thunk ----------

  /** The entry point is within reach of a 32-bit displacement from address `next`. */
  predicate WithinReach(next: u64, entry: u64) {
    Displacement(next, entry, TWO64) < TWO31 || Displacement(next, entry, TWO64) >= TWO64 - TWO31
  }

  /** The jump goes where it should exactly when the entry point is within reach: the emitted
      displacement is truncated to 32 bits and sign-extended by the processor. */
  lemma JumpTarget64(m: Memory, next: u64, entry: u64)
    requires m.space == TWO64
    ensures Shifted(m, next, Signed32(Displacement(next, entry, TWO64) % TWO32)) == entry <==> WithinReach(next, entry)
  {
    var d := Displacement(next, entry, TWO64);
    assert d == (d / TWO32) * TWO32 + d % TWO32;
    if d >= TWO64 - TWO31 {
      assert d / TWO32 == TWO32 - 1;
    }
  }

  lemma JumpTarget32(m: Memory, next: u32, entry: u32)
    requires m.space == TWO32
    ensures Shifted(m, next, Signed32(Displacement(next, entry, TWO32) % TWO32)) == entry
  {
  }

  lemma HighPart(low: nat, high: nat, k: nat)
    requires low < TWO32
    ensures ByteOf(low + TWO32 * high, k + 4) == ByteOf(high, k)
  {
    var v := low + TWO32 * high;
    assert v / 256 / 256 / 256 / 256 == high;
    assert ByteOf(v, k + 4) == ByteOf(v / 256, k + 3);
    assert ByteOf(v / 256, k + 3) == ByteOf(v / 256 / 256, k + 2);
    assert ByteOf(v / 256 / 256, k + 2) == ByteOf(v / 256 / 256 / 256, k + 1);
  }

  /** The memory after storing `low` at a and `high` just above it. */
  function BothHalves(m: Memory, a: nat, low: u32, high: u32): Memory
    requires m.space == TWO64 && m.Addr(a)
  {
    m.Store(a, 4, low).Store(m.Plus(a, 4), 4, high)
  }

  lemma HalvesByte(m: Memory, a: nat, low: u32, high: u32, k: nat)
    requires m.space == TWO64 && m.Addr(a) && k < 8
    ensures BothHalves(m, a, low, high).at(m.Plus(a, k)) == if k < 4 then ByteOf(low, k) else ByteOf(high, k - 4)
  {
    hide ByteOf;
    var x, first := m.Plus(a, k), m.Store(a, 4, low);
    assert m.Distance(a, x) == k;
    assert first.Distance(m.Plus(a, 4), x) == if k < 4 then k - 4 + TWO64 else k - 4;
    assert k < 4 ==> first.at(x) == ByteOf(low, k);
  }

  /** Two words stored side by side read back as one long word. */
  lemma TwoHalves(m: Memory, a: nat, low: u32, high: u32)
    requires m.space == TWO64 && m.Addr(a)
    ensures var m' := BothHalves(m, a, low, high);
            m'.Load(a, 8) == low + TWO32 * high && m.ChangedOnlyAt(m', a, 8)
  {
    hide ByteOf;
    PowerValues();
    var m', v := BothHalves(m, a, low, high), low + TWO32 * high;
    forall k | 0 <= k < 8 ensures m'.Bytes(a, 8)[k] == ByteOf(v, k) {
      HalvesByte(m, a, low, high, k);
      if k < 4 {
        HighPartIgnored(low, high, 4, k);
      } else {
        HighPart(low, high, k - 4);
      }
    }
    ValueOfBytes(v, m'.Bytes(a, 8));
    assert m.ChangedOnlyAt(m', a, 8) by {
      m.StoreFrame(a, 4, low);
      m.Store(a, 4, low).StoreFrame(m.Plus(a, 4), 4, high);
    }
  }

  lemma PlusPlus(m: Memory, a: nat, j: nat, k: nat)
    requires m.space == TWO64 && m.Addr(a) && j < 64 && k < 64
    ensures m.Plus(m.Plus(a, j), k) == m.Plus(a, j + k)
  {
  }

  lemma ApartHalves(m: Memory, a: nat, b: nat)
    requires m.space == TWO64 && m.Addr(a) && m.Addr(b) && m.Apart(a, 8, b, 24)
    ensures m.Apart(a, 4, b, 24) && m.Apart(m.Plus(a, 4), 4, b, 24)
  {
  }

  /** For every handler, thunk address and entry point: run from the thunk's start, the emitted code
      lowers the stack pointer by one word, leaves exactly the handler's address on top, writes
      nothing else, and arrives at the entry point exactly when that is within reach. */
  lemma ThunkRuns64(c: Cpu, func: u64, entry: u64)
    requires Wf(c) && c.mem.space == TWO64
    requires Loaded(c.mem, c.ip, Code64(c.mem.Plus(c.ip, 24), func, entry))
    requires c.mem.Apart(Shifted(c.mem, c.sp, -8), 8, c.ip, 24)
    ensures var o := ExecuteN(c, 4);
            && o.Next?
            && o.c.sp == Shifted(c.mem, c.sp, -8)
            && o.c.mem.space == TWO64 && o.c.mem.Load(o.c.sp, 8) == func
            && c.mem.ChangedOnlyAt(o.c.mem, o.c.sp, 8)
            && (o.c.ip == entry <==> WithinReach(c.mem.Plus(c.ip, 24), entry))
  {
    hide Memory.Load, Memory.Store, Memory.Plus, Memory.Apart, Memory.ChangedOnlyAt, ByteOf, Execute, ExecuteN, Code64, LittleEndian,
         Shifted, Loaded, Displacement, WithinReach;
    var m, ip, sp := c.mem, c.ip, Shifted(c.mem, c.sp, -8);
    var next := m.Plus(ip, 24);
    var code := Code64(next, func, entry);
    CodeParts64(next, func, entry);
    PlusPlus(m, ip, 4, 7);
    PlusPlus(m, ip, 11, 8);
    PlusPlus(m, ip, 19, 5);
    ApartHalves(m, sp, ip);
    ExecuteSub(c, code);
    var c1 := Cpu(m.Plus(ip, 4), sp, m);
    LoadedPart(m, ip, code, 4);
    ExecuteMovTop(c1, code[4..], func);
    var m2 := m.Store(sp, 4, func % TWO32);
    var c2 := Cpu(m.Plus(ip, 11), sp, m2);
    m.StoreFrame(sp, 4, func % TWO32);
    LoadedSurvives(m, m2, ip, code, sp, 4);
    SamePlus(m, m2);
    LoadedPart(m2, ip, code, 11);
    ExecuteMovAbove(c2, code[11..], func / TWO32);
    var m3 := m2.Store(m.Plus(sp, 4), 4, func / TWO32);
    var c3 := Cpu(m.Plus(ip, 19), sp, m3);
    m2.StoreFrame(m.Plus(sp, 4), 4, func / TWO32);
    LoadedSurvives(m2, m3, ip, code, m.Plus(sp, 4), 4);
    SamePlus(m, m3);
    LoadedPart(m3, ip, code, 19);
    ExecuteJmp(c3, code[19..], Displacement(next, entry, TWO64));
    TwoHalves(m, sp, func % TWO32, func / TWO32);
    JumpTarget64(m3, next, entry);
    RunFour(c, c1, c2, c3);
  }

  lemma SamePlus(m: Memory, m': Memory)
    requires m.space == m'.space
    ensures forall a: nat, k: nat {:trigger m'.Plus(a, k)} :: m.Addr(a) && k <= m.space ==> m'.Plus(a, k) == m.Plus(a, k)
    ensures forall a: nat, n: nat, b: nat, k: nat {:trigger m'.Apart(a, n, b, k)} :: m.Addr(a) && m.Addr(b) ==>
              m'.Apart(a, n, b, k) == m.Apart(a, n, b, k)
  {
  }

  lemma CodeParts64(next: u64, func: u64, entry: u64)
    ensures var code := Code64(next, func, entry);
            && code[..4] == [0x48, 0x83, 0xec, 0x08]
            && code[4..][..7] == [0xc7, 0x04, 0x24] + LittleEndian(func, 4)
            && code[11..][..8] == [0xc7, 0x44, 0x24, 0x04] + LittleEndian(func / TWO32, 4)
            && code[19..][..5] == [0xe9] + LittleEndian(Displacement(next, entry, TWO64), 4)
  {
    hide LittleEndian;
  }

  lemma CodeParts32(next: u32, func: u32, entry: u32)
    ensures var code := Code32(next, func, entry);
            && code[..5] == [0x68] + LittleEndian(func, 4)
            && code[5..][..5] == [0xe9] + LittleEndian(Displacement(next, entry, TWO32), 4)
  {
    hide LittleEndian;
  }

  lemma RunFour(c: Cpu, c1: Cpu, c2: Cpu, c3: Cpu)
    requires Wf(c) && Wf(c1) && Wf(c2) && Wf(c3)
    requires Execute(c) == Next(c1) && Execute(c1) == Next(c2) && Execute(c2) == Next(c3)
    requires Execute(c3).Next? && Wf(Execute(c3).c)
    ensures ExecuteN(c, 4) == Execute(c3)
  {
    hide Execute;
    assert ExecuteN(c3, 1) == Execute(c3);
    assert ExecuteN(c2, 2) == ExecuteN(c3, 1);
    assert ExecuteN(c1, 3) == ExecuteN(c2, 2);
  }

  lemma PlusFive(m: Memory, a: nat)
    requires m.space == TWO32 && m.Addr(a)
    ensures m.Plus(m.Plus(a, 5), 5) == m.Plus(a, 10)
  {
  }

  /** The 32-bit encoding does the same, and its jump always reaches. */
  lemma ThunkRuns32(c: Cpu, func: u32, entry: u32)
    requires Wf(c) && c.mem.space == TWO32
    requires Loaded(c.mem, c.ip, Code32(c.mem.Plus(c.ip, 10), func, entry))
    requires c.mem.Apart(Shifted(c.mem, c.sp, -4), 4, c.ip, 10)
    ensures var o := ExecuteN(c, 2);
            && o.Next?
            && o.c.sp == Shifted(c.mem, c.sp, -4)
            && o.c.mem.space == TWO32 && o.c.mem.Load(o.c.sp, 4) == func
            && c.mem.ChangedOnlyAt(o.c.mem, o.c.sp, 4)
            && o.c.ip == entry
  {
    hide Memory.Load, Memory.Store, Memory.Plus, Memory.Apart, Memory.ChangedOnlyAt, ByteOf, Execute, Code32, LittleEndian,
         Shifted, Loaded, Displacement;
    var m, ip := c.mem, c.ip;
    var code := Code32(m.Plus(ip, 10), func, entry);
    CodeParts32(m.Plus(ip, 10), func, entry);
    var sp := Shifted(m, c.sp, -4);
    ExecutePush(c, code, func);
    var m1 := m.Store(sp, 4, func);
    var c1 := Cpu(m.Plus(ip, 5), sp, m1);
    PowerValues();
    m.StoreFrame(sp, 4, func);
    m.LoadOfStore(sp, 4, func);
    LoadedSurvives(m, m1, ip, code, sp, 4);
    SamePlus(m, m1);
    assert m.Plus(m.Plus(ip, 5), 5) == m.Plus(ip, 10) by { PlusFive(m, ip); }
    LoadedPart(m1, ip, code, 5);
    ExecuteJmp(c1, code[5..], Displacement(m.Plus(ip, 10), entry, TWO32));
    JumpTarget32(m1, m.Plus(ip, 10), entry);
    assert ExecuteN(c1, 1) == Execute(c1);
  }

  // ---------- The interrupt gate ----------

  datatype IdtEntry = IdtEntry(offset0: nat, selector: nat, ist: nat, ty: nat, dpl: nat, p: nat, offset1: nat,
                               offset2: nat, reserved: nat)

  /** The bytes of an entry: two 16-bit words, one word of bit-fields, a third 16-bit word, and in
      64-bit mode two 32-bit words. */
  function EntryBytes(e: IdtEntry): seq<byte> {
    LittleEndian(e.offset0, 2) + LittleEndian(e.selector, 2)
    + LittleEndian(e.ist + 256 * (e.ty + 32 * (e.dpl + 4 * e.p)), 2)
    + LittleEndian(e.offset1, 2) + LittleEndian(e.offset2, 4) + LittleEndian(e.reserved, 4)
  }

  datatype Gate = NoGate | InterruptGate(target: u64, selector: nat, dpl: nat, ist: nat)

  /** What the processor makes of sixteen bytes of the IDT ('64-Bit Mode IDT', section 6.14.1 of volume
      3A of the Intel SDM): a present interrupt gate has P = 1, S = 0 and type 14, and switches to
      another stack unless its IST index is 0. */
  function DecodeGate64(b: seq<byte>): Gate
    requires |b| == 16
  {
    var flags := b[5] as int;
    if flags / 128 == 1 && flags % 32 == 14 then
      InterruptGate(Wrap64(Value(b[0..2]) + 0x1_0000 * Value(b[6..8]) + TWO32 * Value(b[8..12])), Value(b[2..4]), flags / 32 % 4,
                    b[4] as int % 8)
    else NoGate
  }

  /** 'IDT', section 6.10 of the same volume: eight bytes in 32-bit mode, without an IST. */
  function DecodeGate32(b: seq<byte>): Gate
    requires |b| >= 8
  {
    var flags := b[5] as int;
    if flags / 128 == 1 && flags % 32 == 14 then
      InterruptGate(Wrap64(Value(b[0..2]) + 0x1_0000 * Value(b[6..8])), Value(b[2..4]), flags / 32 % 4, 0)
    else NoGate
  }

  /** What `set_idt_entry` leaves in the entry. */
  function EntryFor(addr: u64, cs: nat, dpl: int): IdtEntry {
    IdtEntry(addr % 0x1_0000, cs % 0x1_0000, 0, 14, dpl % 4, 1, addr / 0x1_0000 % 0x1_0000, addr / TWO32, 0)
  }

  lemma ShortValue(v: nat, n: nat)
    requires v < Pow256(n)
    ensures Value(LittleEndian(v, n)) == v
  {
    ValueOfBytes(v, LittleEndian(v, n));
  }

  /** The entry written by `set_idt_entry` decodes to a present interrupt gate for exactly that address,
      selector and privilege level that keeps the stack, in 64-bit mode and, for a 32-bit address, in
      32-bit mode; its reserved bytes are 0. */
  lemma GateDecodes(addr: u64, cs: nat, dpl: int)
    ensures var e := EntryBytes(EntryFor(addr, cs, dpl));
            && |e| == 16
            && DecodeGate64(e) == InterruptGate(addr, cs % 0x1_0000, dpl % 4, 0)
            && e[4] == 0 && (forall i :: 12 <= i < 16 ==> e[i] == 0)
            && (addr < TWO32 ==> DecodeGate32(e) == InterruptGate(addr, cs % 0x1_0000, dpl % 4, 0))
  {
    hide LittleEndian, ByteOf, Value;
    var x := EntryFor(addr, cs, dpl);
    var e := EntryBytes(x);
    var flags := x.ist + 256 * (x.ty + 32 * (x.dpl + 4 * x.p));
    assert Pow256(2) == 0x1_0000 && Pow256(4) == TWO32 by { PowerValues(); }
    ShortValue(x.offset0, 2);
    ShortValue(x.selector, 2);
    ShortValue(x.offset1, 2);
    ShortValue(x.offset2, 4);
    FlagByte(x.dpl);
    assert e[0..2] == LittleEndian(x.offset0, 2);
    assert e[2..4] == LittleEndian(x.selector, 2);
    assert e[6..8] == LittleEndian(x.offset1, 2);
    assert e[8..12] == LittleEndian(x.offset2, 4);
    assert e[5] == LittleEndian(flags, 2)[1] == ByteOf(flags, 1);
    assert e[4] == LittleEndian(flags, 2)[0] == ByteOf(flags, 0);
    forall i | 12 <= i < 16 ensures e[i] == 0 {
      assert e[i] == LittleEndian(0, 4)[i - 12] == ByteOf(0, i - 12);
      ZeroByte(i - 12);
    }
    AddressParts(addr);
  }

  lemma AddressParts(addr: u64)
    ensures addr % 0x1_0000 + 0x1_0000 * (addr / 0x1_0000 % 0x1_0000) + TWO32 * (addr / TWO32) == addr
  {
    assert addr / 0x1_0000 / 0x1_0000 == addr / TWO32;
  }

  lemma {:induction false} ZeroByte(k: nat)
    ensures ByteOf(0, k) == 0
  {
    if k > 0 { ZeroByte(k - 1); }
  }

  lemma FlagByte(dpl: nat)
    requires dpl < 4
    ensures ByteOf(256 * (14 + 32 * (dpl + 4)), 0) == 0
    ensures ByteOf(256 * (14 + 32 * (dpl + 4)), 1) as int == 14 + 32 * (dpl + 4)
  {
    assert 256 * (14 + 32 * (dpl + 4)) / 256 == 14 + 32 * (dpl + 4);
  }
}
