/** `set_idt_entry` and `handle_irq_local` as they run: filling an IDT entry in place and writing code
    bytes through an advancing pointer. */
module ThunkEmitter {
  import opened Words
  import opened ByteMemory
  import opened Thunk

  /** The allocation of the thunk's buffer. */
  const BUFFER_SIZE: nat := 50

  method SetIdtEntry(bootIdt: array<IdtEntry>, vec: nat, addr: u64, dpl: int, cs: nat)
    requires vec < bootIdt.Length
    modifies bootIdt
    ensures bootIdt[vec] == EntryFor(addr, cs, dpl)
    ensures forall i :: 0 <= i < bootIdt.Length && i != vec ==> bootIdt[i] == old(bootIdt[i])
  {
    bootIdt[vec] := IdtEntry(0, 0, 0, 0, 0, 0, 0, 0, 0);
    bootIdt[vec] := bootIdt[vec].(offset0 := addr % 0x1_0000);
    bootIdt[vec] := bootIdt[vec].(selector := cs % 0x1_0000);
    bootIdt[vec] := bootIdt[vec].(ist := 0);
    bootIdt[vec] := bootIdt[vec].(ty := 14);
    bootIdt[vec] := bootIdt[vec].(dpl := dpl % 4);
    bootIdt[vec] := bootIdt[vec].(p := 1);
    bootIdt[vec] := bootIdt[vec].(offset1 := addr / 0x1_0000 % 0x1_0000);
    bootIdt[vec] := bootIdt[vec].(offset2 := addr / TWO32 % TWO32);
  }

  /** Bytes stored through the advancing pointer. */
  method Put(thunk: array<byte>, at: nat, bytes: seq<byte>) returns (next: nat)
    requires at + |bytes| <= thunk.Length
    modifies thunk
    ensures next == at + |bytes|
    ensures thunk[..next] == old(thunk[..at]) + bytes
    ensures forall i :: next <= i < thunk.Length ==> thunk[i] == old(thunk[i])
  {
    next := at;
    while next < at + |bytes|
      invariant at <= next <= at + |bytes|
      invariant thunk[..next] == old(thunk[..at]) + bytes[..next - at]
      invariant forall i :: next <= i < thunk.Length ==> thunk[i] == old(thunk[i])
    {
      thunk[next] := bytes[next - at];
      next := next + 1;
    }
  }

  /** A 32-bit word stored through the pointer, which then advances by four. */
  method PutWord(thunk: array<byte>, at: nat, v: nat) returns (next: nat)
    requires at + 4 <= thunk.Length
    modifies thunk
    ensures next == at + 4
    ensures thunk[..next] == old(thunk[..at]) + LittleEndian(v, 4)
    ensures forall i :: next <= i < thunk.Length ==> thunk[i] == old(thunk[i])
  {
    next := Put(thunk, at, LittleEndian(v, 4));
  }

  /** The 64-bit thunk, in a buffer that vmalloc placed at address `base`. */
  method HandleIrqLocal64(bootIdt: array<IdtEntry>, thunk: array<byte>, base: u64, vec: nat, func: u64, entry: u64, cs: nat)
    requires vec < bootIdt.Length && thunk.Length == BUFFER_SIZE && base + BUFFER_SIZE < TWO64
    modifies bootIdt, thunk
    ensures bootIdt[vec] == EntryFor(base, cs, 0)
    ensures forall i :: 0 <= i < bootIdt.Length && i != vec ==> bootIdt[i] == old(bootIdt[i])
    ensures thunk[..24] == Code64(base + 24, func, entry) && forall i :: 24 <= i < BUFFER_SIZE ==> thunk[i] == old(thunk[i])
  {
    hide LittleEndian;
    SetIdtEntry(bootIdt, vec, base, 0, cs);
    var p := Put(thunk, 0, [0x48, 0x83, 0xec, 0x08]);
    p := Put(thunk, p, [0xc7, 0x04, 0x24]);
    p := PutWord(thunk, p, func);
    ghost var upTo11 := thunk[..11];
    assert upTo11 == [0x48, 0x83, 0xec, 0x08] + ([0xc7, 0x04, 0x24] + LittleEndian(func, 4));
    p := Put(thunk, p, [0xc7, 0x44, 0x24, 0x04]);
    p := PutWord(thunk, p, func / TWO32);
    ghost var upTo19 := thunk[..19];
    assert upTo19 == upTo11 + ([0xc7, 0x44, 0x24, 0x04] + LittleEndian(func / TWO32, 4));
    p := Put(thunk, p, [0xe9]);
    p := PutWord(thunk, p, Displacement(base + p + 4, entry, TWO64));
    assert thunk[..24] == upTo19 + ([0xe9] + LittleEndian(Displacement(base + 24, entry, TWO64), 4));
  }

  /** The 32-bit thunk. */
  method HandleIrqLocal32(bootIdt: array<IdtEntry>, thunk: array<byte>, base: u32, vec: nat, func: u32, entry: u32, cs: nat)
    requires vec < bootIdt.Length && thunk.Length == BUFFER_SIZE && base + BUFFER_SIZE < TWO32
    modifies bootIdt, thunk
    ensures bootIdt[vec] == EntryFor(base, cs, 0)
    ensures forall i :: 0 <= i < bootIdt.Length && i != vec ==> bootIdt[i] == old(bootIdt[i])
    ensures thunk[..10] == Code32(base + 10, func, entry) && forall i :: 10 <= i < BUFFER_SIZE ==> thunk[i] == old(thunk[i])
  {
    hide LittleEndian;
    SetIdtEntry(bootIdt, vec, base, 0, cs);
    var p := Put(thunk, 0, [0x68]);
    p := PutWord(thunk, p, func);
    p := Put(thunk, p, [0xe9]);
    p := PutWord(thunk, p, Displacement(base + p + 4, entry, TWO32));
  }

  /** From interrupt to handler: with the buffer's bytes in memory at `base`, the processor that takes
      the gate of the entry written for it starts at the thunk, and four instructions later stands at
      the common entry point with the handler's address as the only new word on its stack. */
  lemma InterruptReachesEntry64(m: Memory, sp: u64, base: u64, func: u64, entry: u64, cs: nat, junk: seq<byte>)
    requires m.space == TWO64 && base + BUFFER_SIZE < TWO64 && |junk| == BUFFER_SIZE - 24
    requires Loaded(m, base, Code64(base + 24, func, entry) + junk)
    requires m.Apart(Shifted(m, sp, -8), 8, base, 24)
    requires WithinReach(base + 24, entry)
    ensures var gate := DecodeGate64(EntryBytes(EntryFor(base, cs, 0)));
            && gate.InterruptGate? && gate.dpl == 0 && gate.ist == 0
            && var o := ExecuteN(Cpu(gate.target, sp, m), 4);
               o.Next? && o.c.ip == entry && o.c.sp == Shifted(m, sp, -8)
               && o.c.mem.space == TWO64 && o.c.mem.Load(o.c.sp, 8) == func && m.ChangedOnlyAt(o.c.mem, o.c.sp, 8)
  {
    hide Memory.Load, Memory.Store, ExecuteN, EntryBytes, EntryFor, DecodeGate64, Code64, LittleEndian;
    GateDecodes(base, cs, 0);
    var code := Code64(base + 24, func, entry);
    assert Loaded(m, base, code) by {
      forall i | 0 <= i < 24 ensures m.at(m.Plus(base, i)) == code[i] {
        assert (code + junk)[i] == code[i];
      }
    }
    ThunkRuns64(Cpu(base, sp, m), func, entry);
  }

  /** The same in 32-bit mode, where the entry point is always within reach: the first eight bytes of the
      entry are the gate, and two instructions lead from the thunk to the entry point. */
  lemma InterruptReachesEntry32(m: Memory, sp: u32, base: u32, func: u32, entry: u32, cs: nat, junk: seq<byte>)
    requires m.space == TWO32 && base + BUFFER_SIZE < TWO32 && |junk| == BUFFER_SIZE - 10
    requires Loaded(m, base, Code32(base + 10, func, entry) + junk)
    requires m.Apart(Shifted(m, sp, -4), 4, base, 10)
    ensures var gate := DecodeGate32(EntryBytes(EntryFor(base, cs, 0)));
            && gate.InterruptGate? && gate.dpl == 0 && gate.target < TWO32
            && var o := ExecuteN(Cpu(gate.target, sp, m), 2);
               o.Next? && o.c.ip == entry && o.c.sp == Shifted(m, sp, -4)
               && o.c.mem.space == TWO32 && o.c.mem.Load(o.c.sp, 4) == func && m.ChangedOnlyAt(o.c.mem, o.c.sp, 4)
  {
    hide Memory.Load, Memory.Store, ExecuteN, EntryBytes, EntryFor, DecodeGate32, Code32, LittleEndian;
    GateDecodes(base, cs, 0);
    var code := Code32(base + 10, func, entry);
    assert Loaded(m, base, code) by {
      forall i | 0 <= i < 10 ensures m.at(m.Plus(base, i)) == code[i] {
        assert (code + junk)[i] == code[i];
      }
    }
    ThunkRuns32(Cpu(base, sp, m), func, entry);
  }
}
