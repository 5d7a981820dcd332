/** The IOAPIC's index/data register window and the redirection table behind it. */
module IoapicWindow {

  /** Redirection entries of the 82093AA; the table occupies registers 0x10 to 0x3f. */
  const LINES: nat := 24
  const REGISTERS: nat := 0x40

  // ---------- The device ----------

  datatype Device = Device(select: nat, regs: seq<bv32>)

  ghost predicate Wf(d: Device) { |d.regs| == REGISTERS }

  /** Delivery status (bit 12) and remote IRR (bit 14) of an entry's low word are read-only. */
  const STATUS_BITS: bv32 := 0x5000

  function WriteSelect(d: Device, reg: nat): Device { d.(select := reg) }

  function ReadData(d: Device): bv32
    requires Wf(d) && d.select < REGISTERS
  {
    d.regs[d.select]
  }

  function Stored(reg: nat, current: bv32, value: bv32): bv32 {
    if reg >= 0x10 && reg % 2 == 0 then (current & STATUS_BITS) | (value & !STATUS_BITS) else value
  }

  function WriteData(d: Device, value: bv32): Device
    requires Wf(d) && 0x10 <= d.select < REGISTERS
  {
    d.(regs := d.regs[d.select := Stored(d.select, d.regs[d.select], value)])
  }

  // ---------- Redirection entries ----------

  /** ioapic_redir_entry_t; `reserved` is its four reserved bytes as one little-endian word. */
  datatype Entry = Entry(vector: bv8, deliveryMode: bv3, destMode: bv1, deliveryStatus: bv1, polarity: bv1,
                         remoteIrr: bv1, trigMode: bv1, mask: bv1, reserve: bv7, reserved: bv32, destId: bv8)

  /** The record seen as two 32-bit words. */
  function LowWord(e: Entry): bv32 {
    (e.vector as bv32) | (e.deliveryMode as bv32 << 8) | (e.destMode as bv32 << 11) | (e.deliveryStatus as bv32 << 12)
    | (e.polarity as bv32 << 13) | (e.remoteIrr as bv32 << 14) | (e.trigMode as bv32 << 15) | (e.mask as bv32 << 16)
    | (e.reserve as bv32 << 17) | ((e.reserved & 0xff) << 24)
  }

  function HighWord(e: Entry): bv32 {
    HighOf(e.reserved, e.destId)
  }

  function HighOf(reserved: bv32, destId: bv8): bv32 {
    (reserved >> 8) | (destId as bv32 << 24)
  }

  function FromWords(low: bv32, high: bv32): Entry {
    Entry((low & 0xff) as bv8, ((low >> 8) & 0x7) as bv3, ((low >> 11) & 1) as bv1, ((low >> 12) & 1) as bv1,
          ((low >> 13) & 1) as bv1, ((low >> 14) & 1) as bv1, ((low >> 15) & 1) as bv1, ((low >> 16) & 1) as bv1,
          ((low >> 17) & 0x7f) as bv7, ((high & 0xff_ffff) << 8) | (low >> 24), (high >> 24) as bv8)
  }

  /** The record is its two words: packing and unpacking are inverse both ways. */
  lemma WordsOfEntry(e: Entry)
    ensures FromWords(LowWord(e), HighWord(e)) == e
  {
  }

  lemma EntryOfWords(low: bv32, high: bv32)
    ensures LowWord(FromWords(low, high)) == low && HighWord(FromWords(low, high)) == high
  {
  }

  /** Where the fields lie in the two words (section 3.2.4 of the 82093AA datasheet): the vector in bits
      0-7, then delivery mode 8-10, destination mode 11, delivery status 12, polarity 13, remote IRR 14,
      trigger mode 15, mask 16, and the destination in bits 24-31 of the high word. */
  lemma FieldsByNumber(e: Entry)
    ensures var low, high := LowWord(e), HighWord(e);
            && low & 0xff == e.vector as bv32 && (low >> 8) & 7 == e.deliveryMode as bv32
            && (low & 0x800 != 0 <==> e.destMode == 1) && (low & 0x1000 != 0 <==> e.deliveryStatus == 1)
            && (low & 0x2000 != 0 <==> e.polarity == 1) && (low & 0x4000 != 0 <==> e.remoteIrr == 1)
            && (low & 0x8000 != 0 <==> e.trigMode == 1) && (low & 0x1_0000 != 0 <==> e.mask == 1)
            && (low >> 17) & 0x7f == e.reserve as bv32 && low >> 24 == e.reserved & 0xff
            && high & 0xff_ffff == e.reserved >> 8 && high >> 24 == e.destId as bv32
  {
    hide LowWord, HighWord;
    EightBits(e);
    ThreeBits(e);
    DestModeBit(e);
    DeliveryStatusBit(e);
    PolarityBit(e);
    RemoteIrrBit(e);
    TrigModeBit(e);
    MaskBit(e);
    UpperBits(e);
    HighBits(e);
  }

  lemma EightBits(e: Entry)
    ensures LowWord(e) & 0xff == e.vector as bv32
  {
  }

  lemma ThreeBits(e: Entry)
    ensures (LowWord(e) >> 8) & 7 == e.deliveryMode as bv32
  {
  }

  lemma DestModeBit(e: Entry)
    ensures LowWord(e) & 0x800 != 0 <==> e.destMode == 1
  {
  }

  lemma DeliveryStatusBit(e: Entry)
    ensures LowWord(e) & 0x1000 != 0 <==> e.deliveryStatus == 1
  {
  }

  lemma PolarityBit(e: Entry)
    ensures LowWord(e) & 0x2000 != 0 <==> e.polarity == 1
  {
  }

  lemma RemoteIrrBit(e: Entry)
    ensures LowWord(e) & 0x4000 != 0 <==> e.remoteIrr == 1
  {
  }

  lemma TrigModeBit(e: Entry)
    ensures LowWord(e) & 0x8000 != 0 <==> e.trigMode == 1
  {
  }

  lemma MaskBit(e: Entry)
    ensures LowWord(e) & 0x1_0000 != 0 <==> e.mask == 1
  {
  }

  lemma UpperBits(e: Entry)
    ensures (LowWord(e) >> 17) & 0x7f == e.reserve as bv32 && LowWord(e) >> 24 == e.reserved & 0xff
  {
  }

  lemma HighBits(e: Entry)
    ensures HighWord(e) & 0xff_ffff == e.reserved >> 8 && HighWord(e) >> 24 == e.destId as bv32
  {
    hide HighOf;
    HighParts(e.reserved, e.destId);
  }

  lemma HighParts(reserved: bv32, destId: bv8)
    ensures HighOf(reserved, destId) & 0xff_ffff == reserved >> 8 && HighOf(reserved, destId) >> 24 == destId as bv32
  {
  }

  /** Writing entry e over entry `current`: the status bits stay the device's own. */
  function Merge(current: Entry, e: Entry): Entry {
    e.(deliveryStatus := current.deliveryStatus, remoteIrr := current.remoteIrr)
  }

  lemma MergeWords(low: bv32, high: bv32, e: Entry)
    ensures FromWords((low & STATUS_BITS) | (LowWord(e) & !STATUS_BITS), HighWord(e)) == Merge(FromWords(low, high), e)
  {
  }

  lemma StoredIsMerge(line: nat, low: bv32, high: bv32, e: Entry)
    ensures FromWords(Stored(LowIndex(line), low, LowWord(e)), Stored(LowIndex(line) + 1, high, HighWord(e)))
            == Merge(FromWords(low, high), e)
  {
    hide FromWords, LowWord, HighWord;
    MergeWords(low, high, e);
  }

  // ---------- The table the window presents ----------

  predicate InRange(line: nat) { line < LINES }

  function LowIndex(line: nat): nat { 0x10 + line * 2 }

  function EntryAt(d: Device, line: nat): Entry
    requires Wf(d) && InRange(line)
  {
    FromWords(d.regs[LowIndex(line)], d.regs[LowIndex(line) + 1])
  }

  function TableOf(d: Device): (t: seq<Entry>)
    requires Wf(d)
    ensures |t| == LINES
  {
    seq(LINES, line requires 0 <= line < LINES => EntryAt(d, line))
  }

  // ---------- The driver's operations, register by register ----------

  /** ioapic_read_reg; the result is the device's new selector and the value. */
  function ReadReg(d: Device, reg: nat): (Device, bv32)
    requires Wf(d) && reg < REGISTERS
  {
    var d1 := WriteSelect(d, reg);
    (d1, ReadData(d1))
  }

  /** ioapic_write_reg */
  function WriteReg(d: Device, reg: nat, value: bv32): (d': Device)
    requires Wf(d) && 0x10 <= reg < REGISTERS
    ensures Wf(d')
  {
    WriteData(WriteSelect(d, reg), value)
  }

  function WriteRedir(d: Device, line: nat, e: Entry): (d': Device)
    requires Wf(d) && InRange(line)
    ensures Wf(d')
  {
    WriteReg(WriteReg(d, LowIndex(line), LowWord(e)), LowIndex(line) + 1, HighWord(e))
  }

  function ReadRedir(d: Device, line: nat): (r: (Device, Entry))
    requires Wf(d) && InRange(line)
    ensures Wf(r.0)
  {
    var (d1, low) := ReadReg(d, LowIndex(line));
    var (d2, high) := ReadReg(d1, LowIndex(line) + 1);
    (d2, FromWords(low, high))
  }

  /** The low bit of an int assigned to a one-bit field. */
  function Bit(x: int): bv1 { (x % 2) as bv1 }

  function SetMask(d: Device, line: nat, mask: int): (d': Device)
    requires Wf(d) && InRange(line)
    ensures Wf(d')
  {
    var (d1, e) := ReadRedir(d, line);
    WriteRedir(d1, line, e.(mask := Bit(mask)))
  }

  /** The initializer of set_ioapic_redir: fields it does not name are 0. */
  function FreshEntry(vec: nat, trigMode: int): Entry {
    Entry((vec % 256) as bv8, 0, 0, 0, 0, 0, Bit(trigMode), 0, 0, 0, 0)
  }

  /** The low word set_ioapic_redir writes: the vector and, for a level trigger, bit 15. */
  function FreshWord(vec: nat, trigMode: int): bv32 {
    (vec % 256) as bv32 | (if trigMode % 2 == 1 then 0x8000 else 0)
  }

  lemma SmallWord(v: nat)
    requires v < 256
    ensures (v as bv8) as bv32 == v as bv32
  {
  }

  lemma FreshEntryWords(vec: nat, trigMode: int)
    ensures LowWord(FreshEntry(vec, trigMode)) == FreshWord(vec, trigMode) && HighWord(FreshEntry(vec, trigMode)) == 0
  {
    hide LowWord, HighWord, Bit, FreshWord;
    SmallWord(vec % 256);
    BitValues(trigMode);
    PlainEntryWords((vec % 256) as bv8, Bit(trigMode));
    hide FreshEntry;
    FreshWordIs(vec, trigMode);
  }

  lemma FreshWordIs(vec: nat, trigMode: int)
    ensures FreshWord(vec, trigMode) == (vec % 256) as bv32 | (if trigMode % 2 == 1 then 0x8000 else 0)
  {
  }

  lemma PlainEntryWords(v: bv8, t: bv1)
    ensures var e := Entry(v, 0, 0, 0, 0, 0, t, 0, 0, 0, 0);
            LowWord(e) == v as bv32 | (if t == 1 then 0x8000 else 0) && HighWord(e) == 0
  {
  }

  lemma BitValues(x: int)
    ensures Bit(x) == if x % 2 == 1 then 1 else 0
  {
  }

  // ---------- Refinement of a plain table ----------

  /** Writing one entry through the window is writing one element of the table; the status bits of
      that entry keep the device's values, and everything else is untouched. */
  lemma WriteRedirIsTableWrite(d: Device, line: nat, e: Entry)
    requires Wf(d) && InRange(line)
    ensures var d' := WriteRedir(d, line, e);
            && TableOf(d') == TableOf(d)[line := Merge(EntryAt(d, line), e)]
            && d'.regs[..0x10] == d.regs[..0x10]
  {
    hide FromWords, LowWord, HighWord, Stored;
    var d', low := WriteRedir(d, line, e), LowIndex(line);
    StoredIsMerge(line, d.regs[low], d.regs[low + 1], e);
    assert EntryAt(d', line) == Merge(EntryAt(d, line), e);
    forall l | 0 <= l < LINES && l != line ensures EntryAt(d', l) == EntryAt(d, l) {
    }
    assert TableOf(d') == TableOf(d)[line := Merge(EntryAt(d, line), e)];
  }

  lemma ReadRedirIsTableRead(d: Device, line: nat)
    requires Wf(d) && InRange(line)
    ensures var (d', e) := ReadRedir(d, line); d'.regs == d.regs && e == TableOf(d)[line]
  {
  }

  /** set_mask changes bit 16 of its own line's entry and nothing else in the table. */
  lemma SetMaskFlipsOneBit(d: Device, line: nat, mask: int)
    requires Wf(d) && InRange(line)
    ensures TableOf(SetMask(d, line, mask)) == TableOf(d)[line := TableOf(d)[line].(mask := Bit(mask))]
  {
    var (d1, e) := ReadRedir(d, line);
    ReadRedirIsTableRead(d, line);
    WriteRedirIsTableWrite(d1, line, e.(mask := Bit(mask)));
    assert TableOf(d1) == TableOf(d);
  }

  /** Operations on lines; Status is the device changing the status bits of a line on its own. */
  datatype Op =
    | OpSetRedir(line: nat, vec: nat, trigMode: int)
    | OpWriteRedir(line: nat, entry: Entry)
    | OpSetMask(line: nat, mask: int)
    | OpReadRedir(line: nat)
    | OpStatus(line: nat, deliveryStatus: bv1, remoteIrr: bv1)

  function DeviceStatus(word: bv32, deliveryStatus: bv1, remoteIrr: bv1): bv32 {
    (word & !STATUS_BITS) | (deliveryStatus as bv32 << 12) | (remoteIrr as bv32 << 14)
  }

  /** An operation on the device, and the entries it returned. */
  function Perform(d: Device, op: Op): (r: (Device, seq<Entry>))
    requires Wf(d) && InRange(op.line)
    ensures Wf(r.0)
  {
    match op
    case OpSetRedir(line, vec, trigMode) => (WriteRedir(d, line, FreshEntry(vec, trigMode)), [])
    case OpWriteRedir(line, e) => (WriteRedir(d, line, e), [])
    case OpSetMask(line, mask) => (SetMask(d, line, mask), [])
    case OpReadRedir(line) => var (d', e) := ReadRedir(d, line); (d', [e])
    case OpStatus(line, ds, irr) =>
      (d.(regs := d.regs[LowIndex(line) := DeviceStatus(d.regs[LowIndex(line)], ds, irr)]), [])
  }

  /** The same operation on a plain table of entries. */
  function PerformOnTable(t: seq<Entry>, op: Op): (r: (seq<Entry>, seq<Entry>))
    requires |t| == LINES && InRange(op.line)
    ensures |r.0| == LINES
  {
    match op
    case OpSetRedir(line, vec, trigMode) => (t[line := Merge(t[line], FreshEntry(vec, trigMode))], [])
    case OpWriteRedir(line, e) => (t[line := Merge(t[line], e)], [])
    case OpSetMask(line, mask) => (t[line := t[line].(mask := Bit(mask))], [])
    case OpReadRedir(line) => (t, [t[line]])
    case OpStatus(line, ds, irr) => (t[line := t[line].(deliveryStatus := ds, remoteIrr := irr)], [])
  }

  function PerformAll(d: Device, ops: seq<Op>): (r: (Device, seq<Entry>))
    requires Wf(d) && forall i :: 0 <= i < |ops| ==> InRange(ops[i].line)
    ensures Wf(r.0)
    decreases |ops|
  {
    if ops == [] then (d, [])
    else
      var (d1, out1) := Perform(d, ops[0]);
      var (d2, out2) := PerformAll(d1, ops[1..]);
      (d2, out1 + out2)
  }

  function PerformAllOnTable(t: seq<Entry>, ops: seq<Op>): (r: (seq<Entry>, seq<Entry>))
    requires |t| == LINES && forall i :: 0 <= i < |ops| ==> InRange(ops[i].line)
    ensures |r.0| == LINES
    decreases |ops|
  {
    if ops == [] then (t, [])
    else
      var (t1, out1) := PerformOnTable(t, ops[0]);
      var (t2, out2) := PerformAllOnTable(t1, ops[1..]);
      (t2, out1 + out2)
  }

  lemma StatusWord(low: bv32, high: bv32, ds: bv1, irr: bv1)
    ensures FromWords(DeviceStatus(low, ds, irr), high) == FromWords(low, high).(deliveryStatus := ds, remoteIrr := irr)
  {
  }

  lemma PerformRefines(d: Device, op: Op)
    requires Wf(d) && InRange(op.line)
    ensures TableOf(Perform(d, op).0) == PerformOnTable(TableOf(d), op).0
    ensures Perform(d, op).1 == PerformOnTable(TableOf(d), op).1
  {
    hide FromWords, LowWord, HighWord, DeviceStatus, Stored;
    match op
    case OpSetRedir(line, vec, trigMode) => WriteRedirIsTableWrite(d, line, FreshEntry(vec, trigMode));
    case OpWriteRedir(line, e) => WriteRedirIsTableWrite(d, line, e);
    case OpSetMask(line, mask) => SetMaskFlipsOneBit(d, line, mask);
    case OpReadRedir(line) =>
      ReadRedirIsTableRead(d, line);
      assert TableOf(Perform(d, op).0) == TableOf(d);
    case OpStatus(line, ds, irr) =>
      StatusWord(d.regs[LowIndex(line)], d.regs[LowIndex(line) + 1], ds, irr);
      var d' := Perform(d, op).0;
      forall l | 0 <= l < LINES ensures TableOf(d')[l] == PerformOnTable(TableOf(d), op).0[l] {
      }
  }

  /** Any sequence of operations on in-range lines, from any selector value and any register contents,
      behaves like the same operations on a plain table, and reads back the same entries. */
  lemma {:induction false} WindowRefinesTable(d: Device, ops: seq<Op>)
    requires Wf(d) && forall i :: 0 <= i < |ops| ==> InRange(ops[i].line)
    ensures TableOf(PerformAll(d, ops).0) == PerformAllOnTable(TableOf(d), ops).0
    ensures PerformAll(d, ops).1 == PerformAllOnTable(TableOf(d), ops).1
    decreases |ops|
  {
    if ops != [] {
      PerformRefines(d, ops[0]);
      WindowRefinesTable(Perform(d, ops[0]).0, ops[1..]);
    }
  }

  // ---------- The window is not re-entrant ----------

  /** The device and the two words set_mask has loaded so far. */
  datatype Progress = Progress(dev: Device, low: bv32, high: bv32)

  /** Access number n of set_mask's eight: each of its two reads and two writes is a selector write and
      a data access, first for the low word and then for the high word. */
  function Access(p: Progress, line: nat, mask: int, n: nat): (p': Progress)
    requires Wf(p.dev) && InRange(line) && 1 <= n <= 8 && (n % 2 == 0 ==> 0x10 <= p.dev.select < REGISTERS)
    ensures Wf(p'.dev) && (n % 2 == 1 ==> 0x10 <= p'.dev.select < REGISTERS)
  {
    var e := FromWords(p.low, p.high).(mask := Bit(mask));
    if n == 2 then p.(low := ReadData(p.dev))
    else if n == 4 then p.(high := ReadData(p.dev))
    else if n == 6 then p.(dev := WriteData(p.dev, LowWord(e)))
    else if n == 8 then p.(dev := WriteData(p.dev, HighWord(e)))
    else p.(dev := WriteSelect(p.dev, if n == 1 || n == 5 then LowIndex(line) else LowIndex(line) + 1))
  }

  /** Accesses done+1 .. upTo. */
  function Accesses(p: Progress, line: nat, mask: int, done: nat, upTo: nat): (p': Progress)
    requires Wf(p.dev) && InRange(line) && done <= upTo <= 8 && (done % 2 == 1 ==> 0x10 <= p.dev.select < REGISTERS)
    ensures Wf(p'.dev) && (upTo % 2 == 1 ==> 0x10 <= p'.dev.select < REGISTERS)
    decreases upTo - done
  {
    if done == upTo then p else Accesses(Access(p, line, mask, done + 1), line, mask, done + 1, upTo)
  }

  /** set_mask interrupted after k accesses by a handler that itself runs set_mask (as `ioapic_isr_83`
      does) with interrupts disabled. */
  function InterruptedSetMask(d: Device, line: nat, mask: int, handlerLine: nat, handlerMask: int, k: nat): (d': Device)
    requires Wf(d) && InRange(line) && InRange(handlerLine) && k <= 8
    ensures Wf(d')
  {
    var p := Accesses(Progress(d, 0, 0), line, mask, 0, k);
    SelectorAfterSetMask(p.dev, handlerLine, handlerMask);
    Accesses(p.(dev := SetMask(p.dev, handlerLine, handlerMask)), line, mask, k, 8).dev
  }

  /** `word` with its mask bit replaced. */
  function MaskedWord(word: bv32, mask: bv1): bv32 {
    (word & 0xfffe_ffff) | (mask as bv32 << 16)
  }

  /** What storing MaskedWord(seen, mask) over `own` leaves: the status bits are not written. */
  function MergedWord(own: bv32, seen: bv32, mask: bv1): bv32 {
    (own & STATUS_BITS) | (seen & 0xfffe_afff) | (mask as bv32 << 16)
  }

  /** The two words agree outside the mask bit and the read-only status bits. */
  predicate AgreeApart(x: bv32, y: bv32) {
    x & 0xfffe_afff == y & 0xfffe_afff
  }

  lemma WordsOfMasked(low: bv32, high: bv32, mask: bv1)
    ensures LowWord(FromWords(low, high).(mask := mask)) == MaskedWord(low, mask)
    ensures HighWord(FromWords(low, high).(mask := mask)) == high
  {
  }

  lemma StoredMasked(reg: nat, own: bv32, seen: bv32, mask: bv1)
    requires reg >= 0x10
    ensures Stored(reg, own, MaskedWord(seen, mask)) == if reg % 2 == 0 then MergedWord(own, seen, mask) else MaskedWord(seen, mask)
  {
  }

  lemma MergedIsMasked(own: bv32, mask: bv1)
    ensures MergedWord(own, own, mask) == MaskedWord(own, mask)
  {
  }

  lemma MaskedTwice(word: bv32, m: bv1, n: bv1, seen: bv32)
    ensures MaskedWord(MaskedWord(word, m), n) == MaskedWord(word, n)
    ensures MergedWord(MaskedWord(word, m), seen, n) == MergedWord(word, seen, n)
  {
  }

  lemma MergedIfAgree(own: bv32, seen: bv32, mask: bv1)
    requires AgreeApart(seen, own)
    ensures MergedWord(own, seen, mask) == MaskedWord(own, mask)
  {
  }

  lemma AgreeIfMerged(own: bv32, seen: bv32, m: bv1, n: bv1)
    requires MergedWord(own, seen, m) == MaskedWord(own, n)
    ensures AgreeApart(seen, own)
  {
  }

  /** Registers after a write of MaskedWord(seen, mask) to register `reg`. */
  lemma WriteMasked(d: Device, seen: bv32, high: bv32, mask: bv1)
    requires Wf(d) && 0x10 <= d.select < REGISTERS
    ensures var own := d.regs[d.select];
            WriteData(d, LowWord(FromWords(seen, high).(mask := mask)))
            == d.(regs := d.regs[d.select := if d.select % 2 == 0 then MergedWord(own, seen, mask) else MaskedWord(seen, mask)])
  {
    hide FromWords, LowWord, Stored, MergedWord, MaskedWord;
    WordsOfMasked(seen, high, mask);
    StoredMasked(d.select, d.regs[d.select], seen, mask);
  }

  lemma WriteHigh(d: Device, low: bv32, high: bv32, mask: bv1)
    requires Wf(d) && 0x10 <= d.select < REGISTERS && d.select % 2 == 1
    ensures WriteData(d, HighWord(FromWords(low, high).(mask := mask))) == d.(regs := d.regs[d.select := high])
  {
    hide FromWords, HighWord;
    WordsOfMasked(low, high, mask);
  }

  /** After set_mask one register has changed and the selector is left on its line's high word. */
  lemma SelectorAfterSetMask(d: Device, line: nat, mask: int)
    requires Wf(d) && InRange(line)
    ensures var low := LowIndex(line);
            SetMask(d, line, mask) == Device(low + 1, d.regs[low := MaskedWord(d.regs[low], Bit(mask))])
  {
    hide FromWords, LowWord, HighWord, MergedWord, MaskedWord, Stored;
    var low := LowIndex(line);
    var l, h, m := d.regs[low], d.regs[low + 1], Bit(mask);
    var d1 := Device(low, d.regs);
    WriteMasked(d1, l, h, m);
    MergedIsMasked(l, m);
    var d2 := Device(low + 1, d.regs[low := MaskedWord(l, m)]);
    WriteHigh(d2, l, h, m);
    assert d2.regs[low + 1 := h] == d2.regs;
  }

  /** Registers with the mask bit of one line replaced: all that set_mask does to them. */
  function Masked(r: seq<bv32>, line: nat, mask: int): (r': seq<bv32>)
    requires |r| == REGISTERS && InRange(line)
    ensures |r'| == REGISTERS
  {
    r[LowIndex(line) := MaskedWord(r[LowIndex(line)], Bit(mask))]
  }

  /** Where set_mask stands after k undisturbed accesses. */
  function Reached(d: Device, line: nat, mask: int, k: nat): (p: Progress)
    requires Wf(d) && InRange(line) && k <= 8
    ensures Wf(p.dev)
  {
    var low := LowIndex(line);
    Progress(Device(if k == 0 then d.select else if k <= 2 || k == 5 || k == 6 then low else low + 1,
                    if k >= 6 then Masked(d.regs, line, mask) else d.regs),
             if k >= 2 then d.regs[low] else 0, if k >= 4 then d.regs[low + 1] else 0)
  }

  lemma AccessReaches(d: Device, line: nat, mask: int, k: nat)
    requires Wf(d) && InRange(line) && 1 <= k <= 8
    ensures Access(Reached(d, line, mask, k - 1), line, mask, k) == Reached(d, line, mask, k)
  {
    hide FromWords, LowWord, HighWord, MergedWord, MaskedWord, Stored, WriteData;
    var p, m := Reached(d, line, mask, k - 1), Bit(mask);
    if k == 6 {
      WriteMasked(p.dev, p.low, p.high, m);
      MergedIsMasked(p.low, m);
    } else if k == 8 {
      WriteHigh(p.dev, p.low, p.high, m);
      assert p.dev.regs[p.dev.select := p.high] == p.dev.regs;
    }
  }

  lemma {:induction false} AccessesReach(d: Device, line: nat, mask: int, done: nat, upTo: nat)
    requires Wf(d) && InRange(line) && done <= upTo <= 8
    ensures Accesses(Reached(d, line, mask, done), line, mask, done, upTo) == Reached(d, line, mask, upTo)
    decreases upTo - done
  {
    hide Access, Reached;
    assert Wf(Reached(d, line, mask, done).dev);
    if done < upTo {
      AccessReaches(d, line, mask, done + 1);
      AccessesReach(d, line, mask, done + 1, upTo);
    }
  }

  /** set_mask is its eight accesses. */
  lemma SetMaskIsEightAccesses(d: Device, line: nat, mask: int)
    requires Wf(d) && InRange(line)
    ensures Accesses(Progress(d, 0, 0), line, mask, 0, 8).dev == SetMask(d, line, mask)
  {
    hide Accesses, SetMask, MaskedWord;
    assert Progress(d, 0, 0) == Reached(d, line, mask, 0);
    AccessesReach(d, line, mask, 0, 8);
    SelectorAfterSetMask(d, line, mask);
  }

  /** The registers the accesses after the k-th leave, when the selector was left on some high word. */
  function Finished(p: Progress, line: nat, mask: int, k: nat): (r: seq<bv32>)
    requires Wf(p.dev) && InRange(line) && 1 <= k <= 7 && 0x10 <= p.dev.select < REGISTERS
    ensures |r| == REGISTERS
    decreases 8 - k
  {
    var r, sel, low, m := p.dev.regs, p.dev.select, LowIndex(line), Bit(mask);
    if k == 7 then r[sel := p.high]
    else if k == 6 then r[low + 1 := p.high]
    else if k == 5 then r[sel := MaskedWord(p.low, m)][low + 1 := p.high]
    else if k == 4 then r[low := MergedWord(r[low], p.low, m)][low + 1 := p.high]
    else if k == 3 then Finished(p.(high := r[sel]), line, mask, 4)
    else if k == 2 then Finished(p.(high := r[low + 1]), line, mask, 4)
    else Finished(p.(low := r[sel]), line, mask, 2)
  }

  lemma FinishLast(p: Progress, line: nat, mask: int, k: nat)
    requires Wf(p.dev) && InRange(line) && 6 <= k <= 7 && 0x10 <= p.dev.select < REGISTERS && p.dev.select % 2 == 1
    ensures Accesses(p, line, mask, k, 8).dev.regs == Finished(p, line, mask, k)
  {
    hide FromWords, HighWord, WriteData;
    WriteHigh(if k == 7 then p.dev else WriteSelect(p.dev, LowIndex(line) + 1), p.low, p.high, Bit(mask));
  }

  lemma FinishWrites(p: Progress, line: nat, mask: int, k: nat)
    requires Wf(p.dev) && InRange(line) && 4 <= k <= 5 && 0x10 <= p.dev.select < REGISTERS && p.dev.select % 2 == 1
    ensures Accesses(p, line, mask, k, 8).dev.regs == Finished(p, line, mask, k)
  {
    hide FromWords, LowWord, HighWord, WriteData, MaskedWord, MergedWord;
    var p5 := if k == 4 then Access(p, line, mask, 5) else p;
    WriteMasked(p5.dev, p.low, p.high, Bit(mask));
    var p6 := Access(p5, line, mask, 6);
    WriteHigh(WriteSelect(p6.dev, LowIndex(line) + 1), p.low, p.high, Bit(mask));
    assert Accesses(p, line, mask, k, 8) == Accesses(p5, line, mask, 5, 8) == Accesses(p6, line, mask, 6, 8);
  }

  lemma FinishAll(p: Progress, line: nat, mask: int, k: nat)
    requires Wf(p.dev) && InRange(line) && 1 <= k <= 7 && 0x10 <= p.dev.select < REGISTERS && p.dev.select % 2 == 1
    ensures Accesses(p, line, mask, k, 8).dev.regs == Finished(p, line, mask, k)
    decreases 8 - k
  {
    hide MaskedWord, MergedWord;
    if k >= 6 {
      FinishLast(p, line, mask, k);
    } else if k >= 4 {
      FinishWrites(p, line, mask, k);
    } else {
      hide FromWords, LowWord, HighWord, WriteData;
      var p1 := Access(p, line, mask, k + 1);
      if k == 2 {
        var p2 := Access(p1, line, mask, 4);
        assert Accesses(p, line, mask, 2, 8) == Accesses(p1, line, mask, 3, 8) == Accesses(p2, line, mask, 4, 8);
        FinishAll(p2, line, mask, 4);
      } else {
        assert Accesses(p, line, mask, k, 8) == Accesses(p1, line, mask, k + 1, 8);
        FinishAll(p1, line, mask, k + 1);
      }
    }
  }

  /** What set_mask leaves in the registers when the handler runs after its k-th access.  After a
      selector write the next data access goes to the handler's high word instead. */
  function LeftBehind(r: seq<bv32>, line: nat, mask: int, handlerLine: nat, handlerMask: int, k: nat): (r': seq<bv32>)
    requires |r| == REGISTERS && InRange(line) && InRange(handlerLine) && k <= 8
    ensures |r'| == REGISTERS
  {
    var low, other, m := LowIndex(line), LowIndex(handlerLine) + 1, Bit(mask);
    var handlerOnly := Masked(r, handlerLine, handlerMask);
    var handlerFirst, mainFirst := Masked(handlerOnly, line, mask), Masked(Masked(r, line, mask), handlerLine, handlerMask);
    if k == 1 then handlerOnly[low := MergedWord(r[low], r[other], m)]
    else if k == 3 then handlerFirst[low + 1 := r[other]]
    else if k == 5 then handlerOnly[other := MaskedWord(r[low], m)][low + 1 := r[low + 1]]
    else if k == 7 then mainFirst[other := r[low + 1]]
    else if k <= 4 then handlerFirst
    else mainFirst
  }

  /** The handler's set_mask as seen by the interrupted one. */
  function Resumed(d: Device, line: nat, mask: int, handlerLine: nat, handlerMask: int, k: nat): (p: Progress)
    requires Wf(d) && InRange(line) && InRange(handlerLine) && k <= 8
    ensures Wf(p.dev) && p.dev.select == LowIndex(handlerLine) + 1
  {
    var p := Reached(d, line, mask, k);
    p.(dev := Device(LowIndex(handlerLine) + 1, Masked(p.dev.regs, handlerLine, handlerMask)))
  }

  lemma EarlyFinish(d: Device, line: nat, mask: int, handlerLine: nat, handlerMask: int, k: nat)
    requires Wf(d) && InRange(line) && InRange(handlerLine) && 1 <= k <= 4
    ensures Finished(Resumed(d, line, mask, handlerLine, handlerMask, k), line, mask, k)
            == LeftBehind(d.regs, line, mask, handlerLine, handlerMask, k)
  {
    hide MaskedWord, MergedWord;
    var r, low, other, n, m := d.regs, LowIndex(line), LowIndex(handlerLine) + 1, Bit(handlerMask), Bit(mask);
    var seen := if k == 1 then r[other] else r[low];
    MergedIsMasked(r[low], m);
    MaskedTwice(r[low], n, m, seen);
    var r1 := Masked(r, handlerLine, handlerMask);
    assert MergedWord(r1[low], seen, m) == MergedWord(r[low], seen, m);
    assert r1[low + 1] == r[low + 1] && r1[other] == r[other];
    var r2 := r1[low := MergedWord(r[low], seen, m)];
    assert r2[low + 1 := r[low + 1]] == r2;
  }

  lemma LateFinish(d: Device, line: nat, mask: int, handlerLine: nat, handlerMask: int, k: nat)
    requires Wf(d) && InRange(line) && InRange(handlerLine) && 5 <= k <= 7
    ensures Finished(Resumed(d, line, mask, handlerLine, handlerMask, k), line, mask, k)
            == LeftBehind(d.regs, line, mask, handlerLine, handlerMask, k)
  {
    hide MaskedWord;
    if k == 6 {
      var r := Masked(Masked(d.regs, line, mask), handlerLine, handlerMask);
      assert r[LowIndex(line) + 1] == d.regs[LowIndex(line) + 1];
      assert r[LowIndex(line) + 1 := d.regs[LowIndex(line) + 1]] == r;
    }
  }

  /** The outcome of every interruption, register by register. */
  lemma InterruptionLeaves(d: Device, line: nat, mask: int, handlerLine: nat, handlerMask: int, k: nat)
    requires Wf(d) && InRange(line) && InRange(handlerLine) && 1 <= k <= 7
    ensures InterruptedSetMask(d, line, mask, handlerLine, handlerMask, k).regs
            == LeftBehind(d.regs, line, mask, handlerLine, handlerMask, k)
  {
    hide Accesses, SetMask, MaskedWord, MergedWord, Finished, LeftBehind;
    AccessesReach(d, line, mask, 0, k);
    var p, p' := Reached(d, line, mask, k), Resumed(d, line, mask, handlerLine, handlerMask, k);
    assert Progress(d, 0, 0) == Reached(d, line, mask, 0);
    SelectorAfterSetMask(p.dev, handlerLine, handlerMask);
    assert p.(dev := SetMask(p.dev, handlerLine, handlerMask)) == p';
    FinishAll(p', line, mask, k);
    if k <= 4 {
      EarlyFinish(d, line, mask, handlerLine, handlerMask, k);
    } else {
      LateFinish(d, line, mask, handlerLine, handlerMask, k);
    }
  }

  lemma SameTable(a: Device, b: Device)
    requires Wf(a) && Wf(b) && a.regs[..0x10] == b.regs[..0x10]
    ensures TableOf(a) == TableOf(b) <==> a.regs == b.regs
  {
    hide FromWords;
    if TableOf(a) == TableOf(b) {
      forall i | 0x10 <= i < REGISTERS ensures a.regs[i] == b.regs[i] {
        var line := (i - 0x10) / 2;
        assert TableOf(a)[line] == TableOf(b)[line];
        EntryOfWords(a.regs[LowIndex(line)], a.regs[LowIndex(line) + 1]);
        EntryOfWords(b.regs[LowIndex(line)], b.regs[LowIndex(line) + 1]);
        assert i == LowIndex(line) || i == LowIndex(line) + 1;
      }
      forall i | 0 <= i < 0x10 ensures a.regs[i] == b.regs[i] {
        assert a.regs[..0x10][i] == b.regs[..0x10][i];
      }
    }
  }

  /** The two calls one after the other. */
  function InTurn(d: Device, line1: nat, mask1: int, line2: nat, mask2: int): (d': Device)
    requires Wf(d) && InRange(line1) && InRange(line2)
    ensures Wf(d')
  {
    SetMask(SetMask(d, line1, mask1), line2, mask2)
  }

  /** What decides whether a handler after access k does harm, all of it known before the call: after a
      selector write, the handler's high word must already hold what the next data access would read or
      write at the register it was meant for. */
  predicate Harmless(d: Device, line: nat, mask: int, handlerLine: nat, k: nat)
    requires Wf(d) && InRange(line) && InRange(handlerLine)
  {
    var own, ownHigh, other := d.regs[LowIndex(line)], d.regs[LowIndex(line) + 1], d.regs[LowIndex(handlerLine) + 1];
    && (k == 1 ==> AgreeApart(other, own))
    && (k == 3 || k == 7 ==> other == ownHigh)
    && (k == 5 && line != handlerLine ==> other == own && own == MaskedWord(own, Bit(mask)))
  }

  lemma HarmlessLeaves(d: Device, line: nat, mask: int, handlerLine: nat, handlerMask: int, k: nat)
    requires Wf(d) && InRange(line) && InRange(handlerLine) && 1 <= k <= 7 && Harmless(d, line, mask, handlerLine, k)
    ensures LeftBehind(d.regs, line, mask, handlerLine, handlerMask, k)
            == if k <= 4 then Masked(Masked(d.regs, handlerLine, handlerMask), line, mask)
               else Masked(Masked(d.regs, line, mask), handlerLine, handlerMask)
  {
    hide MaskedWord, MergedWord, AgreeApart;
    var r, low, n, m := d.regs, LowIndex(line), Bit(handlerMask), Bit(mask);
    MaskedTwice(r[low], n, m, r[low]);
    MaskedTwice(r[low], m, n, r[low]);
    if k == 1 {
      MergedIfAgree(r[low], r[LowIndex(handlerLine) + 1], m);
    }
  }

  lemma HarmfulLeaves(d: Device, line: nat, mask: int, handlerLine: nat, handlerMask: int, k: nat)
    requires Wf(d) && InRange(line) && InRange(handlerLine) && 1 <= k <= 7 && !Harmless(d, line, mask, handlerLine, k)
    ensures var r := LeftBehind(d.regs, line, mask, handlerLine, handlerMask, k);
            && r != Masked(Masked(d.regs, handlerLine, handlerMask), line, mask)
            && r != Masked(Masked(d.regs, line, mask), handlerLine, handlerMask)
  {
    hide MaskedWord, MergedWord, AgreeApart;
    var r, low, other, n, m := d.regs, LowIndex(line), LowIndex(handlerLine) + 1, Bit(handlerMask), Bit(mask);
    var r', first, second := LeftBehind(r, line, mask, handlerLine, handlerMask, k),
        Masked(Masked(r, handlerLine, handlerMask), line, mask), Masked(Masked(r, line, mask), handlerLine, handlerMask);
    MaskedTwice(r[low], n, m, r[low]);
    MaskedTwice(r[low], m, n, r[low]);
    if k == 1 {
      if r'[low] == MaskedWord(r[low], m) { AgreeIfMerged(r[low], r[other], m, m); }
      if r'[low] == MaskedWord(r[low], n) { AgreeIfMerged(r[low], r[other], m, n); }
      assert r'[low] != first[low] && r'[low] != second[low];
    } else if k == 3 {
      assert r'[low + 1] != first[low + 1] && r'[low + 1] != second[low + 1];
    } else if k == 5 {
      assert r'[low] != first[low] || r'[other] != first[other];
      assert r'[low] != second[low] || r'[other] != second[other];
    } else {
      assert r'[other] != first[other] && r'[other] != second[other];
    }
  }

  /** set_mask interrupted at any point by a handler's set_mask.  Exactly when Harmless, the table is
      that of one call after the other: the handler's first if it ran before this call's third selector
      write, and this call's first if it ran later. */
  lemma InterruptionExact(d: Device, line: nat, mask: int, handlerLine: nat, handlerMask: int, k: nat)
    requires Wf(d) && InRange(line) && InRange(handlerLine) && 1 <= k <= 7
    ensures var t := TableOf(InterruptedSetMask(d, line, mask, handlerLine, handlerMask, k));
            var handlerFirst := TableOf(InTurn(d, handlerLine, handlerMask, line, mask));
            var mainFirst := TableOf(InTurn(d, line, mask, handlerLine, handlerMask));
            && (t == handlerFirst || t == mainFirst <==> Harmless(d, line, mask, handlerLine, k))
            && (Harmless(d, line, mask, handlerLine, k) ==> t == if k <= 4 then handlerFirst else mainFirst)
  {
    hide SetMask, MaskedWord, LeftBehind, Harmless, TableOf, InterruptedSetMask;
    var d' := InterruptedSetMask(d, line, mask, handlerLine, handlerMask, k);
    var first, second := InTurn(d, handlerLine, handlerMask, line, mask), InTurn(d, line, mask, handlerLine, handlerMask);
    InterruptionLeaves(d, line, mask, handlerLine, handlerMask, k);
    InTurnLeaves(d, handlerLine, handlerMask, line, mask);
    InTurnLeaves(d, line, mask, handlerLine, handlerMask);
    LowRegistersKept(d, line, mask, handlerLine, handlerMask, k);
    SameTable(d', first);
    SameTable(d', second);
    if Harmless(d, line, mask, handlerLine, k) {
      HarmlessLeaves(d, line, mask, handlerLine, handlerMask, k);
    } else {
      HarmfulLeaves(d, line, mask, handlerLine, handlerMask, k);
    }
  }

  lemma InTurnLeaves(d: Device, line1: nat, mask1: int, line2: nat, mask2: int)
    requires Wf(d) && InRange(line1) && InRange(line2)
    ensures InTurn(d, line1, mask1, line2, mask2).regs == Masked(Masked(d.regs, line1, mask1), line2, mask2)
    ensures Masked(Masked(d.regs, line1, mask1), line2, mask2)[..0x10] == d.regs[..0x10]
  {
    hide SetMask, MaskedWord;
    SelectorAfterSetMask(d, line1, mask1);
    SelectorAfterSetMask(SetMask(d, line1, mask1), line2, mask2);
  }

  lemma LowRegistersKept(d: Device, line: nat, mask: int, handlerLine: nat, handlerMask: int, k: nat)
    requires Wf(d) && InRange(line) && InRange(handlerLine) && k <= 8
    ensures LeftBehind(d.regs, line, mask, handlerLine, handlerMask, k)[..0x10] == d.regs[..0x10]
  {
    hide MaskedWord, MergedWord;
  }

  /** The setting of test_ioapic_level_retrigger_mask: line 0x0e has vector 0x83, level-triggered, and
      destination 0, and the handler masks the line the main program unmasks.  Of the seven points only
      the first destroys the entry, leaving vector 0, edge-triggered; in particular a handler that runs
      as soon as the unmasking write sends an interrupt does no harm. */
  lemma InterruptedSetMaskLosesTheEntry(d: Device, k: nat)
    requires Wf(d) && 1 <= k <= 7
    requires TableOf(d)[0x0e] == FreshEntry(0x83, 1) || TableOf(d)[0x0e] == FreshEntry(0x83, 1).(mask := 1)
    ensures Harmless(d, 0x0e, 0, 0x0e, k) <==> k != 1
    ensures k == 1 ==> TableOf(InterruptedSetMask(d, 0x0e, 0, 0x0e, 1, k))[0x0e] == FreshEntry(0, 0)
  {
    hide FromWords, MaskedWord, MergedWord, InterruptedSetMask, AgreeApart;
    var low, high := d.regs[LowIndex(0x0e)], d.regs[LowIndex(0x0e) + 1];
    assert TableOf(d)[0x0e] == FromWords(low, high);
    FreshWords(low, high);
    InterruptionLeaves(d, 0x0e, 0, 0x0e, 1, k);
  }

  lemma FreshWords(low: bv32, high: bv32)
    requires FromWords(low, high) == FreshEntry(0x83, 1) || FromWords(low, high) == FreshEntry(0x83, 1).(mask := 1)
    ensures high == 0 && !AgreeApart(high, low)
    ensures FromWords(MergedWord(low, high, Bit(0)), high) == FreshEntry(0, 0)
  {
  }

  // ---------- The registers by number ----------

  /** Register 0x10 + 2 * line takes the low word but for bits 12 and 14, register 0x11 + 2 * line the
      high word. */
  lemma WriteRedirRegisters(d: Device, line: nat, e: Entry)
    requires Wf(d) && InRange(line)
    ensures var r, low := d.regs, 0x10 + 2 * line;
            WriteRedir(d, line, e).regs
            == r[low := (r[low] & 0x5000) | (LowWord(e) & 0xffff_afff)][low + 1 := HighWord(e)]
  {
    hide LowWord, HighWord;
  }

  lemma FreshRegisters(d: Device, line: nat, vec: nat, trigMode: int)
    requires Wf(d) && InRange(line)
    ensures var r, low := WriteRedir(d, line, FreshEntry(vec, trigMode)).regs, 0x10 + 2 * line;
            && r == d.regs[low := r[low]][low + 1 := 0]
            && r[low] & 0x5000 == d.regs[low] & 0x5000
            && r[low] & 0xffff_afff == (vec % 256) as bv32 | (if trigMode % 2 == 1 then 0x8000 else 0)
  {
    hide LowWord, HighWord, FreshEntry, WriteRedir;
    WriteRedirRegisters(d, line, FreshEntry(vec, trigMode));
    FreshEntryWords(vec, trigMode);
    VectorIsSmall(vec % 256);
    PlainWordKept(d.regs[0x10 + 2 * line], (vec % 256) as bv32, trigMode % 2 == 1);
  }

  lemma VectorIsSmall(v: nat)
    requires v < 256
    ensures (v as bv32) & 0xffff_ff00 == 0
  {
    SmallWord(v);
    ByteIsSmall(v as bv8);
  }

  lemma ByteIsSmall(b: bv8)
    ensures (b as bv32) & 0xffff_ff00 == 0
  {
  }

  lemma PlainWordKept(current: bv32, vector: bv32, level: bool)
    requires vector & 0xffff_ff00 == 0
    ensures var word := vector | (if level then 0x8000 else 0);
            var stored := (current & 0x5000) | (word & 0xffff_afff);
            stored & 0x5000 == current & 0x5000 && stored & 0xffff_afff == word
  {
  }

  /** `word` with bit 16 set or cleared. */
  function WithBit16(word: bv32, on: bool): bv32 {
    if on then word | 0x1_0000 else word & 0xfffe_ffff
  }

  lemma MaskedIsBit16(word: bv32, mask: bv1)
    ensures MaskedWord(word, mask) == WithBit16(word, mask == 1)
  {
    hide MaskedWord;
    if mask == 1 {
      MaskedByOne(word);
    } else {
      MaskedByZero(word);
    }
  }

  lemma MaskedByOne(word: bv32)
    ensures MaskedWord(word, 1) == word | 0x1_0000
  {
  }

  lemma MaskedByZero(word: bv32)
    ensures MaskedWord(word, 0) == word & 0xfffe_ffff
  {
  }

  /** set_mask sets bit 16 of the line's low word for an odd argument and clears it for an even one. */
  lemma SetMaskByNumber(d: Device, line: nat, mask: int)
    requires Wf(d) && InRange(line)
    ensures var low := 0x10 + 2 * line; SetMask(d, line, mask).regs == d.regs[low := WithBit16(d.regs[low], mask % 2 == 1)]
  {
    hide SetMask, MaskedWord, WithBit16, Bit;
    SelectorAfterSetMask(d, line, mask);
    BitValues(mask);
    MaskedIsBit16(d.regs[LowIndex(line)], Bit(mask));
  }

  // ---------- The driver's functions on the live device ----------

  class Window {
    var dev: Device

    method IoapicReadReg(reg: nat) returns (v: bv32)
      requires Wf(dev) && reg < REGISTERS
      modifies this
      ensures dev == old(dev).(select := reg) && v == old(dev.regs)[reg]
    {
      dev := WriteSelect(dev, reg);
      v := ReadData(dev);
    }

    method IoapicWriteReg(reg: nat, value: bv32)
      requires Wf(dev) && 0x10 <= reg < REGISTERS
      modifies this
      ensures dev == WriteReg(old(dev), reg, value)
    {
      dev := WriteSelect(dev, reg);
      dev := WriteData(dev, value);
    }

    method IoapicWriteRedir(line: nat, e: Entry)
      requires Wf(dev) && InRange(line)
      modifies this
      ensures Wf(dev) && TableOf(dev) == TableOf(old(dev))[line := Merge(TableOf(old(dev))[line], e)]
      ensures dev == WriteRedir(old(dev), line, e)
    {
      hide FromWords, LowWord, HighWord, Stored;
      IoapicWriteReg(0x10 + line * 2 + 0, LowWord(e));
      IoapicWriteReg(0x10 + line * 2 + 1, HighWord(e));
      WriteRedirIsTableWrite(old(dev), line, e);
    }

    method IoapicReadRedir(line: nat) returns (e: Entry)
      requires Wf(dev) && InRange(line)
      modifies this
      ensures Wf(dev) && dev.regs == old(dev.regs) && e == TableOf(old(dev))[line]
    {
      hide FromWords;
      var low := IoapicReadReg(0x10 + line * 2 + 0);
      var high := IoapicReadReg(0x10 + line * 2 + 1);
      e := FromWords(low, high);
    }

    method SetIoapicRedir(line: nat, vec: nat, trigMode: int)
      requires Wf(dev) && InRange(line)
      modifies this
      ensures Wf(dev) && TableOf(dev) == TableOf(old(dev))[line := Merge(TableOf(old(dev))[line], FreshEntry(vec, trigMode))]
      ensures var low := 0x10 + 2 * line;
              && dev.regs == old(dev.regs)[low := dev.regs[low]][low + 1 := 0]
              && dev.regs[low] & 0x5000 == old(dev.regs)[low] & 0x5000
              && dev.regs[low] & 0xffff_afff == (vec % 256) as bv32 | (if trigMode % 2 == 1 then 0x8000 else 0)
    {
      FreshRegisters(dev, line, vec, trigMode);
      hide WriteRedir, TableOf;
      var e := Entry((vec % 256) as bv8, 0, 0, 0, 0, 0, Bit(trigMode), 0, 0, 0, 0);
      IoapicWriteRedir(line, e);
    }

    method SetLineMask(line: nat, mask: int)
      requires Wf(dev) && InRange(line)
      modifies this
      ensures Wf(dev) && TableOf(dev) == TableOf(old(dev))[line := TableOf(old(dev))[line].(mask := Bit(mask))]
      ensures var low := 0x10 + 2 * line;
              dev.regs == old(dev.regs)[low := WithBit16(old(dev.regs)[low], mask % 2 == 1)]
    {
      hide FromWords, LowWord, HighWord, Stored, Bit, WriteRedir;
      SetMaskByNumber(dev, line, mask);
      ghost var d := dev;
      var e := IoapicReadRedir(line);
      assert TableOf(dev) == TableOf(old(dev));
      e := e.(mask := Bit(mask));
      assert SetMask(d, line, mask).regs == WriteRedir(dev, line, e).regs by {
        ReadRedirIsTableRead(d, line);
        WriteRedirRegisters(ReadRedir(d, line).0, line, e);
        WriteRedirRegisters(dev, line, e);
      }
      IoapicWriteRedir(line, e);
    }
  }
}
