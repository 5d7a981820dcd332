/** The x86-64 setjmp and longjmp, one assignment per instruction, and the loop of `test_setjmp`. */
module Setjmp64 {
  import opened Words
  import opened ByteMemory
  import opened NonlocalJump

  /** jmp_buf: eight 8-byte words. */
  function Layout64(): Layout { Layout(8, 8, 64) }

  /** The address k bytes above a. */
  function Disp(a: u64, k: nat): u64
    requires k < TWO64
  {
    Above(TWO64, a, k)
  }

  function Six(a: nat, b: nat, c: nat, d: nat, e: nat, f: nat): seq<nat> { [a, b, c, d, e, f] }

  /** The registers the two routines touch; they leave every other register alone. */
  class Machine {
    var rip: u64
    var rax: u64
    var rbx: u64
    var rsp: u64
    var rbp: u64
    var rsi: u64
    var rdi: u64
    var r12: u64
    var r13: u64
    var r14: u64
    var r15: u64
    var mem: Memory

    ghost predicate Valid()
      reads this
    {
      mem.space == TWO64
    }

    ghost function Look(): View
      reads this
    {
      View(rip, rsp, Six(rbp, rbx, r12, r13, r14, r15), rax, mem)
    }

    /** A 64-bit load. */
    method Fetch(a: u64) returns (v: u64)
      requires Valid()
      ensures v == mem.Load(a, 8)
    {
      mem.LoadBound(a, 8);
      PowerValues();
      v := mem.Load(a, 8);
    }

    /** rsp points at the return address, rdi at the buffer. */
    method Setjmp()
      requires Valid() && mem.Apart(rdi, 64, rsp, 8)
      modifies this
      ensures Valid() && rdi == old(rdi)
      ensures SetjmpSpec(old(Look()), Look(), old(rdi), Layout64())
    {
      hide Memory.Load, Memory.Store, Memory.Plus, SetjmpSpec, Disp;
      ghost var v := Look();
      // The return address, the stack pointer and the six callee-saved registers go to the buffer's words.
      rsi := Fetch(rsp);
      mem := mem.Store(rdi, 8, rsi);
      mem := mem.Store(Disp(rdi, 0x8), 8, rsp);
      mem := mem.Store(Disp(rdi, 0x10), 8, rbp);
      mem := mem.Store(Disp(rdi, 0x18), 8, rbx);
      mem := mem.Store(Disp(rdi, 0x20), 8, r12);
      mem := mem.Store(Disp(rdi, 0x28), 8, r13);
      mem := mem.Store(Disp(rdi, 0x30), 8, r14);
      mem := mem.Store(Disp(rdi, 0x38), 8, r15);
      // Return 0 to the caller.
      rax := 0;
      rip := Fetch(rsp);
      rsp := Disp(rsp, 8);
      SetjmpEffect(v, Look(), rdi);
    }

    /** rdi points at the buffer; the value is the low half of rsi. */
    method Longjmp()
      requires Valid()
      modifies this
      ensures Valid()
      ensures LongjmpSpec(old(Look()), Look(), old(rdi), Wrap32(old(rsi)), Layout64())
    {
      hide Memory.Load, Memory.Store, WordsAt, StoreWords, Pow256;
      ghost var buf := Buffer(mem, rdi, Layout64());
      BufferWords(mem, rdi);
      // The result, the callee-saved registers and the stack pointer are taken from argument and buffer.
      rax := rsi % TWO32;
      r15 := Fetch(Disp(rdi, 0x38));
      r14 := Fetch(Disp(rdi, 0x30));
      r13 := Fetch(Disp(rdi, 0x28));
      r12 := Fetch(Disp(rdi, 0x20));
      rbx := Fetch(Disp(rdi, 0x18));
      rbp := Fetch(Disp(rdi, 0x10));
      rsp := Fetch(Disp(rdi, 0x8));
      // The saved return address goes back to the slot it came from, and the return takes it from there.
      rsi := Fetch(rdi);
      PowerValues();
      mem.StoreFrame(rsp, 8, rsi);
      mem.LoadOfStore(rsp, 8, rsi);
      mem := mem.Store(rsp, 8, rsi);
      rip := Fetch(rsp);
      rsp := Disp(rsp, 8);
      assert buf[2..] == Six(rbp, rbx, r12, r13, r14, r15);
    }

    /** Code outside setjmp and longjmp: printk, or the code up to the next longjmp call.  It may leave
        anything in registers and memory, except in the buffer and in the variable at `slot`. */
    method Elsewhere(buf: u64, slot: u64)
      requires Valid()
      modifies this
      ensures Valid() && old(mem).KeepsBytes(mem, buf, 64) && old(mem).KeepsBytes(mem, slot, 4)
    {
      rip, rax, rbx, rsp, rbp, rsi, rdi := *, *, *, *, *, *, *;
      r12, r13, r14, r15 := *, *, *, *;
      var junk: nat -> byte := *;
      var was := mem;
      mem := Memory(TWO64, (x: nat) => if was.Addr(x) && (was.Distance(buf, x) < 64 || was.Distance(slot, x) < 4) then was.at(x)
                                       else junk(x));
    }

    method LoadInt(slot: u64) returns (i: int)
      requires Valid()
      ensures i == Signed32(Wrap32(mem.Load(slot, 4)))
    {
      i := Signed32(mem.Load(slot, 4) % TWO32);
    }

    /** Assignment of a non-negative int to the variable at `slot`. */
    method StoreInt(slot: u64, i: int)
      requires Valid() && 0 <= i < TWO31
      modifies this`mem
      ensures Valid() && old(mem).ChangedOnlyAt(mem, slot, 4) && mem.Load(slot, 4) == i
    {
      PowerValues();
      mem.StoreFrame(slot, 4, i);
      mem.LoadOfStore(slot, 4, i);
      mem := mem.Store(slot, 4, i);
    }
  }

  function Count(n: nat): seq<int> {
    seq(n, i => i)
  }

  /** `test_setjmp` with 10 generalised to n, from the entry of setjmp: rdi is the jmp_buf, the return
      address is on top of the stack and the volatile i lives at `slot`.  It prints 0, 1, .. n-1 (just
      0 when n < 1) and "done", with one longjmp between successive numbers.  Each longjmp puts the
      machine back at setjmp's return point, which is what the loop's back edge stands for. */
  method TestSetjmp(m: Machine, slot: u64, n: int) returns (printed: seq<int>, jumps: nat, done: bool)
    requires m.Valid() && n < TWO31
    requires m.mem.Apart(m.rdi, 64, m.rsp, 8) && m.mem.Apart(slot, 4, m.rdi, 64) && m.mem.Apart(m.rsp, 8, slot, 4)
    modifies m
    ensures printed == Count(if n < 1 then 1 else n) && jumps == |printed| - 1 && done
  {
    hide Memory.Load, Memory.Store, WordsAt;
    var buf := m.rdi;
    ghost var v0 := m.Look();
    m.Setjmp();
    ghost var first := m.Look();
    printed, jumps, done := [], 0, false;
    while !done
      invariant m.Valid() && printed == Count(if done then jumps + 1 else jumps) && (jumps > 0 ==> jumps < n)
      invariant !done ==> SameContinuation(first, m.Look()) && KeepsBuffer(first.mem, m.mem, buf, Layout64())
      invariant !done ==> m.rax == (if jumps == 0 then 0 else 1) && (jumps > 0 ==> m.mem.Load(slot, 4) == jumps)
      invariant done ==> jumps + 1 == if n < 1 then 1 else n
      decreases !done, n - jumps
    {
      ghost var atReturn := m.mem;
      if m.rax % TWO32 == 0 {
        m.StoreInt(slot, 0);
        KeptByInt(first.mem, atReturn, m.mem, slot, buf);
      }
      var shown, i := PrintThenIncrement(m, first.mem, buf, slot);
      printed := printed + [shown];
      if i < n {
        ghost var before := m.mem;
        m.Elsewhere(buf, slot);
        KeptElsewhere(first.mem, before, m.mem, slot, buf);
        m.rdi, m.rsi := buf, 1;
        ghost var v := m.Look();
        m.Longjmp();
        LongjmpResumes(v0, first, v, m.Look(), buf, 1, Layout64());
        v.mem.LoadUnchanged(m.mem, v0.sp, 8, slot, 4);
        jumps := jumps + 1;
      } else {
        done := true;
      }
    }
  }

  /** printk of i, then ++i. */
  method PrintThenIncrement(m: Machine, ghost first: Memory, buf: u64, slot: u64) returns (shown: int, i: int)
    requires m.Valid() && m.mem.Apart(slot, 4, buf, 64) && 0 <= m.mem.Load(slot, 4) < TWO31 - 1
    requires KeepsBuffer(first, m.mem, buf, Layout64())
    modifies m
    ensures m.Valid() && KeepsBuffer(first, m.mem, buf, Layout64())
    ensures shown == old(m.mem.Load(slot, 4)) && i == shown + 1 == m.mem.Load(slot, 4)
  {
    hide Memory.Load, Memory.Store, WordsAt;
    shown := m.LoadInt(slot);
    ghost var before := m.mem;
    m.Elsewhere(buf, slot);
    KeptElsewhere(first, before, m.mem, slot, buf);
    i := m.LoadInt(slot);
    i := i + 1;
    before := m.mem;
    m.StoreInt(slot, i);
    KeptByInt(first, before, m.mem, slot, buf);
  }

  lemma KeptByInt(first: Memory, before: Memory, after: Memory, slot: u64, buf: u64)
    requires before.space == TWO64 && before.ChangedOnlyAt(after, slot, 4) && before.Apart(slot, 4, buf, 64)
    requires KeepsBuffer(first, before, buf, Layout64())
    ensures KeepsBuffer(first, after, buf, Layout64())
  {
    assert Span(8, 8) == 64;
    WordsUnchanged(before, after, slot, 4, buf, 8, 8);
  }

  lemma KeptElsewhere(first: Memory, before: Memory, after: Memory, slot: u64, buf: u64)
    requires before.space == TWO64 && before.KeepsBytes(after, buf, 64) && before.KeepsBytes(after, slot, 4)
    requires KeepsBuffer(first, before, buf, Layout64())
    ensures KeepsBuffer(first, after, buf, Layout64()) && after.Load(slot, 4) == before.Load(slot, 4)
  {
    assert Span(8, 8) == 64;
    WordsKept(before, after, buf, 8, 8);
    before.LoadKept(after, slot, 4);
  }

  /** The eight stores of setjmp. */
  ghost function Saved(v: View, buf: u64): Memory
    requires v.mem.space == TWO64 && v.mem.Addr(v.sp) && |v.saved| == 6
  {
    var m := v.mem;
    m.Store(buf, 8, m.Load(v.sp, 8)).Store(Disp(buf, 8), 8, v.sp)
     .Store(Disp(buf, 16), 8, v.saved[0]).Store(Disp(buf, 24), 8, v.saved[1])
     .Store(Disp(buf, 32), 8, v.saved[2]).Store(Disp(buf, 40), 8, v.saved[3])
     .Store(Disp(buf, 48), 8, v.saved[4]).Store(Disp(buf, 56), 8, v.saved[5])
  }

  lemma SetjmpEffect(v: View, v': View, buf: u64)
    requires v.mem.space == TWO64 && v.mem.Addr(v.sp) && |v.saved| == 6 && v.mem.Apart(buf, 64, v.sp, 8)
    requires forall i :: 0 <= i < 6 ==> v.saved[i] < TWO64
    requires v'.mem == Saved(v, buf)
    requires v'.pc == v'.mem.Load(v.sp, 8) && v'.sp == Disp(v.sp, 8) && v'.saved == v.saved && v'.result == 0
    ensures SetjmpSpec(v, v', buf, Layout64())
  {
    hide Memory.Load, Memory.Store, StoreWords, WordsAt;
    var vs := [v.mem.Load(v.sp, 8), v.sp] + v.saved;
    v.mem.LoadBound(v.sp, 8);
    PowerValues();
    StoresUnfold(v.mem, buf, vs);
    StoreWordsThenRead(v.mem, buf, 8, vs);
    v.mem.LoadUnchanged(v'.mem, buf, 64, v.sp, 8);
  }

  lemma StoresUnfold(m: Memory, a: u64, vs: seq<nat>)
    requires m.space == TWO64 && |vs| == 8
    ensures StoreWords(m, a, 8, vs)
            == m.Store(a, 8, vs[0]).Store(Disp(a, 8), 8, vs[1]).Store(Disp(a, 16), 8, vs[2]).Store(Disp(a, 24), 8, vs[3])
                .Store(Disp(a, 32), 8, vs[4]).Store(Disp(a, 40), 8, vs[5]).Store(Disp(a, 48), 8, vs[6])
                .Store(Disp(a, 56), 8, vs[7])
  {
    hide Memory.Load, Memory.Store, StoreWords, Disp;
    DispFacts(m, a, 32, 8);
    DispFacts(m, a, 32, 16);
    DispFacts(m, a, 32, 24);
    DispFacts(m, a, 32, 32);
    var m4 := m.Store(a, 8, vs[0]).Store(Disp(a, 8), 8, vs[1]).Store(Disp(a, 16), 8, vs[2]).Store(Disp(a, 24), 8, vs[3]);
    FourStores(m, a, vs);
    FourStores(m4, Disp(a, 32), vs[4..]);
    assert vs[4..][4..] == [];
    NoStores(m4.Store(Disp(a, 32), 8, vs[4]).Store(Disp(a, 40), 8, vs[5]).Store(Disp(a, 48), 8, vs[6]).Store(Disp(a, 56), 8, vs[7]), Disp(a, 64), 8);
  }

  lemma DispFacts(m: Memory, a: u64, j: nat, k: nat)
    requires m.space == TWO64 && j <= 64 && k <= 64
    ensures m.Plus(a, k) == Disp(a, k) && Disp(Disp(a, j), k) == Disp(a, j + k)
  {
  }

  lemma OneStore(m: Memory, a: u64, vs: seq<nat>)
    requires m.space == TWO64 && vs != []
    ensures StoreWords(m, a, 8, vs) == StoreWords(m.Store(a, 8, vs[0]), Disp(a, 8), 8, vs[1..])
  {
    hide Memory.Store;
  }

  lemma FourStores(m: Memory, a: u64, vs: seq<nat>)
    requires m.space == TWO64 && |vs| >= 4
    ensures var m' := m.Store(a, 8, vs[0]).Store(Disp(a, 8), 8, vs[1]).Store(Disp(a, 16), 8, vs[2]).Store(Disp(a, 24), 8, vs[3]);
            StoreWords(m, a, 8, vs) == StoreWords(m', Disp(a, 32), 8, vs[4..])
  {
    hide Memory.Store, StoreWords, Disp;
    DispFacts(m, a, 8, 8);
    DispFacts(m, a, 16, 8);
    DispFacts(m, a, 24, 8);
    var m1 := m.Store(a, 8, vs[0]);
    var m2 := m1.Store(Disp(a, 8), 8, vs[1]);
    var m3 := m2.Store(Disp(a, 16), 8, vs[2]);
    OneStore(m, a, vs);
    OneStore(m1, Disp(a, 8), vs[1..]);
    OneStore(m2, Disp(a, 16), vs[2..]);
    OneStore(m3, Disp(a, 24), vs[3..]);
    assert vs[1..][1..] == vs[2..] && vs[2..][1..] == vs[3..] && vs[3..][1..] == vs[4..];
  }

  lemma BufferWords(m: Memory, a: u64)
    requires m.space == TWO64
    ensures Buffer(m, a, Layout64())
            == [m.Load(a, 8), m.Load(Disp(a, 8), 8), m.Load(Disp(a, 16), 8), m.Load(Disp(a, 24), 8),
                m.Load(Disp(a, 32), 8), m.Load(Disp(a, 40), 8), m.Load(Disp(a, 48), 8), m.Load(Disp(a, 56), 8)]
  {
    hide Memory.Load;
  }
}
