/** The IA-32 setjmp and longjmp: the same continuation capture with 4-byte words, arguments on the
    stack, and four callee-saved registers. */
module Setjmp32 {
  import opened Words
  import opened ByteMemory
  import opened NonlocalJump

  /** The six words used of jmp_buf's eight. */
  function Layout32(): Layout { Layout(4, 6, 24) }

  /** The address k bytes above a. */
  function Disp(a: u32, k: nat): u32
    requires k < TWO32
  {
    Above(TWO32, a, k)
  }

  function Four(a: nat, b: nat, c: nat, d: nat): seq<nat> { [a, b, c, d] }

  class Machine {
    var eip: u32
    var eax: u32
    var ebx: u32
    var ecx: u32
    var esp: u32
    var ebp: u32
    var esi: u32
    var edi: u32
    var mem: Memory

    ghost predicate Valid()
      reads this
    {
      mem.space == TWO32
    }

    ghost function Look(): View
      reads this
    {
      View(eip, esp, Four(ebp, ebx, esi, edi), eax, mem)
    }

    /** A 32-bit load. */
    method Fetch(a: u32) returns (v: u32)
      requires Valid()
      ensures v == mem.Load(a, 4)
    {
      mem.LoadBound(a, 4);
      PowerValues();
      v := mem.Load(a, 4);
    }

    /** esp points at the return address, with the buffer's address above it. */
    method Setjmp(ghost buf: u32)
      requires Valid() && mem.Load(Disp(esp, 4), 4) == buf && mem.Apart(buf, 24, esp, 4)
      modifies this
      ensures Valid()
      ensures SetjmpSpec(old(Look()), Look(), buf, Layout32())
    {
      hide Memory.Load, Memory.Store, Memory.Plus, SetjmpSpec, Disp;
      ghost var v := Look();
      // The return address, the stack pointer and the four callee-saved registers go to the buffer's words.
      ecx := Fetch(esp);
      eax := Fetch(Disp(esp, 4));
      mem := mem.Store(eax, 4, ecx);
      mem := mem.Store(Disp(eax, 4), 4, esp);
      mem := mem.Store(Disp(eax, 8), 4, ebp);
      mem := mem.Store(Disp(eax, 12), 4, ebx);
      mem := mem.Store(Disp(eax, 16), 4, esi);
      mem := mem.Store(Disp(eax, 20), 4, edi);
      // Return 0 to the caller.
      eax := 0;
      eip := Fetch(esp);
      esp := Disp(esp, 4);
      SetjmpEffect(v, Look(), buf);
    }

    /** esp points at a return address that is never used, with the buffer's address and the value
        above it. */
    method Longjmp(ghost buf: u32, ghost val: u32)
      requires Valid() && mem.Load(Disp(esp, 4), 4) == buf && mem.Load(Disp(esp, 8), 4) == val
      modifies this
      ensures Valid()
      ensures LongjmpSpec(old(Look()), Look(), buf, val, Layout32())
    {
      hide Memory.Load, Memory.Store, WordsAt, Pow256;
      ghost var b := Buffer(mem, buf, Layout32());
      BufferWords(mem, buf);
      // Both arguments come from the stack, the registers and the stack pointer from the buffer.
      eax := Fetch(Disp(esp, 8));
      ecx := Fetch(Disp(esp, 4));
      edi := Fetch(Disp(ecx, 20));
      esi := Fetch(Disp(ecx, 16));
      ebx := Fetch(Disp(ecx, 12));
      ebp := Fetch(Disp(ecx, 8));
      esp := Fetch(Disp(ecx, 4));
      // The saved return address goes back to the slot it came from, and the return takes it from there.
      ecx := Fetch(ecx);
      PowerValues();
      mem.StoreFrame(esp, 4, ecx);
      mem.LoadOfStore(esp, 4, ecx);
      mem := mem.Store(esp, 4, ecx);
      eip := Fetch(esp);
      esp := Disp(esp, 4);
      assert b[2..] == Four(ebp, ebx, esi, edi);
    }
  }

  /** The six stores of setjmp. */
  ghost function Saved(v: View, buf: u32): Memory
    requires v.mem.space == TWO32 && v.mem.Addr(v.sp) && |v.saved| == 4
  {
    var m := v.mem;
    m.Store(buf, 4, m.Load(v.sp, 4)).Store(Disp(buf, 4), 4, v.sp)
     .Store(Disp(buf, 8), 4, v.saved[0]).Store(Disp(buf, 12), 4, v.saved[1])
     .Store(Disp(buf, 16), 4, v.saved[2]).Store(Disp(buf, 20), 4, v.saved[3])
  }

  lemma SetjmpEffect(v: View, v': View, buf: u32)
    requires v.mem.space == TWO32 && v.mem.Addr(v.sp) && |v.saved| == 4 && v.mem.Apart(buf, 24, v.sp, 4)
    requires forall i :: 0 <= i < 4 ==> v.saved[i] < TWO32
    requires v'.mem == Saved(v, buf)
    requires v'.pc == v'.mem.Load(v.sp, 4) && v'.sp == Disp(v.sp, 4) && v'.saved == v.saved && v'.result == 0
    ensures SetjmpSpec(v, v', buf, Layout32())
  {
    hide Memory.Load, Memory.Store, StoreWords, WordsAt;
    var vs := [v.mem.Load(v.sp, 4), v.sp] + v.saved;
    v.mem.LoadBound(v.sp, 4);
    PowerValues();
    StoresUnfold(v.mem, buf, vs);
    StoreWordsThenRead(v.mem, buf, 4, vs);
    v.mem.LoadUnchanged(v'.mem, buf, 24, v.sp, 4);
  }

  lemma DispFacts(m: Memory, a: u32, j: nat, k: nat)
    requires m.space == TWO32 && j < 64 && k < 64
    ensures m.Plus(a, k) == Disp(a, k) && Disp(Disp(a, j), k) == Disp(a, j + k)
  {
  }

  lemma OneStore(m: Memory, a: u32, vs: seq<nat>)
    requires m.space == TWO32 && vs != []
    ensures StoreWords(m, a, 4, vs) == StoreWords(m.Store(a, 4, vs[0]), Disp(a, 4), 4, vs[1..])
  {
    hide Memory.Store;
  }

  lemma ThreeStores(m: Memory, a: u32, vs: seq<nat>)
    requires m.space == TWO32 && |vs| >= 3
    ensures StoreWords(m, a, 4, vs)
            == StoreWords(m.Store(a, 4, vs[0]).Store(Disp(a, 4), 4, vs[1]).Store(Disp(a, 8), 4, vs[2]), Disp(a, 12), 4, vs[3..])
  {
    hide Memory.Store, StoreWords, Disp;
    DispFacts(m, a, 4, 4);
    DispFacts(m, a, 8, 4);
    var m1 := m.Store(a, 4, vs[0]);
    var m2 := m1.Store(Disp(a, 4), 4, vs[1]);
    OneStore(m, a, vs);
    OneStore(m1, Disp(a, 4), vs[1..]);
    OneStore(m2, Disp(a, 8), vs[2..]);
    assert vs[1..][1..] == vs[2..] && vs[2..][1..] == vs[3..];
  }

  lemma StoresUnfold(m: Memory, a: u32, vs: seq<nat>)
    requires m.space == TWO32 && |vs| == 6
    ensures StoreWords(m, a, 4, vs)
            == m.Store(a, 4, vs[0]).Store(Disp(a, 4), 4, vs[1]).Store(Disp(a, 8), 4, vs[2]).Store(Disp(a, 12), 4, vs[3])
                .Store(Disp(a, 16), 4, vs[4]).Store(Disp(a, 20), 4, vs[5])
  {
    hide Memory.Load, Memory.Store, StoreWords, Disp;
    DispFacts(m, a, 12, 4);
    DispFacts(m, a, 12, 8);
    DispFacts(m, a, 12, 12);
    var m3 := m.Store(a, 4, vs[0]).Store(Disp(a, 4), 4, vs[1]).Store(Disp(a, 8), 4, vs[2]);
    ThreeStores(m, a, vs);
    ThreeStores(m3, Disp(a, 12), vs[3..]);
    assert vs[3..][3..] == [];
    NoStores(m3.Store(Disp(a, 12), 4, vs[3]).Store(Disp(a, 16), 4, vs[4]).Store(Disp(a, 20), 4, vs[5]), Disp(a, 24), 4);
  }

  lemma BufferWords(m: Memory, a: u32)
    requires m.space == TWO32
    ensures Buffer(m, a, Layout32())
            == [m.Load(a, 4), m.Load(Disp(a, 4), 4), m.Load(Disp(a, 8), 4), m.Load(Disp(a, 12), 4),
                m.Load(Disp(a, 16), 4), m.Load(Disp(a, 20), 4)]
  {
    hide Memory.Load;
  }
}
