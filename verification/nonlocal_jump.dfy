/** setjmp and longjmp as continuation capture, for any word size. */
module NonlocalJump {
  import opened ByteMemory

  /** A buffer of `count` words: saved pc, saved sp, then the callee-saved registers.  `size` is its
      length in bytes. */
  datatype Layout = Layout(word: nat, count: nat, size: nat) {
    ghost predicate Ok(m: Memory) {
      0 < word && 2 <= count && size == word * count && 2 * size < m.space
    }
  }

  /** A machine as seen at the boundary of a call: program counter, stack pointer, callee-saved
      registers, the register that carries results, and memory. */
  datatype View = View(pc: nat, sp: nat, saved: seq<nat>, result: nat, mem: Memory)

  ghost predicate Wf(v: View, l: Layout) {
    l.Ok(v.mem) && v.mem.Addr(v.sp) && |v.saved| == l.count - 2 && l.word < v.mem.space
  }

  /** n consecutive words from address a. */
  ghost function WordsAt(m: Memory, a: nat, word: nat, n: nat): (b: seq<nat>)
    requires m.Addr(a) && word < m.space
    ensures |b| == n
    decreases n
  {
    if n == 0 then [] else [m.Load(a, word)] + WordsAt(m, m.Plus(a, word), word, n - 1)
  }

  ghost function Buffer(m: Memory, buf: nat, l: Layout): (b: seq<nat>)
    requires m.Addr(buf) && l.word < m.space
    ensures |b| == l.count
  {
    WordsAt(m, buf, l.word, l.count)
  }

  /** The word on top of the stack: at a call boundary, the return address. */
  ghost function Top(v: View, l: Layout): nat
    requires Wf(v, l)
  {
    v.mem.Load(v.sp, l.word)
  }

  /** setjmp(buf) saves the caller's continuation, returns 0, and writes nothing but the buffer. */
  ghost predicate SetjmpSpec(v: View, v': View, buf: nat, l: Layout)
    requires Wf(v, l) && v.mem.Addr(buf)
  {
    && v.mem.ChangedOnlyAt(v'.mem, buf, l.size)
    && Buffer(v'.mem, buf, l) == [Top(v, l), v.sp] + v.saved
    && v'.pc == Top(v, l) && v'.sp == v.mem.Plus(v.sp, l.word) && v'.saved == v.saved && v'.result == 0
  }

  /** The word at `a` now holds `value`, and nothing else has changed. */
  ghost predicate OnlyWordWritten(m: Memory, later: Memory, a: nat, word: nat, value: nat) {
    m.Addr(a) && word < m.space && m.ChangedOnlyAt(later, a, word) && later.Load(a, word) == value
  }

  /** longjmp(buf, val) resumes the continuation in the buffer with result val, and writes nothing but
      the saved return slot, where it restores the return address. */
  ghost predicate LongjmpSpec(v: View, v': View, buf: nat, val: nat, l: Layout)
    requires l.Ok(v.mem) && v.mem.Addr(buf) && l.word < v.mem.space
  {
    var b := Buffer(v.mem, buf, l);
    v.mem.Addr(b[1]) ==>
      && OnlyWordWritten(v.mem, v'.mem, b[1], l.word, b[0])
      && v'.pc == b[0] && v'.sp == v.mem.Plus(b[1], l.word) && v'.saved == b[2..] && v'.result == val
  }

  /** `v` stands where setjmp's caller stood when setjmp first returned in state `first`. */
  ghost predicate SameContinuation(first: View, v: View) {
    v.pc == first.pc && v.sp == first.sp && v.saved == first.saved
  }

  /** The buffer holds in `later` what it holds in `m`. */
  ghost predicate KeepsBuffer(m: Memory, later: Memory, buf: nat, l: Layout) {
    && later.space == m.space && m.Addr(buf) && l.word < m.space
    && Buffer(later, buf, l) == Buffer(m, buf, l)
  }

  /** The length of n words. */
  ghost function Span(n: nat, word: nat): nat {
    if n == 0 then 0 else word + Span(n - 1, word)
  }

  lemma {:induction false} SpanIsProduct(n: nat, word: nat)
    ensures Span(n, word) == word * n
  {
    if n > 0 {
      SpanIsProduct(n - 1, word);
    }
  }

  lemma {:induction false} WordsUnchanged(m: Memory, later: Memory, a: nat, k: nat, b: nat, word: nat, n: nat)
    requires m.Addr(a) && m.Addr(b) && 0 < word < m.space && Span(n, word) < m.space && m.ChangedOnlyAt(later, a, k)
    requires m.Apart(a, k, b, Span(n, word))
    ensures WordsAt(later, b, word, n) == WordsAt(m, b, word, n)
    decreases n
  {
    if n > 0 {
      m.LoadUnchanged(later, a, k, b, word);
      if n > 1 {
        WordsUnchanged(m, later, a, k, m.Plus(b, word), word, n - 1);
      }
    }
  }

  lemma {:induction false} WordsKept(m: Memory, later: Memory, a: nat, word: nat, n: nat)
    requires m.Addr(a) && 0 < word < m.space && Span(n, word) < m.space && m.KeepsBytes(later, a, Span(n, word))
    ensures WordsAt(later, a, word, n) == WordsAt(m, a, word, n)
    decreases n
  {
    hide Memory.Load;
    if n > 0 {
      m.LoadKept(later, a, word);
      WordsKept(m, later, m.Plus(a, word), word, n - 1);
    }
  }

  /** Consecutive words stored one after another, upwards from a. */
  ghost function StoreWords(m: Memory, a: nat, word: nat, vs: seq<nat>): Memory
    requires m.Addr(a) && word < m.space
    decreases |vs|
  {
    if vs == [] then m else StoreWords(m.Store(a, word, vs[0]), m.Plus(a, word), word, vs[1..])
  }

  lemma NoStores(m: Memory, a: nat, word: nat)
    requires m.Addr(a) && word < m.space
    ensures StoreWords(m, a, word, []) == m
  {
  }

  lemma {:induction false} StoreWordsThenRead(m: Memory, a: nat, word: nat, vs: seq<nat>)
    requires m.Addr(a) && 0 < word < m.space && Span(|vs|, word) < m.space
    requires forall i :: 0 <= i < |vs| ==> vs[i] < Pow256(word)
    ensures var m' := StoreWords(m, a, word, vs);
            m.ChangedOnlyAt(m', a, Span(|vs|, word)) && WordsAt(m', a, word, |vs|) == vs
    decreases |vs|
  {
    hide Memory.Load, Memory.Store;
    if vs != [] {
      var rest := vs[1..];
      var m1 := m.Store(a, word, vs[0]);
      StoreWordsThenRead(m1, m1.Plus(a, word), word, rest);
      FirstWordStays(m, StoreWords(m, a, word, vs), a, word, vs[0], Span(|rest|, word));
      assert vs == [vs[0]] + rest;
    }
  }

  /** A word stored at a survives writes to the `more` bytes above it. */
  lemma FirstWordStays(m: Memory, m': Memory, a: nat, word: nat, v: nat, more: nat)
    requires m.Addr(a) && 0 < word < m.space && more + word < m.space && v < Pow256(word)
    requires m.Store(a, word, v).ChangedOnlyAt(m', m.Plus(a, word), more)
    ensures m'.Load(a, word) == v && m.ChangedOnlyAt(m', a, more + word)
  {
    hide Memory.Load, Memory.Store;
    var m1 := m.Store(a, word, v);
    m.StoreFrame(a, word, v);
    m.LoadOfStore(a, word, v);
    m1.LoadUnchanged(m', m.Plus(a, word), more, a, word);
  }

  /** One longjmp with an intact buffer resumes exactly where setjmp returned; and if the return slot
      lies outside the buffer, the buffer is intact again for the next. */
  lemma LongjmpResumes(v0: View, first: View, v: View, v': View, buf: nat, val: nat, l: Layout)
    requires Wf(v0, l) && v0.mem.Addr(buf) && SetjmpSpec(v0, first, buf, l)
    requires KeepsBuffer(first.mem, v.mem, buf, l) && LongjmpSpec(v, v', buf, val, l)
    ensures SameContinuation(first, v') && v'.result == val
    ensures OnlyWordWritten(v.mem, v'.mem, v0.sp, l.word, first.pc)
    ensures v0.mem.Apart(v0.sp, l.word, buf, l.size) ==> KeepsBuffer(first.mem, v'.mem, buf, l)
  {
    var b := Buffer(v.mem, buf, l);
    assert b == [first.pc, v0.sp] + v0.saved;
    assert b[2..] == v0.saved;
    if v0.mem.Apart(v0.sp, l.word, buf, l.size) {
      SpanIsProduct(l.count, l.word);
      WordsUnchanged(v.mem, v'.mem, v0.sp, l.word, buf, l.word, l.count);
    }
  }

  /** Where the program was last resumed before longjmp number i. */
  ghost function Resumed(first: View, resumes: seq<View>, i: nat): View
    requires i <= |resumes|
  {
    if i == 0 then first else resumes[i - 1]
  }

  /** longjmp number i: called in state `calls[i]`, resuming in `resumes[i]`.  Since the last resumption
      the program may have done anything to registers and memory that keeps the buffer, including
      overwriting the saved return slot. */
  ghost predicate Jump(first: View, calls: seq<View>, resumes: seq<View>, vals: seq<nat>, buf: nat, l: Layout, i: nat) {
    && i < |calls| == |resumes| == |vals|
    && KeepsBuffer(Resumed(first, resumes, i).mem, calls[i].mem, buf, l)
    && l.Ok(calls[i].mem)
    && LongjmpSpec(calls[i], resumes[i], buf, vals[i], l)
  }

  /** Any number of longjmps, each with any value, from any states: every one of them resumes at
      setjmp's return point with setjmp's stack pointer and callee-saved registers, and its own value. */
  lemma {:induction false} EveryLongjmpResumes(v0: View, first: View, calls: seq<View>, resumes: seq<View>, vals: seq<nat>,
                                               buf: nat, l: Layout, i: nat)
    requires Wf(v0, l) && v0.mem.Addr(buf) && SetjmpSpec(v0, first, buf, l) && v0.mem.Apart(v0.sp, l.word, buf, l.size)
    requires forall j: nat :: j <= i ==> Jump(first, calls, resumes, vals, buf, l, j)
    ensures i < |resumes| && i < |vals|
    ensures SameContinuation(first, resumes[i]) && resumes[i].result == vals[i]
    ensures KeepsBuffer(first.mem, resumes[i].mem, buf, l)
    decreases i
  {
    assert Jump(first, calls, resumes, vals, buf, l, i);
    if i > 0 {
      EveryLongjmpResumes(v0, first, calls, resumes, vals, buf, l, i - 1);
    }
    LongjmpResumes(v0, first, calls[i], resumes[i], buf, vals[i], l);
  }

  /** What ISO C (section 7.13.2.1 of ISO C11) makes setjmp return after longjmp(env, val). */
  function IsoResult(val: nat): nat { if val == 0 then 1 else val }

  /** The assembly passes val through, so it follows the standard exactly when val is not 0. */
  lemma ResultIsIsoIffNonzero(v0: View, first: View, v: View, v': View, buf: nat, val: nat, l: Layout)
    requires Wf(v0, l) && v0.mem.Addr(buf) && SetjmpSpec(v0, first, buf, l)
    requires KeepsBuffer(first.mem, v.mem, buf, l) && LongjmpSpec(v, v', buf, val, l)
    ensures v'.result == IsoResult(val) <==> val != 0
  {
    LongjmpResumes(v0, first, v, v', buf, val, l);
  }
}
