/** Byte-addressed little-endian memory with wrapping addresses. */
module ByteMemory {
  import opened Words

  ghost function Pow256(n: nat): nat { if n == 0 then 1 else 256 * Pow256(n - 1) }

  lemma PowerValues()
    ensures Pow256(4) == TWO32 && Pow256(8) == TWO64
  {
    assert Pow256(2) == 0x1_0000;
    assert Pow256(4) == 0x1_0000 * Pow256(2);
    assert Pow256(6) == 0x1_0000 * Pow256(4);
    assert Pow256(8) == 0x1_0000 * Pow256(6);
  }

  /** Byte k of the little-endian representation of v. */
  function ByteOf(v: nat, k: nat): byte
    decreases k
  {
    if k == 0 then (v % 256) as byte else ByteOf(v / 256, k - 1)
  }

  /** The number a little-endian byte sequence represents. */
  function Value(bytes: seq<byte>): nat {
    if bytes == [] then 0 else bytes[0] as int + 256 * Value(bytes[1..])
  }

  lemma {:induction false} ValueOfBytes(v: nat, bytes: seq<byte>)
    requires v < Pow256(|bytes|) && forall k :: 0 <= k < |bytes| ==> bytes[k] == ByteOf(v, k)
    ensures Value(bytes) == v
    decreases |bytes|
  {
    if bytes != [] {
      forall k | 0 <= k < |bytes| - 1 ensures bytes[1..][k] == ByteOf(v / 256, k) {
        assert bytes[1..][k] == bytes[k + 1];
      }
      ValueOfBytes(v / 256, bytes[1..]);
      assert bytes[0] as int == v % 256;
    }
  }

  lemma {:induction false} ValueBound(bytes: seq<byte>)
    ensures Value(bytes) < Pow256(|bytes|)
  {
    if bytes != [] {
      ValueBound(bytes[1..]);
    }
  }

  /** The address k bytes above a, going around in a space of that size. */
  function Above(space: nat, a: nat, k: nat): (r: nat)
    requires a < space && k <= space
    ensures r < space
  {
    if a + k >= space then a + k - space else a + k
  }

  /** Addresses are 0 .. space-1. */
  datatype Memory = Memory(space: nat, at: nat -> byte) {
    predicate Addr(a: int) { 0 <= a < space }

    /** Address arithmetic wraps around. */
    function Plus(a: nat, k: nat): (r: nat)
      requires Addr(a) && k <= space
      ensures Addr(r)
    {
      Above(space, a, k)
    }

    /** How far `b` lies above `a`, going around. */
    function Distance(a: nat, b: nat): nat
      requires Addr(a) && Addr(b)
    {
      if b >= a then b - a else b - a + space
    }

    function Bytes(a: nat, n: nat): (b: seq<byte>)
      requires Addr(a) && n < space
      ensures |b| == n && forall i :: 0 <= i < n ==> b[i] == at(Plus(a, i))
    {
      seq(n, i requires 0 <= i < n => at(Plus(a, i)))
    }

    function Load(a: nat, n: nat): nat
      requires Addr(a) && n < space
    {
      Value(Bytes(a, n))
    }

    function Store(a: nat, n: nat, v: nat): (m: Memory)
      requires Addr(a) && n < space
      ensures m.space == space
    {
      Memory(space, (x: nat) => if Addr(x) && Distance(a, x) < n then ByteOf(v, Distance(a, x)) else at(x))
    }

    /** The n bytes at `a` and the k bytes at `b` have no byte in common. */
    predicate Apart(a: nat, n: nat, b: nat, k: nat)
      requires Addr(a) && Addr(b)
    {
      Distance(a, b) >= n && Distance(b, a) >= k
    }

    /** `later` differs from this memory at most in the n bytes at `a`. */
    ghost predicate ChangedOnlyAt(later: Memory, a: nat, n: nat)
      requires Addr(a)
    {
      later.space == space && forall x :: Addr(x) && Distance(a, x) >= n ==> later.at(x) == at(x)
    }

    /** `later` agrees with this memory on the n bytes at `a`. */
    ghost predicate KeepsBytes(later: Memory, a: nat, n: nat)
      requires Addr(a)
    {
      later.space == space && forall x :: Addr(x) && Distance(a, x) < n ==> later.at(x) == at(x)
    }

    lemma LoadKept(later: Memory, a: nat, n: nat)
      requires Addr(a) && n < space && KeepsBytes(later, a, n)
      ensures later.Load(a, n) == Load(a, n)
    {
      forall i | 0 <= i < n ensures later.Bytes(a, n)[i] == Bytes(a, n)[i] {
        assert Distance(a, Plus(a, i)) == i;
      }
      assert later.Bytes(a, n) == Bytes(a, n);
    }

    lemma StoreFrame(a: nat, n: nat, v: nat)
      requires Addr(a) && n < space
      ensures ChangedOnlyAt(Store(a, n, v), a, n)
    {
    }

    lemma LoadBound(a: nat, n: nat)
      requires Addr(a) && n < space
      ensures Load(a, n) < Pow256(n)
    {
      ValueBound(Bytes(a, n));
    }

    lemma LoadOfStore(a: nat, n: nat, v: nat)
      requires Addr(a) && n < space && v < Pow256(n)
      ensures Store(a, n, v).Load(a, n) == v
    {
      var b := Store(a, n, v).Bytes(a, n);
      forall k | 0 <= k < n ensures b[k] == ByteOf(v, k) {
        assert Distance(a, Plus(a, k)) == k;
        assert b[k] == Store(a, n, v).at(Plus(a, k));
      }
      ValueOfBytes(v, b);
    }

    lemma LoadUnchanged(later: Memory, a: nat, n: nat, b: nat, k: nat)
      requires Addr(a) && Addr(b) && k < space && ChangedOnlyAt(later, a, n) && Apart(a, n, b, k)
      ensures later.Load(b, k) == Load(b, k)
    {
      forall i | 0 <= i < k ensures later.at(Plus(b, i)) == at(Plus(b, i)) {
        assert Distance(a, Plus(b, i)) >= n;
      }
      forall i | 0 <= i < k ensures later.Bytes(b, k)[i] == Bytes(b, k)[i] {
        assert later.Bytes(b, k)[i] == later.at(Plus(b, i));
      }
      assert later.Bytes(b, k) == Bytes(b, k);
    }
  }
}
