/** `apic_read_bit`: a 256-bit APIC register is spread over eight 32-bit words, 16 bytes apart. */
module ApicBits {
  import opened Words

  /** Bit n of x. */
  predicate Bit(x: nat, n: nat)
    decreases n
  {
    if n == 0 then x % 2 == 1 else Bit(x / 2, n - 1)
  }

  ghost function Pow2(n: nat): (p: nat)
    ensures p > 0
  {
    if n == 0 then 1 else 2 * Pow2(n - 1)
  }

  /** Bit n is digit n of the number in base 2. */
  lemma {:induction false} BitIsDigit(x: nat, n: nat)
    ensures Bit(x, n) <==> x / Pow2(n) % 2 == 1
    decreases n
  {
    if n == 0 {
      assert x / 1 == x;
    } else {
      BitIsDigit(x / 2, n - 1);
      HalfFirst(x, Pow2(n - 1));
    }
  }

  lemma HalfFirst(x: nat, p: nat)
    requires p > 0
    ensures x / (2 * p) == x / 2 / p
  {
    var q, r := x / 2 / p, x / 2 % p;
    assert x / 2 == p * q + r;
    assert x == 2 * p * q + (2 * r + x % 2);
    UniqueQuotient(x, 2 * p, q, 2 * r + x % 2);
  }

  lemma UniqueQuotient(x: nat, d: nat, q: nat, r: nat)
    requires d > 0 && r < d && x == d * q + r
    ensures x / d == q
  {
    var q', r' := x / d, x % d;
    assert x == d * q' + r';
    if q' < q {
      TimesGrows(d, q' + 1, q);
    } else if q' > q {
      TimesGrows(d, q + 1, q');
    }
  }

  lemma TimesGrows(d: nat, x: nat, y: nat)
    requires x <= y
    ensures d * x <= d * y
  {
  }

  /** The number whose 32-bit digits, lowest first, are at reg, reg + 16, .. */
  ghost function Join(apic: nat -> u32, reg: nat, words: nat): nat
    decreases words
  {
    if words == 0 then 0 else apic(reg) + TWO32 * Join(apic, reg + 16, words - 1)
  }

  /** The word at offset (n >> 5) << 4 and its bit n & 31. */
  predicate ApicReadBit(apic: nat -> u32, reg: nat, n: nat) {
    Bit(apic(reg + n / 32 * 16), n % 32)
  }

  lemma {:induction false} BitOfSum(low: nat, high: nat, k: nat, n: nat)
    requires low < Pow2(k)
    ensures Bit(low + Pow2(k) * high, n) == if n < k then Bit(low, n) else Bit(high, n - k)
    decreases n
  {
    if k > 0 {
      var rest := Pow2(k - 1) * high;
      assert Pow2(k) * high == 2 * rest;
      assert (low + 2 * rest) % 2 == low % 2 && (low + 2 * rest) / 2 == low / 2 + rest;
      if n > 0 {
        BitOfSum(low / 2, high, k - 1, n - 1);
      }
    }
  }

  lemma PowerIsWidth()
    ensures Pow2(32) == TWO32
  {
    assert Pow2(8) == 256;
    assert Pow2(16) == 256 * Pow2(8);
    assert Pow2(24) == 256 * Pow2(16);
    assert Pow2(32) == 256 * Pow2(24);
  }

  lemma {:induction false} ReadBitOfJoin(apic: nat -> u32, reg: nat, words: nat, n: nat)
    requires n < 32 * words
    ensures ApicReadBit(apic, reg, n) == Bit(Join(apic, reg, words), n)
    decreases words
  {
    hide Pow2, Bit;
    PowerIsWidth();
    BitOfSum(apic(reg), Join(apic, reg + 16, words - 1), 32, n);
    if n >= 32 {
      ReadBitOfJoin(apic, reg + 16, words - 1, n - 32);
      assert n / 32 == 1 + (n - 32) / 32;
    }
  }

  /** For every n in 0..255, apic_read_bit(reg, n) is binary digit n of the 256-bit value. */
  lemma ReadBitIsBitOfRegister(apic: nat -> u32, reg: nat, n: nat)
    requires n < 256
    ensures ApicReadBit(apic, reg, n) <==> Join(apic, reg, 8) / Pow2(n) % 2 == 1
  {
    ReadBitOfJoin(apic, reg, 8, n);
    BitIsDigit(Join(apic, reg, 8), n);
  }
}
