/** Bitwise operators on unsigned machine words, written as arithmetic on naturals. */
module Bits {

  function Pow2(k: nat): (p: nat)
    ensures p >= 1
  {
    if k == 0 then 1 else 2 * Pow2(k - 1)
  }

  /** Bit `i` of `x`, counted from the least significant one. */
  predicate Bit(x: nat, i: nat) {
    if i == 0 then x % 2 == 1 else Bit(x / 2, i - 1)
  }

  function And(a: nat, b: nat): nat {
    if a == 0 || b == 0 then 0
    else 2 * And(a / 2, b / 2) + (if a % 2 == 1 && b % 2 == 1 then 1 else 0)
  }

  function Or(a: nat, b: nat): nat {
    if a == 0 && b == 0 then 0
    else 2 * Or(a / 2, b / 2) + (if a % 2 == 1 || b % 2 == 1 then 1 else 0)
  }

  /** `a << k` in a word of `width` bits: what leaves the word is lost. */
  function Shl(a: nat, k: nat, width: nat): (r: nat)
    ensures r < Pow2(width)
  {
    a * Pow2(k) % Pow2(width)
  }

  /** `!a` in a word of `width` bits. */
  function Not(a: nat, width: nat): nat
    requires a < Pow2(width)
  {
    Pow2(width) - 1 - a
  }

  lemma {:induction false} BitOfZero(i: nat)
    ensures !Bit(0, i)
  {
    if i > 0 { BitOfZero(i - 1); }
  }

  lemma {:induction false} BitOfOr(a: nat, b: nat, i: nat)
    ensures Bit(Or(a, b), i) == (Bit(a, i) || Bit(b, i))
  {
    if a == 0 && b == 0 {
      BitOfZero(i);
    } else if i > 0 {
      BitOfOr(a / 2, b / 2, i - 1);
    }
  }

  lemma {:induction false} BitOfPow2(k: nat, i: nat)
    ensures Bit(Pow2(k), i) == (i == k)
  {
    if k > 0 && i > 0 {
      BitOfPow2(k - 1, i - 1);
    } else if k == 0 && i > 0 {
      BitOfZero(i - 1);
    }
  }

  lemma {:induction false} BitOfProduct(a: nat, k: nat, i: nat)
    ensures Bit(a * Pow2(k), i) == (k <= i && Bit(a, i - k))
  {
    if k > 0 {
      assert a * Pow2(k) == 2 * (a * Pow2(k - 1));
      if i > 0 { BitOfProduct(a, k - 1, i - 1); }
    }
  }

  lemma {:induction false} HalveModPow2(x: nat, w: nat)
    requires w > 0
    ensures x % Pow2(w) == 2 * (x / 2 % Pow2(w - 1)) + x % 2
  {
    var p := Pow2(w - 1);
    var q, r := x / 2 / p, x / 2 % p;
    assert x / 2 == q * p + r;
    var s := 2 * r + x % 2;
    assert x == q * (2 * p) + s;
    DivModUnique(x, 2 * p, q, s);
  }

  lemma DivModUnique(x: nat, d: nat, q: nat, r: nat)
    requires x == q * d + r && r < d
    ensures x / d == q && x % d == r
  {
    var q', r' := x / d, x % d;
    assert x == q' * d + r' && r' < d by { assert x == d * q' + r'; }
    Distribute(q, q', d);
    Distribute(q', q, d);
    if q > q' {
      AtLeastOnce(q - q', d);
    } else if q < q' {
      AtLeastOnce(q' - q, d);
    }
  }

  lemma Distribute(a: int, b: int, d: int)
    ensures (a - b) * d == a * d - b * d
  {
  }

  lemma AtLeastOnce(k: int, d: nat)
    requires k >= 1
    ensures k * d >= d
  {
    assert k * d == d + (k - 1) * d;
  }

  lemma {:induction false} BitOfMod(x: nat, w: nat, i: nat)
    ensures Bit(x % Pow2(w), i) == (i < w && Bit(x, i))
  {
    if w == 0 {
      assert x % Pow2(w) == 0;
      BitOfZero(i);
    } else {
      var m, y := x % Pow2(w), x / 2 % Pow2(w - 1);
      assert m == 2 * y + x % 2 by { HalveModPow2(x, w); }
      assert m / 2 == y && m % 2 == x % 2;
      if i > 0 {
        BitOfMod(x / 2, w - 1, i - 1);
        assert Bit(m, i) == Bit(y, i - 1);
      }
    }
  }

  lemma BitOfShl(a: nat, k: nat, w: nat, i: nat)
    ensures Bit(Shl(a, k, w), i) == (i < w && k <= i && Bit(a, i - k))
  {
    BitOfMod(a * Pow2(k), w, i);
    BitOfProduct(a, k, i);
  }

  /** Testing a word against a one-bit mask reads exactly that bit. */
  lemma {:induction false} MaskTestsBit(a: nat, k: nat)
    ensures And(a, Pow2(k)) != 0 <==> Bit(a, k)
  {
    if k == 0 {
      assert Pow2(0) / 2 == 0;
    } else if a == 0 {
      BitOfZero(k);
    } else {
      MaskTestsBit(a / 2, k - 1);
    }
  }

  lemma {:induction false} OrBound(a: nat, b: nat, w: nat)
    requires a < Pow2(w) && b < Pow2(w)
    ensures Or(a, b) < Pow2(w)
  {
    if w > 0 { OrBound(a / 2, b / 2, w - 1); }
  }

  lemma {:induction false} Pow2Add(j: nat, k: nat)
    ensures Pow2(j + k) == Pow2(j) * Pow2(k)
  {
    if j > 0 { Pow2Add(j - 1, k); }
  }

  lemma {:induction false} Pow2Monotone(j: nat, k: nat)
    requires j <= k
    ensures Pow2(j) <= Pow2(k)
    decreases k
  {
    if j < k { Pow2Monotone(j, k - 1); }
  }

  lemma ShlOne(k: nat, w: nat)
    requires k < w
    ensures Shl(1, k, w) == Pow2(k)
  {
    Pow2Monotone(k + 1, w);
    var m := Pow2(w);
    assert 1 * Pow2(k) == 0 * m + Pow2(k);
    DivModUnique(1 * Pow2(k), m, 0, Pow2(k));
  }

  /** Rounding `a` down to a multiple of `d` gives `n` exactly on the block at `n`. */
  lemma AlignedBlock(n: nat, a: nat, d: nat)
    requires d > 0 && n % d == 0
    ensures a - a % d == n <==> n <= a < n + d
  {
    var q := n / d;
    assert n == q * d;
    if n <= a < n + d {
      DivModUnique(a, d, q, a - n);
    }
  }

  lemma WordSize32()
    ensures Pow2(32) == 0x1_0000_0000
  {
    assert Pow2(8) == 0x100 by { assert Pow2(4) == 16; Pow2Add(4, 4); }
    assert Pow2(16) == 0x1_0000 by { Pow2Add(8, 8); }
    Pow2Add(16, 16);
  }

  lemma WordSize128()
    ensures Pow2(128) == 0x1_0000_0000_0000_0000_0000_0000_0000_0000
  {
    WordSize32();
    assert Pow2(64) == 0x1_0000_0000_0000_0000 by { Pow2Add(32, 32); }
    Pow2Add(64, 64);
  }

  /** A mask of high ones clears the low `k` bits. */
  lemma {:induction false} AndHighMask(a: nat, k: nat, w: nat)
    requires k <= w && a < Pow2(w)
    ensures Pow2(k) <= Pow2(w)
    ensures And(a, Pow2(w) - Pow2(k)) == a - a % Pow2(k)
    decreases w
  {
    Pow2Monotone(k, w);
    if k == 0 {
      AndAllOnes(a, w);
    } else {
      var w', k' := w - 1, k - 1;
      AndHighMask(a / 2, k', w');
      DoubleMask(a, Pow2(w') - Pow2(k'), k);
      assert Pow2(w) - Pow2(k) == 2 * (Pow2(w') - Pow2(k'));
    }
  }

  lemma DoubleMask(a: nat, half: nat, k: nat)
    requires k > 0 && And(a / 2, half) == a / 2 - a / 2 % Pow2(k - 1)
    ensures And(a, 2 * half) == a - a % Pow2(k)
  {
    AndStep(a, half);
    HalveModPow2(a, k);
  }

  lemma AndStep(a: nat, b: nat)
    ensures And(a, 2 * b) == 2 * And(a / 2, b)
  {
  }

  lemma {:induction false} AndAllOnes(a: nat, w: nat)
    requires a < Pow2(w)
    ensures And(a, Pow2(w) - 1) == a
  {
    if w > 0 {
      var ones := Pow2(w - 1) - 1;
      AndAllOnes(a / 2, w - 1);
      AndOddStep(a, ones);
      assert Pow2(w) - 1 == 2 * ones + 1;
    }
  }

  lemma AndOddStep(a: nat, b: nat)
    ensures And(a, 2 * b + 1) == 2 * And(a / 2, b) + a % 2
  {
    assert (2 * b + 1) / 2 == b && (2 * b + 1) % 2 == 1;
  }

  /** Filling `k` clear low bits with ones adds them. */
  lemma {:induction false} OrLowOnes(a: nat, k: nat)
    requires a % Pow2(k) == 0
    ensures Or(a, Pow2(k) - 1) == a + Pow2(k) - 1
  {
    if k == 0 {
      OrZero(a);
    } else {
      HalveModPow2(a, k);
      OrLowOnes(a / 2, k - 1);
      assert (Pow2(k) - 1) / 2 == Pow2(k - 1) - 1;
    }
  }

  lemma {:induction false} OrZero(a: nat)
    ensures Or(a, 0) == a
  {
    if a > 0 { OrZero(a / 2); }
  }
}
