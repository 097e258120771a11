/** Unsigned 32-bit words as integers: the shifts, masks and bitwise or the
    vertex encoders use, with the facts that turn an or of disjoint fields
    into a sum. */
module Words {
  const WordSize: nat := 0x1_0000_0000

  function Pow2(k: nat): (p: nat)
    ensures p >= 1
  {
    if k == 0 then 1 else 2 * Pow2(k - 1)
  }

  /** Bitwise or, one bit at a time from the bottom. */
  function Or(a: nat, b: nat): nat
    decreases a + b
  {
    if a == 0 then b
    else if b == 0 then a
    else 2 * Or(a / 2, b / 2) + (if a % 2 == 1 || b % 2 == 1 then 1 else 0)
  }

  /** `a << k` on a u32: the bits pushed past bit 31 are lost. */
  function Shl(a: nat, k: nat): (r: nat)
    ensures r < WordSize
  {
    (a * Pow2(k)) % WordSize
  }

  /** Or-ing two numbers below `2^k` stays below `2^k`: no bit above the
      operands' is set. */
  lemma {:induction false} OrBelow(a: nat, b: nat, k: nat)
    requires a < Pow2(k) && b < Pow2(k)
    ensures Or(a, b) < Pow2(k)
    decreases a + b
  {
    if a != 0 && b != 0 {
      OrBelow(a / 2, b / 2, k - 1);
    }
  }

  lemma Pow2Values()
    ensures Pow2(1) == 2 && Pow2(8) == 0x100 && Pow2(10) == 0x400 && Pow2(13) == 0x2000
    ensures Pow2(16) == 0x1_0000 && Pow2(17) == 0x2_0000 && Pow2(24) == 0x100_0000 && Pow2(32) == WordSize
  {
    assert Pow2(17) == 2 * Pow2(16);
    Pow2Step(0, 8);
    Pow2Step(8, 2);
    Pow2Step(8, 5);
    Pow2Step(8, 8);
    Pow2Step(16, 8);
    Pow2Step(24, 8);
  }

  /** `Pow2(k + n)` for the small `n` the encoders use. */
  lemma Pow2Step(k: nat, n: nat)
    requires n in {2, 5, 8}
    ensures n == 2 ==> Pow2(k + n) == 4 * Pow2(k)
    ensures n == 5 ==> Pow2(k + n) == 32 * Pow2(k)
    ensures n == 8 ==> Pow2(k + n) == 256 * Pow2(k)
  {
    assert Pow2(k + 1) == 2 * Pow2(k);
    assert Pow2(k + 2) == 2 * Pow2(k + 1);
    if n > 2 {
      assert Pow2(k + 3) == 2 * Pow2(k + 2);
      assert Pow2(k + 4) == 2 * Pow2(k + 3);
      assert Pow2(k + 5) == 2 * Pow2(k + 4);
      if n > 5 {
        assert Pow2(k + 6) == 2 * Pow2(k + 5);
        assert Pow2(k + 7) == 2 * Pow2(k + 6);
        assert Pow2(k + 8) == 2 * Pow2(k + 7);
      }
    }
  }

  /** Whole words added below a word-sized remainder vanish modulo the word. */
  lemma {:induction false} ModAfterWords(q: nat, x: nat)
    requires x < 0x1_0000_0000
    ensures (q * 0x1_0000_0000 + x) % 0x1_0000_0000 == x
  {
    if q > 0 {
      ModAfterWords(q - 1, x);
      assert q * 0x1_0000_0000 + x == (q - 1) * 0x1_0000_0000 + x + 0x1_0000_0000;
    }
  }

  lemma {:induction false} OrComm(a: nat, b: nat)
    ensures Or(a, b) == Or(b, a)
    decreases a + b
  {
    if a != 0 && b != 0 {
      OrComm(a / 2, b / 2);
    }
  }

  lemma MulDouble(b: nat, p: nat)
    ensures b * (2 * p) == 2 * (b * p)
  {
  }

  lemma MulPositive(b: nat, p: nat)
    requires b >= 1 && p >= 1
    ensures b * p >= 1
  {
  }

  /** Or-ing in a field above the top bit of `a` is adding it. */
  lemma {:induction false} OrLowDisjoint(a: nat, b: nat, k: nat)
    requires a < Pow2(k)
    ensures Or(a, b * Pow2(k)) == a + b * Pow2(k)
  {
    var big := b * Pow2(k);
    if a == 0 {
      assert Or(a, big) == big;
    } else if b == 0 {
      assert big == 0;
    } else {
      assert k != 0;
      var p := Pow2(k - 1);
      assert Pow2(k) == 2 * p;
      MulDouble(b, p);
      MulPositive(b, p);
      var half := b * p;
      assert big == 2 * half && big != 0;
      assert big / 2 == half && big % 2 == 0;
      OrLowDisjoint(a / 2, b, k - 1);
      assert Or(a / 2, half) == a / 2 + half;
      assert Or(a, big) == 2 * Or(a / 2, big / 2) + (if a % 2 == 1 || big % 2 == 1 then 1 else 0);
    }
  }

  /** The same with the shifted field on the left. */
  lemma OrHighDisjoint(b: nat, a: nat, k: nat)
    requires a < Pow2(k)
    ensures Or(b * Pow2(k), a) == b * Pow2(k) + a
  {
    OrComm(b * Pow2(k), a);
    OrLowDisjoint(a, b, k);
  }

}
