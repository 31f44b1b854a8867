/** The C operators of unsigned long (64 bits) on counters: natural numbers below 2^64,
    with the wrap written out and & and | defined on the binary digits. */
module UnsignedLong {

  import Arithmetic

  const MODULUS: nat := 0x1_0000_0000_0000_0000

  function Wrap(v: nat): (r: nat)
    ensures r < MODULUS
  {
    v % MODULUS
  }

  function And(x: nat, y: nat): nat {
    if x == 0 || y == 0 then 0
    else 2 * And(x / 2, y / 2) + (if x % 2 == 1 && y % 2 == 1 then 1 else 0)
  }

  function Or(x: nat, y: nat): nat
    decreases x + y
  {
    if x == 0 && y == 0 then 0
    else 2 * Or(x / 2, y / 2) + (if x % 2 == 1 || y % 2 == 1 then 1 else 0)
  }

  function Pow2(k: nat): (p: nat)
    ensures p > 0
  {
    if k == 0 then 1 else 2 * Pow2(k - 1)
  }

  /** Masking with k ones is the remainder modulo 2^k. */
  lemma {:induction false} AndMask(x: nat, k: nat)
    ensures And(x, Pow2(k) - 1) == x % Pow2(k)
  {
    if k == 0 {
    } else if x == 0 {
      Arithmetic.DivModUnique(0, 0, 0, Pow2(k));
    } else {
      var p := Pow2(k - 1);
      AndMask(x / 2, k - 1);
      AndOdd(x, p - 1);
      Arithmetic.ModProduct(x, 2, p);
      assert Pow2(k) == 2 * p && 2 * (p - 1) + 1 == Pow2(k) - 1;
    }
  }

  lemma AndOdd(x: nat, m: nat)
    ensures And(x, 2 * m + 1) == 2 * And(x / 2, m) + x % 2
  {
    assert (2 * m + 1) / 2 == m && (2 * m + 1) % 2 == 1;
  }

  /** Or-ing fewer bits into those that a left shift freed is addition. */
  lemma {:induction false} OrDisjoint(y: nat, x: nat, k: nat)
    requires y < Pow2(k)
    ensures Or(y, x * Pow2(k)) == x * Pow2(k) + y
  {
    if k == 0 {
      OrZero(x);
    } else {
      var v := x * Pow2(k - 1);
      assert x * Pow2(k) == 2 * v;
      OrDisjoint(y / 2, x, k - 1);
      assert Or(y, 2 * v) == 2 * Or(y / 2, v) + y % 2;
    }
  }

  lemma {:induction false} OrZero(x: nat)
    ensures Or(0, x) == x
  {
    if x > 0 {
      OrZero(x / 2);
    }
  }
}
