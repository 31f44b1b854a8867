/** The byte counter of md5_context: two words with a hand-written carry, and the
    eight length bytes that md5_finish takes from it. */
module Md5Counter {

  import Arithmetic
  import opened Bytes
  import opened Rfc1321
  import opened UnsignedLong

  const WORD: nat := 0x1_0000_0000

  // total[0] and total[1] after n bytes: n modulo 2^96, so n modulo 2^64 in the low halves.
  predicate Counts(total0: nat, total1: nat, n: nat) {
    total0 == n % WORD && total1 == (n / WORD) % MODULUS
  }

  /** total[0] & 0x3F is the number of bytes waiting in the buffer. */
  lemma LeftIsPending(total0: nat, total1: nat, n: nat)
    requires Counts(total0, total1, n)
    ensures And(total0, 0x3F) == n % 64
  {
    AndMask(total0, 6);
    assert Pow2(6) == 64;
    Arithmetic.ModMod(n, 64, 0x400_0000);
  }

  /** The test total[0] < ilen after the masked addition fires exactly when the low word wrapped,
      and the carry it makes keeps the count. */
  lemma CarryKeepsCount(total0: nat, total1: nat, n: nat, ilen: nat)
    requires Counts(total0, total1, n) && ilen < 0x8000_0000
    ensures var low := And(Wrap(total0 + ilen), 0xFFFF_FFFF);
            && (low < ilen <==> total0 + ilen >= WORD)
            && Counts(low, if low < ilen then Wrap(total1 + 1) else total1, n + ilen)
  {
    var sum := total0 + ilen;
    var low := And(Wrap(sum), 0xFFFF_FFFF);
    Pow2Of32();
    assert Wrap(sum) == sum;
    AndMask(sum, 32);
    var q := n / WORD;
    if sum < WORD {
      Arithmetic.DivModUnique(sum, 0, sum, WORD);
      Arithmetic.DivModUnique(n + ilen, q, sum, WORD);
    } else {
      Arithmetic.DivModUnique(sum, 1, sum - WORD, WORD);
      Arithmetic.DivModUnique(n + ilen, q + 1, sum - WORD, WORD);
      Arithmetic.ModAdd(q, 1, MODULUS);
    }
  }

  /** The padding is the least one: at least a byte, and no shorter one reaches 56 modulo 64. */
  lemma PaddingIsLeast(n: nat)
    ensures var last := n % 64;
            (if last < 56 then 56 - last else 120 - last) == PadLength(n)
    ensures forall p {:trigger Zeros(p)} :: 1 <= p < PadLength(n) ==> (n + p) % 64 != 56
  {
  }

  lemma Pow2Of32()
    ensures Pow2(32) == WORD
  {
    assert Pow2(8) == 0x100;
    assert Pow2(16) == 0x1_0000;
    assert Pow2(24) == 0x100_0000;
  }

  // Shifting total[1] left by three bits drops its three high bits.
  lemma HighValue(total0: nat, total1: nat)
    requires total0 < WORD
    ensures Or(total0 / 0x2000_0000, Wrap(total1 * 8))
         == 8 * (total1 % 0x2000_0000_0000_0000) + total0 / 0x2000_0000
  {
    var x := total1 % 0x2000_0000_0000_0000;
    EightTimes(total1, 0x2000_0000_0000_0000);
    assert total1 * 8 == 8 * total1 && MODULUS == 8 * 0x2000_0000_0000_0000;
    OrThree(total0 / 0x2000_0000, x);
  }

  lemma OrThree(y: nat, x: nat)
    requires y < 8
    ensures Or(y, 8 * x) == 8 * x + y
  {
    Pow2Of3();
    OrShifted(y, x, 3, 8);
  }

  lemma Pow2Of3()
    ensures Pow2(3) == 8
  {
  }

  lemma OrShifted(y: nat, x: nat, k: nat, p: nat)
    requires p == Pow2(k) && y < p
    ensures Or(y, p * x) == p * x + y
  {
    OrDisjoint(y, x, k);
    Commutes(x, p);
  }

  lemma Commutes(x: nat, p: nat)
    ensures x * p == p * x
  {
  }

  lemma EightTimes(v: nat, m: nat)
    requires m > 0
    ensures 8 * m > 0 && (8 * v) % (8 * m) == 8 * (v % m)
  {
    Arithmetic.ModProduct(8 * v, 8, m);
  }

  lemma HighCongruent(q: nat, y: nat)
    ensures (8 * ((q % MODULUS) % 0x2000_0000_0000_0000) + y) % WORD == (8 * q + y) % WORD
  {
    var x := (q % MODULUS) % 0x2000_0000_0000_0000;
    Arithmetic.ModMod(q, 0x2000_0000_0000_0000, 8);
    Arithmetic.ModMod(q, 0x2000_0000, 0x1_0000_0000);
    assert x % 0x2000_0000 == q % 0x2000_0000;
    EightTimes(x, 0x2000_0000);
    EightTimes(q, 0x2000_0000);
    Arithmetic.ModAdd(8 * x, y, WORD);
    Arithmetic.ModAdd(8 * q, y, WORD);
  }

  lemma HighWord(total0: nat, total1: nat, n: nat)
    requires Counts(total0, total1, n)
    ensures Or(total0 / 0x2000_0000, Wrap(total1 * 8)) % WORD == (8 * n / WORD) % WORD
  {
    var q := n / WORD;
    var y := total0 / 0x2000_0000;
    HighValue(total0, total1);
    HighCongruent(q, y);
    Arithmetic.DivModUnique(8 * n, 8 * q + y, 8 * (total0 % 0x2000_0000), WORD);
  }

  lemma LowHalf(v: nat)
    ensures Pow256(4) == WORD && DropBytes(v, 4) == v / WORD
  {
    var a := v / 256;
    var b := a / 256;
    var c := b / 256;
    assert DropBytes(v, 1) == a;
    assert DropBytes(v, 4) == DropBytes(a, 3) == DropBytes(b, 2) == DropBytes(c, 1) == c / 256;
  }

  /** The bytes of low and high are the 64-bit length of section 3.2. */
  lemma LengthBytes(total0: nat, total1: nat, n: nat)
    requires Counts(total0, total1, n)
    ensures Le(Wrap(total0 * 8), 4) + Le(Or(total0 / 0x2000_0000, Wrap(total1 * 8)), 4) == Le(8 * n, 8)
  {
    LowHalf(8 * n);
    LeSplit(8 * n, 4, 4);
    LowWord(total0, n);
    LeCongruent(Wrap(total0 * 8), 8 * n, 4);
    HighWord(total0, total1, n);
    LeCongruent(Or(total0 / 0x2000_0000, Wrap(total1 * 8)), 8 * n / WORD, 4);
  }

  lemma LowWord(total0: nat, n: nat)
    requires total0 == n % WORD
    ensures Wrap(total0 * 8) % WORD == 8 * n % WORD
  {
    assert n == (n / WORD) * WORD + total0;
  }
}
