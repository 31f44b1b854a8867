/** Bytes, and the little-endian encoding of natural numbers that the digest
    and the device protocol share. */
module Bytes {

  import Arithmetic

  type Byte = bv8

  // The C conversion of an unsigned value to unsigned char.
  function ToByte(v: nat): Byte {
    ByteOf(v % 256)
  }

  // A byte from its two hexadecimal digits.
  function ByteOf(x: nat): Byte
    requires x < 256
  {
    Nibbles((x / 16) as bv4, (x % 16) as bv4)
  }

  function Nibbles(high: bv4, low: bv4): Byte {
    ((high as Byte) << 4) | (low as Byte)
  }

  // v with its n low bytes dropped, that is v >> 8n.
  function DropBytes(v: nat, n: nat): nat {
    if n == 0 then v else DropBytes(v / 256, n - 1)
  }

  // The n low bytes of v, least significant first.
  function Le(v: nat, n: nat): (s: seq<Byte>)
    ensures |s| == n
    decreases n, v
  {
    if n == 0 then [] else [ToByte(v)] + Le(v / 256, n - 1)
  }

  // The number whose little-endian bytes are s.
  function LeValue(s: seq<Byte>): nat {
    if s == [] then 0 else (s[0] as nat) + 256 * LeValue(s[1..])
  }

  function Pow256(n: nat): (p: nat)
    ensures p > 0
  {
    if n == 0 then 1 else 256 * Pow256(n - 1)
  }

  lemma NibbleCast(x: nat)
    requires x < 16
    ensures (x as bv4) as nat == x
  {
  }

  lemma NibblesValue(high: bv4, low: bv4)
    ensures Nibbles(high, low) as nat == 16 * (high as nat) + (low as nat)
  {
  }

  lemma ByteOfValue(x: nat)
    requires x < 256
    ensures ByteOf(x) as nat == x
  {
    NibbleCast(x / 16);
    NibbleCast(x % 16);
    NibblesValue((x / 16) as bv4, (x % 16) as bv4);
  }

  lemma ToByteValue(v: nat)
    ensures ToByte(v) as nat == v % 256
  {
    ByteOfValue(v % 256);
  }

  lemma ByteInjective(b: Byte, c: Byte)
    requires b as nat == c as nat
    ensures b == c
  {
  }

  /** Decoding an encoding gives the number back modulo 256^n. */
  lemma {:induction false} LeRoundTrip(v: nat, n: nat)
    ensures LeValue(Le(v, n)) == v % Pow256(n)
  {
    if n > 0 {
      LeRoundTrip(v / 256, n - 1);
      ToByteValue(v);
      Arithmetic.ModProduct(v, 256, Pow256(n - 1));
      assert Le(v, n)[1..] == Le(v / 256, n - 1);
    }
  }

  lemma Pow256Values()
    ensures Pow256(2) == 0x1_0000 && Pow256(3) == 0x100_0000 && Pow256(4) == 0x1_0000_0000
  {
  }

  lemma LeExact(v: nat, n: nat)
    requires v < Pow256(n)
    ensures LeValue(Le(v, n)) == v
  {
    LeRoundTrip(v, n);
    Arithmetic.DivModUnique(v, 0, v, Pow256(n));
  }

  lemma LeRoundTrip32(v: nat)
    requires v < 0x1_0000_0000
    ensures LeValue(Le(v, 4)) == v
  {
    Pow256Values();
    LeExact(v, 4);
  }

  lemma LeRoundTrip16(v: nat)
    requires v < 0x1_0000
    ensures LeValue(Le(v, 2)) == v
  {
    Pow256Values();
    LeExact(v, 2);
  }

  /** An encoding in n + m bytes is one in n bytes followed by one of the remaining high part. */
  lemma {:induction false} LeSplit(v: nat, n: nat, m: nat)
    ensures Le(v, n + m) == Le(v, n) + Le(DropBytes(v, n), m)
  {
    if n > 0 {
      LeSplit(v / 256, n - 1, m);
    }
  }

  /** Only the value modulo 256^n is encoded. */
  lemma {:induction false} LeCongruent(v: nat, w: nat, n: nat)
    requires v % Pow256(n) == w % Pow256(n)
    ensures Le(v, n) == Le(w, n)
  {
    if n > 0 {
      Arithmetic.ModProduct(v, 256, Pow256(n - 1));
      Arithmetic.ModProduct(w, 256, Pow256(n - 1));
      LeCongruent(v / 256, w / 256, n - 1);
    }
  }

  /** Encoding a decoded sequence gives it back, and its value is below 256^n. */
  lemma {:induction false} LeValueRoundTrip(s: seq<Byte>)
    ensures LeValue(s) < Pow256(|s|) && Le(LeValue(s), |s|) == s
  {
    if s != [] {
      LeValueRoundTrip(s[1..]);
      var v := LeValue(s);
      assert v / 256 == LeValue(s[1..]) && v % 256 == s[0] as nat;
      assert v == (s[0] as nat) + 256 * LeValue(s[1..]);
      ToByteValue(v);
      ByteInjective(ToByte(v), s[0]);
    }
  }

  lemma LeValueOfTwo(b: seq<Byte>)
    requires |b| == 2
    ensures LeValue(b) == b[0] as nat + 256 * (b[1] as nat)
  {
    assert b[1..][1..] == [];
    assert LeValue(b[1..]) == b[1] as nat + 256 * LeValue(b[1..][1..]);
  }

  lemma LeValueOfFour(b: seq<Byte>)
    requires |b| == 4
    ensures LeValue(b) == LeValue(b[..2]) + 0x1_0000 * LeValue(b[2..])
  {
    LeValueOfTwo(b[..2]);
    assert b[1..][1..] == b[2..];
    assert LeValue(b[1..]) == b[1] as nat + 256 * LeValue(b[2..]);
    assert LeValue(b) == b[0] as nat + 256 * LeValue(b[1..]);
  }

  /** The value of four bytes, low-order first. */
  lemma FourBytes(b: seq<Byte>)
    requires |b| == 4
    ensures LeValue(b) == b[0] as nat + 256 * (b[1] as nat) + 0x1_0000 * (b[2] as nat + 256 * (b[3] as nat))
  {
    LeValueOfTwo(b[..2]);
    LeValueOfTwo(b[2..]);
    LeValueOfFour(b);
  }

  lemma LeValueInjective(b: seq<Byte>, c: seq<Byte>)
    requires |b| == |c| && LeValue(b) == LeValue(c)
    ensures b == c
  {
    LeValueRoundTrip(b);
    LeValueRoundTrip(c);
  }

  lemma BytesOf(b: seq<Byte>, v: nat)
    requires |b| == 4
    requires v == (b[0] as nat + 256 * (b[1] as nat)) + 0x1_0000 * (b[2] as nat + 256 * (b[3] as nat))
    ensures Le(v, 4) == b
  {
    FourBytes(b);
    LeValueRoundTrip(b);
  }

  lemma LeValueBelow32(b: seq<Byte>)
    requires |b| == 4
    ensures LeValue(b) < 0x1_0000_0000
  {
    LeValueRoundTrip(b);
    Pow256Values();
  }

  // Storing the low four bytes of n at b[i..i + 4]: PUT_UINT32_LE of a counter, or a store
  // through a pointer to uint32_t on a little-endian machine.
  method PutLe32(n: nat, b: array<Byte>, i: nat)
    requires i + 4 <= b.Length
    modifies b
    ensures b[..] == old(b[..i]) + Le(n, 4) + old(b[i + 4..])
  {
    b[i] := ToByte(n);
    b[i + 1] := ToByte(n / 0x100);
    b[i + 2] := ToByte(n / 0x1_0000);
    b[i + 3] := ToByte(n / 0x100_0000);
    LeOfFour(n);
  }

  lemma LeOfFour(n: nat)
    ensures Le(n, 4) == [ToByte(n), ToByte(n / 0x100), ToByte(n / 0x1_0000), ToByte(n / 0x100_0000)]
  {
    LeOfTwo(n);
    LeOfTwo(n / 0x1_0000);
    LeSplit(n, 2, 2);
    DropTwo(n);
  }

  lemma DropTwo(n: nat)
    ensures DropBytes(n, 2) == n / 0x1_0000 && (n / 0x1_0000) / 0x100 == n / 0x100_0000
  {
    assert DropBytes(n, 2) == DropBytes(n / 0x100, 1) == DropBytes((n / 0x100) / 0x100, 0);
  }

  lemma LeOfTwo(n: nat)
    ensures Le(n, 2) == [ToByte(n), ToByte(n / 0x100)]
  {
    LeStep(n, 1);
    LeStep(n / 0x100, 0);
  }

  lemma LeStep(n: nat, k: nat)
    ensures Le(n, k + 1) == [ToByte(n)] + Le(n / 0x100, k)
  {
  }

  // The same for uint16_t.
  method PutLe16(n: nat, b: array<Byte>, i: nat)
    requires i + 2 <= b.Length
    modifies b
    ensures b[..] == old(b[..i]) + Le(n, 2) + old(b[i + 2..])
  {
    b[i] := ToByte(n);
    b[i + 1] := ToByte(n / 0x100);
    LeOfTwo(n);
  }
}
