/** The MD5 message digest of RFC 1321 (sections 3.1 to 3.5), on 32-bit words:
    the reference that the streaming code is proved against. */
module Rfc1321 {

  import Arithmetic
  import opened Bytes

  type Word = bv32

  // Section 3.4: the auxiliary functions of the four rounds.
  function F(x: Word, y: Word, z: Word): Word { (x & y) | (!x & z) }
  function G(x: Word, y: Word, z: Word): Word { (x & z) | (y & !z) }
  function H(x: Word, y: Word, z: Word): Word { x ^ y ^ z }
  function I(x: Word, y: Word, z: Word): Word { y ^ (x | !z) }

  function Auxiliary(round: nat, x: Word, y: Word, z: Word): Word {
    if round == 0 then F(x, y, z)
    else if round == 1 then G(x, y, z)
    else if round == 2 then H(x, y, z)
    else I(x, y, z)
  }

  // The word of the block that operation i uses.
  function Index(i: nat): (k: nat)
    ensures k < 16
  {
    if i < 16 then i
    else if i < 32 then (1 + 5 * i) % 16
    else if i < 48 then (5 + 3 * i) % 16
    else (7 * i) % 16
  }

  // The rotation of operation i.
  function Shift(i: nat): (s: bv6)
    ensures 0 < s < 32
  {
    if i < 16 then Cycle(i, 7, 12, 17, 22)
    else if i < 32 then Cycle(i, 5, 9, 14, 20)
    else if i < 48 then Cycle(i, 4, 11, 16, 23)
    else Cycle(i, 6, 10, 15, 21)
  }

  function Cycle(i: nat, s0: bv6, s1: bv6, s2: bv6, s3: bv6): bv6 {
    if i % 4 == 0 then s0 else if i % 4 == 1 then s1 else if i % 4 == 2 then s2 else s3
  }

  // T[i + 1] of section 3.4.
  function T(i: nat): Word
    requires i < 64
  {
    var row := TableRow(i / 4);
    if i % 4 == 0 then row.0 else if i % 4 == 1 then row.1 else if i % 4 == 2 then row.2 else row.3
  }

  function TableRow(k: nat): (Word, Word, Word, Word)
    requires k < 16
  {
    match k
    case 0 => (0xD76AA478, 0xE8C7B756, 0x242070DB, 0xC1BDCEEE)
    case 1 => (0xF57C0FAF, 0x4787C62A, 0xA8304613, 0xFD469501)
    case 2 => (0x698098D8, 0x8B44F7AF, 0xFFFF5BB1, 0x895CD7BE)
    case 3 => (0x6B901122, 0xFD987193, 0xA679438E, 0x49B40821)
    case 4 => (0xF61E2562, 0xC040B340, 0x265E5A51, 0xE9B6C7AA)
    case 5 => (0xD62F105D, 0x02441453, 0xD8A1E681, 0xE7D3FBC8)
    case 6 => (0x21E1CDE6, 0xC33707D6, 0xF4D50D87, 0x455A14ED)
    case 7 => (0xA9E3E905, 0xFCEFA3F8, 0x676F02D9, 0x8D2A4C8A)
    case 8 => (0xFFFA3942, 0x8771F681, 0x6D9D6122, 0xFDE5380C)
    case 9 => (0xA4BEEA44, 0x4BDECFA9, 0xF6BB4B60, 0xBEBFBC70)
    case 10 => (0x289B7EC6, 0xEAA127FA, 0xD4EF3085, 0x04881D05)
    case 11 => (0xD9D4D039, 0xE6DB99E5, 0x1FA27CF8, 0xC4AC5665)
    case 12 => (0xF4292244, 0x432AFF97, 0xAB9423A7, 0xFC93A039)
    case 13 => (0x655B59C3, 0x8F0CCC92, 0xFFEFF47D, 0x85845DD1)
    case 14 => (0x6FA87E4F, 0xFE2CE6E0, 0xA3014314, 0x4E0811A1)
    case _ => (0xF7537E82, 0xBD3AF235, 0x2AD7D2BB, 0xEB86D391)
  }

  // One operation "[abcd k s i]" of section 3.4: a round, a word of the block, a rotation, a constant.
  datatype Op = Op(round: nat, k: nat, s: bv6, t: Word)

  function Operation(i: nat): (op: Op)
    requires i < 64
    ensures op.k < 16 && 0 < op.s < 32
  {
    Op(i / 16, Index(i), Shift(i), T(i))
  }

  datatype Registers = Registers(a: Word, b: Word, c: Word, d: Word)

  function AddWords(x: Word, y: Word): Word { x + y }

  function RotateLeft(x: Word, s: bv6): Word
    requires 0 < s < 32
  {
    (x << s) | (x >> (32 - s))
  }

  // b + ((a + f + x + t) <<< s)
  function Mix(a: Word, f: Word, b: Word, x: Word, s: bv6, t: Word): Word
    requires 0 < s < 32
  {
    AddWords(b, RotateLeft(AddWords(AddWords(AddWords(a, f), x), t), s))
  }

  // The roles of the registers rotate: the word just computed is the next b.
  function Apply(op: Op, r: Registers, x: seq<Word>): Registers
    requires |x| == 16 && op.k < 16 && 0 < op.s < 32
  {
    var m := Mix(r.a, Auxiliary(op.round, r.b, r.c, r.d), r.b, x[op.k], op.s, op.t);
    Registers(r.d, m, r.b, r.c)
  }

  // The registers after the first n operations on the block x.
  function Operations(n: nat, r: Registers, x: seq<Word>): Registers
    requires n <= 64 && |x| == 16
    decreases |x|, n
  {
    if n == 0 then r else Apply(Operation(n - 1), Operations(n - 1, r, x), x)
  }

  // Section 2: bytes to words and back, low-order byte first.
  function DecodeWord(b0: Byte, b1: Byte, b2: Byte, b3: Byte): Word {
    (b0 as Word) | ((b1 as Word) << 8) | ((b2 as Word) << 16) | ((b3 as Word) << 24)
  }

  function EncodeWord(w: Word): (s: seq<Byte>)
    ensures |s| == 4
  {
    [(w & 0xFF) as Byte, ((w >> 8) & 0xFF) as Byte, ((w >> 16) & 0xFF) as Byte, ((w >> 24) & 0xFF) as Byte]
  }

  function Decode(block: seq<Byte>): (x: seq<Word>)
    requires |block| == 64
    ensures |x| == 16
  {
    seq(16, k requires 0 <= k < 16 =>
      DecodeWord(block[4 * k], block[4 * k + 1], block[4 * k + 2], block[4 * k + 3]))
  }

  function Encode(r: Registers): (s: seq<Byte>)
    ensures |s| == 16
  {
    EncodeWord(r.a) + EncodeWord(r.b) + EncodeWord(r.c) + EncodeWord(r.d)
  }

  function AddRegisters(h: Registers, r: Registers): Registers {
    Registers(AddWords(h.a, r.a), AddWords(h.b, r.b), AddWords(h.c, r.c), AddWords(h.d, r.d))
  }

  // Section 3.4: what one 64-byte block does to the chaining registers.
  function Compress(h: Registers, block: seq<Byte>): Registers
    requires |block| == 64
  {
    AddRegisters(h, Operations(64, h, Decode(block)))
  }

  // Section 3.3.
  const INIT := Registers(0x6745_2301, 0xEFCD_AB89, 0x98BA_DCFE, 0x1032_5476)

  /** The initial registers as section 3.3 lists them, byte by byte. */
  lemma InitBytes()
    ensures Encode(INIT) == [0x01, 0x23, 0x45, 0x67, 0x89, 0xAB, 0xCD, 0xEF,
                             0xFE, 0xDC, 0xBA, 0x98, 0x76, 0x54, 0x32, 0x10]
  {
  }

  /** Section 2: every word of a block is made of its own four bytes, in order. */
  lemma DecodeBytes(block: seq<Byte>, k: nat)
    requires |block| == 64 && k < 16
    ensures EncodeWord(Decode(block)[k]) == block[4 * k..4 * k + 4]
  {
    WordBytes(block[4 * k], block[4 * k + 1], block[4 * k + 2], block[4 * k + 3]);
  }

  lemma WordBytes(b0: Byte, b1: Byte, b2: Byte, b3: Byte)
    ensures EncodeWord(DecodeWord(b0, b1, b2, b3)) == [b0, b1, b2, b3]
  {
  }

  // The chaining registers after the blocks of m, from the first to the last.
  function Absorb(m: seq<Byte>): Registers
    requires |m| % 64 == 0
    decreases |m|, 1
  {
    if m == [] then INIT else AbsorbLast(m[..|m| - 64], m[|m| - 64..])
  }

  // The same after the blocks of m and one more.
  function AbsorbLast(m: seq<Byte>, block: seq<Byte>): Registers
    requires |m| % 64 == 0 && |block| == 64
    decreases |m|, 2
  {
    Compress(Absorb(m), block)
  }

  // Section 3.1: at least one byte of padding, up to 56 modulo 64.
  function PadLength(n: nat): (p: nat)
    ensures 1 <= p <= 64 && (n + p) % 64 == 56
  {
    1 + (119 - n % 64) % 64
  }

  function Zeros(n: nat): (z: seq<Byte>)
    ensures |z| == n
  {
    seq(n, k => 0)
  }

  // Sections 3.1 and 3.2: what is appended to a message of n bytes: the padding, then
  // the length in bits, of which 64 bits are kept.
  function Padding(n: nat): (p: seq<Byte>)
    ensures |p| == PadLength(n) + 8 && (n + |p|) % 64 == 0
  {
    PadAligns(n, PadLength(n));
    [0x80] + Zeros(PadLength(n) - 1) + Le(8 * n, 8)
  }

  function Pad(m: seq<Byte>): (p: seq<Byte>)
    ensures |p| % 64 == 0
  {
    m + Padding(|m|)
  }

  lemma PadAligns(n: nat, p: nat)
    requires (n + p) % 64 == 56
    ensures (n + (p + 8)) % 64 == 0
  {
    Arithmetic.DivModUnique(n + p + 8, (n + p) / 64 + 1, 0, 64);
  }

  // Section 3.5.
  function Digest(m: seq<Byte>): (d: seq<Byte>)
    ensures |d| == 16
  {
    Encode(Absorb(Pad(m)))
  }
}
