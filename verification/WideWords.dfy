/** The arithmetic of md5.c on unsigned long, 64 bits wide and never masked:
    its low 32 bits are the arithmetic of RFC 1321, whatever the high halves hold. */
module WideWords {

  import opened Bytes
  import opened Rfc1321

  type Wide = bv64

  function Low(x: Wide): Word {
    (x & 0xFFFF_FFFF) as Word
  }

  function Lows(a: Wide, b: Wide, c: Wide, d: Wide): Registers {
    Registers(Low(a), Low(b), Low(c), Low(d))
  }

  // The macro S.
  function MacroS(x: Wide, n: bv6): Wide
    requires 0 < n < 32
  {
    (x << n) | ((x & 0xFFFF_FFFF) >> (32 - n))
  }

  // Addition of unsigned long.
  function Plus(x: Wide, y: Wide): Wide {
    x + y
  }

  // The macro P, with f for the value of F(b,c,d).
  function MacroP(a: Wide, f: Wide, b: Wide, x: Wide, s: bv6, t: Wide): Wide
    requires 0 < s < 32
  {
    Plus(MacroS(Plus(a, Plus(Plus(f, x), t)), s), b)
  }

  /** The macro F as the four rounds define it: the rewritten F and G, and the unmasked
      complement in I, are the textbook functions on the low halves. */
  lemma LowF(x: Wide, y: Wide, z: Wide)
    ensures Low(z ^ (x & (y ^ z))) == F(Low(x), Low(y), Low(z))
  {
  }

  lemma LowG(x: Wide, y: Wide, z: Wide)
    ensures Low(y ^ (z & (x ^ y))) == G(Low(x), Low(y), Low(z))
  {
  }

  lemma LowH(x: Wide, y: Wide, z: Wide)
    ensures Low(x ^ y ^ z) == H(Low(x), Low(y), Low(z))
  {
  }

  lemma LowI(x: Wide, y: Wide, z: Wide)
    ensures Low(y ^ (x | !z)) == I(Low(x), Low(y), Low(z))
  {
  }

  /** The macro S, which masks one side only, rotates the low half. */
  lemma LowMacroS(x: Wide, n: bv6)
    requires 0 < n < 32
    ensures Low(MacroS(x, n)) == RotateLeft(Low(x), n)
  {
    RawRotate(x, n);
    assert MacroS(x, n) == (x << n) | ((x & 0xFFFF_FFFF) >> (32 - n));
    assert RotateLeft((x & 0xFFFF_FFFF) as Word, n)
        == (((x & 0xFFFF_FFFF) as Word) << n) | (((x & 0xFFFF_FFFF) as Word) >> (32 - n));
  }

  lemma RawRotate(x: Wide, n: bv6)
    requires 0 < n < 32
    ensures Low((x << n) | ((x & 0xFFFF_FFFF) >> (32 - n)))
         == (((x & 0xFFFF_FFFF) as Word) << n) | (((x & 0xFFFF_FFFF) as Word) >> (32 - n))
  {
    RawRotate0(x, n);
  }

  lemma RawRotate0(x: Wide, n: bv6)
    requires 0 < n < 32
    ensures (((x << n) | ((x & 0xFFFF_FFFF) >> (32 - n))) & 0xFFFF_FFFF) as Word
         == (((x & 0xFFFF_FFFF) as Word) << n) | (((x & 0xFFFF_FFFF) as Word) >> (32 - n))
  {
  }

  /** Addition modulo 2^64 is addition modulo 2^32 on the low halves. */
  lemma LowAdd(x: Wide, y: Wide)
    ensures Low(Plus(x, y)) == AddWords(Low(x), Low(y))
  {
    assert Plus(x, y) == x + y;
    assert AddWords((x & 0xFFFF_FFFF) as Word, (y & 0xFFFF_FFFF) as Word) == ((x + y) & 0xFFFF_FFFF) as Word;
  }

  /** The macro P computes the step of section 3.4 on the low halves. */
  lemma LowMacroP(a: Wide, f: Wide, b: Wide, x: Wide, s: bv6, t: Wide)
    requires 0 < s < 32
    ensures Low(MacroP(a, f, b, x, s, t)) == Mix(Low(a), Low(f), Low(b), Low(x), s, Low(t))
  {
    var fx := Plus(f, x);
    var fxt := Plus(fx, t);
    var sum := Plus(a, fxt);
    LowAdd(f, x);
    LowAdd(fx, t);
    LowAdd(a, fxt);
    LowMacroS(sum, s);
    LowAdd(MacroS(sum, s), b);
    AddAssoc(Low(a), Low(fx), Low(t));
    AddAssoc(Low(a), Low(f), Low(x));
    AddCommutes(RotateLeft(Low(sum), s), Low(b));
  }

  lemma AddAssoc(x: Word, y: Word, z: Word)
    ensures AddWords(x, AddWords(y, z)) == AddWords(AddWords(x, y), z)
  {
    assert AddWords(y, z) == y + z && AddWords(x, y) == x + y;
    assert AddWords(x, y + z) == x + (y + z);
    assert AddWords(x + y, z) == x + (y + z);
  }

  lemma AddCommutes(x: Word, y: Word)
    ensures AddWords(x, y) == AddWords(y, x)
  {
  }

  // The macros GET_UINT32_LE and PUT_UINT32_LE.
  function Get(b0: Byte, b1: Byte, b2: Byte, b3: Byte): Wide {
    (b0 as Wide) | ((b1 as Wide) << 8) | ((b2 as Wide) << 16) | ((b3 as Wide) << 24)
  }

  function Put(n: Wide): (s: seq<Byte>)
    ensures |s| == 4
  {
    [(n & 0xFF) as Byte, ((n >> 8) & 0xFF) as Byte, ((n >> 16) & 0xFF) as Byte, ((n >> 24) & 0xFF) as Byte]
  }

  lemma LowGet(b0: Byte, b1: Byte, b2: Byte, b3: Byte)
    ensures Low(Get(b0, b1, b2, b3)) == DecodeWord(b0, b1, b2, b3)
  {
  }

  lemma PutIsEncode(n: Wide)
    ensures Put(n) == EncodeWord(Low(n))
  {
  }

  /** GET after PUT gives the word back modulo 2^32, and PUT after GET the bytes. */
  lemma GetPut(n: Wide)
    ensures var s := Put(n); Low(Get(s[0], s[1], s[2], s[3])) == Low(n)
  {
  }

  lemma PutGet(b0: Byte, b1: Byte, b2: Byte, b3: Byte)
    ensures Put(Get(b0, b1, b2, b3)) == [b0, b1, b2, b3]
  {
  }
}
