/** HMAC with MD5, as section 2 of RFC 2104 states it, for keys of any length. */
module Rfc2104 {

  import opened Bytes
  import opened Rfc1321

  // A key of at most 64 bytes, padded with zeros to a block.
  function PadKey(key: seq<Byte>): (block: seq<Byte>)
    requires |key| <= 64
    ensures |block| == 64
    ensures block[..|key|] == key && forall i :: |key| <= i < 64 ==> block[i] == 0
  {
    key + Zeros(64 - |key|)
  }

  // A longer key is replaced by its digest.
  function KeyBlock(key: seq<Byte>): (block: seq<Byte>)
    ensures |block| == 64
  {
    PadKey(if |key| <= 64 then key else Digest(key))
  }

  function XorByte(b: Byte, mask: Byte): Byte {
    b ^ mask
  }

  function XorAll(block: seq<Byte>, mask: Byte): (r: seq<Byte>)
    ensures |r| == |block|
  {
    seq(|block|, i requires 0 <= i < |block| => XorByte(block[i], mask))
  }

  /** Exclusive or, bit by bit: a bit of the result is set when exactly one of the two is. */
  lemma XorBits(b: Byte, mask: Byte)
    ensures XorByte(b, mask) == (b & !mask) | (!b & mask)
    ensures XorByte(XorByte(b, mask), mask) == b
  {
    RawXor(b, mask);
    assert XorByte(b, mask) == b ^ mask;
    assert XorByte(b ^ mask, mask) == (b ^ mask) ^ mask;
  }

  lemma RawXor(b: Byte, mask: Byte)
    ensures b ^ mask == (b & !mask) | (!b & mask)
    ensures (b ^ mask) ^ mask == b
  {
  }

  /** The same on blocks: applied twice it gives the block back. */
  lemma XorTwice(block: seq<Byte>, mask: Byte)
    ensures XorAll(XorAll(block, mask), mask) == block
    ensures forall i :: 0 <= i < |block| ==> XorAll(block, mask)[i] == (block[i] & !mask) | (!block[i] & mask)
  {
    forall i | 0 <= i < |block|
      ensures XorAll(block, mask)[i] == (block[i] & !mask) | (!block[i] & mask)
      ensures XorAll(XorAll(block, mask), mask)[i] == block[i]
    {
      XorBits(block[i], mask);
    }
  }

  /** So a pad determines the key block. */
  lemma PadDetermines(block: seq<Byte>, other: seq<Byte>, mask: Byte)
    requires XorAll(block, mask) == XorAll(other, mask)
    ensures block == other
  {
    XorTwice(block, mask);
    XorTwice(other, mask);
  }

  // H((K xor opad) ++ H((K xor ipad) ++ text)) for a key block K.
  function HmacOfBlock(block: seq<Byte>, text: seq<Byte>): seq<Byte> {
    Digest(XorAll(block, 0x5C) + Digest(XorAll(block, 0x36) + text))
  }

  function Hmac(key: seq<Byte>, text: seq<Byte>): seq<Byte> {
    HmacOfBlock(KeyBlock(key), text)
  }
}
