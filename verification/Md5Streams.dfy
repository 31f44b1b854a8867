/** Whole runs of md5.c: any number of updates, of any lengths, and keys of any length. */
module Md5Streams {

  import opened Bytes
  import opened Rfc1321
  import Rfc2104
  import opened Md5

  function Concat(chunks: seq<seq<Byte>>): seq<Byte> {
    if chunks == [] then [] else Concat(chunks[..|chunks| - 1]) + chunks[|chunks| - 1]
  }

  method CopyOf(chunk: seq<Byte>) returns (a: array<Byte>)
    ensures fresh(a) && a.Length == |chunk| && a[..|chunk|] == chunk
  {
    a := new Byte[|chunk|](i requires 0 <= i < |chunk| => chunk[i]);
  }

  // Feeding the chunks one after the other, empty ones included.
  method UpdateAll(ctx: Context, chunks: seq<seq<Byte>>)
    requires ctx.Valid()
    requires forall i :: 0 <= i < |chunks| ==> |chunks[i]| < 0x8000_0000
    modifies ctx, ctx.total, ctx.state, ctx.buffer
    ensures ctx.Valid() && ctx.Message() == old(ctx.Message()) + Concat(chunks)
  {
    var i := 0;
    assert old(ctx.Message()) + Concat(chunks[..0]) == old(ctx.Message());
    while i < |chunks|
      invariant 0 <= i <= |chunks| && ctx.Valid()
      invariant ctx.Message() == old(ctx.Message()) + Concat(chunks[..i])
    {
      var input := CopyOf(chunks[i]);
      ctx.Update(input, |chunks[i]|);
      ConcatStep(old(ctx.Message()), chunks, i);
      i := i + 1;
    }
    assert chunks[..i] == chunks;
  }

  lemma ConcatStep(m: seq<Byte>, chunks: seq<seq<Byte>>, i: nat)
    requires i < |chunks|
    ensures m + Concat(chunks[..i + 1]) == m + Concat(chunks[..i]) + chunks[i]
    ensures chunks[i] == [] ==> m + Concat(chunks[..i + 1]) == m + Concat(chunks[..i]) + []
  {
    assert chunks[..i + 1][..i] == chunks[..i];
  }

  /** Streaming equals one-shot: the digest depends on the concatenation alone. */
  method DigestOfChunks(chunks: seq<seq<Byte>>, output: array<Byte>)
    requires forall i :: 0 <= i < |chunks| ==> |chunks[i]| < 0x8000_0000
    requires output.Length >= 16
    modifies output
    ensures output[..16] == Digest(Concat(chunks)) && output[16..] == old(output[16..])
  {
    var ctx := new Context();
    ctx.Starts();
    UpdateAll(ctx, chunks);
    ghost var m := Concat(chunks);
    assert ctx.Message() == m;
    ctx.Finish(output);
    assert ctx.digest(m) == Digest(m);
  }

  /** HMAC over any chunking of the text. */
  method HmacOfChunks(key: array<Byte>, keylen: int, chunks: seq<seq<Byte>>, output: array<Byte>)
    requires forall i :: 0 <= i < |chunks| ==> |chunks[i]| < 0x8000_0000
    requires keylen <= key.Length && output.Length >= 16
    modifies output
    ensures output[..16] == Rfc2104.HmacOfBlock(CodeKeyBlock(old(Given(key, keylen))), Concat(chunks))
    ensures output[16..] == old(output[16..])
  {
    ghost var block := CodeKeyBlock(Given(key, keylen));
    var ctx := new Context();
    ctx.HmacStarts(key, keylen);
    UpdateAll(ctx, chunks);
    assert ctx.Message() == Rfc2104.XorAll(block, 0x36) + Concat(chunks);
    ctx.HmacFinish(output);
    HmacOfPads(ctx.digest, block, Concat(chunks));
  }

  /** The code's key block is that of RFC 2104 exactly for keys of at most 64 bytes and for those
      longer keys whose digest, padded, happens to be their own first block. */
  lemma KeyBlockAgrees(key: seq<Byte>)
    ensures CodeKeyBlock(key) == Rfc2104.KeyBlock(key)
       <==> |key| <= 64 || (key[..16] == Digest(key) && key[16..64] == Zeros(48))
  {
    if |key| > 64 {
      var d := Digest(key);
      assert Rfc2104.KeyBlock(key) == d + Zeros(48);
      assert CodeKeyBlock(key) == key[..64] + Zeros(0) == key[..64];
      assert key[..64] == key[..16] + key[16..64];
      assert (d + Zeros(48))[..16] == d && (d + Zeros(48))[16..] == Zeros(48);
      assert key[..64][..16] == key[..16] && key[..64][16..] == key[16..64];
    }
  }

  /** So for keys of at most 64 bytes the code is HMAC. */
  lemma HmacOfShortKeys(key: seq<Byte>, text: seq<Byte>)
    requires |key| <= 64
    ensures Rfc2104.HmacOfBlock(CodeKeyBlock(key), text) == Rfc2104.Hmac(key, text)
  {
  }

  /** Of a longer key only the first 64 bytes count. */
  lemma HmacOfLongKeys(key: seq<Byte>, text: seq<Byte>)
    requires |key| > 64
    ensures Rfc2104.HmacOfBlock(CodeKeyBlock(key), text) == Rfc2104.Hmac(key[..64], text)
  {
    assert |key[..64]| == 64;
  }

  /** A key for which the code departs from RFC 2104. */
  lemma KeyBlockDiffers()
    ensures var key := seq(65, i => 1 as Byte); CodeKeyBlock(key) != Rfc2104.KeyBlock(key)
  {
    var key := seq(65, i => 1 as Byte);
    assert key[16..64][0] == 1;
    assert Zeros(48)[0] == 0;
    KeyBlockAgrees(key);
  }
}
