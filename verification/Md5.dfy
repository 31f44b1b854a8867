/** md5.c: a digest computed in place over a stream of updates, and HMAC-MD5 on top of it. */
module Md5 {

  import opened Bytes
  import opened Rfc1321
  import Rfc2104
  import opened UnsignedLong
  import opened WideWords
  import Md5Counter
  import Md5Process

  class Context {
    const total: array<nat>
    const state: array<Wide>
    const buffer: array<Byte>
    const ipad: array<Byte>
    const opad: array<Byte>

    // The bytes given since Starts: the complete blocks, and the rest.
    ghost var absorbed: seq<Byte>
    ghost var pending: seq<Byte>

    // Absorb and Digest of RFC 1321, and Counts, as values: the streaming does not look into them.
    ghost const absorb: seq<Byte> -> Registers
    ghost const digest: seq<Byte> -> seq<Byte>
    ghost const counts: (nat, nat, nat) -> bool

    ghost predicate Shape() {
      && total.Length == 2 && state.Length == 4
      && buffer.Length == ipad.Length == opad.Length == 64
      && buffer != ipad && buffer != opad && ipad != opad
      && Apart(buffer) && Apart(ipad) && Apart(opad)
      && IsAbsorb(absorb) && IsDigest(digest) && IsCounts(counts)
    }

    // An array of bytes shares no memory with the counter and the state.
    ghost predicate Apart(bytes: array<Byte>) {
      bytes as object != total && bytes as object != state && total as object != state
    }

    ghost function StateWords(): Registers
      requires Shape()
      reads state
    {
      Lows(state[0], state[1], state[2], state[3])
    }

    // The state has absorbed the complete blocks, and the buffer holds the rest.
    ghost predicate Streaming()
      reads this, state, buffer
    {
      && Shape()
      && |absorbed| % 64 == 0 && |pending| < 64
      && StateWords() == absorb(absorbed)
      && buffer[..|pending|] == pending
    }

    // Moreover, the counter counts all bytes.
    ghost predicate Valid()
      reads this, total, state, buffer
    {
      Streaming() && counts(total[0], total[1], |Message()|)
    }

    ghost function Message(): seq<Byte>
      reads this
    {
      absorbed + pending
    }

    constructor ()
      ensures Shape() && fresh(total) && fresh(state) && fresh(buffer) && fresh(ipad) && fresh(opad)
    {
      total := new nat[2];
      state := new Wide[4];
      buffer := new Byte[64];
      ipad := new Byte[64];
      opad := new Byte[64];
      counts := (total0: nat, total1: nat, n: nat) => Md5Counter.Counts(total0, total1, n);
      digest := m => Digest(m);
      absorb := m => if |m| % 64 == 0 then Absorb(m) else INIT;
    }

    method Starts()
      requires Shape()
      modifies this, total, state
      ensures Valid() && Message() == []
    {
      total[0] := 0;
      total[1] := 0;
      state[0] := 0x6745_2301;
      state[1] := 0xEFCD_AB89;
      state[2] := 0x98BA_DCFE;
      state[3] := 0x1032_5476;
      absorbed, pending := [], [];
      assert StateWords() == INIT == Absorb([]);
      assert Md5Counter.Counts(0, 0, 0);
    }

    method Process(data: array<Byte>, offset: nat)
      requires Shape() && offset + 64 <= data.Length
      modifies state
      ensures StateWords() == Compress(old(StateWords()), old(data[offset..offset + 64]))
    {
      ghost var block := data[offset..offset + 64];
      ghost var h := StateWords();
      var words := GetWords(data, offset);
      var a, b, c, d := Md5Process.ProcessWords(words, state[0], state[1], state[2], state[3], Decode(block));
      state[0], state[1], state[2], state[3] := a, b, c, d;
    }

    // md5_update on the counter of n bytes; left is what the buffer holds.
    method Count(ilen: nat, ghost n: nat) returns (left: nat)
      requires Shape() && counts(total[0], total[1], n) && ilen < 0x8000_0000
      modifies total
      ensures counts(total[0], total[1], n + ilen)
      ensures left == n % 64
    {
      assert Md5Counter.Counts(total[0], total[1], n);
      Md5Counter.LeftIsPending(total[0], total[1], n);
      Md5Counter.CarryKeepsCount(total[0], total[1], n, ilen);
      left := And(total[0], 0x3F);
      total[0] := Wrap(total[0] + ilen);
      total[0] := And(total[0], 0xFFFF_FFFF);
      if total[0] < ilen {
        total[1] := Wrap(total[1] + 1);
      }
      assert Md5Counter.Counts(total[0], total[1], n + ilen);
    }

    // memcpy(buffer + offset, input + pos, count)
    method Copy(offset: nat, input: array<Byte>, pos: nat, count: nat)
      requires Shape() && input != buffer
      requires offset + count <= 64 && pos + count <= input.Length
      modifies buffer
      ensures buffer[..offset + count] == old(buffer[..offset]) + input[pos..pos + count]
    {
      forall k | 0 <= k < count {
        buffer[offset + k] := input[pos + k];
      }
    }

    // md5_process on the next 64 bytes.
    method Absorb64(data: array<Byte>, offset: nat)
      requires Shape() && |absorbed| % 64 == 0 && StateWords() == absorb(absorbed)
      requires offset + 64 <= data.Length
      modifies this`absorbed, state
      ensures absorbed == old(absorbed) + old(data[offset..offset + 64])
      ensures StateWords() == absorb(absorbed)
    {
      ghost var block := data[offset..offset + 64];
      Process(data, offset);
      AbsorbBlock(absorb, absorbed, block);
      absorbed := absorbed + block;
    }

    // md5_update, first: complete the block in the buffer, if the input s suffices.
    method Fill(input: array<Byte>, ilen: nat, left: nat, ghost s: seq<Byte>) returns (pos: nat, left': nat)
      requires Streaming() && left == |pending| && input != buffer
      requires ilen <= input.Length && s == input[..ilen]
      modifies this`absorbed, this`pending, state, buffer
      ensures Streaming() && left' == |pending| && s == input[..ilen]
      ensures pos <= ilen && Message() == old(Message()) + s[..pos]
      ensures left' == 0 || left' + ilen - pos < 64
    {
      pos, left' := 0, left;
      var fill := 64 - left;
      ghost var a, p := absorbed, pending;
      if left != 0 && ilen >= fill {
        Copy(left, input, 0, fill);
        assert buffer[0..64] == p + s[..fill];
        Absorb64(buffer, 0);
        pending := [];
        pos, left' := fill, 0;
        assert absorbed + pending == a + p + s[..fill];
      } else {
        assert a + p == a + p + s[..0];
      }
    }

    // md5_update, then: the complete blocks of the input.
    method Blocks(input: array<Byte>, start: nat, ilen: nat, ghost s: seq<Byte>) returns (pos: nat)
      requires Streaming() && start <= ilen <= input.Length && s == input[..ilen]
      requires pending == [] || ilen - start < 64
      modifies this`absorbed, state
      ensures Streaming() && start <= pos <= ilen < pos + 64 && s == input[..ilen]
      ensures absorbed == old(absorbed) + s[start..pos]
      ensures pos == start || pending == []
    {
      pos := start;
      var len := ilen - start;
      while len >= 64
        invariant start <= pos && pos + len == ilen && 0 <= len
        invariant Streaming() && s == input[..ilen]
        invariant pending == [] || (pos == start && len < 64)
        invariant absorbed == old(absorbed) + s[start..pos]
      {
        NextBlock(input, pos, ilen, s, old(absorbed), start);
        pos := pos + 64;
        len := len - 64;
      }
    }

    // md5_process on a block of the input, a being what was absorbed when the loop started.
    method NextBlock(input: array<Byte>, pos: nat, ilen: nat, ghost s: seq<Byte>, ghost a: seq<Byte>, ghost start: nat)
      requires Streaming() && pending == [] && start <= pos && pos + 64 <= ilen <= input.Length && s == input[..ilen]
      requires absorbed == a + s[start..pos]
      modifies this`absorbed, state
      ensures Streaming() && s == input[..ilen]
      ensures absorbed == a + s[start..pos + 64]
    {
      SliceOfTake(input[..], ilen, pos, pos + 64);
      Absorb64(input, pos);
      Extend(a, s, start, pos, pos + 64);
    }

    // md5_update, last: the rest of the input goes to the buffer.
    method Keep(input: array<Byte>, pos: nat, ilen: nat, left: nat, ghost s: seq<Byte>)
      requires Streaming() && left == |pending| && input != buffer
      requires pos <= ilen <= input.Length && s == input[..ilen] && left + ilen - pos < 64
      modifies this`pending, buffer
      ensures Streaming()
      ensures Message() == old(Message()) + s[pos..]
    {
      if ilen - pos > 0 {
        Copy(left, input, pos, ilen - pos);
        pending := pending + s[pos..];
      }
    }

    // md5_update after the counter.
    method Feed(input: array<Byte>, ilen: nat, left: nat)
      requires Streaming() && left == |pending| && input != buffer && ilen <= input.Length
      modifies this`absorbed, this`pending, state, buffer
      ensures Streaming() && total[..] == old(total[..])
      ensures Message() == old(Message()) + old(input[..ilen])
    {
      ghost var m, s := Message(), input[..ilen];
      var filled, left' := Fill(input, ilen, left, s);
      ghost var a, p := absorbed, pending;
      var pos := Blocks(input, filled, ilen, s);
      Keep(input, pos, ilen, left', s);
      Join(m, s, filled, pos, a, p);
    }

    method Update(input: array<Byte>, ilen: int)
      requires Valid()
      requires Apart(input) && input != buffer
      requires ilen <= input.Length && ilen < 0x8000_0000
      modifies this, total, state, buffer
      ensures Valid()
      ensures Message() == old(Message()) + if ilen > 0 then old(input[..ilen]) else []
    {
      if ilen <= 0 {
        assert Message() + [] == Message();
        return;
      }
      ghost var m, s := Message(), input[..ilen];
      var left := Count(ilen, |m|);
      assert Streaming() && left == |pending| && Message() == m && input[..ilen] == s;
      Feed(input, ilen, left);
    }

    // md5_finish, first: the eight length bytes, taken before the padding changes the counter.
    method LengthField() returns (msglen: array<Byte>)
      requires Valid()
      ensures fresh(msglen) && msglen.Length == 8 && msglen[..8] == Le(8 * |Message()|, 8)
    {
      var high := Or(total[0] / 0x2000_0000, Wrap(total[1] * 8));
      var low := Wrap(total[0] * 8);
      msglen := new Byte[8];
      PutLe32(low, msglen, 0);
      PutLe32(high, msglen, 4);
      assert Md5Counter.Counts(total[0], total[1], |Message()|);
      Md5Counter.LengthBytes(total[0], total[1], |Message()|);
    }

    // md5_finish, then: the number of padding bytes.
    method PaddingCount() returns (padn: nat)
      requires Valid()
      ensures padn == PadLength(|Message()|)
    {
      assert Md5Counter.Counts(total[0], total[1], |Message()|);
      Md5Counter.LeftIsPending(total[0], total[1], |Message()|);
      Md5Counter.PaddingIsLeast(|Message()|);
      var last := And(total[0], 0x3F);
      padn := if last < 56 then 56 - last else 120 - last;
    }

    // md5_finish, then: the two updates that complete the last block.
    method Complete(msglen: array<Byte>, ghost bytes: seq<Byte>)
      requires Valid() && Apart(msglen) && msglen != buffer
      requires msglen.Length == 8 && msglen[..8] == bytes
      modifies this, total, state, buffer
      ensures Valid()
      ensures Message() == old(Message()) + ([0x80] + Zeros(PadLength(|old(Message())|) - 1)) + bytes
    {
      var padn := PaddingCount();
      var padding := PaddingArray();
      Update(padding, padn);
      assert msglen[..8] == bytes;
      Update(msglen, 8);
    }

    method Finish(output: array<Byte>)
      requires Valid()
      requires Apart(output) && output != buffer && output.Length >= 16
      modifies this, total, state, buffer, output
      ensures Valid() && Message() == Pad(old(Message()))
      ensures output[..16] == digest(old(Message())) && output[16..] == old(output[16..])
    {
      ghost var m := Message();
      var msglen := LengthField();
      Complete(msglen, msglen[..8]);
      PadJoin(m);
      Output(output);
      assert digest(m) == Digest(m);
    }

    // The last four macro calls of md5_finish.
    method Output(output: array<Byte>)
      requires Valid() && |Message()| % 64 == 0
      requires Apart(output) && output != buffer && output.Length >= 16
      modifies output
      ensures Valid() && output[..16] == Encode(Absorb(Message())) && output[16..] == old(output[16..])
    {
      assert pending == [] && absorbed == Message();
      assert StateWords() == Absorb(Message());
      PutState(state, output);
    }

    // The context holds the pads of a key block.
    ghost predicate HasPads(block: seq<Byte>)
      reads ipad, opad
    {
      Shape() && |block| == 64
      && ipad[..] == Rfc2104.XorAll(block, 0x36) && opad[..] == Rfc2104.XorAll(block, 0x5C)
    }

    method HmacStarts(key: array<Byte>, keylen: int)
      requires Shape() && key != ipad && key != opad && keylen <= key.Length
      modifies this, total, state, buffer, ipad, opad
      ensures Valid() && HasPads(CodeKeyBlock(old(Given(key, keylen))))
      ensures Message() == ipad[..]
    {
      ghost var k := Given(key, keylen);
      Fill64(ipad, 0x36);
      Fill64(opad, 0x5C);
      XorKey(key, keylen, ipad, opad);
      Starts();
      Update(ipad, 64);
      assert Message() == ipad[..];
    }

    method HmacUpdate(input: array<Byte>, ilen: int)
      requires Valid()
      requires Apart(input) && input != buffer
      requires ilen <= input.Length && ilen < 0x8000_0000
      modifies this, total, state, buffer
      ensures Valid()
      ensures Message() == old(Message()) + if ilen > 0 then old(input[..ilen]) else []
    {
      Update(input, ilen);
    }

    method HmacFinish(output: array<Byte>)
      requires Valid() && Apart(output) && output.Length >= 16
      requires output != buffer && output != ipad && output != opad
      modifies this, total, state, buffer, output
      ensures Valid()
      ensures output[..16] == digest(opad[..] + digest(old(Message()))) && output[16..] == old(output[16..])
    {
      var tmpbuf := new Byte[16];
      Finish(tmpbuf);
      assert tmpbuf[..] == tmpbuf[..16];
      Outer(tmpbuf, output);
    }

    // The second half of md5_hmac_finish: the outer digest, in the same context.
    method Outer(tmpbuf: array<Byte>, output: array<Byte>)
      requires Shape() && Apart(output) && output.Length >= 16
      requires output != buffer && output != ipad && output != opad
      requires Apart(tmpbuf) && tmpbuf != buffer && tmpbuf.Length == 16
      modifies this, total, state, buffer, output
      ensures Valid()
      ensures output[..16] == digest(opad[..] + old(tmpbuf[..])) && output[16..] == old(output[16..])
    {
      ghost var inner := tmpbuf[..];
      Starts();
      Update(opad, 64);
      assert Message() == opad[..] && tmpbuf[..16] == inner;
      Update(tmpbuf, 16);
      Finish(output);
    }
  }

  // memset(a, mask, 64)
  method Fill64(a: array<Byte>, mask: Byte)
    requires a.Length == 64
    modifies a
    ensures a[..] == seq(64, j => mask)
  {
    forall j | 0 <= j < 64 {
      a[j] := mask;
    }
  }

  // The bytes that a caller of the C functions gives: a length of zero or less gives none.
  ghost function Given(key: array<Byte>, keylen: int): seq<Byte>
    requires keylen <= key.Length
    reads key
  {
    if keylen <= 0 then [] else key[..keylen]
  }

  // The key block that the code makes: of a long key, the first 64 bytes.
  function CodeKeyBlock(key: seq<Byte>): (block: seq<Byte>)
    ensures |block| == 64
  {
    Rfc2104.PadKey(if |key| <= 64 then key else key[..64])
  }

  // The loop of md5_hmac_starts: it stops after 64 key bytes.
  method XorKey(key: array<Byte>, keylen: int, ipad: array<Byte>, opad: array<Byte>)
    requires keylen <= key.Length && ipad.Length == opad.Length == 64
    requires key != ipad && key != opad && ipad != opad
    requires ipad[..] == seq(64, j => 0x36) && opad[..] == seq(64, j => 0x5C)
    modifies ipad, opad
    ensures var block := CodeKeyBlock(old(Given(key, keylen)));
            ipad[..] == Rfc2104.XorAll(block, 0x36) && opad[..] == Rfc2104.XorAll(block, 0x5C)
  {
    ghost var k := Given(key, keylen);
    ghost var block := CodeKeyBlock(k);
    var i := 0;
    while i < keylen
      invariant 0 <= i <= 64 && i <= |k|
      invariant ipad[..] == Masked(block, i, 0x36)
      invariant opad[..] == Masked(block, i, 0x5C)
      invariant Given(key, keylen) == k
    {
      if i >= 64 {
        break;
      }
      MaskedStep(k, i, 0x36);
      MaskedStep(k, i, 0x5C);
      assert key[i] == k[i];
      XorInto(ipad, i, key[i]);
      XorInto(opad, i, key[i]);
      i := i + 1;
    }
    MaskedAll(k, i, 0x36);
    MaskedAll(k, i, 0x5C);
  }

  // a[i] ^= b
  method XorInto(a: array<Byte>, i: nat, b: Byte)
    requires i < a.Length
    modifies a
    ensures a[..] == old(a[..])[i := Rfc2104.XorByte(old(a[i]), b)]
  {
    assert a[i] ^ b == Rfc2104.XorByte(a[i], b);
    a[i] := a[i] ^ b;
  }

  // The pad when i bytes of the key block have been xored in.
  ghost function Masked(block: seq<Byte>, i: nat, mask: Byte): (r: seq<Byte>)
    requires |block| == 64
    ensures |r| == 64
  {
    seq(64, j requires 0 <= j < 64 => if j < i then Rfc2104.XorByte(block[j], mask) else mask)
  }

  lemma MaskedStep(k: seq<Byte>, i: nat, mask: Byte)
    requires i < 64 && i < |k|
    ensures var block := CodeKeyBlock(k);
            Masked(block, i + 1, mask) == Masked(block, i, mask)[i := Rfc2104.XorByte(mask, k[i])]
  {
    XorSwaps(k[i], mask);
    assert CodeKeyBlock(k)[i] == k[i];
  }

  lemma MaskedAll(k: seq<Byte>, i: nat, mask: Byte)
    requires i == 64 || (i == |k| <= 64)
    ensures var block := CodeKeyBlock(k);
            Masked(block, i, mask) == Rfc2104.XorAll(block, mask)
  {
    assert Rfc2104.XorByte(0, mask) == mask;
  }

  lemma XorSwaps(b: Byte, c: Byte)
    ensures Rfc2104.XorByte(b, c) == Rfc2104.XorByte(c, b)
  {
  }

  method PutState(state: array<Wide>, output: array<Byte>)
    requires state.Length == 4 && output.Length >= 16 && output as object != state
    modifies output
    ensures output[..16] == Encode(Lows(state[0], state[1], state[2], state[3])) && output[16..] == old(output[16..])
  {
    ghost var rest := output[16..];
    assert rest == output[4..][12..];
    PutWord(state[0], output, 0);
    assert rest == output[4..][12..] == output[8..][8..];
    PutWord(state[1], output, 4);
    assert rest == output[8..][8..] == output[12..][4..];
    PutWord(state[2], output, 8);
    assert rest == output[12..][4..];
    PutWord(state[3], output, 12);
  }

  // md5_padding
  method PaddingArray() returns (padding: array<Byte>)
    ensures fresh(padding) && padding.Length == 64
    ensures forall p {:trigger Zeros(p)} :: 0 <= p < 64 ==> padding[..p + 1] == [0x80] + Zeros(p)
  {
    padding := new Byte[64](k => if k == 0 then 0x80 else 0);
  }

  lemma PadJoin(m: seq<Byte>)
    ensures m + ([0x80] + Zeros(PadLength(|m|) - 1)) + Le(8 * |m|, 8) == Pad(m)
  {
    Assoc(m, [0x80] + Zeros(PadLength(|m|) - 1), Le(8 * |m|, 8));
  }

  lemma Assoc(a: seq<Byte>, b: seq<Byte>, c: seq<Byte>)
    ensures a + b + c == a + (b + c)
  {
  }

  // PUT_UINT32_LE of a state word.
  method PutWord(n: Wide, b: array<Byte>, i: nat)
    requires i + 4 <= b.Length
    modifies b
    ensures b[..i + 4] == old(b[..i]) + EncodeWord(Low(n)) && b[i + 4..] == old(b[i + 4..])
  {
    b[i] := (n & 0xFF) as Byte;
    b[i + 1] := ((n >> 8) & 0xFF) as Byte;
    b[i + 2] := ((n >> 16) & 0xFF) as Byte;
    b[i + 3] := ((n >> 24) & 0xFF) as Byte;
    PutIsEncode(n);
    assert b[i..i + 4] == Put(n);
  }

  lemma SliceOfTake(s: seq<Byte>, n: nat, i: nat, j: nat)
    requires i <= j <= n <= |s|
    ensures s[..n][i..j] == s[i..j]
  {
  }

  lemma Extend(a: seq<Byte>, s: seq<Byte>, i: nat, j: nat, k: nat)
    requires i <= j <= k <= |s|
    ensures a + s[i..j] + s[j..k] == a + s[i..k]
  {
  }

  // The message m, then s, of which the part from i to j went through a + p to the blocks.
  lemma Join(m: seq<Byte>, s: seq<Byte>, i: nat, j: nat, a: seq<Byte>, p: seq<Byte>)
    requires i <= j <= |s| && a + p == m + s[..i] && (i == j || p == [])
    ensures a + s[i..j] + p + s[j..] == m + s
  {
    assert m + s == m + s[..i] + s[i..j] + s[j..];
  }

  // GET_UINT32_LE on the sixteen words of a block.
  method GetWords(data: array<Byte>, offset: nat) returns (words: seq<Wide>)
    requires offset + 64 <= data.Length
    ensures Md5Process.SameWords(words, Decode(data[offset..offset + 64]))
  {
    ghost var block := data[offset..offset + 64];
    words := seq(16, k requires 0 <= k < 16 reads data =>
      Get(data[offset + 4 * k], data[offset + 4 * k + 1], data[offset + 4 * k + 2], data[offset + 4 * k + 3]));
    forall k | 0 <= k < 16
      ensures Decode(block)[k] == Low(words[k])
    {
      LowGet(block[4 * k], block[4 * k + 1], block[4 * k + 2], block[4 * k + 3]);
    }
  }

  ghost predicate IsAbsorb(absorb: seq<Byte> -> Registers) {
    forall m: seq<Byte> {:trigger Absorb(m)} :: |m| % 64 == 0 ==> absorb(m) == Absorb(m)
  }

  ghost predicate IsDigest(digest: seq<Byte> -> seq<Byte>) {
    forall m: seq<Byte> {:trigger Digest(m)} :: digest(m) == Digest(m)
  }

  ghost predicate IsCounts(counts: (nat, nat, nat) -> bool) {
    forall total0: nat, total1: nat, n: nat {:trigger Md5Counter.Counts(total0, total1, n)} ::
      counts(total0, total1, n) == Md5Counter.Counts(total0, total1, n)
  }

  // Absorbing one more block.
  lemma AbsorbBlock(absorb: seq<Byte> -> Registers, m: seq<Byte>, block: seq<Byte>)
    requires IsAbsorb(absorb) && |m| % 64 == 0 && |block| == 64
    ensures absorb(m + block) == Compress(absorb(m), block)
  {
    var p := m + block;
    assert p[..|p| - 64] == m;
    assert p[|p| - 64..] == block;
    assert Absorb(p) == AbsorbLast(m, block) == Compress(Absorb(m), block);
    assert absorb(p) == Absorb(p) && absorb(m) == Absorb(m);
  }

  /** md5: the digest of the input in one call. */
  method Md5(input: array<Byte>, ilen: int, output: array<Byte>)
    requires ilen <= input.Length && ilen < 0x8000_0000 && output.Length >= 16
    modifies output
    ensures output[..16] == Digest(old(Given(input, ilen))) && output[16..] == old(output[16..])
  {
    ghost var m := Given(input, ilen);
    var ctx := new Context();
    ctx.Starts();
    ctx.Update(input, ilen);
    assert ctx.Message() == m;
    ctx.Finish(output);
    assert ctx.digest(m) == Digest(m);
  }

  /** md5_hmac: the authentication code of the input under the key in one call. */
  method HmacMd5(key: array<Byte>, keylen: int, input: array<Byte>, ilen: int, output: array<Byte>)
    requires keylen <= key.Length && ilen <= input.Length && ilen < 0x8000_0000 && output.Length >= 16
    modifies output
    ensures output[..16] == Rfc2104.HmacOfBlock(CodeKeyBlock(old(Given(key, keylen))), old(Given(input, ilen)))
    ensures output[16..] == old(output[16..])
  {
    ghost var block, text := CodeKeyBlock(Given(key, keylen)), Given(input, ilen);
    var ctx := new Context();
    ctx.HmacStarts(key, keylen);
    ctx.HmacUpdate(input, ilen);
    assert ctx.Message() == Rfc2104.XorAll(block, 0x36) + text;
    ctx.HmacFinish(output);
    HmacOfPads(ctx.digest, block, text);
  }

  lemma HmacOfPads(digest: seq<Byte> -> seq<Byte>, block: seq<Byte>, text: seq<Byte>)
    requires IsDigest(digest)
    ensures digest(Rfc2104.XorAll(block, 0x5C) + digest(Rfc2104.XorAll(block, 0x36) + text))
         == Rfc2104.HmacOfBlock(block, text)
  {
    var inner := Rfc2104.XorAll(block, 0x36) + text;
    assert digest(inner) == Digest(inner);
    var outer := Rfc2104.XorAll(block, 0x5C) + Digest(inner);
    assert digest(outer) == Digest(outer);
  }
}
