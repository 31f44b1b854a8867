/** The fourth vector of the test suite in section A.5 of RFC 1321, as a consequence of the definitions:
    it ties the tables, the constants and the order of the operations to the standard. */
module Rfc1321Vector {

  import opened Bytes
  import opened Rfc1321
  import opened Md5Process

  // The letters from a to z come first.
  ghost predicate IsLetters(m: seq<Byte>) {
    && |m| >= 26
    && m[0] == 0x61 && m[1] == 0x62 && m[2] == 0x63 && m[3] == 0x64
    && m[4] == 0x65 && m[5] == 0x66 && m[6] == 0x67 && m[7] == 0x68
    && m[8] == 0x69 && m[9] == 0x6A && m[10] == 0x6B && m[11] == 0x6C
    && m[12] == 0x6D && m[13] == 0x6E && m[14] == 0x6F && m[15] == 0x70
    && m[16] == 0x71 && m[17] == 0x72 && m[18] == 0x73 && m[19] == 0x74
    && m[20] == 0x75 && m[21] == 0x76 && m[22] == 0x77 && m[23] == 0x78
    && m[24] == 0x79 && m[25] == 0x7A
  }

  // The one padded block of the letters from a to z: the letters, the first byte of the padding, zeros, and
  // 208 bits.
  ghost predicate IsPadded(block: seq<Byte>) {
    && |block| == 64 && IsLetters(block) && block[26] == 0x80
    && (forall i :: 27 <= i < 56 ==> block[i] == 0)
    && block[56] == 0xD0 && (forall i :: 57 <= i < 64 ==> block[i] == 0)
  }

  // Its words.
  ghost predicate IsWords(x: seq<Word>) {
    && |x| == 16
    && x[0] == 0x64636261 && x[1] == 0x68676665 && x[2] == 0x6C6B6A69 && x[3] == 0x706F6E6D
    && x[4] == 0x74737271 && x[5] == 0x78777675 && x[6] == 0x00807A79 && x[7] == 0x00000000
    && x[8] == 0x00000000 && x[9] == 0x00000000 && x[10] == 0x00000000 && x[11] == 0x00000000
    && x[12] == 0x00000000 && x[13] == 0x00000000 && x[14] == 0x000000D0 && x[15] == 0x00000000
  }

  // The operation i of the run, from registers that are known.
  lemma Step(run: Run, i: nat, r: Registers, op: Op, m: Word)
    requires IsRun(run) && i < 64 && run.rs[i] == r && run.ops[i] == op
    requires op.k < 16 && 0 < op.s < 32
    requires m == Mix(r.a, Auxiliary(op.round, r.b, r.c, r.d), r.b, run.x[op.k], op.s, op.t)
    ensures run.rs[i + 1] == Registers(r.d, m, r.b, r.c)
  {
    assert run.rs[i + 1] == Apply(run.ops[i], run.rs[i], run.x);
  }

  lemma Round1(run: Run)
    requires IsRun(run) && IsWords(run.x) && Listed1(run.ops)
    requires run.rs[0] == Registers(0x67452301, 0xEFCDAB89, 0x98BADCFE, 0x10325476)
    ensures run.rs[16] == Registers(0x1754A316, 0x608D6B7E, 0x00DF74D5, 0x85567D90)
  {
    Step(run, 0, Registers(0x67452301, 0xEFCDAB89, 0x98BADCFE, 0x10325476), Op(0, 0, 7, 0xD76AA478), 0xD6D117A6);
    Step(run, 1, Registers(0x10325476, 0xD6D117A6, 0xEFCDAB89, 0x98BADCFE), Op(0, 1, 12, 0xE8C7B756), 0xAAB1AAAA);
    Step(run, 2, Registers(0x98BADCFE, 0xAAB1AAAA, 0xD6D117A6, 0xEFCDAB89), Op(0, 2, 17, 0x242070DB), 0x227D8CF1);
    Step(run, 3, Registers(0xEFCDAB89, 0x227D8CF1, 0xAAB1AAAA, 0xD6D117A6), Op(0, 3, 22, 0xC1BDCEEE), 0x4503B812);
    Step(run, 4, Registers(0xD6D117A6, 0x4503B812, 0x227D8CF1, 0xAAB1AAAA), Op(0, 4, 7, 0xF57C0FAF), 0xFE15F787);
    Step(run, 5, Registers(0xAAB1AAAA, 0xFE15F787, 0x4503B812, 0x227D8CF1), Op(0, 5, 12, 0x4787C62A), 0xA811B278);
    Step(run, 6, Registers(0x227D8CF1, 0xA811B278, 0xFE15F787, 0x4503B812), Op(0, 6, 17, 0xA8304613), 0xB71122FC);
    Step(run, 7, Registers(0x4503B812, 0xB71122FC, 0xA811B278, 0xFE15F787), Op(0, 7, 22, 0xFD469501), 0xDA9BBB0D);
    Step(run, 8, Registers(0xFE15F787, 0xDA9BBB0D, 0xB71122FC, 0xA811B278), Op(0, 8, 7, 0x698098D8), 0xAE752899);
    Step(run, 9, Registers(0xA811B278, 0xAE752899, 0xDA9BBB0D, 0xB71122FC), Op(0, 9, 12, 0x8B44F7AF), 0x2BBE757F);
    Step(run, 10, Registers(0xB71122FC, 0x2BBE757F, 0xAE752899, 0xDA9BBB0D), Op(0, 10, 17, 0xFFFF5BB1), 0x7D4BD80B);
    Step(run, 11, Registers(0xDA9BBB0D, 0x7D4BD80B, 0x2BBE757F, 0xAE752899), Op(0, 11, 22, 0x895CD7BE), 0x56CFA5CB);
    Step(run, 12, Registers(0xAE752899, 0x56CFA5CB, 0x7D4BD80B, 0x2BBE757F), Op(0, 12, 7, 0x6B901122), 0x1754A316);
    Step(run, 13, Registers(0x2BBE757F, 0x1754A316, 0x56CFA5CB, 0x7D4BD80B), Op(0, 13, 12, 0xFD987193), 0x85567D90);
    Step(run, 14, Registers(0x7D4BD80B, 0x85567D90, 0x1754A316, 0x56CFA5CB), Op(0, 14, 17, 0xA679438E), 0x00DF74D5);
    Step(run, 15, Registers(0x56CFA5CB, 0x00DF74D5, 0x85567D90, 0x1754A316), Op(0, 15, 22, 0x49B40821), 0x608D6B7E);
  }

  lemma Round2(run: Run)
    requires IsRun(run) && IsWords(run.x) && Listed2(run.ops)
    requires run.rs[16] == Registers(0x1754A316, 0x608D6B7E, 0x00DF74D5, 0x85567D90)
    ensures run.rs[32] == Registers(0xF54D8710, 0xAEB35766, 0x2E69AFC7, 0x927B72E2)
  {
    Step(run, 16, Registers(0x1754A316, 0x608D6B7E, 0x00DF74D5, 0x85567D90), Op(1, 1, 5, 0xF61E2562), 0x2D8071CC);
    Step(run, 17, Registers(0x85567D90, 0x2D8071CC, 0x608D6B7E, 0x00DF74D5), Op(1, 6, 9, 0xC040B340), 0x5DCEE119);
    Step(run, 18, Registers(0x00DF74D5, 0x5DCEE119, 0x2D8071CC, 0x608D6B7E), Op(1, 11, 14, 0x265E5A51), 0xEDFE7E4B);
    Step(run, 19, Registers(0x608D6B7E, 0xEDFE7E4B, 0x5DCEE119, 0x2D8071CC), Op(1, 0, 20, 0xE9B6C7AA), 0x4C2145B3);
    Step(run, 20, Registers(0x2D8071CC, 0x4C2145B3, 0xEDFE7E4B, 0x5DCEE119), Op(1, 5, 5, 0xD62F105D), 0x570C43E0);
    Step(run, 21, Registers(0x5DCEE119, 0x570C43E0, 0x4C2145B3, 0xEDFE7E4B), Op(1, 10, 9, 0x02441453), 0x977EFD2A);
    Step(run, 22, Registers(0xEDFE7E4B, 0x977EFD2A, 0x570C43E0, 0x4C2145B3), Op(1, 15, 14, 0xD8A1E681), 0xC28AB49D);
    Step(run, 23, Registers(0x4C2145B3, 0xC28AB49D, 0x977EFD2A, 0x570C43E0), Op(1, 4, 20, 0xE7D3FBC8), 0xC9F162D4);
    Step(run, 24, Registers(0x570C43E0, 0xC9F162D4, 0xC28AB49D, 0x977EFD2A), Op(1, 9, 5, 0x21E1CDE6), 0x25BFAE3B);
    Step(run, 25, Registers(0x977EFD2A, 0x25BFAE3B, 0xC9F162D4, 0xC28AB49D), Op(1, 14, 9, 0xC33707D6), 0x89980104);
    Step(run, 26, Registers(0xC28AB49D, 0x89980104, 0x25BFAE3B, 0xC9F162D4), Op(1, 3, 14, 0xF4D50D87), 0xF8C8365F);
    Step(run, 27, Registers(0xC9F162D4, 0xF8C8365F, 0x89980104, 0x25BFAE3B), Op(1, 8, 20, 0x455A14ED), 0xE6D3B398);
    Step(run, 28, Registers(0x25BFAE3B, 0xE6D3B398, 0xF8C8365F, 0x89980104), Op(1, 13, 5, 0xA9E3E905), 0xF54D8710);
    Step(run, 29, Registers(0x89980104, 0xF54D8710, 0xE6D3B398, 0xF8C8365F), Op(1, 2, 9, 0xFCEFA3F8), 0x927B72E2);
    Step(run, 30, Registers(0xF8C8365F, 0x927B72E2, 0xF54D8710, 0xE6D3B398), Op(1, 7, 14, 0x676F02D9), 0x2E69AFC7);
    Step(run, 31, Registers(0xE6D3B398, 0x2E69AFC7, 0x927B72E2, 0xF54D8710), Op(1, 12, 20, 0x8D2A4C8A), 0xAEB35766);
  }

  lemma Round3(run: Run)
    requires IsRun(run) && IsWords(run.x) && Listed3(run.ops)
    requires run.rs[32] == Registers(0xF54D8710, 0xAEB35766, 0x2E69AFC7, 0x927B72E2)
    ensures run.rs[48] == Registers(0xB5D41F9C, 0x71D10367, 0x703D54D8, 0xA04B4904)
  {
    Step(run, 32, Registers(0xF54D8710, 0xAEB35766, 0x2E69AFC7, 0x927B72E2), Op(2, 5, 4, 0xFFFA3942), 0xB4BF680E);
    Step(run, 33, Registers(0x927B72E2, 0xB4BF680E, 0xAEB35766, 0x2E69AFC7), Op(2, 8, 11, 0x8771F681), 0x4C8FFA80);
    Step(run, 34, Registers(0x2E69AFC7, 0x4C8FFA80, 0xB4BF680E, 0xAEB35766), Op(2, 11, 16, 0x6D9D6122), 0x2361ED0A);
    Step(run, 35, Registers(0xAEB35766, 0x2361ED0A, 0x4C8FFA80, 0xB4BF680E), Op(2, 14, 23, 0xFDE5380C), 0x06A5E211);
    Step(run, 36, Registers(0xB4BF680E, 0x06A5E211, 0x2361ED0A, 0x4C8FFA80), Op(2, 1, 4, 0xA4BEEA44), 0xB9C0C733);
    Step(run, 37, Registers(0x4C8FFA80, 0xB9C0C733, 0x06A5E211, 0x2361ED0A), Op(2, 4, 11, 0x4BDECFA9), 0xF1E6DC7A);
    Step(run, 38, Registers(0x2361ED0A, 0xF1E6DC7A, 0xB9C0C733, 0x06A5E211), Op(2, 7, 16, 0xF6BB4B60), 0x23A9451B);
    Step(run, 39, Registers(0x06A5E211, 0x23A9451B, 0xF1E6DC7A, 0xB9C0C733), Op(2, 10, 23, 0xBEBFBC70), 0x8D41BF99);
    Step(run, 40, Registers(0xB9C0C733, 0x8D41BF99, 0x23A9451B, 0xF1E6DC7A), Op(2, 13, 4, 0x289B7EC6), 0xA3E88EAD);
    Step(run, 41, Registers(0xF1E6DC7A, 0xA3E88EAD, 0x8D41BF99, 0x23A9451B), Op(2, 0, 11, 0xEAA127FA), 0x02C0B11C);
    Step(run, 42, Registers(0x23A9451B, 0x02C0B11C, 0xA3E88EAD, 0x8D41BF99), Op(2, 3, 16, 0xD4EF3085), 0x66F6468D);
    Step(run, 43, Registers(0x8D41BF99, 0x66F6468D, 0x02C0B11C, 0xA3E88EAD), Op(2, 6, 23, 0x04881D05), 0x90A35AF5);
    Step(run, 44, Registers(0xA3E88EAD, 0x90A35AF5, 0x66F6468D, 0x02C0B11C), Op(2, 9, 4, 0xD9D4D039), 0xB5D41F9C);
    Step(run, 45, Registers(0x02C0B11C, 0xB5D41F9C, 0x90A35AF5, 0x66F6468D), Op(2, 12, 11, 0xE6DB99E5), 0xA04B4904);
    Step(run, 46, Registers(0x66F6468D, 0xA04B4904, 0xB5D41F9C, 0x90A35AF5), Op(2, 15, 16, 0x1FA27CF8), 0x703D54D8);
    Step(run, 47, Registers(0x90A35AF5, 0x703D54D8, 0xA04B4904, 0xB5D41F9C), Op(2, 2, 23, 0xC4AC5665), 0x71D10367);
  }

  lemma Round4(run: Run)
    requires IsRun(run) && IsWords(run.x) && Listed4(run.ops)
    requires run.rs[48] == Registers(0xB5D41F9C, 0x71D10367, 0x703D54D8, 0xA04B4904)
    ensures run.rs[64] == Registers(0x708ED9C2, 0x1116E6D8, 0xD38F1E7F, 0x2BAF1354)
  {
    Step(run, 48, Registers(0xB5D41F9C, 0x71D10367, 0x703D54D8, 0xA04B4904), Op(3, 0, 6, 0xF4292244), 0xFC32DD6E);
    Step(run, 49, Registers(0xA04B4904, 0xFC32DD6E, 0x71D10367, 0x703D54D8), Op(3, 7, 10, 0x432AFF97), 0x65456B34);
    Step(run, 50, Registers(0x703D54D8, 0x65456B34, 0xFC32DD6E, 0x71D10367), Op(3, 14, 15, 0xAB9423A7), 0xB35602CB);
    Step(run, 51, Registers(0x71D10367, 0xB35602CB, 0x65456B34, 0xFC32DD6E), Op(3, 5, 21, 0xFC93A039), 0x33EDB197);
    Step(run, 52, Registers(0xFC32DD6E, 0x33EDB197, 0xB35602CB, 0x65456B34), Op(3, 12, 6, 0x655B59C3), 0xC1E942F1);
    Step(run, 53, Registers(0x65456B34, 0xC1E942F1, 0x33EDB197, 0xB35602CB), Op(3, 3, 10, 0x8F0CCC92), 0xD9BB987C);
    Step(run, 54, Registers(0xB35602CB, 0xD9BB987C, 0xC1E942F1, 0x33EDB197), Op(3, 10, 15, 0xFFEFF47D), 0x23A68048);
    Step(run, 55, Registers(0x33EDB197, 0x23A68048, 0xD9BB987C, 0xC1E942F1), Op(3, 1, 21, 0x85845DD1), 0x83877D1B);
    Step(run, 56, Registers(0xC1E942F1, 0x83877D1B, 0x23A68048, 0xD9BB987C), Op(3, 8, 6, 0x6FA87E4F), 0x0077C208);
    Step(run, 57, Registers(0xD9BB987C, 0x0077C208, 0x83877D1B, 0x23A68048), Op(3, 15, 10, 0xFE2CE6E0), 0x847FC2E7);
    Step(run, 58, Registers(0x23A68048, 0x847FC2E7, 0x0077C208, 0x83877D1B), Op(3, 6, 15, 0xA3014314), 0xA3E2247F);
    Step(run, 59, Registers(0x83877D1B, 0xA3E2247F, 0x847FC2E7, 0x0077C208), Op(3, 13, 21, 0x4E0811A1), 0x5E6BC930);
    Step(run, 60, Registers(0x0077C208, 0x5E6BC930, 0xA3E2247F, 0x847FC2E7), Op(3, 4, 6, 0xF7537E82), 0x708ED9C2);
    Step(run, 61, Registers(0x847FC2E7, 0x708ED9C2, 0x5E6BC930, 0xA3E2247F), Op(3, 11, 10, 0xBD3AF235), 0x2BAF1354);
    Step(run, 62, Registers(0xA3E2247F, 0x2BAF1354, 0x708ED9C2, 0x5E6BC930), Op(3, 2, 15, 0x2AD7D2BB), 0xD38F1E7F);
    Step(run, 63, Registers(0x5E6BC930, 0xD38F1E7F, 0x2BAF1354, 0x708ED9C2), Op(3, 9, 21, 0xEB86D391), 0x1116E6D8);
  }

  lemma WordIs(block: seq<Byte>, k: nat, w: Word)
    requires |block| == 64 && k < 16
    requires DecodeWord(block[4 * k], block[4 * k + 1], block[4 * k + 2], block[4 * k + 3]) == w
    ensures Decode(block)[k] == w
  {
  }

  lemma Words(block: seq<Byte>)
    requires IsPadded(block)
    ensures IsWords(Decode(block))
  {
    LetterWords(block);
    forall k | 7 <= k < 16
      ensures Decode(block)[k] == if k == 14 then 208 else 0
    {
      TailWord(block, k);
    }
  }

  lemma LetterWords(block: seq<Byte>)
    requires IsPadded(block)
    ensures var x := Decode(block);
            && x[0] == 0x64636261 && x[1] == 0x68676665 && x[2] == 0x6C6B6A69 && x[3] == 0x706F6E6D
            && x[4] == 0x74737271 && x[5] == 0x78777675 && x[6] == 0x00807A79
  {
    WordIs(block, 0, 0x64636261);
    WordIs(block, 1, 0x68676665);
    WordIs(block, 2, 0x6C6B6A69);
    WordIs(block, 3, 0x706F6E6D);
    WordIs(block, 4, 0x74737271);
    WordIs(block, 5, 0x78777675);
    WordIs(block, 6, 0x00807A79);
  }

  lemma TailWord(block: seq<Byte>, k: nat)
    requires IsPadded(block) && 7 <= k < 16
    ensures Decode(block)[k] == if k == 14 then 208 else 0
  {
    if k == 14 {
      WordIs(block, k, 208);
    } else {
      WordIs(block, k, 0);
    }
  }

  lemma Compressed(x: seq<Word>)
    requires IsWords(x)
    ensures AddRegisters(INIT, Operations(64, INIT, x))
         == Registers(0xD7D3FCC3, 0x00E49261, 0x6C49FB7D, 0x3BE167CA)
  {
    var run := RunOf(INIT, x);
    RunOfIsRun(INIT, x);
    ScheduleListed1();
    ScheduleListed2();
    ScheduleListed3();
    ScheduleListed4();
    AllRounds(run);
    Added();
  }

  lemma AllRounds(run: Run)
    requires IsRun(run) && IsWords(run.x) && run.rs[0] == INIT
    requires Listed1(run.ops) && Listed2(run.ops) && Listed3(run.ops) && Listed4(run.ops)
    ensures run.rs[64] == Registers(0x708ED9C2, 0x1116E6D8, 0xD38F1E7F, 0x2BAF1354)
  {
    Round1(run);
    Round2(run);
    Round3(run);
    Round4(run);
  }

  lemma Added()
    ensures AddRegisters(INIT, Registers(0x708ED9C2, 0x1116E6D8, 0xD38F1E7F, 0x2BAF1354))
         == Registers(0xD7D3FCC3, 0x00E49261, 0x6C49FB7D, 0x3BE167CA)
  {
  }

  lemma PaddedIs(m: seq<Byte>)
    requires |m| == 26
    ensures var p := Pad(m);
            && |p| == 64 && p[..26] == m && p[26] == 0x80 && (forall i :: 27 <= i < 56 ==> p[i] == 0)
            && p[56] == 0xD0 && (forall i :: 57 <= i < 64 ==> p[i] == 0)
  {
    PadOf26(|m|);
    PadIs(m);
    LengthIs(8 * |m|, Le(8 * |m|, 8));
    Parts(m, Zeros(29), Le(8 * |m|, 8));
  }

  lemma PadIs(m: seq<Byte>)
    ensures Pad(m) == m + ([0x80] + Zeros(PadLength(|m|) - 1) + Le(8 * |m|, 8))
  {
  }

  lemma PadOf26(n: nat)
    requires n == 26
    ensures PadLength(n) == 30
  {
  }

  lemma Parts(m: seq<Byte>, zeros: seq<Byte>, length: seq<Byte>)
    requires |m| == 26 && |zeros| == 29 && (forall i :: 0 <= i < 29 ==> zeros[i] == 0)
    requires length == [0xD0, 0, 0, 0, 0, 0, 0, 0]
    ensures var p := m + ([0x80] + zeros + length);
            && |p| == 64 && p[..26] == m && p[26] == 0x80 && (forall i :: 27 <= i < 56 ==> p[i] == 0)
            && p[56] == 0xD0 && (forall i :: 57 <= i < 64 ==> p[i] == 0)
  {
    var p := m + ([0x80] + zeros + length);
    forall i | 27 <= i < 56
      ensures p[i] == 0
    {
      assert p[i] == zeros[i - 27];
    }
    forall i | 57 <= i < 64
      ensures p[i] == 0
    {
      assert p[i] == length[i - 56];
    }
  }

  lemma LengthIs(n: nat, b: seq<Byte>)
    requires n == 208 && b == Le(n, 8)
    ensures b == [0xD0, 0, 0, 0, 0, 0, 0, 0]
  {
    LeSplit(n, 4, 4);
    BytesOf([0xD0, 0, 0, 0], n);
    BytesOf([0, 0, 0, 0], DropBytes(n, 4));
  }

  lemma OneBlock(block: seq<Byte>)
    requires |block| == 64
    ensures Absorb(block) == AddRegisters(INIT, Operations(64, INIT, Decode(block)))
  {
    assert block[..0] == [] && block[0..] == block;
    assert Absorb(block) == AbsorbLast([], block) == Compress(Absorb([]), block);
  }

  lemma Encoded()
    ensures Encode(Registers(0xD7D3FCC3, 0x00E49261, 0x6C49FB7D, 0x3BE167CA))
         == [0xC3, 0xFC, 0xD3, 0xD7, 0x61, 0x92, 0xE4, 0x00,
             0x7D, 0xFB, 0x49, 0x6C, 0xCA, 0x67, 0xE1, 0x3B]
  {
  }

  /** MD5 ("abcdefghijklmnopqrstuvwxyz") = c3fcd3d76192e4007dfb496cca67e13b */
  lemma Alphabet(m: seq<Byte>)
    requires |m| == 26 && IsLetters(m)
    ensures Digest(m) == [0xC3, 0xFC, 0xD3, 0xD7, 0x61, 0x92, 0xE4, 0x00,
                          0x7D, 0xFB, 0x49, 0x6C, 0xCA, 0x67, 0xE1, 0x3B]
  {
    LettersPadded(m, Pad(m));
    OfPadded(Pad(m));
  }

  lemma OfPadded(block: seq<Byte>)
    requires IsPadded(block) && |block| % 64 == 0
    ensures Encode(Absorb(block)) == [0xC3, 0xFC, 0xD3, 0xD7, 0x61, 0x92, 0xE4, 0x00,
                                      0x7D, 0xFB, 0x49, 0x6C, 0xCA, 0x67, 0xE1, 0x3B]
  {
    Words(block);
    Compressed(Decode(block));
    OneBlock(block);
    Encoded();
  }

  lemma LettersPadded(m: seq<Byte>, block: seq<Byte>)
    requires |m| == 26 && IsLetters(m) && block == Pad(m)
    ensures IsPadded(block)
  {
    PaddedIs(m);
    assert IsLetters(block[..26]);
  }
}
