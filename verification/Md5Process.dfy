/** md5_process: the 64 unrolled steps on wide words, against the table-driven loop of RFC 1321. */
module Md5Process {

  import opened Rfc1321
  import opened WideWords

  // The operations, and the registers before each of them and after the last, on the block x.
  datatype Run = Run(ops: seq<Op>, rs: seq<Registers>, x: seq<Word>)

  ghost predicate IsRun(run: Run) {
    && |run.x| == 16 && |run.ops| == 64 && |run.rs| == 65
    && forall i: nat {:trigger Apply(run.ops[i], run.rs[i], run.x)} :: i < 64 ==>
         && run.ops[i].k < 16 && 0 < run.ops[i].s < 32
         && run.rs[i + 1] == Apply(run.ops[i], run.rs[i], run.x)
  }

  ghost predicate SameWords(words: seq<Wide>, x: seq<Word>) {
    && |words| == |x| == 16
    && forall k {:trigger words[k]} {:trigger x[k]} :: 0 <= k < 16 ==> x[k] == Low(words[k])
  }

  ghost function Schedule(): (ops: seq<Op>)
    ensures |ops| == 64
  {
    seq(64, i requires 0 <= i < 64 => Operation(i))
  }

  ghost function RunOf(r: Registers, x: seq<Word>): Run
    requires |x| == 16
  {
    Run(Schedule(), seq(65, n requires 0 <= n < 65 => Operations(n, r, x)), x)
  }

  lemma RunOfIsRun(r: Registers, x: seq<Word>)
    requires |x| == 16
    ensures IsRun(RunOf(r, x))
  {
    var run := RunOf(r, x);
    forall i: nat | i < 64
      ensures run.ops[i].k < 16 && 0 < run.ops[i].s < 32 && run.rs[i + 1] == Apply(run.ops[i], run.rs[i], x)
    {
      assert run.ops[i] == Operation(i) && run.rs[i] == Operations(i, r, x);
      assert run.rs[i + 1] == Operations(i + 1, r, x);
    }
  }

  ghost predicate Listed1(ops: seq<Op>)
    requires |ops| == 64
  {
    && ops[0] == Op(0, 0, 7, 0xD76AA478) && ops[1] == Op(0, 1, 12, 0xE8C7B756)
    && ops[2] == Op(0, 2, 17, 0x242070DB) && ops[3] == Op(0, 3, 22, 0xC1BDCEEE)
    && ops[4] == Op(0, 4, 7, 0xF57C0FAF) && ops[5] == Op(0, 5, 12, 0x4787C62A)
    && ops[6] == Op(0, 6, 17, 0xA8304613) && ops[7] == Op(0, 7, 22, 0xFD469501)
    && ops[8] == Op(0, 8, 7, 0x698098D8) && ops[9] == Op(0, 9, 12, 0x8B44F7AF)
    && ops[10] == Op(0, 10, 17, 0xFFFF5BB1) && ops[11] == Op(0, 11, 22, 0x895CD7BE)
    && ops[12] == Op(0, 12, 7, 0x6B901122) && ops[13] == Op(0, 13, 12, 0xFD987193)
    && ops[14] == Op(0, 14, 17, 0xA679438E) && ops[15] == Op(0, 15, 22, 0x49B40821)
  }

  ghost predicate Listed2(ops: seq<Op>)
    requires |ops| == 64
  {
    && ops[16] == Op(1, 1, 5, 0xF61E2562) && ops[17] == Op(1, 6, 9, 0xC040B340)
    && ops[18] == Op(1, 11, 14, 0x265E5A51) && ops[19] == Op(1, 0, 20, 0xE9B6C7AA)
    && ops[20] == Op(1, 5, 5, 0xD62F105D) && ops[21] == Op(1, 10, 9, 0x02441453)
    && ops[22] == Op(1, 15, 14, 0xD8A1E681) && ops[23] == Op(1, 4, 20, 0xE7D3FBC8)
    && ops[24] == Op(1, 9, 5, 0x21E1CDE6) && ops[25] == Op(1, 14, 9, 0xC33707D6)
    && ops[26] == Op(1, 3, 14, 0xF4D50D87) && ops[27] == Op(1, 8, 20, 0x455A14ED)
    && ops[28] == Op(1, 13, 5, 0xA9E3E905) && ops[29] == Op(1, 2, 9, 0xFCEFA3F8)
    && ops[30] == Op(1, 7, 14, 0x676F02D9) && ops[31] == Op(1, 12, 20, 0x8D2A4C8A)
  }

  ghost predicate Listed3(ops: seq<Op>)
    requires |ops| == 64
  {
    && ops[32] == Op(2, 5, 4, 0xFFFA3942) && ops[33] == Op(2, 8, 11, 0x8771F681)
    && ops[34] == Op(2, 11, 16, 0x6D9D6122) && ops[35] == Op(2, 14, 23, 0xFDE5380C)
    && ops[36] == Op(2, 1, 4, 0xA4BEEA44) && ops[37] == Op(2, 4, 11, 0x4BDECFA9)
    && ops[38] == Op(2, 7, 16, 0xF6BB4B60) && ops[39] == Op(2, 10, 23, 0xBEBFBC70)
    && ops[40] == Op(2, 13, 4, 0x289B7EC6) && ops[41] == Op(2, 0, 11, 0xEAA127FA)
    && ops[42] == Op(2, 3, 16, 0xD4EF3085) && ops[43] == Op(2, 6, 23, 0x04881D05)
    && ops[44] == Op(2, 9, 4, 0xD9D4D039) && ops[45] == Op(2, 12, 11, 0xE6DB99E5)
    && ops[46] == Op(2, 15, 16, 0x1FA27CF8) && ops[47] == Op(2, 2, 23, 0xC4AC5665)
  }

  ghost predicate Listed4(ops: seq<Op>)
    requires |ops| == 64
  {
    && ops[48] == Op(3, 0, 6, 0xF4292244) && ops[49] == Op(3, 7, 10, 0x432AFF97)
    && ops[50] == Op(3, 14, 15, 0xAB9423A7) && ops[51] == Op(3, 5, 21, 0xFC93A039)
    && ops[52] == Op(3, 12, 6, 0x655B59C3) && ops[53] == Op(3, 3, 10, 0x8F0CCC92)
    && ops[54] == Op(3, 10, 15, 0xFFEFF47D) && ops[55] == Op(3, 1, 21, 0x85845DD1)
    && ops[56] == Op(3, 8, 6, 0x6FA87E4F) && ops[57] == Op(3, 15, 10, 0xFE2CE6E0)
    && ops[58] == Op(3, 6, 15, 0xA3014314) && ops[59] == Op(3, 13, 21, 0x4E0811A1)
    && ops[60] == Op(3, 4, 6, 0xF7537E82) && ops[61] == Op(3, 11, 10, 0xBD3AF235)
    && ops[62] == Op(3, 2, 15, 0x2AD7D2BB) && ops[63] == Op(3, 9, 21, 0xEB86D391)
  }

  lemma ScheduleListed1()
    ensures Listed1(Schedule())
    ensures Operation(0) == Op(0, 0, 7, 0xD76AA478) && Operation(1) == Op(0, 1, 12, 0xE8C7B756)
    ensures Operation(2) == Op(0, 2, 17, 0x242070DB) && Operation(3) == Op(0, 3, 22, 0xC1BDCEEE)
    ensures Operation(4) == Op(0, 4, 7, 0xF57C0FAF) && Operation(5) == Op(0, 5, 12, 0x4787C62A)
    ensures Operation(6) == Op(0, 6, 17, 0xA8304613) && Operation(7) == Op(0, 7, 22, 0xFD469501)
    ensures Operation(8) == Op(0, 8, 7, 0x698098D8) && Operation(9) == Op(0, 9, 12, 0x8B44F7AF)
    ensures Operation(10) == Op(0, 10, 17, 0xFFFF5BB1) && Operation(11) == Op(0, 11, 22, 0x895CD7BE)
    ensures Operation(12) == Op(0, 12, 7, 0x6B901122) && Operation(13) == Op(0, 13, 12, 0xFD987193)
    ensures Operation(14) == Op(0, 14, 17, 0xA679438E) && Operation(15) == Op(0, 15, 22, 0x49B40821)
  {
    FirstHalf1();
    SecondHalf1();
  }

  lemma FirstHalf1()
    ensures Operation(0) == Op(0, 0, 7, 0xD76AA478) && Operation(1) == Op(0, 1, 12, 0xE8C7B756)
    ensures Operation(2) == Op(0, 2, 17, 0x242070DB) && Operation(3) == Op(0, 3, 22, 0xC1BDCEEE)
    ensures Operation(4) == Op(0, 4, 7, 0xF57C0FAF) && Operation(5) == Op(0, 5, 12, 0x4787C62A)
    ensures Operation(6) == Op(0, 6, 17, 0xA8304613) && Operation(7) == Op(0, 7, 22, 0xFD469501)
  {
  }

  lemma SecondHalf1()
    ensures Operation(8) == Op(0, 8, 7, 0x698098D8) && Operation(9) == Op(0, 9, 12, 0x8B44F7AF)
    ensures Operation(10) == Op(0, 10, 17, 0xFFFF5BB1) && Operation(11) == Op(0, 11, 22, 0x895CD7BE)
    ensures Operation(12) == Op(0, 12, 7, 0x6B901122) && Operation(13) == Op(0, 13, 12, 0xFD987193)
    ensures Operation(14) == Op(0, 14, 17, 0xA679438E) && Operation(15) == Op(0, 15, 22, 0x49B40821)
  {
  }

  lemma ScheduleListed2()
    ensures Listed2(Schedule())
    ensures Operation(16) == Op(1, 1, 5, 0xF61E2562) && Operation(17) == Op(1, 6, 9, 0xC040B340)
    ensures Operation(18) == Op(1, 11, 14, 0x265E5A51) && Operation(19) == Op(1, 0, 20, 0xE9B6C7AA)
    ensures Operation(20) == Op(1, 5, 5, 0xD62F105D) && Operation(21) == Op(1, 10, 9, 0x02441453)
    ensures Operation(22) == Op(1, 15, 14, 0xD8A1E681) && Operation(23) == Op(1, 4, 20, 0xE7D3FBC8)
    ensures Operation(24) == Op(1, 9, 5, 0x21E1CDE6) && Operation(25) == Op(1, 14, 9, 0xC33707D6)
    ensures Operation(26) == Op(1, 3, 14, 0xF4D50D87) && Operation(27) == Op(1, 8, 20, 0x455A14ED)
    ensures Operation(28) == Op(1, 13, 5, 0xA9E3E905) && Operation(29) == Op(1, 2, 9, 0xFCEFA3F8)
    ensures Operation(30) == Op(1, 7, 14, 0x676F02D9) && Operation(31) == Op(1, 12, 20, 0x8D2A4C8A)
  {
    FirstHalf2();
    SecondHalf2();
  }

  lemma FirstHalf2()
    ensures Operation(16) == Op(1, 1, 5, 0xF61E2562) && Operation(17) == Op(1, 6, 9, 0xC040B340)
    ensures Operation(18) == Op(1, 11, 14, 0x265E5A51) && Operation(19) == Op(1, 0, 20, 0xE9B6C7AA)
    ensures Operation(20) == Op(1, 5, 5, 0xD62F105D) && Operation(21) == Op(1, 10, 9, 0x02441453)
    ensures Operation(22) == Op(1, 15, 14, 0xD8A1E681) && Operation(23) == Op(1, 4, 20, 0xE7D3FBC8)
  {
  }

  lemma SecondHalf2()
    ensures Operation(24) == Op(1, 9, 5, 0x21E1CDE6) && Operation(25) == Op(1, 14, 9, 0xC33707D6)
    ensures Operation(26) == Op(1, 3, 14, 0xF4D50D87) && Operation(27) == Op(1, 8, 20, 0x455A14ED)
    ensures Operation(28) == Op(1, 13, 5, 0xA9E3E905) && Operation(29) == Op(1, 2, 9, 0xFCEFA3F8)
    ensures Operation(30) == Op(1, 7, 14, 0x676F02D9) && Operation(31) == Op(1, 12, 20, 0x8D2A4C8A)
  {
  }

  lemma ScheduleListed3()
    ensures Listed3(Schedule())
    ensures Operation(32) == Op(2, 5, 4, 0xFFFA3942) && Operation(33) == Op(2, 8, 11, 0x8771F681)
    ensures Operation(34) == Op(2, 11, 16, 0x6D9D6122) && Operation(35) == Op(2, 14, 23, 0xFDE5380C)
    ensures Operation(36) == Op(2, 1, 4, 0xA4BEEA44) && Operation(37) == Op(2, 4, 11, 0x4BDECFA9)
    ensures Operation(38) == Op(2, 7, 16, 0xF6BB4B60) && Operation(39) == Op(2, 10, 23, 0xBEBFBC70)
    ensures Operation(40) == Op(2, 13, 4, 0x289B7EC6) && Operation(41) == Op(2, 0, 11, 0xEAA127FA)
    ensures Operation(42) == Op(2, 3, 16, 0xD4EF3085) && Operation(43) == Op(2, 6, 23, 0x04881D05)
    ensures Operation(44) == Op(2, 9, 4, 0xD9D4D039) && Operation(45) == Op(2, 12, 11, 0xE6DB99E5)
    ensures Operation(46) == Op(2, 15, 16, 0x1FA27CF8) && Operation(47) == Op(2, 2, 23, 0xC4AC5665)
  {
    FirstHalf3();
    SecondHalf3();
  }

  lemma FirstHalf3()
    ensures Operation(32) == Op(2, 5, 4, 0xFFFA3942) && Operation(33) == Op(2, 8, 11, 0x8771F681)
    ensures Operation(34) == Op(2, 11, 16, 0x6D9D6122) && Operation(35) == Op(2, 14, 23, 0xFDE5380C)
    ensures Operation(36) == Op(2, 1, 4, 0xA4BEEA44) && Operation(37) == Op(2, 4, 11, 0x4BDECFA9)
    ensures Operation(38) == Op(2, 7, 16, 0xF6BB4B60) && Operation(39) == Op(2, 10, 23, 0xBEBFBC70)
  {
  }

  lemma SecondHalf3()
    ensures Operation(40) == Op(2, 13, 4, 0x289B7EC6) && Operation(41) == Op(2, 0, 11, 0xEAA127FA)
    ensures Operation(42) == Op(2, 3, 16, 0xD4EF3085) && Operation(43) == Op(2, 6, 23, 0x04881D05)
    ensures Operation(44) == Op(2, 9, 4, 0xD9D4D039) && Operation(45) == Op(2, 12, 11, 0xE6DB99E5)
    ensures Operation(46) == Op(2, 15, 16, 0x1FA27CF8) && Operation(47) == Op(2, 2, 23, 0xC4AC5665)
  {
  }

  lemma ScheduleListed4()
    ensures Listed4(Schedule())
    ensures Operation(48) == Op(3, 0, 6, 0xF4292244) && Operation(49) == Op(3, 7, 10, 0x432AFF97)
    ensures Operation(50) == Op(3, 14, 15, 0xAB9423A7) && Operation(51) == Op(3, 5, 21, 0xFC93A039)
    ensures Operation(52) == Op(3, 12, 6, 0x655B59C3) && Operation(53) == Op(3, 3, 10, 0x8F0CCC92)
    ensures Operation(54) == Op(3, 10, 15, 0xFFEFF47D) && Operation(55) == Op(3, 1, 21, 0x85845DD1)
    ensures Operation(56) == Op(3, 8, 6, 0x6FA87E4F) && Operation(57) == Op(3, 15, 10, 0xFE2CE6E0)
    ensures Operation(58) == Op(3, 6, 15, 0xA3014314) && Operation(59) == Op(3, 13, 21, 0x4E0811A1)
    ensures Operation(60) == Op(3, 4, 6, 0xF7537E82) && Operation(61) == Op(3, 11, 10, 0xBD3AF235)
    ensures Operation(62) == Op(3, 2, 15, 0x2AD7D2BB) && Operation(63) == Op(3, 9, 21, 0xEB86D391)
  {
    FirstHalf4();
    SecondHalf4();
  }

  lemma FirstHalf4()
    ensures Operation(48) == Op(3, 0, 6, 0xF4292244) && Operation(49) == Op(3, 7, 10, 0x432AFF97)
    ensures Operation(50) == Op(3, 14, 15, 0xAB9423A7) && Operation(51) == Op(3, 5, 21, 0xFC93A039)
    ensures Operation(52) == Op(3, 12, 6, 0x655B59C3) && Operation(53) == Op(3, 3, 10, 0x8F0CCC92)
    ensures Operation(54) == Op(3, 10, 15, 0xFFEFF47D) && Operation(55) == Op(3, 1, 21, 0x85845DD1)
  {
  }

  lemma SecondHalf4()
    ensures Operation(56) == Op(3, 8, 6, 0x6FA87E4F) && Operation(57) == Op(3, 15, 10, 0xFE2CE6E0)
    ensures Operation(58) == Op(3, 6, 15, 0xA3014314) && Operation(59) == Op(3, 13, 21, 0x4E0811A1)
    ensures Operation(60) == Op(3, 4, 6, 0xF7537E82) && Operation(61) == Op(3, 11, 10, 0xBD3AF235)
    ensures Operation(62) == Op(3, 2, 15, 0x2AD7D2BB) && Operation(63) == Op(3, 9, 21, 0xEB86D391)
  {
  }

  // The macro P in round 1.
  method PF(ghost run: Run, ghost i: nat, a: Wide, b: Wide, c: Wide, d: Wide, words: seq<Wide>, k: nat, s: bv6, t: Wide)
    returns (r: Wide)
    requires IsRun(run) && SameWords(words, run.x) && i < 64
    requires run.ops[i] == Op(0, k, s, Low(t)) && 0 < s < 32 && k < 16
    requires run.rs[i] == Lows(a, b, c, d)
    ensures run.rs[i + 1] == Lows(d, r, b, c)
  {
    LowMacroP(a, d ^ (b & (c ^ d)), b, words[k], s, t);
    LowF(b, c, d);
    r := MacroP(a, d ^ (b & (c ^ d)), b, words[k], s, t);
    ApplyF(k, s, Low(t), run.rs[i], run.x);
    assert run.rs[i + 1] == Apply(run.ops[i], run.rs[i], run.x);
  }

  lemma ApplyF(k: nat, s: bv6, t: Word, r: Registers, x: seq<Word>)
    requires |x| == 16 && k < 16 && 0 < s < 32
    ensures Apply(Op(0, k, s, t), r, x) == Registers(r.d, Mix(r.a, F(r.b, r.c, r.d), r.b, x[k], s, t), r.b, r.c)
  {
  }

  // The macro P in round 2.
  method PG(ghost run: Run, ghost i: nat, a: Wide, b: Wide, c: Wide, d: Wide, words: seq<Wide>, k: nat, s: bv6, t: Wide)
    returns (r: Wide)
    requires IsRun(run) && SameWords(words, run.x) && i < 64
    requires run.ops[i] == Op(1, k, s, Low(t)) && 0 < s < 32 && k < 16
    requires run.rs[i] == Lows(a, b, c, d)
    ensures run.rs[i + 1] == Lows(d, r, b, c)
  {
    LowMacroP(a, c ^ (d & (b ^ c)), b, words[k], s, t);
    LowG(b, c, d);
    r := MacroP(a, c ^ (d & (b ^ c)), b, words[k], s, t);
    ApplyG(k, s, Low(t), run.rs[i], run.x);
    assert run.rs[i + 1] == Apply(run.ops[i], run.rs[i], run.x);
  }

  lemma ApplyG(k: nat, s: bv6, t: Word, r: Registers, x: seq<Word>)
    requires |x| == 16 && k < 16 && 0 < s < 32
    ensures Apply(Op(1, k, s, t), r, x) == Registers(r.d, Mix(r.a, G(r.b, r.c, r.d), r.b, x[k], s, t), r.b, r.c)
  {
  }

  // The macro P in round 3.
  method PH(ghost run: Run, ghost i: nat, a: Wide, b: Wide, c: Wide, d: Wide, words: seq<Wide>, k: nat, s: bv6, t: Wide)
    returns (r: Wide)
    requires IsRun(run) && SameWords(words, run.x) && i < 64
    requires run.ops[i] == Op(2, k, s, Low(t)) && 0 < s < 32 && k < 16
    requires run.rs[i] == Lows(a, b, c, d)
    ensures run.rs[i + 1] == Lows(d, r, b, c)
  {
    LowMacroP(a, b ^ c ^ d, b, words[k], s, t);
    LowH(b, c, d);
    r := MacroP(a, b ^ c ^ d, b, words[k], s, t);
    ApplyH(k, s, Low(t), run.rs[i], run.x);
    assert run.rs[i + 1] == Apply(run.ops[i], run.rs[i], run.x);
  }

  lemma ApplyH(k: nat, s: bv6, t: Word, r: Registers, x: seq<Word>)
    requires |x| == 16 && k < 16 && 0 < s < 32
    ensures Apply(Op(2, k, s, t), r, x) == Registers(r.d, Mix(r.a, H(r.b, r.c, r.d), r.b, x[k], s, t), r.b, r.c)
  {
  }

  // The macro P in round 4.
  method PI(ghost run: Run, ghost i: nat, a: Wide, b: Wide, c: Wide, d: Wide, words: seq<Wide>, k: nat, s: bv6, t: Wide)
    returns (r: Wide)
    requires IsRun(run) && SameWords(words, run.x) && i < 64
    requires run.ops[i] == Op(3, k, s, Low(t)) && 0 < s < 32 && k < 16
    requires run.rs[i] == Lows(a, b, c, d)
    ensures run.rs[i + 1] == Lows(d, r, b, c)
  {
    LowMacroP(a, c ^ (b | !d), b, words[k], s, t);
    LowI(b, c, d);
    r := MacroP(a, c ^ (b | !d), b, words[k], s, t);
    ApplyI(k, s, Low(t), run.rs[i], run.x);
    assert run.rs[i + 1] == Apply(run.ops[i], run.rs[i], run.x);
  }

  lemma ApplyI(k: nat, s: bv6, t: Word, r: Registers, x: seq<Word>)
    requires |x| == 16 && k < 16 && 0 < s < 32
    ensures Apply(Op(3, k, s, t), r, x) == Registers(r.d, Mix(r.a, I(r.b, r.c, r.d), r.b, x[k], s, t), r.b, r.c)
  {
  }

  method Round1(ghost run: Run, words: seq<Wide>, a0: Wide, b0: Wide, c0: Wide, d0: Wide)
    returns (a: Wide, b: Wide, c: Wide, d: Wide)
    requires IsRun(run) && SameWords(words, run.x) && Listed1(run.ops)
    requires run.rs[0] == Lows(a0, b0, c0, d0)
    ensures run.rs[16] == Lows(a, b, c, d)
  {
    a, b, c, d := a0, b0, c0, d0;
    a := PF(run, 0, a, b, c, d, words, 0, 7, 0xD76AA478);
    d := PF(run, 1, d, a, b, c, words, 1, 12, 0xE8C7B756);
    c := PF(run, 2, c, d, a, b, words, 2, 17, 0x242070DB);
    b := PF(run, 3, b, c, d, a, words, 3, 22, 0xC1BDCEEE);
    a := PF(run, 4, a, b, c, d, words, 4, 7, 0xF57C0FAF);
    d := PF(run, 5, d, a, b, c, words, 5, 12, 0x4787C62A);
    c := PF(run, 6, c, d, a, b, words, 6, 17, 0xA8304613);
    b := PF(run, 7, b, c, d, a, words, 7, 22, 0xFD469501);
    a := PF(run, 8, a, b, c, d, words, 8, 7, 0x698098D8);
    d := PF(run, 9, d, a, b, c, words, 9, 12, 0x8B44F7AF);
    c := PF(run, 10, c, d, a, b, words, 10, 17, 0xFFFF5BB1);
    b := PF(run, 11, b, c, d, a, words, 11, 22, 0x895CD7BE);
    a := PF(run, 12, a, b, c, d, words, 12, 7, 0x6B901122);
    d := PF(run, 13, d, a, b, c, words, 13, 12, 0xFD987193);
    c := PF(run, 14, c, d, a, b, words, 14, 17, 0xA679438E);
    b := PF(run, 15, b, c, d, a, words, 15, 22, 0x49B40821);
  }

  method Round2(ghost run: Run, words: seq<Wide>, a0: Wide, b0: Wide, c0: Wide, d0: Wide)
    returns (a: Wide, b: Wide, c: Wide, d: Wide)
    requires IsRun(run) && SameWords(words, run.x) && Listed2(run.ops)
    requires run.rs[16] == Lows(a0, b0, c0, d0)
    ensures run.rs[32] == Lows(a, b, c, d)
  {
    a, b, c, d := a0, b0, c0, d0;
    a := PG(run, 16, a, b, c, d, words, 1, 5, 0xF61E2562);
    d := PG(run, 17, d, a, b, c, words, 6, 9, 0xC040B340);
    c := PG(run, 18, c, d, a, b, words, 11, 14, 0x265E5A51);
    b := PG(run, 19, b, c, d, a, words, 0, 20, 0xE9B6C7AA);
    a := PG(run, 20, a, b, c, d, words, 5, 5, 0xD62F105D);
    d := PG(run, 21, d, a, b, c, words, 10, 9, 0x02441453);
    c := PG(run, 22, c, d, a, b, words, 15, 14, 0xD8A1E681);
    b := PG(run, 23, b, c, d, a, words, 4, 20, 0xE7D3FBC8);
    a := PG(run, 24, a, b, c, d, words, 9, 5, 0x21E1CDE6);
    d := PG(run, 25, d, a, b, c, words, 14, 9, 0xC33707D6);
    c := PG(run, 26, c, d, a, b, words, 3, 14, 0xF4D50D87);
    b := PG(run, 27, b, c, d, a, words, 8, 20, 0x455A14ED);
    a := PG(run, 28, a, b, c, d, words, 13, 5, 0xA9E3E905);
    d := PG(run, 29, d, a, b, c, words, 2, 9, 0xFCEFA3F8);
    c := PG(run, 30, c, d, a, b, words, 7, 14, 0x676F02D9);
    b := PG(run, 31, b, c, d, a, words, 12, 20, 0x8D2A4C8A);
  }

  method Round3(ghost run: Run, words: seq<Wide>, a0: Wide, b0: Wide, c0: Wide, d0: Wide)
    returns (a: Wide, b: Wide, c: Wide, d: Wide)
    requires IsRun(run) && SameWords(words, run.x) && Listed3(run.ops)
    requires run.rs[32] == Lows(a0, b0, c0, d0)
    ensures run.rs[48] == Lows(a, b, c, d)
  {
    a, b, c, d := a0, b0, c0, d0;
    a := PH(run, 32, a, b, c, d, words, 5, 4, 0xFFFA3942);
    d := PH(run, 33, d, a, b, c, words, 8, 11, 0x8771F681);
    c := PH(run, 34, c, d, a, b, words, 11, 16, 0x6D9D6122);
    b := PH(run, 35, b, c, d, a, words, 14, 23, 0xFDE5380C);
    a := PH(run, 36, a, b, c, d, words, 1, 4, 0xA4BEEA44);
    d := PH(run, 37, d, a, b, c, words, 4, 11, 0x4BDECFA9);
    c := PH(run, 38, c, d, a, b, words, 7, 16, 0xF6BB4B60);
    b := PH(run, 39, b, c, d, a, words, 10, 23, 0xBEBFBC70);
    a := PH(run, 40, a, b, c, d, words, 13, 4, 0x289B7EC6);
    d := PH(run, 41, d, a, b, c, words, 0, 11, 0xEAA127FA);
    c := PH(run, 42, c, d, a, b, words, 3, 16, 0xD4EF3085);
    b := PH(run, 43, b, c, d, a, words, 6, 23, 0x04881D05);
    a := PH(run, 44, a, b, c, d, words, 9, 4, 0xD9D4D039);
    d := PH(run, 45, d, a, b, c, words, 12, 11, 0xE6DB99E5);
    c := PH(run, 46, c, d, a, b, words, 15, 16, 0x1FA27CF8);
    b := PH(run, 47, b, c, d, a, words, 2, 23, 0xC4AC5665);
  }

  method Round4(ghost run: Run, words: seq<Wide>, a0: Wide, b0: Wide, c0: Wide, d0: Wide)
    returns (a: Wide, b: Wide, c: Wide, d: Wide)
    requires IsRun(run) && SameWords(words, run.x) && Listed4(run.ops)
    requires run.rs[48] == Lows(a0, b0, c0, d0)
    ensures run.rs[64] == Lows(a, b, c, d)
  {
    a, b, c, d := a0, b0, c0, d0;
    a := PI(run, 48, a, b, c, d, words, 0, 6, 0xF4292244);
    d := PI(run, 49, d, a, b, c, words, 7, 10, 0x432AFF97);
    c := PI(run, 50, c, d, a, b, words, 14, 15, 0xAB9423A7);
    b := PI(run, 51, b, c, d, a, words, 5, 21, 0xFC93A039);
    a := PI(run, 52, a, b, c, d, words, 12, 6, 0x655B59C3);
    d := PI(run, 53, d, a, b, c, words, 3, 10, 0x8F0CCC92);
    c := PI(run, 54, c, d, a, b, words, 10, 15, 0xFFEFF47D);
    b := PI(run, 55, b, c, d, a, words, 1, 21, 0x85845DD1);
    a := PI(run, 56, a, b, c, d, words, 8, 6, 0x6FA87E4F);
    d := PI(run, 57, d, a, b, c, words, 15, 10, 0xFE2CE6E0);
    c := PI(run, 58, c, d, a, b, words, 6, 15, 0xA3014314);
    b := PI(run, 59, b, c, d, a, words, 13, 21, 0x4E0811A1);
    a := PI(run, 60, a, b, c, d, words, 4, 6, 0xF7537E82);
    d := PI(run, 61, d, a, b, c, words, 11, 10, 0xBD3AF235);
    c := PI(run, 62, c, d, a, b, words, 2, 15, 0x2AD7D2BB);
    b := PI(run, 63, b, c, d, a, words, 9, 21, 0xEB86D391);
  }

  // md5_process on the block's words: the new state is congruent to the RFC's modulo 2^32.
  method ProcessWords(words: seq<Wide>, s0: Wide, s1: Wide, s2: Wide, s3: Wide, ghost x: seq<Word>)
    returns (a: Wide, b: Wide, c: Wide, d: Wide)
    requires SameWords(words, x)
    ensures Lows(a, b, c, d) == AddRegisters(Lows(s0, s1, s2, s3), Operations(64, Lows(s0, s1, s2, s3), x))
  {
    ghost var h := Lows(s0, s1, s2, s3);
    ghost var run := RunOf(h, x);
    RunOfIsRun(h, x);
    ScheduleListed1();
    ScheduleListed2();
    ScheduleListed3();
    ScheduleListed4();
    a, b, c, d := Round1(run, words, s0, s1, s2, s3);
    a, b, c, d := Round2(run, words, a, b, c, d);
    a, b, c, d := Round3(run, words, a, b, c, d);
    a, b, c, d := Round4(run, words, a, b, c, d);
    LowAdd(s0, a);
    LowAdd(s1, b);
    LowAdd(s2, c);
    LowAdd(s3, d);
    a, b, c, d := Plus(s0, a), Plus(s1, b), Plus(s2, c), Plus(s3, d);
  }
}
