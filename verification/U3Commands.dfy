/** u3_commands.c: each U3 function patches a command block, exchanges it with the device, and
    interprets the answer. The functions here say what they do on decoded commands. */
module U3Commands {

  import opened Bytes
  import opened Rfc1321
  import Md5
  import opened U3Device

  // ---- passwords

  // The bytes that are hashed for a password: two per character, and the terminator.
  function Wide(password: seq<Byte>): (w: seq<Byte>)
    ensures |w| == 2 * |password| + 2
  {
    if password == [] then [0, 0] else [password[0], 0] + Wide(password[1..])
  }

  function PassHash(password: seq<Byte>): (h: seq<Byte>)
    ensures |h| == 16
  {
    Digest(Wide(password))
  }

  lemma WideStep(password: seq<Byte>)
    requires password != []
    ensures var w := Wide(password);
            w[0] == password[0] && w[1] == 0 && |w| == 2 + |Wide(password[1..])|
            && forall k :: 2 <= k < |w| ==> w[k] == Wide(password[1..])[k - 2]
  {
  }

  lemma {:induction false} WideAt(password: seq<Byte>, i: nat)
    requires i <= |password|
    ensures Wide(password)[2 * i] == (if i < |password| then password[i] else 0) && Wide(password)[2 * i + 1] == 0
  {
    if password == [] {
      assert i == 0 && Wide(password) == [0, 0];
    } else {
      WideStep(password);
      if i > 0 {
        WideAt(password[1..], i - 1);
        var w := Wide(password[1..]);
        assert Wide(password)[2 * i] == w[2 * (i - 1)] && Wide(password)[2 * i + 1] == w[2 * (i - 1) + 1];
      }
    }
  }

  /** Different passwords are hashed as different byte strings. */
  lemma WideInjective(p: seq<Byte>, q: seq<Byte>)
    requires Wide(p) == Wide(q)
    ensures p == q
  {
    assert |p| == |q|;
    forall i | 0 <= i < |p|
      ensures p[i] == q[i]
    {
      WideAt(p, i);
      WideAt(q, i);
    }
  }

  // The loop of u3_pass_to_hash.
  method Widen(password: seq<Byte>) returns (unicodePass: array<Byte>)
    ensures fresh(unicodePass) && unicodePass[..] == Wide(password)
  {
    var passlen := |password|;
    unicodePass := new Byte[2 * (passlen + 1)](i => 0);
    var i := 0;
    while i < passlen + 1
      invariant i <= passlen + 1
      invariant forall j :: 0 <= j <= passlen ==>
        unicodePass[2 * j] == (if j < i && j < passlen then password[j] else 0) && unicodePass[2 * j + 1] == 0
    {
      unicodePass[i * 2] := if i < passlen then password[i] else 0;
      i := i + 1;
    }
    WideIs(password, unicodePass[..]);
  }

  // The hash goes to passhash[offset..offset + 16].
  method PassToHash(password: seq<Byte>, passhash: array<Byte>, offset: nat)
    requires |password| < 0x3FFF_FFFF && offset + 16 <= passhash.Length
    modifies passhash
    ensures passhash[..] == old(passhash[..offset]) + PassHash(password) + old(passhash[offset + 16..])
    ensures PassHash(password) == Digest(Wide(password))
  {
    var unicodePass := Widen(password);
    var digest := HashOf(unicodePass);
    Blit(digest, passhash, offset);
  }

  method HashOf(input: array<Byte>) returns (digest: array<Byte>)
    requires input.Length < 0x8000_0000
    ensures fresh(digest) && digest.Length == 16 && digest[..] == Digest(input[..])
  {
    digest := new Byte[16];
    Md5.Md5(input, input.Length, digest);
    assert digest[..16] == digest[..];
    if input.Length == 0 { assert input[..] == []; } else { assert input[..input.Length] == input[..]; }
  }

  method Blit(source: array<Byte>, target: array<Byte>, offset: nat)
    requires offset + source.Length <= target.Length && source != target
    modifies target
    ensures target[..] == old(target[..offset]) + source[..] + old(target[offset + source.Length..])
  {
    forall j | 0 <= j < source.Length {
      target[offset + j] := source[j];
    }
  }

  lemma WideIs(password: seq<Byte>, w: seq<Byte>)
    requires |w| == 2 * |password| + 2
    requires forall j :: 0 <= j <= |password| ==>
      w[2 * j] == (if j < |password| then password[j] else 0) && w[2 * j + 1] == 0
    ensures w == Wide(password)
  {
    forall k | 0 <= k < |w|
      ensures w[k] == Wide(password)[k]
    {
      WideAt(password, k / 2);
      assert k == 2 * (k / 2) || k == 2 * (k / 2) + 1;
    }
  }

  // ---- commands with one exchange

  // htonl on a little-endian machine.
  function Htonl(v: nat): nat {
    LeValue(BigEndian(v))
  }

  lemma HtonlBytes(v: nat)
    ensures Le(Htonl(v), 4) == BigEndian(v)
  {
    LeValueRoundTrip(BigEndian(v));
  }

  lemma Patched(template: seq<Byte>, cmd: seq<Byte>, num: seq<Byte>)
    requires template == [0xFF, 0x42, 0x00, 0x01, 0x00, 0x00, 0x00, 0x00, 0x00, 0x00, 0x00, 0x01]
    requires |num| == 4 && cmd == template[..4] + num + template[8..]
    ensures cmd == [0xFF, 0x42, 0x00, 0x01] + num + [0x00, 0x00, 0x00, 0x01]
  {
  }

  method CdWrite(h: Handle, blockNum: UInt32, block: array<Byte>) returns (rc: bool)
    requires block.Length == BLOCK_SIZE
    modifies h`state, block
    ensures var a := Exchange(h.nature, old(h.state), WriteBlock(blockNum, old(block[..])));
            h.state == a.state && rc == a.Ok()
    ensures block[..] == old(block[..])
  {
    var cmd := new Byte[12] [0xFF, 0x42, 0x00, 0x01, 0x00, 0x00, 0x00, 0x00, 0x00, 0x00, 0x00, 0x01];
    ghost var template := cmd[..];
    PutLe32(Htonl(blockNum), cmd, 4);
    HtonlBytes(blockNum);
    Patched(template, cmd[..], BigEndian(blockNum));
    assert block[..BLOCK_SIZE] == block[..];
    var ok, status := h.Send(cmd, ToDevice, BLOCK_SIZE, block, WriteBlock(blockNum, block[..]));
    rc := ok && status == 0;
  }

  // u3_partition_sector_round and u3_security_sector_round: on failure the size stays.
  function Round(n: Nature, s: State, security: bool, up: bool, size: UInt32): (State, bool, UInt32) {
    var a := Exchange(n, s, if security then RoundSecurity(size, up) else RoundPartition(size, up));
    (a.state, a.Ok(), if a.Ok() then Rounded(n, security, up, size) else size)
  }

  // The rounding request of one of the two functions.
  function RoundRequest(security: bool, size: nat, up: bool): Command {
    if security then RoundSecurity(size, up) else RoundPartition(size, up)
  }

  // Its command block as it is patched in place: the size first, then the direction.
  lemma ParsePatched(blank: seq<Byte>, cmd: seq<Byte>, security: bool, size: UInt32, up: bool)
    requires blank == [0xFF, if security then 0xA3 else 0x20, 0x00, if security then 0x00 else 0x02,
                       0x00, 0x00, 0x00, 0x00, 0x00, 0x00, 0x00, 0x00]
    requires |Le(size, 4)| == 4
    requires cmd == (blank[..4] + Le(size, 4) + blank[8..])[8 := if up then 1 else 0]
    ensures cmd == BlockOf(RoundRequest(security, size, up))
    ensures Parse(cmd, []) == if security then RoundSecurity(size, up) else RoundPartition(size, up)
  {
    ReadsBack(RoundRequest(security, size, up));
  }

  lemma RoundKeepsDevice(n: Nature, s: State, security: bool, up: bool, size: UInt32)
    ensures Round(n, s, security, up, size).0.device == s.device
  {
  }

  method RoundCommand(security: bool, up: bool, size: UInt32) returns (cmd: array<Byte>)
    ensures fresh(cmd) && cmd.Length == 12
    ensures cmd[..] == BlockOf(RoundRequest(security, size, up))
  {
    cmd := new Byte[12] [0xFF, 0x20, 0x00, 0x02, 0x00, 0x00, 0x00, 0x00, 0x00, 0x00, 0x00, 0x00];
    if security {
      cmd[1], cmd[3] := 0xA3, 0x00;
    }
    ghost var blank := cmd[..];
    PutLe32(size, cmd, 4);
    ghost var patched := cmd[..];
    cmd[8] := if up then 1 else 0;
    assert cmd[..] == patched[8 := cmd[8]];
    ParsePatched(blank, cmd[..], security, size, up);
  }

  // The rounded value, as the device knows it.
  function Rounded(n: Nature, security: bool, up: bool, size: UInt32): UInt32 {
    if security then n.roundSecurity(size, up) else n.roundPartition(size, up)
  }

  lemma RoundReply(n: Nature, s: State, security: bool, up: bool, size: UInt32)
    ensures var a := Exchange(n, s, if security then RoundSecurity(size, up) else RoundPartition(size, up));
            a.Ok() ==> Take(a.reply, 4) == Le(Rounded(n, security, up, size), 4)
  {
  }

  /** A success gives the device's own rounding of the size, a failure leaves the size; on a reliable link
      it succeeds. */
  lemma RoundMeans(n: Nature, s: State, security: bool, up: bool, size: UInt32)
    ensures var (s', ok, size') := Round(n, s, security, up, size);
            && (ok ==> size' == if security then n.roundSecurity(size, up) else n.roundPartition(size, up))
            && (!ok ==> size' == size)
            && (Reliable(n) ==> ok)
  {
    assert Reliable(n) ==> n.outcomes(|s.issued|) == Completed;
  }

  lemma RoundIssues(n: Nature, s: State, security: bool, up: bool, size: UInt32)
    ensures Round(n, s, security, up, size).0.issued == s.issued + [RoundRequest(security, size, up)]
  {
  }

  method SectorRound(h: Handle, security: bool, up: bool, size: UInt32) returns (rc: bool, size': UInt32)
    modifies h`state
    ensures (h.state, rc, size') == Round(h.nature, old(h.state), security, up, size)
  {
    var cmd := RoundCommand(security, up, size);
    var roundedSize := new Byte[4];
    RoundReply(h.nature, h.state, security, up, size);
    var ok, status := h.Send(cmd, FromDevice, 4, roundedSize, RoundRequest(security, size, up));
    rc := ok && status == 0;
    size' := size;
    if rc {
      ghost var rounded := Rounded(h.nature, security, up, size);
      assert roundedSize[..] == Le(rounded, 4);
      LeRoundTrip32(rounded);
      size' := LeValue(roundedSize[..]);
    }
  }

  // A buffer of 16 bytes after the read.
  lemma InfoReply(n: Nature, s: State, buffer: seq<Byte>)
    requires |buffer| == 16
    ensures var a := Exchange(n, s, DataInfo);
            a.Ok() ==> Overwrite(buffer, a.reply, 16) == DataInfoBytes(s.device)
  {
    var bytes := DataInfoBytes(s.device);
    assert Overwrite(buffer, bytes, 16) == bytes;
  }

  method InfoCommand() returns (cmd: array<Byte>)
    ensures fresh(cmd) && cmd.Length == 12 && cmd[..] == BlockOf(DataInfo)
  {
    cmd := new Byte[12] [0xFF, 0xA0, 0x00, 0x00, 0x00, 0x00, 0x00, 0x00, 0x00, 0x00, 0x00, 0x00];
  }

  method DataPartitionInfo(h: Handle, info: array<Byte>) returns (rc: bool)
    requires info.Length == 16
    modifies h`state, info
    ensures var a := Exchange(h.nature, old(h.state), DataInfo);
            h.state == a.state && rc == a.Ok() && (rc ==> info[..] == DataInfoBytes(old(h.state).device))
  {
    var cmd := InfoCommand();
    forall i | 0 <= i < 16 {
      info[i] := 0;
    }
    InfoReply(h.nature, h.state, info[..]);
    var ok, status := h.Send(cmd, FromDevice, 16, info, DataInfo);
    rc := ok && status == 0;
  }

  // u3_unlock, u3_disable_security, u3_change_password: result tells whether the device accepted.
  function Ask(n: Nature, s: State, c: Command): (State, bool, bool) {
    var a := Exchange(n, s, c);
    (a.state, a.rc, a.Ok())
  }

  /** The two results of a password command: that it was carried through, and that the device accepted. */
  lemma AskMeans(n: Nature, s: State, c: Command)
    ensures var a := Exchange(n, s, c);
            Ask(n, s, c).0 == a.state && Ask(n, s, c).1 == a.rc && (Ask(n, s, c).2 <==> a.rc && a.status == 0)
  {
  }

  method Unlock(h: Handle, password: seq<Byte>) returns (rc: bool, result: bool)
    requires |password| < 0x3FFF_FFFF
    modifies h`state
    ensures (h.state, rc, result) == Ask(h.nature, old(h.state), Command.Unlock(PassHash(password)))
  {
    var cmd := new Byte[12] [0xFF, 0xA4, 0x00, 0x00, 0x00, 0x00, 0x00, 0x00, 0x00, 0x00, 0x00, 0x00];
    var passhashBuf := new Byte[16];
    PassToHash(password, passhashBuf, 0);
    assert passhashBuf[..16] == PassHash(password);
    assert cmd[..] == BlockOf(Command.Unlock(PassHash(password)));
    var status;
    rc, status := h.Send(cmd, ToDevice, 16, passhashBuf, Command.Unlock(PassHash(password)));
    result := rc && status == 0;
  }

  method DisableSecurity(h: Handle, password: seq<Byte>) returns (rc: bool, result: bool)
    requires |password| < 0x3FFF_FFFF
    modifies h`state
    ensures (h.state, rc, result) == Ask(h.nature, old(h.state), Command.DisableSecurity(PassHash(password)))
  {
    var cmd := new Byte[12] [0xFF, 0xA7, 0x00, 0x00, 0x00, 0x00, 0x00, 0x00, 0x00, 0x00, 0x00, 0x00];
    var passhashBuf := new Byte[16];
    PassToHash(password, passhashBuf, 0);
    assert passhashBuf[..16] == PassHash(password);
    assert cmd[..] == BlockOf(Command.DisableSecurity(PassHash(password)));
    var status;
    rc, status := h.Send(cmd, ToDevice, 16, passhashBuf, Command.DisableSecurity(PassHash(password)));
    result := rc && status == 0;
  }

  lemma Halves(blank: seq<Byte>, first: seq<Byte>, both: seq<Byte>, h: seq<Byte>, k: seq<Byte>)
    requires |blank| == 32 && |h| == |k| == 16
    requires first == blank[..0] + h + blank[16..]
    requires both == first[..16] + k + first[32..]
    ensures both[..32] == h + k
  {
  }

  method TwoHashes(oldPassword: seq<Byte>, newPassword: seq<Byte>) returns (passhashBuf: array<Byte>)
    requires |oldPassword| < 0x3FFF_FFFF && |newPassword| < 0x3FFF_FFFF
    ensures fresh(passhashBuf) && passhashBuf.Length == 32
    ensures passhashBuf[..32] == PassHash(oldPassword) + PassHash(newPassword)
  {
    passhashBuf := new Byte[32];
    ghost var blank := passhashBuf[..];
    PassToHash(oldPassword, passhashBuf, 0);
    ghost var first := passhashBuf[..];
    PassToHash(newPassword, passhashBuf, 16);
    Halves(blank, first, passhashBuf[..], PassHash(oldPassword), PassHash(newPassword));
  }

  method ChangePassword(h: Handle, oldPassword: seq<Byte>, newPassword: seq<Byte>) returns (rc: bool, result: bool)
    requires |oldPassword| < 0x3FFF_FFFF && |newPassword| < 0x3FFF_FFFF
    modifies h`state
    ensures (h.state, rc, result)
         == Ask(h.nature, old(h.state), Command.ChangePassword(PassHash(oldPassword), PassHash(newPassword)))
  {
    var cmd := new Byte[12] [0xFF, 0xA6, 0x00, 0x00, 0x00, 0x00, 0x00, 0x00, 0x00, 0x00, 0x00, 0x00];
    var passhashBuf := TwoHashes(oldPassword, newPassword);
    ghost var key, newKey := PassHash(oldPassword), PassHash(newPassword);
    assert cmd[..] == BlockOf(Command.ChangePassword(key, newKey));
    var status;
    rc, status := h.Send(cmd, ToDevice, 32, passhashBuf, Command.ChangePassword(key, newKey));
    result := rc && status == 0;
  }

  method ResetDevice(h: Handle) returns (rc: bool)
    modifies h`state
    ensures var a := Exchange(h.nature, old(h.state), Reset); h.state == a.state && rc == a.Ok()
  {
    var cmd := new Byte[12] [0xFF, 0x01, 0x01, 0x00, 0x00, 0x00, 0x00, 0x00, 0x00, 0x00, 0x00, 0x00];
    var data := new Byte[12] [0x50, 0x00, 0x00, 0x00, 0x40, 0x9C, 0x00, 0x00, 0x01, 0x00, 0x00, 0x00];
    assert cmd[..] == BlockOf(Reset) && data[..12] == DataOf(Reset);
    var ok, status := h.Send(cmd, ToDevice, 12, data, Reset);
    rc := ok && status == 0;
  }
}
