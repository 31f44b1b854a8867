/** A U3 device as doc/commands.txt describes it, behind an unreliable link: what it stores,
    and what each command does to it. */
module U3Device {

  import opened Bytes

  type UInt32 = v: nat | v < 0x1_0000_0000

  const SECTOR_SIZE := 512
  const BLOCK_SIZE := 2048

  // The 17 bytes of the partition configuration and the security record.
  datatype Device = Device(
    partition: seq<Byte>,
    cd: map<nat, seq<Byte>>,
    total: UInt32,
    secured: UInt32,
    unlocked: bool,
    tries: UInt32,
    hash: seq<Byte>)

  // A command after decoding.
  datatype Command =
    | ReadPage(id: nat, len: nat)
    | RoundPartition(size: nat, up: bool)
    | PartitionInfo
    | Repartition(record: seq<Byte>)
    | WriteBlock(num: nat, block: seq<Byte>)
    | DataInfo
    | EnableSecurity(zone: nat, key: seq<Byte>)
    | RoundSecurity(size: nat, up: bool)
    | Unlock(key: seq<Byte>)
    | ChangePassword(key: seq<Byte>, newKey: seq<Byte>)
    | DisableSecurity(key: seq<Byte>)
    | Reset
    | Unknown

  // What becomes of a command on its way: all goes well; the device turns it down with a nonzero
  // status; it never arrives; it is executed but the status is lost.
  datatype Outcome = Completed | Refused(code: Byte) | NotSent | NoStatus

  // What does not change while the tool runs: the device's rounding, its property pages, its limit on
  // wrong passwords, whether a right password and whether securing clear the counter, and the fate of
  // the n-th command.
  datatype Nature = Nature(
    roundPartition: (UInt32, bool) -> UInt32,
    roundSecurity: (UInt32, bool) -> UInt32,
    pages: map<nat, seq<Byte>>,
    maxTries: UInt32,
    clears: bool,
    securingClears: bool,
    outcomes: nat -> Outcome)

  datatype Effect = Effect(device: Device, status: Byte, reply: seq<Byte>)

  predicate Blocked(n: Nature, d: Device) {
    d.tries >= n.maxTries
  }

  function Take(s: seq<Byte>, len: nat): seq<Byte> {
    if len <= |s| then s[..len] else s
  }

  // A password check: a blocked device does not look, a wrong password counts.
  function Check(n: Nature, d: Device, key: seq<Byte>): (d': Device)
    ensures d' == d.(tries := d'.tries)
  {
    if Blocked(n, d) then d
    else if key == d.hash then (if n.clears then d.(tries := 0) else d)
    else d.(tries := d.tries + 1)
  }

  // The device with a new zone, which is open, and a new password.
  function Secured(n: Nature, d: Device, zone: UInt32, key: seq<Byte>): Device {
    d.(secured := zone, hash := key, unlocked := true, tries := if n.securingClears then 0 else d.tries)
  }

  predicate Accepts(n: Nature, d: Device, key: seq<Byte>) {
    !Blocked(n, d) && key == d.hash
  }

  function DataInfoBytes(d: Device): (s: seq<Byte>)
    ensures |s| == 16
  {
    Le(d.total, 4) + Le(d.secured, 4) + Le(if d.unlocked then 1 else 0, 4) + Le(d.tries, 4)
  }

  function Execute(n: Nature, d: Device, c: Command): Effect {
    match c
    case ReadPage(id, len) =>
      if id in n.pages then Effect(d, 0, Take(n.pages[id], len)) else Effect(d, 1, [])
    case RoundPartition(size, up) =>
      if size < 0x1_0000_0000 then Effect(d, 0, Le(n.roundPartition(size, up), 4)) else Effect(d, 1, [])
    case RoundSecurity(size, up) =>
      if size < 0x1_0000_0000 then Effect(d, 0, Le(n.roundSecurity(size, up), 4)) else Effect(d, 1, [])
    case PartitionInfo =>
      Effect(d, 0, d.partition)
    case Repartition(record) =>
      Effect(d.(partition := record, cd := map[]), 0, [])
    case WriteBlock(num, block) =>
      Effect(d.(cd := d.cd[num := block]), 0, [])
    case DataInfo =>
      Effect(d, 0, DataInfoBytes(d))
    case EnableSecurity(zone, key) =>
      // always possible
      if zone < 0x1_0000_0000 then Effect(Secured(n, d, zone, key), 0, []) else Effect(d, 1, [])
    case Unlock(key) =>
      var d' := Check(n, d, key);
      if Accepts(n, d, key) then Effect(d'.(unlocked := true), 0, []) else Effect(d', 1, [])
    case ChangePassword(key, newKey) =>
      var d' := Check(n, d, key);
      if Accepts(n, d, key) then Effect(d'.(hash := newKey), 0, []) else Effect(d', 1, [])
    case DisableSecurity(key) =>
      // a zone that is not the whole partition fails without counting
      if d.secured != d.total then Effect(d, 1, [])
      else
        var d' := Check(n, d, key);
        if Accepts(n, d, key) then Effect(d'.(secured := 0, unlocked := true), 0, []) else Effect(d', 1, [])
    case Reset =>
      Effect(d, 0, [])
    case Unknown =>
      Effect(d, 1, [])
  }

  // The device, the commands issued, and those of them that it executed.
  datatype State = State(device: Device, issued: seq<Command>, history: seq<Command>)

  datatype Answer = Answer(state: State, rc: bool, status: Byte, reply: seq<Byte>) {
    // The command was executed and reported success.
    predicate Ok() {
      rc && status == 0
    }
  }

  // What u3_send_cmd gives for one command.
  function Exchange(n: Nature, s: State, c: Command): Answer {
    var e := Execute(n, s.device, c);
    var issued := s.issued + [c];
    var s' := State(e.device, issued, s.history + [c]);
    match n.outcomes(|s.issued|)
    case Completed => Answer(s', true, e.status, e.reply)
    case Refused(code) => Answer(s.(issued := issued), true, if code == 0 then 1 else code, [])
    case NotSent => Answer(s.(issued := issued), false, 0, [])
    case NoStatus => Answer(s', false, 0, e.reply)
  }

  ghost predicate Reliable(n: Nature) {
    forall i: nat :: n.outcomes(i) == Completed
  }

  // The bytes of a command block, with the data sent along, as the device reads them.
  function Parse(cmd: seq<Byte>, data: seq<Byte>): Command
    requires |cmd| == 12
  {
    if cmd[0] != 0xFF then Unknown
    else if cmd[2] == 0 then
      if cmd[1] == 0x00 then ReadPage(LeValue(cmd[3..5]), LeValue(cmd[5..7]))
      else if cmd[1] == 0x20 then RoundPartition(LeValue(cmd[4..8]), cmd[8] == 1)
      else if cmd[1] == 0x21 then PartitionInfo
      else if cmd[1] == 0x22 && |data| == 17 then Repartition(data)
      else if cmd[1] == 0x42 && |data| == BLOCK_SIZE then WriteBlock(LeValue([cmd[7], cmd[6], cmd[5], cmd[4]]), data)
      else if cmd[1] == 0xA0 then DataInfo
      else if cmd[1] == 0xA2 && |data| == 20 then EnableSecurity(LeValue(data[..4]), data[4..])
      else if cmd[1] == 0xA3 then RoundSecurity(LeValue(cmd[4..8]), cmd[8] == 1)
      else if cmd[1] == 0xA4 && |data| == 16 then Unlock(data)
      else if cmd[1] == 0xA6 && |data| == 32 then ChangePassword(data[..16], data[16..])
      else if cmd[1] == 0xA7 && |data| == 16 then DisableSecurity(data)
      else Unknown
    else if cmd[2] == 1 && cmd[1] == 0x01 && |data| == 12 then Reset
    else Unknown
  }

  // The four bytes of a number, high-order first.
  function BigEndian(v: nat): (s: seq<Byte>)
    ensures |s| == 4
  {
    var le := Le(v, 4);
    [le[3], le[2], le[1], le[0]]
  }

  // The commands that can be sent.
  predicate OnWire(c: Command) {
    match c
    case ReadPage(id, len) => id < 0x1_0000 && len < 0x1_0000
    case RoundPartition(size, up) => size < 0x1_0000_0000
    case RoundSecurity(size, up) => size < 0x1_0000_0000
    case Repartition(record) => |record| == 17
    case WriteBlock(num, block) => num < 0x1_0000_0000 && |block| == BLOCK_SIZE
    case EnableSecurity(zone, key) => zone < 0x1_0000_0000 && |key| == 16
    case Unlock(key) => |key| == 16
    case ChangePassword(key, newKey) => |key| == |newKey| == 16
    case DisableSecurity(key) => |key| == 16
    case PartitionInfo => true
    case DataInfo => true
    case Reset => true
    case Unknown => false
  }

  function Plain(opcode: Byte, high: Byte): (b: seq<Byte>)
    ensures |b| == 12
  {
    [0xFF, opcode, high, 0x00, 0x00, 0x00, 0x00, 0x00, 0x00, 0x00, 0x00, 0x00]
  }

  // The command block of a command, and the data that goes with it.
  function BlockOf(c: Command): (b: seq<Byte>)
    requires OnWire(c)
    ensures |b| == 12
  {
    match c
    case ReadPage(id, len) => [0xFF, 0x00, 0x00] + Le(id, 2) + Le(len, 2) + [0x00, 0x00, 0x00, 0x00, 0x00]
    case RoundPartition(size, up) =>
      [0xFF, 0x20, 0x00, 0x02] + Le(size, 4) + [if up then 1 else 0, 0x00, 0x00, 0x00]
    case RoundSecurity(size, up) =>
      [0xFF, 0xA3, 0x00, 0x00] + Le(size, 4) + [if up then 1 else 0, 0x00, 0x00, 0x00]
    case WriteBlock(num, block) => [0xFF, 0x42, 0x00, 0x01] + BigEndian(num) + [0x00, 0x00, 0x00, 0x01]
    case PartitionInfo => Plain(0x21, 0x00)
    case Repartition(record) => Plain(0x22, 0x00)
    case DataInfo => Plain(0xA0, 0x00)
    case EnableSecurity(zone, key) => Plain(0xA2, 0x00)
    case Unlock(key) => Plain(0xA4, 0x00)
    case ChangePassword(key, newKey) => Plain(0xA6, 0x00)
    case DisableSecurity(key) => Plain(0xA7, 0x00)
    case Reset => Plain(0x01, 0x01)
  }

  function DataOf(c: Command): seq<Byte>
    requires OnWire(c)
  {
    match c
    case Repartition(record) => record
    case WriteBlock(num, block) => block
    case EnableSecurity(zone, key) => Le(zone, 4) + key
    case Unlock(key) => key
    case ChangePassword(key, newKey) => key + newKey
    case DisableSecurity(key) => key
    case Reset => [0x50, 0x00, 0x00, 0x00, 0x40, 0x9C, 0x00, 0x00, 0x01, 0x00, 0x00, 0x00]
    case _ => []
  }

  /** The bytes of the commands without a number in the block, as doc/commands.txt lists them, and of the
      data that goes with the reset. */
  lemma LiteralBlocks(c: Command)
    requires OnWire(c)
    ensures c.PartitionInfo? ==> BlockOf(c) == [0xFF, 0x21, 0, 0, 0, 0, 0, 0, 0, 0, 0, 0]
    ensures c.Repartition? ==> BlockOf(c) == [0xFF, 0x22, 0, 0, 0, 0, 0, 0, 0, 0, 0, 0] && DataOf(c) == c.record
    ensures c.DataInfo? ==> BlockOf(c) == [0xFF, 0xA0, 0, 0, 0, 0, 0, 0, 0, 0, 0, 0]
    ensures c.EnableSecurity? ==> BlockOf(c) == [0xFF, 0xA2, 0, 0, 0, 0, 0, 0, 0, 0, 0, 0]
    ensures c.Unlock? ==> BlockOf(c) == [0xFF, 0xA4, 0, 0, 0, 0, 0, 0, 0, 0, 0, 0] && DataOf(c) == c.key
    ensures c.ChangePassword? ==>
      BlockOf(c) == [0xFF, 0xA6, 0, 0, 0, 0, 0, 0, 0, 0, 0, 0] && DataOf(c) == c.key + c.newKey
    ensures c.DisableSecurity? ==> BlockOf(c) == [0xFF, 0xA7, 0, 0, 0, 0, 0, 0, 0, 0, 0, 0] && DataOf(c) == c.key
    ensures c.Reset? ==>
      && BlockOf(c) == [0xFF, 0x01, 0x01, 0, 0, 0, 0, 0, 0, 0, 0, 0]
      && DataOf(c) == [0x50, 0, 0, 0, 0x40, 0x9C, 0, 0, 1, 0, 0, 0]
  {
  }

  /** The bytes of the commands with numbers: where each number stands, and in which order of bytes. */
  lemma NumberedBlocks(c: Command)
    requires OnWire(c)
    ensures var b := BlockOf(c);
            c.ReadPage? ==> b[..3] == [0xFF, 0, 0] && LeValue(b[3..5]) == c.id && LeValue(b[5..7]) == c.len
                            && b[7..] == [0, 0, 0, 0, 0]
    ensures var b := BlockOf(c);
            c.RoundPartition? ==> b[..4] == [0xFF, 0x20, 0, 2] && LeValue(b[4..8]) == c.size
                                  && b[8..] == [if c.up then 1 else 0, 0, 0, 0]
    ensures var b := BlockOf(c);
            c.RoundSecurity? ==> b[..4] == [0xFF, 0xA3, 0, 0] && LeValue(b[4..8]) == c.size
                                 && b[8..] == [if c.up then 1 else 0, 0, 0, 0]
    ensures var b := BlockOf(c);
            c.WriteBlock? ==> b[..4] == [0xFF, 0x42, 0, 1] && LeValue([b[7], b[6], b[5], b[4]]) == c.num
                              && b[8..] == [0, 0, 0, 1] && DataOf(c) == c.block
    ensures c.EnableSecurity? ==>
      |DataOf(c)| == 20 && LeValue(DataOf(c)[..4]) == c.zone && DataOf(c)[4..] == c.key
  {
    match c
    case ReadPage(id, len) =>
      PageBytes(id, len);
    case RoundPartition(size, up) =>
      RoundBytes(0x20, 0x02, size, up);
    case RoundSecurity(size, up) =>
      RoundBytes(0xA3, 0x00, size, up);
    case WriteBlock(num, block) =>
      WriteBytes(num);
    case EnableSecurity(zone, key) =>
      ZoneBytes(zone, key);
    case _ =>
  }

  lemma PageBytes(id: nat, len: nat)
    requires id < 0x1_0000 && len < 0x1_0000
    ensures var b := [0xFF, 0x00, 0x00] + Le(id, 2) + Le(len, 2) + [0x00, 0x00, 0x00, 0x00, 0x00];
            b[..3] == [0xFF, 0, 0] && LeValue(b[3..5]) == id && LeValue(b[5..7]) == len && b[7..] == [0, 0, 0, 0, 0]
  {
    LeRoundTrip16(id);
    LeRoundTrip16(len);
    var b := [0xFF, 0x00, 0x00] + Le(id, 2) + Le(len, 2) + [0x00, 0x00, 0x00, 0x00, 0x00];
    assert b[3..5] == Le(id, 2) && b[5..7] == Le(len, 2);
  }

  lemma RoundBytes(opcode: Byte, domain: Byte, size: nat, up: bool)
    requires size < 0x1_0000_0000
    ensures var b := [0xFF, opcode, 0x00, domain] + Le(size, 4) + [if up then 1 else 0, 0x00, 0x00, 0x00];
            b[..4] == [0xFF, opcode, 0, domain] && LeValue(b[4..8]) == size && b[8..] == [if up then 1 else 0, 0, 0, 0]
  {
    LeRoundTrip32(size);
    var b := [0xFF, opcode, 0x00, domain] + Le(size, 4) + [if up then 1 else 0, 0x00, 0x00, 0x00];
    assert b[4..8] == Le(size, 4);
  }

  lemma WriteBytes(num: nat)
    requires num < 0x1_0000_0000
    ensures var b := [0xFF, 0x42, 0x00, 0x01] + BigEndian(num) + [0x00, 0x00, 0x00, 0x01];
            b[..4] == [0xFF, 0x42, 0, 1] && LeValue([b[7], b[6], b[5], b[4]]) == num && b[8..] == [0, 0, 0, 1]
  {
    LeRoundTrip32(num);
    var b := [0xFF, 0x42, 0x00, 0x01] + BigEndian(num) + [0x00, 0x00, 0x00, 0x01];
    assert [b[7], b[6], b[5], b[4]] == Le(num, 4);
  }

  lemma ZoneBytes(zone: nat, key: seq<Byte>)
    requires zone < 0x1_0000_0000 && |key| == 16
    ensures var d := Le(zone, 4) + key; |d| == 20 && LeValue(d[..4]) == zone && d[4..] == key
  {
    LeRoundTrip32(zone);
    assert (Le(zone, 4) + key)[..4] == Le(zone, 4);
  }

  /** The device reads every command back from the bytes that carry it. */
  lemma ReadsBack(c: Command)
    requires OnWire(c)
    ensures Parse(BlockOf(c), DataOf(c)) == c
  {
    if c.ReadPage? || c.RoundPartition? || c.RoundSecurity? || c.WriteBlock? {
      NumbersReadBack(c, BlockOf(c));
    } else {
      LiteralBlocks(c);
      PlainReadBack(c, BlockOf(c), DataOf(c));
    }
  }

  lemma PlainReadBack(c: Command, b: seq<Byte>, d: seq<Byte>)
    requires OnWire(c) && b == BlockOf(c) && d == DataOf(c)
    requires !(c.ReadPage? || c.RoundPartition? || c.RoundSecurity? || c.WriteBlock?)
    ensures Parse(b, d) == c
  {
    LiteralBlocks(c);
    match c
    case EnableSecurity(zone, key) =>
      ZoneBytes(zone, key);
    case ChangePassword(key, newKey) =>
      assert d[..16] == key && d[16..] == newKey;
    case _ =>
  }

  lemma NumbersReadBack(c: Command, b: seq<Byte>)
    requires OnWire(c) && b == BlockOf(c)
    requires c.ReadPage? || c.RoundPartition? || c.RoundSecurity? || c.WriteBlock?
    ensures Parse(b, DataOf(c)) == c
  {
    NumberedBlocks(c);
    if c.ReadPage? {
      assert b[..3][0] == 0xFF && b[..3][1] == 0 && b[..3][2] == 0;
    } else {
      assert b[..4][0] == b[0] && b[..4][1] == b[1] && b[..4][2] == b[2];
      assert b[8..][0] == b[8];
    }
  }

  // A buffer after a read of at most len bytes.
  function Overwrite(buffer: seq<Byte>, reply: seq<Byte>, len: nat): (r: seq<Byte>)
    requires len <= |buffer|
    ensures |r| == |buffer|
  {
    var got := Take(reply, len);
    got + buffer[|got|..]
  }

  datatype Direction = ToDevice | FromDevice

  // What comes back goes to the buffer.
  method Deliver(reply: seq<Byte>, length: nat, data: array<Byte>)
    requires length <= data.Length
    modifies data
    ensures data[..] == Overwrite(old(data[..]), reply, length)
  {
    var got := Take(reply, length);
    forall i | 0 <= i < |got| {
      data[i] := got[i];
    }
  }

  // The handle, with u3_send_cmd as an abstract step of the device.
  class Handle {
    const nature: Nature
    var state: State

    constructor (nature: Nature, device: Device)
      ensures this.nature == nature && state == State(device, [], [])
    {
      this.nature := nature;
      state := State(device, [], []);
    }

    method SendCmd(cmd: array<Byte>, direction: Direction, length: nat, data: array<Byte>)
      returns (rc: bool, status: Byte)
      requires cmd.Length == 12 && length <= data.Length
      modifies this`state, data
      ensures var c := Parse(old(cmd[..]), if direction == ToDevice then old(data[..length]) else []);
              var a := Exchange(nature, old(state), c);
              && state == a.state && rc == a.rc && status == a.status
              && data[..] == if direction == ToDevice then old(data[..]) else Overwrite(old(data[..]), a.reply, length)
    {
      var c := Parse(cmd[..], if direction == ToDevice then data[..length] else []);
      var a := Exchange(nature, state, c);
      state, rc, status := a.state, a.rc, a.status;
      if direction == FromDevice {
        Deliver(a.reply, length, data);
      }
    }

    // The same for the command c, given by its bytes.
    method Send(cmd: array<Byte>, direction: Direction, length: nat, data: array<Byte>, ghost c: Command)
      returns (rc: bool, status: Byte)
      requires cmd.Length == 12 && length <= data.Length && OnWire(c) && cmd[..] == BlockOf(c)
      requires DataOf(c) == if direction == ToDevice then data[..length] else []
      modifies this`state, data
      ensures var a := Exchange(nature, old(state), c);
              && state == a.state && rc == a.rc && status == a.status
              && data[..] == if direction == ToDevice then old(data[..]) else Overwrite(old(data[..]), a.reply, length)
    {
      ReadsBack(c);
      rc, status := SendCmd(cmd, direction, length, data);
    }
  }
}
