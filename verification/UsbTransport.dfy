/** u3_scsi_usb.c: one command over USB Mass Storage Class Bulk-Only Transport. */
module UsbTransport {

  import opened Bytes

  const MAX_PACKET_LEN := 2048
  const CBW_LEN := 31
  const CSW_LEN := 13
  const CBWCB_LEN := 12

  datatype Direction = None | ToDevice | FromDevice

  // A bulk transfer that the tool asks for; a command wrapper goes over packed.
  datatype Transfer = Command(wrapper: CommandWrapper) | Write(data: seq<Byte>) | Read(len: nat)

  // The bus: the transfers so far, and what happens to the n-th one. A result is negative for an
  // error and otherwise the number of bytes that went over; a read brings that many bytes of replies(n).
  class Bus {
    const results: nat -> int
    const replies: nat -> seq<Byte>
    ghost var trace: seq<Transfer>
    var count: nat

    constructor (results: nat -> int, replies: nat -> seq<Byte>)
      ensures this.results == results && this.replies == replies && Valid() && trace == []
    {
      this.results := results;
      this.replies := replies;
      trace, count := [], 0;
    }

    ghost predicate Valid()
      reads this
    {
      count == |trace|
    }

    function Result(n: nat): int {
      results(n)
    }

    function Reply(n: nat): seq<Byte> {
      replies(n)
    }

    method BulkWrite(transfer: Transfer) returns (res: int)
      requires Valid()
      modifies this
      ensures Valid() && trace == old(trace) + [transfer] && res == Result(old(count))
    {
      res := Result(count);
      trace := trace + [transfer];
      count := count + 1;
    }

    method BulkRead(buffer: array<Byte>, len: nat) returns (res: int)
      requires Valid() && len <= buffer.Length
      modifies this, buffer
      ensures Valid() && trace == old(trace) + [Read(len)] && res == Result(old(count))
      ensures buffer[..] == Received(old(buffer[..]), Reply(old(count)), res, len)
    {
      res := Result(count);
      var reply := Reply(count);
      forall i | 0 <= i < len && i < res && i < |reply| {
        buffer[i] := reply[i];
      }
      trace := trace + [Read(len)];
      count := count + 1;
    }
  }

  // Of a data packet, the bytes that a write with this result brought to the device.
  function Taken(transfer: Transfer, res: int): seq<Byte> {
    if transfer.Write? && res > 0 then transfer.data[..if res <= |transfer.data| then res else |transfer.data|] else []
  }

  // The data bytes that the device has taken in the course of these transfers.
  function Delivered(results: nat -> int, trace: seq<Transfer>): seq<Byte>
    decreases |trace|, 1
  {
    if trace == [] then [] else DeliveredLast(results, trace[..|trace| - 1], trace[|trace| - 1])
  }

  // The same for the transfers of a trace and one more.
  function DeliveredLast(results: nat -> int, trace: seq<Transfer>, last: Transfer): seq<Byte>
    decreases |trace|, 2
  {
    Delivered(results, trace) + Taken(last, results(|trace|))
  }

  lemma DeliveredStep(results: nat -> int, trace: seq<Transfer>, last: Transfer)
    ensures Delivered(results, trace + [last]) == Delivered(results, trace) + Taken(last, results(|trace|))
  {
    assert (trace + [last])[..|trace|] == trace;
    assert DeliveredLast(results, trace, last) == Delivered(results, trace) + Taken(last, results(|trace|));
  }

  // A buffer after a read of at most len bytes that brought res of the reply.
  function Received(buffer: seq<Byte>, reply: seq<Byte>, res: int, len: nat): (r: seq<Byte>)
    ensures |r| == |buffer|
  {
    seq(|buffer|, i requires 0 <= i < |buffer| => if i < len && i < res && i < |reply| then reply[i] else buffer[i])
  }

  // struct usb_msc_cbw
  datatype CommandWrapper = CommandWrapper(
    signature: seq<Byte>, tag: nat, dataTransferLength: nat, flags: Byte, lun: Byte, cbLength: Byte, cb: seq<Byte>)
  {
    // The packed struct in memory on a little-endian machine.
    function Packed(): seq<Byte> {
      signature + Le(tag, 4) + Le(dataTransferLength, 4) + [flags, lun, cbLength] + cb
    }
  }

  // The wrapper that the code makes for a command.
  function Wrapper(tag: nat, cmd: seq<Byte>, len: nat, direction: Direction): CommandWrapper {
    CommandWrapper([0x55, 0x53, 0x42, 0x43], tag, len, if direction == FromDevice then 0x80 else 0, 1, 12,
                   cmd + [0, 0, 0, 0])
  }

  /** The wrapper as section 5.1 lays it out: 31 bytes, and at the standard's offsets the signature,
      the tag, the length, the direction bit, the logical unit, the length of the command, and the command
      with zeros after it. */
  lemma WrapperLayout(tag: nat, cmd: seq<Byte>, len: nat, direction: Direction)
    requires |cmd| == CBWCB_LEN && tag < 0x1_0000_0000 && len < 0x1_0000_0000
    ensures var w := Wrapper(tag, cmd, len, direction).Packed();
            && |w| == CBW_LEN
            && w[0..4] == [0x55, 0x53, 0x42, 0x43]
            && LeValue(w[4..8]) == tag && LeValue(w[8..12]) == len
            && (w[12] == 0x80 <==> direction == FromDevice)
            && w[13] == 1 && w[14] == 12 && w[15..27] == cmd && w[27..31] == [0, 0, 0, 0]
  {
    var w := Wrapper(tag, cmd, len, direction);
    LeRoundTrip32(tag);
    LeRoundTrip32(len);
    Fields(w.signature, Le(tag, 4), Le(len, 4), [w.flags, w.lun, w.cbLength], cmd);
  }

  lemma Fields(a: seq<Byte>, b: seq<Byte>, c: seq<Byte>, d: seq<Byte>, e: seq<Byte>)
    requires |a| == |b| == |c| == 4 && |d| == 3 && |e| == CBWCB_LEN
    ensures var w := a + b + c + d + (e + [0, 0, 0, 0]);
            && |w| == CBW_LEN && w[0..4] == a && w[4..8] == b && w[8..12] == c
            && w[12] == d[0] && w[13] == d[1] && w[14] == d[2] && w[15..27] == e && w[27..31] == [0, 0, 0, 0]
  {
  }

  function PacketCount(len: nat): nat {
    (len + MAX_PACKET_LEN - 1) / MAX_PACKET_LEN
  }

  // The i-th packet of the data-out phase.
  function Packet(data: seq<Byte>, i: nat): seq<Byte>
    requires i < PacketCount(|data|)
  {
    var start := i * MAX_PACKET_LEN;
    if |data| - start > MAX_PACKET_LEN then data[start..start + MAX_PACKET_LEN] else data[start..]
  }

  // The first k packets.
  function Packets(data: seq<Byte>, k: nat): (p: seq<Transfer>)
    requires k <= PacketCount(|data|)
    ensures |p| == k
  {
    seq(k, i requires 0 <= i < k => Write(Packet(data, i)))
  }

  // The number of transfers in the data phase, and the first m of them.
  function PlanLength(direction: Direction, len: nat): nat {
    match direction
    case None => 0
    case ToDevice => PacketCount(len)
    case FromDevice => 1
  }

  function DataPlan(direction: Direction, data: seq<Byte>, m: nat): seq<Transfer>
    requires m <= PlanLength(direction, |data|)
  {
    match direction
    case None => []
    case ToDevice => Packets(data, m)
    case FromDevice => if m == 0 then [] else [Read(|data|)]
  }

  // The transfers of a command in order: the wrapper, m of the data phase, and the status if asked for.
  function Phases(tag: nat, cmd: seq<Byte>, direction: Direction, data: seq<Byte>, m: nat, asked: bool): seq<Transfer>
    requires m <= PlanLength(direction, |data|)
  {
    [Command(Wrapper(tag, cmd, if direction == None then 0 else |data|, direction))]
    + DataPlan(direction, data, m) + if asked then [Read(CSW_LEN)] else []
  }

  /** The transfers of the three kinds of commands, written out. */
  lemma PhasesListed(tag: nat, cmd: seq<Byte>, data: seq<Byte>)
    ensures Phases(tag, cmd, None, data, 0, true) == [Command(Wrapper(tag, cmd, 0, None)), Read(13)]
    ensures Phases(tag, cmd, FromDevice, data, 1, true)
         == [Command(Wrapper(tag, cmd, |data|, FromDevice)), Read(|data|), Read(13)]
    ensures var p := Phases(tag, cmd, ToDevice, data, PacketCount(|data|), true);
            && |p| == PacketCount(|data|) + 2
            && p[0] == Command(Wrapper(tag, cmd, |data|, ToDevice)) && p[|p| - 1] == Read(13)
            && forall i :: 0 <= i < PacketCount(|data|) ==> p[i + 1] == Write(Packet(data, i))
  {
  }

  // Whether the transfer n of the bus went well for the code, first being that of the wrapper.
  predicate WentWell(results: nat -> int, first: nat, n: nat) {
    if n == first then results(n) == CBW_LEN else results(n) >= 0
  }

  // None of the transfers from first to end reported an error.
  predicate NoneFailed(results: nat -> int, first: nat, end: int)
    decreases end
  {
    end <= first || (results(end - 1) >= 0 && NoneFailed(results, first, end - 1))
  }

  // So did all transfers from first up to end.
  predicate AllWell(results: nat -> int, first: nat, end: nat)
    decreases end
  {
    end <= first || (WentWell(results, first, end - 1) && AllWell(results, first, end - 1))
  }

  /** Spelled out: the wrapper goes over whole, and no later transfer reports an error. */
  lemma {:induction false} AllWellMeans(results: nat -> int, first: nat, end: nat)
    ensures AllWell(results, first, end)
       <==> forall n :: first <= n < end ==> if n == first then results(n) == 31 else results(n) >= 0
    decreases end
  {
    if first < end {
      AllWellMeans(results, first, end - 1);
    }
  }

  // A wrapper that went over, and a data phase.
  lemma {:induction false} WellThen(results: nat -> int, first: nat, end: nat)
    requires first < end && WentWell(results, first, first) && NoneFailed(results, first + 1, end)
    ensures AllWell(results, first, end)
    decreases end
  {
    if first + 1 < end {
      WellThen(results, first, end - 1);
    } else {
      assert AllWell(results, first, first);
    }
  }

  datatype Outcome = Success(status: Byte) | Failure | Abort

  // The first k packets joined.
  function Joined(data: seq<Byte>, k: nat): seq<Byte>
    requires k <= PacketCount(|data|)
  {
    if k == 0 then [] else Joined(data, k - 1) + Packet(data, k - 1)
  }

  lemma PacketAt(data: seq<Byte>, i: nat)
    requires i < PacketCount(|data|)
    ensures 1 <= |Packet(data, i)| <= MAX_PACKET_LEN
    ensures data[..PacketEnd(|data|, i)] + Packet(data, i) == data[..PacketEnd(|data|, i + 1)]
  {
  }

  lemma PacketBounds(data: seq<Byte>, i: nat)
    requires PacketEnd(|data|, i) < |data|
    ensures i < PacketCount(|data|)
    ensures var start := PacketEnd(|data|, i);
            var len := if |data| - start > MAX_PACKET_LEN then MAX_PACKET_LEN else |data| - start;
            PacketEnd(|data|, i + 1) == start + len && Packet(data, i) == data[start..start + len]
  {
  }

  /** The number of packets for a length, and their sizes. */
  lemma PacketSizes(data: seq<Byte>, i: nat)
    ensures PacketCount(|data|) == (|data| + 2047) / 2048
    ensures i < PacketCount(|data|) ==>
      |Packet(data, i)| == if 2048 * i + 2048 <= |data| then 2048 else |data| - 2048 * i
  {
  }

  // Where the packet before the i-th one ends.
  function PacketEnd(len: nat, i: nat): (end: nat)
    ensures end <= len
  {
    if i * MAX_PACKET_LEN < len then i * MAX_PACKET_LEN else len
  }

  lemma LastPacketEnd(len: nat)
    ensures PacketEnd(len, PacketCount(len)) == len
  {
  }

  /** The packets are of 1 to 2048 bytes and carry exactly the data, in order. */
  lemma {:induction false} PacketsCarryData(data: seq<Byte>, k: nat)
    requires k <= PacketCount(|data|)
    ensures Joined(data, k) == data[..PacketEnd(|data|, k)]
    ensures k == PacketCount(|data|) ==> Joined(data, k) == data
    ensures forall i :: 0 <= i < k ==> 1 <= |Packet(data, i)| <= MAX_PACKET_LEN
  {
    if k > 0 {
      PacketsCarryData(data, k - 1);
      PacketAt(data, k - 1);
      assert Joined(data, k) == Joined(data, k - 1) + Packet(data, k - 1);
    }
    LastPacketEnd(|data|);
    assert data[..|data|] == data;
    forall i | 0 <= i < k
      ensures 1 <= |Packet(data, i)| <= MAX_PACKET_LEN
    {
      PacketAt(data, i);
    }
  }

  // What the device takes of the first k packets, when the writes are the transfers from first on.
  function Accepted(results: nat -> int, first: nat, data: seq<Byte>, k: nat): seq<Byte>
    requires k <= PacketCount(|data|)
  {
    if k == 0 then []
    else Accepted(results, first, data, k - 1) + Taken(Write(Packet(data, k - 1)), results(first + k - 1))
  }

  // The first k of these writes take their whole packets.
  predicate Whole(results: nat -> int, first: nat, data: seq<Byte>, k: nat)
    requires k <= PacketCount(|data|)
  {
    k == 0 || (results(first + k - 1) >= |Packet(data, k - 1)| && Whole(results, first, data, k - 1))
  }

  /** Spelled out: no result is short of its packet. */
  lemma {:induction false} WholeMeans(results: nat -> int, first: nat, data: seq<Byte>, k: nat)
    requires k <= PacketCount(|data|)
    ensures Whole(results, first, data, k) <==> forall i :: 0 <= i < k ==> results(first + i) >= |Packet(data, i)|
  {
    if k > 0 {
      WholeMeans(results, first, data, k - 1);
    }
  }

  lemma {:induction false} AcceptedLength(results: nat -> int, first: nat, data: seq<Byte>, k: nat)
    requires k <= PacketCount(|data|)
    ensures |Accepted(results, first, data, k)| <= |Joined(data, k)|
    ensures |Accepted(results, first, data, k)| == |Joined(data, k)| <==> Whole(results, first, data, k)
    ensures Whole(results, first, data, k) ==> Accepted(results, first, data, k) == Joined(data, k)
  {
    if k > 0 {
      var last, res := Packet(data, k - 1), results(first + k - 1);
      AcceptedLength(results, first, data, k - 1);
      PacketAt(data, k - 1);
      WholePacket(last, res);
    }
  }

  lemma WholePacket(packet: seq<Byte>, res: int)
    requires packet != []
    ensures var t := Taken(Write(packet), res);
            |t| <= |packet| && (|t| == |packet| <==> res >= |packet|) && (res >= |packet| ==> t == packet)
  {
  }

  // Delivered as a value: the induction does not look into it.
  ghost predicate IsDelivered(delivered: seq<Transfer> -> seq<Byte>, results: nat -> int) {
    forall t: seq<Transfer> {:trigger Delivered(results, t)} :: delivered(t) == Delivered(results, t)
  }

  lemma {:induction false} DeliveredPackets(delivered: seq<Transfer> -> seq<Byte>, results: nat -> int,
                                            t: seq<Transfer>, data: seq<Byte>, k: nat)
    requires IsDelivered(delivered, results) && k <= PacketCount(|data|)
    ensures delivered(t + Packets(data, k)) == delivered(t) + Accepted(results, |t|, data, k)
    decreases k
  {
    if k == 0 {
      assert t + Packets(data, 0) == t;
    } else {
      DeliveredPackets(delivered, results, t, data, k - 1);
      NextPacket(t, data, k - 1);
      NextDelivered(delivered, results, t + Packets(data, k - 1), delivered(t), Accepted(results, |t|, data, k - 1),
                    Write(Packet(data, k - 1)));
      NextAccepted(results, |t|, data, k - 1);
    }
  }

  lemma NextAccepted(results: nat -> int, first: nat, data: seq<Byte>, k: nat)
    requires k < PacketCount(|data|)
    ensures Accepted(results, first, data, k + 1)
         == Accepted(results, first, data, k) + Taken(Write(Packet(data, k)), results(first + k))
  {
  }

  lemma NextDelivered(delivered: seq<Transfer> -> seq<Byte>, results: nat -> int,
                      t: seq<Transfer>, a: seq<Byte>, b: seq<Byte>, x: Transfer)
    requires IsDelivered(delivered, results) && delivered(t) == a + b
    ensures delivered(t + [x]) == a + (b + Taken(x, results(|t|)))
  {
    assert delivered(t + [x]) == Delivered(results, t + [x]) && delivered(t) == Delivered(results, t);
    DeliveredStep(results, t, x);
    Assoc(a, b, Taken(x, results(|t|)));
  }

  lemma Assoc(a: seq<Byte>, b: seq<Byte>, c: seq<Byte>)
    ensures a + b + c == a + (b + c)
  {
  }

  // Commands and reads deliver no data.
  lemma NothingDelivered(results: nat -> int, t: seq<Transfer>, x: Transfer)
    requires !x.Write?
    ensures Delivered(results, t + [x]) == Delivered(results, t)
  {
    DeliveredStep(results, t, x);
  }

  /** The loop advances by the length of a packet whatever the write reports. So in a command that went
      through all its phases the device takes exactly the data if and only if every write takes its whole
      packet. */
  lemma WholeWritesNeeded(results: nat -> int, t: seq<Transfer>, trace: seq<Transfer>,
                          tag: nat, cmd: seq<Byte>, data: seq<Byte>)
    requires trace == t + Phases(tag, cmd, ToDevice, data, PacketCount(|data|), true)
    ensures Delivered(results, trace) == Delivered(results, t) + data
       <==> Whole(results, |t| + 1, data, PacketCount(|data|))
  {
    var count := PacketCount(|data|);
    DeliveredPhases(results, t, tag, cmd, data);
    SamePrefix(Delivered(results, t), Accepted(results, |t| + 1, data, count), data);
    AcceptedLength(results, |t| + 1, data, count);
    PacketsCarryData(data, count);
  }

  lemma DeliveredPhases(results: nat -> int, t: seq<Transfer>, tag: nat, cmd: seq<Byte>, data: seq<Byte>)
    ensures Delivered(results, t + Phases(tag, cmd, ToDevice, data, PacketCount(|data|), true))
         == Delivered(results, t) + Accepted(results, |t| + 1, data, PacketCount(|data|))
  {
    var count, w := PacketCount(|data|), Command(Wrapper(tag, cmd, |data|, ToDevice));
    InOrder(t, tag, cmd, ToDevice, data, count);
    NothingDelivered(results, t, w);
    var delivered := (u: seq<Transfer>) => Delivered(results, u);
    DeliveredPackets(delivered, results, t + [w], data, count);
    NothingDelivered(results, t + Phases(tag, cmd, ToDevice, data, count, false), Read(CSW_LEN));
  }

  lemma SamePrefix(a: seq<Byte>, b: seq<Byte>, c: seq<Byte>)
    ensures a + b == a + c <==> b == c
  {
    assert (a + b)[|a|..] == b && (a + c)[|a|..] == c;
  }

  // The data-out phase: it ends after all packets or with the first that fails.
  method SendData(bus: Bus, data: array<Byte>, length: nat) returns (ok: bool, ghost k: nat)
    requires bus.Valid() && length <= data.Length
    modifies bus
    ensures bus.Valid() && bus.count == old(bus.count) + k && k <= PacketCount(length)
    ensures bus.trace == old(bus.trace) + Packets(old(data[..length]), k)
    ensures NoneFailed(bus.results, old(bus.count), old(bus.count) + k - 1)
    ensures if k == 0 then ok else (ok <==> bus.Result(old(bus.count) + k - 1) >= 0)
    ensures ok ==> k == PacketCount(length)
  {
    ghost var given, t, first := data[..length], bus.trace, bus.count;
    var bytesSend := 0;
    k := 0;
    while bytesSend < length
      invariant k <= PacketCount(length) && bytesSend == PacketEnd(length, k) && data[..length] == given
      invariant bus.Valid() && bus.count == first + k && bus.trace == t + Packets(given, k)
      invariant NoneFailed(bus.results, first, first + k)
    {
      var plen := length - bytesSend;
      if plen > MAX_PACKET_LEN {
        plen := MAX_PACKET_LEN;
      }
      PacketBounds(given, k);
      var res := SendPacket(bus, data, length, bytesSend, plen, t, given, k);
      k := k + 1;
      if res < 0 {
        return false, k;
      }
      bytesSend := bytesSend + plen;
    }
    ok := true;
  }

  // usb_bulk_write of the k-th packet.
  method SendPacket(bus: Bus, data: array<Byte>, length: nat, start: nat, plen: nat,
                    ghost t: seq<Transfer>, ghost given: seq<Byte>, ghost k: nat)
    returns (res: int)
    requires bus.Valid() && start + plen <= length <= data.Length && data[..length] == given
    requires k < PacketCount(|given|) && Packet(given, k) == given[start..start + plen]
    requires bus.trace == t + Packets(given, k)
    modifies bus
    ensures bus.Valid() && bus.count == old(bus.count) + 1 && data[..length] == given
    ensures res == bus.Result(old(bus.count))
    ensures bus.trace == t + Packets(given, k + 1)
  {
    SliceOfSlice(data[..], length, start, start + plen);
    res := bus.BulkWrite(Write(data[start..start + plen]));
    NextPacket(t, given, k);
  }

  lemma SliceOfSlice(s: seq<Byte>, n: nat, i: nat, j: nat)
    requires i <= j <= n <= |s|
    ensures s[..n][i..j] == s[i..j]
  {
  }

  // One more packet in the trace.
  lemma NextPacket(t: seq<Transfer>, data: seq<Byte>, k: nat)
    requires k < PacketCount(|data|)
    ensures t + Packets(data, k) + [Write(Packet(data, k))] == t + Packets(data, k + 1)
  {
    assert Packets(data, k + 1) == Packets(data, k) + [Write(Packet(data, k))];
  }

  // The data phase in either direction, or none.
  method DataPhase(bus: Bus, direction: Direction, length: nat, data: array<Byte>) returns (ok: bool, ghost k: nat)
    requires bus.Valid() && length <= data.Length
    modifies bus, data
    ensures bus.Valid() && bus.count == old(bus.count) + k
    ensures k <= PlanLength(direction, length) && (ok ==> k == PlanLength(direction, length))
    ensures bus.trace == old(bus.trace) + DataPlan(direction, old(data[..length]), k)
    ensures direction == FromDevice ==> k == 1
    ensures NoneFailed(bus.results, old(bus.count), old(bus.count) + k - 1)
    ensures if k == 0 then ok else (ok <==> bus.Result(old(bus.count) + k - 1) >= 0)
    ensures data[..] == Returned(old(data[..]), bus.replies, bus.results, old(bus.count), direction, length, k)
  {
    ok, k := true, 0;
    if direction == ToDevice {
      ok, k := SendData(bus, data, length);
    } else if direction == FromDevice {
      var res := bus.BulkRead(data, length);
      ok, k := res >= 0, 1;
    }
  }

  /** What a read leaves in the caller's buffer: the bytes of the reply that arrived, and no others change. */
  lemma ReturnedMeans(buffer: seq<Byte>, replies: nat -> seq<Byte>, results: nat -> int, first: nat,
                      direction: Direction, length: nat, m: nat)
    ensures var b := Returned(buffer, replies, results, first, direction, length, m);
            && |b| == |buffer|
            && (direction != FromDevice || m == 0 ==> b == buffer)
            && (direction == FromDevice && m > 0 ==>
                  forall i :: 0 <= i < |buffer| ==>
                    b[i] == if i < length && i < results(first) && i < |replies(first)|
                            then replies(first)[i] else buffer[i])
  {
  }

  // The command and the data phase.
  method SendPhases(bus: Bus, cmd: array<Byte>, direction: Direction, length: nat, data: array<Byte>, tag: nat)
    returns (ok: bool, ghost m: nat)
    requires bus.Valid() && cmd.Length == CBWCB_LEN && length <= data.Length && cmd != data
    modifies bus, data
    ensures bus.Valid() && m <= PlanLength(direction, length) && bus.count == old(bus.count) + 1 + m
    ensures bus.trace == old(bus.trace) + Phases(tag, old(cmd[..]), direction, old(data[..length]), m, false)
    ensures AllWell(bus.results, old(bus.count), old(bus.count) + m)
    ensures ok <==> WentWell(bus.results, old(bus.count), old(bus.count) + m)
    ensures ok ==> AllWell(bus.results, old(bus.count), old(bus.count) + m + 1)
    ensures ok ==> m == PlanLength(direction, length)
    ensures data[..] == Returned(old(data[..]), bus.replies, bus.results, old(bus.count) + 1, direction, length, m)
  {
    m := 0;
    ghost var given, t := data[..length], bus.trace;
    var dxferLength := if direction == None then 0 else length;
    var res := bus.BulkWrite(Command(Wrapper(tag, cmd[..], dxferLength, direction)));
    InOrder(t, tag, cmd[..], direction, given, 0);
    ok := res == CBW_LEN;
    if ok {
      ok, m := DataPhase(bus, direction, length, data);
      InOrder(t, tag, old(cmd[..]), direction, given, m);
      if m > 0 {
        WellThen(bus.results, old(bus.count), old(bus.count) + m);
      }
    }
  }

  // What m transfers of the data phase leave in the buffer.
  function Returned(buffer: seq<Byte>, replies: nat -> seq<Byte>, results: nat -> int, first: nat,
                    direction: Direction, length: nat, m: nat): seq<Byte>
  {
    if direction == FromDevice && m > 0 then Received(buffer, replies(first), results(first), length) else buffer
  }

  // All phases. Of the data phase m transfers took place; asked tells whether the status was asked for.
  method AllPhases(bus: Bus, cmd: array<Byte>, direction: Direction, length: nat, data: array<Byte>)
    returns (outcome: Outcome, ghost m: nat, ghost asked: bool)
    requires bus.Valid() && cmd.Length == CBWCB_LEN && length <= data.Length && cmd != data
    requires length < 0x8000_0000
    modifies bus, data
    ensures bus.Valid() && m <= PlanLength(direction, length)
    ensures bus.count == old(bus.count) + 1 + m + (if asked then 1 else 0)
    ensures bus.trace == old(bus.trace) + Phases(1, old(cmd[..]), direction, old(data[..length]), m, asked)
    ensures asked ==> m == PlanLength(direction, length)
    ensures asked ==> AllWell(bus.results, old(bus.count), old(bus.count) + m + 1)
    ensures !asked ==> outcome == Failure && AllWell(bus.results, old(bus.count), old(bus.count) + m)
                       && !WentWell(bus.results, old(bus.count), old(bus.count) + m)
    ensures asked ==>
      outcome == StatusOf(bus.Result(old(bus.count) + m + 1), bus.Reply(old(bus.count) + m + 1))
    ensures data[..] == Returned(old(data[..]), bus.replies, bus.results, old(bus.count) + 1, direction, length, m)
  {
    var tag := 1;
    asked := false;
    ghost var given, t := data[..length], bus.trace;
    var ok;
    ok, m := SendPhases(bus, cmd, direction, length, data, tag);
    if !ok {
      return Failure, m, asked;
    }
    ghost var returned := data[..];
    outcome := ReadStatus(bus, tag, t, old(cmd[..]), direction, given, m, old(bus.count) + m + 1);
    assert data[..] == returned;
    asked := true;
  }

  // The whole of u3_send_cmd, and what it delivers.
  method SendCmd(bus: Bus, cmd: array<Byte>, direction: Direction, length: nat, data: array<Byte>)
    returns (outcome: Outcome, ghost m: nat, ghost asked: bool)
    requires bus.Valid() && cmd.Length == CBWCB_LEN && length <= data.Length && cmd != data
    requires length < 0x8000_0000
    modifies bus, data
    ensures bus.Valid() && m <= PlanLength(direction, length)
    ensures bus.count == old(bus.count) + 1 + m + (if asked then 1 else 0)
    ensures bus.trace == old(bus.trace) + Phases(1, old(cmd[..]), direction, old(data[..length]), m, asked)
    ensures asked ==> m == PlanLength(direction, length)
    ensures asked ==> AllWell(bus.results, old(bus.count), old(bus.count) + m + 1)
    ensures !asked ==> outcome == Failure && AllWell(bus.results, old(bus.count), old(bus.count) + m)
                       && !WentWell(bus.results, old(bus.count), old(bus.count) + m)
    ensures asked ==>
      outcome == StatusOf(bus.Result(old(bus.count) + m + 1), bus.Reply(old(bus.count) + m + 1))
    ensures data[..] == Returned(old(data[..]), bus.replies, bus.results, old(bus.count) + 1, direction, length, m)
    ensures asked ==>
      var res, reply := bus.Result(old(bus.count) + m + 1), bus.Reply(old(bus.count) + m + 1);
      outcome == if res < 0 then Failure
                 else if StatusByte(res, reply, 4) == 1 && StatusByte(res, reply, 5) == 0
                         && StatusByte(res, reply, 6) == 0 && StatusByte(res, reply, 7) == 0
                 then Success(StatusByte(res, reply, 12)) else Abort
    ensures outcome != Failure && direction == ToDevice ==>
      (Delivered(bus.results, bus.trace) == Delivered(bus.results, old(bus.trace)) + old(data[..length])
       <==> Whole(bus.results, old(bus.count) + 1, old(data[..length]), PacketCount(length)))
  {
    ghost var given, t := data[..length], bus.trace;
    outcome, m, asked := AllPhases(bus, cmd, direction, length, data);
    StatusMeans(bus.Result(old(bus.count) + m + 1), bus.Reply(old(bus.count) + m + 1));
    if asked && direction == ToDevice {
      WholeWritesNeeded(bus.results, t, bus.trace, 1, old(cmd[..]), given);
    }
  }

  // The phases join to a trace.
  lemma InOrder(t: seq<Transfer>, tag: nat, cmd: seq<Byte>, direction: Direction, data: seq<Byte>, m: nat)
    requires m <= PlanLength(direction, |data|)
    ensures var w := Command(Wrapper(tag, cmd, if direction == None then 0 else |data|, direction));
            && t + [w] + DataPlan(direction, data, m) == t + Phases(tag, cmd, direction, data, m, false)
            && (m == 0 ==> t + [w] == t + Phases(tag, cmd, direction, data, m, false))
    ensures t + Phases(tag, cmd, direction, data, m, false) + [Read(CSW_LEN)]
         == t + Phases(tag, cmd, direction, data, m, true)
  {
  }

  // The status phase of a command, the trace before it being t.
  method ReadStatus(bus: Bus, tag: nat, ghost t: seq<Transfer>, ghost cmd: seq<Byte>, ghost direction: Direction,
                    ghost data: seq<Byte>, ghost m: nat, ghost last: nat)
    returns (outcome: Outcome)
    requires bus.Valid() && bus.count == last && m <= PlanLength(direction, |data|)
    requires bus.trace == t + Phases(tag, cmd, direction, data, m, false)
    modifies bus
    ensures bus.Valid() && bus.count == last + 1
    ensures bus.trace == t + Phases(tag, cmd, direction, data, m, true)
    ensures outcome == StatusOf(bus.Result(last), bus.Reply(last))
  {
    var csw := new Byte[CSW_LEN](i => 0);
    assert csw[..] == ZERO_CSW;
    var res := bus.BulkRead(csw, CSW_LEN);
    outcome := if res < 0 then Failure else Judge(csw[..]);
    InOrder(t, tag, cmd, direction, data, m);
  }

  const ZERO_CSW: seq<Byte> := [0, 0, 0, 0, 0, 0, 0, 0, 0, 0, 0, 0, 0]

  // What the read of the status makes of the command.
  function StatusOf(res: int, reply: seq<Byte>): Outcome {
    if res < 0 then Failure else Judge(Received(ZERO_CSW, reply, res, CSW_LEN))
  }

  // The tag of the command as the status wrapper carries it, low-order byte first.
  const TAG: seq<Byte> := [1, 0, 0, 0]

  // The status wrapper of section 5.2: the assertion on the tag, then the status.
  function Judge(csw: seq<Byte>): (outcome: Outcome)
    requires |csw| == CSW_LEN
    ensures outcome != Failure
  {
    if csw[4..8] == TAG then Success(csw[12]) else Abort
  }

  // Byte i of the status wrapper after a read that brought res bytes of the reply: those that do not arrive are 0.
  function StatusByte(res: int, reply: seq<Byte>, i: nat): (b: Byte)
    ensures i < res && i < |reply| ==> b == reply[i]
    ensures res <= i || |reply| <= i ==> b == 0
  {
    if i < res && i < |reply| then reply[i] else 0
  }

  /** What the status read means in terms of the bytes that arrive: an error is a failure, a wrapper with
      another tag stops the program, and otherwise byte 12 is the status, whatever it is. */
  lemma StatusMeans(res: int, reply: seq<Byte>)
    ensures StatusOf(res, reply)
         == if res < 0 then Failure
            else if StatusByte(res, reply, 4) == 1 && StatusByte(res, reply, 5) == 0
                    && StatusByte(res, reply, 6) == 0 && StatusByte(res, reply, 7) == 0
            then Success(StatusByte(res, reply, 12)) else Abort
  {
    var csw := Received(ZERO_CSW, reply, res, CSW_LEN);
    assert csw[4] == StatusByte(res, reply, 4) && csw[5] == StatusByte(res, reply, 5);
    assert csw[6] == StatusByte(res, reply, 6) && csw[7] == StatusByte(res, reply, 7);
    assert csw[4..8] == [csw[4], csw[5], csw[6], csw[7]];
  }

  /** So for a whole wrapper the status reported is the device's own. */
  lemma WholeStatus(reply: seq<Byte>)
    requires |reply| == CSW_LEN
    ensures StatusOf(CSW_LEN, reply) == if reply[4..8] == [1, 0, 0, 0] then Success(reply[12]) else Abort
  {
    StatusMeans(CSW_LEN, reply);
    assert reply[4..8] == [reply[4], reply[5], reply[6], reply[7]];
  }

  const PASSED_CSW: seq<Byte> := [0x55, 0x53, 0x42, 0x53, 1, 0, 0, 0, 0, 0, 0, 0, 0]

  lemma PassedStatus()
    ensures StatusOf(CSW_LEN, PASSED_CSW) == Success(0)
  {
    assert Received(ZERO_CSW, PASSED_CSW, CSW_LEN, CSW_LEN) == PASSED_CSW;
    assert PASSED_CSW[4..8] == TAG;
  }

  lemma TagValue()
    ensures LeValue(TAG) == 1
  {
    LeValueOfFour(TAG);
    LeValueOfTwo(TAG[..2]);
    LeValueOfTwo(TAG[2..]);
  }

  // What a command with a single data packet delivers.
  lemma OnePacket(results: nat -> int, cmd: seq<Byte>, data: seq<Byte>)
    requires 0 < |data| <= MAX_PACKET_LEN
    ensures PacketCount(|data|) == 1
    ensures Delivered(results, [] + Phases(1, cmd, ToDevice, data, 1, true)) == Taken(Write(data), results(1))
  {
    var w := Command(Wrapper(1, cmd, |data|, ToDevice));
    assert Packet(data, 0) == data;
    assert [] + Phases(1, cmd, ToDevice, data, 1, true) == [w] + [Write(data)] + [Read(CSW_LEN)];
    DeliveredStep(results, [], w);
    DeliveredStep(results, [w], Write(data));
    DeliveredStep(results, [w] + [Write(data)], Read(CSW_LEN));
  }

  /** A short write that the code takes for a success: it reports that the device has executed the
      command, and the device misses the last of two bytes. */
  method ShortWriteLosesData() returns (outcome: Outcome, ghost delivered: seq<Byte>)
    ensures outcome == Success(0) && delivered == [1]
  {
    var bus := new Bus(n => if n == 0 then CBW_LEN else if n == 1 then 1 else CSW_LEN, n => PASSED_CSW);
    var cmd := new Byte[CBWCB_LEN](i => 0);
    var data := new Byte[2] [1, 2];
    assert data[..2] == [1, 2];
    ghost var m, asked;
    outcome, m, asked := SendCmd(bus, cmd, ToDevice, 2, data);
    PassedStatus();
    OnePacket(bus.results, cmd[..], [1, 2]);
    delivered := Delivered(bus.results, bus.trace);
  }
}
