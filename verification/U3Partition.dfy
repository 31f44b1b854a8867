/** u3_partition, u3_partition_info and the partition action: dividing the device between the CD
    and the data partition, and reading the division back. */
module U3Partition {

  import opened Bytes
  import opened Rfc1321
  import opened U3Device
  import opened U3Commands
  import opened U3Property

  const INFO_LEN := 17

  // struct part_info
  datatype PartInfo = PartInfo(
    partitionCount: Byte, unknown1: UInt32, dataSize: UInt32, unknown2: UInt32, cdSize: UInt32)
  {
    function Packed(): (s: seq<Byte>)
      ensures |s| == INFO_LEN
    {
      [partitionCount] + Le(unknown1, 4) + Le(dataSize, 4) + Le(unknown2, 4) + Le(cdSize, 4)
    }
  }

  // The fields of the struct in memory.
  function DataSize(info: seq<Byte>): nat
    requires |info| == INFO_LEN
  {
    LeValue(info[5..9])
  }

  function CdSize(info: seq<Byte>): nat
    requires |info| == INFO_LEN
  {
    LeValue(info[13..17])
  }

  // ---- u3_partition_info

  function Info(n: Nature, s: State): (State, bool, seq<Byte>) {
    var a := Exchange(n, s, Command.PartitionInfo);
    var first := Overwrite(Zeros(INFO_LEN), a.reply, 9);
    if !a.rc then (a.state, false, first)
    else if first[0] != 2 then (a.state, a.status == 0, first)
    else
      var a2 := Exchange(n, a.state, Command.PartitionInfo);
      (a2.state, a2.Ok(), Overwrite(first, a2.reply, 16))
  }

  method PartitionInfo(h: Handle, info: array<Byte>) returns (rc: bool)
    requires info.Length == INFO_LEN
    modifies h`state, info
    ensures (h.state, rc, info[..]) == Info(h.nature, old(h.state))
  {
    var cmd := new Byte[12] [0xFF, 0x21, 0x00, 0x00, 0x00, 0x00, 0x00, 0x00, 0x00, 0x00, 0x00, 0x00];
    forall i | 0 <= i < INFO_LEN {
      info[i] := 0;
    }
    assert info[..] == Zeros(INFO_LEN);
    assert cmd[..] == BlockOf(Command.PartitionInfo);
    var ok, status := h.Send(cmd, FromDevice, 9, info, Command.PartitionInfo);
    if !ok {
      return false;
    }
    if info[0] == 2 {
      ok, status := h.Send(cmd, FromDevice, 16, info, Command.PartitionInfo);
      if !ok {
        return false;
      }
    }
    rc := status == 0;
  }

  /** The last byte of the record is never read, so the CD size reported is below 2^24 whatever the
      device answers; and asking changes nothing. */
  lemma InfoBounded(n: Nature, s: State)
    ensures var (s', rc, info) := Info(n, s);
            s'.device == s.device && |info| == INFO_LEN && CdSize(info) < 0x100_0000
  {
    var a := Exchange(n, s, Command.PartitionInfo);
    OverwriteTail(Zeros(INFO_LEN), a.reply, 9);
    var first := Overwrite(Zeros(INFO_LEN), a.reply, 9);
    var a2 := Exchange(n, a.state, Command.PartitionInfo);
    OverwriteTail(first, a2.reply, 16);
    var info := Info(n, s).2;
    LowThree(info[13..17]);
  }

  lemma OverwriteTail(buffer: seq<Byte>, reply: seq<Byte>, len: nat)
    requires len < |buffer| == INFO_LEN
    ensures Overwrite(buffer, reply, len)[16] == buffer[16]
  {
  }

  lemma LowThree(b: seq<Byte>)
    requires |b| == 4 && b[3] == 0
    ensures LeValue(b) == LeValue(b[..3]) < 0x100_0000
  {
    LeValueRoundTrip(b[..3]);
    Pow256Values();
    LeAppendZero(b[..3]);
    assert b == b[..3] + [0];
  }

  lemma {:induction false} LeAppendZero(b: seq<Byte>)
    ensures LeValue(b + [0]) == LeValue(b)
  {
    if b == [] {
    } else {
      LeAppendZero(b[1..]);
      assert (b + [0])[1..] == b[1..] + [0];
    }
  }

  // ---- u3_partition

  const PROPERTY_03_LEN := 39

  // The field device_size of struct property_03 in memory.
  function DeviceSize(page: seq<Byte>): nat
    requires |page| >= PROPERTY_03_LEN
  {
    LeValue(page[35..39])
  }

  /** The fields that are read, byte by byte: the device size in page 0x03, and the sizes in the partition
      record. */
  lemma SizeBytes(page: seq<Byte>, info: seq<Byte>)
    requires |page| >= PROPERTY_03_LEN && |info| == INFO_LEN
    ensures DeviceSize(page) == page[35] as nat + 256 * (page[36] as nat)
                                + 0x1_0000 * (page[37] as nat + 256 * (page[38] as nat))
    ensures DataSize(info) == info[5] as nat + 256 * (info[6] as nat)
                              + 0x1_0000 * (info[7] as nat + 256 * (info[8] as nat))
    ensures CdSize(info) == info[13] as nat + 256 * (info[14] as nat)
                            + 0x1_0000 * (info[15] as nat + 256 * (info[16] as nat))
  {
    FourBytes(page[35..39]);
    FourBytes(info[5..9]);
    FourBytes(info[13..17]);
  }

  // The record that the code sends for a division.
  function RecordFor(cdSize: UInt32, dataSize: UInt32): PartInfo {
    if cdSize == 0 then PartInfo(1, 0x02, dataSize, 0, 0) else PartInfo(2, 0x02, dataSize, 0x103, cdSize)
  }

  // The new state, the return code, and the record if the repartition command was issued.
  datatype Partitioned = Partitioned(state: State, rc: bool, sent: seq<PartInfo>)

  // From the device size on.
  function Divide(n: Nature, s: State, cdSize: UInt32, deviceSize: UInt32): Partitioned {
    if cdSize > deviceSize then Partitioned(s, false, [])
    else
      var (s1, ok, dataSize) := Round(n, s, false, false, deviceSize - cdSize);
      if !ok then Partitioned(s1, false, [])
      else
        var record := RecordFor(cdSize, dataSize);
        var a := Exchange(n, s1, Repartition(record.Packed()));
        Partitioned(a.state, a.Ok(), [record])
  }

  // From the rounded CD size on; stack is what the uninitialized struct property_03 happens to hold.
  function PartitionRounded(n: Nature, s: State, cdSize: UInt32, stack: seq<Byte>): Partitioned
    requires |stack| == PROPERTY_03_LEN
  {
    var (s1, ok, page) := ReadProperty(n, s, 3, stack, PROPERTY_03_LEN);
    if !ok || Declared(page) != PROPERTY_03_LEN then Partitioned(s1, false, [])
    else LeValueBelow32(page[35..39]); Divide(n, s1, cdSize, DeviceSize(page))
  }

  function Partition(n: Nature, s: State, cdSize: UInt32, stack: seq<Byte>): Partitioned
    requires |stack| == PROPERTY_03_LEN
  {
    if cdSize == 0 then PartitionRounded(n, s, 0, stack)
    else
      var (s1, ok, rounded) := Round(n, s, false, true, cdSize);
      if !ok then Partitioned(s1, false, []) else PartitionRounded(n, s1, rounded, stack)
  }

  method StoreRecord(record: PartInfo) returns (data: array<Byte>)
    ensures fresh(data) && data.Length == INFO_LEN && data[..INFO_LEN] == record.Packed()
  {
    data := new Byte[INFO_LEN](i => 0);
    data[0] := record.partitionCount;
    PutLe32(record.unknown1, data, 1);
    PutLe32(record.dataSize, data, 5);
    PutLe32(record.unknown2, data, 9);
    PutLe32(record.cdSize, data, 13);
  }

  method SendPartition(h: Handle, cdSize: UInt32, dataSize: UInt32) returns (rc: bool)
    modifies h`state
    ensures var a := Exchange(h.nature, old(h.state), Repartition(RecordFor(cdSize, dataSize).Packed()));
            h.state == a.state && rc == a.Ok()
  {
    var cmd := new Byte[12] [0xFF, 0x22, 0x00, 0x00, 0x00, 0x00, 0x00, 0x00, 0x00, 0x00, 0x00, 0x00];
    var record;
    if cdSize == 0 {
      record := PartInfo(1, 0x02, dataSize, 0, 0);
    } else {
      record := PartInfo(2, 0x02, dataSize, 0x103, cdSize);
    }
    var data := StoreRecord(record);
    rc := SendRecord(h, cmd, data, record.Packed());
  }

  // The repartition command with these 17 bytes.
  method SendRecord(h: Handle, cmd: array<Byte>, data: array<Byte>, ghost record: seq<Byte>) returns (rc: bool)
    requires cmd.Length == 12 && cmd[..] == Plain(0x22, 0x00) && data.Length == |record| == INFO_LEN
    requires data[..INFO_LEN] == record
    modifies h`state, data
    ensures var a := Exchange(h.nature, old(h.state), Repartition(record)); h.state == a.state && rc == a.Ok()
  {
    var ok, status := h.Send(cmd, ToDevice, INFO_LEN, data, Repartition(record));
    rc := ok && status == 0;
  }

  // The last steps of u3_partition, from the comparison with the device size on.
  method DivideDevice(h: Handle, cdSize: UInt32, deviceSize: UInt32) returns (rc: bool, ghost sent: seq<PartInfo>)
    modifies h`state
    ensures Partitioned(h.state, rc, sent) == Divide(h.nature, old(h.state), cdSize, deviceSize)
  {
    if cdSize > deviceSize {
      return false, [];
    }
    var dataSize: UInt32 := deviceSize - cdSize;
    rc, dataSize := SectorRound(h, false, false, dataSize);
    if !rc {
      return false, [];
    }
    rc := SendPartition(h, cdSize, dataSize);
    sent := [RecordFor(cdSize, dataSize)];
  }

  // From reading the property page on.
  method PartitionFrom(h: Handle, cdSize: UInt32, stack: seq<Byte>) returns (rc: bool, ghost sent: seq<PartInfo>)
    requires |stack| == PROPERTY_03_LEN
    modifies h`state
    ensures Partitioned(h.state, rc, sent) == PartitionRounded(h.nature, old(h.state), cdSize, stack)
  {
    sent := [];
    var properties := new Byte[PROPERTY_03_LEN](i requires 0 <= i < PROPERTY_03_LEN => stack[i]);
    assert properties[..] == stack;
    rc := ReadDeviceProperty(h, 3, properties, PROPERTY_03_LEN);
    if !rc {
      return;
    }
    ghost var page := properties[..];
    assert properties[4..6] == page[4..6] && properties[35..39] == page[35..39];
    if LeValue(properties[4..6]) != PROPERTY_03_LEN {
      return false, [];
    }
    LeValueBelow32(properties[35..39]);
    rc, sent := DivideDevice(h, cdSize, LeValue(properties[35..39]));
  }

  method PartitionDevice(h: Handle, requested: UInt32, stack: seq<Byte>) returns (rc: bool, ghost sent: seq<PartInfo>)
    requires |stack| == PROPERTY_03_LEN
    modifies h`state
    ensures Partitioned(h.state, rc, sent) == Partition(h.nature, old(h.state), requested, stack)
  {
    var cdSize := requested;
    if cdSize != 0 {
      rc, cdSize := SectorRound(h, false, true, cdSize);
      if !rc {
        return false, [];
      }
    }
    rc, sent := PartitionFrom(h, cdSize, stack);
  }

  // ---- what partitioning does

  // The device rounds in the direction that it is asked to.
  ghost predicate RoundsAsTold(n: Nature) {
    && (forall v: UInt32 :: n.roundPartition(v, true) >= v)
    && (forall v: UInt32 :: n.roundPartition(v, false) <= v)
  }

  lemma RepartitionEffect(n: Nature, s: State, record: seq<Byte>)
    ensures var a := Exchange(n, s, Repartition(record));
            var done := s.device.(partition := record, cd := map[]);
            (a.state.device == s.device || a.state.device == done) && (a.Ok() ==> a.state.device == done)
  {
  }

  // What may have become of a device d: nothing, unless the command was issued; it was issued at most
  // once, and success means that the device took the record.
  ghost predicate Took(d: Device, r: Partitioned) {
    && |r.sent| <= 1 && (r.rc ==> r.sent != [])
    && (r.sent == [] ==> r.state.device == d)
    && (r.sent != [] ==>
          var done := d.(partition := r.sent[0].Packed(), cd := map[]);
          (r.state.device == d || r.state.device == done) && (r.rc ==> r.state.device == done))
  }

  lemma DivideTakes(n: Nature, s: State, cdSize: UInt32, deviceSize: UInt32)
    ensures Took(s.device, Divide(n, s, cdSize, deviceSize))
  {
    if cdSize <= deviceSize {
      var (s1, ok, dataSize) := Round(n, s, false, false, deviceSize - cdSize);
      RoundKeepsDevice(n, s, false, false, deviceSize - cdSize);
      if ok {
        RepartitionEffect(n, s1, RecordFor(cdSize, dataSize).Packed());
      }
    }
  }

  lemma DivideFits(n: Nature, s: State, cdSize: UInt32, deviceSize: UInt32)
    ensures var r := Divide(n, s, cdSize, deviceSize);
            |r.sent| <= 1 && (r.sent != [] ==>
              && r.sent[0] == RecordFor(cdSize, r.sent[0].dataSize) && cdSize <= deviceSize
              && (RoundsAsTold(n) ==> cdSize + r.sent[0].dataSize <= deviceSize))
  {
  }

  // What the struct holds when a page that declares its length has been read: a page that is shorter
  // than it declares leaves the rest to the stack.
  function Seen(page: seq<Byte>, stack: seq<Byte>): (r: seq<Byte>)
    requires |stack| == PROPERTY_03_LEN
    ensures |r| == PROPERTY_03_LEN
    ensures |page| >= PROPERTY_03_LEN ==> r == page[..PROPERTY_03_LEN]
  {
    Overwrite(stack, page, PROPERTY_03_LEN)
  }

  /** When the length check passes the struct holds the page as far as that goes. */
  lemma PageIsSeen(n: Nature, s: State, stack: seq<Byte>)
    requires |stack| == PROPERTY_03_LEN
    ensures var (s1, ok, page) := ReadProperty(n, s, 3, stack, PROPERTY_03_LEN);
            ok && Declared(page) == PROPERTY_03_LEN ==> 3 in n.pages && page == Seen(n.pages[3], stack)
  {
    if 3 in n.pages {
      var p := n.pages[3];
      PropertyBytes(n, s, 3, stack, PROPERTY_03_LEN);
      var declared := Declared(Overwrite(stack, p, HEADER_LEN));
      if declared >= HEADER_LEN {
        SameHeader(stack, p, Min(declared, PROPERTY_03_LEN));
      }
    } else {
      MissingPageFails(n, s, 3, stack, PROPERTY_03_LEN);
    }
  }

  lemma SameHeader(stack: seq<Byte>, page: seq<Byte>, len: nat)
    requires HEADER_LEN <= len <= |stack|
    ensures Declared(Overwrite(stack, page, len)) == Declared(Overwrite(stack, page, HEADER_LEN))
  {
    assert Overwrite(stack, page, len)[4..6] == Overwrite(stack, page, HEADER_LEN)[4..6];
  }

  lemma SeenSize(page: seq<Byte>, stack: seq<Byte>)
    requires |stack| == PROPERTY_03_LEN && |page| >= PROPERTY_03_LEN
    ensures DeviceSize(Seen(page, stack)) == DeviceSize(page)
  {
    assert Seen(page, stack)[35..39] == page[35..39];
  }

  /** The length check compares what the page declares, not what the device sent: the device size that the
      code goes by is the device's if and only if the page is as long as it declares; otherwise it
      depends on what the stack happens to hold. */
  lemma SizeFromPage(n: Nature, s: State)
    requires Reliable(n) && 3 in n.pages
    requires var p := n.pages[3]; |p| >= HEADER_LEN && Declared(p) == PROPERTY_03_LEN
    ensures (forall st, st' | |st| == |st'| == PROPERTY_03_LEN ::
               SizeRead(n, s, st) == SizeRead(n, s, st'))
       <==> |n.pages[3]| >= PROPERTY_03_LEN
  {
    var p := n.pages[3];
    forall st: seq<Byte> | |st| == PROPERTY_03_LEN
      ensures SizeRead(n, s, st) == DeviceSize(Seen(p, st))
    {
      SizeIsSeen(n, s, st);
    }
    if |p| >= PROPERTY_03_LEN {
      forall st, st' | |st| == |st'| == PROPERTY_03_LEN
        ensures SizeRead(n, s, st) == SizeRead(n, s, st')
      {
        SeenSize(p, st);
        SeenSize(p, st');
      }
    } else {
      var st, st' := ShortPageVaries(p);
      assert SizeRead(n, s, st) != SizeRead(n, s, st');
    }
  }

  lemma ShortPageVaries(page: seq<Byte>) returns (st: seq<Byte>, st': seq<Byte>)
    requires |page| < PROPERTY_03_LEN
    ensures |st| == |st'| == PROPERTY_03_LEN && DeviceSize(Seen(page, st)) != DeviceSize(Seen(page, st'))
  {
    st := Zeros(PROPERTY_03_LEN);
    st' := st[38 := 1];
    var b, b' := Seen(page, st)[35..39], Seen(page, st')[35..39];
    assert b[3] == 0 && b'[3] == 1;
    if LeValue(b) == LeValue(b') {
      LeValueInjective(b, b');
    }
  }

  // The device size in the struct after the page was read.
  function SizeRead(n: Nature, s: State, stack: seq<Byte>): nat
    requires |stack| == PROPERTY_03_LEN
  {
    DeviceSize(ReadProperty(n, s, 3, stack, PROPERTY_03_LEN).2)
  }

  lemma SizeIsSeen(n: Nature, s: State, stack: seq<Byte>)
    requires Reliable(n) && 3 in n.pages && |stack| == PROPERTY_03_LEN
    requires var p := n.pages[3]; |p| >= HEADER_LEN && Declared(p) == PROPERTY_03_LEN
    ensures SizeRead(n, s, stack) == DeviceSize(Seen(n.pages[3], stack))
  {
    PropertyBytes(n, s, 3, stack, PROPERTY_03_LEN);
    HeaderDeclares(n.pages[3], Overwrite(stack, n.pages[3], HEADER_LEN));
  }

  /** Every path that fails before the repartition command leaves the device unchanged; the command is
      issued at most once, and success means that the device took the record. */
  lemma PartitionEffect(n: Nature, s: State, cdSize: UInt32, stack: seq<Byte>)
    requires |stack| == PROPERTY_03_LEN
    ensures Took(s.device, Partition(n, s, cdSize, stack))
    ensures var r := Partition(n, s, cdSize, stack);
            && |r.sent| <= 1 && (r.sent == [] ==> !r.rc && r.state.device == s.device)
            && (r.sent != [] ==>
                  var done := s.device.(partition := r.sent[0].Packed(), cd := map[]);
                  (r.state.device == s.device || r.state.device == done) && (r.rc ==> r.state.device == done))
  {
    var s1, cd := AfterRounding(n, s, cdSize);
    RoundedEffect(n, s1, cd, stack);
  }

  lemma RoundedEffect(n: Nature, s: State, cdSize: UInt32, stack: seq<Byte>)
    requires |stack| == PROPERTY_03_LEN
    ensures Took(s.device, PartitionRounded(n, s, cdSize, stack))
  {
    var (s1, ok, page) := ReadProperty(n, s, 3, stack, PROPERTY_03_LEN);
    TransfersFit(n, s, 3, stack, PROPERTY_03_LEN);
    LeValueBelow32(page[35..39]);
    DivideTakes(n, s1, cdSize, DeviceSize(page));
  }

  // The state and the CD size after the first step of Partition.
  lemma AfterRounding(n: Nature, s: State, cdSize: UInt32) returns (s1: State, cd: UInt32)
    ensures s1.device == s.device
    ensures (s1, cd) == if cdSize == 0 then (s, 0)
                        else (Round(n, s, false, true, cdSize).0, Round(n, s, false, true, cdSize).2)
    ensures RoundsAsTold(n) ==> cd >= cdSize
  {
    if cdSize == 0 {
      s1, cd := s, 0;
    } else {
      var r := Round(n, s, false, true, cdSize);
      RoundKeepsDevice(n, s, false, true, cdSize);
      s1, cd := r.0, r.2;
    }
  }

  /** Space is conserved: whenever the repartition command goes out, the CD holds at least what was asked
      for, there is no CD exactly when none was asked for, and both partitions fit in the device size that
      was read, which is the device's own for a page of full length. */
  lemma PartitionConserves(n: Nature, s: State, cdSize: UInt32, stack: seq<Byte>)
    requires |stack| == PROPERTY_03_LEN && RoundsAsTold(n)
    ensures var r := Partition(n, s, cdSize, stack);
            r.sent != [] ==>
              var record := r.sent[0];
              && 3 in n.pages
              && record.cdSize + record.dataSize <= DeviceSize(Seen(n.pages[3], stack))
              && (|n.pages[3]| >= PROPERTY_03_LEN ==> record.cdSize + record.dataSize <= DeviceSize(n.pages[3]))
              && record.cdSize >= cdSize && (record.cdSize == 0 <==> cdSize == 0)
              && record.partitionCount == (if cdSize == 0 then 1 else 2)
  {
    var s1, cd := AfterRounding(n, s, cdSize);
    var (s2, ok, page) := ReadProperty(n, s1, 3, stack, PROPERTY_03_LEN);
    PageIsSeen(n, s1, stack);
    if 3 in n.pages && |n.pages[3]| >= PROPERTY_03_LEN {
      SeenSize(n.pages[3], stack);
    }
    LeValueBelow32(page[35..39]);
    DivideFits(n, s2, cd, DeviceSize(page));
  }

  /** Exactly what is sent: the CD size is none, or the request rounded up, and the data size is all that is
      left of the device size that was read, rounded down. */
  lemma PartitionExact(n: Nature, s: State, cdSize: UInt32, stack: seq<Byte>)
    requires |stack| == PROPERTY_03_LEN
    ensures var r := Partition(n, s, cdSize, stack);
            r.sent != [] ==>
              var record := r.sent[0];
              && 3 in n.pages && record.cdSize <= SizeSeen(n, stack)
              && record.cdSize == (if cdSize == 0 then 0 else n.roundPartition(cdSize, true))
              && record.dataSize == n.roundPartition(SizeSeen(n, stack) - record.cdSize, false)
  {
    if cdSize == 0 {
      RoundedExact(n, s, 0, stack);
    } else {
      var (s1, ok, rounded) := Round(n, s, false, true, cdSize);
      RoundMeans(n, s, false, true, cdSize);
      if ok {
        RoundedExact(n, s1, rounded, stack);
      }
    }
  }

  // The device size in a page 0x03 as the struct holds it.
  function SizeSeen(n: Nature, stack: seq<Byte>): UInt32
    requires |stack| == PROPERTY_03_LEN
  {
    if 3 in n.pages then
      LeValueBelow32(Seen(n.pages[3], stack)[35..39]);
      DeviceSize(Seen(n.pages[3], stack))
    else 0
  }

  lemma RoundedExact(n: Nature, s: State, cdSize: UInt32, stack: seq<Byte>)
    requires |stack| == PROPERTY_03_LEN
    ensures var r := PartitionRounded(n, s, cdSize, stack);
            r.sent != [] ==>
              var record := r.sent[0];
              && 3 in n.pages && record.cdSize == cdSize <= SizeSeen(n, stack)
              && record.dataSize == n.roundPartition(SizeSeen(n, stack) - cdSize, false)
  {
    var (s1, ok, page) := ReadProperty(n, s, 3, stack, PROPERTY_03_LEN);
    PageIsSeen(n, s, stack);
    LeValueBelow32(page[35..39]);
    if ok && Declared(page) == PROPERTY_03_LEN {
      SizeIs(n, stack, page);
      DivideExact(n, s1, cdSize, DeviceSize(page));
    }
  }

  lemma SizeIs(n: Nature, stack: seq<Byte>, page: seq<Byte>)
    requires |stack| == PROPERTY_03_LEN && 3 in n.pages && page == Seen(n.pages[3], stack)
    ensures DeviceSize(page) == SizeSeen(n, stack)
  {
  }

  lemma DivideExact(n: Nature, s: State, cdSize: UInt32, deviceSize: UInt32)
    ensures var r := Divide(n, s, cdSize, deviceSize);
            r.sent != [] ==> r.sent[0].cdSize == cdSize <= deviceSize
                             && r.sent[0].dataSize == n.roundPartition(deviceSize - cdSize, false)
    ensures Reliable(n) ==> (Divide(n, s, cdSize, deviceSize).rc <==> cdSize <= deviceSize)
  {
    if cdSize <= deviceSize {
      var (s1, ok, dataSize) := Round(n, s, false, false, deviceSize - cdSize);
      RoundMeans(n, s, false, false, deviceSize - cdSize);
      assert Reliable(n) ==> n.outcomes(|s1.issued|) == Completed;
    }
  }

  /** On a reliable link repartitioning succeeds exactly when the device has a page 0x03 that declares its
      length and is not shorter than a header, and the rounded CD fits in the device size. */
  lemma PartitionSucceeds(n: Nature, s: State, cdSize: UInt32, stack: seq<Byte>)
    requires |stack| == PROPERTY_03_LEN && Reliable(n)
    requires 3 in n.pages && |n.pages[3]| >= HEADER_LEN
    ensures Partition(n, s, cdSize, stack).rc
       <==> && Declared(n.pages[3]) == PROPERTY_03_LEN
            && (if cdSize == 0 then 0 else n.roundPartition(cdSize, true)) <= SizeSeen(n, stack)
  {
    if cdSize == 0 {
      RoundedSucceeds(n, s, 0, stack);
    } else {
      RoundMeans(n, s, false, true, cdSize);
      var (s1, ok, rounded) := Round(n, s, false, true, cdSize);
      RoundedSucceeds(n, s1, rounded, stack);
    }
  }

  lemma RoundedSucceeds(n: Nature, s: State, cdSize: UInt32, stack: seq<Byte>)
    requires |stack| == PROPERTY_03_LEN && Reliable(n)
    requires 3 in n.pages && |n.pages[3]| >= HEADER_LEN
    ensures PartitionRounded(n, s, cdSize, stack).rc
       <==> Declared(n.pages[3]) == PROPERTY_03_LEN && cdSize <= SizeSeen(n, stack)
  {
    var p := n.pages[3];
    var (s1, ok, page) := ReadProperty(n, s, 3, stack, PROPERTY_03_LEN);
    PropertyBytes(n, s, 3, stack, PROPERTY_03_LEN);
    HeaderDeclares(p, Overwrite(stack, p, HEADER_LEN));
    PageIsSeen(n, s, stack);
    LeValueBelow32(page[35..39]);
    if ok {
      SameHeader(stack, p, Min(Declared(p), PROPERTY_03_LEN));
      DivideExact(n, s1, cdSize, DeviceSize(page));
    }
  }

  /** The 17 bytes of the record, as doc/commands.txt lays them out, for both numbers of partitions. */
  lemma RecordBytes(cdSize: UInt32, dataSize: UInt32)
    ensures var b := RecordFor(cdSize, dataSize).Packed();
            && |b| == 17 && b[1..5] == [0x02, 0, 0, 0]
            && LeValue(b[5..9]) == dataSize && LeValue(b[13..17]) == cdSize
            && (cdSize == 0 ==> b[0] == 1 && b[9..13] == [0, 0, 0, 0])
            && (cdSize != 0 ==> b[0] == 2 && b[9..13] == [0x03, 0x01, 0, 0])
  {
    var r := RecordFor(cdSize, dataSize);
    LeRoundTrip32(dataSize);
    LeRoundTrip32(cdSize);
    RecordParts([r.partitionCount], Le(r.unknown1, 4), Le(dataSize, 4), Le(r.unknown2, 4), Le(cdSize, 4));
    SmallNumbers();
  }

  lemma RecordParts(c: seq<Byte>, u: seq<Byte>, d: seq<Byte>, v: seq<Byte>, e: seq<Byte>)
    requires |c| == 1 && |u| == |d| == |v| == |e| == 4
    ensures var b := c + u + d + v + e;
            b[0] == c[0] && b[1..5] == u && b[5..9] == d && b[9..13] == v && b[13..17] == e
  {
  }

  lemma SmallNumbers()
    ensures Le(0x02, 4) == [0x02, 0, 0, 0] && Le(0x103, 4) == [0x03, 0x01, 0, 0] && Le(0, 4) == [0, 0, 0, 0]
  {
    BytesOf([0x02, 0, 0, 0], 0x02);
    BytesOf([0x03, 0x01, 0, 0], 0x103);
    BytesOf([0, 0, 0, 0], 0);
  }

  // What Info returns for a stored record.
  lemma InfoBytes(n: Nature, s: State)
    requires |s.device.partition| == INFO_LEN
    ensures var p := s.device.partition;
            Info(n, s).1 ==> Info(n, s).2 == if p[0] == 2 then p[..16] + [0] else p[..9] + Zeros(8)
  {
    var p := s.device.partition;
    var a := Exchange(n, s, Command.PartitionInfo);
    var a2 := Exchange(n, a.state, Command.PartitionInfo);
    assert a.state.device == s.device;
    assert a.Ok() ==> a.reply == p;
    assert a2.Ok() ==> a2.reply == p;
    assert a.rc && !a.Ok() ==> a.reply == [];
    assert Overwrite(Zeros(INFO_LEN), p, 9) == p[..9] + Zeros(8);
    assert Overwrite(p[..9] + Zeros(8), p, 16) == p[..16] + [0];
    assert Overwrite(Zeros(INFO_LEN), [], 9)[0] == 0;
  }

  lemma InfoSucceeds(n: Nature, s: State)
    requires Reliable(n)
    ensures Info(n, s).1
  {
    var a := Exchange(n, s, Command.PartitionInfo);
    assert n.outcomes(|s.issued|) == Completed && n.outcomes(|a.state.issued|) == Completed;
  }

  /** Reading back: the same count and data size, and the CD size modulo 2^24 (none for one partition). */
  lemma InfoReports(n: Nature, s: State, record: PartInfo)
    requires s.device.partition == record.Packed()
    requires record.partitionCount == 2 || (record.partitionCount == 1 && record.cdSize == 0)
    ensures var (s', rc, info) := Info(n, s);
            rc ==> (info[0] == record.partitionCount && DataSize(info) == record.dataSize
                    && CdSize(info) == record.cdSize % 0x100_0000)
  {
    InfoBytes(n, s);
    if Info(n, s).1 {
      FieldsRead(record, Info(n, s).2);
    }
  }

  // The fields of what Info returns.
  lemma FieldsRead(record: PartInfo, info: seq<Byte>)
    requires record.partitionCount == 2 || (record.partitionCount == 1 && record.cdSize == 0)
    requires var p := record.Packed(); info == if p[0] == 2 then p[..16] + [0] else p[..9] + Zeros(8)
    ensures |info| == INFO_LEN && info[0] == record.partitionCount && DataSize(info) == record.dataSize
    ensures CdSize(info) == record.cdSize % 0x100_0000
  {
    var packed := record.Packed();
    PackedFields(record);
    assert info[5..9] == packed[5..9];
    if record.partitionCount == 1 {
      assert info[13..17] == [0, 0, 0, 0];
      FourZeros();
    } else {
      assert info[13..17] == packed[13..16] + [0];
      LowBytes(record.cdSize);
    }
  }

  lemma FourZeros()
    ensures LeValue([0, 0, 0, 0]) == 0
  {
    LeZeros(4);
    assert Zeros(4) == [0, 0, 0, 0];
  }

  lemma {:induction false} LeZeros(k: nat)
    ensures LeValue(Zeros(k)) == 0
  {
    if k > 0 {
      LeZeros(k - 1);
      assert Zeros(k)[1..] == Zeros(k - 1);
    }
  }

  lemma PackedFields(r: PartInfo)
    ensures var p := r.Packed();
            p[0] == r.partitionCount && LeValue(p[5..9]) == r.dataSize && p[13..17] == Le(r.cdSize, 4)
            && p[13..16] == Le(r.cdSize, 4)[..3]
  {
    LeRoundTrip32(r.dataSize);
    assert r.Packed()[5..9] == Le(r.dataSize, 4);
  }

  lemma LowBytes(v: nat)
    ensures LeValue(Le(v, 4)[..3] + [0]) == v % 0x100_0000
  {
    LeSplit(v, 3, 1);
    assert Le(v, 4)[..3] == Le(v, 3);
    LeAppendZero(Le(v, 3));
    LeRoundTrip(v, 3);
    Pow256Values();
  }

  /** The round trip through the device; on a reliable link it is completed. */
  lemma PartitionRoundTrip(n: Nature, s: State, cdSize: UInt32, stack: seq<Byte>)
    requires |stack| == PROPERTY_03_LEN
    ensures var r := Partition(n, s, cdSize, stack);
            r.rc ==>
              var (s', ok, info) := Info(n, r.state);
              var record := r.sent[0];
              && (Reliable(n) ==> ok)
              && (ok ==> info[0] == record.partitionCount && DataSize(info) == record.dataSize
                         && CdSize(info) == record.cdSize % 0x100_0000)
  {
    var r := Partition(n, s, cdSize, stack);
    PartitionEffect(n, s, cdSize, stack);
    SentShape(n, s, cdSize, stack);
    if r.rc {
      if Reliable(n) {
        InfoSucceeds(n, r.state);
      }
      InfoReports(n, r.state, r.sent[0]);
    }
  }

  lemma SentShape(n: Nature, s: State, cdSize: UInt32, stack: seq<Byte>)
    requires |stack| == PROPERTY_03_LEN
    ensures var sent := Partition(n, s, cdSize, stack).sent;
            sent != [] ==> (sent[0].partitionCount == 2 || (sent[0].partitionCount == 1 && sent[0].cdSize == 0))
  {
    var s1, cd := AfterRounding(n, s, cdSize);
    var (s2, ok, page) := ReadProperty(n, s1, 3, stack, PROPERTY_03_LEN);
    LeValueBelow32(page[35..39]);
    DivideFits(n, s2, cd, DeviceSize(page));
  }

  // ---- do_partition

  // The conversion of a 64-bit size in bytes to sectors, in 32 bits.
  function Sectors(size: nat): UInt32 {
    var sectors := size / SECTOR_SIZE % 0x1_0000_0000;
    if size % SECTOR_SIZE != 0 then (sectors + 1) % 0x1_0000_0000 else sectors
  }

  /** The sectors cover the request exactly for sizes up to 512 * (2^32 - 1) bytes. */
  lemma SectorsCover(size: nat)
    ensures SECTOR_SIZE * Sectors(size) >= size <==> size <= SECTOR_SIZE * 0xFFFF_FFFF
  {
    var q := size / SECTOR_SIZE;
    if q < 0x1_0000_0000 {
      assert q % 0x1_0000_0000 == q;
    } else {
      assert Sectors(size) < 0x1_0000_0000 <= q;
    }
  }

  /** And no more than that: below the bound the last sector holds a byte of the request, and none is asked
      for when none is requested. */
  lemma SectorsLeast(size: nat)
    requires size <= SECTOR_SIZE * 0xFFFF_FFFF
    ensures 512 * Sectors(size) < size + 512 && (Sectors(size) == 0 <==> size == 0)
  {
    var q := size / SECTOR_SIZE;
    if q < 0x1_0000_0000 {
      assert q % 0x1_0000_0000 == q;
    }
  }

  /** A request of 2^41 bytes is taken for one of no CD at all. */
  lemma SectorsOverflow()
    ensures Sectors(SECTOR_SIZE * 0x1_0000_0000) == 0
  {
  }

  method CountSectors(size: nat) returns (cdSectors: UInt32)
    ensures cdSectors == Sectors(size)
  {
    cdSectors := size / SECTOR_SIZE % 0x1_0000_0000;
    if size % SECTOR_SIZE != 0 {
      cdSectors := (cdSectors + 1) % 0x1_0000_0000;
    }
  }

  method DoPartition(h: Handle, size: nat, stack: seq<Byte>) returns (success: bool, ghost sent: seq<PartInfo>)
    requires size < 0x1_0000_0000_0000_0000 && |stack| == PROPERTY_03_LEN
    modifies h`state
    ensures var r := Partition(h.nature, old(h.state), Sectors(size), stack);
            && sent == r.sent
            && h.state == (if r.rc then Exchange(h.nature, r.state, Reset).state else r.state)
            && success == (r.rc && Exchange(h.nature, r.state, Reset).Ok())
  {
    var cdSectors := CountSectors(size);
    var rc;
    rc, sent := PartitionDevice(h, cdSectors, stack);
    if !rc {
      return false, sent;
    }
    success := ResetDevice(h);
  }

  /** After a successful run the device has a CD of at least the size asked for, for every request
      that 32 bits of sectors can hold, and it all fits. */
  lemma PartitionActionCovers(n: Nature, s: State, size: nat, stack: seq<Byte>)
    requires |stack| == PROPERTY_03_LEN && RoundsAsTold(n)
    requires size <= SECTOR_SIZE * 0xFFFF_FFFF
    ensures var r := Partition(n, s, Sectors(size), stack);
            r.rc ==>
              var record := r.sent[0];
              && r.state.device.partition == record.Packed() && r.state.device.cd == map[]
              && SECTOR_SIZE * record.cdSize >= size
              && 3 in n.pages
              && record.cdSize + record.dataSize <= DeviceSize(Seen(n.pages[3], stack))
              && (|n.pages[3]| >= PROPERTY_03_LEN ==> record.cdSize + record.dataSize <= DeviceSize(n.pages[3]))
  {
    SectorsCover(size);
    PartitionEffect(n, s, Sectors(size), stack);
    PartitionConserves(n, s, Sectors(size), stack);
  }
}
