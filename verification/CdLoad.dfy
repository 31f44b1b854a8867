/** do_load of main.c: writing an image file to the CD partition, block by block. */
module CdLoad {

  import Arithmetic
  import opened Bytes
  import opened Rfc1321
  import opened U3Device
  import opened U3Commands
  import U3Partition
  import Progress

  // A regular file that does not change while it is read; reading fails at offset failAt, if the file
  // reaches so far.
  class File {
    const data: seq<Byte>
    const failAt: nat
    var pos: nat
    var eof: bool
    var error: bool

    constructor (data: seq<Byte>, failAt: nat)
      ensures this.data == data && this.failAt == failAt && pos == 0 && !eof && !error
    {
      this.data := data;
      this.failAt := failAt;
      pos, eof, error := 0, false, false;
    }

    ghost predicate Valid()
      reads this
    {
      pos <= |data| && (!eof || pos == |data|) && (error ==> pos == failAt)
    }

    // fread(buffer, 1, BLOCK_SIZE, fp)
    method Fread(buffer: array<Byte>) returns (count: nat)
      requires Valid() && !eof && !error && buffer.Length == BLOCK_SIZE
      modifies this, buffer
      ensures Valid() && count <= BLOCK_SIZE && pos == old(pos) + count
      ensures buffer[..] == data[old(pos)..pos] + old(buffer[count..])
      ensures count < BLOCK_SIZE <==> eof || error
      ensures !(eof && error) && (error ==> failAt < |data|) && (eof ==> pos == |data|)
    {
      var left := |data| - pos;
      var wanted := if left < BLOCK_SIZE then left else BLOCK_SIZE;
      if failAt < |data| && pos <= failAt < pos + wanted {
        count := failAt - pos;
        error := true;
      } else {
        count := wanted;
        eof := wanted < BLOCK_SIZE;
      }
      forall i | 0 <= i < count {
        buffer[i] := data[pos + i];
      }
      pos := pos + count;
    }
  }

  function BlockCount(size: nat): nat {
    (size + BLOCK_SIZE - 1) / BLOCK_SIZE
  }

  // The i-th block of the image, filled up with zeros.
  function Block(data: seq<Byte>, i: nat): (b: seq<Byte>)
    requires i < BlockCount(|data|)
    ensures |b| == BLOCK_SIZE
  {
    var start := i * BLOCK_SIZE;
    if |data| - start < BLOCK_SIZE then data[start..] + Zeros(BLOCK_SIZE - (|data| - start))
    else data[start..start + BLOCK_SIZE]
  }

  /** Every byte of every block: the image's, or zero after its end. */
  lemma BlockBytes(data: seq<Byte>, i: nat, j: nat)
    requires i < BlockCount(|data|) && j < BLOCK_SIZE
    ensures Block(data, i)[j] == if 2048 * i + j < |data| then data[2048 * i + j] else 0
  {
  }

  /** The blocks reach to the end of the image, and none begins after it. */
  lemma BlocksCover(size: nat)
    ensures size <= 2048 * BlockCount(size) < size + 2048
  {
  }

  // The commands that write the first k blocks, each once and in order.
  function Writes(data: seq<Byte>, k: nat): (w: seq<Command>)
    requires k <= BlockCount(|data|)
    ensures |w| == k
  {
    seq(k, i requires 0 <= i < k => WriteBlock(i, Block(data, i)))
  }

  // The CD after the first k blocks.
  function Loaded(cd: map<nat, seq<Byte>>, data: seq<Byte>, k: nat): map<nat, seq<Byte>>
    requires k <= BlockCount(|data|)
  {
    if k == 0 then cd else Loaded(cd, data, k - 1)[k - 1 := Block(data, k - 1)]
  }

  /** The first k blocks are those of the image, and the others are as before. */
  lemma {:induction false} LoadedBlocks(cd: map<nat, seq<Byte>>, data: seq<Byte>, k: nat)
    requires k <= BlockCount(|data|)
    ensures var cd' := Loaded(cd, data, k);
            && (forall i :: 0 <= i < k ==> i in cd' && cd'[i] == Block(data, i))
            && (forall i :: i >= k ==> (i in cd' <==> i in cd) && (i in cd' ==> cd'[i] == cd[i]))
  {
    if k > 0 {
      LoadedBlocks(cd, data, k - 1);
    }
  }

  // On the CD are, in the first k blocks, exactly the bytes of the image, and zeros after its end.
  ghost predicate Holds(cd: map<nat, seq<Byte>>, data: seq<Byte>, k: nat) {
    forall i :: 0 <= i < k ==>
      && i in cd && |cd[i]| == 2048
      && forall j :: 0 <= j < 2048 ==> cd[i][j] == if 2048 * i + j < |data| then data[2048 * i + j] else 0
  }

  lemma LoadedHolds(cd: map<nat, seq<Byte>>, data: seq<Byte>, k: nat)
    requires k <= BlockCount(|data|)
    ensures Holds(Loaded(cd, data, k), data, k)
  {
    LoadedBlocks(cd, data, k);
    var cd' := Loaded(cd, data, k);
    forall i | 0 <= i < k
      ensures i in cd' && |cd'[i]| == 2048
      ensures forall j :: 0 <= j < 2048 ==> cd'[i][j] == if 2048 * i + j < |data| then data[2048 * i + j] else 0
    {
      BlockHolds(data, i, cd'[i]);
    }
  }

  lemma BlockHolds(data: seq<Byte>, i: nat, b: seq<Byte>)
    requires i < BlockCount(|data|) && b == Block(data, i)
    ensures |b| == 2048
    ensures forall j :: 0 <= j < 2048 ==> b[j] == if 2048 * i + j < |data| then data[2048 * i + j] else 0
  {
    forall j | 0 <= j < 2048
      ensures b[j] == if 2048 * i + j < |data| then data[2048 * i + j] else 0
    {
      BlockBytes(data, i, j);
    }
  }

  /** Byte for byte: after the first k blocks the byte p of the image is at place p modulo 2048 of block
      p / 2048, and what comes after the end of the image is zero. */
  lemma ImageOnCd(cd: map<nat, seq<Byte>>, data: seq<Byte>, k: nat, p: nat)
    requires Holds(cd, data, k) && p < 2048 * k
    ensures p / 2048 in cd && |cd[p / 2048]| == 2048
    ensures cd[p / 2048][p % 2048] == if p < |data| then data[p] else 0
  {
    var i, j := p / 2048, p % 2048;
    assert p == 2048 * i + j && 0 <= i < k;
  }

  /** After all blocks every byte of the image is on the CD. */
  lemma WholeImageOnCd(cd: map<nat, seq<Byte>>, data: seq<Byte>, p: nat)
    requires Holds(cd, data, BlockCount(|data|)) && p < |data|
    ensures p / 2048 in cd && |cd[p / 2048]| == 2048 && cd[p / 2048][p % 2048] == data[p]
  {
    BlocksCover(|data|);
    ImageOnCd(cd, data, BlockCount(|data|), p);
  }

  // What stays and what has happened when the first k blocks have gone to the device.
  ghost predicate Progressed(s: State, s': State, data: seq<Byte>, k: nat) {
    && k <= BlockCount(|data|)
    && s'.history == s.history + Writes(data, k)
    && s'.device == s.device.(cd := Loaded(s.device.cd, data, k))
  }

  /** Spelled out: the commands executed are the writes of the first k blocks, each once and in order. */
  lemma ProgressedWrites(s: State, s': State, data: seq<Byte>, k: nat, i: nat)
    requires Progressed(s, s', data, k) && i < k
    ensures |s'.history| == |s.history| + k && s.history <= s'.history && i < BlockCount(|data|)
    ensures s'.history[|s.history| + i] == WriteBlock(i, Block(data, i))
  {
    assert Writes(data, k)[i] == WriteBlock(i, Block(data, i));
  }

  /** And nothing else on the device changes, on the CD and beside it. */
  lemma ProgressedKeeps(s: State, s': State, data: seq<Byte>, k: nat, i: nat)
    requires Progressed(s, s', data, k)
    ensures s'.device.(cd := s.device.cd) == s.device
    ensures i >= k ==> (i in s'.device.cd <==> i in s.device.cd)
                       && (i in s.device.cd ==> s'.device.cd[i] == s.device.cd[i])
    ensures k == 0 ==> s'.device == s.device && s'.history == s.history
  {
    LoadedBlocks(s.device.cd, data, k);
  }

  lemma WriteStep(n: Nature, s: State, s1: State, data: seq<Byte>, k: nat)
    requires Progressed(s, s1, data, k) && k < BlockCount(|data|)
    ensures var a := Exchange(n, s1, WriteBlock(k, Block(data, k)));
            && (Progressed(s, a.state, data, k) || Progressed(s, a.state, data, k + 1))
            && (a.Ok() ==> Progressed(s, a.state, data, k + 1))
  {
    assert Writes(data, k + 1) == Writes(data, k) + [WriteBlock(k, Block(data, k))];
  }

  // The partial block is filled up with zeros, so that no old bytes are written.
  method Zeroize(buffer: array<Byte>, bytesRead: nat)
    requires bytesRead <= BLOCK_SIZE == buffer.Length
    modifies buffer
    ensures buffer[..] == old(buffer[..bytesRead]) + Zeros(BLOCK_SIZE - bytesRead)
  {
    forall i | bytesRead <= i < BLOCK_SIZE {
      buffer[i] := 0;
    }
  }

  // One pass of the loop up to the write: the next block, or none at the end or on an error.
  method NextBlock(fp: File, buffer: array<Byte>, ghost blockNum: nat) returns (bytesRead: nat)
    requires fp.Valid() && !fp.eof && !fp.error && buffer.Length == BLOCK_SIZE
    requires fp.pos == blockNum * BLOCK_SIZE
    modifies fp, buffer
    ensures fp.Valid() && bytesRead <= BLOCK_SIZE && fp.pos == old(fp.pos) + bytesRead
    ensures bytesRead < BLOCK_SIZE <==> fp.eof || fp.error
    ensures fp.error ==> fp.failAt < |fp.data| && !fp.eof
    ensures fp.eof ==> fp.pos == |fp.data|
    ensures !fp.error && bytesRead > 0 ==>
      blockNum < BlockCount(|fp.data|) && buffer[..] == Block(fp.data, blockNum)
    ensures fp.eof && bytesRead > 0 ==> blockNum + 1 == BlockCount(|fp.data|)
    ensures fp.eof && bytesRead == 0 ==> blockNum == BlockCount(|fp.data|)
  {
    bytesRead := fp.Fread(buffer);
    if bytesRead != BLOCK_SIZE && !fp.error && bytesRead != 0 {
      assert buffer[..bytesRead] == fp.data[blockNum * BLOCK_SIZE..];
      Zeroize(buffer, bytesRead);
    }
  }

  // u3_cd_write on the next block.
  method WriteNext(h: Handle, buffer: array<Byte>, blockNum: nat, ghost start: State, ghost data: seq<Byte>)
    returns (rc: bool, ghost k: nat)
    requires buffer.Length == BLOCK_SIZE && blockNum < BlockCount(|data|) < 0x1_0000_0000
    requires buffer[..] == Block(data, blockNum) && Progressed(start, h.state, data, blockNum)
    modifies h`state, buffer
    ensures blockNum <= k <= blockNum + 1 && Progressed(start, h.state, data, k)
    ensures rc ==> k == blockNum + 1
    ensures Reliable(h.nature) ==> rc
  {
    ghost var before := h.state;
    ghost var a := Exchange(h.nature, before, WriteBlock(blockNum, Block(data, blockNum)));
    WriteStep(h.nature, start, before, data, blockNum);
    assert Reliable(h.nature) ==> h.nature.outcomes(|before.issued|) == Completed;
    rc := CdWrite(h, blockNum, buffer);
    k := if Progressed(start, h.state, data, blockNum + 1) then blockNum + 1 else blockNum;
  }

  // The flag as it is seen after k blocks.
  predicate Asked(quit: nat -> bool, k: nat) {
    quit(k)
  }

  // A load of cnt blocks that nothing fails ends after k: at the end, or when first asked to quit.
  predicate EndsAt(quit: nat -> bool, k: nat, cnt: nat) {
    0 < k <= cnt && (k == cnt || Asked(quit, k)) && Unasked(quit, k)
  }

  // Nobody asked to quit after one of the blocks before the k-th.
  predicate Unasked(quit: nat -> bool, k: nat) {
    k <= 1 || (!Asked(quit, k - 1) && Unasked(quit, k - 1))
  }

  lemma {:induction false} UnaskedBefore(quit: nat -> bool, k: nat)
    ensures Unasked(quit, k) <==> forall j :: 0 < j < k ==> !quit(j)
  {
    if k > 1 {
      UnaskedBefore(quit, k - 1);
    }
  }

  lemma NextUnasked(quit: nat -> bool, k: nat, next: nat)
    requires Unasked(quit, k) && (k == 0 || !Asked(quit, k)) && k <= next <= k + 1
    ensures Unasked(quit, next)
  {
  }

  lemma NothingWritten(s: State, data: seq<Byte>)
    ensures Progressed(s, s, data, 0)
  {
  }

  // display_progress, when all calls since shown have shown the true progress.
  method ShowNext(display: Progress.Display, cur: nat, total: nat, ghost shown: Progress.Snapshot)
    requires cur <= total && 0 < total && total * 100 < Progress.UINT
    requires Progress.OnCourse(shown, display.Now(), total)
    modifies display
    ensures Progress.OnCourse(shown, display.Now(), total)
  {
    ghost var before := display.Now();
    display.Show(cur, total);
    Progress.OnCourseNext(shown, before, display.Now(), cur, total);
  }

  // One pass of the loop: the bar, the next block, and its write. k blocks have then gone to the device.
  method Pass(h: Handle, fp: File, display: Progress.Display, buffer: array<Byte>, blockNum: nat, blockCnt: nat,
              ghost start: State, ghost shown: Progress.Snapshot)
    returns (ok: bool, next: nat, ghost k: nat)
    requires fp.Valid() && !fp.eof && !fp.error && fp.pos == blockNum * BLOCK_SIZE && buffer.Length == BLOCK_SIZE
    requires blockNum <= blockCnt == BlockCount(|fp.data|) && 0 < blockCnt && blockCnt * 100 < Progress.UINT
    requires Progressed(start, h.state, fp.data, blockNum)
    requires Progress.OnCourse(shown, display.Now(), blockCnt)
    modifies h`state, fp, display, buffer
    ensures fp.Valid() && Progressed(start, h.state, fp.data, k)
    ensures Progress.OnCourse(shown, display.Now(), blockCnt)
    ensures ok ==> !fp.error && next == k <= blockCnt
    ensures ok ==> next == blockNum + 1 || (next == blockNum == blockCnt && fp.eof)
    ensures ok ==> if fp.eof then next == blockCnt else fp.pos == next * BLOCK_SIZE > old(fp.pos)
    ensures Reliable(h.nature) && fp.failAt >= |fp.data| ==> ok
  {
    ok, next, k := true, blockNum, blockNum;
    ShowNext(display, blockNum, blockCnt, shown);
    var bytesRead := NextBlock(fp, buffer, blockNum);
    if bytesRead != BLOCK_SIZE && fp.error {
      return false, next, k;
    }
    if bytesRead != 0 {
      ok, k := WriteNext(h, buffer, blockNum, start, fp.data);
      next := blockNum + 1;
    }
  }

  // One pass, and whether another one follows. quit(j) is the flag that the signal handler sets, as seen
  // after j blocks.
  method Turn(h: Handle, fp: File, display: Progress.Display, buffer: array<Byte>, blockNum: nat, blockCnt: nat,
              quit: nat -> bool, ghost start: State, ghost shown: Progress.Snapshot)
    returns (ok: bool, again: bool, next: nat, ghost k: nat)
    requires fp.Valid() && !fp.eof && !fp.error && fp.pos == blockNum * BLOCK_SIZE && buffer.Length == BLOCK_SIZE
    requires blockNum <= blockCnt == BlockCount(|fp.data|) && 0 < blockCnt && blockCnt * 100 < Progress.UINT
    requires Progressed(start, h.state, fp.data, blockNum)
    requires Progress.OnCourse(shown, display.Now(), blockCnt)
    requires Unasked(quit, blockNum) && (blockNum == 0 || !Asked(quit, blockNum))
    modifies h`state, fp, display, buffer
    ensures fp.Valid() && Progressed(start, h.state, fp.data, k)
    ensures Progress.OnCourse(shown, display.Now(), blockCnt)
    ensures ok ==> next == k <= blockCnt && Unasked(quit, next)
    ensures ok && again ==>
      !fp.eof && !fp.error && fp.pos == next * BLOCK_SIZE > old(fp.pos) && next > 0 && !Asked(quit, next)
    ensures ok && !again ==> EndsAt(quit, next, blockCnt)
    ensures Reliable(h.nature) && fp.failAt >= |fp.data| ==> ok
  {
    again := false;
    ok, next, k := Pass(h, fp, display, buffer, blockNum, blockCnt, start, shown);
    if ok {
      NextUnasked(quit, blockNum, next);
      again := !fp.eof && !Asked(quit, next);
    }
  }

  // The loop.
  method WriteImage(h: Handle, fp: File, display: Progress.Display, blockCnt: nat, quit: nat -> bool)
    returns (success: bool, ghost k: nat)
    requires fp.Valid() && fp.pos == 0 && !fp.eof && !fp.error && fp.data != []
    requires blockCnt == BlockCount(|fp.data|) && 0 < blockCnt && blockCnt * 100 < Progress.UINT
    modifies h`state, fp, display
    ensures Progressed(old(h.state), h.state, fp.data, k)
    ensures success ==> EndsAt(quit, k, blockCnt)
    ensures Reliable(h.nature) && fp.failAt >= |fp.data| ==> success
    ensures Progress.OnCourse(old(display.Now()), display.Now(), blockCnt)
  {
    var buffer := new Byte[BLOCK_SIZE];
    var blockNum: nat := 0;
    k := 0;
    var again := true;
    ghost var start, shown := h.state, display.Now();
    Progress.OnCourseStart(shown, blockCnt);
    NothingWritten(start, fp.data);
    while again
      invariant fp.Valid() && blockNum <= blockCnt
      invariant Progressed(start, h.state, fp.data, blockNum)
      invariant Progress.OnCourse(shown, display.Now(), blockCnt)
      invariant again ==> !fp.eof && !fp.error && fp.pos == blockNum * BLOCK_SIZE
      invariant again ==> Unasked(quit, blockNum) && (blockNum == 0 || !Asked(quit, blockNum))
      invariant !again ==> EndsAt(quit, blockNum, blockCnt)
      decreases again, |fp.data| - fp.pos
    {
      var ok;
      ok, again, blockNum, k := Turn(h, fp, display, buffer, blockNum, blockCnt, quit, start, shown);
      if !ok {
        return false, k;
      }
    }
    ShowNext(display, blockNum, blockCnt, shown);
    return true, blockNum;
  }

  /** All blocks are written exactly when nobody asks to quit before the last. */
  lemma EndsAtAll(quit: nat -> bool, k: nat, cnt: nat)
    requires EndsAt(quit, k, cnt)
    ensures k == cnt <==> forall j :: 0 < j < cnt ==> !quit(j)
  {
    UnaskedBefore(quit, k);
    if k < cnt {
      assert quit(k);
    }
  }

  // The size of the image in sectors.
  function ImageSectors(size: nat): nat {
    (size + SECTOR_SIZE - 1) / SECTOR_SIZE
  }

  // The check of the partition size: the tool learns a CD partition that holds the image.
  predicate Admitted(n: Nature, s: State, size: nat) {
    var (s1, ok, info) := U3Partition.Info(n, s);
    U3Partition.InfoBounded(n, s);
    ok && ImageSectors(size) <= U3Partition.CdSize(info)
  }

  method CountSectors(size: nat) returns (cdSize: nat)
    ensures cdSize == ImageSectors(size)
  {
    cdSize := size / SECTOR_SIZE;
    if size % SECTOR_SIZE != 0 {
      cdSize := cdSize + 1;
    }
  }

  method CountBlocks(size: nat) returns (blockCnt: UInt32)
    ensures blockCnt == BlockCount(size) % 0x1_0000_0000
  {
    blockCnt := size / BLOCK_SIZE % 0x1_0000_0000;
    if size % BLOCK_SIZE != 0 {
      blockCnt := (blockCnt + 1) % 0x1_0000_0000;
    }
    BlockCountWraps(size);
  }

  lemma BlockCountWraps(size: nat)
    ensures BlockCount(size) == size / BLOCK_SIZE + (if size % BLOCK_SIZE != 0 then 1 else 0)
    ensures (size / BLOCK_SIZE % 0x1_0000_0000 + 1) % 0x1_0000_0000 == (size / BLOCK_SIZE + 1) % 0x1_0000_0000
  {
    Arithmetic.ModAdd(size / BLOCK_SIZE, 1, 0x1_0000_0000);
  }

  // u3_partition_info and the comparison.
  method CheckSize(h: Handle, cdSize: nat) returns (ok: bool)
    modifies h`state
    ensures var (s1, read, info) := U3Partition.Info(h.nature, old(h.state));
            h.state == s1 && ok == (read && cdSize <= U3Partition.CdSize(info))
  {
    U3Partition.InfoBounded(h.nature, h.state);
    var pinfo := new Byte[U3Partition.INFO_LEN];
    ok := U3Partition.PartitionInfo(h, pinfo);
    if ok {
      assert pinfo[13..17] == pinfo[..][13..17];
      ok := cdSize <= LeValue(pinfo[13..17]);
    }
  }

  // The commands executed from s on are writes of blocks that start inside a CD partition of this size and
  // reach beyond it by at most three sectors, or by none if the size is a multiple of four.
  ghost predicate WritesInside(s: State, s': State, cdSize: nat) {
    && s.history <= s'.history
    && forall i :: |s.history| <= i < |s'.history| ==>
         && s'.history[i].WriteBlock?
         && 4 * s'.history[i].num < cdSize
         && 4 * s'.history[i].num + 4 <= (if cdSize % 4 == 0 then cdSize else cdSize + 3)
  }

  /** Spelled out, with the factor and the bounds. */
  lemma WritesInsideMeans(s: State, s': State, cdSize: nat, i: nat)
    requires WritesInside(s, s', cdSize) && |s.history| <= i < |s'.history|
    ensures s'.history[i].WriteBlock? && 4 * s'.history[i].num < cdSize && 4 * s'.history[i].num + 4 <= cdSize + 3
    ensures cdSize % 4 == 0 ==> 4 * s'.history[i].num + 4 <= cdSize
  {
  }

  lemma ProgressInside(s: State, s': State, data: seq<Byte>, k: nat, cdSize: nat)
    requires Progressed(s, s', data, k) && ImageSectors(|data|) <= cdSize
    ensures WritesInside(s, s', cdSize)
  {
    var w := Writes(data, k);
    forall i | |s.history| <= i < |s'.history|
      ensures s'.history[i].WriteBlock? && s'.history[i].num < BlockCount(|data|)
    {
      assert s'.history[i] == w[i - |s.history|];
    }
    Overshoot(|data|, cdSize);
  }

  // statOk and openOk tell whether stat and fopen succeed.
  method DoLoad(h: Handle, fp: File, statOk: bool, openOk: bool, display: Progress.Display, quit: nat -> bool)
    returns (success: bool, ghost k: nat)
    requires fp.Valid() && fp.pos == 0 && !fp.eof && !fp.error && |fp.data| < 0x8000_0000_0000_0000
    modifies h`state, fp, display
    ensures var n, s := h.nature, old(h.state);
            var s1 := U3Partition.Info(n, s).0;
            if !statOk || fp.data == [] then !success && h.state == s
            else if !Admitted(n, s, |fp.data|) || !openOk then !success && h.state == s1
            else
              && Progressed(s1, h.state, fp.data, k)
              && Holds(h.state.device.cd, fp.data, k)
              && (success ==> EndsAt(quit, k, BlockCount(|fp.data|)))
              && (Reliable(n) && fp.failAt >= |fp.data| ==> success)
    ensures statOk && fp.data != [] && Admitted(h.nature, old(h.state), |fp.data|) ==>
      && WritesInside(U3Partition.Info(h.nature, old(h.state)).0, h.state, ReportedSize(h.nature, old(h.state)))
      && Progress.OnCourse(old(display.Now()), display.Now(), BlockCount(|fp.data|))
  {
    k := 0;
    if !statOk {
      return false, k;
    }
    var size := |fp.data|;
    if size == 0 {
      return false, k;
    }
    var cdSize := CountSectors(size);
    var blockCnt := CountBlocks(size);
    ghost var s := h.state;
    var ok := CheckSize(h, cdSize);
    ghost var s1 := h.state;
    if !ok {
      return false, k;
    }
    U3Partition.InfoBounded(h.nature, s);
    AcceptedBounds(size, ReportedSize(h.nature, s));
    NothingWritten(s1, fp.data);
    Progress.OnCourseStart(display.Now(), blockCnt);
    if openOk {
      success, k := WriteImage(h, fp, display, blockCnt, quit);
    } else {
      success := false;
    }
    LoadedHolds(s1.device.cd, fp.data, k);
    ProgressInside(s1, h.state, fp.data, k, ReportedSize(h.nature, s));
  }

  // The size of the CD partition that the tool learns.
  function ReportedSize(n: Nature, s: State): nat {
    U3Partition.InfoBounded(n, s);
    U3Partition.CdSize(U3Partition.Info(n, s).2)
  }

  /** An image that is accepted for a CD partition of less than 2^24 sectors has at most 2^22 blocks, so no
      counter and no product of the progress bar wraps; and every block starts inside the partition. */
  lemma AcceptedBounds(size: nat, cdSize: nat)
    requires ImageSectors(size) <= cdSize < 0x100_0000
    ensures BlockCount(size) <= 0x40_0000 && BlockCount(size) * 100 < Progress.UINT
    ensures size / BLOCK_SIZE % 0x1_0000_0000 == size / BLOCK_SIZE
    ensures BlockCount(size) <= (cdSize + 3) / 4
  {
  }

  /** So each call of the bar during a load shows the true percentage and exactly fifty columns. */
  lemma LoadProgress(size: nat, cdSize: nat, cur: nat)
    requires 0 < size && ImageSectors(size) <= cdSize < 0x100_0000 && cur <= BlockCount(size)
    ensures var total := BlockCount(size);
            && 0 < total && total * 100 < Progress.UINT
            && Progress.Scaled(cur, 100, total) == Progress.TrueScaled(cur, 100, total) <= 100
            && Progress.Scaled(cur, Progress.BAR_WIDTH, total) == Progress.TrueScaled(cur, Progress.BAR_WIDTH, total)
            && |Progress.Bar(Progress.TrueScaled(cur, Progress.BAR_WIDTH, total))| == Progress.BAR_WIDTH + 2
  {
    AcceptedBounds(size, cdSize);
    Progress.LineIsTrue(cur, BlockCount(size));
  }

  /** The check counts sectors and the writes are blocks of four: loads stay inside the partition for every
      image that is accepted if and only if the partition is a multiple of four sectors. */
  lemma StaysInside(cdSize: nat)
    ensures (forall size {:trigger BlockCount(size)} :: ImageSectors(size) <= cdSize ==> 4 * BlockCount(size) <= cdSize)
       <==> cdSize % 4 == 0
  {
    var size := SECTOR_SIZE * cdSize;
    assert ImageSectors(size) == cdSize;
    assert BlockCount(size) == (cdSize + 3) / 4;
    if cdSize % 4 == 0 {
      forall size {:trigger BlockCount(size)} | ImageSectors(size) <= cdSize
        ensures 4 * BlockCount(size) <= cdSize
      {
        Overshoot(size, cdSize);
      }
    }
  }

  /** Otherwise the overshoot is at most three sectors. */
  lemma Overshoot(size: nat, cdSize: nat)
    requires ImageSectors(size) <= cdSize
    ensures 4 * BlockCount(size) <= cdSize + 3
    ensures cdSize % 4 == 0 ==> 4 * BlockCount(size) <= cdSize
  {
  }

  /** On a reliable link an image is admitted to a CD partition exactly if it fits in its size modulo
      2^24 sectors. */
  lemma AdmittedExactly(n: Nature, s: State, record: U3Partition.PartInfo, size: nat)
    requires Reliable(n) && s.device.partition == record.Packed() && record.partitionCount == 2
    ensures Admitted(n, s, size) <==> ImageSectors(size) <= record.cdSize % 0x100_0000
  {
    U3Partition.InfoSucceeds(n, s);
    U3Partition.InfoReports(n, s, record);
  }

  /** So every image that fits is admitted if and only if the partition has less than 2^24 sectors. */
  lemma FittingAdmitted(n: Nature, s: State, record: U3Partition.PartInfo)
    requires Reliable(n) && s.device.partition == record.Packed() && record.partitionCount == 2
    ensures (forall size {:trigger Admitted(n, s, size)} ::
               ImageSectors(size) <= record.cdSize ==> Admitted(n, s, size))
       <==> record.cdSize < 0x100_0000
  {
    if record.cdSize < 0x100_0000 {
      forall size {:trigger Admitted(n, s, size)} | ImageSectors(size) <= record.cdSize
        ensures Admitted(n, s, size)
      {
        FitsIsAdmitted(n, s, record, size);
      }
    } else {
      var size := SECTOR_SIZE * record.cdSize;
      WholeSectors(record.cdSize);
      AdmittedExactly(n, s, record, size);
      assert !Admitted(n, s, size);
    }
  }

  lemma WholeSectors(sectors: nat)
    ensures ImageSectors(SECTOR_SIZE * sectors) == sectors
  {
  }

  /** When the signal comes after j of the blocks of an image that would load, exactly these are on the CD,
      and the action reports success. */
  method QuitAfter(h: Handle, fp: File, display: Progress.Display, j: nat) returns (success: bool, ghost k: nat)
    requires fp.Valid() && fp.pos == 0 && !fp.eof && !fp.error && |fp.data| < 0x8000_0000_0000_0000
    requires Reliable(h.nature) && fp.failAt >= |fp.data|
    requires Admitted(h.nature, h.state, |fp.data|) && 0 < j < BlockCount(|fp.data|)
    modifies h`state, fp, display
    ensures success && k == j
    ensures Progressed(U3Partition.Info(h.nature, old(h.state)).0, h.state, fp.data, j)
  {
    var quit := (i: nat) => i == j;
    assert fp.data != [];
    success, k := DoLoad(h, fp, true, true, display, quit);
    OnlyEnd(quit, j, k, BlockCount(|fp.data|));
  }

  lemma OnlyEnd(quit: nat -> bool, j: nat, k: nat, cnt: nat)
    requires EndsAt(quit, k, cnt) && 0 < j < cnt && quit(j) && forall i: nat :: i != j ==> !quit(i)
    ensures k == j
  {
    EndsAtAll(quit, k, cnt);
  }

  lemma FirstBlockOnly(s: State, s': State, data: seq<Byte>)
    requires |data| == 2 * BLOCK_SIZE && s.device.cd == map[] && Progressed(s, s', data, 1)
    ensures var cd := s'.device.cd; 0 in cd && cd[0] == data[..BLOCK_SIZE] && 1 !in cd
  {
    assert Block(data, 0) == data[..BLOCK_SIZE];
    LoadedBlocks(s.device.cd, data, 1);
  }

  lemma FitsIsAdmitted(n: Nature, s: State, record: U3Partition.PartInfo, size: nat)
    requires Reliable(n) && s.device.partition == record.Packed() && record.partitionCount == 2
    requires ImageSectors(size) <= record.cdSize < 0x100_0000
    ensures Admitted(n, s, size)
  {
    Arithmetic.DivModUnique(record.cdSize, 0, record.cdSize, 0x100_0000);
    AdmittedExactly(n, s, record, size);
  }

  // A device with a CD partition of this size, on a link that never fails.
  method Example(cdSize: UInt32, ghost size: nat) returns (h: Handle)
    requires ImageSectors(size) <= cdSize < 0x100_0000
    ensures fresh(h) && h.state.device.cd == map[] && Reliable(h.nature) && Admitted(h.nature, h.state, size)
  {
    var record := U3Partition.PartInfo(2, 0x02, 0, 0x103, cdSize);
    var device := Device(record.Packed(), map[], 0, 0, false, 0, []);
    h := new Handle(Nature((v, up) => v, (v, up) => v, map[], 0, false, false, i => Completed), device);
    FitsIsAdmitted(h.nature, h.state, record, size);
  }

  /** A load that is interrupted: of an image of two blocks the first is on the CD, the second is not, and
      the action reports success. */
  method InterruptedLoad(cdSize: UInt32, image: seq<Byte>) returns (success: bool, ghost cd: map<nat, seq<Byte>>)
    requires 8 <= cdSize < 0x100_0000 && |image| == 2 * BLOCK_SIZE
    ensures success && 0 in cd && cd[0] == image[..BLOCK_SIZE] && 1 !in cd
  {
    var h := Example(cdSize, |image|);
    ghost var s := h.state;
    var fp := new File(image, |image|);
    var display := new Progress.Display();
    U3Partition.InfoBounded(h.nature, s);
    ghost var k;
    success, k := QuitAfter(h, fp, display, 1);
    FirstBlockOnly(U3Partition.Info(h.nature, s).0, h.state, image);
    cd := h.state.device.cd;
  }
}
