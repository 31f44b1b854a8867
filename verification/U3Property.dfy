/** u3_read_device_property: a page is read in two phases, first its header, then as much of it
    as the header announces and the buffer holds. */
module U3Property {

  import opened Bytes
  import opened U3Device

  const HEADER_LEN := 6

  lemma PageBlock(cmd: seq<Byte>, head: seq<Byte>, tail: seq<Byte>, id: nat, len: nat)
    requires id < 0x1_0000 && len < 0x1_0000
    requires head == [0xFF, 0x00, 0x00] + Le(id, 2) && tail == [0x00, 0x00, 0x00, 0x00, 0x00]
    requires cmd == head + Le(len, 2) + tail
    ensures cmd == BlockOf(ReadPage(id, len))
  {
  }

  /** The length of the header of a page. */
  lemma HeaderLength()
    ensures HEADER_LEN == 6
  {
  }

  // The length field of a header.
  function Declared(page: seq<Byte>): nat
    requires |page| >= HEADER_LEN
  {
    LeValue(page[4..6])
  }

  lemma DeclaredBytes(page: seq<Byte>)
    requires |page| >= HEADER_LEN
    ensures Declared(page) == page[4] as nat + 256 * (page[5] as nat)
  {
    LeValueOfTwo(page[4..6]);
  }

  function Min(a: nat, b: nat): nat {
    if a < b then a else b
  }

  // The second phase, when the header is in the buffer.
  function ReadBody(n: Nature, s: State, id: nat, buffer: seq<Byte>, bufferLength: nat): (State, bool, seq<Byte>)
    requires HEADER_LEN <= bufferLength <= |buffer|
  {
    if Declared(buffer) < HEADER_LEN then (s, false, buffer)
    else
      var len := Min(Declared(buffer), bufferLength);
      var a := Exchange(n, s, ReadPage(id, len));
      (a.state, a.Ok(), Overwrite(buffer, a.reply, len))
  }

  function ReadProperty(n: Nature, s: State, id: nat, buffer: seq<Byte>, bufferLength: nat): (State, bool, seq<Byte>)
    requires bufferLength <= |buffer|
  {
    if bufferLength < HEADER_LEN then (s, false, buffer)
    else
      var a := Exchange(n, s, ReadPage(id, HEADER_LEN));
      var header := Overwrite(buffer, a.reply, HEADER_LEN);
      if !a.Ok() then (a.state, false, header) else ReadBody(n, a.state, id, header, bufferLength)
  }

  // One phase: the length goes into the command block, and the block to the device.
  method ReadPhase(h: Handle, cmd: array<Byte>, id: nat, len: nat, buffer: array<Byte>) returns (ok: bool)
    requires id < 0x1_0000 && len < 0x1_0000 && len <= buffer.Length
    requires cmd != buffer && cmd.Length == 12
    requires cmd[..5] == [0xFF, 0x00, 0x00] + Le(id, 2) && cmd[7..] == [0x00, 0x00, 0x00, 0x00, 0x00]
    modifies h`state, cmd, buffer
    ensures cmd[..5] == old(cmd[..5]) && cmd[7..] == old(cmd[7..])
    ensures var a := Exchange(h.nature, old(h.state), ReadPage(id, len));
            h.state == a.state && ok == a.Ok() && buffer[..] == Overwrite(old(buffer[..]), a.reply, len)
  {
    ghost var head, tail := cmd[..5], cmd[7..];
    PutLe16(len, cmd, 5);
    PageBlock(cmd[..], head, tail, id, len);
    var rc, status := h.Send(cmd, FromDevice, len, buffer, ReadPage(id, len));
    ok := rc && status == 0;
  }

  // The command block with the page number in place.
  lemma Header(blank: seq<Byte>, cmd: seq<Byte>, id: seq<Byte>)
    requires blank == [0xFF, 0x00, 0x00, 0x00, 0x00, 0x00, 0x00, 0x00, 0x00, 0x00, 0x00, 0x00]
    requires |id| == 2 && cmd == blank[..3] + id + blank[5..]
    ensures cmd[..5] == [0xFF, 0x00, 0x00] + id && cmd[7..] == [0x00, 0x00, 0x00, 0x00, 0x00]
  {
  }

  method ReadDeviceProperty(h: Handle, propertyId: nat, buffer: array<Byte>, bufferLength: nat) returns (rc: bool)
    requires propertyId < 0x1_0000 && bufferLength < 0x1_0000 && bufferLength <= buffer.Length
    modifies h`state, buffer
    ensures (h.state, rc, buffer[..])
         == ReadProperty(h.nature, old(h.state), propertyId, old(buffer[..]), bufferLength)
  {
    if bufferLength < HEADER_LEN {
      return false;
    }
    var cmd := new Byte[12] [0xFF, 0x00, 0x00, 0x00, 0x00, 0x00, 0x00, 0x00, 0x00, 0x00, 0x00, 0x00];
    ghost var blank := cmd[..];
    PutLe16(propertyId, cmd, 3);
    Header(blank, cmd[..], Le(propertyId, 2));
    rc := ReadPhase(h, cmd, propertyId, HEADER_LEN, buffer);
    if !rc {
      return false;
    }
    var length := LeValue(buffer[4..6]);
    assert length == Declared(buffer[..]);
    if length < HEADER_LEN {
      return false;
    }
    rc := ReadPhase(h, cmd, propertyId, Min(length, bufferLength), buffer);
  }

  // The states and commands of a read: the device as before, and of the commands issued, whatever
  // became of them, each a request for at most limit bytes of the page.
  ghost predicate OnlyReads(s: State, s': State, id: nat, limit: nat) {
    && s'.device == s.device && s.issued <= s'.issued
    && forall i :: |s.issued| <= i < |s'.issued| ==>
         s'.issued[i].ReadPage? && s'.issued[i].id == id && s'.issued[i].len <= limit
  }

  lemma ExchangeReads(n: Nature, s: State, id: nat, len: nat, limit: nat)
    requires len <= limit
    ensures var s' := Exchange(n, s, ReadPage(id, len)).state;
            OnlyReads(s, s', id, limit) && |s'.issued| == |s.issued| + 1
  {
  }

  /** Reading changes nothing on the device; there are at most two transfers, and neither asks for
      more than the buffer holds. */
  lemma TransfersFit(n: Nature, s: State, id: nat, buffer: seq<Byte>, bufferLength: nat)
    requires bufferLength <= |buffer|
    ensures var s' := ReadProperty(n, s, id, buffer, bufferLength).0;
            OnlyReads(s, s', id, bufferLength) && |s'.issued| <= |s.issued| + 2
    ensures var s' := ReadProperty(n, s, id, buffer, bufferLength).0;
            && s'.device == s.device && s.issued <= s'.issued
            && forall i :: |s.issued| <= i < |s'.issued| ==>
                 s'.issued[i].ReadPage? && s'.issued[i].id == id && s'.issued[i].len <= bufferLength
  {
    if bufferLength >= HEADER_LEN {
      var a := Exchange(n, s, ReadPage(id, HEADER_LEN));
      ExchangeReads(n, s, id, HEADER_LEN, bufferLength);
      var header := Overwrite(buffer, a.reply, HEADER_LEN);
      ExchangeReads(n, a.state, id, Min(Declared(header), bufferLength), bufferLength);
    }
  }

  /** What a read leaves in the buffer, for a page of any length: the announced bytes that fit, as far as
      the page has them. The header that announces them comes from the buffer where the page is too short
      for one. */
  lemma PropertyBytes(n: Nature, s: State, id: nat, buffer: seq<Byte>, bufferLength: nat)
    requires HEADER_LEN <= bufferLength <= |buffer| && id in n.pages
    ensures var declared := Declared(Overwrite(buffer, n.pages[id], HEADER_LEN));
            var (s', rc, b) := ReadProperty(n, s, id, buffer, bufferLength);
            && (rc ==> declared >= HEADER_LEN && b == Overwrite(buffer, n.pages[id], Min(declared, bufferLength)))
            && (Reliable(n) ==> (rc <==> declared >= HEADER_LEN))
  {
    var page := n.pages[id];
    var a := Exchange(n, s, ReadPage(id, HEADER_LEN));
    var header := Overwrite(buffer, page, HEADER_LEN);
    ReadOne(n, s, id, HEADER_LEN, buffer);
    if a.Ok() && Declared(header) >= HEADER_LEN {
      var len := Min(Declared(header), bufferLength);
      ReadOne(n, a.state, id, len, header);
      OverwriteTwice(buffer, page, len);
    }
  }

  // One read of a page that the device has.
  lemma ReadOne(n: Nature, s: State, id: nat, len: nat, buffer: seq<Byte>)
    requires id in n.pages && len <= |buffer|
    ensures var a := Exchange(n, s, ReadPage(id, len));
            && (a.Ok() ==> Overwrite(buffer, a.reply, len) == Overwrite(buffer, n.pages[id], len))
            && (Reliable(n) ==> a.Ok())
  {
    TakeTwice(buffer, n.pages[id], len);
    assert Reliable(n) ==> n.outcomes(|s.issued|) == Completed;
  }

  lemma TakeTwice(buffer: seq<Byte>, page: seq<Byte>, len: nat)
    requires len <= |buffer|
    ensures Overwrite(buffer, Take(page, len), len) == Overwrite(buffer, page, len)
  {
    assert Take(Take(page, len), len) == Take(page, len);
  }

  lemma OverwriteTwice(buffer: seq<Byte>, page: seq<Byte>, len: nat)
    requires HEADER_LEN <= len <= |buffer|
    ensures Overwrite(Overwrite(buffer, page, HEADER_LEN), page, len) == Overwrite(buffer, page, len)
  {
  }

  /** What success means for a page with a complete header: the buffer holds exactly the bytes of the
      page that were announced and fit, and is otherwise as before. The declared length is 6 or more. */
  lemma PropertyContents(n: Nature, s: State, id: nat, buffer: seq<Byte>, bufferLength: nat)
    requires bufferLength <= |buffer|
    requires id in n.pages && |n.pages[id]| >= HEADER_LEN
    ensures var page := n.pages[id];
            var (s', rc, b) := ReadProperty(n, s, id, buffer, bufferLength);
            var m := Min(Min(Declared(page), |page|), bufferLength);
            rc ==> bufferLength >= HEADER_LEN && Declared(page) >= HEADER_LEN && b == page[..m] + buffer[m..]
  {
    if bufferLength >= HEADER_LEN {
      var page := n.pages[id];
      PropertyBytes(n, s, id, buffer, bufferLength);
      HeaderDeclares(page, Overwrite(buffer, page, HEADER_LEN));
      OverwriteIs(buffer, page, Min(Declared(page), bufferLength));
      MinOfThree(Declared(page), |page|, bufferLength);
    }
  }

  lemma OverwriteIs(buffer: seq<Byte>, page: seq<Byte>, len: nat)
    requires len <= |buffer|
    ensures Overwrite(buffer, page, len) == page[..Min(len, |page|)] + buffer[Min(len, |page|)..]
  {
  }

  lemma MinOfThree(a: nat, b: nat, c: nat)
    ensures Min(Min(a, b), c) == Min(Min(a, c), b)
  {
  }

  lemma HeaderDeclares(page: seq<Byte>, header: seq<Byte>)
    requires |page| >= HEADER_LEN && |header| >= HEADER_LEN && header[..HEADER_LEN] == page[..HEADER_LEN]
    ensures Declared(header) == Declared(page)
  {
    assert header[4..6] == header[..HEADER_LEN][4..6] == page[4..6];
  }

  /** On a reliable link the read succeeds exactly when the buffer has room for a header and the page
      declares at least one. */
  lemma PropertySucceeds(n: Nature, s: State, id: nat, buffer: seq<Byte>, bufferLength: nat)
    requires Reliable(n) && bufferLength <= |buffer|
    requires id in n.pages && |n.pages[id]| >= HEADER_LEN
    ensures ReadProperty(n, s, id, buffer, bufferLength).1
       <==> bufferLength >= HEADER_LEN && Declared(n.pages[id]) >= HEADER_LEN
  {
    if bufferLength >= HEADER_LEN {
      PropertyBytes(n, s, id, buffer, bufferLength);
      HeaderDeclares(n.pages[id], Overwrite(buffer, n.pages[id], HEADER_LEN));
    }
  }

  /** A page that the device does not have cannot be read. */
  lemma MissingPageFails(n: Nature, s: State, id: nat, buffer: seq<Byte>, bufferLength: nat)
    requires bufferLength <= |buffer| && id !in n.pages
    ensures !ReadProperty(n, s, id, buffer, bufferLength).1
  {
  }
}
