// The host's flash command: pages in lines of 16 bytes, retries, checksum and incremental mode.
module FlashDriver {
  import opened Words
  import opened Crc16
  import opened Bootloader
  import opened FlashLink
  import opened Wrappers

  // Replies a flash attempt can cause; the handshake of a retry awaits the others.
  predicate FlashReply(r: Reply) {
    !r.BootStopAck? && !r.StateReply?
  }

  ghost predicate NoHandshake(inbox: seq<Reply>) {
    forall r <- inbox :: FlashReply(r)
  }

  // The first n bytes of the page at `offset` stand in the buffer of a board that hears the host.
  ghost predicate Buffered(s: BoardState, data: seq<bv8>, offset: nat, n: nat) {
    && s.mode != Application
    && n <= |s.buffer| && offset + n <= |data|
    && s.buffer[..n] == data[offset..offset + n]
  }

  lemma FillReaches(s: BoardState, data: seq<bv8>, offset: nat, index: uint8)
    requires Buffered(s, data, offset, index) && index % 4 == 0
    requires index + 4 <= |s.buffer| && offset + index + 4 <= |data|
    requires index % 16 != 0 ==> s.lineCounter == index % 16
    ensures var m := BufferFill(index, data[offset + index..offset + index + 4]);
            var (t, reply) := React(s, m);
            && Buffered(t, data, offset, index + 4) && t.lineCounter == index % 16 + 4
            && t.flash == s.flash && t.eeprom == s.eeprom && t.mode == s.mode && |t.buffer| == |s.buffer|
            && reply == if index % 16 == 12 then Some(FillAck) else None
  {
    var bytes := data[offset + index..offset + index + 4];
    var t := Spliced(s.buffer, index, bytes);
    assert t[..index + 4] == s.buffer[..index] + bytes;
    assert data[offset..offset + index + 4] == data[offset..offset + index] + bytes;
  }

  ghost predicate Quiet(link: Link, flash: seq<bv8>, eeprom: seq<bv8>)
    reads link.Footprint()
  {
    link.board.Valid() && link.State().flash == flash && link.State().eeprom == eeprom && NoHandshake(link.inbox)
  }

  // i frames of a line have been sent since frame number `start`.  `heard` tells that nothing was
  // pending and everything before the line stood in the buffer.
  ghost predicate InLine(link: Link, start: nat, heard: bool, data: seq<bv8>, offset: nat, index0: nat, i: nat)
    reads link.Footprint()
  {
    link.sent >= start + i &&
    (heard && link.Reaches(start) ==>
       && Buffered(link.State(), data, offset, index0 + 4 * i)
       && (i > 0 ==> link.State().lineCounter == 4 * i)
       && (link.inbox == [] || (i == 4 && link.inbox == [FillAck]))
       && (i == 4 && link.Clean(start) ==> link.inbox == [FillAck]))
  }

  method SendFill(link: Link, data: seq<bv8>, offset: nat, index: uint8,
                  ghost start: nat, ghost heard: bool, ghost index0: nat, ghost i: nat)
    requires link.board.Valid() && NoHandshake(link.inbox)
    requires i < 4 && index == index0 + 4 * i && index0 % 16 == 0
    requires index + 4 <= link.board.pageSize && offset + index + 4 <= |data|
    requires InLine(link, start, heard, data, offset, index0, i)
    modifies link.Footprint()
    ensures Quiet(link, old(link.State().flash), old(link.State().eeprom))
    ensures InLine(link, start, heard, data, offset, index0, i + 1)
  {
    if heard && link.Reaches(start) {
      FillReaches(link.State(), data, offset, index);
    }
    link.Send(BufferFill(index, data[offset + index..offset + index + 4]));
  }

  method SendFills(link: Link, data: seq<bv8>, offset: nat, index0: uint8, ghost start: nat, ghost heard: bool)
    returns (index: uint8)
    requires link.board.Valid() && NoHandshake(link.inbox)
    requires index0 % 16 == 0 && index0 + 16 <= link.board.pageSize && offset + index0 + 16 <= |data|
    requires InLine(link, start, heard, data, offset, index0, 0)
    modifies link.Footprint()
    ensures Quiet(link, old(link.State().flash), old(link.State().eeprom))
    ensures InLine(link, start, heard, data, offset, index0, 4) && index == (index0 + 16) % 0x100
  {
    index := index0;
    for i := 0 to 4
      invariant index == (index0 + 4 * i) % 0x100
      invariant Quiet(link, old(link.State().flash), old(link.State().eeprom))
      invariant InLine(link, start, heard, data, offset, index0, i)
    {
      SendFill(link, data, offset, index, start, heard, index0, i);
      index := (index + 4) % 0x100;
    }
  }

  // One line: four frames of four bytes, then the acknowledgement.
  method SendLine(link: Link, data: seq<bv8>, offset: nat, index0: uint8) returns (ok: bool, index: uint8)
    requires link.board.Valid() && NoHandshake(link.inbox)
    requires index0 % 16 == 0 && index0 + 16 <= link.board.pageSize && offset + index0 + 16 <= |data|
    modifies link.Footprint()
    ensures link.sent > old(link.sent)
    ensures Quiet(link, old(link.State().flash), old(link.State().eeprom))
    ensures index == (index0 + 16) % 0x100
    ensures old(link.inbox) == [] && Buffered(old(link.State()), data, offset, index0) ==>
              && (link.Reaches(old(link.sent)) ==>
                    link.inbox == [] && Buffered(link.State(), data, offset, index0 + 16))
              && (link.Clean(old(link.sent)) ==> ok)
  {
    ghost var heard := link.inbox == [] && Buffered(link.State(), data, offset, index0);
    index := SendFills(link, data, offset, index0, link.sent, heard);
    ghost var s := link.State();
    var reply := link.Receive();
    assert link.State() == s;
    ok := reply == Some(FillAck);
  }

  // Two flash contents that agree outside the page at `offset`.
  ghost predicate AgreeOutside(a: seq<bv8>, b: seq<bv8>, offset: nat, pageSize: nat) {
    |a| == |b| && forall k :: 0 <= k < |a| && !(offset <= k < offset + pageSize) ==> a[k] == b[k]
  }

  ghost predicate PageIs(flash: seq<bv8>, data: seq<bv8>, offset: nat, pageSize: nat) {
    offset + pageSize <= |flash| && offset + pageSize <= |data| &&
    flash[offset..offset + pageSize] == data[offset..offset + pageSize]
  }

  ghost predicate Ready(link: Link)
    reads link.Footprint()
  {
    link.inbox == [] && link.State().mode != Application
  }

  // The lines of a page up to one of number `line` have been sent since frame `start`.
  ghost predicate LinesSent(link: Link, data: seq<bv8>, offset: nat, start: nat, ready: bool, line: nat)
    reads link.Footprint()
  {
    && link.sent >= start
    && (ready && link.Reaches(start) ==> link.inbox == [] && Buffered(link.State(), data, offset, 16 * line))
  }

  method SendLines(link: Link, data: seq<bv8>, offset: nat) returns (ok: bool)
    requires link.board.Valid() && NoHandshake(link.inbox) && offset + link.board.pageSize <= |data|
    modifies link.Footprint()
    ensures link.sent >= old(link.sent)
    ensures Quiet(link, old(link.State().flash), old(link.State().eeprom))
    ensures old(Ready(link)) ==>
              && (link.Reaches(old(link.sent)) ==>
                    && Ready(link)
                    && (ok ==> Buffered(link.State(), data, offset, link.board.pageSize)))
              && (link.Clean(old(link.sent)) ==> ok)
  {
    var index: uint8 := 0;
    var pageSize := link.board.pageSize;
    ghost var start, ready := link.sent, Ready(link);
    for line := 0 to pageSize / 16
      invariant index == 16 * line % 0x100
      invariant Quiet(link, old(link.State().flash), old(link.State().eeprom))
      invariant LinesSent(link, data, offset, start, ready, line)
    {
      ok, index := SendLine(link, data, offset, index);
      assert LinesSent(link, data, offset, start, ready, line + 1);
      if !ok {
        return;
      }
    }
    ok := true;
  }

  // One page: its lines, then the order to write it.
  method SendPage(link: Link, data: seq<bv8>, offset: nat) returns (ok: bool)
    requires link.board.Valid() && NoHandshake(link.inbox)
    requires offset % link.board.pageSize == 0
    requires offset + link.board.pageSize <= link.board.flash.Length && offset + link.board.pageSize <= |data|
    modifies link.Footprint()
    ensures link.sent >= old(link.sent)
    ensures link.board.Valid() && NoHandshake(link.inbox) && link.State().eeprom == old(link.State().eeprom)
    ensures AgreeOutside(link.State().flash, old(link.State().flash), offset, link.board.pageSize)
    ensures old(Ready(link)) ==>
              && (link.Reaches(old(link.sent)) ==>
                    Ready(link) && (ok ==> PageIs(link.State().flash, data, offset, link.board.pageSize)))
              && (link.Clean(old(link.sent)) ==> ok)
  {
    ok := SendLines(link, data, offset);
    if ok {
      ok := SendWrite(link, data, offset);
    }
  }

  method SendWrite(link: Link, ghost data: seq<bv8>, offset: nat) returns (ok: bool)
    requires link.board.Valid() && NoHandshake(link.inbox)
    requires offset % link.board.pageSize == 0 && offset + link.board.pageSize <= link.board.flash.Length
    modifies link.Footprint()
    ensures link.sent > old(link.sent)
    ensures link.board.Valid() && NoHandshake(link.inbox) && link.State().eeprom == old(link.State().eeprom)
    ensures AgreeOutside(link.State().flash, old(link.State().flash), offset, link.board.pageSize)
    ensures old(link.inbox) == [] && Buffered(old(link.State()), data, offset, link.board.pageSize) ==>
              && (link.Reaches(old(link.sent)) ==>
                    Ready(link) && PageIs(link.State().flash, data, offset, link.board.pageSize))
              && (link.Clean(old(link.sent)) ==> ok)
  {
    ghost var s := link.State();
    link.Send(BufferWrite(offset % 0x100, offset / 0x100));
    ghost var flash := Spliced(s.flash, offset, s.buffer);
    assert link.State().flash == s.flash || link.State().flash == flash;
    assert flash[offset..offset + |s.buffer|] == s.buffer == s.buffer[..|s.buffer|];
    var reply := link.Receive();
    ok := reply == Some(WriteAck);
  }

  // ---------- The image ----------

  // What the host flashes: the image, how much of it counts, and the image it believes the board holds.
  // Bytes of a page past the end of the cached image read as `stray`.
  datatype Job = Job(data: seq<bv8>, size: uint16, pageSize: uint16, incremental: bool, cached: seq<bv8>, stray: bv8)

  ghost predicate JobFits(j: Job, board: Board) {
    && board.Valid() && j.pageSize == board.pageSize
    && j.size % j.pageSize == 0 && j.size <= |j.data| && j.size <= board.flash.Length
  }

  function CachedByte(j: Job, k: nat): bv8 {
    if k < |j.cached| then j.cached[k] else j.stray
  }

  // The page at `offset` is left out: it is the same in the cached image.
  ghost predicate Skipped(j: Job, offset: int) {
    j.incremental && 0 <= offset && offset + j.pageSize <= |j.data| &&
    forall i :: offset <= i < offset + j.pageSize ==> j.data[i] == CachedByte(j, i)
  }

  function PageOf(j: Job, k: nat): int
    requires j.pageSize > 0
  {
    k - k % j.pageSize
  }

  // Nothing outside the image and nothing in a skipped page has been written.
  ghost predicate Kept(j: Job, was: seq<bv8>, flash: seq<bv8>)
    requires j.pageSize > 0
  {
    |flash| == |was| &&
    forall k :: 0 <= k < |flash| && (k >= j.size || Skipped(j, PageOf(j, k))) ==> flash[k] == was[k]
  }

  // The skipped pages hold what the image has there.
  ghost predicate SkippedRight(j: Job, flash: seq<bv8>)
    requires j.pageSize > 0
  {
    forall k :: 0 <= k < |flash| && k < j.size && k < |j.data| && Skipped(j, PageOf(j, k)) ==> flash[k] == j.data[k]
  }

  lemma KeptTransitive(j: Job, a: seq<bv8>, b: seq<bv8>, c: seq<bv8>)
    requires j.pageSize > 0 && Kept(j, a, b) && Kept(j, b, c)
    ensures Kept(j, a, c)
    ensures SkippedRight(j, a) ==> SkippedRight(j, c)
  {
  }

  // If the board holds the cached image, the skipped pages are right.
  lemma CachedIsRight(j: Job, flash: seq<bv8>)
    requires j.pageSize > 0 && |j.cached| == j.size <= |flash|
    requires flash[..j.size] == j.cached
    ensures SkippedRight(j, flash)
  {
    forall k | 0 <= k < |flash| && k < j.size && k < |j.data| && Skipped(j, PageOf(j, k))
      ensures flash[k] == j.data[k]
    {
      assert flash[k] == flash[..j.size][k] == CachedByte(j, k);
    }
  }

  // And only then does the image stand in flash afterwards: nothing repairs a skipped page.
  lemma SkippedWasRight(j: Job, was: seq<bv8>, flash: seq<bv8>)
    requires j.pageSize > 0 && Kept(j, was, flash) && Flashed(j, flash, j.size)
    ensures SkippedRight(j, was)
  {
    forall k | 0 <= k < |was| && k < j.size && k < |j.data| && Skipped(j, PageOf(j, k)) ensures was[k] == j.data[k] {
      assert was[k] == flash[k] == flash[..j.size][k];
    }
  }

  method PagesEqual(j: Job, offset: nat) returns (equal: bool)
    requires j.incremental && offset + j.pageSize <= |j.data|
    ensures equal <==> Skipped(j, offset)
  {
    for i := 0 to j.pageSize
      invariant forall k :: offset <= k < offset + i ==> j.data[k] == CachedByte(j, k)
    {
      if j.data[offset + i] != CachedByte(j, offset + i) {
        return false;
      }
    }
    return true;
  }

  // Pages up to `offset` are done.
  ghost predicate Flashed(j: Job, flash: seq<bv8>, offset: nat) {
    offset <= |flash| && offset <= |j.data| && flash[..offset] == j.data[..offset]
  }

  lemma PageSkipped(j: Job, flash: seq<bv8>, offset: nat)
    requires j.pageSize > 0 && offset % j.pageSize == 0
    requires offset + j.pageSize <= j.size <= |flash| && j.size <= |j.data|
    requires Flashed(j, flash, offset) && SkippedRight(j, flash) && Skipped(j, offset)
    ensures Flashed(j, flash, offset + j.pageSize)
  {
    forall k | offset <= k < offset + j.pageSize ensures flash[k] == j.data[k] {
      SamePage(j, offset, k);
    }
    assert flash[..offset + j.pageSize] == flash[..offset] + flash[offset..offset + j.pageSize];
    assert j.data[..offset + j.pageSize] == j.data[..offset] + j.data[offset..offset + j.pageSize];
  }

  lemma SamePage(j: Job, offset: nat, k: nat)
    requires j.pageSize > 0 && offset % j.pageSize == 0 && offset <= k < offset + j.pageSize
    ensures PageOf(j, k) == offset
  {
    var n, q := j.pageSize, offset / j.pageSize;
    assert offset == q * n;
    assert k == q * n + (k - offset);
    RemainderUnique(q, k - offset, n);
  }

  lemma PageWritten(j: Job, was: seq<bv8>, flash: seq<bv8>, offset: nat)
    requires j.pageSize > 0 && offset % j.pageSize == 0
    requires offset + j.pageSize <= j.size <= |flash| && j.size <= |j.data|
    requires AgreeOutside(flash, was, offset, j.pageSize) && !Skipped(j, offset)
    ensures Kept(j, was, flash)
    ensures Flashed(j, was, offset) && PageIs(flash, j.data, offset, j.pageSize) ==>
              Flashed(j, flash, offset + j.pageSize)
  {
    forall k | 0 <= k < |flash| && (k >= j.size || Skipped(j, PageOf(j, k))) ensures flash[k] == was[k] {
      if offset <= k < offset + j.pageSize {
        SamePage(j, offset, k);
      }
    }
    if Flashed(j, was, offset) && PageIs(flash, j.data, offset, j.pageSize) {
      assert flash[..offset] == was[..offset];
      assert flash[..offset + j.pageSize] == flash[..offset] + flash[offset..offset + j.pageSize];
      assert j.data[..offset + j.pageSize] == j.data[..offset] + j.data[offset..offset + j.pageSize];
    }
  }

  // One page of the image: skipped, or sent.
  method FlashPage(link: Link, j: Job, offset: nat) returns (ok: bool)
    requires JobFits(j, link.board) && NoHandshake(link.inbox)
    requires offset % j.pageSize == 0 && offset + j.pageSize <= j.size
    modifies link.Footprint()
    ensures link.sent >= old(link.sent)
    ensures JobFits(j, link.board) && NoHandshake(link.inbox) && link.State().eeprom == old(link.State().eeprom)
    ensures Kept(j, old(link.State().flash), link.State().flash)
    ensures old(Ready(link)) ==>
              && (link.Reaches(old(link.sent)) ==>
                    && Ready(link)
                    && (ok && SkippedRight(j, old(link.State().flash))
                        && Flashed(j, old(link.State().flash), offset) ==>
                          Flashed(j, link.State().flash, offset + j.pageSize)))
              && (link.Clean(old(link.sent)) ==> ok)
  {
    var skip := false;
    if j.incremental {
      skip := PagesEqual(j, offset);
    }
    if skip {
      ghost var flash := link.State().flash;
      if SkippedRight(j, flash) && Flashed(j, flash, offset) {
        PageSkipped(j, flash, offset);
      }
      return true;
    }
    ok := SendPage(link, j.data, offset);
    PageWritten(j, old(link.State().flash), link.State().flash, offset);
  }

  // Pages before number `block` are done since frame `start`, when the flash was `was` and the board was
  // ready or not; the contents are right if those of the skipped pages were.
  ghost predicate Progress(link: Link, j: Job, start: nat, ready: bool, was: seq<bv8>, eeprom: seq<bv8>, block: nat)
    reads link.Footprint()
  {
    && link.sent >= start
    && JobFits(j, link.board) && NoHandshake(link.inbox) && link.State().eeprom == eeprom
    && Kept(j, was, link.State().flash)
    && (ready && link.Reaches(start) ==>
          && Ready(link)
          && (SkippedRight(j, was) ==>
                SkippedRight(j, link.State().flash) && Flashed(j, link.State().flash, block * j.pageSize)))
  }

  // A page was given up; what was done before stands.
  ghost predicate GivenUp(link: Link, j: Job, start: nat, ready: bool, was: seq<bv8>, eeprom: seq<bv8>)
    reads link.Footprint()
  {
    && link.sent >= start
    && JobFits(j, link.board) && NoHandshake(link.inbox) && link.State().eeprom == eeprom
    && Kept(j, was, link.State().flash)
    && (ready && link.Reaches(start) ==> Ready(link))
    && (ready ==> !link.Clean(start))
  }

  method FlashBlock(link: Link, j: Job, block: nat,
                    ghost start: nat, ghost ready: bool, ghost was: seq<bv8>, ghost eeprom: seq<bv8>) returns (ok: bool)
    requires j.pageSize > 0 && block < j.size / j.pageSize && Progress(link, j, start, ready, was, eeprom, block)
    modifies link.Footprint()
    ensures if ok then Progress(link, j, start, ready, was, eeprom, block + 1)
            else GivenUp(link, j, start, ready, was, eeprom)
  {
    PageBounds(j.size, j.pageSize, block);
    ghost var before, now := link.State().flash, link.sent;
    ok := FlashPage(link, j, block * j.pageSize);
    KeptTransitive(j, was, before, link.State().flash);
    KeptTransitive(j, before, before, link.State().flash);
  }

  // All pages of the image.
  method FlashImage(link: Link, j: Job) returns (ok: bool)
    requires JobFits(j, link.board) && NoHandshake(link.inbox)
    modifies link.Footprint()
    ensures link.sent >= old(link.sent)
    ensures JobFits(j, link.board) && NoHandshake(link.inbox) && link.State().eeprom == old(link.State().eeprom)
    ensures Kept(j, old(link.State().flash), link.State().flash)
    ensures old(Ready(link)) ==>
              && (link.Reaches(old(link.sent)) ==>
                    && Ready(link)
                    && (ok && SkippedRight(j, old(link.State().flash)) ==> Flashed(j, link.State().flash, j.size)))
              && (link.Clean(old(link.sent)) ==> ok)
  {
    ghost var start, ready := link.sent, Ready(link);
    ghost var was, eeprom := link.State().flash, link.State().eeprom;
    for block := 0 to j.size / j.pageSize
      invariant Progress(link, j, start, ready, was, eeprom, block)
    {
      ok := FlashBlock(link, j, block, start, ready, was, eeprom);
      if !ok {
        return;
      }
    }
    assert j.size / j.pageSize * j.pageSize == j.size;
    ok := true;
  }

  lemma PageBounds(size: nat, n: nat, block: nat)
    requires n > 0 && size % n == 0 && block < size / n
    ensures block * n + n <= size && (block * n) % n == 0 && (block + 1) * n == block * n + n
  {
    RemainderUnique(block, 0, n);
    assert size == size / n * n;
    assert (size / n - block - 1) * n >= 0;
  }

  // ---------- Checksum and EEPROM ----------

  lemma CrcOfFlash(s: BoardState, size: uint16)
    requires size <= |s.flash|
    ensures Crc(s.flash + s.past, size / 2) == Crc(s.flash, size / 2)
  {
    CrcPrefix(s.flash + s.past, s.flash, size / 2);
  }

  lemma CrcAnswered(s: BoardState, size: uint16)
    requires size <= |s.flash|
    ensures InBounds(s, CrcQuery(size / 0x100, size % 0x100))
    ensures s.mode != Application ==>
              && var (t, r) := React(s, CrcQuery(size / 0x100, size % 0x100));
              && t == s && r.Some? && r.value.CrcReply? && Join(r.value.high, r.value.low) == Crc(s.flash, size / 2)
  {
    CrcOfFlash(s, size);
    JoinBytes(Crc(s.flash, size / 2));
  }

  method LoadCrc(link: Link, size: uint16) returns (crc: Option<bv16>)
    requires link.board.Valid() && NoHandshake(link.inbox) && size <= link.board.flash.Length
    modifies link.Footprint()
    ensures link.sent > old(link.sent)
    ensures link.board.Valid() && NoHandshake(link.inbox)
    ensures link.State().flash == old(link.State().flash) && link.State().eeprom == old(link.State().eeprom)
    ensures old(Ready(link)) ==>
              && Ready(link)
              && (crc.Some? ==> crc.value == Crc(link.State().flash, size / 2))
              && (link.Clean(old(link.sent)) ==> crc.Some?)
  {
    CrcAnswered(link.State(), size);
    link.Send(CrcQuery(size / 0x100, size % 0x100));
    var reply := link.Receive();
    match reply
    case Some(CrcReply(high, low)) => crc := Some(Join(high, low));
    case _ => crc := None;
  }

  method WriteEeprom(link: Link, address: uint16, value: bv8) returns (ok: bool)
    requires link.board.Valid() && NoHandshake(link.inbox) && address < link.board.eeprom.Length
    modifies link.Footprint()
    ensures link.sent > old(link.sent)
    ensures link.board.Valid() && NoHandshake(link.inbox) && link.State().flash == old(link.State().flash)
    ensures old(Ready(link)) ==>
              && Ready(link)
              && (ok || link.Clean(old(link.sent)) ==>
                    ok && link.State().eeprom == old(link.State().eeprom)[address := value])
  {
    link.Send(EepromWrite(address % 0x100, address / 0x100, value));
    var reply := link.Receive();
    ok := reply == Some(EepromWriteAck);
  }

  // The checksum and the size of the firmware, low bytes first.
  method SaveCrc(link: Link, crc: bv16, size: uint16) returns (ok: bool)
    requires link.board.Valid() && NoHandshake(link.inbox)
    modifies link.Footprint()
    ensures link.sent > old(link.sent)
    ensures link.board.Valid() && NoHandshake(link.inbox) && link.State().flash == old(link.State().flash)
    ensures old(Ready(link)) ==>
              && Ready(link)
              && (ok ==> StoredCrc(link.State().eeprom) == crc && StoredSize(link.State().eeprom) == size)
              && (link.Clean(old(link.sent)) ==> ok)
  {
    WordOfBytes(size);
    JoinBytes(crc);
    ok := WriteEeprom(link, EEPR_FIRMWARE_CRC16, LowByte(crc));
    if !ok { return; }
    ok := WriteEeprom(link, EEPR_FIRMWARE_CRC16 + 1, HighByte(crc));
    if !ok { return; }
    ok := WriteEeprom(link, EEPR_FIRMWARE_SIZE, Byte(size));
    if !ok { return; }
    ok := WriteEeprom(link, EEPR_FIRMWARE_SIZE + 1, Byte(size / 0x100));
  }

  // ---------- The command ----------

  datatype Attempt = Finished | Mismatch | TimedOut

  // The board holds the image and accepts it.
  ghost predicate Accepted(j: Job, s: BoardState) {
    Flashed(j, s.flash, j.size) && FirmwareOk(s) && StoredSize(s.eeprom) == j.size
  }

  // How an attempt ends that began with frame `start`, when the flash was `was` and the board was ready or not.
  ghost predicate Tried(link: Link, j: Job, imageCrc: bv16, was: seq<bv8>, start: nat, ready: bool, outcome: Attempt)
    reads link.Footprint()
  {
    && link.sent >= start
    && JobFits(j, link.board) && NoHandshake(link.inbox) && Kept(j, was, link.State().flash)
    && (ready && link.Reaches(start) ==>
          && link.inbox == []
          && (outcome == Finished <==> link.State().mode == Application)
          && (outcome == Mismatch ==> Crc(link.State().flash, j.size / 2) != imageCrc)
          && (outcome != TimedOut && SkippedRight(j, was) ==> Flashed(j, link.State().flash, j.size)))
    && (ready && link.Clean(start) ==>
          && outcome == (if Crc(link.State().flash, j.size / 2) == imageCrc then Finished else Mismatch)
          && FirmwareOk(link.State()) && StoredSize(link.State().eeprom) == j.size)
  }

  // The board's checksum is stored and compared, if it is answered; then the application is started.
  method Conclude(link: Link, size: uint16, imageCrc: bv16) returns (outcome: Attempt)
    requires link.board.Valid() && NoHandshake(link.inbox) && size <= link.board.flash.Length
    modifies link.Footprint()
    ensures link.sent > old(link.sent)
    ensures link.board.Valid() && NoHandshake(link.inbox)
    ensures link.State().flash == old(link.State().flash) && outcome != TimedOut
    ensures old(Ready(link)) && link.Reaches(old(link.sent)) ==>
              && link.inbox == []
              && (outcome == Finished <==> link.State().mode == Application)
              && (outcome == Mismatch ==> Crc(link.State().flash, size / 2) != imageCrc)
    ensures old(Ready(link)) && link.Clean(old(link.sent)) ==>
              && outcome == (if Crc(link.State().flash, size / 2) == imageCrc then Finished else Mismatch)
              && FirmwareOk(link.State()) && StoredSize(link.State().eeprom) == size
  {
    var crc := LoadCrc(link, size);
    match crc {
      case None =>
      case Some(boardCrc) =>
        var ok := SaveCrc(link, boardCrc, size);
        CrcOfFlash(link.State(), size);
        if ok && boardCrc != imageCrc {
          return Mismatch;
        }
    }
    link.Send(LoadApp);
    return Finished;
  }

  method TryFlash(link: Link, j: Job, imageCrc: bv16) returns (outcome: Attempt)
    requires JobFits(j, link.board) && NoHandshake(link.inbox)
    modifies link.Footprint()
    ensures Tried(link, j, imageCrc, old(link.State().flash), old(link.sent), old(Ready(link)), outcome)
  {
    var ok := FlashImage(link, j);
    if !ok {
      return TimedOut;
    }
    outcome := Conclude(link, j.size, imageCrc);
  }

  // Resets the board and stops it in its bootloader.
  method EnterBootloader(link: Link) returns (ok: bool)
    requires link.board.Valid() && NoHandshake(link.inbox)
    modifies link.Footprint()
    ensures link.sent > old(link.sent)
    ensures link.board.Valid()
    ensures link.State().flash == old(link.State().flash) && link.State().eeprom == old(link.State().eeprom)
    ensures ok ==> Ready(link)
    ensures link.Clean(old(link.sent)) && old(link.inbox) == [] ==> ok
  {
    link.Send(DeviceReset);
    ghost var pending := link.inbox;
    assert pending != [] ==> pending[0] in pending;
    link.Send(BootStop);
    var reply := link.Receive();
    if reply != Some(BootStopAck) {
      return false;
    }
    link.Send(StateRequest);
    reply := link.Receive();
    ok := reply == Some(StateReply(true));
  }

  lemma SizeAligned(n: nat, pageSize: nat)
    requires pageSize == 128 || pageSize == 256
    requires n % pageSize == 0
    ensures (n % 0x1_0000) % pageSize == 0
  {
  }

  datatype Result = Done | TooLarge | CrcMismatch | ConnectionLost | Aborted

  // The attempts of a command: where each began and ended, in frame numbers.
  ghost predicate Attempts(starts: seq<nat>, ends: seq<nat>, from: nat, to: nat) {
    && |starts| == |ends| && from <= to
    && (starts != [] ==> starts[0] == from && ends[|ends| - 1] <= to)
    && (forall i :: 0 <= i < |starts| ==> from <= starts[i] <= ends[i])
    && (forall i :: 0 <= i < |starts| - 1 ==> ends[i] <= starts[i + 1])
  }

  // Each of the attempts lost a frame.
  ghost predicate AllLossy(link: Link, starts: seq<nat>, ends: seq<nat>)
    requires |starts| == |ends|
  {
    forall i :: 0 <= i < |starts| ==> !link.Lossless(starts[i], ends[i])
  }

  // What the last attempt leaves behind when it met no loss.
  ghost predicate CleanEnd(j: Job, s: BoardState, imageCrc: bv16, result: Result, right: bool) {
    && j.size <= |s.flash|
    && result == (if Crc(s.flash, j.size / 2) == imageCrc then Done else CrcMismatch)
    && (result == Done <==> s.mode == Application)
    && FirmwareOk(s) && StoredSize(s.eeprom) == j.size
    && (right ==> Flashed(j, s.flash, j.size))
  }

  // The attempts so far were all given up, and the board stands in its bootloader again.
  ghost predicate Trying(link: Link, j: Job, was: seq<bv8>, from: nat, ready: bool, starts: seq<nat>, ends: seq<nat>)
    reads link.Footprint()
  {
    && JobFits(j, link.board) && NoHandshake(link.inbox) && Kept(j, was, link.State().flash)
    && Attempts(starts, ends, from, link.sent)
    && (if starts == [] then link.sent == from && Ready(link) == ready else Ready(link))
    && (ready ==> AllLossy(link, starts, ends))
  }

  // How a row of attempts ends, when the flash was `was` before it and the board was ready or not.
  ghost predicate Ended(link: Link, j: Job, imageCrc: bv16, was: seq<bv8>, from: nat, ready: bool,
                        starts: seq<nat>, ends: seq<nat>, result: Result)
    reads link.Footprint()
  {
    && link.board.Valid() && j.pageSize > 0 && Kept(j, was, link.State().flash) && result != TooLarge
    && Attempts(starts, ends, from, link.sent) && 0 < |starts| <= 3 && (result == ConnectionLost ==> |starts| == 3)
    && var n := |starts| - 1;
       (ready ==>
          && AllLossy(link, starts[..n], ends[..n])
          && (result == ConnectionLost || result == Aborted ==> AllLossy(link, starts, ends))
          && (result == Aborted ==> !link.Lossless(ends[n], link.sent) || !link.Reaches(starts[n]))
          && (link.Clean(starts[n]) ==> CleanEnd(j, link.State(), imageCrc, result, SkippedRight(j, was)))
          && (link.Reaches(starts[n]) && result == Done ==>
                link.State().mode == Application
                && (SkippedRight(j, was) ==> Flashed(j, link.State().flash, j.size))))
  }

  lemma AttemptEnds(link: Link, j: Job, imageCrc: bv16, was: seq<bv8>, before: seq<bv8>, from: nat, start: nat,
                    ready: bool, now: bool, starts: seq<nat>, ends: seq<nat>, outcome: Attempt)
    requires j.pageSize > 0 && Kept(j, was, before) && Tried(link, j, imageCrc, before, start, now, outcome)
    requires Attempts(starts, ends, from, start) && |starts| < 3 && (starts == [] ==> start == from)
    requires ready ==> now && AllLossy(link, starts, ends)
    requires outcome != TimedOut
    ensures Ended(link, j, imageCrc, was, from, ready, starts + [start], ends + [link.sent],
                  if outcome == Finished then Done else CrcMismatch)
  {
    KeptTransitive(j, was, was, before);
    KeptTransitive(j, was, before, link.State().flash);
    assert (starts + [start])[..|starts|] == starts && (ends + [link.sent])[..|starts|] == ends;
  }

  // An attempt that was given up, followed by a handshake that left the flash alone.
  lemma AttemptGivenUp(link: Link, j: Job, imageCrc: bv16, was: seq<bv8>, from: nat, start: nat, ended: nat,
                       ready: bool, starts: seq<nat>, ends: seq<nat>, ok: bool)
    requires JobFits(j, link.board) && Kept(j, was, link.State().flash)
    requires Attempts(starts, ends, from, start) && |starts| < 3 && (starts == [] ==> start == from)
    requires start <= ended <= link.sent
    requires ready ==> AllLossy(link, starts, ends) && !link.Lossless(start, ended)
    requires ok ==> Ready(link)
    requires !ok && ready ==> !link.Lossless(ended, link.sent) || !link.Reaches(start)
    ensures if ok then Trying(link, j, was, from, ready, starts + [start], ends + [ended])
            else Ended(link, j, imageCrc, was, from, ready, starts + [start], ends + [ended], Aborted)
  {
    assert (starts + [start])[..|starts|] == starts && (ends + [ended])[..|starts|] == ends;
  }

  // One attempt; if it was given up, the board is stopped in its bootloader for the next one.
  method NextAttempt(link: Link, j: Job, imageCrc: bv16, ghost was: seq<bv8>, ghost from: nat, ghost ready: bool,
                     ghost starts: seq<nat>, ghost ends: seq<nat>)
    returns (result: Option<Result>, ghost ended: nat)
    requires Trying(link, j, was, from, ready, starts, ends) && |starts| < 3
    modifies link.Footprint()
    ensures result.None? ==> Trying(link, j, was, from, ready, starts + [old(link.sent)], ends + [ended])
    ensures result.Some? ==>
              && result.value != ConnectionLost
              && Ended(link, j, imageCrc, was, from, ready, starts + [old(link.sent)], ends + [ended], result.value)
  {
    ghost var before, start, now := link.State().flash, link.sent, Ready(link);
    var outcome := TryFlash(link, j, imageCrc);
    ended := link.sent;
    if outcome != TimedOut {
      AttemptEnds(link, j, imageCrc, was, before, from, start, ready, now, starts, ends, outcome);
      return Some(if outcome == Finished then Done else CrcMismatch), ended;
    }
    KeptTransitive(j, was, before, link.State().flash);
    var ok := EnterBootloader(link);
    AttemptGivenUp(link, j, imageCrc, was, from, start, ended, ready, starts, ends, ok);
    result := if ok then None else Some(Aborted);
  }

  // Up to three attempts: the next one is made exactly when one was given up after a loss and the board
  // could be stopped in its bootloader again.
  method FlashWithRetries(link: Link, j: Job, imageCrc: bv16)
    returns (result: Result, ghost starts: seq<nat>, ghost ends: seq<nat>)
    requires JobFits(j, link.board) && NoHandshake(link.inbox)
    modifies link.Footprint()
    ensures Ended(link, j, imageCrc, old(link.State().flash), old(link.sent), old(Ready(link)), starts, ends, result)
  {
    ghost var was, from, ready := link.State().flash, link.sent, Ready(link);
    starts, ends := [], [];
    var tries := 3;
    while tries > 0
      invariant 0 <= tries <= 3 && |starts| == 3 - tries
      invariant Trying(link, j, was, from, ready, starts, ends)
    {
      ghost var now := link.sent;
      var outcome, ended := NextAttempt(link, j, imageCrc, was, from, ready, starts, ends);
      starts, ends := starts + [now], ends + [ended];
      if outcome.Some? {
        return outcome.value, starts, ends;
      }
      tries := tries - 1;
    }
    return ConnectionLost, starts, ends;
  }

  // When the host loses no frame and no reply is lost after the first attempt, there is at most one more
  // attempt and the command comes to an end by itself.
  lemma LostReplyRetried(link: Link, j: Job, imageCrc: bv16, was: seq<bv8>, from: nat,
                         starts: seq<nat>, ends: seq<nat>, result: Result)
    requires Ended(link, j, imageCrc, was, from, true, starts, ends, result)
    requires link.Reaches(from) && link.Lossless(ends[0], link.sent)
    ensures |starts| <= 2 && (result == Done || result == CrcMismatch)
    ensures |starts| == 2 ==> CleanEnd(j, link.State(), imageCrc, result, SkippedRight(j, was))
  {
    var n := |starts| - 1;
    if n > 0 {
      assert link.Clean(starts[n]);
    }
  }

  // The checksum of as much of the flash as the image is long.
  ghost function BoardCrc(s: BoardState, j: Job): bv16 {
    if j.size <= |s.flash| then Crc(s.flash, j.size / 2) else 0
  }

  // Before the first attempt of incremental flashing, the board is stopped in its bootloader and, if
  // there is a cached image, its checksum compared with that of the image.
  method ChooseMode(link: Link, j: Job, cachedCrc: Option<bv16>) returns (ok: bool, incremental: bool)
    requires JobFits(j, link.board) && NoHandshake(link.inbox)
    modifies link.Footprint()
    ensures link.board.Valid() && link.sent > old(link.sent) && link.State().flash == old(link.State().flash)
    ensures ok ==> && Ready(link)
                   && (incremental <==> cachedCrc == Some(BoardCrc(link.State(), j)))
    ensures link.Clean(old(link.sent)) && old(link.inbox) == [] ==> ok
  {
    ok := EnterBootloader(link);
    incremental := false;
    if ok && cachedCrc.Some? {
      var boardCrc := LoadCrc(link, j.size);
      ok := boardCrc.Some?;
      incremental := boardCrc == cachedCrc;
    }
  }

  // `cached` is the image flashed last time, if the host has one, and its checksum; it matters in
  // incremental flashing only.
  method CmdFlash(link: Link, data: seq<bv8>, imageCrc: bv16, maxSize: uint16,
                  incrementalFlash: bool, cached: Option<(seq<bv8>, bv16)>, stray: bv8)
    returns (result: Result, ghost j: Job, ghost starts: seq<nat>, ghost ends: seq<nat>)
    requires link.board.Valid() && NoHandshake(link.inbox)
    requires maxSize <= link.board.flash.Length && |data| % link.board.pageSize == 0
    modifies link.Footprint()
    ensures link.board.Valid() && j.pageSize == link.board.pageSize
    ensures j.data == data && j.size == |data| % 0x1_0000
    ensures result == TooLarge <==> j.size > maxSize
    ensures result == TooLarge ==> link.State() == old(link.State()) && link.sent == old(link.sent)
    ensures Kept(j, old(link.State().flash), link.State().flash)
    ensures result != TooLarge && starts == [] ==>
              && result == Aborted && incrementalFlash && link.State().flash == old(link.State().flash)
              && (old(link.inbox) != [] || !link.Clean(old(link.sent)))
    ensures starts != [] ==>
              && (if incrementalFlash then old(link.sent) < starts[0] else old(link.sent) == starts[0])
              && Ended(link, j, imageCrc, old(link.State().flash), starts[0], incrementalFlash || old(Ready(link)),
                       starts, ends, result)
              && (j.incremental <==>
                    incrementalFlash && cached.Some? && BoardCrc(old(link.State()), j) == cached.value.1)
              && (j.incremental ==> j.cached == cached.value.0)
  {
    var size: uint16 := |data| % 0x1_0000;
    var job := Job(data, size, link.board.pageSize, false, [], stray);
    j, starts, ends := job, [], [];
    SizeAligned(|data|, link.board.pageSize);
    if size > maxSize {
      result := TooLarge;
      return;
    }
    if incrementalFlash {
      var ok, incremental := ChooseMode(link, job, if cached.Some? then Some(cached.value.1) else None);
      if !ok {
        result := Aborted;
        return;
      }
      if incremental {
        job := job.(incremental := true, cached := cached.value.0);
      }
    }
    j := job;
    result, starts, ends := FlashWithRetries(link, job, imageCrc);
  }
}
