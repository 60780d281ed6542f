// The whole flash command: from the records of a hex file to the flash of the board.
module FlashCommand {
  import opened Words
  import opened Crc16
  import opened HexFile
  import opened Bootloader
  import opened FlashLink
  import opened FlashDriver
  import opened Wrappers

  // What loading the records yields: the data bytes, then FFh up to a page boundary.
  ghost predicate PaddedTo(records: seq<Record>, pageSize: uint16, data: seq<bv8>)
    requires pageSize > 0
  {
    var payload := Payload(records);
    && |payload| < |data| <= |payload| + pageSize && |data| % pageSize == 0
    && data[..|payload|] == payload
    && forall k :: |payload| <= k < |data| ==> data[k] == 0xFF
  }

  method LoadHex(records: seq<Record>, pageSize: uint16) returns (data: seq<bv8>, crc: bv16)
    requires pageSize > 0 && PaddingEnds(|Payload(records)|, pageSize)
    ensures PaddedTo(records, pageSize, data) && crc == Crc(data, |data| / 2)
  {
    var image := new Image();
    image.Load(records, pageSize);
    crc := image.Checksum();
    data := image.data;
  }

  // The board holds what the cached records are padded to.
  ghost predicate HoldsImage(flash: seq<bv8>, data: seq<bv8>) {
    |data| <= |flash| && flash[..|data|] == data
  }

  // A skipped page is right: nothing is skipped, or the board holds the cached image.  Pages are skipped
  // only when the checksums of the board and of the cached image agree.
  ghost predicate SkippingIsSafe(s: BoardState, size: nat, incrementalFlash: bool, cached: Option<seq<bv8>>) {
    size <= |s.flash| && incrementalFlash && cached.Some? ==>
      || Crc(s.flash, size / 2) != Crc(cached.value, |cached.value| / 2)
      || (|cached.value| == size && HoldsImage(s.flash, cached.value))
  }

  // The board holds the image, its firmware check accepts it, and the application runs.
  ghost predicate Runs(s: BoardState, data: seq<bv8>) {
    HoldsImage(s.flash, data) && FirmwareOk(s) && StoredSize(s.eeprom) == |data| && s.mode == Application
  }

  // The handshake of incremental flashing brings any board into its bootloader if no old reply is pending.
  ghost predicate CanBegin(link: Link, incrementalFlash: bool)
    reads link.Footprint()
  {
    if incrementalFlash then link.inbox == [] else Ready(link)
  }

  // `cachedRecords` are those of the image flashed last time.  On a link that loses nothing, an image of
  // less than 64 KB that is not refused stands in flash afterwards, and the board runs it.
  method FlashRecords(link: Link, records: seq<Record>, maxSize: uint16,
                      incrementalFlash: bool, cachedRecords: Option<seq<Record>>, stray: bv8)
    returns (result: Result, ghost data: seq<bv8>, ghost cached: Option<seq<bv8>>)
    requires link.board.Valid() && NoHandshake(link.inbox) && maxSize <= link.board.flash.Length
    requires PaddingEnds(|Payload(records)|, link.board.pageSize)
    requires cachedRecords.Some? ==> PaddingEnds(|Payload(cachedRecords.value)|, link.board.pageSize)
    modifies link.Footprint()
    ensures link.board.Valid() && PaddedTo(records, link.board.pageSize, data)
    ensures if cachedRecords.None? then cached.None?
            else cached.Some? && PaddedTo(cachedRecords.value, link.board.pageSize, cached.value)
    ensures |data| < 0x1_0000 ==> (result == TooLarge <==> |data| > maxSize)
    ensures |data| < 0x1_0000 && result != TooLarge && old(CanBegin(link, incrementalFlash))
            && link.Clean(old(link.sent)) && old(SkippingIsSafe(link.State(), |data|, incrementalFlash, cached)) ==>
              result == Done && Runs(link.State(), data)
  {
    var image, crc := LoadHex(records, link.board.pageSize);
    var pair: Option<(seq<bv8>, bv16)> := None;
    cached := None;
    if cachedRecords.Some? {
      var bytes, cachedCrc := LoadHex(cachedRecords.value, link.board.pageSize);
      pair, cached := Some((bytes, cachedCrc)), Some(bytes);
    }
    data := image;
    result := FlashImages(link, image, crc, maxSize, incrementalFlash, pair, stray);
  }

  method FlashImages(link: Link, data: seq<bv8>, crc: bv16, maxSize: uint16,
                     incrementalFlash: bool, pair: Option<(seq<bv8>, bv16)>, stray: bv8) returns (result: Result)
    requires link.board.Valid() && NoHandshake(link.inbox) && maxSize <= link.board.flash.Length
    requires |data| % link.board.pageSize == 0 && crc == Crc(data, |data| / 2)
    requires pair.Some? ==> pair.value.1 == Crc(pair.value.0, |pair.value.0| / 2)
    modifies link.Footprint()
    ensures link.board.Valid()
    ensures |data| < 0x1_0000 ==> (result == TooLarge <==> |data| > maxSize)
    ensures |data| < 0x1_0000 && result != TooLarge && old(CanBegin(link, incrementalFlash))
            && link.Clean(old(link.sent))
            && old(SkippingIsSafe(link.State(), |data|, incrementalFlash, ImageOf(pair))) ==>
              result == Done && Runs(link.State(), data)
  {
    ghost var s, start, begins := link.State(), link.sent, CanBegin(link, incrementalFlash);
    ghost var j, starts, ends;
    result, j, starts, ends := CmdFlash(link, data, crc, maxSize, incrementalFlash, pair, stray);
    if |data| < 0x1_0000 {
      SmallSize(|data|);
      if result != TooLarge && begins && link.Clean(start)
         && SkippingIsSafe(s, |data|, incrementalFlash, ImageOf(pair)) {
        SkippedPagesRight(j, s, incrementalFlash, ImageOf(pair));
        CleanFlash(link, j, crc, s.flash, starts, ends, result);
      }
    }
  }

  function ImageOf(pair: Option<(seq<bv8>, bv16)>): Option<seq<bv8>> {
    if pair.Some? then Some(pair.value.0) else None
  }

  lemma SmallSize(n: nat)
    requires n < 0x1_0000
    ensures n % 0x1_0000 == n
  {
  }

  // Attempts that lost nothing end with the image in flash and the application running.
  lemma CleanFlash(link: Link, j: Job, imageCrc: bv16, was: seq<bv8>, starts: seq<nat>, ends: seq<nat>, result: Result)
    requires starts != [] && Ended(link, j, imageCrc, was, starts[0], true, starts, ends, result)
    requires link.Clean(starts[0]) && SkippedRight(j, was)
    requires j.size == |j.data| && imageCrc == Crc(j.data, |j.data| / 2)
    ensures result == Done && Runs(link.State(), j.data)
  {
    var n, s := |starts| - 1, link.State();
    assert link.Clean(starts[n]);
    assert CleanEnd(j, s, imageCrc, result, true);
    assert s.flash[..j.size] == j.data[..j.size] == j.data;
    CrcPrefix(s.flash, j.data, j.size / 2);
  }

  lemma SkippedPagesRight(j: Job, s: BoardState, incrementalFlash: bool, cached: Option<seq<bv8>>)
    requires j.pageSize > 0 && j.size <= |s.flash| && SkippingIsSafe(s, j.size, incrementalFlash, cached)
    requires j.incremental ==>
               && incrementalFlash && cached == Some(j.cached)
               && Crc(s.flash, j.size / 2) == Crc(j.cached, |j.cached| / 2)
    ensures SkippedRight(j, s.flash)
  {
    if j.incremental {
      CachedIsRight(j, s.flash);
    }
  }
}
