// The bootloader of a board: its command loop, flash pages and firmware check.
module Bootloader {
  import opened Words
  import opened Crc16
  import opened Wrappers

  const EEPR_FIRMWARE_CRC16 := 16
  const EEPR_FIRMWARE_SIZE := 18

  datatype Message =
    | BufferFill(index: uint8, bytes: seq<bv8>)
    | BufferWrite(low: uint8, high: uint8)
    | EepromWrite(low: uint8, high: uint8, value: bv8)
    | CrcQuery(high: uint8, low: uint8)
    | DeviceReset
    | BootStop
    | StateRequest
    | LoadApp

  datatype Reply =
    | FillAck
    | WriteAck
    | EepromWriteAck
    | CrcReply(high: bv8, low: bv8)
    | BootStopAck
    | StateReply(bootloader: bool)

  datatype Mode = Booting | Stopped | Application

  function Byte(n: uint16): bv8 {
    (n % 0x100) as bv8
  }

  function Word(low: bv8, high: bv8): uint16 {
    (low as int) + 0x100 * (high as int)
  }

  lemma WordOfBytes(n: uint16)
    ensures Word(Byte(n), Byte(n / 0x100)) == n
  {
    ByteValue(n % 0x100);
    ByteValue(n / 0x100);
  }

  function HighByte(w: bv16): bv8 { (w >> 8) as bv8 }

  function LowByte(w: bv16): bv8 { (w & 0xFF) as bv8 }

  function Join(high: bv8, low: bv8): bv16 { ((high as bv16) << 8) | (low as bv16) }

  lemma JoinBytes(w: bv16)
    ensures Join(HighByte(w), LowByte(w)) == w
  {
  }

  // The board as a value; `past` is what reads past the end of the flash return.
  datatype BoardState = BoardState(flash: seq<bv8>, past: seq<bv8>, eeprom: seq<bv8>, buffer: seq<bv8>,
                                   lineCounter: uint16, mode: Mode)

  // What the hardware and the buffer expect of a message.
  predicate InBounds(s: BoardState, m: Message) {
    var pageSize := |s.buffer|;
    match m
    case BufferFill(index, bytes) => |bytes| == 4 && index + 4 <= pageSize
    case BufferWrite(low, high) =>
      pageSize > 0 && (low + 0x100 * high) % pageSize == 0 && low + 0x100 * high + pageSize <= |s.flash|
    case EepromWrite(low, high, _) => low + 0x100 * high < |s.eeprom|
    case CrcQuery(high, low) => high * 0x100 + low <= |s.flash + s.past|
    case _ => true
  }

  function Spliced(s: seq<bv8>, at: nat, part: seq<bv8>): seq<bv8>
    requires at + |part| <= |s|
  {
    s[..at] + part + s[at + |part|..]
  }

  // One round of the command loop; once the application runs, only a reset is heard.
  function React(s: BoardState, m: Message): (BoardState, Option<Reply>)
    requires InBounds(s, m)
  {
    if m.DeviceReset? then (s.(lineCounter := 0, mode := Booting), None)
    else if s.mode == Application then (s, None)
    else
      match m
      case BufferFill(index, bytes) =>
        var count := ((if index % 16 == 0 then 0 else s.lineCounter) + 4) % 0x1_0000;
        (s.(buffer := Spliced(s.buffer, index, bytes), lineCounter := count),
         if count >= 16 then Some(FillAck) else None)
      case BufferWrite(low, high) =>
        (s.(flash := Spliced(s.flash, low + 0x100 * high, s.buffer)), Some(WriteAck))
      case EepromWrite(low, high, value) =>
        (s.(eeprom := s.eeprom[low + 0x100 * high := value]), Some(EepromWriteAck))
      case CrcQuery(high, low) =>
        var crc := Crc(s.flash + s.past, (high * 0x100 + low) / 2);
        (s, Some(CrcReply(HighByte(crc), LowByte(crc))))
      case BootStop => (s.(mode := Stopped), Some(BootStopAck))
      case StateRequest => (s, Some(StateReply(s.mode == Stopped)))
      case LoadApp => (s.(mode := Application), None)
      case DeviceReset => (s, None)
  }

  // What the two EEPROM words say about the firmware, and whether the flash agrees.
  function StoredSize(eeprom: seq<bv8>): uint16
    requires |eeprom| >= 20
  {
    Word(eeprom[EEPR_FIRMWARE_SIZE], eeprom[EEPR_FIRMWARE_SIZE + 1])
  }

  function StoredCrc(eeprom: seq<bv8>): bv16
    requires |eeprom| >= 20
  {
    Join(eeprom[EEPR_FIRMWARE_CRC16 + 1], eeprom[EEPR_FIRMWARE_CRC16])
  }

  predicate FirmwareOk(s: BoardState) {
    |s.eeprom| >= 20 && StoredSize(s.eeprom) <= |s.flash + s.past| &&
    Crc(s.flash + s.past, StoredSize(s.eeprom) / 2) == StoredCrc(s.eeprom)
  }

  class Board {
    const pageSize: uint16
    const flash: array<bv8>
    const eeprom: array<bv8>
    const buffer: array<bv8>
    const past: seq<bv8>
    var lineCounter: uint16
    var mode: Mode

    constructor (pageSize: uint16, flash: array<bv8>, past: seq<bv8>, eeprom: array<bv8>)
      requires pageSize == 128 || pageSize == 256
      requires pageSize <= flash.Length <= 0x1_0000 && flash.Length % pageSize == 0
      requires flash.Length + |past| == 0x1_0000
      requires 20 <= eeprom.Length && flash != eeprom
      ensures this.pageSize == pageSize && this.flash == flash && this.past == past && this.eeprom == eeprom
      ensures Valid() && fresh(buffer)
    {
      this.pageSize, this.flash, this.past, this.eeprom := pageSize, flash, past, eeprom;
      buffer := new bv8[pageSize];
      lineCounter, mode := 0, Booting;
    }

    predicate Valid() {
      && (pageSize == 128 || pageSize == 256)
      && pageSize <= flash.Length <= 0x1_0000 && flash.Length % pageSize == 0
      && flash.Length + |past| == 0x1_0000
      && 20 <= eeprom.Length && buffer.Length == pageSize
      && flash != eeprom && buffer != flash && buffer != eeprom
    }

    ghost function Snapshot(): BoardState
      reads this, flash, eeprom, buffer
    {
      BoardState(flash[..], past, eeprom[..], buffer[..], lineCounter, mode)
    }

    method Fill(index: uint8, bytes: seq<bv8>) returns (reply: Option<Reply>)
      requires Valid() && |bytes| == 4 && index + 4 <= pageSize
      modifies this`lineCounter, buffer
      ensures buffer[..] == Spliced(old(buffer[..]), index, bytes)
      ensures lineCounter == ((if index % 16 == 0 then 0 else old(lineCounter)) + 4) % 0x1_0000
      ensures reply == if lineCounter >= 16 then Some(FillAck) else None
    {
      if index % 16 == 0 {
        lineCounter := 0;
      }
      for i := 0 to 4
        invariant lineCounter == if index % 16 == 0 then 0 else old(lineCounter)
        invariant forall k :: 0 <= k < i ==> buffer[index + k] == bytes[k]
        invariant forall k :: 0 <= k < buffer.Length && !(index <= k < index + i) ==> buffer[k] == old(buffer[k])
      {
        buffer[index + i] := bytes[i];
      }
      lineCounter := (lineCounter + 4) % 0x1_0000;
      reply := if lineCounter >= 16 then Some(FillAck) else None;
    }

    method WritePage(addr: nat)
      requires Valid() && addr + pageSize <= flash.Length
      modifies flash
      ensures flash[..] == Spliced(old(flash[..]), addr, buffer[..])
    {
      for i := 0 to pageSize
        invariant forall k :: 0 <= k < i ==> flash[addr + k] == buffer[k]
        invariant forall k :: 0 <= k < flash.Length && !(addr <= k < addr + i) ==> flash[k] == old(flash[k])
      {
        flash[addr + i] := buffer[i];
      }
    }

    method ReadFlash(p: uint16) returns (b: bv8)
      requires Valid()
      ensures b == (flash[..] + past)[p]
    {
      b := if p < flash.Length then flash[p] else past[p - flash.Length];
    }

    method ChecksumOverFlash(size: uint16) returns (crc: bv16)
      requires Valid()
      ensures crc == Crc(flash[..] + past, size / 2)
    {
      crc := 0xFFFF;
      var p := 0;
      for i := 0 to size / 2
        invariant p == 2 * i && crc == Crc(flash[..] + past, i)
      {
        var low := ReadFlash(p);
        var high := ReadFlash(p + 1);
        crc := CrcUpdate(crc, high);
        crc := CrcUpdate(crc, low);
        p := p + 2;
      }
    }

    // Whatever size an EEPROM holds, also an erased one.
    method CheckFirmware() returns (ok: bool)
      requires Valid()
      ensures ok <==> FirmwareOk(Snapshot())
    {
      var crc := ChecksumOverFlash(StoredSize(eeprom[..]));
      ok := crc == StoredCrc(eeprom[..]);
    }

    method Handle(m: Message) returns (reply: Option<Reply>)
      requires Valid() && InBounds(Snapshot(), m)
      modifies this, buffer, flash, eeprom
      ensures (Snapshot(), reply) == React(old(Snapshot()), m)
    {
      if m.DeviceReset? {
        lineCounter := 0;
        mode := Booting;
        return None;
      }
      if mode == Application {
        return None;
      }
      match m
      case BufferFill(index, bytes) =>
        reply := Fill(index, bytes);
      case BufferWrite(low, high) =>
        WritePage(low + 0x100 * high);
        reply := Some(WriteAck);
      case EepromWrite(low, high, value) =>
        eeprom[low + 0x100 * high] := value;
        reply := Some(EepromWriteAck);
      case CrcQuery(high, low) =>
        var crc := ChecksumOverFlash(high * 0x100 + low);
        reply := Some(CrcReply(HighByte(crc), LowByte(crc)));
      case BootStop =>
        mode := Stopped;
        reply := Some(BootStopAck);
      case StateRequest =>
        reply := Some(StateReply(mode == Stopped));
      case LoadApp =>
        mode := Application;
        reply := None;
    }
  }
}
