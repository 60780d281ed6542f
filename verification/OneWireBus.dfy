// The 1-Wire bus as the search procedure sees it: devices with 64-bit ROM codes that answer
// read slots with a wired AND and drop out of a search on a mismatching write slot.
module OneWireBus {
  // A ROM code in transmission order: byte 0 first, least significant bit first.
  type Rom = s: seq<bool> | |s| == 64 witness seq(64, _ => false)

  const SEARCH_ROM: bv8 := 0xF0
  const SEARCH_BITS := [false, false, false, false, true, true, true, true]

  datatype Slot = ReadBit | ReadComplement | WriteBit

  datatype Mode = Command(received: seq<bool>) | Search(pos: nat, slot: Slot) | Idle

  datatype BusState = BusState(mode: Mode, active: set<Rom>)

  // The bits of a byte, least significant first.
  function ByteBits(b: bv8): (bits: seq<bool>)
    ensures |bits| == 8
  {
    [b & 0x01 != 0, b & 0x02 != 0, b & 0x04 != 0, b & 0x08 != 0,
     b & 0x10 != 0, b & 0x20 != 0, b & 0x40 != 0, b & 0x80 != 0]
  }

  // `*id >>= 1` followed by `*id |= 0x80` when c is set.
  function ShiftIn(b: bv8, c: bool): bv8 {
    if c then (b >> 1) | 0x80 else b >> 1
  }

  lemma ShiftInBits(b: bv8, c: bool)
    ensures ByteBits(b)[0] == (b & 0x01 != 0)
    ensures ByteBits(ShiftIn(b, c)) == ByteBits(b)[1..] + [c]
  {
  }

  lemma ByteBitsInjective(a: bv8, b: bv8)
    requires ByteBits(a) == ByteBits(b)
    ensures a == b
  {
    var x, y := ByteBits(a), ByteBits(b);
    assert x[0] == y[0] && x[1] == y[1] && x[2] == y[2] && x[3] == y[3];
    assert x[4] == y[4] && x[5] == y[5] && x[6] == y[6] && x[7] == y[7];
  }

  // One time slot: the master offers `bit` (a 1 is a read slot), `here` are the devices
  // plugged in at this moment.  The result is the level the master samples.
  function TimeSlot(s: BusState, here: set<Rom>, bit: bool): (BusState, bool) {
    var listeners := s.active * here;
    match s.mode
    case Idle => (BusState(Idle, listeners), bit)
    case Command(received) =>
      (BusState(CommandMode(received + [bit]), listeners), bit)
    case Search(pos, slot) =>
      if pos >= 64 then (BusState(Idle, listeners), bit) else
      match slot
      case ReadBit =>
        (BusState(Search(pos, ReadComplement), listeners), bit && forall d <- listeners :: d[pos])
      case ReadComplement =>
        (BusState(Search(pos, WriteBit), listeners), bit && forall d <- listeners :: !d[pos])
      case WriteBit =>
        (BusState(if pos == 63 then Idle else Search(pos + 1, ReadBit),
                  set d <- listeners | d[pos] == bit), bit)
  }

  class Bus {
    // The devices plugged in at each moment.
    const attached: nat -> set<Rom>
    var clock: nat
    var state: BusState

    constructor (attached: nat -> set<Rom>)
      ensures this.attached == attached && clock == 0
    {
      this.attached := attached;
      clock, state := 0, BusState(Idle, {});
    }

    // Devices may be unplugged while the bus is in use, but none is added.
    ghost predicate OnlyUnplugged() {
      forall t, u :: 0 <= t <= u ==> attached(u) <= attached(t)
    }

    // Returns true when no presence pulse was seen.
    method Reset() returns (absent: bool)
      modifies this
      ensures clock == old(clock) + 1
      ensures absent <==> attached(old(clock)) == {}
      ensures state == BusState(Command([]), attached(old(clock)))
    {
      absent := attached(clock) == {};
      state := BusState(Command([]), attached(clock));
      clock := clock + 1;
    }

    method BitIO(bit: bool) returns (r: bool)
      modifies this
      ensures clock == old(clock) + 1
      ensures (state, r) == TimeSlot(old(state), attached(old(clock)), bit)
    {
      var after := TimeSlot(state, attached(clock), bit);
      state, r := after.0, after.1;
      clock := clock + 1;
    }

    // Eight slots; after a reset they are a command, and the devices that hear all of it take part.
    method WriteByte(b: bv8) returns (r: bv8)
      modifies this
      ensures clock == old(clock) + 8
      ensures (state, r) == Exchanged(old(state), attached, old(clock), b, 8)
      ensures old(state.mode) == Command([]) && OnlyUnplugged() ==>
                && state.mode == (if b == SEARCH_ROM then Search(0, ReadBit) else Idle)
                && state.active == old(state.active) * attached(clock - 1) && r == b
    {
      r := b;
      var i := 8;
      while i > 0
        invariant 0 <= i <= 8 && clock == old(clock) + 8 - i
        invariant (state, r) == Exchanged(old(state), attached, old(clock), b, 8 - i)
      {
        var j := BitIO(r & 0x01 != 0);
        r := ShiftIn(r, j);
        i := i - 1;
      }
      if old(state.mode) == Command([]) && OnlyUnplugged() {
        CommandHeard(old(state), attached, old(clock), b, 8);
        RotatedBits(b);
        SentCommand(b);
      }
    }
  }

  // The bus and the byte after k bits of the byte have been sent and read back from time t on.
  ghost function Exchanged(s: BusState, attached: nat -> set<Rom>, t: nat, b: bv8, k: nat): (BusState, bv8) {
    if k == 0 then (s, b)
    else
      var (before, byte) := Exchanged(s, attached, t, b, k - 1);
      var (after, level) := TimeSlot(before, attached(t + k - 1), byte & 0x01 != 0);
      (after, ShiftIn(byte, level))
  }

  lemma {:induction false} CommandHeard(s: BusState, attached: nat -> set<Rom>, t: nat, b: bv8, k: nat)
    requires s.mode == Command([]) && k <= 8
    requires forall u, v :: 0 <= u <= v ==> attached(v) <= attached(u)
    ensures var (after, byte) := Exchanged(s, attached, t, b, k);
            && byte == Rotated(b, k) && after.mode == CommandMode(SentBits(b, k))
            && after.active == if k == 0 then s.active else s.active * attached(t + k - 1)
  {
    if k > 0 {
      CommandHeard(s, attached, t, b, k - 1);
      assert k > 1 ==> attached(t + k - 1) <= attached(t + k - 2);
    }
  }

  // The mode of the devices once they have received some bits of a command.
  function CommandMode(received: seq<bool>): Mode {
    if |received| < 8 then Command(received)
    else if received == SEARCH_BITS then Search(0, ReadBit)
    else Idle
  }

  // The byte after k of its bits have been sent and read back.
  ghost function Rotated(b: bv8, k: nat): bv8 {
    if k == 0 then b else ShiftIn(Rotated(b, k - 1), Rotated(b, k - 1) & 0x01 != 0)
  }

  // The first k bits on the wire.
  ghost function SentBits(b: bv8, k: nat): (bits: seq<bool>)
    ensures |bits| == k
  {
    if k == 0 then [] else SentBits(b, k - 1) + [Rotated(b, k - 1) & 0x01 != 0]
  }

  lemma RotatedBits(b: bv8)
    ensures Rotated(b, 1) == (b >> 1) | (b << 7)
    ensures Rotated(b, 2) == (b >> 2) | (b << 6)
    ensures Rotated(b, 3) == (b >> 3) | (b << 5)
    ensures Rotated(b, 4) == (b >> 4) | (b << 4)
    ensures Rotated(b, 5) == (b >> 5) | (b << 3)
    ensures Rotated(b, 6) == (b >> 6) | (b << 2)
    ensures Rotated(b, 7) == (b >> 7) | (b << 1)
    ensures Rotated(b, 8) == b
  {
  }

  // The bit on the wire in the slot after k bits.
  lemma BitOnWire(b: bv8, k: nat)
    requires k < 8
    ensures (Rotated(b, k) & 0x01 != 0) == ByteBits(b)[k]
  {
    RotatedBits(b);
    match k
    case 0 => case 1 => case 2 => case 3 => case 4 => case 5 => case 6 => case 7 =>
  }

  lemma {:induction false} SentIsByteBits(b: bv8, k: nat)
    requires k <= 8
    ensures SentBits(b, k) == ByteBits(b)[..k]
  {
    if k > 0 {
      SentIsByteBits(b, k - 1);
      BitOnWire(b, k - 1);
    }
  }

  lemma SentCommand(b: bv8)
    ensures SentBits(b, 8) == SEARCH_BITS <==> b == SEARCH_ROM
  {
    SentIsByteBits(b, 8);
    SentIsByteBits(SEARCH_ROM, 8);
    assert ByteBits(SEARCH_ROM) == SEARCH_BITS;
    if ByteBits(b) == SEARCH_BITS {
      ByteBitsInjective(b, SEARCH_ROM);
    }
  }
}
