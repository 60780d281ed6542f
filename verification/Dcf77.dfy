// The DCF77 time code: bits 21 to 58 of a minute, as PTB describes them, decoded one second at a time.
module Dcf77 {
  import opened Words

  // Bytes of the clock structure, counted from day_of_week.
  const DAY_OF_WEEK := 0
  const HOUR := 1
  const MINUTE := 2
  const SECOND := 3
  const DAY_OF_MONTH := 5
  const MONTH_OF_YEAR := 6
  const YEAR := 7

  type Clock = c: seq<uint8> | |c| == 8 witness [0, 0, 0, 0, 0, 0, 0, 0]

  const NO_ERROR: bv8 := 0
  const ILLEGAL_PERIOD: bv8 := 0x40
  const ILLEGAL_PULSE: bv8 := 0x20
  const PARITY_ERROR: bv8 := 0x10

  // For each of the bits 21 to 58, the byte it belongs to and its place there; 0xFF is a parity bit.
  const BITNO: seq<uint8> := [
    0x20, 0x21, 0x22, 0x23, 0x24, 0x25, 0x26, 0xFF,
    0x10, 0x11, 0x12, 0x13, 0x14, 0x15, 0xFF,
    0x50, 0x51, 0x52, 0x53, 0x54, 0x55,
    0x00, 0x01, 0x02,
    0x60, 0x61, 0x62, 0x63, 0x64,
    0x70, 0x71, 0x72, 0x73, 0x74, 0x75, 0x76, 0x77, 0xFF]

  const BMASK: seq<uint8> := [1, 2, 4, 8, 10, 20, 40, 80]

  // What decoding works on.
  datatype Decoder = Decoder(newtime: Clock, parity: bool, error: bv8)

  // One bit, in the second that newtime shows; `bitno` is the table above.
  function Decode(bitno: seq<uint8>, s: Decoder, pulse: bool): Decoder {
    var second: int := s.newtime[SECOND];
    var i := (second - 21) % 0x100;
    if i >= |bitno| then s
    else
      var parity := s.parity != pulse;
      if bitno[i] == 0xFF then
        s.(parity := false, error := if parity then s.error | PARITY_ERROR else s.error)
      else
        var d, bit := bitno[i] / 16, bitno[i] % 16;
        if d >= 8 || bit >= 8 then s  // no such entry in the table
        else s.(parity := parity, newtime := s.newtime[d := AddBit(s.newtime[d], bit, pulse)])
  }

  // The first bit of a field starts it from 0.
  function AddBit(value: uint8, bit: nat, pulse: bool): uint8
    requires bit < 8
  {
    var start: int := if bit == 0 then 0 else value;
    if pulse then (start + BMASK[bit]) % 0x100 else start
  }

  // Bits received in consecutive seconds from `second` on.
  function Feed(bitno: seq<uint8>, s: Decoder, second: nat, bits: seq<bool>): Decoder
    requires second + |bits| <= 60
  {
    if bits == [] then s
    else
      var n := |bits| - 1;
      Receive(bitno, Feed(bitno, s, second, bits[..n]), second + n, bits[n])
  }

  function Receive(bitno: seq<uint8>, s: Decoder, second: uint8, bit: bool): Decoder {
    Decode(bitno, s.(newtime := s.newtime[SECOND := second]), bit)
  }

  lemma {:induction false} FeedConcat(bitno: seq<uint8>, s: Decoder, second: nat, a: seq<bool>, b: seq<bool>)
    requires second + |a| + |b| <= 60
    ensures Feed(bitno, s, second, a + b) == Feed(bitno, Feed(bitno, s, second, a), second + |a|, b)
    decreases |b|
  {
    if b == [] {
      assert a + b == a;
    } else {
      var n := |b| - 1;
      assert (a + b)[..|a| + n] == a + b[..n];
      FeedConcat(bitno, s, second, a, b[..n]);
    }
  }

  // ---------- A field and a parity bit ----------

  function Weight(bits: seq<bool>): nat
    requires |bits| <= 8
    ensures Weight(bits) <= 165
  {
    WeightBound(bits);
    WeightOf(bits)
  }

  function WeightOf(bits: seq<bool>): nat
    requires |bits| <= 8
  {
    if bits == [] then 0
    else WeightOf(bits[..|bits| - 1]) + if bits[|bits| - 1] then BMASK[|bits| - 1] else 0
  }

  function MaskSum(n: nat): nat
    requires n <= 8
  {
    if n == 0 then 0 else MaskSum(n - 1) + BMASK[n - 1]
  }

  lemma {:induction false} WeightBound(bits: seq<bool>)
    requires |bits| <= 8
    ensures WeightOf(bits) <= MaskSum(|bits|) <= 165
  {
    if bits != [] {
      WeightBound(bits[..|bits| - 1]);
    }
    MaskSums();
  }

  lemma MaskSums()
    ensures MaskSum(0) == 0 && MaskSum(1) == 1 && MaskSum(2) == 3 && MaskSum(3) == 7 && MaskSum(4) == 15
    ensures MaskSum(5) == 25 && MaskSum(6) == 45 && MaskSum(7) == 85 && MaskSum(8) == 165
  {
    assert MaskSum(4) == 15;
  }

  // The number of ones is odd.
  predicate Odd(bits: seq<bool>) {
    if bits == [] then false else Odd(bits[..|bits| - 1]) != bits[|bits| - 1]
  }

  lemma {:induction false} OddConcat(a: seq<bool>, b: seq<bool>)
    ensures Odd(a + b) == (Odd(a) != Odd(b))
  {
    if b == [] {
      assert a + b == a;
    } else {
      assert (a + b)[..|a + b| - 1] == a + b[..|b| - 1];
      OddConcat(a, b[..|b| - 1]);
    }
  }

  // n bits from `second` on all belong to byte d, in order.
  predicate IsField(bitno: seq<uint8>, second: nat, n: nat, d: nat) {
    21 <= second && second - 21 + n <= |bitno| <= 38 && n <= 8 && d < 8 && d != SECOND &&
    forall i :: second - 21 <= i < second - 21 + n ==> bitno[i] == 16 * d + (i - (second - 21))
  }

  // The decoder after some bits of a field.
  ghost function Partial(s: Decoder, second: nat, bits: seq<bool>, d: nat): Decoder
    requires |bits| <= 8 && second + |bits| <= 60 && d < 8
  {
    if bits == [] then s
    else Decoder(s.newtime[SECOND := second + |bits| - 1][d := Weight(bits)], s.parity != Odd(bits), s.error)
  }

  lemma {:induction false} FeedField(bitno: seq<uint8>, s: Decoder, second: nat, bits: seq<bool>, d: nat)
    requires IsField(bitno, second, |bits|, d)
    ensures Feed(bitno, s, second, bits) == Partial(s, second, bits, d)
    decreases |bits|
  {
    if bits != [] {
      FeedField(bitno, s, second, bits[..|bits| - 1], d);
      PartialStep(bitno, s, second, bits, d);
    }
  }

  lemma PartialStep(bitno: seq<uint8>, s: Decoder, second: nat, bits: seq<bool>, d: nat)
    requires bits != [] && IsField(bitno, second, |bits|, d)
    ensures var n := |bits| - 1;
            Receive(bitno, Partial(s, second, bits[..n], d), second + n, bits[n]) == Partial(s, second, bits, d)
  {
    var n := |bits| - 1;
    var t := Partial(s, second, bits[..n], d);
    ReceiveFieldBit(bitno, t, second, n, d, bits[n]);
    WeightStep(bits, t.newtime[d]);
    OddStep(bits);
    assert t.newtime[SECOND := second + n][d := Weight(bits)] == s.newtime[SECOND := second + n][d := Weight(bits)];
  }

  lemma WeightStep(bits: seq<bool>, before: uint8)
    requires 0 < |bits| <= 8 && (|bits| > 1 ==> before == Weight(bits[..|bits| - 1]))
    ensures AddBit(before, |bits| - 1, bits[|bits| - 1]) == Weight(bits)
  {
    WeightBound(bits);
  }

  lemma OddStep(bits: seq<bool>)
    requires bits != []
    ensures Odd(bits) == (Odd(bits[..|bits| - 1]) != bits[|bits| - 1])
    ensures |bits| == 1 ==> !Odd(bits[..|bits| - 1])
  {
  }

  lemma ReceiveFieldBit(bitno: seq<uint8>, s: Decoder, second: nat, n: nat, d: nat, bit: bool)
    requires n < 8 && IsField(bitno, second, n + 1, d)
    ensures Receive(bitno, s, second + n, bit) ==
            Decoder(s.newtime[SECOND := second + n][d := AddBit(s.newtime[d], n, bit)], s.parity != bit, s.error)
  {
    var at := second - 21 + n;
    assert bitno[at] == 16 * d + n;
    assert (16 * d + n) / 16 == d && (16 * d + n) % 16 == n;
  }

  lemma FeedParity(bitno: seq<uint8>, s: Decoder, second: nat, bit: bool)
    requires 21 <= second < 59 && second - 21 < |bitno| && bitno[second - 21] == 0xFF
    ensures Feed(bitno, s, second, [bit]) ==
            Decoder(s.newtime[SECOND := second], false, if s.parity != bit then s.error | PARITY_ERROR else s.error)
  {
    assert [bit][..0] == [];
    assert Feed(bitno, s, second, [bit]) == Receive(bitno, s, second, bit);
  }

  // ---------- A whole minute ----------

  // The 38 bits: minute, parity, hour, parity, day, day of week, month, year, parity.
  type TimeBits = b: seq<bool> | |b| == 38 witness seq(38, _ => false)

  // Where the table finds the fields and the parity bits.
  predicate IsTable(bitno: seq<uint8>) {
    && |bitno| == 38
    && IsField(bitno, 21, 7, MINUTE) && bitno[7] == 0xFF
    && IsField(bitno, 29, 6, HOUR) && bitno[14] == 0xFF
    && IsField(bitno, 36, 6, DAY_OF_MONTH) && IsField(bitno, 42, 3, DAY_OF_WEEK)
    && IsField(bitno, 45, 5, MONTH_OF_YEAR) && IsField(bitno, 50, 8, YEAR) && bitno[37] == 0xFF
  }

  lemma Tables()
    ensures IsTable(BITNO)
  {
  }

  // The decoder when the bits from k on are still to come.
  ghost function From(bitno: seq<uint8>, s: Decoder, b: TimeBits, k: nat): Decoder
    requires k <= 38
  {
    Feed(bitno, s, 21 + k, b[k..])
  }

  lemma FieldPart(bitno: seq<uint8>, s: Decoder, b: TimeBits, k: nat, n: nat, d: nat)
    requires k + n < 38 && IsField(bitno, 21 + k, n, d)
    ensures From(bitno, s, b, k) == From(bitno, Partial(s, 21 + k, b[k..k + n], d), b, k + n)
  {
    assert b[k..] == b[k..k + n] + b[k + n..];
    FeedConcat(bitno, s, 21 + k, b[k..k + n], b[k + n..]);
    FeedField(bitno, s, 21 + k, b[k..k + n], d);
  }

  function Checked(s: Decoder, second: uint8, bit: bool): Decoder {
    Decoder(s.newtime[SECOND := second], false, if s.parity != bit then s.error | PARITY_ERROR else s.error)
  }

  lemma ParityPart(bitno: seq<uint8>, s: Decoder, b: TimeBits, k: nat)
    requires k < 38 && k < |bitno| && bitno[k] == 0xFF
    ensures From(bitno, s, b, k) == From(bitno, Checked(s, 21 + k, b[k]), b, k + 1)
  {
    assert b[k..] == [b[k]] + b[k + 1..];
    FeedConcat(bitno, s, 21 + k, [b[k]], b[k + 1..]);
    FeedParity(bitno, s, 21 + k, b[k]);
  }

  // A parity group has an odd number of ones.
  predicate BadParity(b: TimeBits) {
    Odd(b[..8]) || Odd(b[8..15]) || Odd(b[15..])
  }

  // What 38 bits, whatever they are, leave behind.
  ghost predicate Decoded(s: Decoder, b: TimeBits, t: Decoder) {
    && t.newtime[MINUTE] == Weight(b[..7])
    && t.newtime[HOUR] == Weight(b[8..14])
    && t.newtime[DAY_OF_MONTH] == Weight(b[15..21])
    && t.newtime[DAY_OF_WEEK] == Weight(b[21..24])
    && t.newtime[MONTH_OF_YEAR] == Weight(b[24..29])
    && t.newtime[YEAR] == Weight(b[29..37])
    && !t.parity
    && t.error == if BadParity(b) then s.error | PARITY_ERROR else s.error
  }

  lemma OrTwice(e: bv8)
    ensures e | PARITY_ERROR | PARITY_ERROR == e | PARITY_ERROR
    ensures (e | PARITY_ERROR) & PARITY_ERROR != 0
  {
  }

  // Minute and hour with their parity bits.
  ghost function TimePart(s: Decoder, b: TimeBits): Decoder {
    var s1 := Checked(Partial(s, 21, b[0..7], MINUTE), 28, b[7]);
    Checked(Partial(s1, 29, b[8..14], HOUR), 35, b[14])
  }

  lemma TimeFed(bitno: seq<uint8>, s: Decoder, b: TimeBits)
    requires IsTable(bitno)
    ensures From(bitno, s, b, 0) == From(bitno, TimePart(s, b), b, 15)
  {
    FieldPart(bitno, s, b, 0, 7, MINUTE);
    var s1 := Partial(s, 21, b[0..7], MINUTE);
    ParityPart(bitno, s1, b, 7);
    var s2 := Checked(s1, 28, b[7]);
    FieldPart(bitno, s2, b, 8, 6, HOUR);
    ParityPart(bitno, Partial(s2, 29, b[8..14], HOUR), b, 14);
  }

  lemma TimeDecoded(s: Decoder, b: TimeBits)
    requires !s.parity
    ensures var t := TimePart(s, b);
            && t.newtime[MINUTE] == Weight(b[..7]) && t.newtime[HOUR] == Weight(b[8..14]) && !t.parity
            && t.error == if Odd(b[..8]) || Odd(b[8..15]) then s.error | PARITY_ERROR else s.error
  {
    GroupParity(b, 0, 7);
    GroupParity(b, 8, 6);
    OrTwice(s.error);
  }

  lemma GroupParity(b: TimeBits, k: nat, n: nat)
    requires k + n < 38
    ensures Odd(b[k..k + n + 1]) == (Odd(b[k..k + n]) != b[k + n])
  {
    assert b[k..k + n + 1][..n] == b[k..k + n];
  }

  // The date with its parity bit.
  ghost function DatePart(s: Decoder, b: TimeBits): Decoder {
    var s1 := Partial(Partial(s, 36, b[15..21], DAY_OF_MONTH), 42, b[21..24], DAY_OF_WEEK);
    Checked(Partial(Partial(s1, 45, b[24..29], MONTH_OF_YEAR), 50, b[29..37], YEAR), 58, b[37])
  }

  lemma DateFed(bitno: seq<uint8>, s: Decoder, b: TimeBits)
    requires IsTable(bitno)
    ensures From(bitno, s, b, 15) == DatePart(s, b)
  {
    FieldPart(bitno, s, b, 15, 6, DAY_OF_MONTH);
    var s1 := Partial(s, 36, b[15..21], DAY_OF_MONTH);
    FieldPart(bitno, s1, b, 21, 3, DAY_OF_WEEK);
    var s2 := Partial(s1, 42, b[21..24], DAY_OF_WEEK);
    FieldPart(bitno, s2, b, 24, 5, MONTH_OF_YEAR);
    var s3 := Partial(s2, 45, b[24..29], MONTH_OF_YEAR);
    FieldPart(bitno, s3, b, 29, 8, YEAR);
    ParityPart(bitno, Partial(s3, 50, b[29..37], YEAR), b, 37);
  }

  lemma DateDecoded(s: Decoder, b: TimeBits)
    requires !s.parity
    ensures var t := DatePart(s, b);
            && t.newtime[MINUTE] == s.newtime[MINUTE] && t.newtime[HOUR] == s.newtime[HOUR] && !t.parity
            && t.newtime[DAY_OF_MONTH] == Weight(b[15..21]) && t.newtime[DAY_OF_WEEK] == Weight(b[21..24])
            && t.newtime[MONTH_OF_YEAR] == Weight(b[24..29]) && t.newtime[YEAR] == Weight(b[29..37])
            && t.error == if Odd(b[15..]) then s.error | PARITY_ERROR else s.error
  {
    DateParity(b);
  }

  lemma DateParity(b: TimeBits)
    ensures Odd(b[15..]) ==
            ((((Odd(b[15..21]) != Odd(b[21..24])) != Odd(b[24..29])) != Odd(b[29..37])) != b[37])
  {
    OddConcat(b[15..21], b[21..24]);
    OddConcat(b[15..21] + b[21..24], b[24..29]);
    OddConcat(b[15..21] + b[21..24] + b[24..29], b[29..37]);
    assert b[15..37] == b[15..21] + b[21..24] + b[24..29] + b[29..37];
    GroupParity(b, 15, 22);
    assert b[15..38] == b[15..];
  }

  // `bitno` is any table laid out as BITNO is.
  lemma MinuteDecoded(bitno: seq<uint8>, s: Decoder, b: TimeBits)
    requires IsTable(bitno) && !s.parity
    ensures Decoded(s, b, Feed(bitno, s, 21, b))
  {
    assert b[0..] == b;
    var t := TimePart(s, b);
    assert Feed(bitno, s, 21, b) == DatePart(t, b) by {
      TimeFed(bitno, s, b);
      DateFed(bitno, t, b);
    }
    TimeDecoded(s, b);
    DateDecoded(t, b);
    OrTwice(s.error);
  }
}
