// The DCF77 device: pulses and periods measured by the input handler are scanned into bits, seconds
// and minutes.
module Dcf77Receiver {
  import opened Words
  import opened Dcf77
  import opened Dcf77Minute

  const TICKS_PER_SECOND := 100
  const TICKS_ZERO := 10
  const TICKS_ONE := 20
  const TICK_ERROR := 2

  datatype Scanner = Scanner(decoder: Decoder, time: Clock, valid: bool, report: bool)

  predicate IsZero(pulse: uint8) {
    TICKS_ZERO - TICK_ERROR - 1 < pulse < TICKS_ZERO + TICK_ERROR + 1
  }

  predicate IsOne(pulse: uint8) {
    TICKS_ONE - TICK_ERROR - 1 < pulse < TICKS_ONE + TICK_ERROR + 1
  }

  predicate IsSecond(period: uint8) {
    TICKS_PER_SECOND - TICK_ERROR - 1 <= period <= TICKS_PER_SECOND + TICK_ERROR
  }

  // The pause at the end of a minute.
  predicate IsMinute(period: uint8) {
    2 * TICKS_PER_SECOND - TICK_ERROR - TICK_ERROR - 1 < period < 2 * TICKS_PER_SECOND + TICK_ERROR + 1
  }

  function Fail(d: Decoder, flag: bv8): Decoder {
    d.(error := d.error | flag)
  }

  // A pulse of some length (0: none was measured); `bitno` is the table BITNO throughout.
  function ScanPulse(bitno: seq<uint8>, s: Scanner, pulse: uint8): Scanner {
    if pulse == 0 then s
    else if IsZero(pulse) then s.(decoder := Decode(bitno, s.decoder, false))
    else if IsOne(pulse) then s.(decoder := Decode(bitno, s.decoder, true))
    else s.(decoder := Fail(s.decoder, ILLEGAL_PULSE))
  }

  function Copied(time: Clock, newtime: Clock): Clock {
    time[MINUTE := newtime[MINUTE]][HOUR := newtime[HOUR]][DAY_OF_WEEK := newtime[DAY_OF_WEEK]]
        [DAY_OF_MONTH := newtime[DAY_OF_MONTH]][MONTH_OF_YEAR := newtime[MONTH_OF_YEAR]][YEAR := newtime[YEAR]]
  }

  function WithSecond(d: Decoder, second: uint8): Decoder {
    d.(newtime := d.newtime[SECOND := second])
  }

  // A period of some length (0: none was measured).
  function ScanPeriod(s: Scanner, period: uint8): Scanner {
    if period == 0 then s
    else
      var now := s.decoder.newtime[SECOND];
      var second: uint8 := if now < 60 then now + 1 else now;
      if IsMinute(period) then
        var good := s.decoder.error == NO_ERROR && second == 59;
        Scanner(WithSecond(s.decoder, 0).(error := NO_ERROR),
                if good then Copied(s.time, s.decoder.newtime) else s.time, s.valid || good, true)
      else
        var d := WithSecond(s.decoder, second);
        s.(decoder := if IsSecond(period) then d else Fail(d, ILLEGAL_PERIOD))
  }

  // The received time becomes the time: a pause that ends second 58 of a minute without an error.
  predicate TakesOver(s: Scanner, period: uint8) {
    IsMinute(period) && s.decoder.error == NO_ERROR && s.decoder.newtime[SECOND] == 58
  }

  // Every entry of the table that is not a parity bit names a byte and a place that exist, and never
  // the byte of the seconds.
  predicate Entry(entry: uint8) {
    entry / 16 < 8 && entry / 16 != SECOND && entry % 16 < 8
  }

  predicate Entries(bitno: seq<uint8>) {
    |bitno| == 38 && forall i :: 0 <= i < |bitno| && bitno[i] != 0xFF ==> Entry(bitno[i])
  }

  lemma FieldEntries(bitno: seq<uint8>, second: nat, n: nat, d: nat)
    requires IsField(bitno, second, n, d)
    ensures forall i :: second - 21 <= i < second - 21 + n ==> Entry(bitno[i])
  {
    forall i | second - 21 <= i < second - 21 + n ensures Entry(bitno[i]) {
      var place := i - (second - 21);
      assert (16 * d + place) / 16 == d && (16 * d + place) % 16 == place;
    }
  }

  lemma TableEntries(bitno: seq<uint8>)
    requires IsTable(bitno)
    ensures Entries(bitno)
  {
    FieldEntries(bitno, 21, 7, MINUTE);
    FieldEntries(bitno, 29, 6, HOUR);
    FieldEntries(bitno, 36, 6, DAY_OF_MONTH);
    FieldEntries(bitno, 42, 3, DAY_OF_WEEK);
    FieldEntries(bitno, 45, 5, MONTH_OF_YEAR);
    FieldEntries(bitno, 50, 8, YEAR);
  }

  lemma BitnoEntries()
    ensures Entries(BITNO)
  {
    Tables();
    TableEntries(BITNO);
  }

  class Device {
    const newtime: array<uint8>
    const time: array<uint8>
    var parity: bool
    var error: bv8
    var reportedErrors: bv8
    var pulse: uint8
    var period: uint8
    var validFlag: bool
    var reportFlag: bool
    var ct100Hz: uint8

    predicate Sized() {
      newtime.Length == 8 && time.Length == 8 && newtime != time
    }

    ghost function Snapshot(): Scanner
      requires Sized()
      reads this, newtime, time
    {
      Scanner(Decoder(newtime[..], parity, error), time[..], validFlag, reportFlag)
    }

    constructor ()
      ensures Sized() && pulse == 0 && period == 0 && !Snapshot().decoder.parity && Snapshot().decoder.error == NO_ERROR
      ensures !validFlag && !reportFlag && fresh(newtime) && fresh(time)
    {
      newtime := new uint8[8](_ => 0);
      time := new uint8[8](_ => 0);
      parity, error, reportedErrors := false, NO_ERROR, NO_ERROR;
      pulse, period, ct100Hz := 0, 0, 0;
      validFlag, reportFlag := false, false;
    }

    // One bit of a field, added to byte d of the new time.
    method AddToField(d: nat, place: nat, bit: bool)
      requires Sized() && d < 8 && place < 8
      modifies newtime
      ensures newtime[..] == old(newtime[..])[d := AddBit(old(newtime[d]), place, bit)]
    {
      if place == 0 {
        newtime[d] := 0;
      }
      if bit {
        var sum: int := newtime[d];
        newtime[d] := (sum + BMASK[place]) % 0x100;
      }
    }

    method DecodeBit(bitno: seq<uint8>, bit: bool)
      requires Sized() && Entries(bitno)
      modifies this`parity, this`error, newtime
      ensures Snapshot() == old(Snapshot()).(decoder := Decode(bitno, old(Snapshot().decoder), bit))
    {
      var second: int := newtime[SECOND];
      var i := (second - 21) % 0x100;
      if i >= |bitno| {
        return;
      }
      parity := parity != bit;
      var entry := bitno[i];
      if entry == 0xFF {
        if parity {
          error := error | PARITY_ERROR;
        }
        parity := false;
        return;
      }
      AddToField(entry / 16, entry % 16, bit);
    }

    method Scan()
      requires Sized()
      modifies this, newtime, time
      ensures Snapshot() == ScanPeriod(ScanPulse(BITNO, old(Snapshot()), old(pulse)), old(period))
      ensures reportedErrors == old(error) && pulse == 0 && period == 0
      ensures ct100Hz ==
              if TakesOver(ScanPulse(BITNO, old(Snapshot()), old(pulse)), old(period)) then 0 else old(ct100Hz)
    {
      reportedErrors := error;
      TakePulse();
      TakePeriod();
    }

    method TakePulse()
      requires Sized()
      modifies this`parity, this`error, this`pulse, newtime
      ensures Snapshot() == ScanPulse(BITNO, old(Snapshot()), old(pulse)) && pulse == 0
    {
      BitnoEntries();
      if pulse != 0 {
        if TICKS_ZERO - TICK_ERROR - 1 < pulse < TICKS_ZERO + TICK_ERROR + 1 {
          DecodeBit(BITNO, false);
        } else if TICKS_ONE - TICK_ERROR - 1 < pulse < TICKS_ONE + TICK_ERROR + 1 {
          DecodeBit(BITNO, true);
        } else {
          error := error | ILLEGAL_PULSE;
        }
        pulse := 0;
      }
    }

    // The received fields, but not the second, become the time.
    method TakeOver()
      requires Sized()
      modifies time
      ensures time[..] == Copied(old(time[..]), newtime[..])
    {
      time[MINUTE] := newtime[MINUTE];
      time[HOUR] := newtime[HOUR];
      time[DAY_OF_WEEK] := newtime[DAY_OF_WEEK];
      time[DAY_OF_MONTH] := newtime[DAY_OF_MONTH];
      time[MONTH_OF_YEAR] := newtime[MONTH_OF_YEAR];
      time[YEAR] := newtime[YEAR];
    }

    method TakePeriod()
      requires Sized()
      modifies this`error, this`period, this`validFlag, this`reportFlag, this`ct100Hz, newtime, time
      ensures Snapshot() == ScanPeriod(old(Snapshot()), old(period)) && period == 0
      ensures ct100Hz == if TakesOver(old(Snapshot()), old(period)) then 0 else old(ct100Hz)
    {
      if period != 0 {
        if newtime[SECOND] < 60 {
          newtime[SECOND] := newtime[SECOND] + 1;
        }
        if 2 * TICKS_PER_SECOND - TICK_ERROR - TICK_ERROR - 1 < period < 2 * TICKS_PER_SECOND + TICK_ERROR + 1 {
          if error == NO_ERROR && newtime[SECOND] == 59 {
            validFlag := true;
            ct100Hz := 0;
            TakeOver();
          }
          newtime[SECOND] := 0;
          error := NO_ERROR;
          reportFlag := true;
        } else if period < TICKS_PER_SECOND - TICK_ERROR - 1 || period > TICKS_PER_SECOND + TICK_ERROR {
          error := error | ILLEGAL_PERIOD;
        }
        period := 0;
      }
    }
  }

  // ---------- A whole minute ----------

  predicate Carries(pulse: uint8, bit: bool) {
    if bit then IsOne(pulse) else IsZero(pulse)
  }

  // The pulses of the seconds from 0 on, each with the period that follows it.
  function ScanAll(bitno: seq<uint8>, s: Scanner, pulses: seq<uint8>, periods: seq<uint8>): Scanner
    requires |pulses| == |periods|
  {
    if pulses == [] then s
    else
      var n := |pulses| - 1;
      ScanPeriod(ScanPulse(bitno, ScanAll(bitno, s, pulses[..n], periods[..n]), pulses[n]), periods[n])
  }

  // What the decoder has seen when second k begins.
  ghost function Before(bitno: seq<uint8>, d: Decoder, bits: seq<bool>, k: nat): Decoder
    requires k <= 59 && k <= |bits|
  {
    if k < 21 then d else Feed(bitno, d, 21, bits[21..k])
  }

  lemma PulseScanned(bitno: seq<uint8>, d: Decoder, bits: seq<bool>, k: nat, s: Scanner, pulse: uint8)
    requires Entries(bitno)
    requires k < 59 <= |bits| && Carries(pulse, bits[k])
    requires s.decoder == WithSecond(Before(bitno, d, bits, k), k)
    ensures WithSecond(ScanPulse(bitno, s, pulse).decoder, k) == WithSecond(Before(bitno, d, bits, k + 1), k)
    ensures ScanPulse(bitno, s, pulse) == s.(decoder := ScanPulse(bitno, s, pulse).decoder)
    ensures ScanPulse(bitno, s, pulse).decoder.newtime[SECOND] == k
  {
    if k >= 21 {
      assert bits[21..k + 1][..k - 21] == bits[21..k];
      DecodeKeepsSecond(bitno, s.decoder, bits[k]);
    }
  }

  lemma DecodeKeepsSecond(bitno: seq<uint8>, d: Decoder, bit: bool)
    requires Entries(bitno)
    ensures Decode(bitno, d, bit).newtime[SECOND] == d.newtime[SECOND]
  {
    var second: int := d.newtime[SECOND];
    var i := (second - 21) % 0x100;
    assert i < |bitno| && bitno[i] != 0xFF ==> Entry(bitno[i]);
  }

  // Second k is over: its pulse carried a bit and the next one came in time.
  lemma SecondScanned(bitno: seq<uint8>, d: Decoder, bits: seq<bool>, k: nat, s: Scanner, pulse: uint8, period: uint8)
    requires Entries(bitno)
    requires k < 58 && |bits| == 59 && Carries(pulse, bits[k]) && IsSecond(period)
    requires s.decoder == WithSecond(Before(bitno, d, bits, k), k)
    ensures ScanPeriod(ScanPulse(bitno, s, pulse), period) ==
            s.(decoder := WithSecond(Before(bitno, d, bits, k + 1), k + 1))
  {
    PulseScanned(bitno, d, bits, k, s, pulse);
    var x, y := ScanPulse(bitno, s, pulse).decoder, Before(bitno, d, bits, k + 1);
    assert WithSecond(x, k + 1) == WithSecond(WithSecond(x, k), k + 1);
    assert WithSecond(y, k + 1) == WithSecond(WithSecond(y, k), k + 1);
  }

  lemma {:induction false} SecondsScanned(bitno: seq<uint8>, s: Scanner, bits: seq<bool>,
                                          pulses: seq<uint8>, periods: seq<uint8>)
    requires Entries(bitno)
    requires |pulses| == |periods| <= 58 && |bits| == 59 && s.decoder.newtime[SECOND] == 0
    requires forall k :: 0 <= k < |pulses| ==> Carries(pulses[k], bits[k]) && IsSecond(periods[k])
    ensures ScanAll(bitno, s, pulses, periods) ==
            s.(decoder := WithSecond(Before(bitno, s.decoder, bits, |pulses|), |pulses|))
    decreases |pulses|
  {
    if pulses == [] {
      assert s.decoder.newtime[SECOND := 0] == s.decoder.newtime;
    } else {
      var n := |pulses| - 1;
      SecondsScanned(bitno, s, bits, pulses[..n], periods[..n]);
      SecondScanned(bitno, s.decoder, bits, n, ScanAll(bitno, s, pulses[..n], periods[..n]), pulses[n], periods[n]);
    }
  }

  // The six fields that bits 21 to 58 carry.
  predicate Received(c: Clock, b: TimeBits) {
    && c[MINUTE] == Weight(b[..7]) && c[HOUR] == Weight(b[8..14])
    && c[DAY_OF_MONTH] == Weight(b[15..21]) && c[DAY_OF_WEEK] == Weight(b[21..24])
    && c[MONTH_OF_YEAR] == Weight(b[24..29]) && c[YEAR] == Weight(b[29..37])
  }

  // A minute of 59 well-formed pulses, 58 of them a second apart and then the pause: the time is
  // taken over exactly when the parity is right, and the next minute starts afresh.
  lemma MinuteScanned(bitno: seq<uint8>, s: Scanner, bits: seq<bool>, pulses: seq<uint8>, periods: seq<uint8>)
    requires IsTable(bitno)
    requires s.decoder.newtime[SECOND] == 0 && s.decoder.error == NO_ERROR && !s.decoder.parity
    requires |bits| == |pulses| == |periods| == 59 && IsMinute(periods[58])
    requires forall k :: 0 <= k < 59 ==> Carries(pulses[k], bits[k])
    requires forall k :: 0 <= k < 58 ==> IsSecond(periods[k])
    ensures var r := ScanAll(bitno, s, pulses, periods);
            && r.report && r.decoder.newtime[SECOND] == 0 && r.decoder.error == NO_ERROR && !r.decoder.parity
            && (if BadParity(bits[21..59]) then r.time == s.time && r.valid == s.valid
                else r.valid && Received(r.time, bits[21..59]) && r.time[SECOND] == s.time[SECOND])
  {
    var t := LastSecond(bitno, s, bits, pulses, periods);
    MinuteDecoded(bitno, s.decoder, bits[21..59]);
    NoError();
  }

  // Just before the pause is noticed, everything has been decoded.
  lemma LastSecond(bitno: seq<uint8>, s: Scanner, bits: seq<bool>, pulses: seq<uint8>, periods: seq<uint8>)
    returns (t: Scanner)
    requires IsTable(bitno) && s.decoder.newtime[SECOND] == 0
    requires |bits| == |pulses| == |periods| == 59
    requires forall k :: 0 <= k < 59 ==> Carries(pulses[k], bits[k])
    requires forall k :: 0 <= k < 58 ==> IsSecond(periods[k])
    ensures ScanAll(bitno, s, pulses, periods) == ScanPeriod(t, periods[58])
    ensures t.time == s.time && t.valid == s.valid && t.decoder.newtime[SECOND] == 58
    ensures var y := Feed(bitno, s.decoder, 21, bits[21..59]);
            && t.decoder.parity == y.parity && t.decoder.error == y.error
            && forall d :: 0 <= d < 8 && d != SECOND ==> t.decoder.newtime[d] == y.newtime[d]
  {
    TableEntries(bitno);
    var before := ScanAll(bitno, s, pulses[..58], periods[..58]);
    SecondsScanned(bitno, s, bits, pulses[..58], periods[..58]);
    PulseScanned(bitno, s.decoder, bits, 58, before, pulses[58]);
    t := ScanPulse(bitno, before, pulses[58]);
    SameButSecond(t.decoder, Before(bitno, s.decoder, bits, 59), 58);
  }

  lemma SameButSecond(x: Decoder, y: Decoder, k: uint8)
    requires WithSecond(x, k) == WithSecond(y, k)
    ensures x.parity == y.parity && x.error == y.error
    ensures forall d :: 0 <= d < 8 && d != SECOND ==> x.newtime[d] == y.newtime[d]
  {
    forall d | 0 <= d < 8 && d != SECOND ensures x.newtime[d] == y.newtime[d] {
      assert WithSecond(x, k).newtime[d] == x.newtime[d];
      assert WithSecond(y, k).newtime[d] == y.newtime[d];
    }
  }

  lemma NoError()
    ensures NO_ERROR | PARITY_ERROR != NO_ERROR
  {
  }

  // A transmitted minute arrives: the receiver's clock shows the encoded time.
  lemma TimeArrives(s: Scanner, t: DateTime, bits: seq<bool>, pulses: seq<uint8>, periods: seq<uint8>)
    requires s.decoder.newtime[SECOND] == 0 && s.decoder.error == NO_ERROR && !s.decoder.parity
    requires |bits| == |pulses| == |periods| == 59 && IsMinute(periods[58])
    requires forall k :: 0 <= k < 59 ==> Carries(pulses[k], bits[k])
    requires forall k :: 0 <= k < 58 ==> IsSecond(periods[k])
    requires Valid(t) && bits[21..59] == Encode(t)
    ensures var r := ScanAll(BITNO, s, pulses, periods); r.valid && r.report && Shows(r.time, t)
  {
    Tables();
    MinuteScanned(BITNO, s, bits, pulses, periods);
    EncodedIsEven(t);
    var r := ScanAll(BITNO, s, pulses, periods);
    var seen := Decoder(r.time, false, NO_ERROR);
    EncodedShows(t, seen, seen);
  }

  // ---------- Disturbed minutes ----------

  predicate BadPulse(pulse: uint8) {
    pulse != 0 && !IsZero(pulse) && !IsOne(pulse)
  }

  predicate BadPeriod(period: uint8) {
    period != 0 && !IsSecond(period) && !IsMinute(period)
  }

  lemma OrKeeps(e: bv8, flag: bv8)
    ensures e != 0 || flag != 0 ==> e | flag != 0
  {
  }

  lemma DecodeError(bitno: seq<uint8>, d: Decoder, bit: bool)
    ensures Decode(bitno, d, bit).error == d.error || Decode(bitno, d, bit).error == d.error | PARITY_ERROR
  {
  }

  lemma PulseError(bitno: seq<uint8>, s: Scanner, pulse: uint8)
    ensures s.decoder.error != NO_ERROR || BadPulse(pulse) ==> ScanPulse(bitno, s, pulse).decoder.error != NO_ERROR
    ensures ScanPulse(bitno, s, pulse).time == s.time && ScanPulse(bitno, s, pulse).valid == s.valid
  {
    DecodeError(bitno, s.decoder, false);
    DecodeError(bitno, s.decoder, true);
    OrKeeps(s.decoder.error, PARITY_ERROR);
    OrKeeps(s.decoder.error, ILLEGAL_PULSE);
  }

  lemma PeriodError(s: Scanner, period: uint8)
    requires !IsMinute(period)
    ensures s.decoder.error != NO_ERROR || BadPeriod(period) ==> ScanPeriod(s, period).decoder.error != NO_ERROR
    ensures ScanPeriod(s, period).time == s.time && ScanPeriod(s, period).valid == s.valid
  {
    OrKeeps(s.decoder.error, ILLEGAL_PERIOD);
  }

  lemma {:induction false} ErrorsStick(bitno: seq<uint8>, s: Scanner, pulses: seq<uint8>, periods: seq<uint8>)
    requires |pulses| == |periods|
    requires forall k :: 0 <= k < |periods| ==> !IsMinute(periods[k])
    ensures var r := ScanAll(bitno, s, pulses, periods);
            && r.time == s.time && r.valid == s.valid
            && (s.decoder.error != NO_ERROR ==> r.decoder.error != NO_ERROR)
            && ((exists k :: 0 <= k < |pulses| && (BadPulse(pulses[k]) || BadPeriod(periods[k]))) ==>
                  r.decoder.error != NO_ERROR)
    decreases |pulses|
  {
    if pulses != [] {
      var n := |pulses| - 1;
      ErrorsStick(bitno, s, pulses[..n], periods[..n]);
      var t := ScanAll(bitno, s, pulses[..n], periods[..n]);
      PulseError(bitno, t, pulses[n]);
      PeriodError(ScanPulse(bitno, t, pulses[n]), periods[n]);
      if k :| 0 <= k < |pulses| && (BadPulse(pulses[k]) || BadPeriod(periods[k])) {
        assert k < n ==> pulses[..n][k] == pulses[k] && periods[..n][k] == periods[k];
      }
    }
  }

  // Any pulse or period out of tolerance, however many were received, and the minute is dropped.
  lemma DisturbedMinuteDropped(bitno: seq<uint8>, s: Scanner, pulses: seq<uint8>, periods: seq<uint8>, k: nat)
    requires k < |pulses| == |periods| && IsMinute(periods[|periods| - 1])
    requires forall j :: 0 <= j < |periods| - 1 ==> !IsMinute(periods[j])
    requires BadPulse(pulses[k]) || BadPeriod(periods[k])
    ensures var r := ScanAll(bitno, s, pulses, periods);
            && r.time == s.time && r.valid == s.valid && r.report
            && r.decoder.error == NO_ERROR && r.decoder.newtime[SECOND] == 0
  {
    var n := |pulses| - 1;
    ErrorsStick(bitno, s, pulses[..n], periods[..n]);
    assert k < n ==> pulses[..n][k] == pulses[k] && periods[..n][k] == periods[k];
    PulseError(bitno, ScanAll(bitno, s, pulses[..n], periods[..n]), pulses[n]);
  }

  // ---------- Minutes of another length ----------

  // Periods that were measured, none of them a pause.
  predicate Running(periods: seq<uint8>) {
    forall k :: 0 <= k < |periods| ==> periods[k] != 0 && !IsMinute(periods[k])
  }

  lemma PulseKeepsSecond(bitno: seq<uint8>, s: Scanner, pulse: uint8)
    requires Entries(bitno)
    ensures ScanPulse(bitno, s, pulse).decoder.newtime[SECOND] == s.decoder.newtime[SECOND]
  {
    DecodeKeepsSecond(bitno, s.decoder, false);
    DecodeKeepsSecond(bitno, s.decoder, true);
  }

  lemma {:induction false} SecondsCounted(bitno: seq<uint8>, s: Scanner, pulses: seq<uint8>, periods: seq<uint8>)
    requires Entries(bitno) && s.decoder.newtime[SECOND] == 0
    requires |pulses| == |periods| && Running(periods)
    ensures ScanAll(bitno, s, pulses, periods).decoder.newtime[SECOND] == if |pulses| < 60 then |pulses| else 60
    decreases |pulses|
  {
    if pulses != [] {
      var n := |pulses| - 1;
      SecondsCounted(bitno, s, pulses[..n], periods[..n]);
      PulseKeepsSecond(bitno, ScanAll(bitno, s, pulses[..n], periods[..n]), pulses[n]);
    }
  }

  // From the begin of a minute to the next pause, whatever the pulses carried: the time is taken over
  // exactly when there were 59 of them and no error remains; otherwise the minute is dropped.  Either
  // way the next minute starts afresh.
  lemma MinuteTakenIff(bitno: seq<uint8>, s: Scanner, pulses: seq<uint8>, periods: seq<uint8>)
    requires Entries(bitno) && s.decoder.newtime[SECOND] == 0
    requires |pulses| == |periods| > 0 && Running(periods[..|periods| - 1]) && IsMinute(periods[|periods| - 1])
    ensures var n := |pulses| - 1;
            var r := ScanAll(bitno, s, pulses, periods);
            var d := ScanPulse(bitno, ScanAll(bitno, s, pulses[..n], periods[..n]), pulses[n]).decoder;
            && r.report && r.decoder.error == NO_ERROR && r.decoder.newtime[SECOND] == 0
            && (if |pulses| == 59 && d.error == NO_ERROR then r.valid && r.time == Copied(s.time, d.newtime)
                else r.time == s.time && r.valid == s.valid)
  {
    var n := |pulses| - 1;
    var t := ScanAll(bitno, s, pulses[..n], periods[..n]);
    SecondsCounted(bitno, s, pulses[..n], periods[..n]);
    ErrorsStick(bitno, s, pulses[..n], periods[..n]);
    PulseKeepsSecond(bitno, t, pulses[n]);
    PulseError(bitno, t, pulses[n]);
  }
}
