// A transmitted minute: the bits a date and time are encoded in, and what the decoder makes of them.
module Dcf77Minute {
  import opened Dcf77

  datatype DateTime = DateTime(minute: nat, hour: nat, day: nat, dayOfWeek: nat, month: nat, year: nat)

  predicate Valid(t: DateTime) {
    t.minute < 60 && t.hour < 24 && 1 <= t.day <= 31 && 1 <= t.dayOfWeek <= 7 && 1 <= t.month <= 12 && t.year < 100
  }

  // A decimal digit, least significant bit first.
  function DigitBits(digit: nat): (bits: seq<bool>)
    requires digit < 10
    ensures |bits| == 4
  {
    match digit
    case 0 => [false, false, false, false]
    case 1 => [true, false, false, false]
    case 2 => [false, true, false, false]
    case 3 => [true, true, false, false]
    case 4 => [false, false, true, false]
    case 5 => [true, false, true, false]
    case 6 => [false, true, true, false]
    case 7 => [true, true, true, false]
    case 8 => [false, false, false, true]
    case 9 => [true, false, false, true]
  }

  // The n lowest BCD bits of a number.
  function Bcd(v: nat, n: nat): (bits: seq<bool>)
    requires v < 100 && n <= 8
    ensures |bits| == n
  {
    (DigitBits(v % 10) + DigitBits(v / 10))[..n]
  }

  function WithParity(bits: seq<bool>): seq<bool> {
    bits + [Odd(bits)]
  }

  // Bits 21 to 58 of the minute before the given time.
  function Encode(t: DateTime): (b: TimeBits)
    requires Valid(t)
  {
    WithParity(Bcd(t.minute, 7)) + WithParity(Bcd(t.hour, 6)) +
    WithParity(Bcd(t.day, 6) + Bcd(t.dayOfWeek, 3) + Bcd(t.month, 5) + Bcd(t.year, 8))
  }

  predicate Shows(c: Clock, t: DateTime) {
    && c[MINUTE] == t.minute && c[HOUR] == t.hour
    && c[DAY_OF_MONTH] == t.day && c[DAY_OF_WEEK] == t.dayOfWeek
    && c[MONTH_OF_YEAR] == t.month && c[YEAR] == t.year
  }

  // ---------- Weights of BCD numbers ----------

  // The weight in two halves: units, then tens.
  lemma {:induction false} WeightHalves(a: seq<bool>, b: seq<bool>)
    requires |a| == 4 && |b| <= 4
    ensures WeightOf(a + b) == WeightOf(a) + 10 * WeightOf(b)
    decreases |b|
  {
    if b == [] {
      assert a + b == a;
    } else {
      var n := |b| - 1;
      assert (a + b)[..4 + n] == a + b[..n];
      WeightHalves(a, b[..n]);
      assert BMASK[4 + n] == 10 * BMASK[n];
    }
  }

  lemma FourBits(x0: bool, x1: bool, x2: bool, x3: bool)
    ensures WeightOf([]) == 0
    ensures WeightOf([x0]) == if x0 then 1 else 0
    ensures WeightOf([x0, x1]) == (if x0 then 1 else 0) + (if x1 then 2 else 0)
    ensures WeightOf([x0, x1, x2]) == (if x0 then 1 else 0) + (if x1 then 2 else 0) + (if x2 then 4 else 0)
    ensures WeightOf([x0, x1, x2, x3]) ==
            (if x0 then 1 else 0) + (if x1 then 2 else 0) + (if x2 then 4 else 0) + (if x3 then 8 else 0)
  {
    assert [x0][..0] == [];
    assert [x0, x1][..1] == [x0];
    assert [x0, x1, x2][..2] == [x0, x1];
    assert [x0, x1, x2, x3][..3] == [x0, x1, x2];
  }

  function Power2(n: nat): nat
    requires n <= 4
  {
    match n case 0 => 1 case 1 => 2 case 2 => 4 case 3 => 8 case 4 => 16
  }

  lemma DigitWeight(digit: nat, n: nat)
    requires digit < 10 && n <= 4 && digit < Power2(n)
    ensures WeightOf(DigitBits(digit)[..n]) == digit
  {
    var d := DigitBits(digit);
    FourBits(d[0], d[1], d[2], d[3]);
    match n
    case 0 => assert d[..0] == [];
    case 1 => assert d[..1] == [d[0]];
    case 2 => assert d[..2] == [d[0], d[1]];
    case 3 => assert d[..3] == [d[0], d[1], d[2]];
    case 4 => assert d[..4] == [d[0], d[1], d[2], d[3]];
  }

  lemma BcdWeight(v: nat, n: nat)
    requires v < 100 && n <= 8
    requires if n >= 4 then v / 10 < Power2(n - 4) else v < Power2(n)
    ensures Weight(Bcd(v, n)) == v
  {
    var u, t := DigitBits(v % 10), DigitBits(v / 10);
    if n >= 4 {
      assert (u + t)[..n] == u + t[..n - 4];
      WeightHalves(u, t[..n - 4]);
      assert u[..4] == u;
      DigitWeight(v % 10, 4);
      DigitWeight(v / 10, n - 4);
    } else {
      assert (u + t)[..n] == u[..n];
      DigitWeight(v, n);
    }
  }

  // ---------- Round trip and error detection ----------

  lemma EncodeParts(t: DateTime)
    requires Valid(t)
    ensures var b := Encode(t);
            && b[..7] == Bcd(t.minute, 7) && b[8..14] == Bcd(t.hour, 6)
            && b[15..21] == Bcd(t.day, 6) && b[21..24] == Bcd(t.dayOfWeek, 3)
            && b[24..29] == Bcd(t.month, 5) && b[29..37] == Bcd(t.year, 8)
            && b[..8] == WithParity(Bcd(t.minute, 7)) && b[8..15] == WithParity(Bcd(t.hour, 6))
            && b[15..] == WithParity(Bcd(t.day, 6) + Bcd(t.dayOfWeek, 3) + Bcd(t.month, 5) + Bcd(t.year, 8))
  {
  }

  lemma EvenWithParity(bits: seq<bool>)
    ensures !Odd(WithParity(bits))
  {
    assert WithParity(bits)[..|bits|] == bits;
  }

  lemma EncodedIsEven(t: DateTime)
    requires Valid(t)
    ensures !BadParity(Encode(t))
  {
    EncodeParts(t);
    EvenWithParity(Bcd(t.minute, 7));
    EvenWithParity(Bcd(t.hour, 6));
    EvenWithParity(Bcd(t.day, 6) + Bcd(t.dayOfWeek, 3) + Bcd(t.month, 5) + Bcd(t.year, 8));
  }

  lemma EncodedShows(t: DateTime, s: Decoder, r: Decoder)
    requires Valid(t) && Decoded(s, Encode(t), r)
    ensures Shows(r.newtime, t)
  {
    EncodeParts(t);
    BcdWeight(t.minute, 7);
    BcdWeight(t.hour, 6);
    BcdWeight(t.day, 6);
    BcdWeight(t.dayOfWeek, 3);
    BcdWeight(t.month, 5);
    BcdWeight(t.year, 8);
  }

  // The encoded bits, fed at seconds 21 to 58, leave the time behind and no error.
  lemma RoundTrip(s: Decoder, t: DateTime)
    requires Valid(t) && !s.parity
    ensures var r := Feed(BITNO, s, 21, Encode(t));
            Shows(r.newtime, t) && r.error == s.error && !r.parity
  {
    Tables();
    MinuteDecoded(BITNO, s, Encode(t));
    EncodedShows(t, s, Feed(BITNO, s, 21, Encode(t)));
    EncodedIsEven(t);
  }

  lemma {:induction false} OddFlip(bits: seq<bool>, k: nat)
    requires k < |bits|
    ensures Odd(bits[k := !bits[k]]) != Odd(bits)
    decreases |bits|
  {
    var n := |bits| - 1;
    var flipped := bits[k := !bits[k]];
    if k < n {
      assert flipped[..n] == bits[..n][k := !bits[k]];
      OddFlip(bits[..n], k);
    } else {
      assert flipped[..n] == bits[..n];
    }
  }

  // One wrong bit, whichever it is, is noticed.
  lemma FlipDetected(s: Decoder, t: DateTime, k: nat)
    requires Valid(t) && !s.parity && k < 38
    ensures var b := Encode(t);
            Feed(BITNO, s, 21, b[k := !b[k]]).error & PARITY_ERROR != 0
  {
    var b := Encode(t);
    var flipped: TimeBits := b[k := !b[k]];
    EncodedIsEven(t);
    assert BadParity(flipped) by {
      if k < 8 {
        assert flipped[..8] == b[..8][k := !b[k]];
        OddFlip(b[..8], k);
      } else if k < 15 {
        assert flipped[8..15] == b[8..15][k - 8 := !b[k]];
        OddFlip(b[8..15], k - 8);
      } else {
        assert flipped[15..] == b[15..][k - 15 := !b[k]];
        OddFlip(b[15..], k - 15);
      }
    }
    Tables();
    MinuteDecoded(BITNO, s, flipped);
    OrTwice(s.error);
  }
}
