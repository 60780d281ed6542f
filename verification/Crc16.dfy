// The CRC-16 over 16-bit words that the host and the bootloader compare firmware images with.
module Crc16 {
  // One bit of the reflected polynomial 0xA001.
  function BitStep(crc: bv16): bv16 {
    if crc & 1 == 1 then (crc >> 1) ^ 0xA001 else crc >> 1
  }

  function Steps(crc: bv16, n: nat): bv16 {
    if n == 0 then crc else BitStep(Steps(crc, n - 1))
  }

  function Update(crc: bv16, a: bv8): bv16 {
    Steps(crc ^ (a as bv16), 8)
  }

  // A word is taken high byte first.
  function WordUpdate(crc: bv16, low: bv8, high: bv8): bv16 {
    Update(Update(crc, high), low)
  }

  // The CRC over the first n little-endian words; a last odd byte does not count.
  function Crc(data: seq<bv8>, n: nat): bv16
    requires 2 * n <= |data|
  {
    if n == 0 then 0xFFFF else WordUpdate(Crc(data, n - 1), data[2 * n - 2], data[2 * n - 1])
  }

  method CrcUpdate(crc0: bv16, a: bv8) returns (crc: bv16)
    ensures crc == Update(crc0, a)
  {
    crc := crc0 ^ (a as bv16);
    for i := 0 to 8
      invariant crc == Steps(crc0 ^ (a as bv16), i)
    {
      if crc & 1 == 1 {
        crc := (crc >> 1) ^ 0xA001;
      } else {
        crc := crc >> 1;
      }
    }
  }

  // ---------- Injectivity ----------

  lemma BitStepInjective(x: bv16, y: bv16)
    requires BitStep(x) == BitStep(y)
    ensures x == y
  {
  }

  lemma {:induction false} StepsInjective(x: bv16, y: bv16, n: nat)
    requires Steps(x, n) == Steps(y, n)
    ensures x == y
  {
    if n > 0 {
      BitStepInjective(Steps(x, n - 1), Steps(y, n - 1));
      StepsInjective(x, y, n - 1);
    }
  }

  lemma XorCancels(x: bv16, y: bv16, z: bv16)
    ensures x ^ z == y ^ z ==> x == y
    ensures z ^ x == z ^ y ==> x == y
  {
    assert (x ^ z) ^ z == x && (y ^ z) ^ z == y;
    assert (z ^ x) ^ z == x && (z ^ y) ^ z == y;
  }

  // The update is injective in the state, and in the byte.
  lemma UpdateInjectiveInState(x: bv16, y: bv16, a: bv8)
    requires Update(x, a) == Update(y, a)
    ensures x == y
  {
    StepsInjective(x ^ (a as bv16), y ^ (a as bv16), 8);
    XorCancels(x, y, a as bv16);
  }

  lemma UpdateInjectiveInByte(x: bv16, a: bv8, b: bv8)
    requires Update(x, a) == Update(x, b)
    ensures a == b
  {
    StepsInjective(x ^ (a as bv16), x ^ (b as bv16), 8);
    XorCancels(a as bv16, b as bv16, x);
  }

  lemma EightSteps(x: bv16)
    ensures Steps(x, 8) == BitStep(BitStep(BitStep(BitStep(BitStep(BitStep(BitStep(BitStep(x))))))))
  {
    assert Steps(x, 1) == BitStep(x);
    assert Steps(x, 2) == BitStep(Steps(x, 1));
    assert Steps(x, 3) == BitStep(Steps(x, 2));
    assert Steps(x, 4) == BitStep(Steps(x, 3));
    assert Steps(x, 5) == BitStep(Steps(x, 4));
    assert Steps(x, 6) == BitStep(Steps(x, 5));
    assert Steps(x, 7) == BitStep(Steps(x, 6));
  }

  // Eight steps carry a difference in the low byte into the high byte.
  lemma LowByteSpreads(x: bv16, y: bv16)
    requires x & 0xFF00 == y & 0xFF00
    requires Steps(x, 8) & 0xFF00 == Steps(y, 8) & 0xFF00
    ensures x == y
  {
    EightSteps(x);
    EightSteps(y);
  }

  lemma SameHighByte(x: bv16, y: bv16, a: bv8, b: bv8)
    ensures (x ^ (a as bv16)) & 0xFF00 == x & 0xFF00
    ensures x ^ (a as bv16) == y ^ (b as bv16) ==> x & 0xFF00 == y & 0xFF00
  {
  }

  lemma HighByteFromState(crc: bv16, high: bv8, high2: bv8)
    requires Update(crc, high) & 0xFF00 == Update(crc, high2) & 0xFF00
    ensures high == high2
  {
    SameHighByte(crc, crc, high, high2);
    SameHighByte(crc, crc, high2, high);
    LowByteSpreads(crc ^ (high as bv16), crc ^ (high2 as bv16));
    XorCancels(high as bv16, high2 as bv16, crc);
  }

  lemma SameStateAfterByte(x: bv16, y: bv16, a: bv8, b: bv8)
    requires Update(x, a) == Update(y, b)
    ensures x & 0xFF00 == y & 0xFF00
  {
    StepsInjective(x ^ (a as bv16), y ^ (b as bv16), 8);
    SameHighByte(x, y, a, b);
  }

  lemma WordUpdateInjective(crc: bv16, low: bv8, high: bv8, low2: bv8, high2: bv8)
    requires WordUpdate(crc, low, high) == WordUpdate(crc, low2, high2)
    ensures low == low2 && high == high2
  {
    SameStateAfterByte(Update(crc, high), Update(crc, high2), low, low2);
    HighByteFromState(crc, high, high2);
    UpdateInjectiveInByte(Update(crc, high), low, low2);
  }

  // ---------- Detection ----------

  lemma {:induction false} CrcPrefix(d: seq<bv8>, e: seq<bv8>, n: nat)
    requires 2 * n <= |d| && 2 * n <= |e| && d[..2 * n] == e[..2 * n]
    ensures Crc(d, n) == Crc(e, n)
  {
    if n > 0 {
      assert d[..2 * n - 2] == d[..2 * n][..2 * n - 2] == e[..2 * n - 2];
      assert d[..2 * n][2 * n - 2] == e[..2 * n][2 * n - 2] && d[..2 * n][2 * n - 1] == e[..2 * n][2 * n - 1];
      CrcPrefix(d, e, n - 1);
    }
  }

  // Two images that differ in exactly one word have different CRCs.
  lemma {:induction false} OneWordDetected(d: seq<bv8>, e: seq<bv8>, word: nat, n: nat)
    requires |d| == |e| && word < n && 2 * n <= |d|
    requires d[2 * word] != e[2 * word] || d[2 * word + 1] != e[2 * word + 1]
    requires forall k :: 0 <= k < 2 * n && k / 2 != word ==> d[k] == e[k]
    ensures Crc(d, n) != Crc(e, n)
  {
    if n - 1 == word {
      CrcPrefix(d, e, word);
      if Crc(d, n) == Crc(e, n) {
        WordUpdateInjective(Crc(d, word), d[2 * word], d[2 * word + 1], e[2 * word], e[2 * word + 1]);
      }
    } else {
      OneWordDetected(d, e, word, n - 1);
      var low, high := d[2 * n - 2], d[2 * n - 1];
      assert low == e[2 * n - 2] && high == e[2 * n - 1];
      if Crc(d, n) == Crc(e, n) {
        UpdateInjectiveInState(Update(Crc(d, n - 1), high), Update(Crc(e, n - 1), high), low);
        UpdateInjectiveInState(Crc(d, n - 1), Crc(e, n - 1), high);
      }
    }
  }

  // ---------- The standard CRC ----------

  // Byte after byte from some state on.
  function Fold(crc: bv16, bytes: seq<bv8>): bv16
    decreases |bytes|
  {
    if bytes == [] then crc else Fold(Update(crc, bytes[0]), bytes[1..])
  }

  // The first n words with their two bytes exchanged.
  function Swapped(data: seq<bv8>, n: nat): seq<bv8>
    requires 2 * n <= |data|
  {
    seq(2 * n, k requires 0 <= k < 2 * n => if k % 2 == 0 then data[k + 1] else data[k - 1])
  }

  lemma {:induction false} FoldConcat(crc: bv16, a: seq<bv8>, b: seq<bv8>)
    ensures Fold(crc, a + b) == Fold(Fold(crc, a), b)
    decreases |a|
  {
    if a == [] {
      assert a + b == b;
    } else {
      assert (a + b)[1..] == a[1..] + b;
      FoldConcat(Update(crc, a[0]), a[1..], b);
    }
  }

  lemma FoldOne(crc: bv16, x: bv8)
    ensures Fold(crc, [x]) == Update(crc, x)
  {
    assert [x][1..] == [];
  }

  lemma FoldTwo(crc: bv16, x: bv8, y: bv8)
    ensures Fold(crc, [x, y]) == Update(Update(crc, x), y)
  {
    assert [x, y][1..] == [y];
    FoldOne(Update(crc, x), y);
  }

  // The checksum of an image is that of its words, high bytes first.
  lemma {:induction false} CrcIsFold(data: seq<bv8>, n: nat)
    requires 2 * n <= |data|
    ensures Crc(data, n) == Fold(0xFFFF, Swapped(data, n))
  {
    if n > 0 {
      var x, y := data[2 * n - 1], data[2 * n - 2];
      CrcIsFold(data, n - 1);
      assert Swapped(data, n) == Swapped(data, n - 1) + [x, y];
      FoldConcat(0xFFFF, Swapped(data, n - 1), [x, y]);
      FoldTwo(Crc(data, n - 1), x, y);
    } else {
      assert Swapped(data, n) == [];
    }
  }

  lemma OneUpdate(crc: bv16, a: bv8, next: bv16)
    requires var x := crc ^ (a as bv16);
             BitStep(BitStep(BitStep(BitStep(BitStep(BitStep(BitStep(BitStep(x)))))))) == next
    ensures Update(crc, a) == next
  {
    EightSteps(crc ^ (a as bv16));
  }

  lemma FoldThree(crc: bv16, x: bv8, y: bv8, z: bv8)
    ensures Fold(crc, [x, y, z]) == Update(Update(Update(crc, x), y), z)
  {
    FoldTwo(crc, x, y);
    FoldConcat(crc, [x, y], [z]);
    assert [x, y] + [z] == [x, y, z];
    FoldOne(Update(Update(crc, x), y), z);
  }

  // The published check value of CRC-16/MODBUS: that of the digits 1 to 9.
  lemma CheckValue()
    ensures Fold(0xFFFF, [0x31, 0x32, 0x33] + [0x34, 0x35, 0x36] + [0x37, 0x38, 0x39]) == 0x4B37
  {
    OneUpdate(0xFFFF, 0x31, 0x947E);
    OneUpdate(0x947E, 0x32, 0xF595);
    OneUpdate(0xF595, 0x33, 0x7A75);
    OneUpdate(0x7A75, 0x34, 0x30BA);
    OneUpdate(0x30BA, 0x35, 0xA471);
    OneUpdate(0xA471, 0x36, 0x32E4);
    OneUpdate(0x32E4, 0x37, 0x9D73);
    OneUpdate(0x9D73, 0x38, 0x37DD);
    OneUpdate(0x37DD, 0x39, 0x4B37);
    var a, b, c := [0x31, 0x32, 0x33], [0x34, 0x35, 0x36], [0x37, 0x38, 0x39];
    FoldConcat(0xFFFF, a + b, c);
    FoldConcat(0xFFFF, a, b);
    FoldThree(0xFFFF, 0x31, 0x32, 0x33);
    FoldThree(0x7A75, 0x34, 0x35, 0x36);
    FoldThree(0x32E4, 0x37, 0x38, 0x39);
  }
}
