// The fixed-width integers of the firmware and of the host tools, as ranges of `int`.
// Operations that can leave the range are written out where they occur.
module Words {
  type uint8 = x: int | 0 <= x < 0x100
  type uint16 = x: int | 0 <= x < 0x1_0000
  type uint32 = x: int | 0 <= x < 0x1_0000_0000

  lemma RemainderUnique(q: int, r: int, n: int)
    requires 0 <= r < n
    ensures (q * n + r) % n == r
  {
    var x := q * n + r;
    var d := q - x / n;
    assert d * n == x % n - r;
    AtLeast(d, n);
  }

  lemma AtLeast(d: int, n: int)
    requires n > 0
    ensures d >= 1 ==> d * n >= n
    ensures d <= -1 ==> d * n <= -n
  {
  }

  lemma NibblesValue(high: int, low: int)
    requires 0 <= high < 0x10 && 0 <= low < 0x10
    ensures ((0x10 * high + low) as bv8) as int == 0x10 * high + low
  {
  }

  lemma ByteValue(x: int)
    requires 0 <= x < 0x100
    ensures (x as bv8) as int == x
  {
    NibblesValue(x / 0x10, x % 0x10);
  }
}
