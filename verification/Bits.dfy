// Bitwise operators on 32-bit words, as numbers.
module Bits {
  import opened Words

  function Power2(n: nat): (p: nat)
    ensures p > 0
  {
    if n == 0 then 1 else 2 * Power2(n - 1)
  }

  lemma Power32()
    ensures Power2(32) == 0x1_0000_0000
  {
    assert Power2(8) == 0x100;
    assert Power2(16) == 0x1_0000;
    assert Power2(24) == 0x100_0000;
  }

  function Bitwise(op: (bool, bool) -> bool, width: nat, a: nat, b: nat): (r: nat)
    requires a < Power2(width) && b < Power2(width)
    ensures r < Power2(width)
  {
    if width == 0 then 0
    else 2 * Bitwise(op, width - 1, a / 2, b / 2) + (if op(a % 2 == 1, b % 2 == 1) then 1 else 0)
  }

  function BitAnd(a: uint32, b: uint32): uint32 {
    Power32();
    Bitwise((x, y) => x && y, 32, a, b)
  }

  function BitOr(a: uint32, b: uint32): uint32 {
    Power32();
    Bitwise((x, y) => x || y, 32, a, b)
  }

  // The k-th bit of a number.
  predicate Bit(a: nat, k: nat) {
    a / Power2(k) % 2 == 1
  }

  lemma {:induction false} BitOfHalf(a: nat, k: nat)
    ensures Bit(a, k + 1) == Bit(a / 2, k)
  {
    DivideTwice(a, 2, Power2(k));
  }

  lemma DivideTwice(a: nat, m: nat, n: nat)
    requires m > 0 && n > 0
    ensures m * n > 0 && a / (m * n) == a / m / n
  {
    var q, r := a / m / n, a / m % n;
    assert a == m * (a / m) + a % m && a / m == n * q + r;
    assert m * (n * q + r) == m * n * q + m * r;
    assert m * r <= m * (n - 1) == m * n - m;
    RemainderUnique(q, m * r + a % m, m * n);
  }

  lemma {:induction false} BitwiseBit(op: (bool, bool) -> bool, width: nat, a: nat, b: nat, k: nat)
    requires a < Power2(width) && b < Power2(width) && k < width
    ensures Bit(Bitwise(op, width, a, b), k) == op(Bit(a, k), Bit(b, k))
  {
    var r := Bitwise(op, width, a, b);
    if k > 0 {
      BitwiseBit(op, width - 1, a / 2, b / 2, k - 1);
      BitOfHalf(a, k - 1);
      BitOfHalf(b, k - 1);
      BitOfHalf(r, k - 1);
    }
  }

  // Every bit of the results.
  lemma AndOrBits(a: uint32, b: uint32, k: nat)
    requires k < 32
    ensures Bit(BitAnd(a, b), k) == (Bit(a, k) && Bit(b, k))
    ensures Bit(BitOr(a, b), k) == (Bit(a, k) || Bit(b, k))
  {
    Power32();
    BitwiseBit((x, y) => x && y, 32, a, b, k);
    BitwiseBit((x, y) => x || y, 32, a, b, k);
  }

  // The bits determine the number.
  lemma {:induction false} SameBits(width: nat, a: nat, b: nat)
    requires a < Power2(width) && b < Power2(width)
    requires forall k :: 0 <= k < width ==> Bit(a, k) == Bit(b, k)
    ensures a == b
  {
    if width > 0 {
      forall k | 0 <= k < width - 1 ensures Bit(a / 2, k) == Bit(b / 2, k) {
        BitOfHalf(a, k);
        BitOfHalf(b, k);
      }
      SameBits(width - 1, a / 2, b / 2);
      assert Bit(a, 0) == Bit(b, 0);
    }
  }

  lemma NonzeroIff(a: uint32)
    ensures a != 0 <==> exists k: nat :: k < 32 && Bit(a, k)
  {
    Power32();
    if !exists k: nat :: k < 32 && Bit(a, k) {
      SameBits(32, a, 0);
    }
  }
}
