// The ROM search of the 1-Wire master (Search ROM [F0h], DS18B20 data sheet, "ROM Commands")
// and the discovery loop around it.
module OneWire {
  import opened Words
  import opened OneWireBus

  const SEARCH_FIRST: uint8 := 0xFF
  const PRESENCE_ERR: uint8 := 0xFF
  const DATA_ERR: uint8 := 0xFE
  const LAST_DEVICE: uint8 := 0x00

  // ---------- Order on ROM codes ----------

  // d and q agree before position k, where d has a 0 and q has a 1.
  ghost predicate BranchesLow(d: Rom, q: seq<bool>, k: nat) {
    k < |q| <= 64 && d[..k] == q[..k] && !d[k] && q[k]
  }

  // Lexicographic order in transmission order, 0 before 1.
  ghost predicate Less(d: Rom, e: Rom) {
    exists k: nat :: BranchesLow(d, e, k)
  }

  // What the "last discrepancy" returned by a search pass means for the code it found: 0 when no
  // device lies below the code, else 64 minus the deepest position where a device branches off low.
  ghost predicate Marks(devices: set<Rom>, q: seq<bool>, diff: uint8) {
    && diff <= 64
    && (forall d: Rom, k: nat :: d in devices && BranchesLow(d, q, k) ==> 64 - diff >= k && diff > 0)
    && (diff > 0 ==> exists d: Rom :: d in devices && BranchesLow(d, q, 64 - diff))
  }

  lemma LessTransitive(a: Rom, b: Rom, c: Rom)
    requires Less(a, b) && Less(b, c)
    ensures Less(a, c)
  {
    var j: nat :| BranchesLow(a, b, j);
    var k: nat :| BranchesLow(b, c, k);
    if j < k {
      assert b[..k][..j] == b[..j] && c[..k][..j] == c[..j];
      assert b[..k][j] == b[j] && c[..k][j] == c[j];
      assert BranchesLow(a, c, j);
    } else {
      assert j != k;
      assert a[..j][..k] == a[..k] && b[..j][..k] == b[..k];
      assert a[..j][k] == a[k] && b[..j][k] == b[k];
      assert BranchesLow(a, c, k);
    }
  }

  lemma LessIrreflexive(a: Rom)
    ensures !Less(a, a)
  {
  }

  lemma {:induction false} FirstDifference(a: Rom, b: Rom, p: nat) returns (k: nat)
    requires p <= 64 && a[..p] == b[..p] && a != b
    ensures p <= k < 64 && a[..k] == b[..k] && a[k] != b[k]
    decreases 64 - p
  {
    assert a[..64] == a && b[..64] == b;
    if a[p] != b[p] {
      k := p;
    } else {
      assert a[..p + 1] == a[..p] + [a[p]] == b[..p + 1];
      k := FirstDifference(a, b, p + 1);
    }
  }

  lemma LessTotal(a: Rom, b: Rom)
    requires a != b
    ensures Less(a, b) || Less(b, a)
  {
    var k := FirstDifference(a, b, 0);
    assert BranchesLow(a, b, k) || BranchesLow(b, a, k);
  }

  // ---------- The ID buffer ----------

  // The bits of the bytes of the 8 byte buffer.
  function Rows(id: seq<bv8>): (rows: seq<seq<bool>>)
    ensures |rows| == |id|
    ensures forall k :: 0 <= k < |id| ==> rows[k] == ByteBits(id[k])
  {
    seq(|id|, k requires 0 <= k < |id| => ByteBits(id[k]))
  }

  // The ROM code held in the buffer.
  function RomOf(id: seq<bv8>): (r: Rom)
    requires |id| == 8
  {
    BitsOf(id)
  }

  function BitsOf(id: seq<bv8>): (bits: seq<bool>)
    ensures |bits| == 8 * |id|
  {
    if id == [] then [] else BitsOf(id[..|id| - 1]) + ByteBits(id[|id| - 1])
  }

  lemma {:induction false} BitOfByte(id: seq<bv8>, row: nat, column: nat)
    requires row < |id| && column < 8
    ensures BitsOf(id)[8 * row + column] == ByteBits(id[row])[column]
  {
    if row < |id| - 1 {
      BitOfByte(id[..|id| - 1], row, column);
    }
  }

  function Flat(rows: seq<seq<bool>>): Rom
    requires |rows| == 8 && forall k :: 0 <= k < 8 ==> |rows[k]| == 8
  {
    seq(64, k requires 0 <= k < 64 => rows[k / 8][k % 8])
  }

  lemma RomOfRows(id: seq<bv8>)
    requires |id| == 8
    ensures RomOf(id) == Flat(Rows(id))
  {
    forall k | 0 <= k < 64 ensures RomOf(id)[k] == Flat(Rows(id))[k] {
      BitOfByte(id, k / 8, k % 8);
    }
  }

  // The buffer while byte b is shifted: the bits q have been shifted in, in place of as many bits of `was`.
  ghost predicate Shifting(was: seq<seq<bool>>, q: seq<bool>, rows: seq<seq<bool>>, b: nat)
    requires |was| == 8 && forall k :: 0 <= k < 8 ==> |was[k]| == 8
  {
    && b <= 8 && |rows| == 8 && 8 * b <= |q| <= 8 * b + 8 && |q| <= 64
    && (forall k :: 0 <= k < b ==> rows[k] == q[8 * k..8 * k + 8])
    && (b < 8 ==> rows[b] == was[b][|q| - 8 * b..] + q[8 * b..])
    && (forall k :: b < k < 8 ==> rows[k] == was[k])
  }

  lemma ShiftingStep(was: seq<seq<bool>>, q: seq<bool>, rows: seq<seq<bool>>, b: nat, c: bool)
    requires |was| == 8 && forall k :: 0 <= k < 8 ==> |was[k]| == 8
    requires b < 8 && |q| < 8 * b + 8 && Shifting(was, q, rows, b)
    ensures |rows[b]| == 8 && rows[b][0] == was[b][|q| - 8 * b]
    ensures Shifting(was, q + [c], rows[b := rows[b][1..] + [c]], b)
  {
    var q' := q + [c];
    assert q'[8 * b..] == q[8 * b..] + [c];
    forall k | 0 <= k < b ensures q'[8 * k..8 * k + 8] == q[8 * k..8 * k + 8] {
      assert 8 * k + 8 <= |q|;
    }
  }

  lemma ShiftingNextByte(was: seq<seq<bool>>, q: seq<bool>, rows: seq<seq<bool>>, b: nat)
    requires |was| == 8 && forall k :: 0 <= k < 8 ==> |was[k]| == 8
    requires b < 8 && |q| == 8 * b + 8 && Shifting(was, q, rows, b)
    ensures Shifting(was, q, rows, b + 1)
  {
    if b < 7 {
      assert was[b + 1][0..] == was[b + 1];
    }
  }

  lemma ShiftingDone(was: seq<seq<bool>>, q: seq<bool>, id: seq<bv8>)
    requires |was| == 8 && forall k :: 0 <= k < 8 ==> |was[k]| == 8
    requires |id| == 8 && Shifting(was, q, Rows(id), 8)
    ensures RomOf(id) == q
  {
    RomOfRows(id);
    var r := Flat(Rows(id));
    forall k | 0 <= k < 64 ensures r[k] == q[k] {
      assert Rows(id)[k / 8] == q[8 * (k / 8)..8 * (k / 8) + 8];
    }
  }

  // ---------- One pass ----------

  ghost function Matching(devices: set<Rom>, q: seq<bool>): set<Rom>
    requires |q| <= 64
  {
    set d <- devices | d[..|q|] == q
  }

  // Among the devices that share the first n bits of q, those no longer matching branched off low.
  ghost predicate GreatestFrom(devices: set<Rom>, q: seq<bool>, n: nat)
    requires n <= |q| <= 64
  {
    forall d: Rom :: d in devices && d[..n] == q[..n] ==> d[..|q|] == q || exists k: nat :: BranchesLow(d, q, k)
  }

  // The bits q chosen so far lead to the greatest code (first pass) or to the next smaller one.
  ghost predicate Guided(devices: set<Rom>, diff: uint8, was: Rom, q: seq<bool>)
    requires |q| <= 64
  {
    && (diff == SEARCH_FIRST ==> GreatestFrom(devices, q, 0))
    && (0 < diff && was in devices && Marks(devices, was, diff) ==>
          var m := 64 - diff;
          if |q| <= m then q == was[..|q|]
          else q[..m] == was[..m] && !q[m] && GreatestFrom(devices, q, m + 1))
  }

  ghost predicate Searching(devices: set<Rom>, diff: uint8, was: Rom, q: seq<bool>, active: set<Rom>, next: uint8) {
    && |q| <= 64
    && active == Matching(devices, q) && active != {}
    && Marks(devices, q, next)
    && Guided(devices, diff, was, q)
  }

  // The bit written after reading `one` (all participants have a 1) and `zero` (all have a 0),
  // at countdown i where the previous code has the bit wasBit.
  predicate Choice(one: bool, zero: bool, diff: uint8, i: uint8, wasBit: bool) {
    one || (!zero && (diff > i || (wasBit && diff != i)))
  }

  lemma BranchExtended(d: Rom, q: seq<bool>, b: bool, k: nat)
    requires |q| < 64
    ensures k < |q| ==> (BranchesLow(d, q + [b], k) <==> BranchesLow(d, q, k))
    ensures BranchesLow(d, q + [b], |q|) <==> d[..|q|] == q && !d[|q|] && b
  {
    assert (q + [b])[..|q|] == q;
    if k < |q| {
      assert (q + [b])[..k] == q[..k];
    }
  }

  lemma MatchExtended(d: Rom, q: seq<bool>, b: bool)
    requires |q| < 64
    ensures d[..|q| + 1] == q + [b] <==> d[..|q|] == q && d[|q|] == b
  {
    assert d[..|q| + 1] == d[..|q|] + [d[|q|]];
    if d[..|q| + 1] == q + [b] {
      assert d[..|q|] == d[..|q| + 1][..|q|] == q;
      assert d[|q|] == d[..|q| + 1][|q|] == b;
    }
  }

  lemma MatchingStep(devices: set<Rom>, q: seq<bool>, b: bool)
    requires |q| < 64
    ensures Matching(devices, q + [b]) == set d <- Matching(devices, q) | d[|q|] == b
  {
    forall d: Rom {
      MatchExtended(d, q, b);
    }
  }

  lemma MarksStep(devices: set<Rom>, q: seq<bool>, next: uint8, b: bool, sibling: bool)
    requires |q| < 64 && Marks(devices, q, next)
    requires sibling <==> b && exists d: Rom :: d in Matching(devices, q) && !d[|q|]
    ensures Marks(devices, q + [b], if sibling then 64 - |q| else next)
  {
    var next' := if sibling then 64 - |q| else next;
    forall d: Rom, k: nat | d in devices && BranchesLow(d, q + [b], k)
      ensures 64 - next' >= k && next' > 0
    {
      BranchExtended(d, q, b, k);
      if k < |q| {
        assert BranchesLow(d, q, k);
      } else {
        assert d in Matching(devices, q);
      }
    }
    if sibling {
      var d: Rom :| d in Matching(devices, q) && !d[|q|];
      BranchExtended(d, q, b, |q|);
    } else if next > 0 {
      var d: Rom :| d in devices && BranchesLow(d, q, 64 - next);
      BranchExtended(d, q, b, 64 - next);
    }
  }

  // Taking the 1 wherever there is one keeps the search on the greatest code.
  lemma GreatestStep(devices: set<Rom>, q: seq<bool>, n: nat, b: bool)
    requires n <= |q| < 64 && GreatestFrom(devices, q, n)
    requires !b ==> forall d :: d in Matching(devices, q) ==> !d[|q|]
    ensures GreatestFrom(devices, q + [b], n)
  {
    var q' := q + [b];
    forall d: Rom | d in devices && d[..n] == q'[..n]
      ensures d[..|q'|] == q' || exists k: nat :: BranchesLow(d, q', k)
    {
      assert q'[..n] == q[..n];
      MatchExtended(d, q, b);
      if d[..|q|] == q {
        assert d in Matching(devices, q);
        BranchExtended(d, q, b, |q|);
      } else {
        var k: nat :| BranchesLow(d, q, k);
        BranchExtended(d, q, b, k);
      }
    }
  }

  // A new level of the trie: nothing has been decided below it yet.
  lemma GreatestHere(devices: set<Rom>, q: seq<bool>)
    requires |q| <= 64
    ensures GreatestFrom(devices, q, |q|)
  {
    assert q[..|q|] == q;
  }

  // While the previous code is being followed, the choice is its own bit; at the marked position it is 0.
  lemma FollowStep(devices: set<Rom>, diff: uint8, was: Rom, q: seq<bool>, one: bool, zero: bool)
    requires |q| < 64 && 0 < diff && |q| <= 64 - diff
    requires was in devices && Marks(devices, was, diff) && q == was[..|q|]
    requires one <==> forall d :: d in Matching(devices, q) ==> d[|q|]
    requires zero <==> forall d :: d in Matching(devices, q) ==> !d[|q|]
    ensures Choice(one, zero, diff, 64 - |q|, was[|q|]) == (was[|q|] && |q| < 64 - diff)
  {
    assert was in Matching(devices, q);
    if |q| == 64 - diff {
      var d: Rom :| d in devices && BranchesLow(d, was, |q|);
      assert d in Matching(devices, q);
    }
  }

  lemma GuidedStep(devices: set<Rom>, diff: uint8, was: Rom, q: seq<bool>, one: bool, zero: bool)
    requires |q| < 64 && Guided(devices, diff, was, q)
    requires one <==> forall d :: d in Matching(devices, q) ==> d[|q|]
    requires zero <==> forall d :: d in Matching(devices, q) ==> !d[|q|]
    ensures Guided(devices, diff, was, q + [Choice(one, zero, diff, 64 - |q|, was[|q|])])
  {
    var p := |q|;
    var b := Choice(one, zero, diff, 64 - p, was[p]);
    var q' := q + [b];
    if diff == SEARCH_FIRST {
      GreatestStep(devices, q, 0, b);
    }
    if 0 < diff && was in devices && Marks(devices, was, diff) {
      var m := 64 - diff;
      if p <= m {
        FollowStep(devices, diff, was, q, one, zero);
        assert was[..p + 1] == was[..p] + [was[p]];
        if p == m {
          assert was[..m] == q == q'[..m];
          GreatestHere(devices, q');
        }
      } else {
        assert q'[..m] == q[..m] && q'[m] == q[m];
        GreatestStep(devices, q, m + 1, b);
      }
    }
  }

  lemma SearchStep(devices: set<Rom>, diff: uint8, was: Rom, q: seq<bool>, active: set<Rom>, next: uint8,
                   one: bool, zero: bool)
    requires |q| < 64 && Searching(devices, diff, was, q, active, next)
    requires one <==> forall d :: d in active ==> d[|q|]
    requires zero <==> forall d :: d in active ==> !d[|q|]
    ensures !(one && zero)
    ensures var b := Choice(one, zero, diff, 64 - |q|, was[|q|]);
            Searching(devices, diff, was, q + [b], set d <- active | d[|q|] == b,
                      if !one && !zero && b then 64 - |q| else next)
  {
    var b := Choice(one, zero, diff, 64 - |q|, was[|q|]);
    MatchingStep(devices, q, b);
    MarksStep(devices, q, next, b, !one && !zero && b);
    GuidedStep(devices, diff, was, q, one, zero);
    var d :| d in active;
    if !one && !zero {
      var d1: Rom :| d1 in active && d1[|q|];
      var d0: Rom :| d0 in active && !d0[|q|];
      assert (if b then d1 else d0) in Matching(devices, q + [b]);
    } else {
      assert d in Matching(devices, q + [b]);
    }
  }

  lemma SearchStart(devices: set<Rom>, diff: uint8, was: Rom)
    requires devices != {}
    ensures Searching(devices, diff, was, [], devices, LAST_DEVICE)
  {
    assert Matching(devices, []) == devices;
    assert was[..0] == [];
  }

  // What a pass finds: the greatest device when it is the first one, the next smaller device when
  // it continues from a device and its mark; and in any case a device and its mark.
  ghost predicate PassFound(devices: set<Rom>, was: Rom, diff: uint8, rom: Rom, next: uint8) {
    && rom in devices && Marks(devices, rom, next)
    && (diff == SEARCH_FIRST ==> Greatest(devices, rom))
    && (0 < diff && was in devices && Marks(devices, was, diff) ==> NextBelow(devices, was, rom))
  }

  lemma SearchDone(devices: set<Rom>, diff: uint8, was: Rom, rom: Rom, active: set<Rom>, next: uint8)
    requires Searching(devices, diff, was, rom, active, next)
    ensures PassFound(devices, was, diff, rom, next)
  {
    var d0 :| d0 in active;
    assert d0 == d0[..64] == rom;
    if diff == SEARCH_FIRST {
      forall d | d in devices && d != rom ensures Less(d, rom) {
        assert d == d[..64];
        assert d[..0] == rom[..0];
      }
    }
    if 0 < diff && was in devices && Marks(devices, was, diff) {
      var m := 64 - diff;
      assert BranchesLow(rom, was, m) by {
        var d: Rom :| d in devices && BranchesLow(d, was, m);
      }
      forall e | e in devices && Less(e, was) ensures e == rom || Less(e, rom) {
        var k: nat :| BranchesLow(e, was, k);
        assert k <= m;
        if k < m {
          assert was[..m][..k] == was[..k] && rom[..m][..k] == rom[..k];
          assert was[..m][k] == was[k] && rom[..m][k] == rom[k];
          assert BranchesLow(e, rom, k);
        } else {
          assert e[..m + 1] == e[..m] + [false] == rom[..m + 1];
          assert e == e[..64] && rom == rom[..64];
        }
      }
    }
  }

  ghost predicate Greatest(devices: set<Rom>, rom: Rom) {
    rom in devices && forall d :: d in devices && d != rom ==> Less(d, rom)
  }

  // rom is the greatest device below `was`.
  ghost predicate NextBelow(devices: set<Rom>, was: Rom, rom: Rom) {
    rom in devices && Less(rom, was) && forall d :: d in devices && Less(d, was) ==> d == rom || Less(d, rom)
  }

  ghost predicate Unplugged(bus: Bus, since: nat)
    reads bus
  {
    bus.attached(bus.clock) != bus.attached(since)
  }

  // Where the bus stands between two bits of a pass that began at `start`.
  ghost predicate Progress(bus: Bus, start: nat, i: uint8)
    reads bus
  {
    && bus.clock > start
    && i <= 64
    && bus.state.mode == (if i == 0 then Idle else Search(64 - i, ReadBit))
    && bus.attached(bus.clock) <= bus.attached(start)
  }

  // What the three slots of bit p yield when the participants stay plugged in.
  ghost predicate BitFound(diff: uint8, p: nat, low: bool, active: set<Rom>, next: uint8,
                           failed: bool, bit: bool, next': uint8, active': set<Rom>)
    requires p < 64
  {
    var one, zero := (forall d :: d in active ==> d[p]), (forall d :: d in active ==> !d[p]);
    && (failed <==> one && zero)
    && (!failed ==>
          && bit == Choice(one, zero, diff, 64 - p, low)
          && next' == (if !one && !zero && bit then 64 - p else next)
          && active' == set d <- active | d[p] == bit)
  }

  // The two read slots and the write slot of one bit; `low` is the bit of the previous code.
  method SearchBit(bus: Bus, diff: uint8, i: uint8, low: bool, next: uint8)
    returns (failed: bool, bit: bool, next': uint8)
    requires 0 < i <= 64 && bus.state.mode == Search(64 - i, ReadBit)
    requires bus.OnlyUnplugged()
    modifies bus
    ensures bus.clock > old(bus.clock)
    ensures bus.attached(bus.clock) <= bus.attached(old(bus.clock))
    ensures !failed ==> bus.state.mode == if i == 1 then Idle else Search(64 - i + 1, ReadBit)
    ensures next' == next || next' == i
    ensures old(bus.state.active) <= bus.attached(old(bus.clock)) == bus.attached(bus.clock) ==>
              BitFound(diff, 64 - i, low, old(bus.state.active), next, failed, bit, next', bus.state.active)
  {
    ghost var t := bus.clock;
    assert bus.attached(t + 3) <= bus.attached(t + 2) <= bus.attached(t + 1) <= bus.attached(t);
    failed, next' := false, next;
    bit := bus.BitIO(true);
    var complement := bus.BitIO(true);
    if complement {
      if bit {
        failed := true;
        return;
      }
    } else if !bit {
      if diff > i || (low && diff != i) {
        bit := true;
        next' := i;
      }
    }
    var _ := bus.BitIO(bit);
  }

  // Shifts one bit into the byte at b.
  method ShiftId(id: array<bv8>, b: nat, bit: bool, ghost was: seq<seq<bool>>, ghost q: seq<bool>)
    requires id.Length == 8 && b < 8
    requires |was| == 8 && forall k :: 0 <= k < 8 ==> |was[k]| == 8
    requires |q| < 8 * b + 8 && Shifting(was, q, Rows(id[..]), b)
    modifies id
    ensures Shifting(was, q + [bit], Rows(id[..]), b)
  {
    ShiftingStep(was, q, Rows(id[..]), b, bit);
    ShiftInBits(id[b], bit);
    ghost var rows := Rows(id[..]);
    ghost var byte := ShiftIn(id[b], bit);
    id[b] := id[b] >> 1;
    if bit {
      id[b] := id[b] | 0x80;
    }
    assert id[b] == byte;
    assert Rows(id[..]) == rows[b := rows[b][1..] + [bit]];
  }

  // A pass with the code `was` in the buffer at its beginning, in byte b; unless something has been
  // unplugged, the search is on its way.
  ghost predicate OnTheWay(stable: bool, devices: set<Rom>, diff: uint8, was: seq<seq<bool>>, q: seq<bool>,
                           rows: seq<seq<bool>>, active: set<Rom>, b: nat, next: uint8) {
    && |was| == 8 && (forall k :: 0 <= k < 8 ==> |was[k]| == 8)
    && next <= 64 && Shifting(was, q, rows, b)
    && (stable ==> Searching(devices, diff, Flat(was), q, active, next))
  }

  lemma OneBitOn(stable: bool, devices: set<Rom>, diff: uint8, was: seq<seq<bool>>, q: seq<bool>,
                 rows: seq<seq<bool>>, active: set<Rom>, b: nat, next: uint8,
                 low: bool, failed: bool, bit: bool, next': uint8, active': set<Rom>, rows': seq<seq<bool>>)
    requires OnTheWay(stable, devices, diff, was, q, rows, active, b, next)
    requires b < 8 && |q| < 8 * b + 8 && low == rows[b][0]
    requires stable ==> BitFound(diff, |q|, low, active, next, failed, bit, next', active')
    requires !failed ==> Shifting(was, q + [bit], rows', b) && next' <= 64
    ensures stable ==> !failed
    ensures !failed ==> OnTheWay(stable, devices, diff, was, q + [bit], rows', active', b, next')
  {
    ShiftingStep(was, q, rows, b, true);
    assert Flat(was)[|q|] == was[b][|q| - 8 * b];
    if stable {
      SearchStep(devices, diff, Flat(was), q, active, next,
                 forall d :: d in active ==> d[|q|], forall d :: d in active ==> !d[|q|]);
    }
  }

  lemma StillStable(stable: bool, devices: set<Rom>, diff: uint8, was: seq<seq<bool>>, q: seq<bool>,
                   rows: seq<seq<bool>>, active: set<Rom>, b: nat, next: uint8)
    requires OnTheWay(stable, devices, diff, was, q, rows, active, b, next)
    ensures OnTheWay(false, devices, diff, was, q, rows, active, b, next)
    ensures stable ==> active <= devices
    ensures |q| < 8 * b + 8 && b < 8 ==> |q| < 64 && rows[b] != []
  {
    if |q| < 8 * b + 8 && b < 8 {
      ShiftingStep(was, q, rows, b, true);
    }
  }

  // A pass that began at `start`, before the bit counted by i, in byte b.
  ghost predicate InPass(bus: Bus, start: nat, diff: uint8, was: seq<seq<bool>>, q: seq<bool>, id: seq<bv8>,
                         i: uint8, b: nat, next: uint8)
    reads bus
  {
    && |id| == 8 && Progress(bus, start, i) && |q| == 64 - i
    && OnTheWay(!Unplugged(bus, start), bus.attached(start), diff, was, q, Rows(id), bus.state.active, b, next)
  }

  // The body of the inner loop.
  method BitStep(bus: Bus, diff: uint8, i: uint8, id: array<bv8>, b: nat, next: uint8,
                 ghost start: nat, ghost was: seq<seq<bool>>, ghost q: seq<bool>)
    returns (failed: bool, next': uint8, ghost q': seq<bool>)
    requires bus.OnlyUnplugged() && id.Length == 8
    requires i > 0 && b < 8 && 64 - i < 8 * b + 8 && InPass(bus, start, diff, was, q, id[..], i, b, next)
    modifies bus, id
    ensures bus.clock > old(bus.clock)
    ensures failed ==> Unplugged(bus, start)
    ensures !failed ==> InPass(bus, start, diff, was, q', id[..], i - 1, b, next')
  {
    ghost var active, rows, here := bus.state.active, Rows(id[..]), bus.attached(bus.clock);
    StillStable(!Unplugged(bus, start), bus.attached(start), diff, was, q, rows, active, b, next);
    var low, bit := id[b] & 0x01 != 0, false;
    FirstBit(id[b]);
    failed, bit, next' := SearchBit(bus, diff, i, low, next);
    q' := q + [bit];
    assert !Unplugged(bus, start) ==> active <= here == bus.attached(bus.clock);
    if !failed {
      ShiftId(id, b, bit, was, q);
    }
    OneBitOn(!Unplugged(bus, start), bus.attached(start), diff, was, q, rows, active, b, next,
             low, failed, bit, next', bus.state.active, Rows(id[..]));
  }

  lemma FirstBit(b: bv8)
    ensures ByteBits(b)[0] == (b & 0x01 != 0)
  {
  }

  method RomSearch(bus: Bus, diff: uint8, id: array<bv8>) returns (next: uint8)
    requires id.Length == 8 && bus.OnlyUnplugged()
    modifies bus, id
    ensures bus.clock > old(bus.clock)
    ensures next == PRESENCE_ERR <==> old(bus.attached(bus.clock)) == {}
    ensures next == PRESENCE_ERR || next == DATA_ERR || next <= 64
    ensures next == DATA_ERR ==> Unplugged(bus, old(bus.clock))
    ensures !Unplugged(bus, old(bus.clock)) && next <= 64 ==>
              PassFound(bus.attached(bus.clock), old(RomOf(id[..])), diff, RomOf(id[..]), next)
  {
    ghost var start := bus.clock;
    ghost var devices := bus.attached(start);
    ghost var was := Rows(id[..]);
    RomOfRows(id[..]);
    var absent := bus.Reset();
    if absent {
      return PRESENCE_ERR;
    }
    var _ := bus.WriteByte(SEARCH_ROM);
    next := LAST_DEVICE;
    var i: uint8 := 64;
    var b := 0;
    ghost var q: seq<bool> := [];
    SearchStart(devices, diff, Flat(was));
    assert bus.attached(bus.clock) <= bus.attached(bus.clock - 1) <= devices;
    while i > 0
      invariant 0 <= b <= 8 && i == 64 - 8 * b
      invariant InPass(bus, start, diff, was, q, id[..], i, b, next)
    {
      var j := 8;
      while j > 0
        invariant 0 <= j <= 8 && i == 64 - 8 * b - 8 + j
        invariant InPass(bus, start, diff, was, q, id[..], i, b, next)
      {
        var failed;
        failed, next, q := BitStep(bus, diff, i, id, b, next, start, was, q);
        if failed {
          return DATA_ERR;
        }
        i := i - 1;
        j := j - 1;
      }
      ShiftingNextByte(was, q, Rows(id[..]), b);
      b := b + 1;
    }
    ShiftingDone(was, q, id[..]);
    if !Unplugged(bus, start) {
      SearchDone(devices, diff, Flat(was), q, bus.state.active, next);
    }
  }

  // ---------- Discovery ----------

  datatype Answer = DiscoveredPart1(bytes: seq<bv8>) | DiscoveredPart2(bytes: seq<bv8>) | WireError(code: uint8)

  const NO_SENSOR := WireError(3)
  const BUS_ERROR := WireError(4)

  // The frames that report some IDs.
  ghost function Reports(ids: seq<seq<bv8>>): seq<Answer>
    requires forall id <- ids :: |id| == 8
  {
    if ids == [] then []
    else
      var id := ids[|ids| - 1];
      Reports(ids[..|ids| - 1]) + [DiscoveredPart1(id[..4]), DiscoveredPart2(id[4..])]
  }

  ghost predicate Ids(ids: seq<seq<bv8>>) {
    forall id <- ids :: |id| == 8
  }

  ghost function RomsOf(ids: seq<seq<bv8>>): (roms: seq<Rom>)
    requires Ids(ids)
    ensures |roms| == |ids|
  {
    if ids == [] then [] else RomsOf(ids[..|ids| - 1]) + [RomOf(ids[|ids| - 1])]
  }

  // Some of the devices in strictly descending order, with none left out above the last one.
  ghost predicate FoundDown(devices: set<Rom>, roms: seq<Rom>) {
    && (forall k :: 0 <= k < |roms| ==> roms[k] in devices)
    && (forall j, k :: 0 <= j < k < |roms| ==> Less(roms[k], roms[j]))
    && (roms != [] ==> forall d :: d in devices ==> d in roms || Less(d, roms[|roms| - 1]))
  }

  // Every device once, in strictly descending order.
  ghost predicate Everything(devices: set<Rom>, roms: seq<Rom>) {
    && FoundDown(devices, roms)
    && |roms| == |devices|
    && devices == set d <- roms
  }

  lemma FoundNext(devices: set<Rom>, roms: seq<Rom>, rom: Rom)
    requires roms != [] && FoundDown(devices, roms)
    requires NextBelow(devices, roms[|roms| - 1], rom)
    ensures FoundDown(devices, roms + [rom])
  {
    var roms' := roms + [rom];
    var last := roms[|roms| - 1];
    forall k | 0 <= k < |roms| ensures Less(rom, roms[k]) {
      if k < |roms| - 1 {
        LessTransitive(rom, last, roms[k]);
      }
    }
    forall d | d in devices ensures d in roms' || Less(d, rom) {
      if d in roms {
        var k :| 0 <= k < |roms| && roms[k] == d;
        assert roms'[k] == d;
      }
      assert roms'[|roms|] == rom;
    }
  }

  lemma {:induction false} DistinctCount(devices: set<Rom>, roms: seq<Rom>)
    requires forall j, k :: 0 <= j < k < |roms| ==> roms[j] != roms[k]
    requires devices == set d <- roms
    ensures |roms| == |devices|
  {
    if roms == [] {
      assert devices == {};
    } else {
      var rest := roms[1..];
      assert roms == [roms[0]] + rest;
      assert devices - {roms[0]} == set d <- rest;
      DistinctCount(devices - {roms[0]}, rest);
    }
  }

  // The invariant of the discovery loop while nothing has been unplugged.
  ghost predicate Discovering(devices: set<Rom>, roms: seq<Rom>, rom: Rom, diff: uint8) {
    && FoundDown(devices, roms)
    && if roms == [] then diff == SEARCH_FIRST else roms[|roms| - 1] == rom && Marks(devices, rom, diff)
  }

  lemma FoundEverything(devices: set<Rom>, roms: seq<Rom>, rom: Rom)
    requires Discovering(devices, roms, rom, LAST_DEVICE)
    ensures Everything(devices, roms) && devices != {}
  {
    forall j, k | 0 <= j < k < |roms| ensures roms[j] != roms[k] {
      LessIrreflexive(roms[j]);
    }
    assert roms[0] in devices;
    assert devices == set d <- roms;
    DistinctCount(devices, roms);
  }

  lemma DiscoveringStep(devices: set<Rom>, roms: seq<Rom>, was: Rom, diff: uint8, rom: Rom, next: uint8)
    requires Discovering(devices, roms, was, diff) && 0 < diff
    requires PassFound(devices, was, diff, rom, next)
    ensures Discovering(devices, roms + [rom], rom, next)
  {
    if roms != [] {
      FoundNext(devices, roms, rom);
    }
  }

  ghost function Lower(devices: set<Rom>, rom: Rom): set<Rom> {
    set d <- devices | Less(d, rom)
  }

  // How many passes may still follow while no further device is unplugged.
  ghost function Remaining(devices: set<Rom>, rom: Rom, diff: uint8): nat {
    if rom in devices && Marks(devices, rom, diff) then |Lower(devices, rom)| else |devices| + 1
  }

  lemma SubsetSize(a: set<Rom>, b: set<Rom>)
    requires a <= b
    ensures |a| <= |b|
    ensures a != b ==> |a| < |b|
  {
    assert |b| == |a| + |b - a|;
  }

  lemma RemainingDecreases(devices: set<Rom>, was: Rom, diff: uint8, rom: Rom, next: uint8)
    requires 0 < diff && PassFound(devices, was, diff, rom, next)
    ensures Remaining(devices, rom, next) < Remaining(devices, was, diff)
  {
    SubsetSize(Lower(devices, rom), devices);
    if was in devices && Marks(devices, was, diff) {
      LessIrreflexive(rom);
      assert rom in Lower(devices, was) && rom !in Lower(devices, rom);
      forall d | d in Lower(devices, rom) ensures d in Lower(devices, was) {
        LessTransitive(d, rom, was);
      }
      SubsetSize(Lower(devices, rom), Lower(devices, was));
    }
  }

  // One round of the discovery loop; the devices plugged in at the start of the discovery, at the
  // start of the pass, at its end and at the end of the round.
  lemma PassDone(first: set<Rom>, before: set<Rom>, after: set<Rom>, now: set<Rom>, ids: seq<seq<bv8>>,
                 was: Rom, diff: uint8, id: seq<bv8>, next: uint8)
    requires now <= after <= before <= first && 0 < diff && |id| == 8 && Ids(ids)
    requires after == before ==> PassFound(before, was, diff, RomOf(id), next)
    requires first == before ==> Discovering(before, RomsOf(ids), was, diff)
    ensures first == now ==> Discovering(now, RomsOf(ids + [id]), RomOf(id), next)
    ensures |now| < |before| || (now == before && Remaining(now, RomOf(id), next) < Remaining(before, was, diff))
    ensures Reports(ids + [id]) == Reports(ids) + [DiscoveredPart1(id[..4]), DiscoveredPart2(id[4..])]
  {
    var rom := RomOf(id);
    assert (ids + [id])[..|ids|] == ids;
    if now == before {
      RemainingDecreases(before, was, diff, rom, next);
      if first == now {
        DiscoveringStep(before, RomsOf(ids), was, diff, rom, next);
      }
    } else {
      SubsetSize(now, before);
    }
  }

  // Time passes on the bus between two passes.
  method Sleep(bus: Bus, duration: nat)
    modifies bus
    ensures bus.clock == old(bus.clock) + duration && bus.state == old(bus.state)
  {
    bus.clock := bus.clock + duration;
  }

  method Report(bus: Bus, pause: nat, id: array<bv8>, sent: seq<Answer>) returns (answers: seq<Answer>)
    requires id.Length == 8 && bus.OnlyUnplugged()
    modifies bus
    ensures bus.clock >= old(bus.clock)
    ensures bus.attached(bus.clock) <= bus.attached(old(bus.clock))
    ensures answers == sent + [DiscoveredPart1(id[..4]), DiscoveredPart2(id[4..])]
  {
    answers := sent + [DiscoveredPart1(id[..4])];
    Sleep(bus, pause);
    answers := answers + [DiscoveredPart2(id[4..])];
    Sleep(bus, pause);
  }

  // `pause` is how long the device takes between two frames of a report; `last` is how the last pass
  // ended.  A discovery that is broken off says so.
  method Discover(bus: Bus, pause: nat)
    returns (answers: seq<Answer>, ghost ids: seq<seq<bv8>>, ghost last: uint8)
    requires bus.OnlyUnplugged()
    modifies bus
    ensures Ids(ids) && (last == PRESENCE_ERR || last == DATA_ERR || last == LAST_DEVICE)
    ensures answers ==
            Reports(ids) + if last == PRESENCE_ERR then [NO_SENSOR] else if last == DATA_ERR then [BUS_ERROR] else []
    ensures last == PRESENCE_ERR ==> bus.attached(bus.clock) == {}
    ensures last == DATA_ERR ==> Unplugged(bus, old(bus.clock))
    ensures last == LAST_DEVICE ==> ids != []
    ensures !Unplugged(bus, old(bus.clock)) ==>
              if bus.attached(bus.clock) == {} then answers == [NO_SENSOR]
              else answers == Reports(ids) && Everything(bus.attached(bus.clock), RomsOf(ids))
  {
    ghost var start := bus.clock;
    var id := new bv8[8];
    var diff := SEARCH_FIRST;
    answers, ids, last := [], [], LAST_DEVICE;
    ghost var held := id[..];
    while diff != LAST_DEVICE
      invariant bus.clock >= start && bus.attached(bus.clock) <= bus.attached(start)
      invariant Ids(ids) && answers == Reports(ids)
      invariant held == id[..] && last == LAST_DEVICE && (diff == LAST_DEVICE ==> ids != [])
      invariant !Unplugged(bus, start) ==> Discovering(bus.attached(start), RomsOf(ids), RomOf(held), diff)
      decreases |bus.attached(bus.clock)|, Remaining(bus.attached(bus.clock), RomOf(held), diff)
    {
      ghost var devices, was, diff0 := bus.attached(bus.clock), held, diff;
      diff := RomSearch(bus, diff, id);
      held := id[..];
      last := diff;
      assert bus.attached(bus.clock) <= devices;
      if diff == PRESENCE_ERR {
        answers := answers + [NO_SENSOR];
        return;
      }
      if diff == DATA_ERR {
        answers := answers + [BUS_ERROR];
        return;
      }
      last := LAST_DEVICE;
      ghost var after := bus.attached(bus.clock);
      answers := Report(bus, pause, id, answers);
      PassDone(bus.attached(start), devices, after, bus.attached(bus.clock), ids, RomOf(was), diff0, held, diff);
      ids := ids + [held];
    }
    assert Reports(ids) + [] == Reports(ids);
    if !Unplugged(bus, start) {
      FoundEverything(bus.attached(start), RomsOf(ids), RomOf(held));
    }
  }
}
