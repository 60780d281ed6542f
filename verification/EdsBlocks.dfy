// The EEPROM data store as a sequence of blocks: what the bytes mean, and what each operation
// does to the blocks.
module EdsBlocks {
  import opened Sequences
  import opened Words

  const DATA_START := 34

  datatype RawBlock = Block(kind: uint8, data: seq<uint8>) {
    predicate IsFree() { kind == 0 }
  }

  type Block = b: RawBlock | |b.data| < 256 witness Block(0, [])

  // ---------- Layout ----------

  // The bytes of some consecutive blocks: type, size, data.
  function Flatten(bs: seq<Block>): seq<uint8> {
    if bs == [] then [] else [bs[0].kind, |bs[0].data|] + bs[0].data + Flatten(bs[1..])
  }

  // The address of block k; for k = |bs|, the end of the store.
  function Addr(bs: seq<Block>, k: nat): (p: nat)
    requires k <= |bs|
    ensures p >= DATA_START
  {
    if k == 0 then DATA_START else Addr(bs, k - 1) + 2 + |bs[k - 1].data|
  }

  lemma {:induction false} AddrFlatten(bs: seq<Block>, k: nat)
    requires k <= |bs|
    ensures Addr(bs, k) == DATA_START + |Flatten(bs[..k])|
  {
    if k > 0 {
      AddrFlatten(bs, k - 1);
      assert bs[..k] == bs[..k - 1] + [bs[k - 1]];
      FlattenConcat(bs[..k - 1], [bs[k - 1]]);
      FlattenOne(bs[k - 1]);
    }
  }

  lemma {:induction false} FlattenConcat(a: seq<Block>, b: seq<Block>)
    ensures Flatten(a + b) == Flatten(a) + Flatten(b)
  {
    if a == [] {
      assert a + b == b;
    } else {
      FlattenConcat(a[1..], b);
      TailOfConcat(a, b);
      Associative([a[0].kind, |a[0].data|] + a[0].data, Flatten(a[1..]), Flatten(b));
    }
  }

  lemma FlattenOne(b: Block)
    ensures Flatten([b]) == [b.kind, |b.data|] + b.data
  {
    assert [b][1..] == [];
  }

  lemma {:induction false} FlattenSplit(bs: seq<Block>, k: nat)
    requires k < |bs|
    ensures Flatten(bs) == Flatten(bs[..k]) + Flatten([bs[k]]) + Flatten(bs[k + 1..])
  {
    FlattenJoin(bs[..k], [bs[k]], bs[k + 1..]);
    assert bs == bs[..k] + [bs[k]] + bs[k + 1..];
  }

  lemma {:induction false} FlattenJoin(a: seq<Block>, b: seq<Block>, c: seq<Block>)
    ensures Flatten(a + b + c) == Flatten(a) + Flatten(b) + Flatten(c)
  {
    FlattenConcat(a + b, c);
    FlattenConcat(a, b);
  }

  lemma {:induction false} AddrMonotone(bs: seq<Block>, j: nat, k: nat)
    requires j <= k <= |bs|
    ensures Addr(bs, j) + 2 * (k - j) <= Addr(bs, k)
    decreases k
  {
    if j < k {
      AddrMonotone(bs, j, k - 1);
    }
  }

  lemma AddrEnd(bs: seq<Block>)
    ensures Addr(bs, |bs|) == DATA_START + |Flatten(bs)|
  {
    AddrFlatten(bs, |bs|);
    assert bs[..|bs|] == bs;
  }

  lemma AddrPrefix(a: seq<Block>, b: seq<Block>, k: nat)
    requires k <= |a| && k <= |b| && a[..k] == b[..k]
    ensures Addr(a, k) == Addr(b, k)
  {
    AddrFlatten(a, k);
    AddrFlatten(b, k);
  }

  // The bytes m, of which the store begins at DATA_START, hold the blocks bs.
  ghost predicate Holds(m: seq<uint8>, bs: seq<Block>) {
    |m| >= DATA_START && m[DATA_START..] == Flatten(bs)
  }

  lemma {:induction false} HeaderAt(m: seq<uint8>, bs: seq<Block>, k: nat)
    requires Holds(m, bs) && k < |bs|
    ensures var p, n := Addr(bs, k), |bs[k].data|;
            && p + 2 + n == Addr(bs, k + 1) <= |m|
            && m[p] == bs[k].kind && m[p + 1] == n && m[p + 2..p + 2 + n] == bs[k].data
  {
    FlattenSplit(bs, k);
    FlattenOne(bs[k]);
    AddrMonotone(bs, k + 1, |bs|);
    AddrEnd(bs);
    AddrFlatten(bs, k);
    var f := m[DATA_START..];
    var q := |Flatten(bs[..k])|;
    assert f[q] == bs[k].kind && f[q + 1] == |bs[k].data|;
    assert f[q + 2..q + 2 + |bs[k].data|] == bs[k].data;
    Subslice(m, DATA_START, DATA_START + q + 2, DATA_START + q + 2 + |bs[k].data|);
  }

  // ---------- The walk over the bytes ----------

  // The size links, followed from p, end exactly at the end of the bytes.
  ghost predicate Tiled(m: seq<uint8>, p: nat)
    decreases |m| - p
  {
    p == |m| || (p + 2 <= |m| && p + 2 + m[p + 1] <= |m| && Tiled(m, p + 2 + m[p + 1]))
  }

  ghost function Parse(m: seq<uint8>, p: nat): seq<Block>
    requires Tiled(m, p)
    decreases |m| - p
  {
    if p == |m| then [] else [Block(m[p], m[p + 2..p + 2 + m[p + 1]])] + Parse(m, p + 2 + m[p + 1])
  }

  lemma {:induction false} FlattenParse(m: seq<uint8>, p: nat)
    requires p <= |m| && Tiled(m, p)
    ensures Flatten(Parse(m, p)) == m[p..]
    decreases |m| - p
  {
    if p < |m| {
      var n := p + 2 + m[p + 1];
      FlattenParse(m, n);
      var bs := Parse(m, p);
      assert bs[1..] == Parse(m, n);
      assert m[p..] == [m[p], m[p + 1]] + m[p + 2..n] + m[n..];
    }
  }

  // Bytes that begin with a laid out block.
  lemma FlattenedAt(m: seq<uint8>, p: nat, bs: seq<Block>)
    requires p <= |m| && m[p..] == Flatten(bs) && bs != []
    ensures var n := p + 2 + |bs[0].data|;
            && n <= |m| && m[p] == bs[0].kind && m[p + 1] == |bs[0].data|
            && m[p + 2..n] == bs[0].data && m[n..] == Flatten(bs[1..])
  {
    var f := m[p..];
    var n := p + 2 + |bs[0].data|;
    assert f[0] == m[p] && f[1] == m[p + 1];
    Subslice(m, p, p + 2, n);
    Subslice(m, p, n, |m|);
  }

  lemma ParsedStep(m: seq<uint8>, p: nat, bs: seq<Block>)
    requires bs != []
    requires var n := p + 2 + |bs[0].data|;
             && n <= |m| && m[p] == bs[0].kind && m[p + 1] == |bs[0].data| && m[p + 2..n] == bs[0].data
             && Tiled(m, n) && Parse(m, n) == bs[1..]
    ensures Tiled(m, p) && Parse(m, p) == bs
  {
    assert bs == [bs[0]] + bs[1..];
  }

  lemma {:induction false} ParseFlatten(m: seq<uint8>, p: nat, bs: seq<Block>)
    requires p <= |m| && m[p..] == Flatten(bs)
    ensures Tiled(m, p) && Parse(m, p) == bs
    decreases |bs|
  {
    if bs == [] {
      assert |m[p..]| == 0;
    } else {
      FlattenedAt(m, p, bs);
      ParseFlatten(m, p + 2 + |bs[0].data|, bs[1..]);
      ParsedStep(m, p, bs);
    }
  }

  // A store holds some blocks exactly when its size links tile it, and the blocks are then determined.
  lemma {:induction false} TiledIffHolds(m: seq<uint8>)
    requires |m| >= DATA_START
    ensures Tiled(m, DATA_START) <==> exists bs :: Holds(m, bs)
    ensures forall bs, cs :: Holds(m, bs) && Holds(m, cs) ==> bs == cs
  {
    if Tiled(m, DATA_START) {
      FlattenParse(m, DATA_START);
      assert Holds(m, Parse(m, DATA_START));
    }
    forall bs | Holds(m, bs) ensures Tiled(m, DATA_START) && Parse(m, DATA_START) == bs {
      ParseFlatten(m, DATA_START, bs);
    }
  }

  // ---------- Allocation ----------

  predicate Fits(b: Block, size: uint8) {
    b.IsFree() && (|b.data| == size || |b.data| >= size + 2)
  }

  // The first block that fits, or |bs|.
  function FirstFit(bs: seq<Block>, size: uint8): (k: nat)
    ensures k <= |bs|
    ensures k < |bs| ==> Fits(bs[k], size)
    ensures forall j :: 0 <= j < k ==> !Fits(bs[j], size)
  {
    if bs == [] then 0 else if Fits(bs[0], size) then 0 else 1 + FirstFit(bs[1..], size)
  }

  lemma FirstFitUnique(bs: seq<Block>, size: uint8, k: nat)
    requires k <= |bs| && (k < |bs| ==> Fits(bs[k], size))
    requires forall j :: 0 <= j < k ==> !Fits(bs[j], size)
    ensures FirstFit(bs, size) == k
  {
  }

  // The allocated block and, unless the size is exact, a free block of what remains.
  function Carve(b: Block, kind: uint8, size: uint8): seq<Block>
    requires Fits(b, size)
  {
    if |b.data| == size then [Block(kind, b.data)]
    else [Block(kind, b.data[..size]), Block(0, b.data[size + 2..])]
  }

  function Allocated(bs: seq<Block>, k: nat, kind: uint8, size: uint8): seq<Block>
    requires k < |bs| && Fits(bs[k], size)
  {
    bs[..k] + Carve(bs[k], kind, size) + bs[k + 1..]
  }

  // ---------- Defragmentation ----------

  predicate Mergeable(a: Block, b: Block) {
    a.IsFree() && b.IsFree() && |a.data| + 2 + |b.data| <= 255
  }

  function Merged(a: Block, b: Block): Block
    requires Mergeable(a, b)
  {
    Block(0, a.data + [0, |b.data|] + b.data)
  }

  // Absorbs each block of `rest` into the last one of `done` where both are free and fit together.
  function Compact(done: seq<Block>, rest: seq<Block>): seq<Block>
    decreases |rest|
  {
    if rest == [] then done
    else if done != [] && Mergeable(done[|done| - 1], rest[0]) then
      Compact(done[..|done| - 1] + [Merged(done[|done| - 1], rest[0])], rest[1..])
    else Compact(done + [rest[0]], rest[1..])
  }

  // The allocated blocks with their addresses, the first block being at `at`.
  function InUse(bs: seq<Block>, at: nat): seq<(nat, Block)> {
    if bs == [] then []
    else (if bs[0].IsFree() then [] else [(at, bs[0])]) + InUse(bs[1..], at + 2 + |bs[0].data|)
  }

  lemma InUseStep(bs: seq<Block>, at: nat) returns (first: seq<(nat, Block)>, next: nat)
    requires bs != []
    ensures first == (if bs[0].IsFree() then [] else [(at, bs[0])]) && next == at + 2 + |bs[0].data|
    ensures InUse(bs, at) == first + InUse(bs[1..], next)
    ensures |Flatten(bs)| == next - at + |Flatten(bs[1..])|
  {
    first, next := if bs[0].IsFree() then [] else [(at, bs[0])], at + 2 + |bs[0].data|;
  }

  ghost predicate NothingMergeable(bs: seq<Block>) {
    forall k :: 0 <= k < |bs| - 1 ==> !Mergeable(bs[k], bs[k + 1])
  }

  lemma {:induction false} InUseConcat(a: seq<Block>, b: seq<Block>, at: nat)
    ensures InUse(a + b, at) == InUse(a, at) + InUse(b, at + |Flatten(a)|)
  {
    if a == [] {
      assert a + b == b;
    } else {
      TailOfConcat(a, b);
      var first, next := InUseStep(a, at);
      var _, _ := InUseStep(a + b, at);
      InUseConcat(a[1..], b, next);
      Associative(first, InUse(a[1..], next), InUse(b, at + |Flatten(a)|));
    }
  }

  // Replacing some blocks by others of the same extent and the same blocks in use.
  lemma {:induction false} InUseReplaced(pre: seq<Block>, mid: seq<Block>, mid': seq<Block>, post: seq<Block>, at: nat)
    requires |Flatten(mid)| == |Flatten(mid')|
    requires InUse(mid, at + |Flatten(pre)|) == InUse(mid', at + |Flatten(pre)|)
    ensures InUse(pre + mid + post, at) == InUse(pre + mid' + post, at)
    ensures |Flatten(pre + mid + post)| == |Flatten(pre + mid' + post)|
  {
    InUseConcat(pre + mid, post, at);
    InUseConcat(pre + mid', post, at);
    InUseConcat(pre, mid, at);
    InUseConcat(pre, mid', at);
    FlattenConcat(pre, mid);
    FlattenConcat(pre, mid');
    FlattenConcat(pre + mid, post);
    FlattenConcat(pre + mid', post);
  }

  lemma MergeKeeps(pre: seq<Block>, a: Block, b: Block, post: seq<Block>, at: nat)
    requires Mergeable(a, b)
    ensures InUse(pre + [Merged(a, b)] + post, at) == InUse(pre + [a, b] + post, at)
    ensures |Flatten(pre + [Merged(a, b)] + post)| == |Flatten(pre + [a, b] + post)|
  {
    assert [a, b][1..] == [b];
    FlattenOne(Merged(a, b));
    FlattenOne(b);
    InUseOne(b, at + |Flatten(pre)| + 2 + |a.data|);
    InUseOne(Merged(a, b), at + |Flatten(pre)|);
    InUseReplaced(pre, [a, b], [Merged(a, b)], post, at);
  }

  // One more block, merged or not.
  lemma StepKeeps(done: seq<Block>, rest: seq<Block>, at: nat) returns (done': seq<Block>)
    requires rest != []
    ensures Compact(done, rest) == Compact(done', rest[1..])
    ensures InUse(done' + rest[1..], at) == InUse(done + rest, at)
    ensures |Flatten(done' + rest[1..])| == |Flatten(done + rest)|
  {
    if done != [] && Mergeable(done[|done| - 1], rest[0]) {
      var pre, a, b := done[..|done| - 1], done[|done| - 1], rest[0];
      done' := pre + [Merged(a, b)];
      MergeKeeps(pre, a, b, rest[1..], at);
      assert done + rest == pre + [a, b] + rest[1..];
    } else {
      done' := done + [rest[0]];
      assert done + rest == done' + rest[1..];
    }
  }

  lemma {:induction false} CompactKeeps(done: seq<Block>, rest: seq<Block>, at: nat)
    ensures InUse(Compact(done, rest), at) == InUse(done + rest, at)
    ensures |Flatten(Compact(done, rest))| == |Flatten(done + rest)|
    decreases |rest|
  {
    if rest == [] {
      assert done + rest == done;
    } else {
      var done' := StepKeeps(done, rest, at);
      CompactKeeps(done', rest[1..], at);
    }
  }

  lemma {:induction false} CompactMergesAll(done: seq<Block>, rest: seq<Block>)
    requires NothingMergeable(done)
    ensures NothingMergeable(Compact(done, rest))
    decreases |rest|
  {
    if rest != [] {
      if done != [] && Mergeable(done[|done| - 1], rest[0]) {
        CompactMergesAll(done[..|done| - 1] + [Merged(done[|done| - 1], rest[0])], rest[1..]);
      } else {
        CompactMergesAll(done + [rest[0]], rest[1..]);
      }
    }
  }

  lemma {:induction false} CompactNothing(done: seq<Block>, rest: seq<Block>)
    requires NothingMergeable(done + rest)
    ensures Compact(done, rest) == done + rest
    decreases |rest|
  {
    if rest == [] {
      assert done + rest == done;
    } else {
      if done != [] {
        assert (done + rest)[|done| - 1] == done[|done| - 1] && (done + rest)[|done|] == rest[0];
      }
      assert done + rest == done + [rest[0]] + rest[1..];
      CompactNothing(done + [rest[0]], rest[1..]);
    }
  }

  // Defragmentation leaves every block in use where it is, keeps the tiling, leaves no two
  // neighbours to merge, and finds nothing to do the second time.
  lemma Defragmented(bs: seq<Block>)
    ensures var cs := Compact([], bs);
            && InUse(cs, DATA_START) == InUse(bs, DATA_START)
            && |Flatten(cs)| == |Flatten(bs)|
            && NothingMergeable(cs)
            && Compact([], cs) == cs
  {
    CompactKeeps([], bs, DATA_START);
    CompactMergesAll([], bs);
    CompactNothing([], Compact([], bs));
    assert [] + bs == bs && [] + Compact([], bs) == Compact([], bs);
  }

  // ---------- Writes of single bytes ----------

  // Byte i of the store, counted from 0, is the type or the size of a block.
  predicate IsHeader(bs: seq<Block>, i: nat) {
    bs != [] && (i < 2 || (i >= 2 + |bs[0].data| && IsHeader(bs[1..], i - 2 - |bs[0].data|)))
  }

  // The blocks after a write of byte i of the store, unless that is a header byte.
  function Written(bs: seq<Block>, i: nat, value: uint8): seq<Block> {
    if bs == [] || i < 2 then bs
    else if i < 2 + |bs[0].data| then [Block(bs[0].kind, bs[0].data[i - 2 := value])] + bs[1..]
    else [bs[0]] + Written(bs[1..], i - 2 - |bs[0].data|, value)
  }

  // The same addresses, types and sizes.
  predicate SameShape(bs: seq<Block>, cs: seq<Block>) {
    |bs| == |cs| && forall k :: 0 <= k < |bs| ==> bs[k].kind == cs[k].kind && |bs[k].data| == |cs[k].data|
  }

  lemma {:induction false} AddrTail(bs: seq<Block>, k: nat)
    requires k < |bs|
    ensures Addr(bs, k + 1) == Addr(bs[1..], k) + 2 + |bs[0].data|
  {
    if k > 0 {
      AddrTail(bs, k - 1);
    }
  }

  lemma {:induction false} SameAddresses(bs: seq<Block>, cs: seq<Block>, k: nat)
    requires SameShape(bs, cs) && k <= |bs|
    ensures Addr(bs, k) == Addr(cs, k)
  {
    if k > 0 {
      SameAddresses(bs, cs, k - 1);
    }
  }

  predicate InHeader(bs: seq<Block>, k: nat, i: nat)
    requires k < |bs|
  {
    Addr(bs, k) <= DATA_START + i < Addr(bs, k) + 2
  }

  // The header bytes are the two bytes from each block address on.
  lemma {:induction false} HeaderIff(bs: seq<Block>, i: nat)
    ensures IsHeader(bs, i) <==> exists k :: 0 <= k < |bs| && InHeader(bs, k, i)
  {
    if IsHeader(bs, i) {
      var _ := HeaderOf(bs, i);
    }
    if k :| 0 <= k < |bs| && InHeader(bs, k, i) {
      HeaderBytes(bs, k, i);
    }
  }

  lemma {:induction false} HeaderOf(bs: seq<Block>, i: nat) returns (k: nat)
    requires IsHeader(bs, i)
    ensures k < |bs| && InHeader(bs, k, i)
  {
    if i < 2 {
      k := 0;
    } else {
      var j := HeaderOf(bs[1..], i - 2 - |bs[0].data|);
      AddrTail(bs, j);
      k := j + 1;
    }
  }

  lemma {:induction false} HeaderBytes(bs: seq<Block>, k: nat, i: nat)
    requires k < |bs| && InHeader(bs, k, i)
    ensures IsHeader(bs, i)
    decreases k
  {
    if k > 0 {
      AddrTail(bs, k - 1);
      HeaderBytes(bs[1..], k - 1, i - 2 - |bs[0].data|);
    }
  }

  // A byte changed in the first part, or in the second.
  lemma UpdatedPart(a: seq<uint8>, b: seq<uint8>, i: nat, value: uint8)
    requires i < |a| + |b|
    ensures (a + b)[i := value] == if i < |a| then a[i := value] + b else a + b[i - |a| := value]
  {
  }

  lemma {:induction false} WrittenBytes(bs: seq<Block>, i: nat, value: uint8)
    requires i < |Flatten(bs)| && !IsHeader(bs, i)
    ensures Flatten(Written(bs, i, value)) == Flatten(bs)[i := value]
  {
    var b, rest := bs[0], bs[1..];
    var head := [b.kind, |b.data|] + b.data;
    assert Flatten(bs) == head + Flatten(rest);
    UpdatedPart(head, Flatten(rest), i, value);
    if i < 2 + |b.data| {
      var c: Block := Block(b.kind, b.data[i - 2 := value]);
      assert ([c] + rest)[1..] == rest;
      UpdatedPart([b.kind, |b.data|], b.data, i, value);
    } else {
      var j := i - 2 - |b.data|;
      WrittenBytes(rest, j, value);
      assert ([b] + Written(rest, j, value))[1..] == Written(rest, j, value);
    }
  }

  lemma {:induction false} WrittenShape(bs: seq<Block>, i: nat, value: uint8)
    ensures SameShape(bs, Written(bs, i, value))
  {
    if bs != [] && i >= 2 + |bs[0].data| {
      WrittenShape(bs[1..], i - 2 - |bs[0].data|, value);
    }
  }

  lemma {:induction false} HeaderKept(bs: seq<Block>, cs: seq<Block>, i: nat)
    requires SameShape(bs, cs) && IsHeader(bs, i)
    ensures i < |Flatten(bs)| && i < |Flatten(cs)| && Flatten(bs)[i] == Flatten(cs)[i]
  {
    if i >= 2 {
      HeaderKept(bs[1..], cs[1..], i - 2 - |bs[0].data|);
    }
  }

  // A write hits no header byte, or writes what is there already.
  ghost predicate Harmless(bs: seq<Block>, at: nat, value: uint8) {
    at < DATA_START + |Flatten(bs)| &&
    (at >= DATA_START && IsHeader(bs, at - DATA_START) ==> Flatten(bs)[at - DATA_START] == value)
  }

  // What the store holds after a harmless write.
  function ByteWritten(bs: seq<Block>, at: nat, value: uint8): seq<Block> {
    if at < DATA_START then bs else Written(bs, at - DATA_START, value)
  }

  lemma {:induction false} ByteWrittenHolds(m: seq<uint8>, bs: seq<Block>, at: nat, value: uint8)
    requires Holds(m, bs) && Harmless(bs, at, value)
    ensures at < |m| && Holds(m[at := value], ByteWritten(bs, at, value)) && SameShape(bs, ByteWritten(bs, at, value))
  {
    var m2 := m[at := value];
    if at < DATA_START {
      assert m2[DATA_START..] == m[DATA_START..];
    } else {
      var i := at - DATA_START;
      assert m2[DATA_START..] == m[DATA_START..][i := value];
      WrittenShape(bs, i, value);
      if IsHeader(bs, i) {
        HeaderNotWritten(bs, i, value);
        assert m2 == m;
      } else {
        WrittenBytes(bs, i, value);
      }
    }
  }

  lemma {:induction false} HeaderNotWritten(bs: seq<Block>, i: nat, value: uint8)
    requires IsHeader(bs, i)
    ensures Written(bs, i, value) == bs
  {
    if i >= 2 {
      HeaderNotWritten(bs[1..], i - 2 - |bs[0].data|, value);
    }
  }

  // A write leaves addresses, types, sizes and tiling alone exactly when it is harmless.
  lemma {:induction false} WriteKeepsShapeIff(m: seq<uint8>, bs: seq<Block>, at: nat, value: uint8)
    requires Holds(m, bs) && at < |m|
    ensures (exists cs :: Holds(m[at := value], cs) && SameShape(bs, cs)) <==> Harmless(bs, at, value)
  {
    if Harmless(bs, at, value) {
      ByteWrittenHolds(m, bs, at, value);
    }
    if cs :| Holds(m[at := value], cs) && SameShape(bs, cs) {
      if at >= DATA_START && IsHeader(bs, at - DATA_START) {
        HeaderKept(bs, cs, at - DATA_START);
        assert m[at := value][DATA_START..][at - DATA_START] == value;
      }
    }
  }

  // In particular: a larger size written to the last block breaks the tiling.
  lemma LargerSizeBreaks(m: seq<uint8>, bs: seq<Block>, value: uint8)
    requires Holds(m, bs) && bs != [] && value > |bs[|bs| - 1].data|
    ensures Addr(bs, |bs| - 1) + 1 < |m| && !Tiled(m[Addr(bs, |bs| - 1) + 1 := value], DATA_START)
  {
    HeaderAt(m, bs, |bs| - 1);
    AddrEnd(bs);
    NotTiledFrom(m, bs, value, 0);
  }

  lemma {:induction false} NotTiledFrom(m: seq<uint8>, bs: seq<Block>, value: uint8, k: nat)
    requires Holds(m, bs) && k < |bs| && value > |bs[|bs| - 1].data| && |m| == Addr(bs, |bs|)
    ensures !Tiled(m[Addr(bs, |bs| - 1) + 1 := value], Addr(bs, k))
    decreases |bs| - k
  {
    HeaderAt(m, bs, k);
    if k + 1 < |bs| {
      AddrMonotone(bs, k + 1, |bs| - 1);
      NotTiledFrom(m, bs, value, k + 1);
    }
  }

  // ---------- Runs ----------

  datatype Command =
    | Allocate(kind: uint8, size: uint8)
    | Free(address: nat)
    | Defragment
    | Write(at: nat, value: uint8)
    | Format

  // The blocks formatting makes of the bytes from p on: headers every 128 data bytes and a last
  // block up to the end; the data bytes stay what they were.
  function Formatted(m: seq<uint8>, p: nat): seq<Block>
    decreases |m| - p
  {
    if p + 3 >= |m| then []
    else
      var size := if |m| - 1 - (p + 1) > 128 then 128 else |m| - 1 - (p + 1);
      [Block(0, m[p + 2..p + 2 + size])] + Formatted(m, p + 2 + size)
  }

  // The block whose address is given, or |bs|.
  function IndexAt(bs: seq<Block>, address: nat, at: nat): (k: nat)
    ensures k <= |bs|
  {
    if bs == [] then 0
    else if address == at then 0
    else 1 + IndexAt(bs[1..], address, at + 2 + |bs[0].data|)
  }

  lemma IndexAtIs(bs: seq<Block>, address: nat, k: nat)
    requires k <= |bs|
    requires k < |bs| ==> Addr(bs, k) == address
    requires forall j :: 0 <= j < k ==> Addr(bs, j) != address
    ensures IndexAt(bs, address, DATA_START) == k
  {
    IndexFrom(bs, address, k, 0);
    assert bs[0..] == bs;
  }

  lemma {:induction false} IndexFrom(bs: seq<Block>, address: nat, k: nat, i: nat)
    requires i <= k <= |bs|
    requires k < |bs| ==> Addr(bs, k) == address
    requires forall j :: i <= j < k ==> Addr(bs, j) != address
    ensures IndexAt(bs[i..], address, Addr(bs, i)) == k - i
    decreases k - i
  {
    if i < k {
      IndexFrom(bs, address, k, i + 1);
      assert bs[i..][1..] == bs[i + 1..];
    }
  }

  lemma FoundAgain(bs: seq<Block>, k: nat)
    requires k < |bs|
    ensures IndexAt(bs, Addr(bs, k), DATA_START) == k
  {
    forall j | 0 <= j < k ensures Addr(bs, j) != Addr(bs, k) {
      AddrMonotone(bs, j, k);
    }
    IndexAtIs(bs, Addr(bs, k), k);
  }

  lemma {:induction false} FormattedSuffix(m: seq<uint8>, m2: seq<uint8>, p: nat)
    requires |m| == |m2| && p <= |m| && m[p..] == m2[p..]
    ensures Formatted(m, p) == Formatted(m2, p)
    decreases |m| - p
  {
    if p + 3 < |m| {
      var size := if |m| - 1 - (p + 1) > 128 then 128 else |m| - 1 - (p + 1);
      var q := p + 2 + size;
      Subslice(m, p, p + 2, q);
      Subslice(m2, p, p + 2, q);
      Subslice(m, p, q, |m|);
      Subslice(m2, p, q, |m|);
      FormattedSuffix(m, m2, q);
    }
  }

  // The write command checks nothing; runs are followed as long as its writes are harmless.
  ghost predicate Allowed(bs: seq<Block>, c: Command) {
    c.Write? ==> Harmless(bs, c.at, c.value)
  }

  ghost predicate AllAllowed(bs: seq<Block>, cs: seq<Command>)
    decreases |cs|
  {
    cs == [] || (Allowed(bs, cs[0]) && AllAllowed(Step(bs, cs[0]), cs[1..]))
  }

  ghost function Step(bs: seq<Block>, c: Command): seq<Block>
    requires Allowed(bs, c)
  {
    match c
    case Allocate(kind, size) =>
      var k := FirstFit(bs, size);
      if k < |bs| then Allocated(bs, k, kind, size) else bs
    case Free(address) =>
      var k := IndexAt(bs, address, DATA_START);
      if k < |bs| then bs[k := Block(0, bs[k].data)] else bs
    case Defragment => Compact([], bs)
    case Write(at, value) => ByteWritten(bs, at, value)
    case Format => Formatted(seq(DATA_START, _ => 0) + Flatten(bs), DATA_START)
  }

  ghost function Run(bs: seq<Block>, cs: seq<Command>): seq<Block>
    requires AllAllowed(bs, cs)
    decreases |cs|
  {
    if cs == [] then bs else Run(Step(bs, cs[0]), cs[1..])
  }

  // The two EEPROM sizes.
  ghost predicate StoreSize(n: nat) {
    DATA_START + n == 1024 || DATA_START + n == 2048
  }

  lemma {:induction false} FormattedTiles(m: seq<uint8>, p: nat)
    requires p <= |m| && (p == |m| || ((|m| == 1024 || |m| == 2048) && (p - DATA_START) % 130 == 0))
    ensures |Flatten(Formatted(m, p))| == |m| - p
    decreases |m| - p
  {
    if p + 3 < |m| {
      var size := if |m| - 1 - (p + 1) > 128 then 128 else |m| - 1 - (p + 1);
      FormattedTiles(m, p + 2 + size);
      assert Formatted(m, p)[1..] == Formatted(m, p + 2 + size);
    }
  }

  lemma ReplaceOne(bs: seq<Block>, k: nat, mid: seq<Block>)
    requires k < |bs| && |Flatten(mid)| == |Flatten([bs[k]])|
    ensures |Flatten(bs[..k] + mid + bs[k + 1..])| == |Flatten(bs)|
  {
    FlattenSplit(bs, k);
    FlattenConcat(bs[..k] + mid, bs[k + 1..]);
    FlattenConcat(bs[..k], mid);
  }

  lemma CarveExtent(b: Block, kind: uint8, size: uint8)
    requires Fits(b, size)
    ensures |Flatten(Carve(b, kind, size))| == 2 + |b.data|
  {
    FlattenOne(Block(kind, b.data));
    if |b.data| != size {
      var c := Carve(b, kind, size);
      assert c[1..] == [c[1]];
      FlattenOne(c[1]);
    }
  }

  lemma {:induction false} StepExtent(bs: seq<Block>, c: Command)
    requires StoreSize(|Flatten(bs)|) && Allowed(bs, c)
    ensures |Flatten(Step(bs, c))| == |Flatten(bs)|
  {
    match c
    case Allocate(kind, size) =>
      var k := FirstFit(bs, size);
      if k < |bs| {
        CarveExtent(bs[k], kind, size);
        FlattenOne(bs[k]);
        ReplaceOne(bs, k, Carve(bs[k], kind, size));
      }
    case Free(address) =>
      var k := IndexAt(bs, address, DATA_START);
      if k < |bs| {
        Retyped(bs, k, Block(0, bs[k].data));
      }
    case Defragment => Defragmented(bs);
    case Write(at, value) =>
      ByteWrittenHolds(seq(DATA_START, _ => 0) + Flatten(bs), bs, at, value);
    case Format =>
      FormattedTiles(seq(DATA_START, _ => 0) + Flatten(bs), DATA_START);
  }

  lemma Retyped(bs: seq<Block>, k: nat, b: Block)
    requires k < |bs| && |b.data| == |bs[k].data|
    ensures |Flatten(bs[k := b])| == |Flatten(bs)|
  {
    FlattenOne(b);
    FlattenOne(bs[k]);
    ReplaceOne(bs, k, [b]);
    assert bs[k := b] == bs[..k] + [b] + bs[k + 1..];
  }

  // Over every run of commands whose byte writes are harmless, the size links tile the store exactly up
  // to its end, and every block starts below EDS_END, the address of the last byte, so that the walks
  // miss no block.
  lemma {:induction false} RunTiles(bs: seq<Block>, cs: seq<Command>, m: seq<uint8>)
    requires StoreSize(|Flatten(bs)|) && AllAllowed(bs, cs) && Holds(m, Run(bs, cs))
    ensures |m| == DATA_START + |Flatten(bs)|
    ensures Tiled(m, DATA_START)
    ensures forall k :: 0 <= k < |Run(bs, cs)| ==> Addr(Run(bs, cs), k) < |m| - 1
    decreases |cs|
  {
    if cs == [] {
      TiledIffHolds(m);
      forall k | 0 <= k < |bs| ensures Addr(bs, k) < |m| - 1 {
        HeaderAt(m, bs, k);
      }
    } else {
      StepExtent(bs, cs[0]);
      RunTiles(Step(bs, cs[0]), cs[1..], m);
    }
  }

  // ---------- Space ----------

  function SizeSum(bs: seq<Block>, free: bool): nat {
    if bs == [] then 0
    else (if bs[0].IsFree() == free then |bs[0].data| else 0) + SizeSum(bs[1..], free)
  }

  lemma {:induction false} SpaceAccounted(bs: seq<Block>)
    ensures SizeSum(bs, true) + SizeSum(bs, false) + 2 * |bs| == |Flatten(bs)|
  {
    if bs != [] {
      SpaceAccounted(bs[1..]);
    }
  }

  lemma {:induction false} SizeSumConcat(a: seq<Block>, b: seq<Block>, free: bool)
    ensures SizeSum(a + b, free) == SizeSum(a, free) + SizeSum(b, free)
  {
    if a == [] {
      assert a + b == b;
    } else {
      SizeSumConcat(a[1..], b, free);
      assert (a + b)[1..] == a[1..] + b;
    }
  }

  function DataSum(used: seq<(nat, Block)>): nat {
    if used == [] then 0 else |used[0].1.data| + DataSum(used[1..])
  }

  // What counts as used space is the data of the blocks in use.
  lemma {:induction false} UsedIsInUse(bs: seq<Block>, at: nat)
    ensures SizeSum(bs, false) == DataSum(InUse(bs, at))
  {
    if bs != [] {
      var next := at + 2 + |bs[0].data|;
      UsedIsInUse(bs[1..], next);
      assert [(at, bs[0])] + InUse(bs[1..], next) != [];
      assert ([(at, bs[0])] + InUse(bs[1..], next))[1..] == InUse(bs[1..], next);
      assert [] + InUse(bs[1..], next) == InUse(bs[1..], next);
    }
  }

  // Formatting leaves free blocks only.
  lemma {:induction false} FormattedIsFree(m: seq<uint8>, p: nat, at: nat)
    ensures var bs := Formatted(m, p);
            && InUse(bs, at) == []
            && (forall k :: 0 <= k < |bs| ==> bs[k].IsFree() && |bs[k].data| <= 128)
            && (forall k :: 0 <= k < |bs| - 1 ==> |bs[k].data| == 128)
    decreases |m| - p
  {
    if p + 3 < |m| {
      var size := if |m| - 1 - (p + 1) > 128 then 128 else |m| - 1 - (p + 1);
      var bs, rest := Formatted(m, p), Formatted(m, p + 2 + size);
      FormattedIsFree(m, p + 2 + size, at + 2 + size);
      assert bs[1..] == rest;
      forall k | 0 < k < |bs| ensures bs[k] == rest[k - 1] {
      }
    }
  }

  // A block fits exactly when it is free and can be made into one of the size with at most one block over.
  lemma FitsIff(b: Block, size: uint8)
    ensures Fits(b, size) <==>
            b.IsFree() && exists c: Block, rest: seq<Block> ::
              |c.data| == size && |rest| <= 1 && |Flatten([c] + rest)| == 2 + |b.data|
  {
    if Fits(b, size) {
      var c: Block := Block(0, b.data[..size]);
      FlattenOne(c);
      if |b.data| == size {
        var rest: seq<Block> := [];
        assert [c] + rest == [c];
        assert |rest| <= 1 && |Flatten([c] + rest)| == 2 + |b.data|;
      } else {
        var d: Block := Block(0, b.data[size + 2..]);
        FlattenConcat([c], [d]);
        FlattenOne(d);
        var rest: seq<Block> := [d];
        assert |rest| <= 1 && |Flatten([c] + rest)| == 2 + |b.data|;
      }
    }
    if c: Block, rest: seq<Block> :| |c.data| == size && |rest| <= 1 && |Flatten([c] + rest)| == 2 + |b.data| {
      FlattenConcat([c], rest);
      FlattenOne(c);
      if rest != [] {
        assert rest == [rest[0]];
        FlattenOne(rest[0]);
      }
    }
  }

  // Two blocks are merged exactly when both are free and one block can take the place of both.
  lemma MergeableIff(a: Block, b: Block)
    ensures Mergeable(a, b) <==>
            a.IsFree() && b.IsFree() && exists c: Block :: |Flatten([c])| == |Flatten([a]) + Flatten([b])|
  {
    FlattenOne(a);
    FlattenOne(b);
    if |a.data| + 2 + |b.data| <= 255 {
      var c: Block := Block(0, seq(|a.data| + 2 + |b.data|, _ => 0));
      FlattenOne(c);
      assert |Flatten([c])| == |Flatten([a]) + Flatten([b])|;
    }
    forall c: Block ensures |Flatten([c])| == 2 + |c.data| {
      FlattenOne(c);
    }
  }

  // ---------- The blocks in use before and after ----------

  lemma {:induction false} InUseSplit(bs: seq<Block>, k: nat)
    requires k < |bs|
    ensures InUse(bs, DATA_START) ==
            InUse(bs[..k], DATA_START) + InUse([bs[k]], Addr(bs, k)) + InUse(bs[k + 1..], Addr(bs, k + 1))
  {
    assert bs == bs[..k] + ([bs[k]] + bs[k + 1..]);
    InUseConcat(bs[..k], [bs[k]] + bs[k + 1..], DATA_START);
    InUseConcat([bs[k]], bs[k + 1..], Addr(bs, k));
    AddrFlatten(bs, k);
    FlattenOne(bs[k]);
  }

  lemma InUseOne(b: Block, at: nat)
    ensures InUse([b], at) == if b.IsFree() then [] else [(at, b)]
  {
    assert [b][1..] == [];
  }

  // Allocation adds one block to those in use and leaves the others alone.
  lemma {:induction false} AllocateAddsOne(bs: seq<Block>, kind: uint8, size: uint8, k: nat)
    requires kind != 0 && k < |bs| && Fits(bs[k], size)
    ensures var pre, post := InUse(bs[..k], DATA_START), InUse(bs[k + 1..], Addr(bs, k + 1));
            && InUse(bs, DATA_START) == pre + post
            && InUse(Allocated(bs, k, kind, size), DATA_START)
               == pre + [(Addr(bs, k), Block(kind, bs[k].data[..size]))] + post
  {
    var a, b, c := bs[..k], bs[k], bs[k + 1..];
    assert Addr(bs, k) == DATA_START + |Flatten(a)| by {
      AddrFlatten(bs, k);
    }
    assert a + [b] + c == bs;
    CarveBetween(a, b, c, kind, size);
  }

  lemma {:induction false} CarveBetween(a: seq<Block>, b: Block, c: seq<Block>, kind: uint8, size: uint8)
    requires kind != 0 && Fits(b, size)
    ensures var at := DATA_START + |Flatten(a)|;
            var pre, post := InUse(a, DATA_START), InUse(c, at + 2 + |b.data|);
            && InUse(a + [b] + c, DATA_START) == pre + post
            && InUse(a + Carve(b, kind, size) + c, DATA_START) == pre + [(at, Block(kind, b.data[..size]))] + post
  {
    var at := DATA_START + |Flatten(a)|;
    CarveExtent(b, kind, size);
    CarveInUse(b, kind, size, at);
    InUseOne(b, at);
    FlattenOne(b);
    InUseThree(a, [b], c);
    InUseThree(a, Carve(b, kind, size), c);
    var pre := InUse(a, DATA_START);
    assert pre + [] == pre;
  }

  lemma InUseThree(a: seq<Block>, b: seq<Block>, c: seq<Block>)
    ensures var at := DATA_START + |Flatten(a)|;
            InUse(a + b + c, DATA_START) == InUse(a, DATA_START) + InUse(b, at) + InUse(c, at + |Flatten(b)|)
  {
    InUseConcat(a + b, c, DATA_START);
    InUseConcat(a, b, DATA_START);
    FlattenConcat(a, b);
  }

  lemma CarveInUse(b: Block, kind: uint8, size: uint8, at: nat)
    requires Fits(b, size) && kind != 0
    ensures InUse(Carve(b, kind, size), at) == [(at, Block(kind, b.data[..size]))]
  {
    var mid := Carve(b, kind, size);
    if |b.data| == size {
      assert b.data[..size] == b.data;
      InUseOne(mid[0], at);
    } else {
      assert mid[1..] == [mid[1]];
      InUseOne(mid[1], at + 2 + size);
    }
  }

  lemma {:induction false} NotInUse(bs: seq<Block>, k: nat, b: Block)
    requires k < |bs| && !bs[k].IsFree() && b.IsFree() && |b.data| == |bs[k].data|
    ensures var pre, post := InUse(bs[..k], DATA_START), InUse(bs[k + 1..], Addr(bs, k + 1));
            && InUse(bs, DATA_START) == pre + [(Addr(bs, k), bs[k])] + post
            && InUse(bs[k := b], DATA_START) == pre + [] + post
  {
    InUseSplit(bs, k);
    InUseOne(bs[k], Addr(bs, k));
    Around(bs, k, b);
    AddrPrefix(bs[k := b], bs, k);
    InUseSplit(bs[k := b], k);
    InUseOne(b, Addr(bs, k));
  }

  // Freeing a block removes it from those in use and leaves the others alone.
  lemma {:induction false} FreeRemovesOne(bs: seq<Block>, k: nat)
    requires k < |bs| && !bs[k].IsFree()
    ensures var pre, post := InUse(bs[..k], DATA_START), InUse(bs[k + 1..], Addr(bs, k + 1));
            && InUse(bs, DATA_START) == pre + [(Addr(bs, k), bs[k])] + post
            && InUse(Step(bs, Free(Addr(bs, k))), DATA_START) == pre + post
  {
    FoundAgain(bs, k);
    NotInUse(bs, k, Block(0, bs[k].data));
    var pre := InUse(bs[..k], DATA_START);
    assert pre + [] == pre;
  }

  // ---------- Iteration ----------

  // The first block from index k on with a type in the range, or |bs|.
  function NextBetween(bs: seq<Block>, k: nat, type1: uint8, type2: uint8): (j: nat)
    ensures j <= |bs| && (k <= |bs| ==> k <= j)
    ensures j < |bs| ==> k <= j && type1 <= bs[j].kind <= type2
    decreases |bs| - k
  {
    if k >= |bs| then |bs|
    else if type1 <= bs[k].kind <= type2 then k
    else NextBetween(bs, k + 1, type1, type2)
  }

  // The addresses of the blocks from index k on with a type in the range.
  function Between(bs: seq<Block>, k: nat, type1: uint8, type2: uint8): seq<nat>
    decreases |bs| - k
  {
    if k >= |bs| then []
    else if type1 <= bs[k].kind <= type2 then [Addr(bs, k)] + Between(bs, k + 1, type1, type2)
    else Between(bs, k + 1, type1, type2)
  }

  // Looking for the next one again and again finds them all.
  lemma {:induction false} BetweenFrom(bs: seq<Block>, k: nat, type1: uint8, type2: uint8)
    requires k <= |bs|
    ensures var j := NextBetween(bs, k, type1, type2);
            Between(bs, k, type1, type2) == if j == |bs| then [] else [Addr(bs, j)] + Between(bs, j + 1, type1, type2)
    decreases |bs| - k
  {
    if k < |bs| && !(type1 <= bs[k].kind <= type2) {
      BetweenFrom(bs, k + 1, type1, type2);
    }
  }
}
