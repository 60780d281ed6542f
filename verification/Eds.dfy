// The allocator itself, walking and overwriting the bytes of the EEPROM in place.
module Eds {
  import opened Words
  import opened EdsBlocks
  import opened Sequences

  const EDS_START := 32
  const EDS_MAGIC1: uint8 := 0xE4
  const EDS_MAGIC2: uint8 := 0x7D

  const EDS_OK: uint8 := 0
  const EDS_INVALID_POINTER: uint8 := 2

  // `mem` is the whole EEPROM; its last address is EDS_END.
  class Store {
    const mem: array<uint8>
    // What a read past the end of the EEPROM returns.
    const beyond: uint8
    ghost var blocks: seq<Block>

    ghost predicate Sized() {
      mem.Length == 1024 || mem.Length == 2048
    }

    ghost predicate Valid()
      reads this, mem
    {
      Sized() && Holds(mem[..], blocks)
    }

    function End(): nat
      requires mem.Length > 0
    {
      mem.Length - 1
    }

    constructor (mem: array<uint8>, beyond: uint8)
      ensures this.mem == mem && this.beyond == beyond
    {
      this.mem, this.beyond := mem, beyond;
      blocks := [];
    }

    method ReadByte(p: nat) returns (b: uint8)
      ensures b == if p < mem.Length then mem[p] else beyond
    {
      b := if p < mem.Length then mem[p] else beyond;
    }

    method NextBlock(p: nat) returns (q: nat)
      requires p + 1 < mem.Length
      ensures q == p + 2 + mem[p + 1]
    {
      q := p + 2 + mem[p + 1];
    }

    method FormatStore()
      requires Sized()
      modifies this, mem
      ensures Valid()
      ensures blocks == Formatted(old(mem[..]), DATA_START) && InUse(blocks, DATA_START) == []
      ensures forall i :: 0 <= i < EDS_START ==> mem[i] == old(mem[i])
      ensures mem[EDS_START] == EDS_MAGIC1 && mem[EDS_START + 1] == EDS_MAGIC2
    {
      ghost var m := mem[..];
      var p := EDS_START;
      mem[p] := EDS_MAGIC1;
      mem[p + 1] := EDS_MAGIC2;
      p := p + 2;
      FormattingStart(m, mem[..]);
      ghost var done: seq<Block> := [];
      while p < End() - 2
        invariant DATA_START <= p <= mem.Length && OnGrid(mem.Length, p)
        invariant Formatting(m, mem[..], p, done)
      {
        p, done := FormatBlock(p, m, done);
      }
      FormattingDone(m, mem[..], done);
      blocks := done;
      FormattedIsFree(m, DATA_START, DATA_START);
    }

    // One free block of 128 bytes, or of what is left.
    method FormatBlock(block: nat, ghost m: seq<uint8>, ghost done: seq<Block>)
      returns (p: nat, ghost done': seq<Block>)
      requires Sized() && DATA_START <= block < End() - 2 && OnGrid(mem.Length, block)
      requires Formatting(m, mem[..], block, done)
      modifies mem
      ensures block < p <= mem.Length && OnGrid(mem.Length, p)
      ensures Formatting(m, mem[..], p, done')
    {
      ghost var before := mem[..];
      var size := WriteFreeHeader(block);
      p := block + 2 + size;
      FormattedBlock(m, before, mem[..], block, size, done);
      ghost var b: Block := Block(0, m[block + 2..p]);
      done' := done + [b];
    }

    method WriteFreeHeader(block: nat) returns (size: uint8)
      requires Sized() && DATA_START <= block < End() - 2 && OnGrid(mem.Length, block)
      modifies mem
      ensures size == if mem.Length - 2 - block > 128 then 128 else mem.Length - 2 - block
      ensures block + 2 + size <= mem.Length && OnGrid(mem.Length, block + 2 + size)
      ensures mem[..] == old(mem[..])[block := 0][block + 1 := size]
    {
      var p := block;
      mem[p] := 0;
      p := p + 1;
      size := if End() - p > 128 then 128 else End() - p;
      mem[p] := size;
    }

    // The first block that fits, carved to size; its type is still 0.
    method Alloc(size: uint8) returns (p: nat)
      requires Valid()
      modifies this, mem
      ensures Valid()
      ensures var k := FirstFit(old(blocks), size);
              if k < |old(blocks)| then
                && p == Addr(old(blocks), k)
                && blocks == Allocated(old(blocks), k, 0, size)
              else p == 0 && unchanged(mem) && unchanged(this)
      ensures forall i :: 0 <= i < DATA_START ==> mem[i] == old(mem[i])
    {
      p := DATA_START;
      ghost var k := 0;
      AddrEnd(blocks);
      while p < End()
        invariant unchanged(this) && unchanged(mem)
        invariant k <= |blocks| && p == Addr(blocks, k)
        invariant forall j :: 0 <= j < k ==> !Fits(blocks[j], size)
        decreases mem.Length - p
      {
        Here(p, k);
        if mem[p] == 0 && mem[p + 1] >= size {
          if mem[p + 1] == size {
            FirstFitUnique(blocks, size, k);
            assert Carve(blocks[k], 0, size) == [blocks[k]];
            assert blocks == Allocated(blocks, k, 0, size);
            return;
          }
          if mem[p + 1] >= size + 2 {
            FirstFitUnique(blocks, size, k);
            CarveAt(p, k, size);
            return;
          }
        }
        p := NextBlock(p);
        k := k + 1;
      }
      AtEnd(p, k);
      FirstFitUnique(blocks, size, k);
      p := 0;
    }

    // Writes the header of the remainder and shortens the block at p.
    method CarveAt(p: nat, ghost k: nat, size: uint8)
      requires Valid() && k < |blocks| && p == Addr(blocks, k)
      requires Fits(blocks[k], size) && |blocks[k].data| >= size + 2
      modifies this, mem
      ensures Valid()
      ensures blocks == Allocated(old(blocks), k, 0, size)
      ensures forall i :: 0 <= i < DATA_START ==> mem[i] == old(mem[i])
    {
      ghost var m, b := mem[..], blocks[k];
      Here(p, k);
      CarvedBytes(b, size);
      mem[p + 2 + size] := 0;
      mem[p + 2 + size + 1] := mem[p + 1] - size - 2;
      mem[p + 1] := size;
      CarvedInPlace(m, mem[..], p, b, size);
      CarveExtent(b, 0, size);
      assert blocks[k..k + 1] == [b];
      FlattenOne(b);
      Overwritten(m, mem[..], blocks, k, k + 1, Carve(b, 0, size));
      blocks := Allocated(blocks, k, 0, size);
    }

    method SetType(p: nat, ghost k: nat, kind: uint8)
      requires Valid() && k < |blocks| && p == Addr(blocks, k)
      modifies this, mem
      ensures Valid()
      ensures blocks == old(blocks)[k := Block(kind, old(blocks)[k].data)]
      ensures forall i :: 0 <= i < DATA_START ==> mem[i] == old(mem[i])
    {
      ghost var m, b := mem[..], Block(kind, blocks[k].data);
      Here(p, k);
      mem[p] := kind;
      assert mem[p..p + 2 + |b.data|] == [kind, |b.data|] + m[p + 2..p + 2 + |b.data|];
      OneOverwritten(m, mem[..], blocks, k, b);
      blocks := blocks[k := b];
    }

    method FreeBlock(block: nat) returns (result: uint8)
      requires Valid()
      modifies this, mem
      ensures Valid() && blocks == Step(old(blocks), Free(block))
      ensures result ==
              if IndexAt(old(blocks), block, DATA_START) < |old(blocks)| then EDS_OK else EDS_INVALID_POINTER
      ensures result != EDS_OK ==> unchanged(mem)
      ensures forall i :: 0 <= i < DATA_START ==> mem[i] == old(mem[i])
    {
      var p := DATA_START;
      ghost var k := 0;
      while p < End()
        invariant unchanged(this) && unchanged(mem)
        invariant k <= |blocks| && p == Addr(blocks, k)
        invariant forall j :: 0 <= j < k ==> Addr(blocks, j) != block
        decreases mem.Length - p
      {
        Here(p, k);
        if p == block {
          IndexAtIs(blocks, block, k);
          SetType(p, k, 0);
          return EDS_OK;
        }
        p := NextBlock(p);
        k := k + 1;
      }
      AtEnd(p, k);
      IndexAtIs(blocks, block, k);
      return EDS_INVALID_POINTER;
    }

    // Lets the free block before block k absorb it.
    method MergeInto(lastFree: nat, size: uint8, ghost k: nat)
      requires Valid() && 0 < k < |blocks| && Mergeable(blocks[k - 1], blocks[k])
      requires lastFree == Addr(blocks, k - 1) && size == |blocks[k - 1].data| + 2 + |blocks[k].data|
      modifies this, mem
      ensures Valid()
      ensures blocks == old(blocks)[..k - 1] + [Merged(old(blocks)[k - 1], old(blocks)[k])] + old(blocks)[k + 1..]
      ensures Compact(blocks[..k], blocks[k..]) == old(Compact(blocks[..k], blocks[k..]))
      ensures lastFree == Addr(blocks, k - 1)
      ensures forall i :: 0 <= i < DATA_START ==> mem[i] == old(mem[i])
    {
      TwoMerged(mem[..], blocks, k - 1);
      mem[lastFree + 1] := size;
      ghost var bs := blocks;
      blocks := bs[..k - 1] + [Merged(bs[k - 1], bs[k])] + bs[k + 1..];
      CompactMerge(bs, k, blocks);
      AddrPrefix(blocks, bs, k - 1);
    }

    // Merges the block at p into the free block before it, if there is one and both fit together;
    // q is then the merged block.
    method Absorb(p: nat, lastFree: nat, ghost k: nat) returns (q: nat, ghost j: nat)
      requires Valid() && k < |blocks| && p == Addr(blocks, k)
      requires lastFree == if k > 0 && blocks[k - 1].IsFree() then Addr(blocks, k - 1) else 0
      modifies this, mem
      ensures Valid()
      ensures j < |blocks| && q == Addr(blocks, j) && |blocks| - j == |old(blocks)| - k
      ensures Compact(blocks[..j + 1], blocks[j + 1..]) == old(Compact(blocks[..k], blocks[k..]))
      ensures forall i :: 0 <= i < DATA_START ==> mem[i] == old(mem[i])
    {
      q, j := p, k;
      Here(p, k);
      if lastFree != 0 && mem[p] == 0 {
        Here(lastFree, k - 1);
        var lastSize: uint16 := mem[lastFree + 1];
        var size: uint16 := mem[p + 1];
        if lastSize + 2 + size <= 255 {
          MergeInto(lastFree, lastSize + 2 + size, k);
          return lastFree, k - 1;
        }
      }
      CompactSkip(blocks, k);
    }

    method DefragmentStore()
      requires Valid()
      modifies this, mem
      ensures Valid() && blocks == Step(old(blocks), Defragment)
      ensures forall i :: 0 <= i < DATA_START ==> mem[i] == old(mem[i])
    {
      var p := DATA_START;
      var lastFree := 0;
      ghost var k: nat := 0;
      assert blocks[..0] == [] && blocks[0..] == blocks;
      while p < End()
        invariant Valid()
        invariant forall i :: 0 <= i < DATA_START ==> mem[i] == old(mem[i])
        invariant k <= |blocks| && p == Addr(blocks, k)
        invariant lastFree == if k > 0 && blocks[k - 1].IsFree() then Addr(blocks, k - 1) else 0
        invariant Compact(blocks[..k], blocks[k..]) == Compact([], old(blocks))
        decreases |blocks| - k
      {
        Here(p, k);
        p, k := Absorb(p, lastFree, k);
        Here(p, k);
        if mem[p] == 0 {
          lastFree := p;
        } else {
          lastFree := 0;
        }
        p := NextBlock(p);
        k := k + 1;
      }
      AtEnd(p, k);
      assert blocks[..k] == blocks && blocks[k..] == [];
    }

    // ---------- Iteration over the blocks of some types ----------

    // p is 0 or the address of block k (the end of the store for k = |blocks|).
    // What the iteration from index `first` on arrives at.
    ghost function Target(first: nat, type1: uint8, type2: uint8): nat
      requires mem.Length > 0
      reads this
    {
      var j := NextBetween(blocks, first, type1, type2);
      if j < |blocks| then Addr(blocks, j)
      else if first <= |blocks| && type1 <= beyond <= type2 then mem.Length
      else 0
    }

    lemma TargetAt(k: nat, type1: uint8, type2: uint8)
      requires mem.Length > 0 && k <= |blocks|
      ensures k < |blocks| && type1 <= blocks[k].kind <= type2 ==> Target(k, type1, type2) == Addr(blocks, k)
      ensures k < |blocks| && !(type1 <= blocks[k].kind <= type2) ==>
                Target(k, type1, type2) == Target(k + 1, type1, type2)
      ensures k == |blocks| ==>
                && Target(k, type1, type2) == (if type1 <= beyond <= type2 then mem.Length else 0)
                && Target(k + 1, type1, type2) == 0
    {
    }

    method FindNextBlockBetween(p: nat, ghost k: nat, type1: uint8, type2: uint8) returns (q: nat)
      requires Valid() && k <= |blocks| && (p == 0 || p == Addr(blocks, k))
      ensures q == Target(if p == 0 then 0 else k + 1, type1, type2)
    {
      q := p;
      ghost var j := k;
      ghost var first := if p == 0 then 0 else k + 1;
      if q == 0 {
        q, j := DATA_START, 0;
        var kind := Kind(q, j);
        TargetAt(j, type1, type2);
        AddrEnd(blocks);
        if type1 <= kind <= type2 {
          return;
        }
      }
      while q < End()
        invariant j <= |blocks| && q == Addr(blocks, j)
        invariant Target(j + 1, type1, type2) == Target(first, type1, type2)
        decreases |blocks| - j
      {
        Here(q, j);
        q := NextBlock(q);
        j := j + 1;
        var kind := Kind(q, j);
        TargetAt(j, type1, type2);
        if type1 <= kind <= type2 {
          return;
        }
      }
      AtEnd(q, j);
      TargetAt(j, type1, type2);
      q := 0;
    }

    // Reads a type byte, also of the header that would follow the last block.
    method Kind(p: nat, ghost k: nat) returns (kind: uint8)
      requires Valid() && k <= |blocks| && p == Addr(blocks, k)
      ensures kind == if k < |blocks| then blocks[k].kind else beyond
      ensures k == |blocks| ==> p == mem.Length
    {
      AddrEnd(blocks);
      if k < |blocks| {
        Here(p, k);
      }
      kind := ReadByte(p);
    }

    // The addresses visited by a loop over the blocks with a type between type1 and type2: those of
    // the matching blocks in order, and then the address just past the store if, and only if, the
    // byte read there happens to match.
    method ForeachBlockBetween(type1: uint8, type2: uint8) returns (visited: seq<nat>)
      requires Valid()
      ensures visited == Between(blocks, 0, type1, type2) + Stray(type1, type2)
    {
      visited := [];
      var it := FindNextBlockBetween(0, 0, type1, type2);
      ghost var k := NextBetween(blocks, 0, type1, type2);
      PendingFrom(0, type1, type2);
      while it != 0
        invariant Iterating(it, k, type1, type2, visited)
        decreases |blocks| - k, it
      {
        PendingStep(it, k, type1, type2, visited);
        visited := visited + [it];
        it := FindNextBlockBetween(it, k, type1, type2);
        k := if k < |blocks| then NextBetween(blocks, k + 1, type1, type2) else k;
      }
    }

    ghost predicate Iterating(it: nat, k: nat, type1: uint8, type2: uint8, visited: seq<nat>)
      requires mem.Length > 0
      reads this
    {
      && k <= |blocks| && (it == 0 || it == Addr(blocks, k)) && (it == 0 ==> k == |blocks|)
      && visited + Pending(it, k, type1, type2) == Between(blocks, 0, type1, type2) + Stray(type1, type2)
    }

    lemma PendingStep(it: nat, k: nat, type1: uint8, type2: uint8, was: seq<nat>)
      requires Valid() && it != 0 && Iterating(it, k, type1, type2, was)
      ensures Iterating(Target(k + 1, type1, type2),
                        if k < |blocks| then NextBetween(blocks, k + 1, type1, type2) else k,
                        type1, type2, was + [it])
    {
      var it' := Target(k + 1, type1, type2);
      var k' := if k < |blocks| then NextBetween(blocks, k + 1, type1, type2) else k;
      if k < |blocks| {
        PendingFrom(k + 1, type1, type2);
      }
      var rest := Pending(it', k', type1, type2);
      assert Pending(it, k, type1, type2) == [it] + rest;
      Associative(was, [it], rest);
    }

    lemma PendingFrom(first: nat, type1: uint8, type2: uint8)
      requires Valid() && first <= |blocks|
      ensures var j := NextBetween(blocks, first, type1, type2);
              var it := Target(first, type1, type2);
              && (it != 0 ==> it == Addr(blocks, j))
              && (it == 0 ==> j == |blocks|)
              && Pending(it, j, type1, type2)
                 == Between(blocks, first, type1, type2) + Stray(type1, type2)
    {
      BetweenFrom(blocks, first, type1, type2);
      AddrEnd(blocks);
    }

    // What is left to visit when the iteration has arrived at `it`, the address of block k.
    ghost function Pending(it: nat, k: nat, type1: uint8, type2: uint8): seq<nat>
      requires mem.Length > 0 && k <= |blocks|
      reads this
    {
      if it == 0 then []
      else if k == |blocks| then [it]
      else [it] + (Between(blocks, k + 1, type1, type2) + Stray(type1, type2))
    }

    // What the iteration visits past the store.
    ghost function Stray(type1: uint8, type2: uint8): seq<nat>
      requires mem.Length > 0
    {
      if type1 <= beyond <= type2 then [mem.Length] else []
    }

    // ---------- Requests over the bus ----------

    // The host asks with 0 or the address of a block; any other handle makes the device follow
    // whatever byte stands there.
    method GetNextBlock(h1: uint16, ghost k: nat) returns (h2: uint16, kind: uint8, size: uint8)
      requires Valid()
      ensures h2 < End() && kind == mem[h2] && size == mem[h2 + 1]
      ensures h1 != 0 && h2 != 0 ==> h2 == (h1 + 2 + if h1 + 1 < mem.Length then mem[h1 + 1] else beyond) % 0x1_0000
      ensures k <= |blocks| && (if k == 0 then h1 == 0 else h1 == Addr(blocks, k - 1)) ==>
                && h2 == (if k < |blocks| then Addr(blocks, k) else 0)
                && (k < |blocks| ==> kind == blocks[k].kind && size == |blocks[k].data|)
    {
      if h1 == 0 {
        h2 := DATA_START;
      } else {
        var length := ReadByte(h1 + 1);
        h2 := (h1 + 2 + length) % 0x1_0000;
      }
      if k <= |blocks| && if k == 0 then h1 == 0 else h1 == Addr(blocks, k - 1) {
        Next(k);
      }
      if h2 >= End() {
        h2 := 0;
      }
      kind := mem[h2];
      size := mem[h2 + 1];
    }

    // What stands at the end of block k - 1, or at the beginning of the store.
    lemma Next(k: nat)
      requires Valid() && k <= |blocks|
      ensures k > 0 ==> Addr(blocks, k - 1) + 1 < mem.Length
                        && Addr(blocks, k) == Addr(blocks, k - 1) + 2 + mem[Addr(blocks, k - 1) + 1]
      ensures Addr(blocks, k) <= mem.Length
      ensures if k < |blocks| then
                && Addr(blocks, k) < End()
                && mem[Addr(blocks, k)] == blocks[k].kind && mem[Addr(blocks, k) + 1] == |blocks[k].data|
              else Addr(blocks, k) == mem.Length
    {
      AddrEnd(blocks);
      if k > 0 {
        Here(Addr(blocks, k - 1), k - 1);
      }
      if k < |blocks| {
        Here(Addr(blocks, k), k);
      }
    }

    // When no block fits, the type is written to address 0, outside the store.
    method AllocateBlock(kind: uint8, size: uint8) returns (h: nat)
      requires Valid()
      modifies this, mem
      ensures Valid() && blocks == Step(old(blocks), Allocate(kind, size))
      ensures var k := FirstFit(old(blocks), size);
              if k < |old(blocks)| then
                && h == Addr(old(blocks), k) && k < |blocks| && h == Addr(blocks, k)
                && forall i :: 0 <= i < DATA_START ==> mem[i] == old(mem[i])
              else h == 0 && mem[..] == old(mem[..])[0 := kind]
    {
      ghost var bs, k := blocks, FirstFit(blocks, size);
      h := Alloc(size);
      // One write of the type byte at h, inside the store or at address 0.
      if h != 0 {
        AddrPrefix(blocks, bs, k);
        SetType(h, k, kind);
        AddrPrefix(blocks, bs, k);
        assert blocks == Allocated(bs, k, kind, size);
      } else {
        ghost var m := mem[..];
        mem[h] := kind;
        assert mem[DATA_START..] == m[DATA_START..];
      }
    }

    // Nothing is checked: the byte may be part of a header.
    method WriteToBlock(block: uint16, index: uint8, value: uint8)
      requires Valid() && block + index < mem.Length
      modifies this, mem
      ensures mem[..] == old(mem[..])[block + index := value]
      ensures if Harmless(old(blocks), block + index, value)
              then Valid() && blocks == Step(old(blocks), Write(block + index, value))
              else blocks == old(blocks)
    {
      ghost var m, at := mem[..], block + index;
      mem[block + index] := value;
      if Harmless(blocks, at, value) {
        ByteWrittenHolds(m, blocks, at, value);
        blocks := Step(blocks, Write(at, value));
      }
    }

    method FormatAgain()
      requires Valid()
      modifies this, mem
      ensures Valid() && blocks == Step(old(blocks), Format)
      ensures forall i :: 0 <= i < EDS_START ==> mem[i] == old(mem[i])
      ensures mem[EDS_START] == EDS_MAGIC1 && mem[EDS_START + 1] == EDS_MAGIC2
    {
      FormattedSuffix(mem[..], seq(DATA_START, _ => 0) + Flatten(blocks), DATA_START);
      FormatStore();
    }

    lemma Here(p: nat, k: nat)
      requires Valid() && k <= |blocks| && p == Addr(blocks, k) && (p < End() || k < |blocks|)
      ensures k < |blocks|
      ensures p + 2 + |blocks[k].data| == Addr(blocks, k + 1) <= mem.Length
      ensures mem[p] == blocks[k].kind && mem[p + 1] == |blocks[k].data|
      ensures mem[p + 2..p + 2 + |blocks[k].data|] == blocks[k].data
    {
      AddrEnd(blocks);
      HeaderAt(mem[..], blocks, k);
    }

    lemma AtEnd(p: nat, k: nat)
      requires Valid() && k <= |blocks| && p == Addr(blocks, k) && p >= End()
      ensures k == |blocks| && p == mem.Length
    {
      AddrEnd(blocks);
      if k < |blocks| {
        HeaderAt(mem[..], blocks, k);
      }
    }
  }

  // Where formatting can stand: on a multiple of its 130 byte blocks, or at the end.
  ghost predicate OnGrid(length: nat, p: nat) {
    p == length || (p - DATA_START) % 130 == 0
  }

  lemma CompactSkip(bs: seq<Block>, k: nat)
    requires k < |bs| && !(k > 0 && Mergeable(bs[k - 1], bs[k]))
    ensures Compact(bs[..k + 1], bs[k + 1..]) == Compact(bs[..k], bs[k..])
  {
    assert bs[..k + 1] == bs[..k] + [bs[k]] && bs[k..][1..] == bs[k + 1..];
  }

  lemma CompactMerge(bs: seq<Block>, k: nat, cs: seq<Block>)
    requires 0 < k < |bs| && Mergeable(bs[k - 1], bs[k])
    requires cs == bs[..k - 1] + [Merged(bs[k - 1], bs[k])] + bs[k + 1..]
    ensures Compact(cs[..k], cs[k..]) == Compact(bs[..k], bs[k..])
  {
    assert cs[..k] == bs[..k][..k - 1] + [Merged(bs[k - 1], bs[k])];
    assert cs[k..] == bs[k..][1..];
  }

  lemma CarvedBytes(b: Block, size: uint8)
    requires Fits(b, size) && |b.data| >= size + 2
    ensures Flatten(Carve(b, 0, size)) ==
            [0, size] + b.data[..size] + [0, |b.data| - size - 2] + b.data[size + 2..]
  {
    var mid := Carve(b, 0, size);
    assert mid[1..] == [mid[1]];
    FlattenOne(mid[1]);
  }

  lemma CarvedInPlace(m: seq<uint8>, m2: seq<uint8>, p: nat, b: Block, size: uint8)
    requires Fits(b, size) && |b.data| >= size + 2
    requires p + 2 + |b.data| <= |m|
    requires m[p] == 0 && m[p + 2..p + 2 + |b.data|] == b.data
    requires m2 == m[p + 2 + size := 0][p + 3 + size := |b.data| - size - 2][p + 1 := size]
    ensures m2[p..p + 2 + |b.data|] ==
            [0, size] + b.data[..size] + [0, |b.data| - size - 2] + b.data[size + 2..]
  {
    var n := |b.data|;
    assert b.data[..size] == m[p + 2..p + 2 + size] == m2[p + 2..p + 2 + size];
    assert b.data[size + 2..] == m[p + 4 + size..p + 2 + n] == m2[p + 4 + size..p + 2 + n];
    assert m2[p..p + 2 + n] ==
           m2[p..p + 2] + m2[p + 2..p + 2 + size] + m2[p + 2 + size..p + 4 + size] + m2[p + 4 + size..p + 2 + n];
  }

  // Formatting of the bytes m has reached p: the bytes `now` hold the blocks done so far.
  ghost predicate Formatting(m: seq<uint8>, now: seq<uint8>, p: nat, done: seq<Block>) {
    && DATA_START <= p <= |m| == |now|
    && (forall i :: 0 <= i < EDS_START ==> now[i] == m[i])
    && now[EDS_START] == EDS_MAGIC1 && now[EDS_START + 1] == EDS_MAGIC2
    && now[DATA_START..p] == Flatten(done)
    && now[p..] == m[p..]
    && Formatted(m, DATA_START) == done + Formatted(m, p)
  }

  // One block of formatting: its header written at `block`.
  lemma FormattedBlock(m: seq<uint8>, before: seq<uint8>, after: seq<uint8>, block: nat, size: uint8, done: seq<Block>)
    requires Formatting(m, before, block, done) && block + 3 < |m|
    requires size == if |m| - 2 - block > 128 then 128 else |m| - 2 - block
    requires after == before[block := 0][block + 1 := size]
    ensures Formatting(m, after, block + 2 + size, done + [Block(0, m[block + 2..block + 2 + size])])
  {
    var q := block + 2 + size;
    var b: Block := Block(0, m[block + 2..q]);
    FlattenConcat(done, [b]);
    FlattenOne(b);
    assert after[DATA_START..block] == before[DATA_START..block];
    forall i | block + 2 <= i < |m| ensures after[i] == m[i] {
      assert before[block..][i - block] == m[block..][i - block];
    }
    assert after[block + 2..q] == m[block + 2..q];
    assert after[q..] == m[q..];
    assert after[DATA_START..q] == after[DATA_START..block] + [0, size] + after[block + 2..q];
    assert Formatted(m, block) == [b] + Formatted(m, q);
    assert done + ([b] + Formatted(m, q)) == (done + [b]) + Formatted(m, q);
  }

  lemma FormattingStart(m: seq<uint8>, now: seq<uint8>)
    requires |m| > DATA_START && now == m[EDS_START := EDS_MAGIC1][EDS_START + 1 := EDS_MAGIC2]
    ensures Formatting(m, now, DATA_START, [])
  {
    assert now[DATA_START..] == m[DATA_START..];
  }

  lemma FormattingDone(m: seq<uint8>, now: seq<uint8>, done: seq<Block>)
    requires Formatting(m, now, |m|, done)
    ensures Holds(now, done) && done == Formatted(m, DATA_START)
    ensures forall i :: 0 <= i < EDS_START ==> now[i] == m[i]
    ensures now[EDS_START] == EDS_MAGIC1 && now[EDS_START + 1] == EDS_MAGIC2
  {
    assert now[DATA_START..] == now[DATA_START..|m|];
  }

  // Bytes m2 that differ from m only in the blocks from k to j, where they spell out `mid`, hold the
  // blocks with `mid` put in.
  lemma {:induction false} Overwritten(m: seq<uint8>, m2: seq<uint8>, bs: seq<Block>, k: nat, j: nat, mid: seq<Block>)
    requires Holds(m, bs) && k <= j <= |bs| && |m2| == |m|
    requires |Flatten(mid)| == |Flatten(bs[k..j])|
    requires Addr(bs, k) + |Flatten(mid)| <= |m|
    requires var p := Addr(bs, k);
             && m2[..p] == m[..p]
             && m2[p..p + |Flatten(mid)|] == Flatten(mid)
             && m2[p + |Flatten(mid)|..] == m[p + |Flatten(mid)|..]
    ensures Holds(m2, bs[..k] + mid + bs[j..])
  {
    AddrFlatten(bs, k);
    assert bs == bs[..k] + bs[k..j] + bs[j..];
    FlattenConcat(bs[..k] + bs[k..j], bs[j..]);
    FlattenConcat(bs[..k], bs[k..j]);
    FlattenConcat(bs[..k] + mid, bs[j..]);
    FlattenConcat(bs[..k], mid);
    Spliced(m, m2, Flatten(bs[..k]), Flatten(bs[k..j]), Flatten(mid), Flatten(bs[j..]));
  }

  lemma {:induction false} OneOverwritten(m: seq<uint8>, m2: seq<uint8>, bs: seq<Block>, k: nat, b: Block)
    requires Holds(m, bs) && k < |bs| && |m2| == |m| && |b.data| == |bs[k].data|
    requires Addr(bs, k) + 2 + |b.data| <= |m|
    requires var p := Addr(bs, k);
             && m2[..p] == m[..p]
             && m2[p..p + 2 + |b.data|] == [b.kind, |b.data|] + b.data
             && m2[p + 2 + |b.data|..] == m[p + 2 + |b.data|..]
    ensures Holds(m2, bs[k := b])
  {
    FlattenOne(b);
    FlattenOne(bs[k]);
    assert bs[k..k + 1] == [bs[k]];
    Overwritten(m, m2, bs, k, k + 1, [b]);
    assert bs[k := b] == bs[..k] + [b] + bs[k + 1..];
  }

  lemma MergedBytes(m: seq<uint8>, m2: seq<uint8>, p: nat, a: Block, b: Block)
    requires Mergeable(a, b) && p + 4 + |a.data| + |b.data| <= |m|
    requires m[p] == 0 && m[p + 2..p + 2 + |a.data|] == a.data
    requires var q := p + 2 + |a.data|;
             m[q] == 0 && m[q + 1] == |b.data| && m[q + 2..q + 2 + |b.data|] == b.data
    requires m2 == m[p + 1 := |a.data| + 2 + |b.data|]
    ensures m2[p..p + 4 + |a.data| + |b.data|] == [0, |a.data| + 2 + |b.data|] + Merged(a, b).data
  {
    var q := p + 2 + |a.data|;
    var r := q + 2 + |b.data|;
    assert m2[p + 2..q] == m[p + 2..q];
    assert m2[q + 2..r] == m[q + 2..r];
    assert m2[p..r] == m2[p..p + 2] + m2[p + 2..q] + m2[q..q + 2] + m2[q + 2..r];
  }

  lemma FlattenTwo(a: Block, b: Block)
    ensures |Flatten([a, b])| == 4 + |a.data| + |b.data|
  {
    assert [a, b] == [a] + [b];
    FlattenConcat([a], [b]);
    FlattenOne(a);
    FlattenOne(b);
  }

  // The bytes of two neighbours, as their headers give them.
  lemma TwoHeaders(m: seq<uint8>, bs: seq<Block>, k: nat)
    requires Holds(m, bs) && k + 1 < |bs|
    ensures var p, a, b := Addr(bs, k), bs[k], bs[k + 1];
            var q := p + 2 + |a.data|;
            && p + 4 + |a.data| + |b.data| <= |m|
            && m[p] == a.kind && m[p + 2..p + 2 + |a.data|] == a.data
            && m[q] == b.kind && m[q + 1] == |b.data| && m[q + 2..q + 2 + |b.data|] == b.data
  {
    HeaderAt(m, bs, k);
    HeaderAt(m, bs, k + 1);
  }

  lemma {:induction false} TwoMerged(m: seq<uint8>, bs: seq<Block>, k: nat)
    requires Holds(m, bs) && k + 1 < |bs| && Mergeable(bs[k], bs[k + 1])
    ensures Addr(bs, k) + 1 < |m|
    ensures Holds(m[Addr(bs, k) + 1 := |bs[k].data| + 2 + |bs[k + 1].data|],
                  bs[..k] + [Merged(bs[k], bs[k + 1])] + bs[k + 2..])
  {
    var a, b := bs[k], bs[k + 1];
    var c := Merged(a, b);
    var p := Addr(bs, k);
    TwoHeaders(m, bs, k);
    var m2 := m[p + 1 := |c.data|];
    assert m2[..p] == m[..p] && m2[p + 2 + |c.data|..] == m[p + 2 + |c.data|..];
    MergedBytes(m, m2, p, a, b);
    TwoOverwritten(m, m2, bs, k, c);
  }

  lemma TwoOverwritten(m: seq<uint8>, m2: seq<uint8>, bs: seq<Block>, k: nat, c: Block)
    requires Holds(m, bs) && k + 1 < |bs| && |m2| == |m|
    requires |c.data| == |bs[k].data| + 2 + |bs[k + 1].data|
    requires var p := Addr(bs, k);
             && p + 2 + |c.data| <= |m|
             && m2[..p] == m[..p]
             && m2[p..p + 2 + |c.data|] == [c.kind, |c.data|] + c.data
             && m2[p + 2 + |c.data|..] == m[p + 2 + |c.data|..]
    ensures Holds(m2, bs[..k] + [c] + bs[k + 2..])
  {
    assert bs[k..k + 2] == [bs[k], bs[k + 1]];
    FlattenTwo(bs[k], bs[k + 1]);
    FlattenOne(c);
    Overwritten(m, m2, bs, k, k + 2, [c]);
  }

  lemma Spliced(m: seq<uint8>, m2: seq<uint8>, a: seq<uint8>, b: seq<uint8>, b2: seq<uint8>, c: seq<uint8>)
    requires |m| >= DATA_START && m[DATA_START..] == a + b + c && |m2| == |m| && |b| == |b2|
    requires var p := DATA_START + |a|;
             m2[..p] == m[..p] && m2[p..p + |b|] == b2 && m2[p + |b|..] == m[p + |b|..]
    ensures m2[DATA_START..] == a + b2 + c
  {
    var p := DATA_START + |a|;
    var f := m[DATA_START..];
    assert m2[DATA_START..p] == m[..p][DATA_START..] == f[..|a|] == a;
    assert m2[p + |b|..] == f[|a| + |b|..] == c;
    assert m2[DATA_START..] == m2[DATA_START..p] + m2[p..p + |b|] + m2[p + |b|..];
  }
}
