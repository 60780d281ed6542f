// The host's view of the store: a cache of the blocks in use, filled and kept over the bus.
module EdsHost {
  import opened Sequences
  import opened Words
  import opened EdsBlocks
  import opened Eds

  // One block type of the system's block descriptions.
  datatype Description = Description(name: string, kind: uint8, size: uint8)

  datatype Cached = Cached(address: nat, kind: uint8, size: uint8)

  datatype Outcome = Done(block: Cached) | UnknownType | NoSuchBlock | DeleteFailed

  predicate Known(ds: seq<Description>, kind: uint8) {
    ds != [] && (ds[0].kind == kind || Known(ds[1..], kind))
  }

  // What the host lists of the blocks in use: those of a described type, in address order.
  function Listed(ds: seq<Description>, used: seq<(nat, Block)>): seq<Cached> {
    if used == [] then []
    else
      var (at, b) := used[0];
      (if Known(ds, b.kind) then [Cached(at, b.kind, |b.data|)] else []) + Listed(ds, used[1..])
  }

  function Listing(ds: seq<Description>, bs: seq<Block>): seq<Cached> {
    Listed(ds, InUse(bs, DATA_START))
  }

  lemma {:induction false} ListedConcat(ds: seq<Description>, a: seq<(nat, Block)>, b: seq<(nat, Block)>)
    ensures Listed(ds, a + b) == Listed(ds, a) + Listed(ds, b)
  {
    if a == [] {
      assert a + b == b;
    } else {
      ListedConcat(ds, a[1..], b);
      TailOfConcat(a, b);
      Associative(Listed(ds, a[..1]), Listed(ds, a[1..]), Listed(ds, b));
    }
  }

  lemma ListedOne(ds: seq<Description>, at: nat, b: Block)
    ensures Listed(ds, [(at, b)]) == if Known(ds, b.kind) then [Cached(at, b.kind, |b.data|)] else []
  {
    assert [(at, b)][1..] == [];
  }

  lemma {:induction false} ListedPrefix(ds: seq<Description>, bs: seq<Block>, k: nat)
    requires k < |bs|
    ensures Listing(ds, bs[..k + 1]) ==
            Listing(ds, bs[..k]) +
            if !bs[k].IsFree() && Known(ds, bs[k].kind) then [Cached(Addr(bs, k), bs[k].kind, |bs[k].data|)] else []
  {
    assert bs[..k + 1] == bs[..k] + [bs[k]];
    InUseConcat(bs[..k], [bs[k]], DATA_START);
    AddrFlatten(bs, k);
    InUseOne(bs[k], Addr(bs, k));
    ListedConcat(ds, InUse(bs[..k], DATA_START), InUse([bs[k]], Addr(bs, k)));
    ListedOne(ds, Addr(bs, k), bs[k]);
  }

  // The cache and the device list the same blocks.
  ghost predicate InSync(ds: seq<Description>, cached: seq<Cached>, bs: seq<Block>) {
    multiset(cached) == multiset(Listing(ds, bs))
  }

  class Connection {
    const device: Store
    const descriptions: seq<Description>
    var cached: seq<Cached>

    constructor (device: Store, descriptions: seq<Description>)
      ensures this.device == device && this.descriptions == descriptions && cached == []
    {
      this.device, this.descriptions, cached := device, descriptions, [];
    }

    method Update()
      requires device.Valid()
      modifies this
      ensures cached == Listing(descriptions, device.blocks)
    {
      cached := [];
      ghost var bs := device.blocks;
      ghost var k: nat := 0;
      var it: uint16 := 0;
      var more := true;
      while more
        invariant k <= |bs| && it == if more && k > 0 then Addr(bs, k - 1) else 0
        invariant more || k == |bs|
        invariant cached == Listing(descriptions, bs[..k])
        decreases |bs| - k, more
      {
        var kind, size;
        it, kind, size := device.GetNextBlock(it, k);
        if it != 0 {
          ListedPrefix(descriptions, bs, k);
          k := k + 1;
        }
        if it != 0 && kind != 0 && Known(descriptions, kind) {
          cached := cached + [Cached(it, kind, size)];
        }
        more := it != 0;
      }
      assert bs[..k] == bs;
    }

    method SpaceFree() returns (free: nat)
      requires device.Valid()
      ensures free == SizeSum(device.blocks, true)
    {
      free := SpaceOf(true);
    }

    method SpaceUsed() returns (used: nat)
      requires device.Valid()
      ensures used == SizeSum(device.blocks, false)
    {
      used := SpaceOf(false);
    }

    // The loop that space_free() and space_used() share, for the free or for the used blocks.
    method SpaceOf(free: bool) returns (sum: nat)
      requires device.Valid()
      ensures sum == SizeSum(device.blocks, free)
    {
      sum := 0;
      ghost var bs := device.blocks;
      ghost var k: nat := 0;
      var it: uint16 := 0;
      var more := true;
      while more
        invariant k <= |bs| && it == if more && k > 0 then Addr(bs, k - 1) else 0
        invariant more || k == |bs|
        invariant sum == SizeSum(bs[..k], free)
        decreases |bs| - k, more
      {
        var kind, size;
        it, kind, size := device.GetNextBlock(it, k);
        if it != 0 {
          assert bs[..k + 1] == bs[..k] + [bs[k]] && [bs[k]][1..] == [];
          SizeSumConcat(bs[..k], [bs[k]], free);
          k := k + 1;
        }
        if it != 0 && (kind == 0) == free {
          sum := sum + size;
        }
        more := it != 0;
      }
      assert bs[..k] == bs;
    }

    // eds_block(econ, address): the header is read back at the address.
    method ReadBlock(address: nat) returns (block: Cached)
      requires address + 1 < device.mem.Length
      ensures block == Cached(address, device.mem[address], device.mem[address + 1])
    {
      var kind := device.ReadByte(address);
      var size := device.ReadByte(address + 1);
      block := Cached(address, kind, size);
    }

    // Asks the device for a block and lists what the answer points to.  When no block fits, that is
    // address 0, and the cache no longer matches the device.
    method CreateBlock(name: string) returns (outcome: Outcome)
      requires device.Valid() && forall d <- descriptions :: d.kind != 0
      modifies this, device, device.mem
      ensures device.Valid()
      ensures outcome == UnknownType <==> forall d <- descriptions :: d.name != name
      ensures outcome.Done? ==>
                exists i :: && 0 <= i < |descriptions| && descriptions[i].name == name
                            && (forall j :: 0 <= j < i ==> descriptions[j].name != name)
                            && device.blocks
                               == Step(old(device.blocks), Allocate(descriptions[i].kind, descriptions[i].size))
      ensures var bs, i := old(device.blocks), Lookup(descriptions, name);
              if i == |descriptions| then outcome == UnknownType && unchanged(this) && unchanged(device)
              else
                var d := descriptions[i];
                && outcome.Done?
                && outcome.block.address == (if FirstFit(bs, d.size) < |bs| then Addr(bs, FirstFit(bs, d.size)) else 0)
                && device.blocks == Step(bs, Allocate(d.kind, d.size))
                && |cached| == |old(cached)| + 1 && cached[..|cached| - 1] == old(cached)
                && (InSync(descriptions, old(cached), bs) ==>
                      (InSync(descriptions, cached, device.blocks) <==> FirstFit(bs, d.size) < |bs|))
    {
      var i := 0;
      while i < |descriptions|
        invariant 0 <= i <= |descriptions|
        invariant Lookup(descriptions, name) == i + Lookup(descriptions[i..], name)
        invariant unchanged(this) && unchanged(device) && unchanged(device.mem)
      {
        var d := descriptions[i];
        if d.name == name {
          ghost var bs := device.blocks;
          var address := device.AllocateBlock(d.kind, d.size);
          if address != 0 {
            device.Here(address, FirstFit(bs, d.size));
          }
          var block := ReadBlock(address);
          cached := cached + [block];
          KnownAt(descriptions, i);
          if InSync(descriptions, old(cached), bs) {
            Created(descriptions, old(cached), bs, d, block);
          }
          assert block in cached;
          outcome := BlockByAddress(address);
          return;
        }
        assert descriptions[i..][1..] == descriptions[i + 1..];
        i := i + 1;
      }
      return UnknownType;
    }

    // The first listed block with the address.
    method BlockByAddress(address: nat) returns (outcome: Outcome)
      ensures outcome == NoSuchBlock <==> forall c <- cached :: c.address != address
      ensures outcome != NoSuchBlock ==>
                exists i :: && 0 <= i < |cached| && outcome == Done(cached[i]) && cached[i].address == address
                            && forall j :: 0 <= j < i ==> cached[j].address != address
    {
      var i := 0;
      while i < |cached|
        invariant 0 <= i <= |cached|
        invariant forall j :: 0 <= j < i ==> cached[j].address != address
      {
        if cached[i].address == address {
          return Done(cached[i]);
        }
        i := i + 1;
      }
      return NoSuchBlock;
    }

    // Frees a listed block and takes it off the list.
    method DeleteBlock(address: nat) returns (outcome: Outcome)
      requires device.Valid()
      modifies this, device, device.mem
      ensures device.Valid()
      ensures outcome == NoSuchBlock <==> forall c <- old(cached) :: c.address != address
      ensures outcome == NoSuchBlock || outcome == DeleteFailed ==>
                cached == old(cached) && device.blocks == old(device.blocks)
      ensures outcome.Done? ==>
                && outcome.block in old(cached) && outcome.block.address == address
                && multiset(cached) == multiset(old(cached)) - multiset{outcome.block}
                && device.blocks == Step(old(device.blocks), Free(address))
      ensures outcome != UnknownType
      ensures outcome.Done? <==>
                && (exists c <- old(cached) :: c.address == address)
                && IndexAt(old(device.blocks), address, DATA_START) < |old(device.blocks)|
      ensures InSync(descriptions, old(cached), old(device.blocks)) ==>
                InSync(descriptions, cached, device.blocks) && outcome != DeleteFailed
    {
      var i := 0;
      while i < |cached|
        invariant 0 <= i <= |cached|
        invariant forall j :: 0 <= j < i ==> cached[j].address != address
        invariant unchanged(this) && unchanged(device) && unchanged(device.mem)
      {
        if cached[i].address == address {
          ghost var bs, was := device.blocks, cached;
          var block := cached[i];
          var result := device.FreeBlock(address);
          if InSync(descriptions, was, bs) {
            Deleted(descriptions, was, bs, i);
          }
          if result == EDS_OK {
            RemovedAt(cached, i);
            cached := cached[..i] + cached[i + 1..];
            return Done(block);
          }
          return DeleteFailed;
        }
        i := i + 1;
      }
      return NoSuchBlock;
    }

    method DefragmentDevice()
      requires device.Valid()
      modifies this, device, device.mem
      ensures device.Valid() && device.blocks == Step(old(device.blocks), Defragment)
      ensures cached == Listing(descriptions, device.blocks) == Listing(descriptions, old(device.blocks))
    {
      Defragmented(device.blocks);
      device.DefragmentStore();
      Update();
    }
  }

  // The first description with the name, or |ds|.
  function Lookup(ds: seq<Description>, name: string): (i: nat)
    ensures i <= |ds| && (i < |ds| ==> ds[i].name == name)
    ensures forall j :: 0 <= j < i ==> ds[j].name != name
  {
    if ds == [] then 0 else if ds[0].name == name then 0 else 1 + Lookup(ds[1..], name)
  }

  lemma {:induction false} KnownAt(ds: seq<Description>, i: nat)
    requires i < |ds|
    ensures Known(ds, ds[i].kind)
  {
    if i > 0 {
      KnownAt(ds[1..], i - 1);
    }
  }

  lemma {:induction false} KnownIff(ds: seq<Description>, kind: uint8)
    ensures Known(ds, kind) <==> exists d <- ds :: d.kind == kind
  {
    if ds != [] {
      KnownIff(ds[1..], kind);
      assert ds == [ds[0]] + ds[1..];
    }
  }

  // The space the host adds up, and two header bytes for each block, is the whole store.
  lemma SpaceIsStore(m: seq<uint8>, bs: seq<Block>)
    requires Holds(m, bs)
    ensures SizeSum(bs, true) + SizeSum(bs, false) + 2 * |bs| == |m| - DATA_START
  {
    SpaceAccounted(bs);
  }

  lemma Created(ds: seq<Description>, cached: seq<Cached>, bs: seq<Block>, d: Description, block: Cached)
    requires d.kind != 0 && Known(ds, d.kind) && InSync(ds, cached, bs)
    requires var k := FirstFit(bs, d.size);
             k < |bs| ==> block == Cached(Addr(bs, k), d.kind, d.size)
    ensures InSync(ds, cached + [block], Step(bs, Allocate(d.kind, d.size))) <==> FirstFit(bs, d.size) < |bs|
  {
    var k := FirstFit(bs, d.size);
    if k < |bs| {
      var b := Block(d.kind, bs[k].data[..d.size]);
      AllocateAddsOne(bs, d.kind, d.size, k);
      ListedAdded(ds, InUse(bs[..k], DATA_START), (Addr(bs, k), b), InUse(bs[k + 1..], Addr(bs, k + 1)));
    } else {
      assert |multiset(cached + [block])| == |multiset(cached)| + 1;
    }
  }

  lemma ListedAdded(ds: seq<Description>, pre: seq<(nat, Block)>, x: (nat, Block), post: seq<(nat, Block)>)
    requires Known(ds, x.1.kind)
    ensures multiset(Listed(ds, pre + [x] + post))
         == multiset(Listed(ds, pre + post)) + multiset{Cached(x.0, x.1.kind, |x.1.data|)}
  {
    ListedConcat(ds, pre + [x], post);
    ListedConcat(ds, pre, [x]);
    ListedConcat(ds, pre, post);
    ListedOne(ds, x.0, x.1);
  }

  lemma RemovedAt(cached: seq<Cached>, i: nat)
    requires i < |cached|
    ensures multiset(cached[..i] + cached[i + 1..]) == multiset(cached) - multiset{cached[i]}
  {
    assert cached == cached[..i] + [cached[i]] + cached[i + 1..];
  }

  // Where a listed block stands in the store.
  lemma {:induction false} ListedAt(ds: seq<Description>, bs: seq<Block>, c: Cached, n: nat) returns (k: nat)
    requires n <= |bs| && c in Listing(ds, bs[..n])
    ensures k < n && c == Cached(Addr(bs, k), bs[k].kind, |bs[k].data|) && !bs[k].IsFree() && Known(ds, bs[k].kind)
    decreases n
  {
    if n > 0 {
      ListedPrefix(ds, bs, n - 1);
      if c in Listing(ds, bs[..n - 1]) {
        k := ListedAt(ds, bs, c, n - 1);
      } else {
        k := n - 1;
      }
    }
  }

  // The list has an entry for every block in use of a described type and no other entry, in the order
  // of the addresses.
  lemma {:induction false} ListedIff(ds: seq<Description>, bs: seq<Block>, n: nat, c: Cached)
    requires n <= |bs|
    ensures c in Listing(ds, bs[..n]) <==>
            exists k :: && 0 <= k < n && !bs[k].IsFree() && (exists d <- ds :: d.kind == bs[k].kind)
                        && c == Cached(Addr(bs, k), bs[k].kind, |bs[k].data|)
    decreases n
  {
    if n > 0 {
      ListedPrefix(ds, bs, n - 1);
      ListedIff(ds, bs, n - 1, c);
      KnownIff(ds, bs[n - 1].kind);
    } else {
      assert bs[..0] == [];
    }
  }

  lemma {:induction false} ListedInOrder(ds: seq<Description>, bs: seq<Block>, n: nat)
    requires n <= |bs|
    ensures var l := Listing(ds, bs[..n]);
            && (forall i, j :: 0 <= i < j < |l| ==> l[i].address < l[j].address)
            && forall i :: 0 <= i < |l| ==> l[i].address < Addr(bs, n)
    decreases n
  {
    if n > 0 {
      ListedPrefix(ds, bs, n - 1);
      ListedInOrder(ds, bs, n - 1);
    } else {
      assert bs[..0] == [];
    }
  }

  lemma Deleted(ds: seq<Description>, cached: seq<Cached>, bs: seq<Block>, i: nat)
    requires i < |cached| && InSync(ds, cached, bs)
    ensures IndexAt(bs, cached[i].address, DATA_START) < |bs|
    ensures InSync(ds, cached[..i] + cached[i + 1..], Step(bs, Free(cached[i].address)))
  {
    var c := cached[i];
    assert c in multiset(cached);
    assert c in Listing(ds, bs);
    assert bs[..|bs|] == bs;
    var k := ListedAt(ds, bs, c, |bs|);
    forall j | 0 <= j < k ensures Addr(bs, j) != c.address {
      AddrMonotone(bs, j, k);
    }
    IndexAtIs(bs, c.address, k);
    FreeRemovesOne(bs, k);
    ListedAdded(ds, InUse(bs[..k], DATA_START), (Addr(bs, k), bs[k]), InUse(bs[k + 1..], Addr(bs, k + 1)));
    RemovedAt(cached, i);
  }
}
