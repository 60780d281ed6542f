// A firmware image as the host loads it: the data records, padded to whole flash pages.
module HexFile {
  import opened Words
  import opened Crc16
  import opened Sequences

  datatype Record = Record(kind: uint8, bytes: seq<bv8>)

  // The bytes of the data records, in file order.
  function Payload(records: seq<Record>): seq<bv8> {
    if records == [] then []
    else Payload(records[..|records| - 1]) +
         if records[|records| - 1].kind == 0 then records[|records| - 1].bytes else []
  }

  // Records are taken one after the other, and only those of kind 0 count.
  lemma {:induction false} PayloadConcat(a: seq<Record>, b: seq<Record>)
    ensures Payload(a + b) == Payload(a) + Payload(b)
  {
    if b == [] {
      assert a + b == a;
    } else {
      var n := |b| - 1;
      assert (a + b)[..|a + b| - 1] == a + b[..n];
      PayloadConcat(a, b[..n]);
      Associative(Payload(a), Payload(b[..n]), if b[n].kind == 0 then b[n].bytes else []);
    }
  }

  lemma PayloadOne(r: Record)
    ensures Payload([r]) == if r.kind == 0 then r.bytes else []
  {
    assert [r][..0] == [];
  }

  function PaddingLength(size: nat, pageSize: uint16): nat
    requires pageSize > 0
  {
    pageSize - size % pageSize
  }

  // The 8-bit counter of the padding loop after some rounds.
  function PaddingCounter(rounds: nat): uint8 {
    if rounds == 0 then 0 else (PaddingCounter(rounds - 1) + 1) % 0x100
  }

  // The counter reaches the end of the padding in some round.
  ghost predicate PaddingEnds(size: nat, pageSize: uint16)
    requires pageSize > 0
  {
    exists rounds: nat :: PaddingCounter(rounds) >= PaddingLength(size, pageSize)
  }

  lemma {:induction false} CountsUp(rounds: nat)
    requires rounds < 0x100
    ensures PaddingCounter(rounds) == rounds
  {
    if rounds > 0 {
      CountsUp(rounds - 1);
    }
  }

  // Padding ends exactly when at most 255 bytes are missing.  For the page sizes in use, it ends unless
  // 256-byte pages meet an already aligned payload.
  lemma PaddingEndsIff(size: nat, pageSize: uint16)
    requires pageSize > 0
    ensures PaddingEnds(size, pageSize) <==> PaddingLength(size, pageSize) <= 255
    ensures pageSize == 128 || pageSize == 256 ==>
              (PaddingEnds(size, pageSize) <==> !(pageSize == 256 && size % 256 == 0))
  {
    var n := PaddingLength(size, pageSize);
    if n <= 255 {
      CountsUp(n);
      assert PaddingCounter(n) >= n;
    } else {
      assert forall rounds: nat :: PaddingCounter(rounds) < n;
    }
  }

  class Image {
    var data: seq<bv8>

    constructor ()
      ensures data == []
    {
      data := [];
    }

    method Load(records: seq<Record>, pageSize: uint16)
      requires pageSize > 0 && PaddingEnds(|Payload(records)|, pageSize)
      modifies this
      ensures |data| % pageSize == 0 && |data| > |Payload(records)|
      ensures data[..|Payload(records)|] == Payload(records)
      ensures |data| <= |Payload(records)| + pageSize
      ensures forall k :: |Payload(records)| <= k < |data| ==> data[k] == 0xFF
    {
      data := [];
      for r := 0 to |records|
        invariant data == Payload(records[..r])
      {
        assert records[..r + 1][..r] == records[..r];
        if records[r].kind == 0 {
          ghost var before := data;
          for i := 0 to |records[r].bytes|
            invariant data == before + records[r].bytes[..i]
          {
            data := data + [records[r].bytes[i]];
          }
          assert records[r].bytes[..|records[r].bytes|] == records[r].bytes;
        }
      }
      assert records[..|records|] == records;
      PaddingEndsIff(|data|, pageSize);
      Pad(pageSize);
    }

    method Pad(pageSize: uint16)
      requires pageSize > 0 && PaddingLength(|data|, pageSize) <= 255
      modifies this
      ensures |data| == old(|data|) + PaddingLength(old(|data|), pageSize) && |data| % pageSize == 0
      ensures data[..old(|data|)] == old(data)
      ensures forall k :: old(|data|) <= k < |data| ==> data[k] == 0xFF
    {
      ghost var payload := data;
      var padding := |data| % pageSize;
      var i: uint8 := 0;
      while i < pageSize - padding
        invariant 0 <= i <= pageSize - padding
        invariant |data| == |payload| + i && data[..|payload|] == payload
        invariant forall k :: |payload| <= k < |data| ==> data[k] == 0xFF
      {
        data := data + [0xFF];
        i := (i + 1) % 0x100;
      }
      Aligned(|payload|, pageSize);
    }

    // The host keeps the size in 16 bits.
    function Size(): uint16
      reads this
    {
      |data| % 0x1_0000
    }

    method Checksum() returns (crc: bv16)
      ensures crc == Crc(data, |data| / 2)
    {
      crc := 0xFFFF;
      for i := 0 to |data| / 2
        invariant crc == Crc(data, i)
      {
        var a := data[i * 2];
        var b := data[i * 2 + 1];
        crc := CrcUpdate(crc, b);
        crc := CrcUpdate(crc, a);
      }
    }
  }

  lemma Aligned(size: nat, pageSize: uint16)
    requires pageSize > 0
    ensures (size + PaddingLength(size, pageSize)) % pageSize == 0
  {
    var q := size / pageSize;
    assert size + PaddingLength(size, pageSize) == (q + 1) * pageSize;
    RemainderUnique(q + 1, 0, pageSize);
  }
}
