// Syslog messages over CAN: a board cuts them into frames, the host puts them together again for
// each source.
module Syslog {
  import opened Sequences
  import opened Words

  const NEWLINE: uint8 := 10
  // What fits into the sender's 128 byte buffer before newline and terminator are added.
  const MAX_TEXT := 125

  // A frame with no payload is never sent and not expected.
  type Payload = s: seq<uint8> | s != [] witness [0]

  // ---------- Sending ----------

  // Pieces of at most 8 bytes.
  function Chunks(bytes: seq<uint8>): (chunks: seq<Payload>)
    ensures bytes != [] ==> chunks != []
  {
    if bytes == [] then []
    else if |bytes| <= 8 then [bytes]
    else [bytes[..8]] + Chunks(bytes[8..])
  }

  // The priority is sent in front of the message.
  function Fragments(prio: uint8, message: seq<uint8>): seq<Payload> {
    Chunks([prio] + message)
  }

  function Terminated(text: seq<uint8>): seq<uint8> {
    (if |text| > MAX_TEXT then text[..MAX_TEXT] else text) + [NEWLINE]
  }

  lemma ChunksSnoc(done: seq<Payload>, bytes: seq<uint8>)
    requires |bytes| >= 8
    ensures done + Chunks(bytes) == done + [bytes[..8]] + Chunks(bytes[8..])
  {
    if |bytes| == 8 {
      assert bytes[..8] == bytes && bytes[8..] == [];
    }
  }

  // The frames of one message; `text` is the formatted text, a C string.
  method SendMessage(level: uint8, prio: uint8, text: seq<uint8>) returns (frames: seq<Payload>)
    requires forall b <- text :: b != 0
    ensures frames == if level >= prio then Fragments(prio, Terminated(text)) else []
  {
    frames := [];
    if level >= prio {
      var s := (if |text| > MAX_TEXT then text[..MAX_TEXT] else text) + [NEWLINE];
      var sCounter: uint8 := 0;
      var payload: seq<uint8> := [prio];
      assert payload + s[sCounter..] == [prio] + s;
      while sCounter < |s|
        invariant 0 <= sCounter <= |s| && |payload| <= 1
        invariant sCounter < |s| ==> frames + Chunks(payload + s[sCounter..]) == Fragments(prio, s)
        invariant sCounter == |s| ==> frames == Fragments(prio, s)
      {
        ghost var bytes := payload + s[sCounter..];
        while |payload| < 8 && sCounter < |s|
          invariant 0 <= sCounter <= |s| && |payload| <= 8
          invariant payload + s[sCounter..] == bytes
          decreases |s| - sCounter
        {
          payload := payload + [s[sCounter]];
          sCounter := sCounter + 1;
        }
        if sCounter < |s| {
          ChunksSnoc(frames, bytes);
          assert bytes[..8] == payload && bytes[8..] == s[sCounter..];
        } else {
          assert bytes == payload;
        }
        frames := frames + [payload];
        payload := [];
        assert payload + s[sCounter..] == s[sCounter..];
      }
    }
  }

  // ---------- Receiving ----------

  datatype Entry = Entry(prio: uint8, msg: seq<uint8>)

  datatype Frame = Frame(src: uint16, data: Payload)

  datatype Printed = Printed(src: uint16, prio: uint8, msg: seq<uint8>)

  datatype Slot = Nothing | Open(entry: Entry)

  predicate Complete(msg: seq<uint8>) {
    msg != [] && msg[|msg| - 1] == NEWLINE
  }

  // A byte that looks like the priority repeated: the host compares a signed character with it.
  predicate Repeats(byte: uint8, prio: uint8) {
    byte == prio && prio < 0x80
  }

  // What one frame does to the open message of its source; a message just begun is never complete.
  function Take(slot: Slot, data: Payload): (Slot, seq<Entry>)
  {
    match slot
    case Nothing => (Open(Entry(data[0], data[1..])), [])
    case Open(e) =>
      var msg := e.msg + if Repeats(data[0], e.prio) then data[1..] else data;
      if Complete(msg) then (Nothing, [Entry(e.prio, msg)]) else (Open(Entry(e.prio, msg)), [])
  }

  class Receiver {
    var messages: map<uint16, Entry>
    var printed: seq<Printed>

    constructor ()
      ensures messages == map[] && printed == []
    {
      messages, printed := map[], [];
    }

    method Receive(f: Frame)
      modifies this
      ensures messages == After(old(messages), f)
      ensures printed == old(printed) + Output(old(messages), f)
    {
      if f.src in messages {
        var e := messages[f.src];
        if Repeats(f.data[0], e.prio) {
          e := Entry(e.prio, e.msg + f.data[1..]);
        } else {
          e := Entry(e.prio, e.msg + f.data);
        }
        messages := messages[f.src := e];
        if |e.msg| > 0 && e.msg[|e.msg| - 1] == NEWLINE {
          printed := printed + [Printed(f.src, e.prio, e.msg)];
          messages := messages - {f.src};
        }
      } else {
        messages := messages[f.src := Entry(f.data[0], f.data[1..])];
      }
    }

    method ReceiveAll(frames: seq<Frame>)
      modifies this
      ensures printed == old(printed) + Outputs(old(messages), frames)
    {
      assert frames[0..] == frames;
      for i := 0 to |frames|
        invariant printed + Outputs(messages, frames[i..]) == old(printed) + Outputs(old(messages), frames)
      {
        assert frames[i..][1..] == frames[i + 1..];
        Receive(frames[i]);
      }
    }
  }

  function SlotOf(messages: map<uint16, Entry>, src: uint16): Slot {
    if src in messages then Open(messages[src]) else Nothing
  }

  function WithSlot(messages: map<uint16, Entry>, src: uint16, slot: Slot): map<uint16, Entry> {
    match slot
    case Nothing => messages - {src}
    case Open(e) => messages[src := e]
  }

  function After(messages: map<uint16, Entry>, f: Frame): map<uint16, Entry>
  {
    WithSlot(messages, f.src, Take(SlotOf(messages, f.src), f.data).0)
  }

  function Mark(src: uint16, es: seq<Entry>): seq<Printed> {
    seq(|es|, i requires 0 <= i < |es| => Printed(src, es[i].prio, es[i].msg))
  }

  function Output(messages: map<uint16, Entry>, f: Frame): seq<Printed>
  {
    Mark(f.src, Take(SlotOf(messages, f.src), f.data).1)
  }

  function Outputs(messages: map<uint16, Entry>, frames: seq<Frame>): seq<Printed>
    decreases |frames|
  {
    if frames == [] then [] else Output(messages, frames[0]) + Outputs(After(messages, frames[0]), frames[1..])
  }

  // ---------- One source among many ----------

  function DataOf(frames: seq<Frame>, src: uint16): seq<Payload> {
    if frames == [] then []
    else (if frames[0].src == src then [frames[0].data] else []) + DataOf(frames[1..], src)
  }

  function PrintedOf(ps: seq<Printed>, src: uint16): seq<Entry> {
    if ps == [] then []
    else (if ps[0].src == src then [Entry(ps[0].prio, ps[0].msg)] else []) + PrintedOf(ps[1..], src)
  }

  // The messages one source gets through.
  function Messages(slot: Slot, datas: seq<Payload>): seq<Entry>
    decreases |datas|
  {
    if datas == [] then []
    else
      var (next, es) := Take(slot, datas[0]);
      es + Messages(next, datas[1..])
  }

  function Pending(slot: Slot, datas: seq<Payload>): Slot
    decreases |datas|
  {
    if datas == [] then slot else Pending(Take(slot, datas[0]).0, datas[1..])
  }

  lemma {:induction false} PrintedOfConcat(a: seq<Printed>, b: seq<Printed>, src: uint16)
    ensures PrintedOf(a + b, src) == PrintedOf(a, src) + PrintedOf(b, src)
  {
    if a == [] {
      assert a + b == b;
    } else {
      PrintedOfConcat(a[1..], b, src);
      TailOfConcat(a, b);
      var first := if a[0].src == src then [Entry(a[0].prio, a[0].msg)] else [];
      Associative(first, PrintedOf(a[1..], src), PrintedOf(b, src));
    }
  }

  lemma PrintedOfMark(es: seq<Entry>, at: uint16, src: uint16)
    requires |es| <= 1
    ensures PrintedOf(Mark(at, es), src) == if at == src then es else []
  {
    if |es| == 1 {
      assert Mark(at, es)[1..] == [];
      assert es == [es[0]];
    }
  }

  // What the receiver prints for a source depends on that source's frames only.
  lemma {:induction false} SourcesIndependent(messages: map<uint16, Entry>, frames: seq<Frame>, src: uint16)
    ensures PrintedOf(Outputs(messages, frames), src) == Messages(SlotOf(messages, src), DataOf(frames, src))
    decreases |frames|
  {
    if frames != [] {
      var f, rest := frames[0], frames[1..];
      var next := After(messages, f);
      SourcesIndependent(next, rest, src);
      PrintedOfConcat(Output(messages, f), Outputs(next, rest), src);
      PrintedOfMark(Take(SlotOf(messages, f.src), f.data).1, f.src, src);
      if f.src == src {
        assert SlotOf(next, src) == Take(SlotOf(messages, src), f.data).0;
        assert DataOf(frames, src)[1..] == DataOf(rest, src);
      } else {
        assert SlotOf(next, src) == SlotOf(messages, src);
        assert [] + DataOf(rest, src) == DataOf(rest, src);
      }
    }
  }

  // ---------- Round trip ----------

  // A continuation that begins with the priority loses that byte; one that ends in a newline before
  // the message does ends it early.  (acc is what has arrived, rest what is still to be cut.)
  predicate ContinuesCleanly(prio: uint8, rest: seq<uint8>)
    decreases |rest|
  {
    rest == [] ||
    (!Repeats(rest[0], prio) && (|rest| <= 8 || (rest[7] != NEWLINE && ContinuesCleanly(prio, rest[8..]))))
  }

  // What a message must be like to come through.
  predicate ComesThrough(prio: uint8, message: seq<uint8>) {
    |message| >= 8 && ContinuesCleanly(prio, message[7..])
  }

  // One continuation frame.
  lemma TakeOne(e: Entry, chunk: Payload, more: seq<Payload>)
    ensures var msg := e.msg + if Repeats(chunk[0], e.prio) then chunk[1..] else chunk;
            Messages(Open(e), [chunk] + more) ==
            if Complete(msg) then [Entry(e.prio, msg)] + Messages(Nothing, more)
            else Messages(Open(Entry(e.prio, msg)), more)
  {
    assert ([chunk] + more)[1..] == more;
  }

  function Head(rest: seq<uint8>): Payload
    requires rest != []
  {
    if |rest| <= 8 then rest else rest[..8]
  }

  function Tail(rest: seq<uint8>): (tail: seq<uint8>)
    ensures rest != [] ==> |tail| < |rest|
  {
    if |rest| <= 8 then [] else rest[8..]
  }

  lemma ChunksHead(rest: seq<uint8>, more: seq<Payload>)
    requires rest != []
    ensures Head(rest) + Tail(rest) == rest && Chunks(rest) == [Head(rest)] + Chunks(Tail(rest))
    ensures Chunks(rest) + more == [Head(rest)] + (Chunks(Tail(rest)) + more)
  {
  }

  lemma CompleteConcat(a: seq<uint8>, chunk: Payload)
    ensures Complete(a + chunk) <==> chunk[|chunk| - 1] == NEWLINE
  {
  }

  lemma {:induction false} CleanContinuation(prio: uint8, acc: seq<uint8>, rest: seq<uint8>, more: seq<Payload>)
    requires rest != [] && rest[|rest| - 1] == NEWLINE && ContinuesCleanly(prio, rest)
    ensures Messages(Open(Entry(prio, acc)), Chunks(rest) + more) == [Entry(prio, acc + rest)] + Messages(Nothing, more)
    decreases |rest|
  {
    ChunksHead(rest, more);
    var head, tail := Head(rest), Tail(rest);
    var msg := acc + head;
    TakeOne(Entry(prio, acc), head, Chunks(tail) + more);
    CompleteConcat(acc, head);
    Associative(acc, head, tail);
    if |rest| <= 8 {
      assert Chunks([]) + more == more;
    } else {
      CleanContinuation(prio, msg, tail, more);
    }
  }

  lemma FirstFragment(prio: uint8, message: seq<uint8>)
    requires |message| >= 8
    ensures Fragments(prio, message) == [[prio] + message[..7]] + Chunks(message[7..])
  {
    var bytes := [prio] + message;
    assert bytes[..8] == [prio] + message[..7] && bytes[8..] == message[7..];
  }

  lemma MessageComesThrough(prio: uint8, message: seq<uint8>, more: seq<Payload>)
    requires Complete(message) && ComesThrough(prio, message)
    ensures Messages(Nothing, Fragments(prio, message) + more) == [Entry(prio, message)] + Messages(Nothing, more)
  {
    FirstFragment(prio, message);
    var first := [prio] + message[..7];
    var all := Fragments(prio, message) + more;
    assert all[1..] == Chunks(message[7..]) + more;
    assert first[1..] == message[..7];
    CleanContinuation(prio, message[..7], message[7..], more);
    assert message[..7] + message[7..] == message;
  }

  // The frames of several messages of one source.
  function AllFragments(ms: seq<Entry>): seq<Payload> {
    if ms == [] then [] else Fragments(ms[0].prio, ms[0].msg) + AllFragments(ms[1..])
  }

  ghost predicate AllComeThrough(ms: seq<Entry>) {
    forall m <- ms :: Complete(m.msg) && ComesThrough(m.prio, m.msg)
  }

  lemma {:induction false} MessagesComeThrough(ms: seq<Entry>)
    requires AllComeThrough(ms)
    ensures Messages(Nothing, AllFragments(ms)) == ms
  {
    if ms != [] {
      MessageComesThrough(ms[0].prio, ms[0].msg, AllFragments(ms[1..]));
      MessagesComeThrough(ms[1..]);
    }
  }

  // However the frames of all sources are interleaved, and whatever the others send, the messages of
  // a source come out complete, unaltered, in order and with their priorities.
  lemma InterleavedRoundTrip(frames: seq<Frame>, src: uint16, ms: seq<Entry>)
    requires AllComeThrough(ms) && DataOf(frames, src) == AllFragments(ms)
    ensures PrintedOf(Outputs(map[], frames), src) == ms
  {
    SourcesIndependent(map[], frames, src);
    MessagesComeThrough(ms);
  }

  // ---------- And only then ----------

  function Size(es: seq<Entry>): nat {
    if es == [] then 0 else |es[0].msg| + Size(es[1..])
  }

  function Bytes(datas: seq<Payload>): nat {
    if datas == [] then 0 else |datas[0]| + Bytes(datas[1..])
  }

  // The receiver makes up no bytes.
  lemma {:induction false} NothingMadeUp(e: Entry, datas: seq<Payload>)
    ensures Size(Messages(Open(e), datas)) <= |e.msg| + Bytes(datas)
    ensures Size(Messages(Nothing, datas)) <= Bytes(datas)
    decreases |datas|
  {
    if datas != [] {
      var d, rest := datas[0], datas[1..];
      NothingMadeUp(Entry(d[0], d[1..]), rest);
      var msg := e.msg + if Repeats(d[0], e.prio) then d[1..] else d;
      NothingMadeUp(Entry(e.prio, msg), rest);
      if Complete(msg) {
        assert ([Entry(e.prio, msg)] + Messages(Nothing, rest))[1..] == Messages(Nothing, rest);
      }
      assert [] + Messages(Open(Entry(e.prio, msg)), rest) == Messages(Open(Entry(e.prio, msg)), rest);
      assert [] + Messages(Open(Entry(d[0], d[1..])), rest) == Messages(Open(Entry(d[0], d[1..])), rest);
    }
  }

  lemma {:induction false} ChunksBytes(bytes: seq<uint8>)
    ensures Bytes(Chunks(bytes)) == |bytes|
    decreases |bytes|
  {
    if |bytes| > 8 {
      ChunksBytes(bytes[8..]);
      assert Chunks(bytes)[1..] == Chunks(bytes[8..]);
    } else if bytes != [] {
      assert Chunks(bytes)[1..] == [];
    }
  }

  lemma SizeOne(e: Entry, more: seq<Entry>)
    ensures Size([e] + more) == |e.msg| + Size(more)
  {
    assert ([e] + more)[1..] == more;
  }

  // A byte taken for a repeated priority is missing from everything printed.
  lemma StrippedIsShorter(e: Entry, rest: seq<uint8>)
    requires rest != [] && Repeats(rest[0], e.prio)
    ensures Size(Messages(Open(e), Chunks(rest))) < |e.msg| + |rest|
  {
    ChunksHead(rest, []);
    var tail := Chunks(Tail(rest));
    TakeOne(e, Head(rest), tail);
    var f := Entry(e.prio, e.msg + Head(rest)[1..]);
    ChunksBytes(Tail(rest));
    NothingMadeUp(f, tail);
    SizeOne(f, Messages(Nothing, tail));
  }

  // Bytes are missing, or the first message printed is cut short.
  predicate Damaged(out: seq<Entry>, n: nat) {
    Size(out) < n || (out != [] && |out[0].msg| < n)
  }

  lemma DamagedIsNotWhole(e: Entry)
    ensures !Damaged([e], |e.msg|)
  {
    SizeOne(e, []);
    assert [e] + [] == [e];
  }

  lemma {:induction false} SpoiledContinuation(prio: uint8, acc: seq<uint8>, rest: seq<uint8>)
    requires rest != [] && !ContinuesCleanly(prio, rest)
    ensures Damaged(Messages(Open(Entry(prio, acc)), Chunks(rest)), |acc| + |rest|)
    decreases |rest|
  {
    if Repeats(rest[0], prio) {
      StrippedIsShorter(Entry(prio, acc), rest);
    } else {
      ChunksHead(rest, []);
      TakeOne(Entry(prio, acc), Head(rest), Chunks(Tail(rest)));
      var msg := acc + Head(rest);
      if !Complete(msg) {
        assert msg[|msg| - 1] == rest[7];
        SpoiledContinuation(prio, msg, Tail(rest));
      }
    }
  }

  // Exactly the messages that come through by the condition above do so.
  lemma ComesThroughIff(prio: uint8, message: seq<uint8>)
    requires Complete(message)
    ensures Messages(Nothing, Fragments(prio, message)) == [Entry(prio, message)] <==> ComesThrough(prio, message)
  {
    if ComesThrough(prio, message) {
      MessageComesThrough(prio, message, []);
      assert Fragments(prio, message) + [] == Fragments(prio, message);
    } else if |message| >= 8 {
      FirstFragment(prio, message);
      var all := Fragments(prio, message);
      assert all[1..] == Chunks(message[7..]);
      assert ([prio] + message[..7])[1..] == message[..7];
      SpoiledContinuation(prio, message[..7], message[7..]);
      DamagedIsNotWhole(Entry(prio, message));
    } else {
      assert Fragments(prio, message)[1..] == [];
    }
  }

  // In particular: at least 8 bytes, no newline before the end and no byte that looks like the priority.
  lemma {:induction false} PlainContinues(prio: uint8, rest: seq<uint8>)
    requires forall k :: 0 <= k < |rest| ==> !Repeats(rest[k], prio)
    requires forall k :: 0 <= k < |rest| - 1 ==> rest[k] != NEWLINE
    ensures ContinuesCleanly(prio, rest)
    decreases |rest|
  {
    if |rest| > 8 {
      PlainContinues(prio, rest[8..]);
    }
  }

  lemma PlainMessageComesThrough(prio: uint8, message: seq<uint8>)
    requires |message| >= 8
    requires forall k :: 0 <= k < |message| ==> !Repeats(message[k], prio)
    requires forall k :: 0 <= k < |message| - 1 ==> message[k] != NEWLINE
    ensures ComesThrough(prio, message)
  {
    PlainContinues(prio, message[7..]);
  }

  // ---------- From a text to the output ----------

  // What is kept of a text.
  function Kept(text: seq<uint8>): (t: seq<uint8>)
    ensures |text| <= MAX_TEXT ==> t == text
    ensures |text| > MAX_TEXT ==> |t| == MAX_TEXT && t <= text
  {
    if |text| > MAX_TEXT then text[..MAX_TEXT] else text
  }

  // The texts that the level admits, each with a newline.
  function Lines(level: uint8, texts: seq<Entry>): seq<Entry> {
    if texts == [] then []
    else
      (if texts[0].prio <= level then [Entry(texts[0].prio, Kept(texts[0].msg) + [NEWLINE])] else [])
      + Lines(level, texts[1..])
  }

  // The frames that sending the texts one after the other yields.
  function SentFrames(level: uint8, texts: seq<Entry>): seq<Payload> {
    if texts == [] then []
    else
      (if level >= texts[0].prio then Fragments(texts[0].prio, Terminated(texts[0].msg)) else [])
      + SentFrames(level, texts[1..])
  }

  ghost predicate TextsComeThrough(level: uint8, texts: seq<Entry>) {
    forall t <- texts :: t.prio <= level ==> ComesThrough(t.prio, Kept(t.msg) + [NEWLINE])
  }

  lemma {:induction false} SentIsFragments(level: uint8, texts: seq<Entry>)
    requires TextsComeThrough(level, texts)
    ensures SentFrames(level, texts) == AllFragments(Lines(level, texts)) && AllComeThrough(Lines(level, texts))
  {
    if texts != [] {
      var rest := Lines(level, texts[1..]);
      SentIsFragments(level, texts[1..]);
      if texts[0].prio <= level {
        var line := Entry(texts[0].prio, Kept(texts[0].msg) + [NEWLINE]);
        assert texts[0] in texts;
        assert ([line] + rest)[1..] == rest;
      } else {
        assert [] + rest == rest;
        assert [] + SentFrames(level, texts[1..]) == SentFrames(level, texts[1..]);
      }
    }
  }

  // However the frames of all sources are interleaved, the texts of a source that the level admits are
  // printed in order, each followed by a newline and cut only after 125 bytes.
  lemma TextsPrinted(frames: seq<Frame>, src: uint16, level: uint8, texts: seq<Entry>)
    requires TextsComeThrough(level, texts) && DataOf(frames, src) == SentFrames(level, texts)
    ensures PrintedOf(Outputs(map[], frames), src) == Lines(level, texts)
  {
    SentIsFragments(level, texts);
    InterleavedRoundTrip(frames, src, Lines(level, texts));
  }
}
