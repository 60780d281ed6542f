// The compiled form of a query and the stack machine that matches frames against it.
module QueryMachine {
  import opened Words
  import opened Bits

  const CODE_SIZE := 128
  const STACK_SIZE := 16
  // The machine counts bytes of code against CODE_SIZE, so it runs at most this many words.
  const REACHABLE := CODE_SIZE / 4

  const TOKEN_NOP: uint32 := 0x00000000
  const TOKEN_INT: uint32 := 0x01000000
  const TOKEN_SRC: uint32 := 0x10000000
  const TOKEN_DST: uint32 := 0x11000000
  const TOKEN_PROTO: uint32 := 0x12000000
  const TOKEN_SIZE: uint32 := 0x13000000
  const TOKEN_D0: uint32 := 0x14000000
  const TOKEN_D1: uint32 := 0x15000000
  const TOKEN_D2: uint32 := 0x16000000
  const TOKEN_D3: uint32 := 0x17000000
  const TOKEN_D4: uint32 := 0x18000000
  const TOKEN_D5: uint32 := 0x19000000
  const TOKEN_D6: uint32 := 0x20000000
  const TOKEN_D7: uint32 := 0x21000000
  const TOKEN_EQUAL: uint32 := 0x80000000
  const TOKEN_AND_OP: uint32 := 0x81000000
  const TOKEN_AND: uint32 := 0x82000000
  const TOKEN_OR_OP: uint32 := 0x83000000
  const TOKEN_OR: uint32 := 0x84000000
  const TOKEN_NOTEQUAL: uint32 := 0x85000000
  const TOKEN_NOT: uint32 := 0x86000000

  datatype Frame = Frame(src: uint16, dst: uint16, proto: uint16, size: uint16, data: seq<uint8>) {
    predicate Valid() { |data| == 8 }
  }

  datatype Error = Underrun | Overflow | NotSingle | UnknownOpcode | CodeEnd

  datatype Result<T> = Ok(value: T) | Err(error: Error)

  function Bool(b: bool): uint32 {
    if b then 1 else 0
  }

  // An instruction: it pushes a value, replaces the top one or the top two, or is unknown.
  datatype Instruction = Push(value: uint32) | Negate | Combine(token: uint32) | Unknown

  function Decode(w: uint32, f: Frame): Instruction
    requires f.Valid()
  {
    var opcode := w - w % 0x0100_0000;
    if opcode == TOKEN_INT then Push(w % 0x0100_0000)
    else if opcode == TOKEN_SRC then Push(f.src)
    else if opcode == TOKEN_DST then Push(f.dst)
    else if opcode == TOKEN_PROTO then Push(f.proto)
    else if opcode == TOKEN_SIZE then Push(f.size)
    else if opcode == TOKEN_D0 then Push(f.data[0])
    else if opcode == TOKEN_D1 then Push(f.data[1])
    else if opcode == TOKEN_D2 then Push(f.data[2])
    else if opcode == TOKEN_D3 then Push(f.data[3])
    else if opcode == TOKEN_D4 then Push(f.data[4])
    else if opcode == TOKEN_D5 then Push(f.data[5])
    else if opcode == TOKEN_D6 then Push(f.data[6])
    else if opcode == TOKEN_D7 then Push(f.data[7])
    else if opcode == TOKEN_NOT then Negate
    else if TOKEN_EQUAL <= opcode <= TOKEN_NOTEQUAL then Combine(opcode)
    else Unknown
  }

  // d1 is the value popped first.
  function Combined(token: uint32, d1: uint32, d2: uint32): uint32 {
    if token == TOKEN_EQUAL then Bool(d1 == d2)
    else if token == TOKEN_NOTEQUAL then Bool(d1 != d2)
    else if token == TOKEN_AND_OP then BitAnd(d1, d2)
    else if token == TOKEN_AND then Bool(d1 != 0 && d2 != 0)
    else if token == TOKEN_OR_OP then BitOr(d1, d2)
    else Bool(d1 != 0 || d2 != 0)
  }

  function Step(i: Instruction, st: seq<uint32>): Result<seq<uint32>> {
    match i
    case Push(v) => if |st| >= STACK_SIZE - 1 then Err(Overflow) else Ok(st + [v])
    case Negate =>
      if |st| < 1 then Err(Underrun) else Ok(st[..|st| - 1] + [Bool(st[|st| - 1] == 0)])
    case Combine(token) =>
      if |st| < 2 then Err(Underrun)
      else Ok(st[..|st| - 2] + [Combined(token, st[|st| - 1], st[|st| - 2])])
    case Unknown => Err(UnknownOpcode)
  }

  predicate IsEnd(w: uint32) {
    w < 0x0100_0000
  }

  // The outcome of running the code from word c on.
  function Run(code: seq<uint32>, c: nat, st: seq<uint32>, f: Frame): Result<bool>
    requires f.Valid() && |code| == CODE_SIZE
    decreases REACHABLE - c
  {
    if c >= REACHABLE then Err(CodeEnd)
    else if IsEnd(code[c]) then (if |st| == 1 then Ok(st[0] != 0) else Err(NotSingle))
    else
      match Step(Decode(code[c], f), st)
      case Err(e) => Err(e)
      case Ok(t) => Run(code, c + 1, t, f)
  }

  lemma InReach(c: nat)
    ensures 4 * c < CODE_SIZE <==> c < REACHABLE
  {
  }

  lemma RunEnds(code: seq<uint32>, c: nat, st: seq<uint32>, f: Frame)
    requires f.Valid() && |code| == CODE_SIZE && c >= REACHABLE
    ensures Run(code, c, st, f) == Err(CodeEnd)
  {
  }

  // ---------- Errors depend on the code only ----------

  // A pushed value; the pointer may have been left anywhere by earlier matches.
  function PushedPointer(p: int): (Result<()>, int) {
    (if p + 1 > STACK_SIZE - 1 then Err(Overflow) else Ok(()), p + 1)
  }

  // What an instruction does to the stack pointer, whatever the stack holds.
  function StepPointer(i: Instruction, p: int): (Result<()>, int) {
    match i
    case Push(_) => PushedPointer(p)
    case Negate => if p - 1 < 0 then (Err(Underrun), p - 1) else PushedPointer(p - 1)
    case Combine(_) =>
      if p - 1 < 0 then (Err(Underrun), p - 1)
      else if p - 2 < 0 then (Err(Underrun), p - 2)
      else PushedPointer(p - 2)
    case Unknown => (Err(UnknownOpcode), p)
  }

  function NoFrame(): Frame {
    Frame(0, 0, 0, 0, [0, 0, 0, 0, 0, 0, 0, 0])
  }

  // The error of a run that begins with some stack pointer, if it ends in one, and the pointer it leaves.
  function RunPointer(code: seq<uint32>, c: nat, p: int): (Result<()>, int)
    requires |code| == CODE_SIZE
    decreases REACHABLE - c
  {
    if c >= REACHABLE then (Err(CodeEnd), p)
    else if IsEnd(code[c]) then (if p == 1 then (Ok(()), 0) else (Err(NotSingle), p))
    else
      var (r, q) := StepPointer(Decode(code[c], NoFrame()), p);
      if r.Err? then (r, q) else RunPointer(code, c + 1, q)
  }

  lemma PointerEnds(code: seq<uint32>, c: nat, p: int)
    requires |code| == CODE_SIZE && c >= REACHABLE
    ensures RunPointer(code, c, p) == (Err(CodeEnd), p)
  {
  }

  lemma DecodeKind(w: uint32, f: Frame, p: int)
    requires f.Valid()
    ensures StepPointer(Decode(w, f), p) == StepPointer(Decode(w, NoFrame()), p)
  {
  }

  lemma StepAndPointer(i: Instruction, st: seq<uint32>)
    requires |st| < STACK_SIZE
    ensures match Step(i, st)
            case Err(e) => StepPointer(i, |st|).0 == Err(e)
            case Ok(t) => StepPointer(i, |st|) == (Ok(()), |t|) && |t| < STACK_SIZE
  {
  }

  lemma {:induction false} ErrorsIgnoreFrame(code: seq<uint32>, c: nat, st: seq<uint32>, f: Frame)
    requires f.Valid() && |code| == CODE_SIZE && |st| < STACK_SIZE
    ensures match Run(code, c, st, f)
            case Err(e) => RunPointer(code, c, |st|).0 == Err(e)
            case Ok(_) => RunPointer(code, c, |st|) == (Ok(()), 0)
    decreases REACHABLE - c
  {
    if c < REACHABLE && !IsEnd(code[c]) {
      DecodeKind(code[c], f, |st|);
      StepAndPointer(Decode(code[c], f), st);
      match Step(Decode(code[c], f), st)
      case Err(_) =>
      case Ok(t) => ErrorsIgnoreFrame(code, c + 1, t, f);
    }
  }

  // Whether a match throws, and what, is the same for all frames.
  lemma ThrowsAlike(code: seq<uint32>, f: Frame, g: Frame)
    requires f.Valid() && g.Valid() && |code| == CODE_SIZE
    ensures Run(code, 0, [], f).Err? <==> Run(code, 0, [], g).Err?
    ensures Run(code, 0, [], f).Err? ==> Run(code, 0, [], f) == Run(code, 0, [], g)
  {
    ErrorsIgnoreFrame(code, 0, [], f);
    ErrorsIgnoreFrame(code, 0, [], g);
  }

  // ---------- All matches of one query object ----------

  // The stack pointer after some matches; a match that throws does not reset it.
  function PointerAfter(code: seq<uint32>, matches: nat): int
    requires |code| == CODE_SIZE
  {
    if matches == 0 then 0 else RunPointer(code, 0, PointerAfter(code, matches - 1)).1
  }

  // Where a run underruns the stack, one that begins lower does so, too.
  lemma {:induction false} LowerUnderruns(code: seq<uint32>, c: nat, p: int, d: int)
    requires |code| == CODE_SIZE && d <= p && RunPointer(code, c, p).0 == Err(Underrun)
    ensures RunPointer(code, c, d).0 == Err(Underrun) && RunPointer(code, c, d).1 < 0
    decreases REACHABLE - c
  {
    var i := Decode(code[c], NoFrame());
    var (r, q) := StepPointer(i, p);
    var (s, e) := StepPointer(i, d);
    if r.Ok? && s.Ok? {
      LowerUnderruns(code, c + 1, q, e);
    }
  }

  // Where a run ends in another error, one that begins higher ends in it, as much higher, or overflows.
  lemma {:induction false} HigherFails(code: seq<uint32>, c: nat, p: int, d: int)
    requires |code| == CODE_SIZE && p <= d
    requires var (r, q) := RunPointer(code, c, p);
             r.Err? && r != Err(Underrun) && (r == Err(NotSingle) ==> q + d - p != 1)
    ensures var (r, q) := RunPointer(code, c, p);
            var (s, e) := RunPointer(code, c, d);
            (s == Err(Overflow) && e >= STACK_SIZE) || (s == r && e == q + d - p)
    decreases REACHABLE - c
  {
    if c < REACHABLE && !IsEnd(code[c]) {
      var i := Decode(code[c], NoFrame());
      var (r, q) := StepPointer(i, p);
      var (s, e) := StepPointer(i, d);
      if r.Ok? && s.Ok? {
        HigherFails(code, c + 1, q, e);
      }
    }
  }

  lemma {:induction false} PointerLeft(code: seq<uint32>, c: nat, p: int)
    requires |code| == CODE_SIZE && p >= 0
    ensures var (r, q) := RunPointer(code, c, p);
            && (r.Ok? ==> q == 0)
            && (r.Err? && r != Err(Underrun) ==> q >= 0)
            && (r == Err(NotSingle) ==> q != 1)
    decreases REACHABLE - c
  {
    if c < REACHABLE && !IsEnd(code[c]) {
      var (r, q) := StepPointer(Decode(code[c], NoFrame()), p);
      if r.Ok? {
        PointerLeft(code, c + 1, q);
      }
    }
  }

  // A pointer with which the query will not answer.
  predicate Dead(code: seq<uint32>, p: int)
    requires |code| == CODE_SIZE
  {
    var (r, q) := RunPointer(code, 0, 0);
    r.Err? && if r == Err(Underrun) then p <= 0 else p >= 0 && (r == Err(NotSingle) ==> p + q != 1)
  }

  lemma DeadStaysDead(code: seq<uint32>, p: int)
    requires |code| == CODE_SIZE && Dead(code, p)
    ensures RunPointer(code, 0, p).0.Err? && Dead(code, RunPointer(code, 0, p).1)
  {
    PointerLeft(code, 0, 0);
    if RunPointer(code, 0, 0).0 == Err(Underrun) {
      LowerUnderruns(code, 0, 0, p);
    } else {
      HigherFails(code, 0, 0, p);
    }
  }

  // A query object answers every frame, or throws on every frame: after one match that threw no other
  // one ever answers, and after one that answered no other one throws.
  lemma {:induction false} AllOrNone(code: seq<uint32>, matches: nat)
    requires |code| == CODE_SIZE
    ensures RunPointer(code, 0, PointerAfter(code, matches)).0.Ok? <==> RunPointer(code, 0, 0).0.Ok?
    ensures if RunPointer(code, 0, 0).0.Ok? then PointerAfter(code, matches) == 0
            else Dead(code, PointerAfter(code, matches))
  {
    PointerLeft(code, 0, 0);
    if matches > 0 {
      AllOrNone(code, matches - 1);
      if RunPointer(code, 0, 0).0.Err? {
        DeadStaysDead(code, PointerAfter(code, matches - 1));
      }
    }
    if RunPointer(code, 0, 0).0.Err? {
      DeadStaysDead(code, PointerAfter(code, matches));
    }
  }
}
