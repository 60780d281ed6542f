// The query object: compiles postfix text into its code array and matches frames with its stack.
module DataQuery {
  import opened Words
  import opened QueryText
  import opened QueryMachine
  import opened Wrappers

  const LONG_MAX := 0x7FFF_FFFF_FFFF_FFFF

  // atol() of a number: the library's saturating conversion.
  function Atol(w: string): nat
    requires IsNumber(w)
  {
    if Value(w) > LONG_MAX then LONG_MAX else Value(w)
  }

  // The words other than numbers, in the order in which they are tried.
  const KEYWORDS: seq<(string, uint32)> := [
    ("src", TOKEN_SRC), ("dst", TOKEN_DST), ("proto", TOKEN_PROTO), ("size", TOKEN_SIZE),
    ("d0", TOKEN_D0), ("d1", TOKEN_D1), ("d2", TOKEN_D2), ("d3", TOKEN_D3),
    ("d4", TOKEN_D4), ("d5", TOKEN_D5), ("d6", TOKEN_D6), ("d7", TOKEN_D7),
    ("=", TOKEN_EQUAL), ("!=", TOKEN_NOTEQUAL), ("!", TOKEN_NOT),
    ("&", TOKEN_AND_OP), ("&&", TOKEN_AND), ("|", TOKEN_OR_OP), ("||", TOKEN_OR)]

  function Keyword(table: seq<(string, uint32)>, w: string): (code: seq<uint32>)
    ensures |code| <= 1
  {
    if table == [] then []
    else if w == table[0].0 then [table[0].1]
    else Keyword(table[1..], w)
  }

  // The code word for one word of text; words that mean nothing are passed over.
  function Encode(w: string): (code: seq<uint32>)
    ensures |code| <= 1
  {
    if IsNumber(w) then [TOKEN_INT + Atol(w) % 0x1_0000_0000 % 0x0100_0000] else Keyword(KEYWORDS, w)
  }

  lemma {:induction false} KeywordAt(table: seq<(string, uint32)>, i: nat)
    requires i < |table|
    requires forall j :: 0 <= j < i ==> table[j].0 != table[i].0
    ensures Keyword(table, table[i].0) == [table[i].1]
  {
    if i > 0 {
      assert table[1..][i - 1] == table[i];
      forall j | 0 <= j < i - 1 ensures table[1..][j].0 != table[i].0 {
        assert table[1..][j] == table[j + 1];
      }
      KeywordAt(table[1..], i - 1);
    }
  }

  lemma KeywordsDistinct(i: nat, j: nat)
    requires i < j < |KEYWORDS|
    ensures KEYWORDS[i].0 != KEYWORDS[j].0
  {
  }

  lemma KeywordCode(i: nat)
    requires i < |KEYWORDS|
    ensures Keyword(KEYWORDS, KEYWORDS[i].0) == [KEYWORDS[i].1]
  {
    forall j | 0 <= j < i ensures KEYWORDS[j].0 != KEYWORDS[i].0 {
      KeywordsDistinct(j, i);
    }
    KeywordAt(KEYWORDS, i);
  }

  lemma {:induction false} KeywordFrom(table: seq<(string, uint32)>, w: string)
    ensures if Keyword(table, w) == [] then forall i :: 0 <= i < |table| ==> table[i].0 != w
            else exists i :: 0 <= i < |table| && table[i].0 == w && Keyword(table, w) == [table[i].1]
  {
    if table != [] && w != table[0].0 {
      KeywordFrom(table[1..], w);
      if Keyword(table, w) == [] {
        forall i | 0 <= i < |table| ensures table[i].0 != w {
          assert i > 0 ==> table[1..][i - 1] == table[i];
        }
      } else {
        var i :| 0 <= i < |table[1..]| && table[1..][i].0 == w && Keyword(table[1..], w) == [table[1..][i].1];
        assert table[i + 1] == table[1..][i];
      }
    }
  }

  // Every word that yields code yields an instruction the machine knows; all others are passed over.
  lemma EncodeKnown(w: string, f: Frame)
    requires f.Valid()
    ensures Encode(w) == [] <==> !IsNumber(w) && forall i :: 0 <= i < |KEYWORDS| ==> KEYWORDS[i].0 != w
    ensures Encode(w) != [] ==> !IsEnd(Encode(w)[0]) && Decode(Encode(w)[0], f) != Unknown
  {
    KeywordFrom(KEYWORDS, w);
    if !IsNumber(w) && Encode(w) != [] {
      var i :| 0 <= i < |KEYWORDS| && KEYWORDS[i].0 == w && Encode(w) == [KEYWORDS[i].1];
      KeywordKnown(i, f);
    }
  }

  lemma KeywordKnown(i: nat, f: Frame)
    requires i < |KEYWORDS| && f.Valid()
    ensures !IsEnd(KEYWORDS[i].1) && Decode(KEYWORDS[i].1, f) != Unknown
  {
  }

  function EncodeAll(ws: seq<string>): seq<uint32> {
    if ws == [] then [] else EncodeAll(ws[..|ws| - 1]) + Encode(ws[|ws| - 1])
  }

  lemma {:induction false} EncodeConcat(a: seq<string>, b: seq<string>)
    ensures EncodeAll(a + b) == EncodeAll(a) + EncodeAll(b)
  {
    if b == [] {
      assert a + b == a;
    } else {
      assert (a + b)[..|a + b| - 1] == a + b[..|b| - 1];
      EncodeConcat(a, b[..|b| - 1]);
    }
  }

  lemma EncodeOne(w: string)
    ensures EncodeAll([w]) == Encode(w)
  {
    assert [w][..0] == [];
  }

  // The most code words that fit beside the terminator.
  const MAX_WORDS := CODE_SIZE - 2

  class Query {
    const code: array<uint32>
    const stack: array<uint32>
    // What reads outside the stack array return.
    const stray: uint32
    var stackPtr: int

    predicate Sized() {
      code.Length == CODE_SIZE && stack.Length == STACK_SIZE && code != stack
    }

    // Ready for a match that can answer.
    predicate Valid()
      reads this
    {
      Sized() && stackPtr == 0
    }

    constructor (stray: uint32)
      ensures Valid() && fresh(code) && fresh(stack) && this.stray == stray
    {
      this.stray := stray;
      code := new uint32[CODE_SIZE];
      stack := new uint32[STACK_SIZE];
      stackPtr := 0;
    }

    method Compile(query: string) returns (ok: bool)
      requires Valid()
      modifies code
      ensures var ws := EncodeAll(Split(query, 0));
              && (ok <==> |ws| <= MAX_WORDS)
              && (ok ==> code[..|ws|] == ws && code[|ws|] == TOKEN_NOP)
    {
      var n := 0;
      var pos := 0;
      var eof := false;
      ghost var read: seq<string> := [];
      while !eof
        invariant 0 <= pos <= |query| && 0 <= n <= CODE_SIZE - 1
        invariant Split(query, 0) == read + Split(query, pos)
        invariant eof ==> pos == |query|
        invariant code[..n] == EncodeAll(read)
        decreases |query| - pos, !eof
      {
        if 4 * n >= 4 * CODE_SIZE - 4 {
          EncodeConcat(read, Split(query, pos));
          return false;
        }
        ReadOn(query, pos, read);
        var begin := SkipSpace(query, pos);
        var end := SkipWord(query, begin);
        var word := query[begin..end];
        eof := end == |query|;
        pos := end;
        n := Append(n, word, read);
        read := if word == [] then read else read + [word];
      }
      assert read + [] == read;
      if 4 * n >= 4 * CODE_SIZE - 4 {
        return false;
      }
      code[n] := TOKEN_NOP;
      return true;
    }

    method Append(n: nat, word: string, ghost read: seq<string>) returns (n': nat)
      requires Valid() && n < CODE_SIZE - 1 && code[..n] == EncodeAll(read)
      modifies code
      ensures n' <= CODE_SIZE - 1
      ensures code[..n'] == EncodeAll(if word == [] then read else read + [word])
    {
      n' := n;
      var token := Encode(word);
      EncodeConcat(read, [word]);
      EncodeOne(word);
      NoKeyword();
      if token != [] {
        code[n'] := token[0];
        n' := n' + 1;
      }
    }

    // The stack as the machine sees it.
    ghost function Contents(): seq<uint32>
      reads this, stack
      requires stack.Length == STACK_SIZE && 0 <= stackPtr < STACK_SIZE
    {
      stack[1..stackPtr + 1]
    }

    // A write outside the stack array is left out.
    method Push(data: uint32) returns (ok: bool)
      requires stack.Length == STACK_SIZE
      modifies this`stackPtr, stack
      ensures stackPtr == old(stackPtr) + 1 && (ok <==> stackPtr < STACK_SIZE)
      ensures 0 <= old(stackPtr) && ok ==> Contents() == old(Contents()) + [data]
    {
      stackPtr := stackPtr + 1;
      if 0 <= stackPtr < STACK_SIZE {
        stack[stackPtr] := data;
      }
      ok := stackPtr <= STACK_SIZE - 1;
    }

    method Pop() returns (ok: bool, data: uint32)
      requires stack.Length == STACK_SIZE
      modifies this`stackPtr
      ensures stackPtr == old(stackPtr) - 1 && (ok <==> stackPtr >= 0)
      ensures ok && old(stackPtr) < STACK_SIZE ==>
                Contents() == old(Contents())[..stackPtr] && data == old(Contents())[stackPtr]
    {
      data := if 0 <= stackPtr < STACK_SIZE then stack[stackPtr] else stray;
      stackPtr := stackPtr - 1;
      ok := stackPtr >= 0;
    }

    // The two values on top, the upper one first.
    method PopTwo() returns (ok: bool, d1: uint32, d2: uint32)
      requires stack.Length == STACK_SIZE
      modifies this`stackPtr
      ensures stackPtr == old(stackPtr) - (if old(stackPtr) < 1 then 1 else 2) && (ok <==> stackPtr >= 0)
      ensures ok && old(stackPtr) < STACK_SIZE ==>
                && Contents() == old(Contents())[..stackPtr]
                && d1 == old(Contents())[stackPtr + 1] && d2 == old(Contents())[stackPtr]
    {
      d2 := 0;
      ok, d1 := Pop();
      if ok {
        ok, d2 := Pop();
      }
    }

    method Execute(i: Instruction) returns (error: Result<()>)
      requires stack.Length == STACK_SIZE
      modifies this`stackPtr, stack
      ensures (error, stackPtr) == StepPointer(i, old(stackPtr))
      ensures 0 <= old(stackPtr) < STACK_SIZE ==>
                match Step(i, old(Contents()))
                case Err(e) => error == Err(e)
                case Ok(st) => error == Ok(()) && 0 <= stackPtr < STACK_SIZE && Contents() == st
    {
      var ok, d1, d2;
      match i
      case Push(v) =>
        ok := Push(v);
        return if ok then Ok(()) else Err(Overflow);
      case Negate =>
        ok, d1 := Pop();
        if !ok { return Err(Underrun); }
        ok := Push(Bool(d1 == 0));
        return if ok then Ok(()) else Err(Overflow);
      case Combine(token) =>
        ok, d1, d2 := PopTwo();
        if !ok { return Err(Underrun); }
        ok := Push(Combined(token, d1, d2));
        return if ok then Ok(()) else Err(Overflow);
      case Unknown =>
        return Err(UnknownOpcode);
    }

    // The machine is about to run word c, in a match that will end with `end` and, if its stack was empty
    // at the beginning, with the given result.
    ghost predicate At(c: nat, f: Frame, end: (Result<()>, int), result: Option<Result<bool>>)
      reads this, code, stack
    {
      Sized() && f.Valid() && end == RunPointer(code[..], c, stackPtr) &&
      (result.Some? ==> 0 <= stackPtr < STACK_SIZE && result.value == Run(code[..], c, Contents(), f))
    }

    // The match is over.
    ghost predicate Ended(r: Result<bool>, end: (Result<()>, int), result: Option<Result<bool>>)
      reads this
    {
      && end == (if r.Err? then Err(r.error) else Ok(()), stackPtr)
      && (result.Some? ==> r == result.value)
    }

    // One word: the outcome, if it ends the match.
    method ExecuteWord(c: nat, f: Frame, ghost end: (Result<()>, int), ghost result: Option<Result<bool>>)
      returns (outcome: Option<Result<bool>>)
      requires c < REACHABLE && At(c, f, end, result)
      modifies this`stackPtr, stack
      ensures if outcome.Some? then Ended(outcome.value, end, result) else At(c + 1, f, end, result)
    {
      var word := code[c];
      assert code[..][c] == word;
      if IsEnd(word) {
        if stackPtr != 1 {
          return Some(Err(NotSingle));
        }
        var _, top := Pop();
        return Some(Ok(top != 0));
      }
      DecodeKind(word, f, stackPtr);
      var error := Execute(Decode(word, f));
      outcome := if error.Err? then Some(Err(error.error)) else None;
    }

    // On an empty stack the outcome is that of the run; whatever earlier matches have left, it is an
    // error, and leaves the pointer, as the code alone says.
    method Match(f: Frame) returns (result: Result<bool>)
      requires Sized() && f.Valid()
      modifies this`stackPtr, stack
      ensures old(stackPtr) == 0 ==> result == Run(code[..], 0, [], f)
      ensures (if result.Err? then Err(result.error) else Ok(()), stackPtr) == RunPointer(code[..], 0, old(stackPtr))
      ensures old(Valid()) && result.Ok? ==> Valid()
    {
      PointerLeft(code[..], 0, 0);
      ghost var end := RunPointer(code[..], 0, stackPtr);
      ghost var meant := None;
      if stackPtr == 0 {
        assert Contents() == [];
        meant := Some(Run(code[..], 0, Contents(), f));
      }
      result := RunWords(f, end, meant);
    }

    method RunWords(f: Frame, ghost end: (Result<()>, int), ghost meant: Option<Result<bool>>)
      returns (result: Result<bool>)
      requires At(0, f, end, meant)
      modifies this`stackPtr, stack
      ensures Ended(result, end, meant)
    {
      var c := 0;
      while 4 * c < CODE_SIZE
        invariant 0 <= c <= REACHABLE && At(c, f, end, meant)
      {
        InReach(c);
        var outcome := ExecuteWord(c, f, end, meant);
        if outcome.Some? {
          return outcome.value;
        }
        c := c + 1;
      }
      InReach(c);
      CodeEnds(c, f, end, meant);
      return Err(CodeEnd);
    }

    lemma CodeEnds(c: nat, f: Frame, end: (Result<()>, int), meant: Option<Result<bool>>)
      requires c >= REACHABLE && At(c, f, end, meant)
      ensures Ended(Err(CodeEnd), end, meant)
    {
      PointerEnds(code[..], c, stackPtr);
      if meant.Some? {
        RunEnds(code[..], c, Contents(), f);
      }
    }
  }

  lemma NoKeyword()
    ensures Encode([]) == []
  {
    NoneFits(KEYWORDS, []);
  }

  lemma NoneFits(table: seq<(string, uint32)>, w: string)
    requires forall j :: 0 <= j < |table| ==> table[j].0 != w
    ensures Keyword(table, w) == []
  {
  }

  // One word taken off the text, or the end of it.
  lemma {:induction false} ReadOn(query: string, pos: nat, read: seq<string>)
    requires pos <= |query|
    ensures var begin := SkipSpace(query, pos);
            var word := query[begin..SkipWord(query, begin)];
            read + Split(query, pos) ==
            (if word == [] then read else read + [word]) + Split(query, SkipWord(query, begin))
  {
    var begin := SkipSpace(query, pos);
    var end := SkipWord(query, begin);
    if begin < |query| {
      assert read + ([query[begin..end]] + Split(query, end)) == read + [query[begin..end]] + Split(query, end);
    }
  }
}
