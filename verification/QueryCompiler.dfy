// What the compiled query means: the text of an expression tree in postfix form, matched against a
// frame, gives the truth value of the tree.
module QueryCompiler {
  import opened Words
  import opened Bits
  import opened QueryText
  import opened QueryMachine
  import opened DataQuery

  datatype Field = Src | Dst | Proto | Size | Data(i: nat)

  datatype Operator = Equal | NotEqual | AndBits | And | OrBits | Or

  datatype Expr =
    | Literal(n: nat)
    | FieldOf(field: Field)
    | Not(e: Expr)
    | Binary(op: Operator, left: Expr, right: Expr)

  // Literals fit the 24 operand bits, data fields exist.
  ghost predicate WellFormed(e: Expr) {
    match e
    case Literal(n) => n < 0x0100_0000
    case FieldOf(field) => field.Data? ==> field.i < 8
    case Not(a) => WellFormed(a)
    case Binary(_, l, r) => WellFormed(l) && WellFormed(r)
  }

  function FieldValue(field: Field, f: Frame): uint32
    requires f.Valid() && (field.Data? ==> field.i < 8)
  {
    match field
    case Src => f.src
    case Dst => f.dst
    case Proto => f.proto
    case Size => f.size
    case Data(i) => f.data[i]
  }

  function Apply(op: Operator, a: uint32, b: uint32): uint32 {
    match op
    case Equal => Bool(a == b)
    case NotEqual => Bool(a != b)
    case AndBits => BitAnd(a, b)
    case And => Bool(a != 0 && b != 0)
    case OrBits => BitOr(a, b)
    case Or => Bool(a != 0 || b != 0)
  }

  function Eval(e: Expr, f: Frame): uint32
    requires f.Valid() && WellFormed(e)
  {
    match e
    case Literal(n) => n
    case FieldOf(field) => FieldValue(field, f)
    case Not(a) => Bool(Eval(a, f) == 0)
    case Binary(op, l, r) => Apply(op, Eval(l, f), Eval(r, f))
  }

  predicate CommonBit(a: uint32, b: uint32) {
    exists k: nat :: k < 32 && Bit(a, k) && Bit(b, k)
  }

  // What the truth of an operator's value says about its operands.
  lemma OperatorTruth(op: Operator, a: uint32, b: uint32)
    ensures Apply(op, a, b) != 0 <==>
            match op
            case Equal => a == b
            case NotEqual => a != b
            case AndBits => CommonBit(a, b)
            case And => a != 0 && b != 0
            case OrBits => a != 0 || b != 0
            case Or => a != 0 || b != 0
    ensures !op.AndBits? && !op.OrBits? ==> Apply(op, a, b) <= 1
  {
    match op
    case AndBits =>
      BitsOfAnd(a, b);
      NonzeroIff(BitAnd(a, b));
    case OrBits =>
      BitsOfOr(a, b);
      NonzeroIff(a);
      NonzeroIff(b);
      NonzeroIff(BitOr(a, b));
    case _ =>
  }

  lemma BitsOfAnd(a: uint32, b: uint32)
    ensures forall k: nat :: k < 32 ==> Bit(BitAnd(a, b), k) == (Bit(a, k) && Bit(b, k))
  {
    forall k: nat | k < 32 ensures Bit(BitAnd(a, b), k) == (Bit(a, k) && Bit(b, k)) {
      AndOrBits(a, b, k);
    }
  }

  lemma BitsOfOr(a: uint32, b: uint32)
    ensures forall k: nat :: k < 32 ==> Bit(BitOr(a, b), k) == (Bit(a, k) || Bit(b, k))
  {
    forall k: nat | k < 32 ensures Bit(BitOr(a, b), k) == (Bit(a, k) || Bit(b, k)) {
      AndOrBits(a, b, k);
    }
  }

  function OperatorWord(op: Operator): string {
    match op
    case Equal => "="
    case NotEqual => "!="
    case AndBits => "&"
    case And => "&&"
    case OrBits => "|"
    case Or => "||"
  }

  function OperatorToken(op: Operator): uint32 {
    match op
    case Equal => TOKEN_EQUAL
    case NotEqual => TOKEN_NOTEQUAL
    case AndBits => TOKEN_AND_OP
    case And => TOKEN_AND
    case OrBits => TOKEN_OR_OP
    case Or => TOKEN_OR
  }

  function FieldWord(field: Field): string
    requires field.Data? ==> field.i < 8
  {
    match field
    case Src => "src"
    case Dst => "dst"
    case Proto => "proto"
    case Size => "size"
    case Data(i) => ["d0", "d1", "d2", "d3", "d4", "d5", "d6", "d7"][i]
  }

  function FieldToken(field: Field): uint32
    requires field.Data? ==> field.i < 8
  {
    match field
    case Src => TOKEN_SRC
    case Dst => TOKEN_DST
    case Proto => TOKEN_PROTO
    case Size => TOKEN_SIZE
    case Data(i) => [TOKEN_D0, TOKEN_D1, TOKEN_D2, TOKEN_D3, TOKEN_D4, TOKEN_D5, TOKEN_D6, TOKEN_D7][i]
  }

  // The postfix words of an expression.
  function Postfix(e: Expr): seq<string>
    requires WellFormed(e)
  {
    match e
    case Literal(n) => [Decimal(n)]
    case FieldOf(field) => [FieldWord(field)]
    case Not(a) => Postfix(a) + ["!"]
    case Binary(op, l, r) => Postfix(l) + Postfix(r) + [OperatorWord(op)]
  }

  // How deep the stack gets.
  function Need(e: Expr): nat {
    match e
    case Literal(_) => 1
    case FieldOf(_) => 1
    case Not(a) => Need(a)
    case Binary(_, l, r) => if Need(l) >= 1 + Need(r) then Need(l) else 1 + Need(r)
  }

  // The code of an expression.
  function CodeOf(e: Expr): seq<uint32>
    requires WellFormed(e)
  {
    match e
    case Literal(n) => [TOKEN_INT + n]
    case FieldOf(field) => [FieldToken(field)]
    case Not(a) => CodeOf(a) + [TOKEN_NOT]
    case Binary(op, l, r) => CodeOf(l) + CodeOf(r) + [OperatorToken(op)]
  }

  // ---------- Text to code ----------

  // Word w is the one for the code word t.
  ghost predicate Names(w: string, t: uint32) {
    IsWord(w) && EncodeAll([w]) == [t]
  }

  lemma KeywordNames(i: nat)
    requires i < |KEYWORDS|
    ensures Names(KEYWORDS[i].0, KEYWORDS[i].1)
  {
    var w := KEYWORDS[i].0;
    assert w[0] in w && !IsDigit(w[0]);
    EncodeOne(w);
    KeywordCode(i);
  }

  lemma OperatorNames(op: Operator)
    ensures Names(OperatorWord(op), OperatorToken(op))
  {
    match op
    case Equal => KeywordNames(12);
    case NotEqual => KeywordNames(13);
    case AndBits => KeywordNames(15);
    case And => KeywordNames(16);
    case OrBits => KeywordNames(17);
    case Or => KeywordNames(18);
  }

  lemma FieldNames(field: Field)
    requires field.Data? ==> field.i < 8
    ensures Names(FieldWord(field), FieldToken(field))
  {
    match field
    case Src => KeywordNames(0);
    case Dst => KeywordNames(1);
    case Proto => KeywordNames(2);
    case Size => KeywordNames(3);
    case Data(i) => DataNames(i);
  }

  lemma DataNames(i: nat)
    requires i < 8
    ensures Names(FieldWord(Data(i)), FieldToken(Data(i)))
  {
    KeywordNames(4 + i);
    assert KEYWORDS[4 + i] == (FieldWord(Data(i)), FieldToken(Data(i)));
  }

  // The words ws, each one of them a word of text, stand for the code.
  ghost predicate StandFor(ws: seq<string>, code: seq<uint32>) {
    EncodeAll(ws) == code && |code| == |ws| && forall w <- ws :: IsWord(w)
  }

  lemma StandForConcat(a: seq<string>, x: seq<uint32>, b: seq<string>, y: seq<uint32>)
    requires StandFor(a, x) && StandFor(b, y)
    ensures StandFor(a + b, x + y)
  {
    EncodeConcat(a, b);
  }

  lemma LiteralStandsFor(n: nat)
    requires n < 0x0100_0000
    ensures StandFor([Decimal(n)], [TOKEN_INT + n])
  {
    EncodeOne(Decimal(n));
    DecimalValue(n);
  }

  lemma NameStandsFor(w: string, t: uint32)
    requires Names(w, t)
    ensures StandFor([w], [t])
  {
  }

  lemma {:induction false} PostfixCompiles(e: Expr)
    requires WellFormed(e)
    ensures StandFor(Postfix(e), CodeOf(e))
  {
    match e
    case Literal(n) => LiteralStandsFor(n);
    case FieldOf(field) =>
      FieldNames(field);
      NameStandsFor(FieldWord(field), FieldToken(field));
    case Not(a) =>
      PostfixCompiles(a);
      KeywordNames(14);
      NameStandsFor("!", TOKEN_NOT);
      StandForConcat(Postfix(a), CodeOf(a), ["!"], [TOKEN_NOT]);
    case Binary(op, l, r) =>
      PostfixCompiles(l);
      PostfixCompiles(r);
      OperatorNames(op);
      NameStandsFor(OperatorWord(op), OperatorToken(op));
      StandForConcat(Postfix(l), CodeOf(l), Postfix(r), CodeOf(r));
      StandForConcat(Postfix(l) + Postfix(r), CodeOf(l) + CodeOf(r), [OperatorWord(op)], [OperatorToken(op)]);
  }

  // ---------- Code to meaning ----------

  lemma BitsCommute(a: uint32, b: uint32)
    ensures BitAnd(a, b) == BitAnd(b, a) && BitOr(a, b) == BitOr(b, a)
  {
    BitsOfAnd(a, b);
    BitsOfAnd(b, a);
    BitsOfOr(a, b);
    BitsOfOr(b, a);
    Power32();
    SameBits(32, BitAnd(a, b), BitAnd(b, a));
    SameBits(32, BitOr(a, b), BitOr(b, a));
  }

  lemma FieldDecodes(field: Field, f: Frame)
    requires f.Valid() && (field.Data? ==> field.i < 8)
    ensures Decode(FieldToken(field), f) == Push(FieldValue(field, f))
    ensures !IsEnd(FieldToken(field))
  {
  }

  lemma OperatorDecodes(op: Operator, f: Frame, a: uint32, b: uint32)
    requires f.Valid()
    ensures var w := OperatorToken(op);
            !IsEnd(w) && Decode(w, f) == Combine(w) && Combined(w, b, a) == Apply(op, a, b)
  {
    OperatorApplies(op, a, b);
  }

  // The machine pops the right operand first.
  lemma OperatorApplies(op: Operator, a: uint32, b: uint32)
    ensures Combined(OperatorToken(op), b, a) == Apply(op, a, b)
  {
    BitsCommute(a, b);
  }

  // Running n words from c on pushes the value v, unless the code or the stack ends before that.
  ghost predicate Pushes(code: seq<uint32>, c: nat, n: nat, need: nat, st: seq<uint32>, v: uint32, f: Frame)
    requires f.Valid() && |code| == CODE_SIZE
  {
    if c + n <= REACHABLE && |st| + need <= STACK_SIZE - 1 then Run(code, c, st, f) == Run(code, c + n, st + [v], f)
    else Run(code, c, st, f).Err?
  }

  lemma LeafPushes(code: seq<uint32>, c: nat, st: seq<uint32>, v: uint32, f: Frame)
    requires f.Valid() && |code| == CODE_SIZE > c && !IsEnd(code[c]) && Decode(code[c], f) == Push(v)
    ensures Pushes(code, c, 1, 1, st, v, f)
  {
  }

  lemma NotPushes(code: seq<uint32>, c: nat, n: nat, need: nat, st: seq<uint32>, v: uint32, f: Frame)
    requires f.Valid() && |code| == CODE_SIZE > c + n && code[c + n] == TOKEN_NOT
    requires Pushes(code, c, n, need, st, v, f)
    ensures Pushes(code, c, n + 1, need, st, Bool(v == 0), f)
  {
    var d := c + n;
    if d < REACHABLE {
      var full := st + [v];
      assert full[..|full| - 1] == st;
      assert Step(Decode(code[d], f), full) == Ok(st + [Bool(v == 0)]);
    }
  }

  lemma BinaryPushes(code: seq<uint32>, c: nat, n: nat, need: nat, st: seq<uint32>, a: uint32,
                     m: nat, need2: nat, b: uint32, op: Operator, f: Frame)
    requires f.Valid() && |code| == CODE_SIZE > c + n + m && code[c + n + m] == OperatorToken(op)
    requires Pushes(code, c, n, need, st, a, f) && Pushes(code, c + n, m, need2, st + [a], b, f)
    ensures Pushes(code, c, n + m + 1, if need >= 1 + need2 then need else 1 + need2, st, Apply(op, a, b), f)
  {
    var d := c + n + m;
    if d < REACHABLE {
      var full := st + [a] + [b];
      assert full[..|full| - 2] == st && full[|full| - 1] == b && full[|full| - 2] == a;
      OperatorDecodes(op, f, a, b);
      assert Step(Decode(code[d], f), full) == Ok(st + [Apply(op, a, b)]);
    }
  }

  // The code of an expression pushes its value.
  lemma {:induction false} RunCode(code: seq<uint32>, c: nat, st: seq<uint32>, e: Expr, f: Frame)
    requires f.Valid() && WellFormed(e) && |code| == CODE_SIZE
    requires c + |CodeOf(e)| <= |code| && code[c..c + |CodeOf(e)|] == CodeOf(e)
    ensures Pushes(code, c, |CodeOf(e)|, Need(e), st, Eval(e, f), f)
    decreases e
  {
    match e
    case Literal(n) =>
      Parts(code, c, [], [], TOKEN_INT + n);
      LeafPushes(code, c, st, n, f);
    case FieldOf(field) =>
      Parts(code, c, [], [], FieldToken(field));
      FieldDecodes(field, f);
      LeafPushes(code, c, st, FieldValue(field, f), f);
    case Not(a) =>
      Parts(code, c, CodeOf(a), [], TOKEN_NOT);
      RunCode(code, c, st, a, f);
      NotPushes(code, c, |CodeOf(a)|, Need(a), st, Eval(a, f), f);
    case Binary(op, l, r) =>
      Parts(code, c, CodeOf(l), CodeOf(r), OperatorToken(op));
      RunCode(code, c, st, l, f);
      RunCode(code, c + |CodeOf(l)|, st + [Eval(l, f)], r, f);
      BinaryPushes(code, c, |CodeOf(l)|, Need(l), st, Eval(l, f), |CodeOf(r)|, Need(r), Eval(r, f), op, f);
  }

  lemma Parts(code: seq<uint32>, c: nat, a: seq<uint32>, b: seq<uint32>, w: uint32)
    requires c + |a + b + [w]| <= |code| && code[c..c + |a + b + [w]|] == a + b + [w]
    ensures code[c..c + |a|] == a && code[c + |a|..c + |a| + |b|] == b && code[c + |a| + |b|] == w
  {
    var all := code[c..c + |a + b + [w]|];
    assert |all| == |a| + |b| + 1;
    assert code[c..c + |a|] == all[..|a|] == a;
    forall k | 0 <= k < |b| ensures code[c + |a| + k] == b[k] {
      assert code[c + (|a| + k)] == all[|a| + k];
    }
    assert code[c + |a|..c + |a| + |b|] == b;
    assert code[c + |a| + |b|] == all[|a| + |b|];
  }

  // ---------- The whole way ----------

  // A query compiled from any text whose words are the postfix form of an expression matches a frame
  // exactly by the truth of the expression, provided the code has at most 31 words and the stack
  // gets at most 15 deep; otherwise every match throws.
  lemma QueryCorrect(e: Expr, f: Frame, code: seq<uint32>)
    requires f.Valid() && WellFormed(e) && |code| == CODE_SIZE
    requires var ws := EncodeAll(Postfix(e)); |ws| <= MAX_WORDS && code[..|ws|] == ws && code[|ws|] == TOKEN_NOP
    ensures Run(code, 0, [], f).Ok? <==> |Postfix(e)| <= 31 && Need(e) <= 15
    ensures Run(code, 0, [], f).Ok? ==> Run(code, 0, [], f) == Ok(Eval(e, f) != 0)
  {
    PostfixCompiles(e);
    var n := |CodeOf(e)|;
    assert code[0..0 + n] == CodeOf(e);
    RunCode(code, 0, [], e, f);
    assert [] + [Eval(e, f)] == [Eval(e, f)];
  }

  // Writing an expression as text, compiling it and matching a frame.
  method MatchExpression(e: Expr, f: Frame) returns (compiled: bool, result: Result<bool>)
    requires f.Valid() && WellFormed(e)
    ensures compiled <==> |Postfix(e)| <= MAX_WORDS
    ensures compiled && |Postfix(e)| <= 31 && Need(e) <= 15 ==> result == Ok(Eval(e, f) != 0)
    ensures compiled && !(|Postfix(e)| <= 31 && Need(e) <= 15) ==> result.Err?
  {
    PostfixCompiles(e);
    SplitJoin(Postfix(e));
    var q := new Query(0);
    compiled := q.Compile(Join(Postfix(e)));
    result := Err(CodeEnd);
    if compiled {
      QueryCorrect(e, f, q.code[..]);
      result := q.Match(f);
    }
  }
}
