// The text of a query: words separated by white space, and numbers in decimal.
module QueryText {
  predicate IsSpace(c: char) {
    c == ' ' || c == '\t' || c == '\n' || c == '\U{0B}' || c == '\U{0C}' || c == '\r'
  }

  ghost predicate IsWord(w: string) {
    w != [] && forall c <- w :: !IsSpace(c)
  }

  // The position after any white space from p on, and after any other characters from p on.
  function SkipSpace(s: string, p: nat): (q: nat)
    requires p <= |s|
    ensures p <= q <= |s| && (q < |s| ==> !IsSpace(s[q]))
    decreases |s| - p
  {
    if p < |s| && IsSpace(s[p]) then SkipSpace(s, p + 1) else p
  }

  function SkipWord(s: string, p: nat): (q: nat)
    requires p <= |s|
    ensures p <= q <= |s| && (q < |s| ==> IsSpace(s[q]))
    ensures p < |s| && !IsSpace(s[p]) ==> p < q
    decreases |s| - p
  {
    if p < |s| && !IsSpace(s[p]) then SkipWord(s, p + 1) else p
  }

  // The words from position p on.
  function Split(s: string, p: nat): seq<string>
    requires p <= |s|
    decreases |s| - p
  {
    var q := SkipSpace(s, p);
    if q == |s| then []
    else [s[q..SkipWord(s, q)]] + Split(s, SkipWord(s, q))
  }

  // The words, each followed by a blank.
  function Join(ws: seq<string>): string {
    if ws == [] then "" else ws[0] + " " + Join(ws[1..])
  }

  lemma {:induction false} SkipWordOver(s: string, p: nat, w: string, i: nat)
    requires IsWord(w) && i <= |w| && p + |w| <= |s| && s[p..p + |w|] == w
    requires p + |w| == |s| || IsSpace(s[p + |w|])
    ensures SkipWord(s, p + i) == p + |w|
    decreases |w| - i
  {
    if i < |w| {
      assert s[p + i] == s[p..p + |w|][i] == w[i];
      SkipWordOver(s, p, w, i + 1);
    }
  }

  lemma FirstWord(s: string, p: nat, w: string)
    requires IsWord(w) && p + |w| <= |s| && s[p..p + |w|] == w
    requires p + |w| == |s| || IsSpace(s[p + |w|])
    ensures Split(s, p) == [w] + Split(s, p + |w|)
  {
    assert s[p] == s[p..p + |w|][0] == w[0];
    SkipWordOver(s, p, w, 0);
  }

  // A blank before the first word does not matter.
  lemma FirstBlank(s: string, p: nat)
    requires p < |s| && s[p] == ' '
    ensures Split(s, p) == Split(s, p + 1)
  {
  }

  lemma Tail(s: string, p: nat, w: string, rest: string)
    requires p <= |s| && s[p..] == w + " " + rest
    ensures var q := p + |w|;
            q < |s| && s[p..q] == w && s[q] == ' ' && s[q + 1..] == rest
  {
    var f, q := s[p..], p + |w|;
    assert s[p..q] == f[..|w|];
    assert s[q] == f[|w|];
    assert s[q + 1..] == f[|w| + 1..];
  }

  lemma {:induction false} SplitJoinFrom(s: string, p: nat, ws: seq<string>)
    requires forall w <- ws :: IsWord(w)
    requires p <= |s| && s[p..] == Join(ws)
    ensures Split(s, p) == ws
    decreases |ws|
  {
    if ws != [] {
      var w, rest, q := ws[0], ws[1..], p + |ws[0]|;
      Tail(s, p, w, Join(rest));
      FirstWord(s, p, w);
      FirstBlank(s, q);
      SplitJoinFrom(s, q + 1, rest);
    }
  }

  lemma SplitJoin(ws: seq<string>)
    requires forall w <- ws :: IsWord(w)
    ensures Split(Join(ws), 0) == ws
  {
    assert Join(ws)[0..] == Join(ws);
    SplitJoinFrom(Join(ws), 0, ws);
  }

  // ---------- Numbers ----------

  predicate IsDigit(c: char) {
    '0' <= c <= '9'
  }

  predicate IsNumber(w: string) {
    w != [] && forall c <- w :: IsDigit(c)
  }

  function Value(w: string): nat
    requires forall c <- w :: IsDigit(c)
  {
    if w == [] then 0
    else
      var c := w[|w| - 1];
      assert c in w && IsDigit(c);
      10 * Value(w[..|w| - 1]) + (c as int - '0' as int)
  }

  function Decimal(n: nat): (w: string)
    ensures IsNumber(w) && IsWord(w)
  {
    var digit := [('0' as int + n % 10) as char];
    if n < 10 then digit else Decimal(n / 10) + digit
  }

  lemma {:induction false} DecimalValue(n: nat)
    ensures Value(Decimal(n)) == n
  {
    var w := Decimal(n);
    if n >= 10 {
      DecimalValue(n / 10);
      assert w[..|w| - 1] == Decimal(n / 10);
    } else {
      assert w[..|w| - 1] == [];
    }
  }
}
