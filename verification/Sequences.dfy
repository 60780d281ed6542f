// Facts about sequences that the solver does not find on its own.
module Sequences {
  lemma Subslice<T>(s: seq<T>, a: nat, b: nat, c: nat)
    requires a <= b <= c <= |s|
    ensures s[a..][b - a..c - a] == s[b..c] && s[a..][b - a..] == s[b..]
  {
  }

  lemma Associative<T>(a: seq<T>, b: seq<T>, c: seq<T>)
    ensures a + b + c == a + (b + c)
  {
  }

  lemma TailOfConcat<T>(a: seq<T>, b: seq<T>)
    requires a != []
    ensures a + b != [] && (a + b)[0] == a[0] && (a + b)[1..] == a[1..] + b
  {
  }

  // A sequence around one of its elements.
  lemma Around<T>(s: seq<T>, k: nat, x: T)
    requires k < |s|
    ensures s[k := x] == s[..k] + [x] + s[k + 1..]
    ensures s[k := x][..k] == s[..k] && s[k := x][k + 1..] == s[k + 1..]
  {
  }
}
