/** Vocabulary shared by every module of the project. */
module Prelude {

  datatype Option<+T> = None | Some(value: T)

  function Min(a: int, b: int): int {
    if a < b then a else b
  }

  function Max(a: int, b: int): int {
    if a < b then b else a
  }

  /** The sequence holding `n` copies of `x`. */
  function Copies<T>(x: T, n: nat): (s: seq<T>)
    ensures |s| == n
    ensures forall i :: 0 <= i < n ==> s[i] == x
  {
    seq(n, i => x)
  }

  /** Two texts whose runs of `run` units end at the first unit outside `run` split at the same place. */
  lemma SameRun<T>(a: seq<T>, b: seq<T>, r: seq<T>, s: seq<T>, run: T -> bool)
    requires a + r == b + s
    requires forall i :: 0 <= i < |a| ==> run(a[i])
    requires forall i :: 0 <= i < |b| ==> run(b[i])
    requires r != [] ==> !run(r[0])
    requires s != [] ==> !run(s[0])
    ensures a == b && r == s
  {
    if r != [] {
      assert (a + r)[|a|] == r[0];
    }
    if s != [] {
      assert (b + s)[|b|] == s[0];
    }
    assert |a| + |r| == |b| + |s|;
    assert a == (a + r)[..|a|] && b == (b + s)[..|b|];
    assert r == (a + r)[|a|..] && s == (b + s)[|b|..];
  }
}
