/** Cutting and joining sequences. */
module Sequences {

  lemma Sub<T>(m: seq<T>, i: nat, j: nat, k: nat, l: nat)
    requires i <= j <= |m| && k <= l <= j - i
    ensures m[i..j][k..l] == m[i + k..i + l]
  {
    var a, b := m[i..j][k..l], m[i + k..i + l];
    forall x | 0 <= x < l - k ensures a[x] == b[x] {
      assert m[i..j][k + x] == m[i + k + x];
    }
    assert a == b;
  }

  lemma Parts<T>(a: seq<T>, b: seq<T>, c: seq<T>)
    ensures (a + b + c)[..|a|] == a
    ensures (a + b + c)[|a|..|a| + |b|] == b
    ensures (a + b + c)[|a| + |b|..] == c
  {
  }

  lemma Assoc<T>(a: seq<T>, b: seq<T>, c: seq<T>)
    ensures a + b + c == a + (b + c)
  {
  }

  lemma TakeJoined<T>(a: seq<T>, b: seq<T>, n: nat)
    requires n <= |b|
    ensures (a + b)[..|a| + n] == a + b[..n]
  {
  }

  lemma Split<T>(m: seq<T>, i: nat, j: nat)
    requires i <= j <= |m|
    ensures m[i..] == m[i..j] + m[j..]
    ensures m == m[..i] + m[i..]
  {
  }
}
