/**
 Facts about finite sets and sequences that several modules use.
 */
module Collections {

  lemma {:induction false} SubsetSize<T>(a: set<T>, b: set<T>)
    requires a <= b
    ensures |a| <= |b|
  {
    assert b == a + (b - a);
    assert |b| == |a| + |b - a|;
  }

  /** The numbers below `n`. */
  ghost function Naturals(n: nat): (s: set<nat>)
    ensures |s| == n && forall p: nat :: p in s <==> p < n
  {
    if n == 0 then {} else Naturals(n - 1) + {n - 1}
  }

  lemma {:induction false} AtMost(a: set<nat>, n: nat)
    requires forall x :: x in a ==> x < n
    ensures |a| <= n
  {
    SubsetSize(a, Naturals(n));
  }

  /** An element at two places is counted twice. */
  lemma {:induction false} Twice<T>(s: seq<T>, i: nat, j: nat)
    requires i < j < |s| && s[i] == s[j]
    ensures multiset(s)[s[i]] >= 2
  {
    assert s == s[..i] + [s[i]] + s[i + 1..j] + [s[j]] + s[j + 1..];
  }

  /** Without repeats nothing is counted twice. */
  lemma {:induction false} Once<T>(s: seq<T>, x: T)
    requires forall i, j :: 0 <= i < j < |s| ==> s[i] != s[j]
    ensures multiset(s)[x] <= 1
  {
    if s != [] {
      Once(s[1..], x);
      assert s == [s[0]] + s[1..];
      if s[0] == x {
        assert x !in s[1..];
      }
    }
  }

  function Pow2(k: nat): (r: nat)
    ensures r >= 1
  {
    if k == 0 then 1 else 2 * Pow2(k - 1)
  }
}
