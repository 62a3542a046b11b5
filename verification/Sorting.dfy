/**
 What the program relies on from the library sort: a permutation of the input in ascending order of
 a key. Nothing is promised about elements with equal keys.
 */
module Sorting {

  ghost predicate SortedBy<T(!new)>(s: seq<T>, key: T -> int)
  {
    forall i, j :: 0 <= i < j < |s| ==> key(s[i]) <= key(s[j])
  }

  ghost predicate InjectiveOn<T(!new)>(s: seq<T>, key: T -> int)
  {
    forall a, b :: a in s && b in s && key(a) == key(b) ==> a == b
  }

  ghost predicate IsSortOf<T(!new)>(r: seq<T>, s: seq<T>, key: T -> int)
  {
    multiset(r) == multiset(s) && SortedBy(r, key)
  }

  function InsertByKey<T>(x: T, r: seq<T>, key: T -> int): (out: seq<T>)
    ensures multiset(out) == multiset{x} + multiset(r)
  {
    if r == [] || key(x) < key(r[0]) then
      [x] + r
    else
      assert r == [r[0]] + r[1..];
      [r[0]] + InsertByKey(x, r[1..], key)
  }

  lemma {:induction false} InsertSorted<T(!new)>(x: T, r: seq<T>, key: T -> int)
    requires SortedBy(r, key)
    ensures SortedBy(InsertByKey(x, r, key), key)
  {
    if r != [] && key(x) >= key(r[0]) {
      InsertSorted(x, r[1..], key);
      var out := InsertByKey(x, r[1..], key);
      forall i | 0 <= i < |out|
        ensures key(r[0]) <= key(out[i])
      {
        assert out[i] in multiset(out);
        assert out[i] == x || out[i] in r[1..];
      }
    }
  }

  /** Some sort of a sequence exists. */
  ghost function SomeSort<T>(s: seq<T>, key: T -> int): (r: seq<T>)
  {
    if s == [] then [] else InsertByKey(s[0], SomeSort(s[1..], key), key)
  }

  lemma {:induction false} SomeSortIsSort<T(!new)>(s: seq<T>, key: T -> int)
    ensures IsSortOf(SomeSort(s, key), s, key)
  {
    if s != [] {
      SomeSortIsSort(s[1..], key);
      InsertSorted(s[0], SomeSort(s[1..], key), key);
      assert s == [s[0]] + s[1..];
    }
  }

  method SortByKey<T(!new)>(s: seq<T>, key: T -> int) returns (r: seq<T>)
    ensures IsSortOf(r, s, key)
  {
    r := [];
    for n := 0 to |s|
      invariant multiset(r) == multiset(s[..n])
      invariant SortedBy(r, key)
    {
      assert s[..n + 1] == s[..n] + [s[n]];
      InsertSorted(s[n], r, key);
      r := InsertByKey(s[n], r, key);
    }
    assert s[..|s|] == s;
  }

  lemma {:induction false} SameElements<T>(r: seq<T>, s: seq<T>)
    requires multiset(r) == multiset(s)
    ensures |r| == |s|
    ensures forall x :: x in r <==> x in s
  {
    assert |multiset(r)| == |r| && |multiset(s)| == |s|;
    forall x
      ensures x in r <==> x in s
    {
      assert x in r <==> x in multiset(r);
      assert x in s <==> x in multiset(s);
    }
  }

  /** The least element of a part that lies below the rest heads any sort of the whole. */
  lemma {:induction false} LeastIsFirst<T(!new)>(m: T, s: seq<T>, key: T -> int)
    requires SortedBy(s, key) && InjectiveOn(s, key)
    requires m in s && forall b :: b in s ==> key(m) <= key(b)
    ensures s[0] == m
  {
    var i :| 0 <= i < |s| && s[i] == m;
    assert s[0] in s;
  }

  lemma {:induction false} SplitHead<T>(s: seq<T>)
    requires s != []
    ensures multiset(s) == multiset{s[0]} + multiset(s[1..])
    ensures forall x :: x in s[1..] ==> x in s
  {
    assert s == [s[0]] + s[1..];
  }

  lemma {:induction false} PrefixCons<T>(r: seq<T>, s: seq<T>)
    requires r != [] && s != [] && r[0] == s[0]
    requires |r[1..]| <= |s[1..]| && s[1..][..|r[1..]|] == r[1..]
    ensures |r| <= |s| && s[..|r|] == r
  {
    forall i | 0 < i < |r|
      ensures s[i] == r[i]
    {
      assert s[i] == s[1..][..|r[1..]|][i - 1];
    }
  }

  lemma {:induction false} BelowAll<T(!new)>(r: seq<T>, rest: seq<T>, s: seq<T>, key: T -> int, b: T)
    requires SortedBy(r, key) && r != []
    requires multiset(s) == multiset(r) + multiset(rest)
    requires Below(r, rest, key)
    requires b in s
    ensures key(r[0]) <= key(b)
  {
    assert b in multiset(s);
    if b in r {
      var i :| 0 <= i < |r| && r[i] == b;
    } else {
      assert r[0] in r && b in rest;
    }
  }

  lemma {:induction false} TailSorted<T(!new)>(s: seq<T>, key: T -> int)
    requires s != [] && SortedBy(s, key)
    ensures SortedBy(s[1..], key)
    ensures InjectiveOn(s, key) ==> InjectiveOn(s[1..], key)
  {
    SplitHead(s);
  }

  ghost predicate Below<T(!new)>(r: seq<T>, rest: seq<T>, key: T -> int)
  {
    forall a, b :: a in r && b in rest ==> key(a) < key(b)
  }

  lemma {:induction false} HeadIsFirst<T(!new)>(r: seq<T>, rest: seq<T>, s: seq<T>, key: T -> int)
    requires SortedBy(r, key) && SortedBy(s, key) && r != []
    requires multiset(s) == multiset(r) + multiset(rest)
    requires InjectiveOn(s, key) && Below(r, rest, key)
    ensures s != [] && s[0] == r[0]
    ensures multiset(s[1..]) == multiset(r[1..]) + multiset(rest)
    ensures Below(r[1..], rest, key)
  {
    forall b | b in s
      ensures key(r[0]) <= key(b)
    {
      BelowAll(r, rest, s, key, b);
    }
    assert r[0] in multiset(s);
    LeastIsFirst(r[0], s, key);
    SplitHead(r);
    SplitHead(s);
    assert multiset(s[1..]) == multiset(s) - multiset{r[0]};
  }

  /** The smallest part of a sequence, once sorted, is a prefix of any sort of the whole. */
  lemma {:induction false} SmallestFirst<T(!new)>(r: seq<T>, rest: seq<T>, s: seq<T>, key: T -> int)
    requires SortedBy(r, key) && SortedBy(s, key)
    requires multiset(s) == multiset(r) + multiset(rest)
    requires InjectiveOn(s, key) && Below(r, rest, key)
    ensures |r| <= |s| && s[..|r|] == r
  {
    hide SortedBy, InjectiveOn, Below;
    if r != [] {
      HeadIsFirst(r, rest, s, key);
      TailSorted(r, key);
      TailSorted(s, key);
      SmallestFirst(r[1..], rest, s[1..], key);
      PrefixCons(r, s);
    }
  }

  lemma {:induction false} SortUnique<T(!new)>(r: seq<T>, s: seq<T>, key: T -> int)
    requires SortedBy(r, key) && SortedBy(s, key) && multiset(r) == multiset(s)
    requires InjectiveOn(s, key)
    ensures r == s
  {
    SmallestFirst(r, [], s, key);
    SameElements(r, s);
  }

  /** Position `i` of a sort falls in the lower part if that part has more than `i` elements. */
  lemma {:induction false} AmongFirst<T(!new)>(got: seq<T>, rest: seq<T>, s: seq<T>, key: T -> int, i: nat)
    requires SortedBy(s, key) && InjectiveOn(s, key) && Below(got, rest, key)
    requires multiset(s) == multiset(got) + multiset(rest)
    requires i < |got|
    ensures i < |s| && s[i] in got
  {
    var r := SomeSort(got, key);
    SomeSortIsSort(got, key);
    SameElements(r, got);
    assert Below(r, rest, key);
    hide SortedBy, InjectiveOn, SomeSort;
    SmallestFirst(r, rest, s, key);
    assert s[i] == s[..|r|][i] == r[i];
    assert r[i] in r;
  }

  lemma {:induction false} HasMember<T>(s: seq<T>)
    requires s != []
    ensures exists x :: x in s
  {
    assert s[0] in s;
  }

  // ---------------------------------------------------------------- what can come first

  lemma {:induction false} TakeOutAt<T>(s: seq<T>, i: nat)
    requires i < |s|
    ensures multiset(s) == multiset([s[i]] + (s[..i] + s[i + 1..]))
    ensures forall y :: y in s[..i] + s[i + 1..] ==> y in s
  {
    assert s == s[..i] + [s[i]] + s[i + 1..];
  }

  lemma {:induction false} SortedCons<T(!new)>(m: T, rest: seq<T>, key: T -> int)
    requires SortedBy(rest, key) && forall y :: y in rest ==> key(m) <= key(y)
    ensures SortedBy([m] + rest, key)
  {
    var r := [m] + rest;
    forall a, b | 0 <= a < b < |r|
      ensures key(r[a]) <= key(r[b])
    {
      assert r[b] == rest[b - 1] && rest[b - 1] in rest;
      assert a > 0 ==> key(rest[a - 1]) <= key(rest[b - 1]);
    }
  }

  /** A least element can be made the first of a sort. */
  lemma {:induction false} FrontSort<T(!new)>(m: T, s: seq<T>, key: T -> int) returns (r: seq<T>)
    requires m in s && forall y :: y in s ==> key(m) <= key(y)
    ensures IsSortOf(r, s, key) && r != [] && r[0] == m
  {
    hide SortedBy, SomeSort;
    var i :| 0 <= i < |s| && s[i] == m;
    var others := s[..i] + s[i + 1..];
    TakeOutAt(s, i);
    var rest := SomeSort(others, key);
    SomeSortIsSort(others, key);
    SameElements(rest, others);
    SortedCons(m, rest, key);
    r := [m] + rest;
  }

  lemma {:induction false} LeastOther<T(!new)>(x: T, s: seq<T>, key: T -> int) returns (z: T)
    requires exists y :: y in s && y != x
    ensures z in s && z != x && forall y :: y in s && y != x ==> key(z) <= key(y)
    decreases |s|
  {
    var init, last := s[..|s| - 1], s[|s| - 1];
    assert s == init + [last];
    if exists y :: y in init && y != x {
      z := LeastOther(x, init, key);
      if last != x && key(last) < key(z) {
        z := last;
      }
    } else {
      z := last;
    }
  }

  ghost predicate Heads<T>(x: T, r: seq<T>)
  {
    r != [] && r[0] == x
  }

  /** An element comes first in some sort exactly if none is smaller. */
  lemma {:induction false} SometimesFirst<T(!new)>(x: T, s: seq<T>, key: T -> int)
    requires x in s
    ensures (exists r :: IsSortOf(r, s, key) && Heads(x, r)) <==> forall y :: y in s ==> key(x) <= key(y)
  {
    if r :| IsSortOf(r, s, key) && Heads(x, r) {
      SameElements(r, s);
      forall y | y in s
        ensures key(x) <= key(y)
      {
        var i :| 0 <= i < |r| && r[i] == y;
        assert i > 0 ==> key(r[0]) <= key(r[i]);
      }
    }
    if forall y :: y in s ==> key(x) <= key(y) {
      var r := FrontSort(x, s, key);
      assert Heads(x, r);
    }
  }

  /** An element comes first in every sort exactly if it is smaller than every other. */
  lemma {:induction false} AlwaysFirst<T(!new)>(x: T, s: seq<T>, key: T -> int)
    requires x in s
    ensures (forall r :: IsSortOf(r, s, key) ==> Heads(x, r)) <==> forall y :: y in s && y != x ==> key(x) < key(y)
  {
    if forall y :: y in s && y != x ==> key(x) < key(y) {
      forall r | IsSortOf(r, s, key)
        ensures Heads(x, r)
      {
        SameElements(r, s);
        var i :| 0 <= i < |r| && r[i] == x;
        assert r[0] in s;
        assert i > 0 ==> key(r[0]) <= key(r[i]);
      }
    } else {
      var z := LeastOther(x, s, key);
      var r := FrontSort(z, s, key);
      assert !Heads(x, r);
    }
  }
}
