/**
 The set of peers a lookup knows, each in one of four states, listed in order of distance to the key.
 */
module QueryPeersets {
  import opened Wrappers
  import opened Collections
  import opened Keyspace
  import opened Sorting

  datatype PeerState = Heard | Waiting | Queried | Unreachable

  datatype QPeer = QPeer(id: Peer, distance: nat, state: PeerState, referredBy: Peer)

  type States = map<Peer, PeerState>

  /** Distances to the key tell these peers apart. */
  ghost predicate Injective(dist: Peer -> nat, dom: set<Peer>)
  {
    forall p, q :: p in dom && q in dom && dist(p) == dist(q) ==> p == q
  }

  // ---------------------------------------------------------------- peers in order of distance

  /** No peer occurs twice, and none comes before a closer one. */
  ghost predicate Ascending(r: seq<Peer>, dist: Peer -> nat)
  {
    forall i, j :: 0 <= i < j < |r| ==> dist(r[i]) <= dist(r[j]) && r[i] != r[j]
  }

  /** `r` lists the peers of `s`, each once, by ascending distance. */
  ghost predicate Lists(r: seq<Peer>, s: set<Peer>, dist: Peer -> nat)
  {
    && Ascending(r, dist)
    && (forall p :: p in r <==> p in s)
  }

  lemma {:induction false} ListsUnique(r: seq<Peer>, q: seq<Peer>, s: set<Peer>, dist: Peer -> nat)
    requires Lists(r, s, dist) && Lists(q, s, dist) && Injective(dist, s)
    ensures r == q
  {
    if r == [] {
      if q != [] {
        HasMember(q);
      }
    } else if q == [] {
      HasMember(r);
    } else {
      SameHead(r, q, s, dist);
      TailLists(r, s, dist);
      TailLists(q, s, dist);
      ListsUnique(r[1..], q[1..], s - {r[0]}, dist);
      assert r == [r[0]] + r[1..] && q == [q[0]] + q[1..];
    }
  }

  lemma {:induction false} SameHead(r: seq<Peer>, q: seq<Peer>, s: set<Peer>, dist: Peer -> nat)
    requires Lists(r, s, dist) && Lists(q, s, dist) && Injective(dist, s) && r != [] && q != []
    ensures r[0] == q[0]
  {
    assert r[0] in q && q[0] in r;
    var i :| 0 <= i < |q| && q[i] == r[0];
    var j :| 0 <= j < |r| && r[j] == q[0];
  }

  lemma {:induction false} TailLists(r: seq<Peer>, s: set<Peer>, dist: Peer -> nat)
    requires Lists(r, s, dist) && r != []
    ensures Lists(r[1..], s - {r[0]}, dist)
  {
    var tail := r[1..];
    forall p
      ensures p in tail <==> p in s - {r[0]}
    {
      if p in tail {
        var i :| 0 <= i < |tail| && tail[i] == p;
        assert r[i + 1] == p && r[0] != r[i + 1];
      }
      if p in s - {r[0]} {
        assert p in r;
        var i :| 0 <= i < |r| && r[i] == p;
        assert tail[i - 1] == p;
      }
    }
  }

  lemma {:induction false} ListsSize(r: seq<Peer>, s: set<Peer>, dist: Peer -> nat)
    requires Lists(r, s, dist)
    ensures |r| == |s|
  {
    if r == [] {
      assert s == {};
    } else {
      TailLists(r, s, dist);
      ListsSize(r[1..], s - {r[0]}, dist);
      assert r[0] in s;
    }
  }

  ghost predicate IsLeast(m: Peer, s: set<Peer>, dist: Peer -> nat)
  {
    m in s && forall p :: p in s ==> dist(m) <= dist(p)
  }

  lemma {:induction false} NearestExists(s: set<Peer>, dist: Peer -> nat) returns (m: Peer)
    requires s != {}
    ensures IsLeast(m, s, dist)
  {
    m :| m in s;
    if s != {m} {
      var n := NearestExists(s - {m}, dist);
      if dist(n) < dist(m) {
        m := n;
      }
    }
  }

  lemma {:induction false} ListExists(s: set<Peer>, dist: Peer -> nat) returns (r: seq<Peer>)
    ensures Lists(r, s, dist)
  {
    if s == {} {
      r := [];
    } else {
      var m := NearestExists(s, dist);
      var rest := ListExists(s - {m}, dist);
      r := [m] + rest;
      forall i | 0 <= i < |rest|
        ensures dist(m) <= dist(rest[i]) && m != rest[i]
      {
        assert rest[i] in rest;
      }
    }
  }

  lemma {:induction false} SomeList(s: set<Peer>, dist: Peer -> nat)
    ensures exists r :: Lists(r, s, dist)
  {
    var r := ListExists(s, dist);
  }

  /** The peers of a set by ascending distance. */
  ghost function InOrder(s: set<Peer>, dist: Peer -> nat): (r: seq<Peer>)
    ensures Lists(r, s, dist)
  {
    SomeList(s, dist);
    var r :| Lists(r, s, dist);
    r
  }

  /** The peers in one of the wanted states. */
  ghost function InStates(m: States, wanted: set<PeerState>): set<Peer>
  {
    set p | p in m && m[p] in wanted
  }

  ghost function Take(r: seq<Peer>, n: nat): seq<Peer>
  {
    if n <= |r| then r[..n] else r
  }

  /** The `n` closest peers in one of the wanted states, or all of them if there are fewer. */
  ghost function Closest(m: States, dist: Peer -> nat, n: nat, wanted: set<PeerState>): seq<Peer>
  {
    Take(InOrder(InStates(m, wanted), dist), n)
  }

  /** `ps` are the `n` closest of `s`, or all of them if there are fewer, by ascending distance: nobody left out is
      closer than anybody in it. */
  ghost predicate ClosestOf(ps: seq<Peer>, s: set<Peer>, dist: Peer -> nat, n: nat)
  {
    && Ascending(ps, dist)
    && (forall p :: p in ps ==> p in s)
    && |ps| == (if n <= |s| then n else |s|)
    && (forall p, q :: p in s && p !in ps && q in ps ==> dist(q) <= dist(p))
  }

  lemma {:induction false} TakeIsClosest(s: set<Peer>, dist: Peer -> nat, n: nat)
    ensures ClosestOf(Take(InOrder(s, dist), n), s, dist, n)
  {
    var r := InOrder(s, dist);
    var ps := Take(r, n);
    ListsSize(r, s, dist);
    assert forall k :: 0 <= k < |ps| ==> r[k] in ps && ps[k] == r[k];
    forall p, q | p in s && p !in ps && q in ps
      ensures dist(q) <= dist(p)
    {
      assert p in r;
      var i :| 0 <= i < |r| && r[i] == p;
      var j :| 0 <= j < |ps| && ps[j] == q;
    }
  }

  // ---------------------------------------------------------------- the list behind the set

  function ByDistance(): QPeer -> int
  {
    (q: QPeer) => q.distance
  }

  ghost predicate DistinctPeers(all: seq<QPeer>)
  {
    forall i, j :: 0 <= i < j < |all| ==> all[i].id != all[j].id
  }

  /** The list holds the peers of `m` in their states, each once. */
  ghost predicate Holding(all: seq<QPeer>, m: States, dist: Peer -> nat)
  {
    && DistinctPeers(all)
    && (forall q :: q in all ==> q.id in m && q.state == m[q.id] && q.distance == dist(q.id))
    && (forall p :: p in m ==> exists q :: q in all && q.id == p)
  }

  lemma {:induction false} PermutationDistinct(all: seq<QPeer>, r: seq<QPeer>)
    requires DistinctPeers(all) && multiset(r) == multiset(all)
    ensures DistinctPeers(r)
  {
    forall i, j | 0 <= i < j < |r|
      ensures r[i].id != r[j].id
    {
      if r[i].id == r[j].id {
        SameElements(r, all);
        assert r[i] in all && r[j] in all;
        assert r[i] == r[j];
        Twice(r, i, j);
        Once(all, r[i]);
      }
    }
  }

  lemma {:induction false} SortKeeps(all: seq<QPeer>, r: seq<QPeer>, m: States, dist: Peer -> nat)
    requires Holding(all, m, dist) && IsSortOf(r, all, ByDistance())
    ensures Holding(r, m, dist)
  {
    PermutationDistinct(all, r);
    SameElements(r, all);
    forall p | p in m
      ensures exists q :: q in r && q.id == p
    {
      var q :| q in all && q.id == p;
      assert q in r;
    }
  }

  /** The ids of the entries in one of the wanted states, in list order. */
  function Select(all: seq<QPeer>, wanted: set<PeerState>): seq<Peer>
  {
    if all == [] then []
    else
      var init := Select(all[..|all| - 1], wanted);
      if all[|all| - 1].state in wanted then init + [all[|all| - 1].id] else init
  }

  lemma {:induction false} SelectMember(all: seq<QPeer>, wanted: set<PeerState>, p: Peer)
    ensures p in Select(all, wanted) <==> exists q :: q in all && q.id == p && q.state in wanted
  {
    if all != [] {
      var init, last := all[..|all| - 1], all[|all| - 1];
      assert all == init + [last];
      SelectMember(init, wanted, p);
    }
  }

  lemma {:induction false} SelectSorted(all: seq<QPeer>, wanted: set<PeerState>, m: States, dist: Peer -> nat)
    requires DistinctPeers(all) && SortedBy(all, ByDistance())
    requires forall q :: q in all ==> q.distance == dist(q.id)
    ensures Ascending(Select(all, wanted), dist)
  {
    if all != [] {
      var init, last := all[..|all| - 1], all[|all| - 1];
      SelectSorted(init, wanted, m, dist);
      var s := Select(init, wanted);
      forall i | 0 <= i < |s|
        ensures dist(s[i]) <= dist(last.id) && s[i] != last.id
      {
        assert s[i] in s;
        SelectMember(init, wanted, s[i]);
        var q :| q in init && q.id == s[i] && q.state in wanted;
        var k :| 0 <= k < |init| && init[k] == q;
        assert all[k] == q && all[|all| - 1] == last;
        assert ByDistance()(all[k]) <= ByDistance()(all[|all| - 1]);
        assert q in all && last in all;
        assert q.id != last.id;
      }
      var r := Select(all, wanted);
      assert r == if last.state in wanted then s + [last.id] else s;
    }
  }

  lemma {:induction false} SelectIsInOrder(all: seq<QPeer>, wanted: set<PeerState>, m: States, dist: Peer -> nat)
    requires Holding(all, m, dist) && SortedBy(all, ByDistance()) && Injective(dist, m.Keys)
    ensures Select(all, wanted) == InOrder(InStates(m, wanted), dist)
  {
    var s := Select(all, wanted);
    SelectSorted(all, wanted, m, dist);
    forall p
      ensures p in s <==> p in InStates(m, wanted)
    {
      SelectMember(all, wanted, p);
      if p in InStates(m, wanted) {
        var q :| q in all && q.id == p;
      }
    }
    assert Lists(s, InStates(m, wanted), dist);
    ListsUnique(s, InOrder(InStates(m, wanted), dist), InStates(m, wanted), dist);
  }

  lemma {:induction false} AddKeeps(all: seq<QPeer>, m: States, dist: Peer -> nat, q: QPeer)
    requires Holding(all, m, dist) && q.id !in m && q.state == Heard && q.distance == dist(q.id)
    ensures Holding(all + [q], m[q.id := Heard], dist)
  {
    var r, n := all + [q], m[q.id := Heard];
    forall p | p in n
      ensures exists x :: x in r && x.id == p
    {
      if p == q.id {
        assert q in r;
      } else {
        var x :| x in all && x.id == p;
        assert x in r;
      }
    }
  }

  lemma {:induction false} SetKeeps(all: seq<QPeer>, m: States, dist: Peer -> nat, i: nat, st: PeerState)
    requires Holding(all, m, dist) && i < |all|
    ensures all[i].id in m && Holding(all[i := all[i].(state := st)], m[all[i].id := st], dist)
  {
    assert all[i] in all;
    var p := all[i].id;
    var r, n := all[i := all[i].(state := st)], m[p := st];
    forall x | x in r
      ensures x.id in n && x.state == n[x.id] && x.distance == dist(x.id)
    {
      var k :| 0 <= k < |r| && r[k] == x;
      assert all[k] in all;
    }
    forall q | q in n
      ensures exists x :: x in r && x.id == q
    {
      var x :| x in all && x.id == q;
      var k :| 0 <= k < |all| && all[k] == x;
      assert r[k] in r && r[k].id == q;
    }
    assert DistinctPeers(r);
  }

  lemma {:induction false} SetKeepsSorted(all: seq<QPeer>, i: nat, st: PeerState)
    requires i < |all| && SortedBy(all, ByDistance())
    ensures SortedBy(all[i := all[i].(state := st)], ByDistance())
  {
    var r := all[i := all[i].(state := st)];
    forall a, b | 0 <= a < b < |r|
      ensures ByDistance()(r[a]) <= ByDistance()(r[b])
    {
      assert ByDistance()(all[a]) <= ByDistance()(all[b]);
    }
  }

  class QueryPeerset {
    const dist: Peer -> nat
    var all: seq<QPeer>
    var sorted: bool
    ghost var states: States
    ghost const universe: set<Peer>

    /** The peers come from a universe in which no two have the same distance to the key. */
    ghost predicate Valid()
      reads this
    {
      && Injective(dist, universe) && states.Keys <= universe
      && Holding(all, states, dist)
      && (sorted ==> SortedBy(all, ByDistance()))
    }

    constructor (dist: Peer -> nat, ghost universe: set<Peer>)
      requires Injective(dist, universe)
      ensures Valid() && states == map[] && this.dist == dist && this.universe == universe
    {
      this.dist, all, sorted, states := dist, [], false, map[];
      this.universe := universe;
    }

    method FindPeer(p: Peer) returns (i: int)
      requires Valid()
      ensures i == -1 <==> p !in states
      ensures i != -1 ==> 0 <= i < |all| && all[i].id == p
    {
      i := 0;
      while i < |all|
        invariant 0 <= i <= |all|
        invariant forall j :: 0 <= j < i ==> all[j].id != p
      {
        if all[i].id == p {
          assert all[i] in all;
          return;
        }
        i := i + 1;
      }
      i := -1;
    }

    method TryAdd(p: Peer, referredBy: Peer) returns (added: bool)
      requires Valid() && p in universe
      modifies this
      ensures Valid() && added == (p !in old(states))
      ensures states == if added then old(states)[p := Heard] else old(states)
      ensures added ==> QPeer(p, dist(p), Heard, referredBy) in all
      ensures !added ==> all == old(all)
    {
      var i := FindPeer(p);
      added := i < 0;
      if added {
        var q := QPeer(p, dist(p), Heard, referredBy);
        AddKeeps(all, states, dist, q);
        all, sorted, states := all + [q], false, states[p := Heard];
      }
    }

    /** Setting the state of an unknown peer would panic. */
    method SetState(p: Peer, s: PeerState)
      requires Valid() && p in states
      modifies this`all, this`states
      ensures Valid() && states == old(states)[p := s]
    {
      var i := FindPeer(p);
      SetKeeps(all, states, dist, i, s);
      if sorted {
        SetKeepsSorted(all, i, s);
      }
      hide Holding, SortedBy;
      all, states := all[i := all[i].(state := s)], states[p := s];
    }

    method GetState(p: Peer) returns (s: PeerState)
      requires Valid() && p in states
      ensures s == states[p]
    {
      var i := FindPeer(p);
      assert all[i] in all;
      s := all[i].state;
    }

    method Sort()
      requires Valid()
      modifies this`all, this`sorted
      ensures Valid() && sorted
    {
      if sorted {
        return;
      }
      var r := SortByKey(all, ByDistance());
      SortKeeps(all, r, states, dist);
      all, sorted := r, true;
    }

    method GetClosestNInStates(n: nat, wanted: set<PeerState>) returns (r: seq<Peer>)
      requires Valid()
      modifies this`all, this`sorted
      ensures Valid() && r == Closest(states, dist, n, wanted)
      ensures ClosestOf(r, InStates(states, wanted), dist, n)
    {
      hide Select, Holding, Lists, InStates, ClosestOf;
      TakeIsClosest(InStates(states, wanted), dist, n);
      Sort();
      var peers := all;
      SelectIsInOrder(peers, wanted, states, dist);
      SelectNone(peers, wanted);
      r := [];
      for i := 0 to |peers|
        invariant Valid() && states == old(states)
        invariant r == Select(peers[..i], wanted)
      {
        SelectStep(peers, i, wanted);
        if peers[i].state in wanted {
          r := r + [peers[i].id];
        }
      }
      assert peers[..|peers|] == peers;
      if |r| >= n {
        r := r[..n];
      }
    }

    method GetClosestInStates(wanted: set<PeerState>) returns (r: seq<Peer>)
      requires Valid()
      modifies this`all, this`sorted
      ensures Valid() && r == InOrder(InStates(states, wanted), dist)
    {
      hide Holding, Lists, Select, InStates;
      AtMostAll(all, states, dist, wanted);
      r := GetClosestNInStates(|all|, wanted);
    }

    method NumInState(s: PeerState) returns (n: nat)
      requires Valid()
      modifies this`all, this`sorted
      ensures Valid() && n == |InStates(states, {s})|
    {
      hide Holding;
      var r := GetClosestInStates({s});
      ListsSize(r, InStates(states, {s}), dist);
      n := |r|;
    }
  }

  lemma {:induction false} SelectNone(all: seq<QPeer>, wanted: set<PeerState>)
    ensures Select(all[..0], wanted) == []
  {
  }

  lemma {:induction false} SelectStep(all: seq<QPeer>, i: nat, wanted: set<PeerState>)
    requires i < |all|
    ensures Select(all[..i + 1], wanted)
         == Select(all[..i], wanted) + (if all[i].state in wanted then [all[i].id] else [])
  {
    assert all[..i + 1][..i] == all[..i];
  }

  lemma {:induction false} AtMostAll(all: seq<QPeer>, m: States, dist: Peer -> nat, wanted: set<PeerState>)
    requires Holding(all, m, dist)
    ensures |InOrder(InStates(m, wanted), dist)| <= |all|
  {
    var r := InOrder(InStates(m, wanted), dist);
    ListsSize(r, InStates(m, wanted), dist);
    assert InStates(m, wanted) <= m.Keys;
    SubsetSize(InStates(m, wanted), m.Keys);
    KeysBound(all, m.Keys);
  }

  lemma {:induction false} KeysBound(all: seq<QPeer>, keys: set<Peer>)
    requires forall p :: p in keys ==> exists q :: q in all && q.id == p
    ensures |keys| <= |all|
  {
    if all == [] {
      assert keys == {};
    } else {
      var last := all[|all| - 1];
      assert all == all[..|all| - 1] + [last];
      KeysBound(all[..|all| - 1], keys - {last.id});
      SubsetSize(keys, (keys - {last.id}) + {last.id});
    }
  }
}
