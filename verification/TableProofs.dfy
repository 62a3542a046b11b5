/**
 What every step of the routing table keeps: the partition by common prefix length, the peers
 themselves, and the bounds on buckets and their number.
 */
module TableProofs {
  import opened Wrappers
  import opened Keyspace
  import opened TableModel

  // ---------------------------------------------------------------- bucket lists

  lemma {:induction false} HasIdCons(list: seq<PeerInfo>, p: Peer)
    requires list != []
    ensures HasId(list, p) <==> list[0].id == p || HasId(list[1..], p)
  {
    var tail := list[1..];
    if HasId(list, p) && list[0].id != p {
      var i :| 0 <= i < |list| && list[i].id == p;
      assert tail[i - 1].id == p;
    }
    if HasId(tail, p) {
      var i :| 0 <= i < |tail| && tail[i].id == p;
      assert list[i + 1].id == p;
    }
  }

  lemma {:induction false} DistinctCons(x: PeerInfo, list: seq<PeerInfo>)
    ensures DistinctIds([x] + list) <==> DistinctIds(list) && forall y :: y in list ==> y.id != x.id
  {
    var l := [x] + list;
    assert l[1..] == list;
    if DistinctIds(l) {
      forall i, j | 0 <= i < j < |list|
        ensures list[i].id != list[j].id
      {
        assert l[i + 1] == list[i] && l[j + 1] == list[j];
      }
      forall y | y in list
        ensures y.id != x.id
      {
        var i :| 0 <= i < |list| && list[i] == y;
        assert l[0] == x && l[i + 1] == y;
      }
    }
  }

  lemma {:induction false} WithoutFacts(list: seq<PeerInfo>, p: Peer)
    requires DistinctIds(list)
    ensures DistinctIds(Without(list, p))
    ensures forall x :: x in Without(list, p) <==> x in list && x.id != p
    ensures |Without(list, p)| == if HasId(list, p) then |list| - 1 else |list|
  {
    if list != [] {
      hide DistinctIds, HasId;
      var tail := list[1..];
      assert list == [list[0]] + tail;
      DistinctCons(list[0], tail);
      WithoutFacts(tail, p);
      HasIdCons(list, p);
      HasIdMember(tail, p);
      DistinctCons(list[0], Without(tail, p));
    } else {
      assert !HasId(list, p);
    }
  }

  lemma {:induction false} WithoutMultiset(list: seq<PeerInfo>, x: PeerInfo)
    requires DistinctIds(list) && x in list
    ensures multiset(list) == multiset(Without(list, x.id)) + multiset{x}
  {
    var tail := list[1..];
    assert list == [list[0]] + tail;
    if list[0] != x {
      assert x in tail;
      assert DistinctIds(tail);
      WithoutMultiset(tail, x);
    }
  }

  lemma {:induction false} HasIdMember(list: seq<PeerInfo>, p: Peer)
    ensures HasId(list, p) <==> exists x :: x in list && x.id == p
  {
    if HasId(list, p) {
      var i :| 0 <= i < |list| && list[i].id == p;
      assert list[i] in list;
    }
  }

  // ---------------------------------------------------------------- all entries

  lemma {:induction false} Shift(a: multiset<PeerInfo>, b: multiset<PeerInfo>, x: multiset<PeerInfo>, y: multiset<PeerInfo>,
                                 common: multiset<PeerInfo>)
    requires a + x == b + y
    ensures (a + common) + x == (b + common) + y
  {
    assert (a + common) + x == (a + x) + common;
    assert (b + common) + y == (b + y) + common;
  }

  lemma {:induction false} Cancel(a: multiset<PeerInfo>, b: multiset<PeerInfo>, x: multiset<PeerInfo>, common: multiset<PeerInfo>)
    requires a + (common + x) == b + common
    ensures a + x == b
  {
    assert a + x == (a + (common + x)) - common;
    assert b == (b + common) - common;
  }

  lemma {:induction false} AllUpdate(t: Table, i: nat, b: BucketState)
    requires i < |t|
    ensures multiset(All(t[i := b])) + multiset(t[i].list) == multiset(All(t)) + multiset(b.list)
  {
    var last, r := |t| - 1, t[i := b];
    assert multiset(All(t)) == multiset(All(t[..last])) + multiset(t[last].list);
    assert multiset(All(r)) == multiset(All(r[..last])) + multiset(r[last].list);
    if i == last {
      assert r[..last] == t[..last];
    } else {
      assert r[..last] == t[..last][i := b];
      AllUpdate(t[..last], i, b);
      Shift(multiset(All(r[..last])), multiset(All(t[..last])), multiset(t[i].list), multiset(b.list),
            multiset(t[last].list));
    }
  }

  lemma {:induction false} AllAppend(t: Table, b: BucketState)
    ensures All(t + [b]) == All(t) + b.list
  {
    assert (t + [b])[..|t|] == t;
  }

  lemma {:induction false} AllMember(t: Table, x: PeerInfo)
    ensures x in All(t) <==> exists i :: 0 <= i < |t| && x in t[i].list
  {
    if t != [] {
      var init := t[..|t| - 1];
      AllMember(init, x);
      forall i | 0 <= i < |init|
        ensures init[i] == t[i]
      {
      }
    }
  }

  // ---------------------------------------------------------------- where a peer is

  /** A peer can only be in the bucket its common prefix length points at. */
  lemma {:induction false} LookupByIndex(cfg: Config, t: Table, p: Peer)
    requires cfg.Valid() && Partition(cfg, t)
    ensures InTable(t, p) <==> HasId(t[IndexFor(cfg.Cpl(p), |t|)].list, p)
  {
    if InTable(t, p) {
      var i :| 0 <= i < |t| && HasId(t[i].list, p);
      HasIdMember(t[i].list, p);
      var x :| x in t[i].list && x.id == p;
      assert BucketPlaced(cfg, |t|, i, t[i].list) && Placed(cfg, |t|, i, x);
    }
  }

  lemma {:induction false} InTableMember(t: Table, p: Peer)
    ensures InTable(t, p) <==> exists x :: x in All(t) && x.id == p
  {
    if InTable(t, p) {
      var i :| 0 <= i < |t| && HasId(t[i].list, p);
      HasIdMember(t[i].list, p);
      var x :| x in t[i].list && x.id == p;
      AllMember(t, x);
    }
    if x :| x in All(t) && x.id == p {
      AllMember(t, x);
      var i :| 0 <= i < |t| && x in t[i].list;
      HasIdMember(t[i].list, p);
    }
  }

  /** No peer occurs twice anywhere in the table. */
  lemma {:induction false} NoPeerTwice(cfg: Config, t: Table, i: nat, a: nat, j: nat, b: nat)
    requires cfg.Valid() && Partition(cfg, t)
    requires i < |t| && a < |t[i].list| && j < |t| && b < |t[j].list|
    requires t[i].list[a].id == t[j].list[b].id
    ensures i == j && a == b
  {
    assert BucketPlaced(cfg, |t|, i, t[i].list) && BucketPlaced(cfg, |t|, j, t[j].list);
    assert Placed(cfg, |t|, i, t[i].list[a]) && Placed(cfg, |t|, j, t[j].list[b]);
  }

  // ---------------------------------------------------------------- insert

  lemma {:induction false} ReplaceBucket(cfg: Config, t: Table, i: nat, b: BucketState)
    requires cfg.Valid() && Partition(cfg, t) && i < |t|
    requires BucketPlaced(cfg, |t|, i, b.list)
    ensures Partition(cfg, t[i := b])
  {
    hide BucketPlaced;
    var r := t[i := b];
    forall j | 0 <= j < |r|
      ensures BucketPlaced(cfg, |r|, j, r[j].list)
    {
      assert j != i ==> r[j] == t[j];
    }
  }

  lemma {:induction false} InsertKeeps(cfg: Config, t: Table, x: PeerInfo)
    requires cfg.Valid() && Partition(cfg, t)
    requires cfg.Knows(x) && !InTable(t, x.id)
    ensures Partition(cfg, Insert(cfg, t, x))
    ensures multiset(All(Insert(cfg, t, x))) == multiset(All(t)) + multiset{x}
  {
    hide All;
    var i := IndexFor(cfg.Cpl(x.id), |t|);
    var b := t[i].(list := [x] + t[i].list);
    AllUpdate(t, i, b);
    assert BucketPlaced(cfg, |t|, i, b.list) by {
      assert BucketPlaced(cfg, |t|, i, t[i].list);
      assert !HasId(t[i].list, x.id);
      HasIdMember(t[i].list, x.id);
      DistinctCons(x, t[i].list);
    }
    ReplaceBucket(cfg, t, i, b);
    assert multiset(b.list) == multiset(t[i].list) + multiset{x};
    Cancel(multiset(All(t)), multiset(All(Insert(cfg, t, x))), multiset{x}, multiset(t[i].list));
  }

  // ---------------------------------------------------------------- remove and collapse

  /** Neither the last nor the second last of several buckets is empty. */
  predicate Collapsed(t: Table)
  {
    |t| < 2 || (t[|t| - 1].list != [] && t[|t| - 2].list != [])
  }

  lemma {:induction false} CollapseStep(cfg: Config, t: Table)
    requires cfg.Valid() && Partition(cfg, t) && |t| >= 2
    ensures t[|t| - 1].list == [] ==> Partition(cfg, t[..|t| - 1]) && All(t[..|t| - 1]) == All(t)
    ensures t[|t| - 2].list == [] ==>
              var r := t[..|t| - 2] + [t[|t| - 1]];
              Partition(cfg, r) && All(r) == All(t)
  {
    var last := |t| - 1;
    assert t[..last][..last - 1] == t[..last - 1];
    assert All(t[..last]) == All(t[..last - 1]) + t[last - 1].list;
    AllAppend(t[..last - 1], t[last]);
    if t[last].list == [] {
      var r := t[..last];
      forall i | 0 <= i < |r|
        ensures BucketPlaced(cfg, |r|, i, r[i].list)
      {
        assert BucketPlaced(cfg, |t|, i, t[i].list);
        forall x | x in r[i].list ensures Placed(cfg, |r|, i, x) {
          assert Placed(cfg, |t|, i, x);
        }
      }
    }
    if t[last - 1].list == [] {
      var r := t[..last - 1] + [t[last]];
      forall i | 0 <= i < |r|
        ensures BucketPlaced(cfg, |r|, i, r[i].list)
      {
        var j := if i < last - 1 then i else last;
        assert r[i] == t[j] && BucketPlaced(cfg, |t|, j, t[j].list);
        forall x | x in r[i].list ensures Placed(cfg, |r|, i, x) {
          assert Placed(cfg, |t|, j, x);
        }
      }
    }
  }

  lemma {:induction false} CollapseKeeps(cfg: Config, t: Table)
    requires cfg.Valid() && Partition(cfg, t)
    ensures Partition(cfg, Collapse(t)) && Collapsed(Collapse(t))
    ensures All(Collapse(t)) == All(t)
    decreases |t|
  {
    var last := |t| - 1;
    if |t| >= 2 {
      CollapseStep(cfg, t);
      if t[last].list == [] {
        CollapseKeeps(cfg, t[..last]);
      } else if t[last - 1].list == [] {
        CollapseKeeps(cfg, t[..last - 1] + [t[last]]);
      }
    }
  }

  /** A bucket that is not empty survives collapsing, and the peers it is for still find it. */
  lemma {:induction false} CollapseFinds(t: Table, cpl: nat)
    requires |t| >= 1 && t[IndexFor(cpl, |t|)].list != []
    ensures Collapse(t)[IndexFor(cpl, |Collapse(t)|)] == t[IndexFor(cpl, |t|)]
    decreases |t|
  {
    var last := |t| - 1;
    if |t| >= 2 {
      if t[last].list == [] {
        CollapseFinds(t[..last], cpl);
      } else if t[last - 1].list == [] {
        CollapseFinds(t[..last - 1] + [t[last]], cpl);
      }
    }
  }

  lemma {:induction false} ShrinkBucket(cfg: Config, t: Table, i: nat, list: seq<PeerInfo>)
    requires cfg.Valid() && Partition(cfg, t) && i < |t|
    requires DistinctIds(list) && forall x :: x in list ==> x in t[i].list
    ensures Partition(cfg, t[i := t[i].(list := list)])
  {
    assert BucketPlaced(cfg, |t|, i, t[i].list);
    ReplaceBucket(cfg, t, i, t[i].(list := list));
  }

  lemma {:induction false} WhereIs(cfg: Config, t: Table, x: PeerInfo)
    requires cfg.Valid() && Partition(cfg, t) && x in All(t)
    ensures x in t[IndexFor(cfg.Cpl(x.id), |t|)].list
    ensures DistinctIds(t[IndexFor(cfg.Cpl(x.id), |t|)].list)
  {
    AllMember(t, x);
    var j :| 0 <= j < |t| && x in t[j].list;
    assert BucketPlaced(cfg, |t|, j, t[j].list) && Placed(cfg, |t|, j, x);
  }

  lemma {:induction false} TakeOut(cfg: Config, t: Table, x: PeerInfo, t1: Table)
    requires cfg.Valid() && Partition(cfg, t) && x in All(t)
    requires var i := IndexFor(cfg.Cpl(x.id), |t|); t1 == t[i := t[i].(list := Without(t[i].list, x.id))]
    ensures Partition(cfg, t1)
    ensures multiset(All(t)) == multiset(All(t1)) + multiset{x}
    ensures !InTable(t1, x.id)
    ensures |Without(t[IndexFor(cfg.Cpl(x.id), |t|)].list, x.id)| + 1 == |t[IndexFor(cfg.Cpl(x.id), |t|)].list|
  {
    hide All;
    var p := x.id;
    var i := IndexFor(cfg.Cpl(p), |t|);
    WhereIs(cfg, t, x);
    var list := t[i].list;
    WithoutFacts(list, p);
    WithoutMultiset(list, x);
    HasIdMember(list, p);
    ShrinkBucket(cfg, t, i, Without(list, p));
    AllUpdate(t, i, t1[i]);
    Cancel(multiset(All(t1)), multiset(All(t)), multiset{x}, multiset(Without(list, p)));
    HasIdMember(t1[i].list, p);
    LookupByIndex(cfg, t1, p);
  }

  /** Removing a peer keeps the partition and takes out that peer alone. */
  lemma {:induction false} RemoveKeeps(cfg: Config, t: Table, x: PeerInfo)
    requires cfg.Valid() && Partition(cfg, t) && x in All(t)
    ensures Partition(cfg, Remove(cfg, t, x.id)) && Collapsed(Remove(cfg, t, x.id))
    ensures multiset(All(t)) == multiset(All(Remove(cfg, t, x.id))) + multiset{x}
    ensures !InTable(Remove(cfg, t, x.id), x.id)
  {
    var i := IndexFor(cfg.Cpl(x.id), |t|);
    var t1 := t[i := t[i].(list := Without(t[i].list, x.id))];
    TakeOut(cfg, t, x, t1);
    hide All, Collapse, Partition, Collapsed, InTable;
    CollapseKeeps(cfg, t1);
    InTableMember(t1, x.id);
    InTableMember(Collapse(t1), x.id);
  }

  lemma {:induction false} RemoveAbsent(cfg: Config, t: Table, p: Peer)
    requires cfg.Valid() && Partition(cfg, t) && !InTable(t, p)
    ensures Remove(cfg, t, p) == t
  {
    var i := IndexFor(cfg.Cpl(p), |t|);
    assert BucketPlaced(cfg, |t|, i, t[i].list);
    WithoutFacts(t[i].list, p);
    assert !HasId(t[i].list, p);
  }

  // ---------------------------------------------------------------- unfolding

  lemma {:induction false} PickFacts(cfg: Config, list: seq<PeerInfo>, c: nat, deeper: bool)
    requires DistinctIds(list) && forall x :: x in list ==> |x.dhtId| == |cfg.local|
    ensures forall x :: x in Pick(cfg, list, c, deeper) <==>
                        x in list && (CommonPrefixLen(x.dhtId, cfg.local) > c) == deeper
    ensures DistinctIds(Pick(cfg, list, c, deeper))
  {
    forall x
      ensures x in Pick(cfg, list, c, deeper) <==>
              x in list && (CommonPrefixLen(x.dhtId, cfg.local) > c) == deeper
    {
      PickMembers(cfg, list, c, deeper, x);
    }
    if list != [] {
      hide DistinctIds, CommonPrefixLen;
      assert list == [list[0]] + list[1..];
      DistinctCons(list[0], list[1..]);
      PickFacts(cfg, list[1..], c, deeper);
      DistinctCons(list[0], Pick(cfg, list[1..], c, deeper));
    }
  }

  lemma {:induction false} PickMultiset(cfg: Config, list: seq<PeerInfo>, c: nat)
    requires forall x :: x in list ==> |x.dhtId| == |cfg.local|
    ensures multiset(Pick(cfg, list, c, true)) + multiset(Pick(cfg, list, c, false)) == multiset(list)
  {
    if list != [] {
      assert list == [list[0]] + list[1..];
      PickMultiset(cfg, list[1..], c);
    }
  }

  lemma {:induction false} PartitionFits(cfg: Config, t: Table)
    requires cfg.Valid() && Partition(cfg, t)
    ensures IdsFit(cfg, t)
  {
    forall i, x | 0 <= i < |t| && x in t[i].list
      ensures |x.dhtId| == |cfg.local|
    {
      assert BucketPlaced(cfg, |t|, i, t[i].list) && Placed(cfg, |t|, i, x);
    }
  }

  lemma {:induction false} SplitPlaced(cfg: Config, n: nat, list: seq<PeerInfo>, deeper: bool)
    requires cfg.Valid() && n >= 1 && BucketPlaced(cfg, n, n - 1, list)
    requires forall x :: x in list ==> |x.dhtId| == |cfg.local|
    ensures BucketPlaced(cfg, n + 1, if deeper then n else n - 1, Pick(cfg, list, n - 1, deeper))
  {
    hide DistinctIds, CommonPrefixLen;
    PickFacts(cfg, list, n - 1, deeper);
    var i, part := if deeper then n else n - 1, Pick(cfg, list, n - 1, deeper);
    forall x | x in part
      ensures Placed(cfg, n + 1, i, x)
    {
      assert Placed(cfg, n, n - 1, x);
    }
  }

  lemma {:induction false} GrowPlaced(cfg: Config, n: nat, i: nat, list: seq<PeerInfo>)
    requires cfg.Valid() && i < n - 1 && BucketPlaced(cfg, n, i, list)
    ensures BucketPlaced(cfg, n + 1, i, list)
  {
    forall x | x in list
      ensures Placed(cfg, n + 1, i, x)
    {
      assert Placed(cfg, n, i, x);
    }
  }

  lemma {:induction false} UnfoldOncePartition(cfg: Config, t: Table, tune: nat -> Tuning)
    requires cfg.Valid() && Partition(cfg, t) && IdsFit(cfg, t)
    ensures Partition(cfg, UnfoldOnce(cfg, t, tune))
  {
    hide BucketPlaced, Pick;
    var last := |t| - 1;
    var u := UnfoldOnce(cfg, t, tune);
    SplitPlaced(cfg, |t|, t[last].list, true);
    SplitPlaced(cfg, |t|, t[last].list, false);
    forall i | 0 <= i < |u|
      ensures BucketPlaced(cfg, |u|, i, u[i].list)
    {
      if i < last {
        assert u[i] == t[i];
        GrowPlaced(cfg, |t|, i, t[i].list);
      }
    }
  }

  lemma {:induction false} AllSplit(t: Table, u: Table)
    requires |t| >= 1 && |u| == |t| + 1 && u[..|t| - 1] == t[..|t| - 1]
    requires multiset(u[|t|].list) + multiset(u[|t| - 1].list) == multiset(t[|t| - 1].list)
    ensures multiset(All(u)) == multiset(All(t))
  {
    var init, u1 := t[..|t| - 1], u[..|t|];
    assert u1[..|t| - 1] == init;
    assert All(u1) == All(init) + u[|t| - 1].list;
    assert All(u) == All(u1) + u[|t|].list;
    assert multiset(All(u)) == multiset(All(init)) + (multiset(u[|t| - 1].list) + multiset(u[|t|].list));
  }

  lemma {:induction false} UnfoldOnceParts(cfg: Config, t: Table, tune: nat -> Tuning)
    requires |t| >= 1 && IdsFit(cfg, t)
    ensures var last, u := |t| - 1, UnfoldOnce(cfg, t, tune);
            && u[..last] == t[..last]
            && u[last].list == Pick(cfg, t[last].list, last, false)
            && u[last + 1].list == Pick(cfg, t[last].list, last, true)
  {
    hide Pick, CommonPrefixLen;
  }

  lemma {:induction false} UnfoldOnceAll(cfg: Config, t: Table, tune: nat -> Tuning)
    requires |t| >= 1 && IdsFit(cfg, t)
    ensures multiset(All(UnfoldOnce(cfg, t, tune))) == multiset(All(t))
  {
    hide Pick, CommonPrefixLen, All, UnfoldOnce;
    UnfoldOnceParts(cfg, t, tune);
    PickMultiset(cfg, t[|t| - 1].list, |t| - 1);
    AllSplit(t, UnfoldOnce(cfg, t, tune));
  }

  lemma {:induction false} UnfoldDef(cfg: Config, t: Table, tune: nat -> Tuning)
    requires |t| >= 1 && IdsFit(cfg, t) && cfg.bucketsize >= 1
    ensures var u := UnfoldOnce(cfg, t, tune);
            && IdsFit(cfg, u)
            && (|u[|t|].list| < UnfoldThreshold(cfg) ==> Unfold(cfg, t, tune) == u)
            && (|u[|t|].list| >= UnfoldThreshold(cfg) ==>
                  |t| <= cfg.Bits() && Unfold(cfg, t, tune) == Unfold(cfg, u, tune))
  {
    hide UnfoldOnce, IdsFit;
    UnfoldOnceFits(cfg, t, tune);
  }

  ghost predicate UnfoldedFrom(cfg: Config, t: Table, r: Table)
    requires cfg.Valid()
  {
    && Partition(cfg, r)
    && multiset(All(r)) == multiset(All(t))
    && |r[|r| - 1].list| < UnfoldThreshold(cfg)
    && (|t| <= cfg.Bits() + 1 ==> |r| <= cfg.Bits() + 2)
  }

  /** Unfolding keeps the partition and all peers, ends with the last bucket below the threshold, and
      adds at most one bucket beyond the length of an identifier. */
  lemma {:induction false} UnfoldKeeps(cfg: Config, t: Table, tune: nat -> Tuning)
    requires cfg.Valid() && Partition(cfg, t) && IdsFit(cfg, t)
    ensures UnfoldedFrom(cfg, t, Unfold(cfg, t, tune))
    decreases cfg.Bits() + 1 - |t|
  {
    assert |t| >= 1;
    hide All, UnfoldOnce, IdsFit, Unfold;
    UnfoldOncePartition(cfg, t, tune);
    UnfoldOnceAll(cfg, t, tune);
    UnfoldDef(cfg, t, tune);
    var u := UnfoldOnce(cfg, t, tune);
    if |u[|t|].list| >= UnfoldThreshold(cfg) {
      UnfoldKeeps(cfg, u, tune);
    }
  }

  /** A last bucket that is not empty bounds the number of buckets. */
  lemma {:induction false} LastBucketBound(cfg: Config, t: Table)
    requires cfg.Valid() && Partition(cfg, t) && t[|t| - 1].list != []
    ensures |t| <= cfg.Bits() + 1
  {
    var x := t[|t| - 1].list[0];
    assert BucketPlaced(cfg, |t|, |t| - 1, t[|t| - 1].list) && Placed(cfg, |t|, |t| - 1, x);
  }
}
