/**
 The queries of the routing table: `NearestPeers`, with or without the KadRTT re-ordering, and `Find`.
 */
module NearestQueries {
  import opened Keyspace
  import opened Collections
  import opened Sorting
  import opened TableModel
  import opened TableProofs
  import opened TableSteps
  import opened Nearest
  import opened Buckets
  import opened RoutingTables

  /** Collect the target's bucket, then if short the buckets to its right, then those to its left. */
  method Collect(rt: RoutingTable, c: nat, count: nat) returns (r: seq<PeerInfo>)
    requires rt.Linked() && c < |rt.model|
    ensures r == Collected(rt.model, c, count)
  {
    ghost var t := rt.model;
    r := rt.buckets[c].list;
    if |r| < count {
      ghost var own := r;
      for i := c + 1 to |rt.buckets|
        invariant r + From(t, i) == own + From(t, c + 1)
      {
        assert From(t, i) == t[i].list + From(t, i + 1);
        assert r + From(t, i) == (r + t[i].list) + From(t, i + 1);
        r := r + rt.buckets[i].list;
      }
      assert r + From(t, |t|) == r;
    }
    var i := c;
    while i > 0 && |r| < count
      invariant i <= c
      invariant Downwards(t, i, r, count) == Collected(t, c, count)
    {
      i := i - 1;
      r := r + rt.buckets[i].list;
    }
  }

  /** The distance-only answer. */
  method NearestByDistance(rt: RoutingTable, target: Id, count: nat) returns (got: seq<PeerInfo>, r: seq<PeerInfo>)
    requires rt.Linked() && Inv(rt.cfg, rt.model) && |target| == |rt.cfg.local|
    ensures got == Collected(rt.model, TargetIndex(rt.cfg, rt.model, target), count)
    ensures IsSortOf(r, got, ByDistance(target))
  {
    var c := CommonPrefixLen(target, rt.cfg.local);
    if c >= |rt.buckets| {
      c := |rt.buckets| - 1;
    }
    got := Collect(rt, c, count);
    r := SortByKey(got, ByDistance(target));
  }

  /** Split the peers, already in order of round-trip time, into preferred ones and the rest. */
  method SiftByRtt(q: seq<PeerInfo>, target: Id, first: PeerInfo) returns (ok: seq<PeerInfo>, ng: seq<PeerInfo>)
    ensures ok == Sift(q, target, first, true) && ng == Sift(q, target, first, false)
  {
    hide Preferred;
    ok, ng := [], [];
    for i := 0 to |q|
      invariant ok == Sift(q[..i], target, first, true) && ng == Sift(q[..i], target, first, false)
    {
      assert q[..i + 1][..i] == q[..i];
      if Preferred(target, first, q[i]) {
        ok := ok + [q[i]];
      } else {
        ng := ng + [q[i]];
      }
    }
    assert q[..|q|] == q;
  }

  lemma {:induction false} NearestHead(target: Id, got: seq<PeerInfo>, r: seq<PeerInfo>, first: PeerInfo)
    requires IsSortOf(r, got, ByDistance(target)) && IsNearest(target, got, first) && InjectiveOn(r, ByDistance(target))
    ensures r != [] && r[0] == first
  {
    SameElements(r, got);
    assert first in r;
    var i :| 0 <= i < |r| && r[i] == first;
    assert r[0] in got;
    assert ByDistance(target)(r[0]) <= ByDistance(target)(r[i]);
  }

  lemma {:induction false} SiftIsAnswer(cfg: Config, t: Table, target: Id, r: seq<PeerInfo>, q: seq<PeerInfo>)
    requires cfg.Valid() && Partition(cfg, t) && |target| == |cfg.local|
    requires var c := TargetIndex(cfg, t, target);
             t[c].beta >= 0 &&
             var got := Collected(t, c, t[c].beta);
             IsSortOf(r, got, ByDistance(target)) && IsSortOf(q, got, ByRtt())
    requires r != []
    ensures KadRttAnswer(cfg, t, target, Sift(q, target, r[0], true), Sift(q, target, r[0], false))
  {
    var c := TargetIndex(cfg, t, target);
    var got := Collected(t, c, t[c].beta);
    var rest := CollectedDivides(cfg, t, target, t[c].beta);
    DividesMembers(t, target, got, rest);
    SameElements(r, got);
    DistanceInjective(cfg, t, target, r);
    hide Collected, All, Divides, InjectiveOn, SortedBy, Partition;
    SiftMultiset(q, target, r[0]);
    SiftSorted(q, target, r[0], true);
    SiftSorted(q, target, r[0], false);
    forall first | IsNearest(target, got, first)
      ensures forall x :: x in Sift(q, target, r[0], true) ==> Preferred(target, first, x)
      ensures forall x :: x in Sift(q, target, r[0], false) ==> !Preferred(target, first, x)
    {
      NearestHead(target, got, r, first);
      forall x
        ensures x in Sift(q, target, first, true) ==> Preferred(target, first, x)
        ensures x in Sift(q, target, first, false) ==> !Preferred(target, first, x)
      {
        SiftMembers(q, target, first, true, x);
        SiftMembers(q, target, first, false, x);
      }
    }
  }

  /** The nearest peer is found again in the bucket it is looked up in, with the same entry. */
  method RttOf(rt: RoutingTable, first: PeerInfo) returns (rtt: int)
    requires rt.Linked() && Inv(rt.cfg, rt.model) && first in All(rt.model)
    ensures rtt == first.rtt
  {
    var i := rt.BucketIdForPeer(first.id);
    WhereIs(rt.cfg, rt.model, first);
    HasIdMember(rt.model[i].list, first.id);
    var entry := rt.buckets[i].GetPeer(first.id);
    OneEntry(rt.model[i].list, first, entry.value);
    rtt := entry.value.rtt;
  }

  lemma {:induction false} OneEntry(list: seq<PeerInfo>, x: PeerInfo, y: PeerInfo)
    requires DistinctIds(list) && x in list && y in list && x.id == y.id
    ensures x == y
  {
    var i :| 0 <= i < |list| && list[i] == x;
    var j :| 0 <= j < |list| && list[j] == y;
  }

  lemma {:induction false} CollectedInTable(cfg: Config, t: Table, target: Id, count: nat, got: seq<PeerInfo>, r: seq<PeerInfo>)
    requires cfg.Valid() && Partition(cfg, t) && |target| == |cfg.local| && r != []
    requires got == Collected(t, TargetIndex(cfg, t, target), count) && IsSortOf(r, got, ByDistance(target))
    ensures r[0] in All(t)
  {
    hide All, Collected;
    var rest := CollectedDivides(cfg, t, target, count);
    DividesMembers(t, target, got, rest);
    SameElements(r, got);
    assert r[0] in r;
  }

  lemma {:induction false} EmptyAnswer(cfg: Config, t: Table, target: Id)
    requires |t| >= 1 && |target| == |cfg.local| && t[TargetIndex(cfg, t, target)].beta >= 0
    requires var c := TargetIndex(cfg, t, target); IsSortOf([], Collected(t, c, t[c].beta), ByDistance(target))
    ensures KadRttAnswer(cfg, t, target, [], [])
  {
    hide Collected;
    var c := TargetIndex(cfg, t, target);
    SameElements([], Collected(t, c, t[c].beta));
  }

  /** The answer under KadRTT; the caller's count is ignored in favour of the bucket's beta. */
  method NearestByRtt(rt: RoutingTable, target: Id) returns (ok: seq<PeerInfo>, ng: seq<PeerInfo>)
    requires rt.Linked() && Inv(rt.cfg, rt.model) && |target| == |rt.cfg.local|
    ensures KadRttAnswer(rt.cfg, rt.model, target, ok, ng)
  {
    hide All, Collected, Preferred, KadRttAnswer, IsSortOf;
    ghost var t := rt.model;
    var c := CommonPrefixLen(target, rt.cfg.local);
    if c >= |rt.buckets| {
      c := |rt.buckets| - 1;
    }
    assert BucketOk(rt.cfg, |t|, t[c]);
    var count := rt.buckets[c].beta;
    var got, r := NearestByDistance(rt, target, count);
    if |r| == 0 {
      EmptyAnswer(rt.cfg, t, target);
      return [], [];
    }
    CollectedInTable(rt.cfg, t, target, count, got, r);
    var rtt := RttOf(rt, r[0]);
    var again := Collect(rt, c, count);
    var q := SortByKey(again, ByRtt());
    ok, ng := SiftByRtt(q, target, r[0].(rtt := rtt));
    SiftIsAnswer(rt.cfg, t, target, r, q);
  }

  lemma {:induction false} OnceInTable(cfg: Config, t: Table, x: PeerInfo)
    requires Inv(cfg, t) && x in All(t)
    ensures multiset(All(t))[x] == 1
  {
    hide All, BucketPlaced, ShapeOk, Remove;
    RemoveInv(cfg, t, x);
    var u := Remove(cfg, t, x.id);
    InTableMember(u, x.id);
    assert x !in multiset(All(u));
  }

  /** No part of the table names a peer twice. */
  lemma {:induction false} PartIsDistinct(cfg: Config, t: Table, r: seq<PeerInfo>, rest: seq<PeerInfo>)
    requires Inv(cfg, t) && multiset(r) + multiset(rest) == multiset(All(t))
    ensures DistinctIds(r)
  {
    hide All, Partition, ShapeOk;
    forall i, j | 0 <= i < j < |r|
      ensures r[i].id != r[j].id
    {
      if r[i].id == r[j].id {
        assert r[i] in multiset(All(t)) && r[j] in multiset(All(t));
        SameIdSameEntry(cfg, t, r[i], r[j]);
        Twice(r, i, j);
        OnceInTable(cfg, t, r[i]);
      }
    }
  }

  lemma {:induction false} AnswerDistinct(cfg: Config, t: Table, target: Id, count: nat, got: seq<PeerInfo>, r: seq<PeerInfo>)
    requires Inv(cfg, t) && |target| == |cfg.local|
    requires got == Collected(t, TargetIndex(cfg, t, target), count) && multiset(r) == multiset(got)
    ensures DistinctIds(r)
  {
    hide All, Collected, ShapeOk;
    var rest := CollectedDivides(cfg, t, target, count);
    PartIsDistinct(cfg, t, r, rest);
  }

  lemma {:induction false} RttAnswerDistinct(cfg: Config, t: Table, target: Id, ok: seq<PeerInfo>, ng: seq<PeerInfo>)
    requires Inv(cfg, t) && |target| == |cfg.local| && KadRttAnswer(cfg, t, target, ok, ng)
    ensures DistinctIds(ok + ng)
  {
    hide All, Collected, ShapeOk;
    var c := TargetIndex(cfg, t, target);
    AnswerDistinct(cfg, t, target, t[c].beta, Collected(t, c, t[c].beta), ok + ng);
  }

  /** The peers in a KadRTT answer are exactly those of the buckets read. */
  lemma {:induction false} AnswerIsRead(cfg: Config, t: Table, target: Id, ok: seq<PeerInfo>, ng: seq<PeerInfo>, out: seq<Peer>,
                                        j: nat, x: PeerInfo)
    requires Inv(cfg, t) && |target| == |cfg.local| && KadRttAnswer(cfg, t, target, ok, ng) && out == Ids(ok) + Ids(ng)
    requires j < |t| && x in t[j].list
    ensures var c := IndexFor(CommonPrefixLen(target, cfg.local), |t|);
            x.id in out <==> IsRead(t, c, t[c].beta, j)
  {
    KadRttReadsExactly(cfg, t, target, ok, ng);
    AnswerInTable(cfg, t, target, ok, ng);
    hide KadRttAnswer, All, ReadExactly, IsRead, CommonPrefixLen, ShapeOk;
    var c := IndexFor(CommonPrefixLen(target, cfg.local), |t|);
    ReadIff(cfg, t, c, t[c].beta, multiset(ok + ng), j, x);
    assert out == Ids(ok + ng);
    NamedIffListed(cfg, t, ok + ng, j, x);
  }

  lemma {:induction false} NamedIffListed(cfg: Config, t: Table, s: seq<PeerInfo>, j: nat, x: PeerInfo)
    requires cfg.Valid() && Partition(cfg, t) && (forall y :: y in s ==> y in All(t)) && j < |t| && x in t[j].list
    ensures x.id in Ids(s) <==> x in s
  {
    hide All, Partition;
    AllMember(t, x);
    if x.id in Ids(s) {
      var i :| 0 <= i < |s| && Ids(s)[i] == x.id;
      assert s[i] in s;
      SameIdSameEntry(cfg, t, s[i], x);
    }
    if x in s {
      var i :| 0 <= i < |s| && s[i] == x;
      assert Ids(s)[i] == x.id;
    }
  }

  /** Without KadRTT the answer is the start of the whole table sorted by distance. Under KadRTT it is a block of
      preferred peers followed by the rest. No peer is named twice. */
  method NearestPeers(rt: RoutingTable, target: Id, count: nat) returns (out: seq<Peer>)
    requires rt.Linked() && Inv(rt.cfg, rt.model) && |target| == |rt.cfg.local|
    ensures !rt.cfg.kadRtt ==> forall s :: IsSortOf(s, All(rt.model), ByDistance(target)) ==>
                                             out == Ids(s[..Min(count, |s|)])
    ensures forall i, j :: 0 <= i < j < |out| ==> out[i] != out[j]
    ensures rt.cfg.kadRtt ==> exists ok, ng :: KadRttAnswer(rt.cfg, rt.model, target, ok, ng) && out == Ids(ok) + Ids(ng)
    ensures var c := IndexFor(CommonPrefixLen(target, rt.cfg.local), |rt.model|);
            rt.cfg.kadRtt ==> forall j, x :: 0 <= j < |rt.model| && x in rt.model[j].list ==>
                                               (x.id in out <==> IsRead(rt.model, c, rt.model[c].beta, j))
  {
    hide All, Collected, KadRttAnswer, IsRead, CommonPrefixLen;
    if rt.cfg.kadRtt {
      var ok, ng := NearestByRtt(rt, target);
      RttAnswerDistinct(rt.cfg, rt.model, target, ok, ng);
      out := Ids(ok) + Ids(ng);
      assert out == Ids(ok + ng);
      forall j, x | 0 <= j < |rt.model| && x in rt.model[j].list
        ensures var c := IndexFor(CommonPrefixLen(target, rt.cfg.local), |rt.model|);
                x.id in out <==> IsRead(rt.model, c, rt.model[c].beta, j)
      {
        AnswerIsRead(rt.cfg, rt.model, target, ok, ng, out, j, x);
      }
    } else {
      var got, r := NearestByDistance(rt, target, count);
      forall s | IsSortOf(s, All(rt.model), ByDistance(target))
        ensures r[..Min(count, |r|)] == s[..Min(count, |s|)]
      {
        NearestIsGlobal(rt.cfg, rt.model, target, count, r, s);
      }
      AnswerDistinct(rt.cfg, rt.model, target, count, got, r);
      if count < |r| {
        r := r[..count];
      }
      out := Ids(r);
    }
  }

  lemma {:induction false} AnswerInTable(cfg: Config, t: Table, target: Id, ok: seq<PeerInfo>, ng: seq<PeerInfo>)
    requires cfg.Valid() && Partition(cfg, t) && |target| == |cfg.local|
    requires KadRttAnswer(cfg, t, target, ok, ng)
    ensures forall x :: x in ok + ng ==> x in All(t)
  {
    var c := TargetIndex(cfg, t, target);
    var got := Collected(t, c, t[c].beta);
    var rest := CollectedDivides(cfg, t, target, t[c].beta);
    DividesMembers(t, target, got, rest);
    SameElements(ok + ng, got);
  }

  lemma {:induction false} AnswerExists(cfg: Config, t: Table, target: Id) returns (ok: seq<PeerInfo>, ng: seq<PeerInfo>)
    requires Inv(cfg, t) && |target| == |cfg.local|
    ensures KadRttAnswer(cfg, t, target, ok, ng)
  {
    var c := TargetIndex(cfg, t, target);
    assert BucketOk(cfg, |t|, t[c]);
    hide Collected, KadRttAnswer, SomeSort, IsSortOf, ShapeOk, BucketPlaced;
    var got := Collected(t, c, t[c].beta);
    var r, q := SomeSort(got, ByDistance(target)), SomeSort(got, ByRtt());
    SomeSortIsSort(got, ByDistance(target));
    SomeSortIsSort(got, ByRtt());
    if r == [] {
      ok, ng := [], [];
      EmptyAnswer(cfg, t, target);
    } else {
      ok, ng := Sift(q, target, r[0], true), Sift(q, target, r[0], false);
      SiftIsAnswer(cfg, t, target, r, q);
    }
  }

  lemma {:induction false} FoundIsPresent(cfg: Config, t: Table, id: Peer, ok: seq<PeerInfo>, ng: seq<PeerInfo>)
    requires Inv(cfg, t) && KadRttAnswer(cfg, t, cfg.hash(id), ok, ng) && Finds(id, ok + ng)
    ensures InTable(t, id)
  {
    hide KadRttAnswer, All, InTable, ShapeOk;
    AnswerInTable(cfg, t, cfg.hash(id), ok, ng);
    assert (ok + ng)[0] in ok + ng;
    InTableMember(t, id);
  }

  lemma {:induction false} FastestIsPresent(cfg: Config, t: Table, id: Peer)
    requires Inv(cfg, t)
    ensures StrictlyFastest(Pool(cfg, t, id), id) || AmongFastest(Pool(cfg, t, id), id) ==> InTable(t, id)
  {
    PoolInTable(cfg, t, id);
    hide Pool, All, InTable, ShapeOk;
    InTableMember(t, id);
  }

  /** Looking a peer up under KadRTT, for every table and every peer: every answer finds it exactly if it was
      collected and is faster than every other collected peer, and some answer finds it exactly if none is faster. */
  lemma {:induction false} FindUnderKadRtt(cfg: Config, t: Table, id: Peer)
    requires Inv(cfg, t)
    ensures (forall ok, ng :: KadRttAnswer(cfg, t, cfg.hash(id), ok, ng) ==> Finds(id, ok + ng))
       <==> StrictlyFastest(Pool(cfg, t, id), id)
    ensures (exists ok, ng :: KadRttAnswer(cfg, t, cfg.hash(id), ok, ng) && Finds(id, ok + ng))
       <==> AmongFastest(Pool(cfg, t, id), id)
  {
    hide Pool, InTable, KadRttAnswer, StrictlyFastest, AmongFastest, Finds, ShapeOk, BucketPlaced;
    if InTable(t, id) {
      FindPresent(cfg, t, id);
    } else {
      FastestIsPresent(cfg, t, id);
      forall ok, ng | KadRttAnswer(cfg, t, cfg.hash(id), ok, ng)
        ensures !Finds(id, ok + ng)
      {
        if Finds(id, ok + ng) {
          FoundIsPresent(cfg, t, id, ok, ng);
        }
      }
      var ok, ng := AnswerExists(cfg, t, cfg.hash(id));
      assert !Finds(id, ok + ng);
    }
  }

  /** The first peer of an answer found or not. */
  lemma {:induction false} FindsFirst(id: Peer, ok: seq<PeerInfo>, ng: seq<PeerInfo>, out: seq<Peer>)
    requires out == Ids(ok) + Ids(ng)
    ensures Finds(id, ok + ng) <==> |out| > 0 && out[0] == id
  {
    assert out == Ids(ok + ng);
  }

  /** `Find` reports no peer that is not in the table and, without KadRTT, all that are. Under KadRTT it reports only
      peers that no collected peer is faster than, and surely one that is faster than all the others. */
  method Find(rt: RoutingTable, id: Peer) returns (found: bool)
    requires rt.Linked() && Inv(rt.cfg, rt.model)
    ensures found ==> InTable(rt.model, id)
    ensures !rt.cfg.kadRtt ==> (found <==> InTable(rt.model, id))
    ensures rt.cfg.kadRtt && found ==> AmongFastest(Pool(rt.cfg, rt.model, id), id)
    ensures rt.cfg.kadRtt && StrictlyFastest(Pool(rt.cfg, rt.model, id), id) ==> found
  {
    hide All, InTable, KadRttAnswer, SomeSort, IsSortOf, Pool, StrictlyFastest, AmongFastest, Finds, ShapeOk, BucketPlaced;
    var out := NearestPeers(rt, rt.cfg.hash(id), 1);
    found := |out| > 0 && out[0] == id;
    if rt.cfg.kadRtt {
      ghost var ok, ng :| KadRttAnswer(rt.cfg, rt.model, rt.cfg.hash(id), ok, ng) && out == Ids(ok) + Ids(ng);
      FindsFirst(id, ok, ng, out);
      FindUnderKadRtt(rt.cfg, rt.model, id);
      if found {
        FoundIsPresent(rt.cfg, rt.model, id, ok, ng);
      }
    } else {
      ghost var s := SomeSort(All(rt.model), ByDistance(rt.cfg.hash(id)));
      SomeSortIsSort(All(rt.model), ByDistance(rt.cfg.hash(id)));
      FindIff(rt.cfg, rt.model, id, s);
    }
  }
}
