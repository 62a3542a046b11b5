/**
 The invariant of the routing table and what the adds do to the peers in it.
 */
module TableSteps {
  import opened Wrappers
  import opened Keyspace
  import opened TableModel
  import opened TableProofs

  ghost predicate Tuned(cfg: Config, b: BucketState)
  {
    b.k >= cfg.bucketsize && b.k >= 2 && b.beta == cfg.bucketsize && b.alpha >= 2
  }

  /** Under KadRTT every bucket of an unfolded table has been tuned; without it no bucket overflows. */
  ghost predicate BucketOk(cfg: Config, n: nat, b: BucketState)
  {
    && b.k >= 1 && b.beta >= 1 && b.alpha >= 1
    && (cfg.kadRtt && n > 1 ==> Tuned(cfg, b))
    && (!cfg.kadRtt ==> |b.list| <= cfg.bucketsize)
  }

  ghost predicate ShapeOk(cfg: Config, t: Table)
  {
    && |t| <= cfg.Bits() + 2
    && forall i :: 0 <= i < |t| ==> BucketOk(cfg, |t|, t[i])
  }

  ghost predicate Inv(cfg: Config, t: Table)
  {
    cfg.Valid() && Partition(cfg, t) && ShapeOk(cfg, t)
  }

  lemma {:induction false} FreshInv(cfg: Config)
    requires cfg.Valid()
    ensures Inv(cfg, [FRESH_BUCKET]) && All([FRESH_BUCKET]) == []
  {
    assert [FRESH_BUCKET][..0] == [];
    assert BucketPlaced(cfg, 1, 0, []);
  }

  // ---------------------------------------------------------------- shape

  lemma {:induction false} CollapseShape(cfg: Config, t: Table)
    requires |t| >= 1 && ShapeOk(cfg, t)
    ensures ShapeOk(cfg, Collapse(t))
    decreases |t|
  {
    var last := |t| - 1;
    if |t| >= 2 {
      if t[last].list == [] {
        CollapseShape(cfg, t[..last]);
      } else if t[last - 1].list == [] {
        CollapseShape(cfg, t[..last - 1] + [t[last]]);
      }
    }
  }

  lemma {:induction false} ReplaceShape(cfg: Config, t: Table, i: nat, b: BucketState)
    requires ShapeOk(cfg, t) && i < |t| && BucketOk(cfg, |t|, b)
    ensures ShapeOk(cfg, t[i := b])
  {
    var r := t[i := b];
    forall j | 0 <= j < |r|
      ensures BucketOk(cfg, |r|, r[j])
    {
      assert j != i ==> r[j] == t[j];
    }
  }

  lemma {:induction false} UnfoldOnceShape(cfg: Config, t: Table, tune: nat -> Tuning)
    requires |t| >= 1 && IdsFit(cfg, t) && cfg.bucketsize >= 2
    requires forall i :: 0 <= i < |t| ==> BucketOk(cfg, |t|, t[i])
    ensures var u := UnfoldOnce(cfg, t, tune); forall i :: 0 <= i < |u| ==> BucketOk(cfg, |u|, u[i])
  {
    hide Pick, CommonPrefixLen;
    var last := |t| - 1;
    var u := UnfoldOnce(cfg, t, tune);
    UnfoldOnceParts(cfg, t, tune);
    if t[last].list != [] {
      PickMembers(cfg, t[last].list, last, true, t[last].list[0]);
      PickMembers(cfg, t[last].list, last, false, t[last].list[0]);
    } else {
      PickEmpty(cfg, last);
    }
    forall i | 0 <= i < |u|
      ensures BucketOk(cfg, |u|, u[i])
    {
      if i < last {
        assert u[i] == t[..last][i] == t[i];
      }
      assert BucketOk(cfg, |t|, t[if i < last then i else last]);
    }
  }

  lemma {:induction false} UnfoldShape(cfg: Config, t: Table, tune: nat -> Tuning)
    requires |t| >= 1 && IdsFit(cfg, t) && cfg.bucketsize >= 2
    requires forall i :: 0 <= i < |t| ==> BucketOk(cfg, |t|, t[i])
    ensures var u := Unfold(cfg, t, tune); forall i :: 0 <= i < |u| ==> BucketOk(cfg, |u|, u[i])
    decreases cfg.Bits() + 1 - |t|
  {
    hide UnfoldOnce, Unfold, IdsFit, BucketOk;
    UnfoldOnceShape(cfg, t, tune);
    UnfoldDef(cfg, t, tune);
    var u := UnfoldOnce(cfg, t, tune);
    if |u[|t|].list| >= UnfoldThreshold(cfg) {
      UnfoldShape(cfg, u, tune);
    }
  }

  /** A full last bucket can be unfolded without leaving the bounds. */
  lemma {:induction false} UnfoldInv(cfg: Config, t: Table, tune: nat -> Tuning)
    requires Inv(cfg, t) && t[|t| - 1].list != []
    ensures IdsFit(cfg, t)
    ensures Inv(cfg, Unfold(cfg, t, tune)) && multiset(All(Unfold(cfg, t, tune))) == multiset(All(t))
  {
    hide Unfold, All, BucketOk, BucketPlaced, IdsFit;
    PartitionFits(cfg, t);
    LastBucketBound(cfg, t);
    UnfoldKeeps(cfg, t, tune);
    UnfoldShape(cfg, t, tune);
  }

  // ---------------------------------------------------------------- inserting and removing

  lemma {:induction false} InsertInv(cfg: Config, t: Table, x: PeerInfo)
    requires Inv(cfg, t) && cfg.Knows(x) && !InTable(t, x.id)
    requires !cfg.kadRtt ==> |t[IndexFor(cfg.Cpl(x.id), |t|)].list| < cfg.bucketsize
    ensures Inv(cfg, Insert(cfg, t, x))
    ensures multiset(All(Insert(cfg, t, x))) == multiset(All(t)) + multiset{x}
  {
    hide All, Partition, InTable;
    InsertKeeps(cfg, t, x);
    var i := IndexFor(cfg.Cpl(x.id), |t|);
    assert BucketOk(cfg, |t|, t[i]);
    ReplaceShape(cfg, t, i, t[i].(list := [x] + t[i].list));
  }

  lemma {:induction false} RemoveInv(cfg: Config, t: Table, x: PeerInfo)
    requires Inv(cfg, t) && x in All(t)
    ensures Inv(cfg, Remove(cfg, t, x.id))
    ensures multiset(All(t)) == multiset(All(Remove(cfg, t, x.id))) + multiset{x}
    ensures !InTable(Remove(cfg, t, x.id), x.id)
  {
    assert |t| >= 1;
    var i := IndexFor(cfg.Cpl(x.id), |t|);
    var b := t[i].(list := Without(t[i].list, x.id));
    TakeOut(cfg, t, x, t[i := b]);
    assert BucketOk(cfg, |t|, t[i]);
    hide All, Collapse, Partition, InTable;
    RemoveKeeps(cfg, t, x);
    ReplaceShape(cfg, t, i, b);
    CollapseShape(cfg, t[i := b]);
  }

  /** Removing a peer, present or not, keeps the invariant and every other peer. */
  lemma {:induction false} RemoveAny(cfg: Config, t: Table, p: Peer)
    requires Inv(cfg, t)
    ensures Inv(cfg, Remove(cfg, t, p))
    ensures forall q :: InTable(Remove(cfg, t, p), q) <==> InTable(t, q) && q != p
  {
    hide All, Remove, InTable, ShapeOk;
    InTableMember(t, p);
    if x :| x in All(t) && x.id == p {
      var r := Remove(cfg, t, p);
      RemoveInv(cfg, t, x);
      forall q
        ensures InTable(r, q) <==> InTable(t, q) && q != p
      {
        LoseOne(t, r, x, q);
      }
    } else {
      RemoveAbsent(cfg, t, p);
    }
  }

  lemma {:induction false} LoseOne(t: Table, r: Table, x: PeerInfo, q: Peer)
    requires multiset(All(t)) == multiset(All(r)) + multiset{x} && !InTable(r, x.id)
    ensures InTable(r, q) <==> InTable(t, q) && q != x.id
  {
    hide All, InTable;
    InTableMember(t, q);
    InTableMember(r, q);
    forall y
      ensures y in All(t) <==> y in All(r) || y == x
    {
      assert y in All(t) <==> y in multiset(All(t));
      assert y in All(r) <==> y in multiset(All(r));
    }
  }

  lemma {:induction false} GainOne(t: Table, r: Table, x: PeerInfo, q: Peer)
    requires multiset(All(r)) == multiset(All(t)) + multiset{x}
    ensures InTable(r, q) <==> InTable(t, q) || q == x.id
  {
    hide All, InTable;
    InTableMember(t, q);
    InTableMember(r, q);
    forall y
      ensures y in All(r) <==> y in All(t) || y == x
    {
      assert y in All(t) <==> y in multiset(All(t));
      assert y in All(r) <==> y in multiset(All(r));
    }
  }

  lemma {:induction false} SameEntriesSamePeers(t: Table, u: Table, p: Peer)
    requires multiset(All(t)) == multiset(All(u))
    ensures InTable(t, p) <==> InTable(u, p)
  {
    hide All, InTable;
    InTableMember(t, p);
    InTableMember(u, p);
    assert forall x :: x in All(t) <==> x in multiset(All(t));
    assert forall x :: x in All(u) <==> x in multiset(All(u));
  }

  // ---------------------------------------------------------------- adding

  /** The bucket an add would have to evict from. */
  function TargetBucket(cfg: Config, t: Table, p: Peer): BucketState
    requires |t| >= 1 && |cfg.hash(p)| == |cfg.local|
  {
    t[IndexFor(cfg.Cpl(p), |t|)]
  }

  lemma {:induction false} CapacityFull(cfg: Config, t: Table, p: Peer, tuned: bool)
    requires Inv(cfg, t)
    requires |TargetBucket(cfg, t, p).list| >= Capacity(cfg, TargetBucket(cfg, t, p), tuned)
    ensures |TargetBucket(cfg, t, p).list| >= 1
    ensures |t| > 1 || !cfg.kadRtt || !tuned ==> |TargetBucket(cfg, t, p).list| >= 2
    ensures !cfg.kadRtt ==> |TargetBucket(cfg, t, p).list| == cfg.bucketsize
  {
    assert BucketOk(cfg, |t|, TargetBucket(cfg, t, p));
  }

  ghost predicate PlacedOk(cfg: Config, t: Table, x: PeerInfo, r: Placement)
  {
    && Inv(cfg, r.t)
    && (r.placed ==> multiset(All(r.t)) == multiset(All(t)) + multiset{x})
    && (!r.placed ==>
          && multiset(All(r.t)) == multiset(All(t))
          && !InTable(r.t, x.id)
          && |TargetBucket(cfg, r.t, x.id).list| >= 2
          && (!cfg.kadRtt ==> |TargetBucket(cfg, r.t, x.id).list| == cfg.bucketsize))
  }

  /** Looking for room keeps the invariant and loses no peer; without room the peer's bucket is full. */
  lemma {:induction false} PlaceInv(cfg: Config, t: Table, x: PeerInfo, v: Variant, tune: nat -> Tuning)
    requires Inv(cfg, t) && cfg.Knows(x) && !InTable(t, x.id)
    ensures IdsFit(cfg, t) && PlacedOk(cfg, t, x, Place(cfg, t, x, v, tune))
  {
    hide All, Unfold, Insert, InTable, ShapeOk, IdsFit;
    PartitionFits(cfg, t);
    var b := TargetBucket(cfg, t, x.id);
    if |b.list| < Capacity(cfg, b, v.tunedFirst) {
      InsertInv(cfg, t, x);
    } else {
      CapacityFull(cfg, t, x.id, v.tunedFirst);
      if IndexFor(cfg.Cpl(x.id), |t|) == |t| - 1 {
        var u := Unfold(cfg, t, tune);
        UnfoldInv(cfg, t, tune);
        SameEntriesSamePeers(t, u, x.id);
        var c := TargetBucket(cfg, u, x.id);
        if |c.list| < Capacity(cfg, c, v.tunedAfterUnfold) {
          InsertInv(cfg, u, x);
        } else {
          CapacityFull(cfg, u, x.id, v.tunedAfterUnfold);
        }
      }
    }
  }

  lemma {:induction false} HoldsIsHasId(list: seq<PeerInfo>, p: Peer)
    requires DistinctIds(list)
    ensures Holds(list, p) <==> HasId(list, p)
  {
    WithoutFacts(list, p);
  }

  lemma {:induction false} HoldsIsInTable(cfg: Config, t: Table, p: Peer)
    requires cfg.Valid() && Partition(cfg, t)
    ensures Holds(TargetBucket(cfg, t, p).list, p) <==> InTable(t, p)
  {
    var i := IndexFor(cfg.Cpl(p), |t|);
    assert BucketPlaced(cfg, |t|, i, t[i].list);
    HoldsIsHasId(t[i].list, p);
    LookupByIndex(cfg, t, p);
  }

  lemma {:induction false} HoldsIffInTable(cfg: Config, t: Table, p: Peer)
    requires Inv(cfg, t)
    ensures |t| >= 1 && |cfg.hash(p)| == |cfg.local|
    ensures Holds(TargetBucket(cfg, t, p).list, p) <==> InTable(t, p)
  {
    HoldsIsInTable(cfg, t, p);
  }

  lemma {:induction false} RemoveDef(cfg: Config, t: Table, p: Peer)
    requires Inv(cfg, t)
    ensures var i := IndexFor(cfg.Cpl(p), |t|);
            var t1 := t[i := t[i].(list := Without(t[i].list, p))];
            Remove(cfg, t, p) == (if Holds(t[i].list, p) then Collapse(t1) else t)
            && (!Holds(t[i].list, p) ==> t1 == t)
  {
    var i := IndexFor(cfg.Cpl(p), |t|);
    assert BucketPlaced(cfg, |t|, i, t[i].list);
    WithoutFacts(t[i].list, p);
    if !Holds(t[i].list, p) {
      WithoutSame(t[i].list, p);
    }
  }

  lemma {:induction false} WithoutSame(list: seq<PeerInfo>, p: Peer)
    requires |Without(list, p)| >= |list|
    ensures Without(list, p) == list
  {
    if list != [] {
      WithoutSame(list[1..], p);
    }
  }

  lemma {:induction false} BumpPlaced(cfg: Config, n: nat, i: nat, list: seq<PeerInfo>, p: Peer, at: Option<int>)
    requires cfg.Valid() && BucketPlaced(cfg, n, i, list)
    ensures BucketPlaced(cfg, n, i, Bump(list, p, at))
  {
    hide Bump, CommonPrefixLen;
    var r := Bump(list, p, at);
    forall x | x in r
      ensures Placed(cfg, n, i, x)
    {
      var j :| 0 <= j < |r| && r[j] == x;
      assert list[j] in list && Placed(cfg, n, i, list[j]);
    }
  }

  lemma {:induction false} BumpInv(cfg: Config, t: Table, p: Peer, at: Option<int>)
    requires Inv(cfg, t)
    ensures var i := IndexFor(cfg.Cpl(p), |t|);
            var r := t[i := t[i].(list := Bump(t[i].list, p, at))];
            Inv(cfg, r) && forall q :: InTable(r, q) <==> InTable(t, q)
  {
    hide Bump, CommonPrefixLen;
    var i := IndexFor(cfg.Cpl(p), |t|);
    var b := t[i].(list := Bump(t[i].list, p, at));
    var r := t[i := b];
    assert BucketPlaced(cfg, |t|, i, t[i].list) && BucketOk(cfg, |t|, t[i]);
    BumpPlaced(cfg, |t|, i, t[i].list, p, at);
    ReplaceBucket(cfg, t, i, b);
    ReplaceShape(cfg, t, i, b);
    forall q
      ensures InTable(r, q) <==> InTable(t, q)
    {
      assert HasId(b.list, q) <==> HasId(t[i].list, q);
      if InTable(r, q) {
        var j :| 0 <= j < |r| && HasId(r[j].list, q);
        assert HasId(t[j].list, q);
      }
      if InTable(t, q) {
        var j :| 0 <= j < |t| && HasId(t[j].list, q);
        assert HasId(r[j].list, q);
      }
    }
  }

  /** `u` holds the entries of `t`, with `x` in exchange for `y`. */
  ghost predicate Exchanged(t: Table, u: Table, x: PeerInfo, y: PeerInfo)
  {
    multiset(All(u)) + multiset{y} == multiset(All(t)) + multiset{x}
  }

  /** Evicting a peer from a bucket of at least two leaves that bucket in the table, where the
      newcomer still belongs, although the table may have shrunk. */
  lemma {:induction false} SwapTarget(cfg: Config, t: Table, p: Peer, y: PeerInfo)
    requires cfg.Valid() && Partition(cfg, t)
    requires y in TargetBucket(cfg, t, p).list && |TargetBucket(cfg, t, p).list| >= 2
    ensures y in All(t)
    ensures TargetBucket(cfg, Remove(cfg, t, y.id), p)
         == TargetBucket(cfg, t, p).(list := Without(TargetBucket(cfg, t, p).list, y.id))
    ensures |Without(TargetBucket(cfg, t, p).list, y.id)| + 1 == |TargetBucket(cfg, t, p).list|
  {
    hide CommonPrefixLen, All;
    var i := IndexFor(cfg.Cpl(p), |t|);
    AllMember(t, y);
    assert BucketPlaced(cfg, |t|, i, t[i].list) && Placed(cfg, |t|, i, y);
    assert IndexFor(cfg.Cpl(y.id), |t|) == i;
    var t1 := t[i := t[i].(list := Without(t[i].list, y.id))];
    TakeOut(cfg, t, y, t1);
    CollapseFinds(t1, cfg.Cpl(p));
  }

  lemma {:induction false} StillAbsent(t: Table, r: Table, x: Peer, y: PeerInfo)
    requires !InTable(t, x) && multiset(All(t)) == multiset(All(r)) + multiset{y}
    ensures !InTable(r, x)
  {
    hide All, InTable;
    InTableMember(t, x);
    InTableMember(r, x);
    forall z | z in All(r)
      ensures z in All(t)
    {
      assert z in multiset(All(t));
    }
  }

  lemma {:induction false} SwapInv(cfg: Config, t: Table, x: PeerInfo, y: PeerInfo)
    requires Inv(cfg, t) && cfg.Knows(x) && !InTable(t, x.id)
    requires y in TargetBucket(cfg, t, x.id).list && |TargetBucket(cfg, t, x.id).list| >= 2
    ensures Inv(cfg, Insert(cfg, Remove(cfg, t, y.id), x))
    ensures Exchanged(t, Insert(cfg, Remove(cfg, t, y.id), x), x, y)
  {
    hide All, Insert, InTable, Remove, Without;
    assert BucketOk(cfg, |t|, TargetBucket(cfg, t, x.id));
    SwapTarget(cfg, t, x.id, y);
    var r := Remove(cfg, t, y.id);
    RemoveInv(cfg, t, y);
    StillAbsent(t, r, x.id, y);
    InsertInv(cfg, r, x);
    assert multiset(All(Insert(cfg, r, x))) + multiset{y} == (multiset(All(r)) + multiset{y}) + multiset{x};
  }

  /** What an add of `x` that ends in outcome `o` leaves behind. */
  ghost predicate AddEffect(cfg: Config, t: Table, x: PeerInfo, u: Table, o: AddOutcome)
  {
    && Inv(cfg, u)
    && (o == Present <==> InTable(t, x.id))
    && (o == Present ==> forall q :: InTable(u, q) <==> InTable(t, q))
    && (o == HighLatency || o == Filtered ==> u == t)
    && (o == NoCapacity ==> multiset(All(u)) == multiset(All(t)))
    && (o == Added ==>
          || multiset(All(u)) == multiset(All(t)) + multiset{x}
          || exists y :: y in All(t) && y.isReplaceable && Exchanged(t, u, x, y))
  }

  lemma {:induction false} ReplaceInv(cfg: Config, t: Table, x: PeerInfo)
    requires Inv(cfg, t) && cfg.Knows(x) && !InTable(t, x.id)
    requires |TargetBucket(cfg, t, x.id).list| >= 2
    ensures var (u, o) := Replace(cfg, t, x);
            && Inv(cfg, u)
            && (o == NoCapacity ==> u == t && forall y :: y in TargetBucket(cfg, t, x.id).list ==> !y.isReplaceable)
            && (o == Added || o == NoCapacity)
            && (o == Added ==> exists y ::
                    y in TargetBucket(cfg, t, x.id).list && y.isReplaceable && Exchanged(t, u, x, y))
  {
    hide Insert, Remove, All, ShapeOk, InTable;
    var victim := LastReplaceable(TargetBucket(cfg, t, x.id).list);
    if victim.Some? {
      SwapInv(cfg, t, x, victim.value);
    }
  }

  lemma {:induction false} SameMember(t: Table, u: Table, y: PeerInfo)
    requires multiset(All(t)) == multiset(All(u)) && y in All(u)
    ensures y in All(t)
  {
    hide All;
    assert y in multiset(All(t));
  }

  lemma {:induction false} FullBucketEffect(cfg: Config, t: Table, t1: Table, x: PeerInfo)
    requires Inv(cfg, t1) && cfg.Knows(x) && !InTable(t, x.id)
    requires multiset(All(t1)) == multiset(All(t)) && |TargetBucket(cfg, t1, x.id).list| >= 2
    ensures var (u, o) := Replace(cfg, t1, x); AddEffect(cfg, t, x, u, o)
  {
    hide All, Replace, ShapeOk, InTable;
    SameEntriesSamePeers(t, t1, x.id);
    ReplaceInv(cfg, t1, x);
    var (u, o) := Replace(cfg, t1, x);
    if o == Added {
      var y :| y in TargetBucket(cfg, t1, x.id).list && y.isReplaceable && Exchanged(t1, u, x, y);
      AllMember(t1, y);
      SameMember(t, t1, y);
      assert Exchanged(t, u, x, y);
    }
  }

  /** Every add keeps the invariant; it loses no peer except one replaceable one for the newcomer. */
  lemma {:induction false} AddInv(cfg: Config, t: Table, x: PeerInfo, v: Variant, latencyOk: bool, admitted: bool,
                                  tune: nat -> Tuning)
    requires Inv(cfg, t) && cfg.Knows(x)
    ensures IdsFit(cfg, t)
    ensures var (u, o) := AddPeer(cfg, t, x, v, latencyOk, admitted, tune); AddEffect(cfg, t, x, u, o)
  {
    hide All, Place, Replace, Bump, IdsFit, ShapeOk, InTable, Holds;
    PartitionFits(cfg, t);
    HoldsIsInTable(cfg, t, x.id);
    if InTable(t, x.id) {
      BumpInv(cfg, t, x.id, x.lastUsefulAt);
    } else if latencyOk && admitted {
      PlaceInv(cfg, t, x, v, tune);
      var pl := Place(cfg, t, x, v, tune);
      if !pl.placed {
        FullBucketEffect(cfg, t, pl.t, x);
      }
    }
  }

  /** An add that passed the checks and found its bucket full after any unfolding succeeds exactly when
      that bucket holds a replaceable peer, and then evicts one. */
  lemma {:induction false} AddEvictsIff(cfg: Config, t: Table, x: PeerInfo, v: Variant, tune: nat -> Tuning)
    requires Inv(cfg, t) && cfg.Knows(x) && !InTable(t, x.id)
    requires IdsFit(cfg, t) && !Place(cfg, t, x, v, tune).placed
    ensures var full := TargetBucket(cfg, Place(cfg, t, x, v, tune).t, x.id);
            var (u, o) := AddPeer(cfg, t, x, v, true, true, tune);
            && (o == Added <==> exists y :: y in full.list && y.isReplaceable)
            && (o == Added ==> exists y :: y in full.list && y.isReplaceable && Exchanged(t, u, x, y))
            && (o != Added ==> multiset(All(u)) == multiset(All(t)))
  {
    hide All, Place, Replace, ShapeOk, InTable, Holds, IdsFit;
    HoldsIsInTable(cfg, t, x.id);
    PlaceInv(cfg, t, x, v, tune);
    var pl := Place(cfg, t, x, v, tune);
    ReplaceInv(cfg, pl.t, x);
    var (u, o) := Replace(cfg, pl.t, x);
    if o == Added {
      var y :| y in TargetBucket(cfg, pl.t, x.id).list && y.isReplaceable && Exchanged(pl.t, u, x, y);
      assert Exchanged(t, u, x, y);
    }
  }

  // ---------------------------------------------------------------- who is in the table

  /** From `t` to `u` the peer `gone`, if any, left and the peer `come`, if any, arrived. */
  ghost predicate PeersChange(t: Table, u: Table, gone: Option<Peer>, come: Option<Peer>)
  {
    && (forall q :: InTable(u, q) <==> (InTable(t, q) && gone != Some(q)) || come == Some(q))
    && (gone.Some? ==> InTable(t, gone.value))
    && (come.Some? ==> !InTable(t, come.value))
  }

  lemma {:induction false} NobodyChanges(t: Table, u: Table)
    requires multiset(All(t)) == multiset(All(u))
    ensures PeersChange(t, u, None, None)
  {
    hide All, InTable;
    forall q
      ensures InTable(u, q) <==> InTable(t, q)
    {
      SameEntriesSamePeers(t, u, q);
    }
  }

  lemma {:induction false} PlacedChange(t: Table, u: Table, x: PeerInfo)
    requires multiset(All(u)) == multiset(All(t)) + multiset{x} && !InTable(t, x.id)
    ensures PeersChange(t, u, None, Some(x.id))
  {
    hide All, InTable;
    forall q
      ensures InTable(u, q) <==> InTable(t, q) || q == x.id
    {
      GainOne(t, u, x, q);
    }
  }

  lemma {:induction false} RemovedChange(cfg: Config, t: Table, p: Peer)
    requires Inv(cfg, t)
    ensures PeersChange(t, Remove(cfg, t, p), if InTable(t, p) then Some(p) else None, None)
  {
    hide All, InTable, Remove, Inv;
    RemoveAny(cfg, t, p);
  }

  lemma {:induction false} SwappedChange(cfg: Config, t: Table, x: PeerInfo, y: PeerInfo)
    requires Inv(cfg, t) && cfg.Knows(x) && !InTable(t, x.id)
    requires y in TargetBucket(cfg, t, x.id).list && |TargetBucket(cfg, t, x.id).list| >= 2
    ensures PeersChange(t, Insert(cfg, Remove(cfg, t, y.id), x), Some(y.id), Some(x.id))
  {
    hide All, Insert, InTable, Remove, Without, ShapeOk;
    SwapTarget(cfg, t, x.id, y);
    var r := Remove(cfg, t, y.id);
    RemoveInv(cfg, t, y);
    StillAbsent(t, r, x.id, y);
    assert InTable(t, y.id) by { InTableMember(t, y.id); }
    InsertKeeps(cfg, r, x);
    forall q
      ensures InTable(Insert(cfg, r, x), q) <==> (InTable(t, q) && q != y.id) || q == x.id
    {
      LoseOne(t, r, y, q);
      GainOne(r, Insert(cfg, r, x), x, q);
    }
  }

  lemma {:induction false} ChangeThrough(t: Table, u: Table, w: Table, gone: Option<Peer>, come: Option<Peer>)
    requires PeersChange(t, u, None, None) && PeersChange(u, w, gone, come)
    ensures PeersChange(t, w, gone, come)
  {
    hide InTable;
  }

  lemma {:induction false} PlaceChange(cfg: Config, t: Table, x: PeerInfo, v: Variant, tune: nat -> Tuning)
    requires Inv(cfg, t) && cfg.Knows(x) && !InTable(t, x.id)
    ensures IdsFit(cfg, t)
    ensures var pl := Place(cfg, t, x, v, tune);
            && Inv(cfg, pl.t)
            && PeersChange(t, pl.t, None, if pl.placed then Some(x.id) else None)
            && (!pl.placed ==> |TargetBucket(cfg, pl.t, x.id).list| >= 2)
  {
    hide All, InTable, Place, PeersChange;
    PlaceInv(cfg, t, x, v, tune);
    var pl := Place(cfg, t, x, v, tune);
    if pl.placed {
      PlacedChange(t, pl.t, x);
    } else {
      NobodyChanges(t, pl.t);
    }
  }

  lemma {:induction false} ReplaceChange(cfg: Config, t: Table, x: PeerInfo)
    requires Inv(cfg, t) && cfg.Knows(x) && !InTable(t, x.id)
    requires |TargetBucket(cfg, t, x.id).list| >= 2
    ensures var y := LastReplaceable(TargetBucket(cfg, t, x.id).list);
            var (u, o) := Replace(cfg, t, x);
            && Inv(cfg, u)
            && (y.Some? ==> o == Added && PeersChange(t, u, Some(y.value.id), Some(x.id)))
            && (y.None? ==> o == NoCapacity && PeersChange(t, u, None, None))
  {
    hide All, InTable, PeersChange, Insert, Remove;
    var y := LastReplaceable(TargetBucket(cfg, t, x.id).list);
    if y.Some? {
      SwapInv(cfg, t, x, y.value);
      SwappedChange(cfg, t, x, y.value);
    } else {
      NobodyChanges(t, t);
    }
  }
}
