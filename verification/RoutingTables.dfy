/**
 The routing table as the program keeps it: bucket objects updated in place, the diversity filter
 consulted on every add, and callbacks fired for peers that come and go.
 */
module RoutingTables {
  import opened Wrappers
  import opened Keyspace
  import opened Sorting
  import opened TableModel
  import opened TableProofs
  import opened TableSteps
  import opened KadRtt
  import opened Buckets
  import opened DiversityFilter
  import opened Bookkeeping
  import opened Outcomes

  /** The bucket objects are distinct and show the given table. */
  ghost predicate Shows(m: Table, bs: seq<Bucket>)
    reads bs
  {
    && |m| == |bs|
    && (forall i :: 0 <= i < |bs| ==> bs[i].State() == m[i])
    && (forall i, j :: 0 <= i < j < |bs| ==> bs[i] != bs[j])
  }

  lemma {:induction false} ShowsDrop(m: Table, bs: seq<Bucket>)
    requires Shows(m, bs) && |m| >= 2
    ensures Shows(m[..|m| - 1], bs[..|m| - 1])
    ensures Shows(m[..|m| - 2] + [m[|m| - 1]], bs[..|m| - 2] + [bs[|m| - 1]])
  {
  }

  /** Whoever's bucket was not empty before still finds the same bucket afterwards. */
  ghost predicate Keeps<T>(m0: Table, b0: seq<T>, m: Table, b: seq<T>)
  {
    && |m0| == |b0| >= 1 && |m| == |b| >= 1
    && forall c: nat :: m0[IndexFor(c, |m0|)].list != [] ==>
                          b[IndexFor(c, |b|)] == b0[IndexFor(c, |b0|)] && m[IndexFor(c, |m|)].list != []
  }

  lemma {:induction false} KeepsSelf<T>(m: Table, b: seq<T>)
    requires |m| == |b| >= 1
    ensures Keeps(m, b, m, b)
  {
  }

  lemma {:induction false} KeepsDrop<T>(m0: Table, b0: seq<T>, m: Table, b: seq<T>)
    requires Keeps(m0, b0, m, b) && |m| >= 2
    ensures m[|m| - 1].list == [] ==> Keeps(m0, b0, m[..|m| - 1], b[..|m| - 1])
    ensures m[|m| - 2].list == [] ==>
              Keeps(m0, b0, m[..|m| - 2] + [m[|m| - 1]], b[..|m| - 2] + [b[|m| - 1]])
  {
  }

  lemma {:induction false} NothingTrimmed(list: seq<PeerInfo>, k: int, score: Peer -> int)
    requires |list| <= k
    ensures Trimmed(list, k, score, list)
  {
  }

  lemma {:induction false} WithoutAllStart(list: seq<PeerInfo>, order: seq<Peer>)
    ensures WithoutAll(list, order[..0]) == list
  {
  }

  lemma {:induction false} WithoutAllStep(list: seq<PeerInfo>, order: seq<Peer>, j: nat)
    requires j < |order|
    ensures WithoutAll(list, order[..j + 1]) == Without(WithoutAll(list, order[..j]), order[j])
  {
    assert order[..j + 1][..j] == order[..j];
  }

  /** The books kept by an object, which has no filter keys to show if it has no filter. */
  ghost predicate Matches(filtered: bool, now: Books, b: Books)
  {
    now.t == b.t && now.events == b.events && (filtered ==> now.keys == b.keys)
  }

  class RoutingTable {
    const cfg: Config
    const df: Filter?
    /** The filter's own counters, named here for the frames below. */
    ghost const pgm: RtPeerIPGroupFilter?
    var buckets: seq<Bucket>
    var events: seq<Event>
    ghost var model: Table

    ghost predicate Linked()
      reads this, buckets
    {
      Shows(model, buckets)
    }

    ghost predicate FilterOk()
      reads df, pgm
    {
      df != null ==> pgm == df.pgm && df.Valid()
    }

    ghost predicate Valid()
      reads this, buckets, df, pgm
    {
      Linked() && Inv(cfg, model) && FilterOk()
    }

    constructor (cfg: Config, df: Filter?)
      requires cfg.Valid() && (df != null ==> df.Valid())
      ensures Valid() && fresh(buckets) && this.cfg == cfg && this.df == df
      ensures model == [FRESH_BUCKET] && events == [] && CallbacksAgree()
      ensures (df != null ==> df.peerGroups == map[]) ==> FilterAgrees() && Now() == OPENING
    {
      this.cfg, this.df := cfg, df;
      pgm := if df == null then null else df.pgm;
      var b := new Bucket();
      buckets, events := [b], [];
      model := [FRESH_BUCKET];
      FreshInv(cfg);
      OpeningAgrees(if df == null then {} else df.wlpeers);
    }

    /** The table, the notifications sent and the peers the filter tracks. */
    ghost function Now(): Books
      reads this, df
    {
      Books(model, events, FilterKeys())
    }

    ghost predicate Records(b: Books)
      reads this, df
    {
      Matches(df != null, Now(), b)
    }

    method BucketIdForPeer(p: Peer) returns (i: nat)
      requires Linked() && Inv(cfg, model)
      ensures |buckets| == |model| && i == IndexFor(cfg.Cpl(p), |model|)
    {
      var cpl := CommonPrefixLen(cfg.hash(p), cfg.local);
      i := cpl;
      if i >= |buckets| {
        i := |buckets| - 1;
      }
    }

    /** Drop one empty bucket at the end of the table, if there is one. `m0` and `b0` are the table this
        one is being collapsed from. */
    method CollapseOnce(ghost m0: Table, ghost b0: seq<Bucket>) returns (more: bool)
      requires Linked() && |model| >= 1
      requires Keeps(m0, b0, model, buckets) && forall b :: b in buckets ==> b in b0
      modifies this`buckets, this`model
      ensures Linked() && |model| >= 1
      ensures Keeps(m0, b0, model, buckets) && forall b :: b in buckets ==> b in b0
      ensures Collapse(model) == Collapse(old(model))
      ensures if more then |buckets| < |old(buckets)| else Collapse(model) == model
    {
      hide Keeps;
      var last := |buckets| - 1;
      more := true;
      if |buckets| > 1 {
        KeepsDrop(m0, b0, model, buckets);
        ShowsDrop(model, buckets);
      }
      if |buckets| > 1 && |buckets[last].list| == 0 {
        buckets, model := buckets[..last], model[..last];
      } else if |buckets| >= 2 && |buckets[last - 1].list| == 0 {
        buckets, model := buckets[..last - 1] + [buckets[last]], model[..last - 1] + [model[last]];
      } else {
        more := false;
      }
    }

    /** Drop empty buckets at the end of the table. */
    method CollapseBuckets()
      requires Linked() && |model| >= 1
      modifies this`buckets, this`model
      ensures Linked() && model == Collapse(old(model))
      ensures Keeps(old(model), old(buckets), model, buckets) && forall b :: b in buckets ==> b in old(buckets)
    {
      KeepsSelf(model, buckets);
      hide Keeps, Collapse;
      var more := true;
      while more
        invariant Linked() && |model| >= 1
        invariant Keeps(old(model), old(buckets), model, buckets) && forall b :: b in buckets ==> b in old(buckets)
        invariant Collapse(model) == Collapse(old(model))
        invariant !more ==> Collapse(model) == model
        decreases more, |buckets|
      {
        more := CollapseOnce(old(model), old(buckets));
      }
    }

    // -------------------------------------------------------------- one bucket in place

    /** Push into a bucket object that is the table's `i`-th one. */
    method PushInto(bucket: Bucket, ghost i: nat, x: PeerInfo)
      requires Linked() && i < |buckets| && buckets[i] == bucket
      modifies bucket, this`model
      ensures Linked() && model == PushFront(old(model), i, x)
    {
      bucket.PushFront(x);
      model := PushFront(model, i, x);
    }

    method RemoveAt(i: nat, p: Peer) returns (ok: bool)
      requires Linked() && i < |buckets|
      modifies buckets[i], this`model
      ensures Linked() && model == old(model)[i := old(model)[i].(list := Without(old(model)[i].list, p))]
      ensures ok <==> Holds(old(model)[i].list, p)
    {
      ok := buckets[i].Remove(p);
      model := model[i := model[i].(list := Without(model[i].list, p))];
    }

    /** The clamps of the tuning step, with the formulas' results given. */
    method SetOptValues(i: nat, raw: Tuning)
      requires Linked() && i < |buckets|
      modifies buckets[i], this`model
      ensures Linked() && model == old(model)[i := Tune(old(model)[i], raw, cfg.bucketsize)]
    {
      var b := buckets[i];
      var k := raw.k;
      if k < 2 { k := 2; }
      if k < cfg.bucketsize { k := cfg.bucketsize; }
      b.k := k;
      var beta := Min(k, cfg.bucketsize);
      if beta < 1 { beta := k; }
      b.beta := Min(k, beta);
      var alpha := raw.alpha;
      if alpha > cfg.bucketsize { alpha := cfg.bucketsize; }
      b.alpha := Max(2, alpha);
      model := model[i := Tune(model[i], raw, cfg.bucketsize)];
    }

    // -------------------------------------------------------------- removing a peer

    /** Take a peer out of its bucket and collapse the table. The bucket of any peer that is not left
        empty stays where that peer is looked up, even if the table shrinks. */
    method RemoveFromBuckets(p: Peer) returns (ok: bool)
      requires Linked() && Inv(cfg, model)
      modifies this`buckets, this`model, buckets
      ensures Linked() && model == Remove(cfg, old(model), p)
      ensures ok <==> InTable(old(model), p)
      ensures forall b :: b in buckets ==> b in old(buckets)
      ensures forall c: nat ::
                |Without(old(model)[IndexFor(c, |old(model)|)].list, p)| > 0 ==>
                  buckets[IndexFor(c, |buckets|)] == old(buckets)[IndexFor(c, |old(buckets)|)]
    {
      HoldsIffInTable(cfg, model, p);
      RemoveDef(cfg, model, p);
      hide Inv, Collapse, Without, InTable, Holds;
      var i := BucketIdForPeer(p);
      ok := RemoveAt(i, p);
      if ok {
        CollapseBuckets();
      }
    }

    method FilterRemove(p: Peer)
      requires FilterOk()
      modifies df, pgm
      ensures FilterOk()
      ensures df != null ==> df.peerGroups.Keys == old(df.peerGroups.Keys) - {p} && df.wlpeers == old(df.wlpeers)
    {
      if df != null {
        df.Remove(p);
      }
    }

    // -------------------------------------------------------------- unfolding

    method SplitAt(i: nat, cpl: nat) returns (out: Bucket)
      requires Linked() && i < |buckets| && forall x :: x in model[i].list ==> |x.dhtId| == |cfg.local|
      modifies buckets[i], this`model
      ensures Linked() && fresh(out)
      ensures model == old(model)[i := old(model)[i].(list := Pick(cfg, old(model)[i].list, cpl, false))]
      ensures out.State() == FRESH_BUCKET.(list := Pick(cfg, old(model)[i].list, cpl, true))
    {
      hide Pick, CommonPrefixLen;
      out := buckets[i].Split(cfg, cpl);
      model := model[i := model[i].(list := buckets[i].list)];
    }

    method AppendBucket(b: Bucket)
      requires Linked() && b !in buckets
      modifies this`buckets, this`model
      ensures Linked() && buckets == old(buckets) + [b] && model == old(model) + [b.State()]
    {
      buckets, model := buckets + [b], model + [b.State()];
    }

    /** One round of `nextBucket`: tune a lone first bucket, split the last bucket, append the new one
        and tune it under KadRTT. */
    method SplitLast(tune: nat -> Tuning)
      requires Linked() && |model| >= 1 && IdsFit(cfg, model)
      modifies this`buckets, this`model, buckets
      ensures Linked() && model == UnfoldOnce(cfg, old(model), tune)
      ensures |buckets| == |old(buckets)| + 1 && fresh(buckets[|old(buckets)|])
      ensures forall i :: 0 <= i < |old(buckets)| ==> buckets[i] == old(buckets)[i]
    {
      hide Pick, CommonPrefixLen, TunedK;
      var last := |buckets| - 1;
      if last == 0 {
        SetOptValues(0, tune(0));
      }
      var out := SplitAt(last, last);
      AppendBucket(out);
      if cfg.kadRtt {
        SetOptValues(last + 1, tune(last + 1));
      }
      assert model == UnfoldOnce(cfg, old(model), tune);
    }

    /** `nextBucket`: keep unfolding while the new last bucket is not below the threshold. */
    method NextBucket(tune: nat -> Tuning)
      requires Linked() && |model| >= 1 && IdsFit(cfg, model) && cfg.bucketsize >= 1
      modifies this`buckets, this`model, buckets
      ensures Linked() && model == Unfold(cfg, old(model), tune)
      ensures |buckets| >= |old(buckets)|
      ensures forall i :: 0 <= i < |old(buckets)| ==> buckets[i] == old(buckets)[i]
      ensures forall i :: |old(buckets)| <= i < |buckets| ==> fresh(buckets[i])
      decreases cfg.Bits() + 1 - |buckets|
    {
      UnfoldDef(cfg, model, tune);
      hide UnfoldOnce, Unfold, IdsFit;
      SplitLast(tune);
      if |buckets[|buckets| - 1].list| >= UnfoldThreshold(cfg) {
        NextBucket(tune);
      }
    }

    // -------------------------------------------------------------- adding a peer

    method HasRoom(i: nat, tuned: bool) returns (room: bool)
      requires Linked() && i < |buckets|
      ensures room <==> |model[i].list| < Capacity(cfg, model[i], tuned)
    {
      var cap := if cfg.kadRtt && tuned then buckets[i].k else cfg.bucketsize;
      room := |buckets[i].list| < cap;
    }

    /** Put the entry where there is room, unfolding the last bucket if it is full. */
    method PlacePeer(x: PeerInfo, v: Variant, tune: nat -> Tuning) returns (placed: bool)
      requires Linked() && Inv(cfg, model) && IdsFit(cfg, model)
      modifies this`buckets, this`model, buckets
      ensures Linked() && Placement(model, placed) == Place(cfg, old(model), x, v, tune)
      ensures forall b :: b in buckets ==> b in old(buckets) || fresh(b)
    {
      hide Unfold, IdsFit, BucketOk, BucketPlaced, CommonPrefixLen;
      var i := BucketIdForPeer(x.id);
      placed := HasRoom(i, v.tunedFirst);
      if placed {
        PushInto(buckets[i], i, x);
      } else if i == |buckets| - 1 {
        NextBucket(tune);
        i := IndexFor(CommonPrefixLen(cfg.hash(x.id), cfg.local), |buckets|);
        placed := HasRoom(i, v.tunedAfterUnfold);
        if placed {
          PushInto(buckets[i], i, x);
        }
      }
    }

    /** Remove `y` from the bucket of `x` and push `x` into that same bucket object, which was looked up
        before the removal could shrink the table. */
    method Swap(y: PeerInfo, x: PeerInfo)
      requires Linked() && Inv(cfg, model)
      requires y in TargetBucket(cfg, model, x.id).list && |TargetBucket(cfg, model, x.id).list| >= 2
      modifies this`buckets, this`model, buckets
      ensures Linked() && model == Insert(cfg, Remove(cfg, old(model), y.id), x)
      ensures forall b :: b in buckets ==> b in old(buckets)
    {
      hide Remove, Without, Partition, ShapeOk;
      var i := BucketIdForPeer(x.id);
      var bucket := buckets[i];
      SwapTarget(cfg, model, x.id, y);
      var ok := RemoveFromBuckets(y.id);
      PushInto(bucket, IndexFor(cfg.Cpl(x.id), |buckets|), x);
    }

    /** Evict the last replaceable entry from the full bucket of `x`, if there is one, for `x`. */
    method EvictFor(x: PeerInfo) returns (victim: Option<Peer>)
      requires Linked() && Inv(cfg, model)
      requires |TargetBucket(cfg, model, x.id).list| >= 2
      modifies this`buckets, this`model, buckets
      ensures Linked()
      ensures (model, if victim.Some? then Added else NoCapacity) == Replace(cfg, old(model), x)
      ensures victim == var y := LastReplaceable(TargetBucket(cfg, old(model), x.id).list);
                        if y.Some? then Some(y.value.id) else None
      ensures forall b :: b in buckets ==> b in old(buckets)
    {
      hide Remove, Insert, LastReplaceable, MinOf, Partition, ShapeOk;
      var i := BucketIdForPeer(x.id);
      var y := buckets[i].Min(FirstReplaceable());
      MinIsLastReplaceable(model[i].list);
      victim := None;
      if y.Some? && y.value.isReplaceable {
        Swap(y.value, x);
        victim := Some(y.value.id);
      }
    }

    method BumpAt(i: nat, p: Peer, at: Option<int>)
      requires Linked() && i < |buckets| && DistinctIds(model[i].list)
      modifies buckets[i], this`model
      ensures Linked() && model == old(model)[i := old(model)[i].(list := Bump(old(model)[i].list, p, at))]
    {
      hide Bump;
      buckets[i].BumpPeer(p, at);
      model := model[i := model[i].(list := Bump(model[i].list, p, at))];
    }

    /** Whether the diversity filter, if there is one, lets the peer in. */
    ghost predicate Admitted(p: Peer, addrs: seq<Address>)
      reads df, pgm
      requires FilterOk()
    {
      df != null ==> p in df.wlpeers
                     || Admits(df.pgm.Model(), df.pgm.maxForTable, df.pgm.maxPerCpl, p, df.cplFnc(p), addrs)
    }

    method FilterTryAdd(p: Peer, addrs: seq<Address>) returns (ok: bool)
      requires FilterOk()
      modifies df, pgm
      ensures FilterOk()
      ensures ok <==> old(Admitted(p, addrs))
      ensures Whitelist() == old(Whitelist())
      ensures df != null ==>
                FilterKeys() == if ok && p !in Whitelist() then old(FilterKeys()) + {p} else old(FilterKeys())
    {
      ok := true;
      if df != null {
        ok := df.TryAdd(p, addrs);
      }
    }

    // -------------------------------------------------------------- agreement with filter and callbacks

    /** A peer is in the table exactly if one more addition than removal was announced for it. */
    ghost predicate CallbacksAgree()
      reads this
    {
      AgreeEvents(events, model)
    }

    /** The filter tracks exactly the table's peers that are not whitelisted. */
    ghost predicate FilterAgrees()
      reads this, df
    {
      df != null ==> AgreeKeys(df.peerGroups.Keys, df.wlpeers, model)
    }

    /** Call the notification functions. */
    method Announce(gone: Option<Peer>, come: Option<Peer>)
      modifies this`events
      ensures events == old(events) + Announced(gone, come)
    {
      if gone.Some? {
        events := events + [PeerRemoved(gone.value)];
      }
      if come.Some? {
        events := events + [PeerAdded(come.value)];
      }
    }

    /** `removePeer`. */
    method RemovePeer(p: Peer) returns (ok: bool)
      requires Valid()
      modifies this, buckets, df, pgm
      ensures Valid() && forall b :: b in buckets ==> b in old(buckets)
      ensures model == Remove(cfg, old(model), p) && (ok <==> InTable(old(model), p))
      ensures Whitelist() == old(Whitelist()) && Records(RemoveBooks(cfg, Whitelist(), old(Now()), p))
      ensures old(CallbacksAgree()) ==> CallbacksAgree()
      ensures old(FilterAgrees()) ==> FilterAgrees()
    {
      hide Inv, InTable, Remove, AgreeEvents, AgreeKeys, Shows, Announced, Holds;
      HoldsIffInTable(cfg, model, p);
      RemoveAgrees(cfg, Whitelist(), Now(), p);
      ok := RemoveFromBuckets(p);
      if ok {
        FilterRemove(p);
      }
      Announce(if ok then Some(p) else None, None);
      assert Shows(model, buckets);
    }

    /** Find room for the entry, by eviction if need be; `gone` is the evicted peer. */
    method PlaceOrEvictPeer(x: PeerInfo, v: Variant, tune: nat -> Tuning) returns (ok: bool, gone: Option<Peer>)
      requires Linked() && Inv(cfg, model) && IdsFit(cfg, model)
      requires cfg.Knows(x) && !InTable(model, x.id)
      modifies this`buckets, this`model, buckets
      ensures Linked() && Inv(cfg, model)
      ensures (model, if ok then Added else NoCapacity) == PlaceOrEvict(cfg, old(model), x, v, tune)
      ensures gone == Evicted(cfg, old(model), x, v, tune)
      ensures forall b :: b in buckets ==> b in old(buckets) || fresh(b)
    {
      hide Place, Replace, InTable, IdsFit, PeersChange, LastReplaceable, ShapeOk, BucketPlaced;
      gone := None;
      PlaceChange(cfg, model, x, v, tune);
      EvictedChange(cfg, model, x, v, tune);
      ok := PlacePeer(x, v, tune);
      if !ok {
        assert forall i :: 0 <= i < |buckets| ==> buckets[i] in old(buckets) || fresh(buckets[i]);
        gone := EvictFor(x);
        ok := gone.Some?;
      }
    }

    ghost function FilterKeys(): set<Peer>
      reads df
    {
      if df == null then {} else df.peerGroups.Keys
    }

    ghost function Whitelist(): set<Peer>
      reads df
    {
      if df == null then {} else df.wlpeers
    }

    /** The filter calls at the end of an add. */
    method FilterSettle(p: Peer, gone: Option<Peer>, ok: bool)
      requires FilterOk()
      modifies df, pgm
      ensures FilterOk() && Whitelist() == old(Whitelist())
      ensures df != null ==>
                FilterKeys() == var k := if gone.Some? then old(FilterKeys()) - {gone.value} else old(FilterKeys());
                                if ok then k else k - {p}
    {
      if gone.Some? {
        FilterRemove(gone.value);
      }
      if !ok {
        FilterRemove(p);
      }
    }

    /** The part of an add after all checks, the peer having been tracked by the filter. */
    method PlaceAdmitted(x: PeerInfo, v: Variant, tune: nat -> Tuning) returns (o: AddOutcome, ghost gone: Option<Peer>)
      requires Valid() && IdsFit(cfg, model) && cfg.Knows(x) && !InTable(model, x.id)
      modifies this, buckets, df, pgm
      ensures Valid() && forall b :: b in buckets ==> b in old(buckets) || fresh(b)
      ensures (model, o) == PlaceOrEvict(cfg, old(model), x, v, tune) && (o == Added || o == NoCapacity)
      ensures gone == Evicted(cfg, old(model), x, v, tune)
      ensures events == old(events) + Announced(gone, SomeIf(o == Added, x.id))
      ensures Whitelist() == old(Whitelist())
      ensures df != null ==>
                FilterKeys() == var k := if gone.Some? then old(FilterKeys()) - {gone.value} else old(FilterKeys());
                                if o == Added then k else k - {x.id}
    {
      hide InTable, IdsFit, Shows, PlaceOrEvict, Evicted, Announced, Inv, Admits;
      var ok, g := PlaceOrEvictPeer(x, v, tune);
      gone := g;
      FilterSettle(x.id, g, ok);
      assert Shows(model, buckets);
      Announce(g, SomeIf(ok, x.id));
      assert Shows(model, buckets);
      o := if ok then Added else NoCapacity;
    }

    /** The part of an add after the presence and latency checks. */
    method AdmitAndPlace(x: PeerInfo, v: Variant, addrs: seq<Address>, tune: nat -> Tuning,
                         ghost b: Books, ghost wl: set<Peer>, ghost admitted: bool)
      returns (o: AddOutcome)
      requires Valid() && IdsFit(cfg, b.t) && cfg.Knows(x) && !InTable(b.t, x.id)
      requires Now() == b && Whitelist() == wl && (Admitted(x.id, addrs) <==> admitted)
      modifies this, buckets, df, pgm
      ensures Valid() && forall b :: b in buckets ==> b in old(buckets) || fresh(b)
      ensures Whitelist() == wl && Records(if admitted then PlaceBooks(cfg, wl, b, x, v, tune).0 else b)
      ensures o == if admitted then PlaceBooks(cfg, wl, b, x, v, tune).1 else Filtered
    {
      hide InTable, IdsFit, Shows, PlaceOrEvict, Evicted, Announced, Inv, Admits;
      o := Filtered;
      var ok := FilterTryAdd(x.id, addrs);
      assert Shows(model, buckets);
      if ok {
        ghost var gone;
        o, gone := PlaceAdmitted(x, v, tune);
      }
    }

    /** `addPeer` (`ADD1`) and `addPeer2` (`ADD2`) of an entry whose peer passes the latency check or not
        as given. Whatever the outcome, callbacks and filter stay in step with the table. */
    method AddPeer(x: PeerInfo, v: Variant, latencyOk: bool, addrs: seq<Address>, tune: nat -> Tuning)
      returns (o: AddOutcome)
      requires Valid() && cfg.Knows(x)
      modifies this, buckets, df, pgm
      ensures Valid() && forall b :: b in buckets ==> b in old(buckets) || fresh(b)
      ensures IdsFit(cfg, old(model)) && Whitelist() == old(Whitelist())
      ensures (model, o) == TableModel.AddPeer(cfg, old(model), x, v, latencyOk, old(Admitted(x.id, addrs)), tune)
      ensures Records(AddBooks(cfg, Whitelist(), old(Now()), x, v, latencyOk, old(Admitted(x.id, addrs)), tune).0)
      ensures !v.tunedFirst ==> AddedExactly(cfg, old(model), x, v, latencyOk, old(Admitted(x.id, addrs)), tune, model, o)
      ensures old(CallbacksAgree()) ==> CallbacksAgree()
      ensures old(FilterAgrees()) ==> FilterAgrees()
    {
      hide InTable, IdsFit, Shows, AgreeEvents, AgreeKeys, AddBooks, TableModel.AddPeer, Admits, Inv, Admitted, AddedExactly;
      ghost var admitted := Admitted(x.id, addrs);
      AddAgrees(cfg, Whitelist(), Now(), x, v, latencyOk, admitted, tune);
      if !v.tunedFirst {
        AddOutcomes(cfg, model, x, v, latencyOk, admitted, tune);
      }
      o := AddChecked(x, v, latencyOk, addrs, tune, Now(), Whitelist(), admitted);
    }

    /** The add itself, with its checks, from the books `b`. */
    method AddChecked(x: PeerInfo, v: Variant, latencyOk: bool, addrs: seq<Address>, tune: nat -> Tuning,
                      ghost b: Books, ghost wl: set<Peer>, ghost admitted: bool)
      returns (o: AddOutcome)
      requires Valid() && cfg.Knows(x) && IdsFit(cfg, b.t)
      requires Now() == b && Whitelist() == wl && (Admitted(x.id, addrs) <==> admitted)
      modifies this, buckets, df, pgm
      ensures Valid() && forall b :: b in buckets ==> b in old(buckets) || fresh(b)
      ensures Whitelist() == wl && Records(AddBooks(cfg, wl, b, x, v, latencyOk, admitted, tune).0)
      ensures o == AddBooks(cfg, wl, b, x, v, latencyOk, admitted, tune).1
    {
      hide Holds, InTable, IdsFit, Shows, BumpBooks, PlaceBooks, Admits, Inv;
      AddStart(cfg, model, x);
      var i := BucketIdForPeer(x.id);
      var present := PresentAt(i, x.id);
      if present {
        RefreshPresent(x);
        o := Present;
      } else if !latencyOk {
        o := HighLatency;
      } else {
        o := AdmitAndPlace(x, v, addrs, tune, b, wl, admitted);
      }
    }

    /** An add of a peer that is already there. */
    method RefreshPresent(x: PeerInfo)
      requires Valid()
      modifies this`model, buckets
      ensures Valid() && Now() == BumpBooks(cfg, old(Now()), x)
    {
      hide Shows, Bump, Inv;
      BumpInv(cfg, model, x.id, x.lastUsefulAt);
      BumpDistinct(cfg, model, x.id);
      var i := BucketIdForPeer(x.id);
      BumpAt(i, x.id, x.lastUsefulAt);
    }

    method PresentAt(i: nat, p: Peer) returns (present: bool)
      requires Linked() && i < |buckets| == |model|
      ensures present <==> Holds(model[i].list, p)
    {
      hide Holds;
      var r := buckets[i].GetPeer(p);
      present := r.Some?;
    }

    /** `MarkAllPeersIrreplaceable`. */
    method MarkAllPeersIrreplaceable()
      requires Valid()
      modifies this`model, buckets
      ensures Valid() && model == FreezeAll(old(model)) && Now() == FreezeBooks(old(Now()))
      ensures old(CallbacksAgree()) ==> CallbacksAgree()
      ensures old(FilterAgrees()) ==> FilterAgrees()
    {
      hide Inv, AgreeEvents, AgreeKeys, Frozen;
      FreezeInv(cfg, model);
      ghost var t := model;
      for n := 0 to |buckets|
        invariant Linked() && |model| == |t|
        invariant forall i :: 0 <= i < n ==> model[i] == t[i].(list := Frozen(t[i].list))
        invariant forall i :: n <= i < |t| ==> model[i] == t[i]
      {
        buckets[n].Freeze();
        model := model[n := model[n].(list := Frozen(model[n].list))];
      }
      assert model == FreezeAll(t);
      AgreeSame(events, FilterKeys(), Whitelist(), t, model);
    }

    // -------------------------------------------------------------- adding a peer under KadRTT

    /** Drop the highest-scoring entries of a bucket that exceeds its size, straight from the bucket. */
    method TrimAt(i: nat, score: Peer -> int) returns (ghost kept: seq<PeerInfo>)
      requires Linked() && i < |model| == |buckets| && DistinctIds(model[i].list) && model[i].k >= 0
      modifies buckets[i], this`model
      ensures Linked() && model == old(model)[i := old(model)[i].(list := kept)]
      ensures Trimmed(old(model)[i].list, old(model)[i].k, score, kept)
    {
      hide Trimmed, WithoutAll, IsSortOf, DistinctIds, Without, Holds;
      ghost var list := model[i].list;
      kept := list;
      var n := |buckets[i].list| - buckets[i].k;
      if n <= 0 {
        NothingTrimmed(list, model[i].k, score);
        return;
      }
      var order := SortByKey(Ids(buckets[i].list), HighestFirst(score));
      TrimOrder(list, order, n, score);
      WithoutAllStart(list, order);
      for j := 0 to n
        invariant Linked() && kept == WithoutAll(list, order[..j])
        invariant model == old(model)[i := old(model)[i].(list := kept)]
      {
        WithoutAllStep(list, order, j);
        var ok := RemoveAt(i, order[j]);
        kept := Without(kept, order[j]);
      }
    }

    method RetuneAndTrim(p: Peer, raw: Tuning, score: Peer -> int) returns (ghost kept: seq<PeerInfo>)
      requires Linked() && Inv(cfg, model)
      modifies this`model, buckets
      ensures Linked() && model == Retuned(cfg, old(model), p, raw, kept) && Inv(cfg, model)
      ensures Trimmed(TargetBucket(cfg, old(model), p).list, TunedK(raw, cfg.bucketsize), score, kept)
    {
      BumpDistinct(cfg, model, p);
      hide Trimmed, DistinctIds;
      var i := BucketIdForPeer(p);
      SetOptValues(i, raw);
      kept := TrimAt(i, score);
      RetunedInv(cfg, old(model), p, raw, score, kept);
    }

    /** `calcIDVarianceByCPL`: exchange a slower replaceable peer of the full bucket for the newcomer. */
    method ExchangeFor(x: PeerInfo, latency: Peer -> int) returns (gone: Option<Peer>)
      requires Linked() && Inv(cfg, model) && cfg.Knows(x) && !InTable(model, x.id)
      requires |TargetBucket(cfg, model, x.id).list| >= 2
      modifies this`buckets, this`model, buckets
      ensures Linked() && (model, gone) == Exchange(cfg, old(model), x, latency)
      ensures forall b :: b in buckets ==> b in old(buckets)
    {
      hide Remove, Insert, Victim, InjectiveOn, InTable, Partition, ShapeOk;
      KeysDiffer(cfg, model, x);
      VictimInBucket(TargetBucket(cfg, model, x.id).list, x, latency);
      var i := BucketIdForPeer(x.id);
      var v := ChooseVictim(buckets[i].list, x, latency);
      gone := None;
      if v.Some? && v.value.isReplaceable {
        Swap(v.value, Incoming(x));
        gone := Some(v.value.id);
      }
    }

    /** Find room for the entry, under KadRTT by exchange if need be; `gone` is the peer that had to leave. */
    method PlaceOrExchangePeer(x: PeerInfo, tune: nat -> Tuning, latency: Peer -> int)
      returns (o: AddOutcome, gone: Option<Peer>)
      requires Linked() && Inv(cfg, model) && IdsFit(cfg, model)
      requires cfg.Knows(x) && !InTable(model, x.id)
      modifies this`buckets, this`model, buckets
      ensures Linked() && Inv(cfg, model)
      ensures (model, o) == PlaceOrExchange(cfg, old(model), x, tune, latency)
      ensures gone == Ousted(cfg, old(model), x, tune, latency)
      ensures forall b :: b in buckets ==> b in old(buckets) || fresh(b)
    {
      hide Place, Replace, Exchange, InTable, IdsFit, PeersChange, LastReplaceable, ShapeOk, BucketPlaced;
      gone, o := None, Added;
      PlaceChange(cfg, model, x, ADD_KADRTT, tune);
      OustedChange(cfg, model, x, tune, latency);
      var ok := PlacePeer(x, ADD_KADRTT, tune);
      if !ok {
        AbsentStays(old(model), model, x.id);
        assert forall i :: 0 <= i < |buckets| ==> buckets[i] in old(buckets) || fresh(buckets[i]);
        if cfg.kadRtt {
          gone := ExchangeFor(x, latency);
          o := NoCapacity;
        } else {
          gone := EvictFor(x);
          o := if gone.Some? then Added else NoCapacity;
        }
      }
    }

    /** The part of a KadRTT add after all checks, the peer having been tracked by the filter. */
    method ExchangeAdmitted(x: PeerInfo, tune: nat -> Tuning, latency: Peer -> int)
      returns (o: AddOutcome, ghost gone: Option<Peer>)
      requires Valid() && IdsFit(cfg, model) && cfg.Knows(x) && !InTable(model, x.id)
      modifies this, buckets, df, pgm
      ensures Valid() && forall b :: b in buckets ==> b in old(buckets) || fresh(b)
      ensures (model, o) == PlaceOrExchange(cfg, old(model), x, tune, latency)
      ensures gone == Ousted(cfg, old(model), x, tune, latency)
      ensures events == old(events) + Announced(gone, SomeIf(o == Added || gone.Some?, x.id))
      ensures Whitelist() == old(Whitelist())
      ensures df != null ==>
                FilterKeys() == var k := if gone.Some? then old(FilterKeys()) - {gone.value} else old(FilterKeys());
                                if o == Added then k else k - {x.id}
    {
      hide InTable, IdsFit, Shows, PlaceOrExchange, Ousted, Announced, Inv, Admits;
      var g;
      o, g := PlaceOrExchangePeer(x, tune, latency);
      gone := g;
      FilterSettle(x.id, g, o == Added);
      assert Shows(model, buckets);
      Announce(g, SomeIf(o == Added || g.Some?, x.id));
      assert Shows(model, buckets);
    }

    /** The part of a KadRTT add after the presence and latency checks. The filter forgets the newcomer
        whenever no capacity is reported, also after an exchange has put it into the table. */
    method AdmitAndExchange(x: PeerInfo, addrs: seq<Address>, tune: nat -> Tuning, latency: Peer -> int,
                            ghost b: Books, ghost wl: set<Peer>, ghost admitted: bool)
      returns (o: AddOutcome)
      requires Valid() && IdsFit(cfg, b.t) && cfg.Knows(x) && !InTable(b.t, x.id)
      requires Now() == b && Whitelist() == wl && (Admitted(x.id, addrs) <==> admitted)
      modifies this, buckets, df, pgm
      ensures Valid() && forall b :: b in buckets ==> b in old(buckets) || fresh(b)
      ensures Whitelist() == wl && Records(if admitted then ExchangeBooks(cfg, wl, b, x, tune, latency).0 else b)
      ensures o == if admitted then ExchangeBooks(cfg, wl, b, x, tune, latency).1 else Filtered
      ensures old(CallbacksAgree()) ==> CallbacksAgree()
      ensures var exchanged := o == NoCapacity && Ousted(cfg, b.t, x, tune, latency).Some?;
              && (exchanged ==> InTable(model, x.id) && (df != null ==> x.id !in FilterKeys()))
              && (df != null && old(FilterAgrees()) ==> (FilterAgrees() <==> (exchanged ==> x.id in wl)))
    {
      hide InTable, IdsFit, Shows, ExchangeBooks, Ousted, Inv, Admits, AgreeEvents, AgreeKeys, Admitted;
      ExchangeAgreesIff(cfg, wl, b, x, tune, latency);
      o := TryExchange(x, addrs, tune, latency, b, wl, admitted);
    }

    method TryExchange(x: PeerInfo, addrs: seq<Address>, tune: nat -> Tuning, latency: Peer -> int,
                       ghost b: Books, ghost wl: set<Peer>, ghost admitted: bool)
      returns (o: AddOutcome)
      requires Valid() && IdsFit(cfg, b.t) && cfg.Knows(x) && !InTable(b.t, x.id)
      requires Now() == b && Whitelist() == wl && (Admitted(x.id, addrs) <==> admitted)
      modifies this, buckets, df, pgm
      ensures Valid() && forall b :: b in buckets ==> b in old(buckets) || fresh(b)
      ensures Whitelist() == wl && Records(if admitted then ExchangeBooks(cfg, wl, b, x, tune, latency).0 else b)
      ensures o == if admitted then ExchangeBooks(cfg, wl, b, x, tune, latency).1 else Filtered
    {
      hide InTable, IdsFit, Shows, PlaceOrExchange, Ousted, Announced, Inv, Admits;
      o := Filtered;
      var ok := FilterTryAdd(x.id, addrs);
      assert Shows(model, buckets);
      if ok {
        ghost var gone;
        o, gone := ExchangeAdmitted(x, tune, latency);
      }
    }

    /** The KadRTT add itself. With the re-tuning interval never set, every call re-tunes and trims first. */
    method RetuneAndAdd(x: PeerInfo, latencyOk: bool, addrs: seq<Address>, raw: Tuning, tune: nat -> Tuning,
                        score: Peer -> int, latency: Peer -> int)
      returns (o: AddOutcome, ghost kept: seq<PeerInfo>)
      requires Valid() && cfg.Knows(x)
      modifies this, buckets, df, pgm
      ensures Valid() && forall b :: b in buckets ==> b in old(buckets) || fresh(b)
      ensures Whitelist() == old(Whitelist())
      ensures Trimmed(TargetBucket(cfg, old(model), x.id).list, TunedK(raw, cfg.bucketsize), score, kept)
      ensures var b := TrimBooks(cfg, old(Now()), x.id, raw, kept);
              && IdsFit(cfg, b.t)
              && Records(RetunedBooks(cfg, Whitelist(), b, x, latencyOk, old(Admitted(x.id, addrs)), tune, latency).0)
              && o == RetunedBooks(cfg, Whitelist(), b, x, latencyOk, old(Admitted(x.id, addrs)), tune, latency).1
    {
      hide Holds, InTable, IdsFit, Shows, BumpBooks, ExchangeBooks, Admits, Inv, Trimmed, Retuned;
      ghost var wl, admitted := Whitelist(), Admitted(x.id, addrs);
      kept := RetuneAndTrim(x.id, raw, score);
      ghost var b := Now();
      AddStart(cfg, model, x);
      var i := BucketIdForPeer(x.id);
      var present := PresentAt(i, x.id);
      if present {
        RefreshPresent(x);
        o := Present;
      } else if !latencyOk {
        o := HighLatency;
      } else {
        o := AdmitAndExchange(x, addrs, tune, latency, b, wl, admitted);
      }
    }

    /** `addPeerKadRTT`. Callbacks agree afterwards exactly if nobody was trimmed, and the filter exactly if it
        survives. */
    method AddPeerKadRtt(x: PeerInfo, latencyOk: bool, addrs: seq<Address>, raw: Tuning, tune: nat -> Tuning,
                         score: Peer -> int, latency: Peer -> int)
      returns (o: AddOutcome, ghost kept: seq<PeerInfo>)
      requires Valid() && cfg.Knows(x)
      modifies this, buckets, df, pgm
      ensures Valid() && forall b :: b in buckets ==> b in old(buckets) || fresh(b)
      ensures Whitelist() == old(Whitelist())
      ensures Trimmed(TargetBucket(cfg, old(model), x.id).list, TunedK(raw, cfg.bucketsize), score, kept)
      ensures var b := TrimBooks(cfg, old(Now()), x.id, raw, kept);
              && IdsFit(cfg, b.t)
              && Records(RetunedBooks(cfg, Whitelist(), b, x, latencyOk, old(Admitted(x.id, addrs)), tune, latency).0)
              && o == RetunedBooks(cfg, Whitelist(), b, x, latencyOk, old(Admitted(x.id, addrs)), tune, latency).1
      ensures KadAddedExactly(cfg, Retuned(cfg, old(model), x.id, raw, kept), x, latencyOk, old(Admitted(x.id, addrs)), tune,
                              latency, model, o)
      ensures old(CallbacksAgree()) ==>
                (CallbacksAgree() <==> |TargetBucket(cfg, old(model), x.id).list| <= TunedK(raw, cfg.bucketsize))
      ensures df != null && old(FilterAgrees()) ==>
                (FilterAgrees()
                 <==> FilterSurvives(Whitelist(), TargetBucket(cfg, old(model), x.id).list, kept, x.id, o,
                                     Ousted(cfg, Retuned(cfg, old(model), x.id, raw, kept), x, tune, latency).Some?))
    {
      hide InTable, IdsFit, Shows, AgreeEvents, AgreeKeys, RetunedBooks, Admits, Inv, Trimmed, FilterSurvives, Ousted, Retuned,
        Admitted, KadAddedExactly;
      ghost var b, admitted := Now(), Admitted(x.id, addrs);
      o, kept := RetuneAndAdd(x, latencyOk, addrs, raw, tune, score, latency);
      KadAgreesIff(cfg, Whitelist(), b, x, latencyOk, admitted, raw, tune, score, latency, kept);
      TrimmedOutcomes(cfg, Whitelist(), b, x, latencyOk, admitted, raw, tune, score, latency, kept);
    }
  }
}
