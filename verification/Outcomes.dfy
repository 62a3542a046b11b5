/**
 When an add succeeds, whom it evicts and how far it unfolds the table, read off the table before the call.
 */
module Outcomes {
  import opened Wrappers
  import opened Keyspace
  import opened TableModel
  import opened TableProofs
  import opened TableSteps
  import opened KadRtt
  import opened Bookkeeping

  /** The bucket an add of `p` ends up at if the peer's own bucket is full: a full last bucket is unfolded first. */
  function FinalBucket(cfg: Config, t: Table, p: Peer, tune: nat -> Tuning): BucketState
    requires |t| >= 1 && IdsFit(cfg, t) && cfg.Valid()
  {
    if IsLast(cfg, t, p) then TargetBucket(cfg, Unfold(cfg, t, tune), p) else TargetBucket(cfg, t, p)
  }

  predicate IsLast(cfg: Config, t: Table, p: Peer)
    requires |t| >= 1 && |cfg.hash(p)| == |cfg.local|
  {
    cfg.Cpl(p) >= |t| - 1
  }

  ghost predicate HasReplaceable(b: BucketState)
  {
    exists y :: y in b.list && y.isReplaceable
  }

  /** A plain add past its checks: room in the peer's bucket, else room after unfolding, else a replaceable peer. */
  ghost predicate Succeeds(cfg: Config, t: Table, x: PeerInfo, v: Variant, tune: nat -> Tuning)
    requires |t| >= 1 && IdsFit(cfg, t) && cfg.Valid()
  {
    var final := FinalBucket(cfg, t, x.id, tune);
    || |TargetBucket(cfg, t, x.id).list| < cfg.bucketsize
    || (IsLast(cfg, t, x.id) && |final.list| < if cfg.kadRtt && v.tunedAfterUnfold then final.k else cfg.bucketsize)
    || HasReplaceable(final)
  }

  /** A KadRTT add past its checks: the same with tuned sizes, and no eviction while KadRTT is on. */
  ghost predicate KadSucceeds(cfg: Config, t: Table, x: PeerInfo, tune: nat -> Tuning)
    requires |t| >= 1 && IdsFit(cfg, t) && cfg.Valid()
  {
    var here, final := TargetBucket(cfg, t, x.id), FinalBucket(cfg, t, x.id, tune);
    || |here.list| < (if cfg.kadRtt then here.k else cfg.bucketsize)
    || (IsLast(cfg, t, x.id) && |final.list| < if cfg.kadRtt then final.k else cfg.bucketsize)
    || (!cfg.kadRtt && HasReplaceable(final))
  }

  lemma {:induction false} ReplaceSucceeds(cfg: Config, t: Table, x: PeerInfo)
    requires |t| >= 1 && cfg.Valid()
    ensures Replace(cfg, t, x).1 == if HasReplaceable(TargetBucket(cfg, t, x.id)) then Added else NoCapacity
  {
    hide Insert, Remove;
  }

  lemma {:induction false} PlainSucceeds(cfg: Config, t: Table, x: PeerInfo, v: Variant, tune: nat -> Tuning)
    requires |t| >= 1 && IdsFit(cfg, t) && cfg.Valid() && !v.tunedFirst
    ensures PlaceOrEvict(cfg, t, x, v, tune).1 == if Succeeds(cfg, t, x, v, tune) then Added else NoCapacity
  {
    hide Insert, Remove, Unfold, IdsFit, Replace, HasReplaceable;
    var pl := Place(cfg, t, x, v, tune);
    ReplaceSucceeds(cfg, pl.t, x);
  }

  lemma {:induction false} RttSucceeds(cfg: Config, t: Table, x: PeerInfo, tune: nat -> Tuning, latency: Peer -> int)
    requires |t| >= 1 && IdsFit(cfg, t) && cfg.Valid()
    ensures PlaceOrExchange(cfg, t, x, tune, latency).1 == if KadSucceeds(cfg, t, x, tune) then Added else NoCapacity
    ensures Ousted(cfg, t, x, tune, latency).Some? && cfg.kadRtt ==> PlaceOrExchange(cfg, t, x, tune, latency).1 == NoCapacity
  {
    hide Insert, Remove, Unfold, IdsFit, Replace, HasReplaceable, Exchange;
    var pl := Place(cfg, t, x, ADD_KADRTT, tune);
    ReplaceSucceeds(cfg, pl.t, x);
  }

  /** With room in the peer's bucket nobody leaves. */
  lemma {:induction false} RoomKeepsAll(cfg: Config, t: Table, x: PeerInfo, v: Variant, tune: nat -> Tuning, latency: Peer -> int)
    requires Inv(cfg, t) && cfg.Knows(x) && !InTable(t, x.id) && IdsFit(cfg, t)
    ensures !v.tunedFirst && |TargetBucket(cfg, t, x.id).list| < cfg.bucketsize ==>
              multiset(All(PlaceOrEvict(cfg, t, x, v, tune).0)) == multiset(All(t)) + multiset{x}
    ensures |TargetBucket(cfg, t, x.id).list| < (if cfg.kadRtt then TargetBucket(cfg, t, x.id).k else cfg.bucketsize) ==>
              multiset(All(PlaceOrExchange(cfg, t, x, tune, latency).0)) == multiset(All(t)) + multiset{x}
  {
    PlaceInv(cfg, t, x, v, tune);
    PlaceInv(cfg, t, x, ADD_KADRTT, tune);
    hide All, Insert, Remove, Unfold, IdsFit, InTable, Replace, Exchange, Inv;
  }

  /** When each outcome of a plain add occurs, and whether the peer is there afterwards. */
  ghost predicate AddedExactly(cfg: Config, t: Table, x: PeerInfo, v: Variant, latencyOk: bool, admitted: bool,
                               tune: nat -> Tuning, u: Table, o: AddOutcome)
    requires |t| >= 1 && IdsFit(cfg, t) && cfg.Valid()
  {
    && (o == Present <==> InTable(t, x.id))
    && (o == HighLatency <==> !InTable(t, x.id) && !latencyOk)
    && (o == Filtered <==> !InTable(t, x.id) && latencyOk && !admitted)
    && (o == Added <==> !InTable(t, x.id) && latencyOk && admitted && Succeeds(cfg, t, x, v, tune))
    && (InTable(u, x.id) <==> o == Present || o == Added)
    && (o == Added && |TargetBucket(cfg, t, x.id).list| < cfg.bucketsize ==>
          multiset(All(u)) == multiset(All(t)) + multiset{x})
  }

  /** A plain add, every outcome exactly. */
  lemma {:induction false} AddOutcomes(cfg: Config, t: Table, x: PeerInfo, v: Variant, latencyOk: bool, admitted: bool,
                                       tune: nat -> Tuning)
    requires Inv(cfg, t) && cfg.Knows(x) && !v.tunedFirst
    ensures IdsFit(cfg, t)
    ensures var (u, o) := AddPeer(cfg, t, x, v, latencyOk, admitted, tune);
            AddedExactly(cfg, t, x, v, latencyOk, admitted, tune, u, o)
  {
    AddStart(cfg, t, x);
    hide InTable, IdsFit, Holds, Bump, PlaceOrEvict, All, Succeeds, ShapeOk, BucketPlaced, PeersChange;
    PlainSucceeds(cfg, t, x, v, tune);
    if InTable(t, x.id) {
      BumpInv(cfg, t, x.id, x.lastUsefulAt);
    } else {
      RoomKeepsAll(cfg, t, x, v, tune, _ => 0);
      EvictedChange(cfg, t, x, v, tune);
      ArrivesIff(t, PlaceOrEvict(cfg, t, x, v, tune).0, Evicted(cfg, t, x, v, tune), x.id, PlaceOrEvict(cfg, t, x, v, tune).1 == Added);
    }
  }

  lemma {:induction false} ArrivesIff(t: Table, u: Table, gone: Option<Peer>, p: Peer, arrived: bool)
    requires !InTable(t, p) && PeersChange(t, u, gone, SomeIf(arrived, p))
    ensures InTable(u, p) <==> arrived
  {
    hide InTable;
  }

  /** When each outcome of a KadRTT add to a re-tuned bucket occurs, and whether the peer is there afterwards. */
  ghost predicate KadAddedExactly(cfg: Config, t: Table, x: PeerInfo, latencyOk: bool, admitted: bool, tune: nat -> Tuning,
                                  latency: Peer -> int, u: Table, o: AddOutcome)
    requires |t| >= 1 && IdsFit(cfg, t) && cfg.Valid()
  {
    var here := TargetBucket(cfg, t, x.id);
    && (o == Present <==> InTable(t, x.id))
    && (o == HighLatency <==> !InTable(t, x.id) && !latencyOk)
    && (o == Filtered <==> !InTable(t, x.id) && latencyOk && !admitted)
    && (o == Added <==> !InTable(t, x.id) && latencyOk && admitted && KadSucceeds(cfg, t, x, tune))
    && (InTable(u, x.id)
        <==> o == Present || o == Added || (o == NoCapacity && Ousted(cfg, t, x, tune, latency).Some?))
    && (o == Added && |here.list| < (if cfg.kadRtt then here.k else cfg.bucketsize) ==>
          multiset(All(u)) == multiset(All(t)) + multiset{x})
  }

  lemma {:induction false} AdmittedExactly(cfg: Config, t: Table, x: PeerInfo, tune: nat -> Tuning, latency: Peer -> int)
    requires Inv(cfg, t) && cfg.Knows(x) && !InTable(t, x.id)
    ensures IdsFit(cfg, t)
    ensures var (u, o) := PlaceOrExchange(cfg, t, x, tune, latency);
            var here := TargetBucket(cfg, t, x.id);
            && o == (if KadSucceeds(cfg, t, x, tune) then Added else NoCapacity)
            && (InTable(u, x.id) <==> o == Added || Ousted(cfg, t, x, tune, latency).Some?)
            && (|here.list| < (if cfg.kadRtt then here.k else cfg.bucketsize) ==>
                  multiset(All(u)) == multiset(All(t)) + multiset{x})
  {
    hide InTable, IdsFit, PlaceOrExchange, Ousted, All, KadSucceeds, ShapeOk, BucketPlaced, PeersChange;
    OustedChange(cfg, t, x, tune, latency);
    RttSucceeds(cfg, t, x, tune, latency);
    RoomKeepsAll(cfg, t, x, ADD1, tune, latency);
    var (u, o) := PlaceOrExchange(cfg, t, x, tune, latency);
    var gone := Ousted(cfg, t, x, tune, latency);
    ArrivesIff(t, u, gone, x.id, o == Added || gone.Some?);
  }

  /** A KadRTT add once its bucket is re-tuned, every outcome exactly. */
  lemma {:induction false} KadOutcomes(cfg: Config, wl: set<Peer>, b: Books, x: PeerInfo, latencyOk: bool, admitted: bool,
                                       tune: nat -> Tuning, latency: Peer -> int)
    requires Inv(cfg, b.t) && cfg.Knows(x)
    ensures IdsFit(cfg, b.t)
    ensures var (c, o) := RetunedBooks(cfg, wl, b, x, latencyOk, admitted, tune, latency);
            KadAddedExactly(cfg, b.t, x, latencyOk, admitted, tune, latency, c.t, o)
  {
    hide InTable, IdsFit, Holds, BumpBooks, PlaceOrExchange, Ousted, All, KadSucceeds, ShapeOk, BucketPlaced, Announced,
      KeysAfterAdd, KeepsAgreement;
    AddStart(cfg, b.t, x);
    if InTable(b.t, x.id) {
      BumpAgrees(cfg, wl, b, x);
    } else {
      AdmittedExactly(cfg, b.t, x, tune, latency);
    }
  }

  /** The same from the table before re-tuning. */
  lemma {:induction false} TrimmedOutcomes(cfg: Config, wl: set<Peer>, b: Books, x: PeerInfo, latencyOk: bool, admitted: bool,
                                           raw: Tuning, tune: nat -> Tuning, score: Peer -> int, latency: Peer -> int,
                                           kept: seq<PeerInfo>)
    requires Inv(cfg, b.t) && cfg.Knows(x)
    requires Trimmed(TargetBucket(cfg, b.t, x.id).list, TunedK(raw, cfg.bucketsize), score, kept)
    ensures var t1 := Retuned(cfg, b.t, x.id, raw, kept);
            && IdsFit(cfg, t1) && |t1| >= 1 && cfg.Valid()
            && var (c, o) := RetunedBooks(cfg, wl, TrimBooks(cfg, b, x.id, raw, kept), x, latencyOk, admitted, tune, latency);
            KadAddedExactly(cfg, t1, x, latencyOk, admitted, tune, latency, c.t, o)
  {
    hide IdsFit, RetunedBooks, KadAddedExactly, Trimmed, Retuned, ShapeOk, BucketPlaced;
    RetunedInv(cfg, b.t, x.id, raw, score, kept);
    KadOutcomes(cfg, wl, TrimBooks(cfg, b, x.id, raw, kept), x, latencyOk, admitted, tune, latency);
  }

  /** An exchange takes place exactly if KadRTT is on, there is no room, and the peer chosen in the final bucket is
      replaceable. */
  lemma {:induction false} ExchangesIff(cfg: Config, t: Table, x: PeerInfo, tune: nat -> Tuning, latency: Peer -> int)
    requires |t| >= 1 && IdsFit(cfg, t) && cfg.Valid() && cfg.kadRtt
    ensures var v := Victim(FinalBucket(cfg, t, x.id, tune).list, x, latency);
            Ousted(cfg, t, x, tune, latency)
            == if !KadSucceeds(cfg, t, x, tune) && v.Some? && v.value.isReplaceable then Some(v.value.id) else None
  {
    hide Insert, Remove, Unfold, IdsFit, Victim, HasReplaceable;
  }

  // ---------------------------------------------------------------- a peer that is there already

  /** An add of a present peer sets the time of first use if none is known, and changes nothing else. */
  lemma {:induction false} PresentIsRefreshed(cfg: Config, t: Table, x: PeerInfo, v: Variant, latencyOk: bool, admitted: bool,
                                              tune: nat -> Tuning, i: nat, j: nat)
    requires Inv(cfg, t) && InTable(t, x.id) && i < |t| && j < |t[i].list|
    ensures IdsFit(cfg, t)
    ensures var u := AddPeer(cfg, t, x, v, latencyOk, admitted, tune).0;
            var y := t[i].list[j];
            && |u| == |t| && u[i].k == t[i].k && u[i].alpha == t[i].alpha && u[i].beta == t[i].beta
            && |u[i].list| == |t[i].list|
            && u[i].list[j].lastUsefulAt
               == (if y.id == x.id && y.lastUsefulAt == None then x.lastUsefulAt else y.lastUsefulAt)
            && u[i].list[j].(lastUsefulAt := None) == y.(lastUsefulAt := None)
  {
    AddStart(cfg, t, x);
    if t[i].list[j].id == x.id {
      assert HasId(t[i].list, x.id);
      InItsBucket(cfg, t, i, x.id);
    }
  }

  // ---------------------------------------------------------------- how far the table is unfolded

  /** The number of entries sharing at least `n` bits with the local identifier. */
  function Deep(cfg: Config, list: seq<PeerInfo>, n: nat): nat
    requires forall x :: x in list ==> |x.dhtId| == |cfg.local|
  {
    if list == [] then 0
    else (if CommonPrefixLen(list[0].dhtId, cfg.local) >= n then 1 else 0) + Deep(cfg, list[1..], n)
  }

  lemma {:induction false} PickDeep(cfg: Config, list: seq<PeerInfo>, c: nat, n: nat)
    requires (forall x :: x in list ==> |x.dhtId| == |cfg.local|) && n > c
    ensures (forall x :: x in Pick(cfg, list, c, true) ==> |x.dhtId| == |cfg.local|)
    ensures Deep(cfg, Pick(cfg, list, c, true), n) == Deep(cfg, list, n)
    ensures |Pick(cfg, list, c, true)| == Deep(cfg, list, c + 1)
  {
    hide CommonPrefixLen;
    if list != [] {
      PickDeep(cfg, list[1..], c, n);
      var rest := Pick(cfg, list[1..], c, true);
      assert ([list[0]] + rest)[1..] == rest;
    }
  }

  ghost predicate Unfolds(cfg: Config, list: seq<PeerInfo>, from: nat, to: nat)
    requires forall x :: x in list ==> |x.dhtId| == |cfg.local|
  {
    var enough := if cfg.kadRtt then 1 else cfg.bucketsize;
    && from < to && Deep(cfg, list, to - 1) < enough
    && forall n :: from <= n < to - 1 ==> Deep(cfg, list, n) >= enough
  }

  lemma {:induction false} UnfoldsOneMore(cfg: Config, list: seq<PeerInfo>, from: nat, to: nat)
    requires (forall x :: x in list ==> |x.dhtId| == |cfg.local|) && from >= 1
    ensures forall x :: x in Pick(cfg, list, from - 1, true) ==> |x.dhtId| == |cfg.local|
    ensures Unfolds(cfg, Pick(cfg, list, from - 1, true), from + 1, to)
            && |Pick(cfg, list, from - 1, true)| >= (if cfg.kadRtt then 1 else cfg.bucketsize)
            ==> Unfolds(cfg, list, from, to)
    ensures |Pick(cfg, list, from - 1, true)| < (if cfg.kadRtt then 1 else cfg.bucketsize) ==> Unfolds(cfg, list, from, from + 1)
  {
    hide Pick, Deep;
    PickDeep(cfg, list, from - 1, from);
    forall n | from <= n
      ensures Deep(cfg, Pick(cfg, list, from - 1, true), n) == Deep(cfg, list, n)
    {
      PickDeep(cfg, list, from - 1, n);
    }
  }

  /** Unfolding makes as few buckets as leave the last one below a bucket's size, or empty under KadRTT. */
  lemma {:induction false} UnfoldsMinimally(cfg: Config, t: Table, tune: nat -> Tuning)
    requires |t| >= 1 && IdsFit(cfg, t) && cfg.bucketsize >= 1
    ensures Unfolds(cfg, t[|t| - 1].list, |t|, |Unfold(cfg, t, tune)|)
    decreases cfg.Bits() + 1 - |t|
  {
    hide Unfold, UnfoldOnce, Pick, Unfolds;
    var u := UnfoldOnce(cfg, t, tune);
    UnfoldDef(cfg, t, tune);
    UnfoldOnceParts(cfg, t, tune);
    UnfoldsOneMore(cfg, t[|t| - 1].list, |t|, |Unfold(cfg, t, tune)|);
    if |u[|t|].list| >= UnfoldThreshold(cfg) {
      UnfoldsMinimally(cfg, u, tune);
    }
  }

  // ---------------------------------------------------------------- how the unfolded buckets are tuned

  /** The sizes of a bucket, without its entries. */
  function Sizes(b: BucketState): (int, int, int)
  {
    (b.k, b.alpha, b.beta)
  }

  /** A bucket that unfolding leaves at index `j` of a table that had `n` buckets. */
  ghost predicate TunedAt(cfg: Config, t: Table, u: Table, tune: nat -> Tuning, j: nat)
    requires j < |u|
  {
    && (j >= |t| && cfg.kadRtt ==> Sizes(u[j]) == Sizes(Tune(FRESH_BUCKET, tune(j), cfg.bucketsize)))
    && (j >= |t| && !cfg.kadRtt && j > 0 ==> Sizes(u[j]) == (1, 1, 1))
    && (j < |t| && (j > 0 || |t| > 1) ==> Sizes(u[j]) == Sizes(t[j]))
    && (j == 0 && |t| == 1 ==> Sizes(u[0]) == Sizes(Tune(t[0], tune(0), cfg.bucketsize)))
  }

  lemma {:induction false} UnfoldOnceTunes(cfg: Config, t: Table, tune: nat -> Tuning, j: nat)
    requires |t| >= 1 && IdsFit(cfg, t) && j < |t| + 1
    ensures TunedAt(cfg, t, UnfoldOnce(cfg, t, tune), tune, j)
  {
    hide Pick;
  }

  lemma {:induction false} TunedThrough(cfg: Config, t: Table, u: Table, w: Table, tune: nat -> Tuning, j: nat)
    requires |t| >= 1 && |u| == |t| + 1 && |w| > |u| && j < |w|
    requires j < |u| ==> TunedAt(cfg, t, u, tune, j)
    requires TunedAt(cfg, u, w, tune, j)
    ensures TunedAt(cfg, t, w, tune, j)
  {
    hide Tune;
  }

  /** Unfolding tunes each new bucket by what the formulas yield for its own index, under KadRTT, and a lone first bucket
      before it is split; it leaves the sizes of all other buckets alone. */
  lemma {:induction false} UnfoldTunes(cfg: Config, t: Table, tune: nat -> Tuning, j: nat)
    requires |t| >= 1 && IdsFit(cfg, t) && cfg.bucketsize >= 1 && j < |Unfold(cfg, t, tune)|
    ensures TunedAt(cfg, t, Unfold(cfg, t, tune), tune, j)
    decreases cfg.Bits() + 1 - |t|
  {
    hide Unfold, UnfoldOnce, IdsFit, TunedAt;
    var u := UnfoldOnce(cfg, t, tune);
    UnfoldDef(cfg, t, tune);
    if j < |u| {
      UnfoldOnceTunes(cfg, t, tune, j);
    }
    if |u[|t|].list| >= UnfoldThreshold(cfg) {
      UnfoldTunes(cfg, u, tune, j);
      TunedThrough(cfg, t, u, Unfold(cfg, u, tune), tune, j);
    }
  }
}
