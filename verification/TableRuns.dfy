/**
 Whole runs of the routing table: any sequence of adds of the three kinds, removals and freezes, with the
 notifications sent and the peers the filter tracks along the way.
 */
module TableRuns {
  import opened Wrappers
  import opened Keyspace
  import opened TableModel
  import opened TableProofs
  import opened TableSteps
  import opened KadRtt
  import opened Buckets
  import opened Bookkeeping

  /** One operation, with the answers of the world around the table: latency check, diversity filter,
      tuning formulas, trim scores, known latencies, and which entries a trim keeps among equal scores. */
  datatype Op =
    | Add(x: PeerInfo, v: Variant, latencyOk: bool, admitted: bool, tune: nat -> Tuning)
    | AddKadRtt(x: PeerInfo, latencyOk: bool, admitted: bool, raw: Tuning, tune: nat -> Tuning,
                score: Peer -> int, latency: Peer -> int, kept: seq<PeerInfo>)
    | RemovePeer(p: Peer)
    | Freeze

  ghost predicate Enabled(cfg: Config, t: Table, op: Op)
    requires Inv(cfg, t)
  {
    match op
    case Add(x, _, _, _, _) => cfg.Knows(x)
    case AddKadRtt(x, _, _, raw, _, score, _, kept) =>
      cfg.Knows(x) && Trimmed(TargetBucket(cfg, t, x.id).list, TunedK(raw, cfg.bucketsize), score, kept)
    case _ => true
  }

  lemma {:induction false} TrimFits(cfg: Config, b: Books, x: PeerInfo, raw: Tuning, score: Peer -> int, kept: seq<PeerInfo>)
    requires Inv(cfg, b.t) && Trimmed(TargetBucket(cfg, b.t, x.id).list, TunedK(raw, cfg.bucketsize), score, kept)
    ensures Inv(cfg, TrimBooks(cfg, b, x.id, raw, kept).t) && IdsFit(cfg, TrimBooks(cfg, b, x.id, raw, kept).t)
  {
    RetunedInv(cfg, b.t, x.id, raw, score, kept);
    PartitionFits(cfg, TrimBooks(cfg, b, x.id, raw, kept).t);
  }

  ghost function Apply(cfg: Config, wl: set<Peer>, b: Books, op: Op): Books
    requires Inv(cfg, b.t) && Enabled(cfg, b.t, op)
  {
    PartitionFits(cfg, b.t);
    match op
    case Add(x, v, latencyOk, admitted, tune) => AddBooks(cfg, wl, b, x, v, latencyOk, admitted, tune).0
    case AddKadRtt(x, latencyOk, admitted, raw, tune, score, latency, kept) =>
      TrimFits(cfg, b, x, raw, score, kept);
      RetunedBooks(cfg, wl, TrimBooks(cfg, b, x.id, raw, kept), x, latencyOk, admitted, tune, latency).0
    case RemovePeer(p) => RemoveBooks(cfg, wl, b, p)
    case Freeze => FreezeBooks(b)
  }

  /** Only a KadRTT add that trims its bucket leaves the notifications behind. */
  ghost predicate KeepsEvents(cfg: Config, t: Table, op: Op)
    requires Inv(cfg, t)
  {
    op.AddKadRtt? ==> |TargetBucket(cfg, t, op.x.id).list| <= TunedK(op.raw, cfg.bucketsize)
  }

  /** Only a KadRTT add leaves the filter behind, and exactly if the filter does not survive it. */
  ghost predicate KeepsFilter(cfg: Config, wl: set<Peer>, b: Books, op: Op)
    requires Inv(cfg, b.t) && Enabled(cfg, b.t, op)
  {
    op.AddKadRtt? ==>
      (TrimFits(cfg, b, op.x, op.raw, op.score, op.kept);
       var b1 := TrimBooks(cfg, b, op.x.id, op.raw, op.kept);
       var o := RetunedBooks(cfg, wl, b1, op.x, op.latencyOk, op.admitted, op.tune, op.latency).1;
       FilterSurvives(wl, TargetBucket(cfg, b.t, op.x.id).list, op.kept, op.x.id, o,
                      Ousted(cfg, b1.t, op.x, op.tune, op.latency).Some?))
  }

  /** One operation keeps the invariant; from books that agree, it keeps each agreement exactly as said. */
  lemma {:induction false} ApplyAgrees(cfg: Config, wl: set<Peer>, b: Books, op: Op)
    requires Inv(cfg, b.t) && Enabled(cfg, b.t, op)
    ensures var c := Apply(cfg, wl, b, op);
            && Inv(cfg, c.t)
            && (AgreeEvents(b.events, b.t) ==> (AgreeEvents(c.events, c.t) <==> KeepsEvents(cfg, b.t, op)))
            && (AgreeKeys(b.keys, wl, b.t) ==> (AgreeKeys(c.keys, wl, c.t) <==> KeepsFilter(cfg, wl, b, op)))
  {
    hide AddBooks, RetunedBooks, RemoveBooks, FreezeBooks, AgreeEvents, AgreeKeys, FilterSurvives, Ousted, Trimmed, ShapeOk,
      BucketPlaced, IdsFit, AddPeer, Remove;
    match op
    case Add(x, v, latencyOk, admitted, tune) => AddAgrees(cfg, wl, b, x, v, latencyOk, admitted, tune);
    case AddKadRtt(x, latencyOk, admitted, raw, tune, score, latency, kept) =>
      KadAgreesIff(cfg, wl, b, x, latencyOk, admitted, raw, tune, score, latency, kept);
    case RemovePeer(p) => RemoveAgrees(cfg, wl, b, p);
    case Freeze => FreezeAgrees(cfg, wl, b);
  }

  ghost predicate Goes(cfg: Config, wl: set<Peer>, b: Books, op: Op, c: Books)
  {
    Inv(cfg, b.t) ==> Enabled(cfg, b.t, op) && c == Apply(cfg, wl, b, op)
  }

  /** The states of a run: `bs[i + 1]` is reached from `bs[i]` by `ops[i]`, with a fixed whitelist. */
  ghost predicate IsRunFrom(cfg: Config, wl: set<Peer>, start: Books, bs: seq<Books>, ops: seq<Op>)
  {
    && |bs| == |ops| + 1
    && bs[0] == start
    && forall i :: 0 <= i < |ops| ==> Goes(cfg, wl, bs[i], ops[i], bs[i + 1])
  }

  /** A run from the empty table, with nothing announced and nobody tracked. */
  ghost predicate IsRun(cfg: Config, wl: set<Peer>, bs: seq<Books>, ops: seq<Op>)
  {
    IsRunFrom(cfg, wl, OPENING, bs, ops)
  }

  lemma {:induction false} RunFromKeepsInv(cfg: Config, wl: set<Peer>, start: Books, bs: seq<Books>, ops: seq<Op>, i: nat)
    requires Inv(cfg, start.t) && IsRunFrom(cfg, wl, start, bs, ops) && i <= |ops|
    ensures Inv(cfg, bs[i].t) && (i < |ops| ==> Enabled(cfg, bs[i].t, ops[i]))
  {
    hide Inv, Enabled, Apply;
    if i > 0 {
      RunFromKeepsInv(cfg, wl, start, bs, ops, i - 1);
      assert Goes(cfg, wl, bs[i - 1], ops[i - 1], bs[i]);
      ApplyAgrees(cfg, wl, bs[i - 1], ops[i - 1]);
    }
    if i < |ops| {
      assert Goes(cfg, wl, bs[i], ops[i], bs[i + 1]);
    }
  }

  /** A run goes on with any operation that is enabled. */
  lemma {:induction false} ExtendRun(cfg: Config, wl: set<Peer>, start: Books, bs: seq<Books>, ops: seq<Op>, op: Op)
    requires IsRunFrom(cfg, wl, start, bs, ops) && Inv(cfg, bs[|ops|].t) && Enabled(cfg, bs[|ops|].t, op)
    ensures IsRunFrom(cfg, wl, start, bs + [Apply(cfg, wl, bs[|ops|], op)], ops + [op])
  {
    hide Inv, Enabled, Apply;
    var cs, os := bs + [Apply(cfg, wl, bs[|ops|], op)], ops + [op];
    forall i | 0 <= i < |os|
      ensures Goes(cfg, wl, cs[i], os[i], cs[i + 1])
    {
      if i < |ops| {
        assert Goes(cfg, wl, bs[i], ops[i], bs[i + 1]);
      }
    }
  }

  /** Every state of every run keeps the partition by common prefix length without repeated peers, at
      least one bucket and at most two more than an identifier has bits, and without KadRTT no bucket
      ever exceeds the bucket size. */
  lemma {:induction false} RunKeepsInv(cfg: Config, wl: set<Peer>, bs: seq<Books>, ops: seq<Op>, i: nat)
    requires cfg.Valid() && IsRun(cfg, wl, bs, ops) && i <= |ops|
    ensures Partition(cfg, bs[i].t) && 1 <= |bs[i].t| <= cfg.Bits() + 2
    ensures !cfg.kadRtt ==> forall j :: 0 <= j < |bs[i].t| ==> |bs[i].t[j].list| <= cfg.bucketsize
    ensures Inv(cfg, bs[i].t)
  {
    FreshInv(cfg);
    RunFromKeepsInv(cfg, wl, OPENING, bs, ops, i);
    assert forall j :: 0 <= j < |bs[i].t| ==> BucketOk(cfg, |bs[i].t|, bs[i].t[j]);
  }

  // ---------------------------------------------------------------- notifications and filter over runs

  lemma {:induction false} RunEvents(cfg: Config, wl: set<Peer>, start: Books, bs: seq<Books>, ops: seq<Op>, i: nat)
    requires Inv(cfg, start.t) && IsRunFrom(cfg, wl, start, bs, ops) && i <= |ops|
    requires AgreeEvents(start.events, start.t)
    requires forall j :: 0 <= j < i ==> Inv(cfg, bs[j].t) && KeepsEvents(cfg, bs[j].t, ops[j])
    ensures AgreeEvents(bs[i].events, bs[i].t)
  {
    hide Inv, Enabled, Apply, AgreeEvents, AgreeKeys, KeepsEvents, KeepsFilter;
    if i > 0 {
      RunEvents(cfg, wl, start, bs, ops, i - 1);
      RunFromKeepsInv(cfg, wl, start, bs, ops, i - 1);
      assert Goes(cfg, wl, bs[i - 1], ops[i - 1], bs[i]);
      ApplyAgrees(cfg, wl, bs[i - 1], ops[i - 1]);
    }
  }

  lemma {:induction false} RunKeys(cfg: Config, wl: set<Peer>, start: Books, bs: seq<Books>, ops: seq<Op>, i: nat)
    requires Inv(cfg, start.t) && IsRunFrom(cfg, wl, start, bs, ops) && i <= |ops|
    requires AgreeKeys(start.keys, wl, start.t)
    requires forall j :: 0 <= j < i ==> Inv(cfg, bs[j].t) && Enabled(cfg, bs[j].t, ops[j]) && KeepsFilter(cfg, wl, bs[j], ops[j])
    ensures AgreeKeys(bs[i].keys, wl, bs[i].t)
  {
    hide Inv, Enabled, Apply, AgreeEvents, AgreeKeys, KeepsEvents, KeepsFilter;
    if i > 0 {
      RunKeys(cfg, wl, start, bs, ops, i - 1);
      assert Goes(cfg, wl, bs[i - 1], ops[i - 1], bs[i]);
      ApplyAgrees(cfg, wl, bs[i - 1], ops[i - 1]);
    }
  }

  /** All states of a run. */
  ghost predicate AllValid(cfg: Config, bs: seq<Books>, ops: seq<Op>)
  {
    forall i :: 0 <= i < |ops| && i < |bs| ==> Inv(cfg, bs[i].t) && Enabled(cfg, bs[i].t, ops[i])
  }

  lemma {:induction false} RunIsValid(cfg: Config, wl: set<Peer>, bs: seq<Books>, ops: seq<Op>)
    requires cfg.Valid() && IsRun(cfg, wl, bs, ops)
    ensures AllValid(cfg, bs, ops)
  {
    hide Inv, Enabled, Apply, Goes;
    FreshInv(cfg);
    forall i | 0 <= i < |ops|
      ensures Inv(cfg, bs[i].t) && Enabled(cfg, bs[i].t, ops[i])
    {
      RunFromKeepsInv(cfg, wl, OPENING, bs, ops, i);
    }
  }

  /** Over every run from the empty table, a peer is in the table with exactly one more addition than removal
      announced, in all states, exactly if no KadRTT add of the run trims its bucket. */
  lemma {:induction false} RunEventsIff(cfg: Config, wl: set<Peer>, bs: seq<Books>, ops: seq<Op>)
    requires cfg.Valid() && IsRun(cfg, wl, bs, ops)
    ensures AllValid(cfg, bs, ops)
    ensures (forall i :: 0 <= i <= |ops| ==> AgreeEvents(bs[i].events, bs[i].t))
       <==> (forall i :: 0 <= i < |ops| ==> KeepsEvents(cfg, bs[i].t, ops[i]))
  {
    RunIsValid(cfg, wl, bs, ops);
    FreshInv(cfg);
    OpeningAgrees(wl);
    hide Inv, Enabled, Apply, AgreeEvents, AgreeKeys, KeepsEvents, KeepsFilter;
    if forall i :: 0 <= i <= |ops| ==> AgreeEvents(bs[i].events, bs[i].t) {
      forall i | 0 <= i < |ops|
        ensures KeepsEvents(cfg, bs[i].t, ops[i])
      {
        assert Goes(cfg, wl, bs[i], ops[i], bs[i + 1]);
        ApplyAgrees(cfg, wl, bs[i], ops[i]);
      }
    }
    if forall i :: 0 <= i < |ops| ==> KeepsEvents(cfg, bs[i].t, ops[i]) {
      forall i | 0 <= i <= |ops|
        ensures AgreeEvents(bs[i].events, bs[i].t)
      {
        RunEvents(cfg, wl, OPENING, bs, ops, i);
      }
    }
  }

  /** Over every run from the empty table, the filter tracks exactly the table's peers that are not whitelisted, in
      all states, exactly if it survives every KadRTT add of the run. */
  lemma {:induction false} RunFilterIff(cfg: Config, wl: set<Peer>, bs: seq<Books>, ops: seq<Op>)
    requires cfg.Valid() && IsRun(cfg, wl, bs, ops)
    ensures AllValid(cfg, bs, ops)
    ensures (forall i :: 0 <= i <= |ops| ==> AgreeKeys(bs[i].keys, wl, bs[i].t))
       <==> (forall i :: 0 <= i < |ops| ==> KeepsFilter(cfg, wl, bs[i], ops[i]))
  {
    RunIsValid(cfg, wl, bs, ops);
    FreshInv(cfg);
    OpeningAgrees(wl);
    hide Inv, Enabled, Apply, AgreeEvents, AgreeKeys, KeepsEvents, KeepsFilter;
    if forall i :: 0 <= i <= |ops| ==> AgreeKeys(bs[i].keys, wl, bs[i].t) {
      forall i | 0 <= i < |ops|
        ensures KeepsFilter(cfg, wl, bs[i], ops[i])
      {
        assert Goes(cfg, wl, bs[i], ops[i], bs[i + 1]);
        ApplyAgrees(cfg, wl, bs[i], ops[i]);
      }
    }
    if forall i :: 0 <= i < |ops| ==> KeepsFilter(cfg, wl, bs[i], ops[i]) {
      forall i | 0 <= i <= |ops|
        ensures AgreeKeys(bs[i].keys, wl, bs[i].t)
      {
        RunKeys(cfg, wl, OPENING, bs, ops, i);
      }
    }
  }

  /** Over every run of plain adds, removals and freezes both agree in all states. */
  lemma {:induction false} PlainRunAgrees(cfg: Config, wl: set<Peer>, start: Books, bs: seq<Books>, ops: seq<Op>, i: nat)
    requires Inv(cfg, start.t) && IsRunFrom(cfg, wl, start, bs, ops) && i <= |ops|
    requires forall j :: 0 <= j < |ops| ==> !ops[j].AddKadRtt?
    ensures AgreeEvents(start.events, start.t) ==> AgreeEvents(bs[i].events, bs[i].t)
    ensures AgreeKeys(start.keys, wl, start.t) ==> AgreeKeys(bs[i].keys, wl, bs[i].t)
  {
    hide Inv, Enabled, Apply, AgreeEvents, AgreeKeys;
    forall j | 0 <= j < i
      ensures Inv(cfg, bs[j].t) && Enabled(cfg, bs[j].t, ops[j])
      ensures KeepsEvents(cfg, bs[j].t, ops[j]) && KeepsFilter(cfg, wl, bs[j], ops[j])
    {
      RunFromKeepsInv(cfg, wl, start, bs, ops, j);
    }
    if AgreeEvents(start.events, start.t) {
      RunEvents(cfg, wl, start, bs, ops, i);
    }
    if AgreeKeys(start.keys, wl, start.t) {
      RunKeys(cfg, wl, start, bs, ops, i);
    }
  }

  // ---------------------------------------------------------------- peers that may not be replaced

  /** The peer is in the table with an entry marked as not replaceable. */
  ghost predicate Guarded(t: Table, p: Peer)
  {
    exists y :: y in All(t) && y.id == p && !y.isReplaceable
  }

  /** No entry marked as not replaceable is lost. */
  ghost predicate Spares(t: Table, u: Table)
  {
    forall y :: y in All(t) && !y.isReplaceable ==> y in All(u)
  }

  lemma {:induction false} SparesGuarded(t: Table, u: Table, p: Peer)
    requires Spares(t, u) && Guarded(t, p)
    ensures Guarded(u, p)
  {
    hide All;
  }

  lemma {:induction false} SameSpares(t: Table, u: Table)
    requires multiset(All(t)) <= multiset(All(u))
    ensures Spares(t, u)
  {
    hide All;
    forall y | y in All(t)
      ensures y in All(u)
    {
      assert y in multiset(All(t)) && y in multiset(All(u));
    }
  }

  lemma {:induction false} ExchangeSpares(t: Table, u: Table, x: PeerInfo, y: PeerInfo)
    requires Exchanged(t, u, x, y) && y.isReplaceable
    ensures Spares(t, u)
  {
    hide All;
    forall z | z in All(t) && !z.isReplaceable
      ensures z in All(u)
    {
      assert z in multiset(All(u)) + multiset{y};
      assert z in multiset(All(u));
    }
  }

  lemma {:induction false} SparesThrough(t: Table, u: Table, w: Table)
    requires Spares(t, u) && Spares(u, w)
    ensures Spares(t, w)
  {
    hide All;
  }

  lemma {:induction false} PlaceSpares(cfg: Config, t: Table, x: PeerInfo, v: Variant, tune: nat -> Tuning)
    requires Inv(cfg, t) && cfg.Knows(x) && !InTable(t, x.id)
    ensures IdsFit(cfg, t)
    ensures Spares(t, Place(cfg, t, x, v, tune).t)
  {
    hide All, Place, InTable, IdsFit, Spares, ShapeOk, BucketPlaced;
    PlaceInv(cfg, t, x, v, tune);
    SameSpares(t, Place(cfg, t, x, v, tune).t);
  }

  lemma {:induction false} ReplaceSpares(cfg: Config, t: Table, x: PeerInfo)
    requires Inv(cfg, t) && cfg.Knows(x) && !InTable(t, x.id) && |TargetBucket(cfg, t, x.id).list| >= 2
    ensures Spares(t, Replace(cfg, t, x).0)
  {
    hide All, Replace, InTable, ShapeOk, BucketPlaced, Spares, Exchanged;
    ReplaceInv(cfg, t, x);
    var (u, o) := Replace(cfg, t, x);
    if o == Added {
      var y :| y in TargetBucket(cfg, t, x.id).list && y.isReplaceable && Exchanged(t, u, x, y);
      ExchangeSpares(t, u, x, y);
    } else {
      SameSpares(t, u);
    }
  }

  lemma {:induction false} KadRttSpares(cfg: Config, t: Table, x: PeerInfo, latency: Peer -> int)
    requires Inv(cfg, t) && cfg.Knows(x) && !InTable(t, x.id) && |TargetBucket(cfg, t, x.id).list| >= 2
    ensures Spares(t, Exchange(cfg, t, x, latency).0)
  {
    ExchangeInv(cfg, t, x, latency);
    var (u, gone) := Exchange(cfg, t, x, latency);
    if gone.Some? {
      var y :| y in TargetBucket(cfg, t, x.id).list && y.isReplaceable && Exchanged(t, u, Incoming(x), y);
      ExchangeSpares(t, u, Incoming(x), y);
    } else {
      SameSpares(t, u);
    }
  }

  /** No add past its checks, of whatever kind, evicts or exchanges a peer marked as not replaceable. */
  lemma {:induction false} AdmittedSpares(cfg: Config, t: Table, x: PeerInfo, v: Variant, tune: nat -> Tuning, latency: Peer -> int)
    requires Inv(cfg, t) && cfg.Knows(x) && !InTable(t, x.id)
    ensures IdsFit(cfg, t)
    ensures Spares(t, PlaceOrEvict(cfg, t, x, v, tune).0)
    ensures Spares(t, PlaceOrExchange(cfg, t, x, tune, latency).0)
  {
    hide All, Place, Replace, Exchange, InTable, IdsFit, Spares, ShapeOk, BucketPlaced, PeersChange;
    var pl := Evictable(cfg, t, x, v, tune);
    var pk := Evictable(cfg, t, x, ADD_KADRTT, tune);
    if !pl.placed {
      ReplaceSpares(cfg, pl.t, x);
      SparesThrough(t, pl.t, Replace(cfg, pl.t, x).0);
    }
    if !pk.placed {
      ReplaceSpares(cfg, pk.t, x);
      KadRttSpares(cfg, pk.t, x, latency);
      SparesThrough(t, pk.t, Replace(cfg, pk.t, x).0);
      SparesThrough(t, pk.t, Exchange(cfg, pk.t, x, latency).0);
    }
  }

  lemma {:induction false} Evictable(cfg: Config, t: Table, x: PeerInfo, v: Variant, tune: nat -> Tuning) returns (pl: Placement)
    requires Inv(cfg, t) && cfg.Knows(x) && !InTable(t, x.id)
    ensures IdsFit(cfg, t) && pl == Place(cfg, t, x, v, tune) && Spares(t, pl.t) && Inv(cfg, pl.t)
    ensures !pl.placed ==> !InTable(pl.t, x.id) && |TargetBucket(cfg, pl.t, x.id).list| >= 2
  {
    hide All, Place, InTable, IdsFit, Spares, ShapeOk, BucketPlaced, PeersChange;
    PlaceChange(cfg, t, x, v, tune);
    PlaceSpares(cfg, t, x, v, tune);
    pl := Place(cfg, t, x, v, tune);
    if !pl.placed {
      AbsentStays(t, pl.t, x.id);
    }
  }

  lemma {:induction false} GuardedAt(t: Table, p: Peer) returns (i: nat, j: nat)
    requires Guarded(t, p)
    ensures i < |t| && j < |t[i].list| && t[i].list[j].id == p && !t[i].list[j].isReplaceable
  {
    var y :| y in All(t) && y.id == p && !y.isReplaceable;
    AllMember(t, y);
    hide All;
    i :| 0 <= i < |t| && y in t[i].list;
    j :| 0 <= j < |t[i].list| && t[i].list[j] == y;
  }

  lemma {:induction false} AtGuarded(t: Table, i: nat, j: nat)
    requires i < |t| && j < |t[i].list| && !t[i].list[j].isReplaceable
    ensures Guarded(t, t[i].list[j].id)
  {
    hide All;
    var y := t[i].list[j];
    assert y in t[i].list;
    AllMember(t, y);
  }

  lemma {:induction false} BumpGuarded(cfg: Config, b: Books, x: PeerInfo, p: Peer)
    requires Inv(cfg, b.t) && Guarded(b.t, p)
    ensures Guarded(BumpBooks(cfg, b, x).t, p)
  {
    hide Guarded, ShapeOk, BucketPlaced;
    var i, j := GuardedAt(b.t, p);
    AtGuarded(BumpBooks(cfg, b, x).t, i, j);
  }

  lemma {:induction false} FreezeGuarded(t: Table, p: Peer)
    requires Guarded(t, p)
    ensures Guarded(FreezeAll(t), p)
  {
    hide Guarded;
    var i, j := GuardedAt(t, p);
    AtGuarded(FreezeAll(t), i, j);
  }

  lemma {:induction false} RemoveGuarded(cfg: Config, t: Table, p: Peer, q: Peer)
    requires Inv(cfg, t) && Guarded(t, p) && p != q
    ensures Guarded(Remove(cfg, t, q), p)
  {
    hide All, Remove, ShapeOk, BucketPlaced;
    InTableMember(t, q);
    if x :| x in All(t) && x.id == q {
      RemoveInv(cfg, t, x);
      var y :| y in All(t) && y.id == p && !y.isReplaceable;
      assert y in multiset(All(Remove(cfg, t, q))) + multiset{x};
      assert y in All(Remove(cfg, t, q)) by { assert y in multiset(All(Remove(cfg, t, q))); }
    } else {
      RemoveAbsent(cfg, t, q);
    }
  }

  lemma {:induction false} TrimGuarded(cfg: Config, t: Table, p: Peer, raw: Tuning, score: Peer -> int,
                                       kept: seq<PeerInfo>, q: Peer)
    requires Inv(cfg, t) && Guarded(t, q)
    requires Trimmed(TargetBucket(cfg, t, p).list, TunedK(raw, cfg.bucketsize), score, kept)
    requires !Dropped(TargetBucket(cfg, t, p).list, kept, q)
    ensures Guarded(Retuned(cfg, t, p, raw, kept), q)
  {
    hide Guarded, Trimmed, Dropped, Partition, ShapeOk, DistinctIds;
    var i, j := GuardedAt(t, q);
    var c := IndexFor(cfg.Cpl(p), |t|);
    if i == c {
      BumpDistinct(cfg, t, p);
      var k := KeptMark(t[c].list, TunedK(raw, cfg.bucketsize), score, kept, j);
      AtGuarded(Retuned(cfg, t, p, raw, kept), i, k);
    } else {
      AtGuarded(Retuned(cfg, t, p, raw, kept), i, j);
    }
  }

  /** An entry that is not dropped is kept as it is. */
  lemma {:induction false} KeptMark(list: seq<PeerInfo>, k: int, score: Peer -> int, kept: seq<PeerInfo>, j: nat) returns (h: nat)
    requires DistinctIds(list) && Trimmed(list, k, score, kept) && j < |list| && !Dropped(list, kept, list[j].id)
    ensures h < |kept| && kept[h] == list[j]
  {
    TrimmedFacts(list, k, score, kept);
    hide Trimmed;
    assert HasId(list, list[j].id);
    h :| 0 <= h < |kept| && kept[h].id == list[j].id;
    assert kept[h] in list;
  }

  /** The operation takes the peer out of the table: it removes it or trims it away. */
  ghost predicate TakesOut(cfg: Config, t: Table, op: Op, p: Peer)
    requires Inv(cfg, t)
  {
    || op == RemovePeer(p)
    || (op.AddKadRtt? && Dropped(TargetBucket(cfg, t, op.x.id).list, op.kept, p))
  }

  lemma {:induction false} AddGuards(cfg: Config, wl: set<Peer>, b: Books, x: PeerInfo, v: Variant, latencyOk: bool,
                                     admitted: bool, tune: nat -> Tuning, latency: Peer -> int, p: Peer)
    requires Inv(cfg, b.t) && cfg.Knows(x) && Guarded(b.t, p)
    ensures IdsFit(cfg, b.t)
    ensures Guarded(AddBooks(cfg, wl, b, x, v, latencyOk, admitted, tune).0.t, p)
    ensures Guarded(RetunedBooks(cfg, wl, b, x, latencyOk, admitted, tune, latency).0.t, p)
  {
    AddStart(cfg, b.t, x);
    hide Guarded, InTable, IdsFit, Holds, BumpBooks, PlaceOrEvict, PlaceOrExchange, Evicted, Ousted, Spares, ShapeOk, BucketPlaced;
    BumpGuarded(cfg, b, x, p);
    if !InTable(b.t, x.id) {
      AdmittedSpares(cfg, b.t, x, v, tune, latency);
      SparesGuarded(b.t, PlaceOrEvict(cfg, b.t, x, v, tune).0, p);
      SparesGuarded(b.t, PlaceOrExchange(cfg, b.t, x, tune, latency).0, p);
    }
  }

  lemma {:induction false} ApplyGuards(cfg: Config, wl: set<Peer>, b: Books, op: Op, p: Peer)
    requires Inv(cfg, b.t) && Enabled(cfg, b.t, op) && Guarded(b.t, p) && !TakesOut(cfg, b.t, op, p)
    ensures Guarded(Apply(cfg, wl, b, op).t, p)
  {
    hide Guarded, AddBooks, RetunedBooks, Remove, FreezeAll, IdsFit, Trimmed, Retuned, Dropped, ShapeOk, BucketPlaced;
    match op
    case Add(x, v, latencyOk, admitted, tune) => AddGuards(cfg, wl, b, x, v, latencyOk, admitted, tune, _ => 0, p);
    case AddKadRtt(x, latencyOk, admitted, raw, tune, score, latency, kept) =>
      TrimFits(cfg, b, x, raw, score, kept);
      TrimGuarded(cfg, b.t, x.id, raw, score, kept, p);
      AddGuards(cfg, wl, TrimBooks(cfg, b, x.id, raw, kept), x, ADD1, latencyOk, admitted, tune, latency, p);
    case RemovePeer(q) => RemoveGuarded(cfg, b.t, p, q);
    case Freeze => FreezeGuarded(b.t, p);
  }

  /** Along every run a peer marked as not replaceable stays in the table with its mark until an operation
      removes it or trims it away. */
  lemma {:induction false} IrreplaceableStays(cfg: Config, wl: set<Peer>, bs: seq<Books>, ops: seq<Op>, i: nat, j: nat, p: Peer)
    requires cfg.Valid() && IsRun(cfg, wl, bs, ops) && i <= j <= |ops| && Guarded(bs[i].t, p)
    requires forall h :: i <= h < j ==> Inv(cfg, bs[h].t) && !TakesOut(cfg, bs[h].t, ops[h], p)
    ensures Guarded(bs[j].t, p)
    decreases j
  {
    hide Guarded, Inv, Enabled, Apply, TakesOut;
    if i < j {
      FreshInv(cfg);
      IrreplaceableStays(cfg, wl, bs, ops, i, j - 1, p);
      RunFromKeepsInv(cfg, wl, OPENING, bs, ops, j - 1);
      assert Goes(cfg, wl, bs[j - 1], ops[j - 1], bs[j]);
      ApplyGuards(cfg, wl, bs[j - 1], ops[j - 1], p);
    }
  }

  /** Without KadRTT nobody is ever trimmed away, so that only removals take a peer out. */
  lemma {:induction false} PlainTakesOut(cfg: Config, t: Table, op: Op, p: Peer)
    requires Inv(cfg, t) && Enabled(cfg, t, op) && !cfg.kadRtt
    ensures TakesOut(cfg, t, op, p) <==> op == RemovePeer(p)
  {
    if op.AddKadRtt? {
      hide Trimmed;
      RetunedInv(cfg, t, op.x.id, op.raw, op.score, op.kept);
    }
  }
}
