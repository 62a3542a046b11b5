/**
 Any sequence of calls on a routing table object is a run of the table with its books.
 */
module TableCalls {
  import opened Wrappers
  import opened Keyspace
  import opened TableModel
  import opened TableSteps
  import opened KadRtt
  import opened DiversityFilter
  import opened Bookkeeping
  import opened RoutingTables
  import opened TableRuns

  datatype Call =
    | CallAdd(x: PeerInfo, v: Variant, latencyOk: bool, addrs: seq<Address>, tune: nat -> Tuning)
    | CallAddKadRtt(x: PeerInfo, latencyOk: bool, addrs: seq<Address>, raw: Tuning, tune: nat -> Tuning,
                    score: Peer -> int, latency: Peer -> int)
    | CallRemove(p: Peer)
    | CallFreeze

  /** The operation is the call, with some answer of the filter and some choice among equal trim scores. */
  ghost predicate Is(call: Call, op: Op)
  {
    match call
    case CallAdd(x, v, latencyOk, _, tune) => op.Add? && op == Add(x, v, latencyOk, op.admitted, tune)
    case CallAddKadRtt(x, latencyOk, _, raw, tune, score, latency) =>
      op.AddKadRtt? && op == AddKadRtt(x, latencyOk, op.admitted, raw, tune, score, latency, op.kept)
    case CallRemove(p) => op == RemovePeer(p)
    case CallFreeze => op == Freeze
  }

  /** What is not shown of the books does not matter to what is. */
  lemma {:induction false} ApplyMatches(cfg: Config, wl: set<Peer>, filtered: bool, n: Books, b: Books, op: Op)
    requires Inv(cfg, n.t) && Matches(filtered, n, b) && Enabled(cfg, n.t, op)
    ensures Matches(filtered, Apply(cfg, wl, n, op), Apply(cfg, wl, b, op))
  {
    hide PlaceOrEvict, PlaceOrExchange, Evicted, Ousted, Holds, Bump, Remove, FreezeAll, Announced, Retuned, IdsFit, Trimmed,
      ShapeOk, BucketPlaced;
  }

  method CallOne(rt: RoutingTable, call: Call) returns (ghost op: Op)
    requires rt.Valid() && (call.CallAdd? || call.CallAddKadRtt? ==> rt.cfg.Knows(call.x))
    modifies rt, rt.buckets, rt.df, rt.pgm
    ensures rt.Valid() && forall b :: b in rt.buckets ==> b in old(rt.buckets) || fresh(b)
    ensures rt.Whitelist() == old(rt.Whitelist())
    ensures Is(call, op) && Inv(rt.cfg, old(rt.model)) && Enabled(rt.cfg, old(rt.model), op)
    ensures rt.Records(Apply(rt.cfg, rt.Whitelist(), old(rt.Now()), op))
  {
    hide Inv, Shows, AddBooks, RetunedBooks, RemoveBooks, FreezeBooks, AddPeer, IdsFit, Remove, FreezeAll, Trimmed, AgreeEvents,
      AgreeKeys, InTable, FilterSurvives, Ousted, Retuned, Admits;
    match call
    case CallAdd(x, v, latencyOk, addrs, tune) =>
      op := Add(x, v, latencyOk, rt.Admitted(x.id, addrs), tune);
      var o := rt.AddPeer(x, v, latencyOk, addrs, tune);
    case CallAddKadRtt(x, latencyOk, addrs, raw, tune, score, latency) =>
      ghost var admitted := rt.Admitted(x.id, addrs);
      var o;
      ghost var kept;
      o, kept := rt.AddPeerKadRtt(x, latencyOk, addrs, raw, tune, score, latency);
      op := AddKadRtt(x, latencyOk, admitted, raw, tune, score, latency, kept);
    case CallRemove(p) =>
      op := RemovePeer(p);
      var ok := rt.RemovePeer(p);
    case CallFreeze =>
      op := Freeze;
      rt.MarkAllPeersIrreplaceable();
  }

  /** The books of the object after the calls are the last of a run over these calls. In particular, from
      agreement, plain calls keep notifications and filter in agreement with the table. */
  method RunCalls(rt: RoutingTable, calls: seq<Call>) returns (ghost bs: seq<Books>, ghost ops: seq<Op>)
    requires rt.Valid()
    requires forall c :: c in calls && (c.CallAdd? || c.CallAddKadRtt?) ==> rt.cfg.Knows(c.x)
    modifies rt, rt.buckets, rt.df, rt.pgm
    ensures rt.Valid() && rt.Whitelist() == old(rt.Whitelist())
    ensures IsRunFrom(rt.cfg, rt.Whitelist(), old(rt.Now()), bs, ops) && |ops| == |calls|
    ensures forall i :: 0 <= i < |ops| ==> Is(calls[i], ops[i])
    ensures rt.Records(bs[|ops|])
    ensures (forall c :: c in calls ==> !c.CallAddKadRtt?) && old(rt.CallbacksAgree()) ==> rt.CallbacksAgree()
    ensures (forall c :: c in calls ==> !c.CallAddKadRtt?) && old(rt.FilterAgrees()) ==> rt.FilterAgrees()
  {
    hide Inv, Shows, AgreeEvents, AgreeKeys, Apply, Enabled, InTable, Admits;
    ghost var wl, start := rt.Whitelist(), rt.Now();
    bs, ops := [start], [];
    for i := 0 to |calls|
      invariant rt.Valid() && rt.Whitelist() == wl && |ops| == i
      invariant forall b :: b in rt.buckets ==> b in old(rt.buckets) || fresh(b)
      invariant IsRunFrom(rt.cfg, wl, start, bs, ops) && rt.Records(bs[i])
      invariant forall j :: 0 <= j < i ==> Is(calls[j], ops[j])
    {
      assert forall j :: 0 <= j < |rt.buckets| ==> rt.buckets[j] in old(rt.buckets) || fresh(rt.buckets[j]);
      assert calls[i] in calls;
      ghost var n := rt.Now();
      ghost var op := CallOne(rt, calls[i]);
      ApplyMatches(rt.cfg, wl, rt.df != null, n, bs[i], op);
      ExtendRun(rt.cfg, wl, start, bs, ops, op);
      bs, ops := bs + [Apply(rt.cfg, wl, bs[i], op)], ops + [op];
    }
    PlainCallsAgree(rt.cfg, wl, start, bs, ops, calls);
  }

  lemma {:induction false} PlainCallsAgree(cfg: Config, wl: set<Peer>, start: Books, bs: seq<Books>, ops: seq<Op>, calls: seq<Call>)
    requires Inv(cfg, start.t) && IsRunFrom(cfg, wl, start, bs, ops) && |ops| == |calls|
    requires forall i :: 0 <= i < |ops| ==> Is(calls[i], ops[i])
    ensures (forall c :: c in calls ==> !c.CallAddKadRtt?) ==>
              && (AgreeEvents(start.events, start.t) ==> AgreeEvents(bs[|ops|].events, bs[|ops|].t))
              && (AgreeKeys(start.keys, wl, start.t) ==> AgreeKeys(bs[|ops|].keys, wl, bs[|ops|].t))
  {
    hide Inv, AgreeEvents, AgreeKeys, IsRunFrom;
    if forall c :: c in calls ==> !c.CallAddKadRtt? {
      forall j | 0 <= j < |ops|
        ensures !ops[j].AddKadRtt?
      {
        assert calls[j] in calls && Is(calls[j], ops[j]);
      }
      PlainRunAgrees(cfg, wl, start, bs, ops, |ops|);
    }
  }
}
