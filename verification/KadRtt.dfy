/**
 What KadRTT adds to an add: the bucket is re-tuned and trimmed first, and a full bucket may exchange a
 slower peer for the newcomer, chosen so that the identifiers left in the bucket spread most evenly.
 */
module KadRtt {
  import opened Wrappers
  import opened Collections
  import opened Keyspace
  import opened Sorting
  import opened TableModel
  import opened TableProofs
  import opened TableSteps

  /** Whole milliseconds of a duration in nanoseconds, truncated towards zero. */
  function Milliseconds(d: int): int
  {
    if d >= 0 then d / 1000000 else -((-d) / 1000000)
  }

  function ByHash(): PeerInfo -> int
  {
    (x: PeerInfo) => ToNat(x.dhtId)
  }

  function CplBetween(a: PeerInfo, b: PeerInfo): nat
  {
    if |a.dhtId| == |b.dhtId| then CommonPrefixLen(a.dhtId, b.dhtId) else 0
  }

  function Square(r: real): real { r * r }

  /** Sum of the common prefix lengths of neighbours. */
  function CplSum(bp: seq<PeerInfo>): nat
  {
    if |bp| < 2 then 0 else CplSum(bp[..|bp| - 1]) + CplBetween(bp[|bp| - 2], bp[|bp| - 1])
  }

  /** Sum of the squared deviations of those lengths from `avg`. */
  function Spread(bp: seq<PeerInfo>, avg: real): real
  {
    if |bp| < 2 then 0.0
    else Spread(bp[..|bp| - 1], avg) + Square(CplBetween(bp[|bp| - 2], bp[|bp| - 1]) as real - avg)
  }

  /** The current bucket's own figure adds up the partial sums instead. */
  function RunningSpread(bp: seq<PeerInfo>, avg: real): real
  {
    if |bp| < 2 then 0.0 else RunningSpread(bp[..|bp| - 1], avg) + Spread(bp, avg)
  }

  ghost function InKeyOrder(list: seq<PeerInfo>): seq<PeerInfo>
  {
    SomeSort(list, ByHash())
  }

  function Average(bp: seq<PeerInfo>): real
    requires bp != []
  {
    CplSum(bp) as real / |bp| as real
  }

  /** The score of a bucket with `outgoing` exchanged for `x`. */
  ghost function ExchangeScore(list: seq<PeerInfo>, outgoing: Peer, x: PeerInfo): real
  {
    var bp := InKeyOrder(Others(list, outgoing) + [x]);
    if bp == [] then 0.0 else Spread(bp, Average(bp))
  }

  ghost function CurrentScore(list: seq<PeerInfo>): real
  {
    var bp := InKeyOrder(list);
    if bp == [] then 0.0 else RunningSpread(bp, Average(bp))
  }

  /** All entries not for `p`. */
  function Others(list: seq<PeerInfo>, p: Peer): seq<PeerInfo>
  {
    if list == [] then []
    else if list[|list| - 1].id != p then Others(list[..|list| - 1], p) + [list[|list| - 1]]
    else Others(list[..|list| - 1], p)
  }

  /** A peer without a measured time counts with the latency the metrics know. */
  function EffectiveRtt(x: PeerInfo, latency: Peer -> int): int
  {
    if Milliseconds(x.rtt) <= 0 then latency(x.id) else x.rtt
  }

  predicate Slower(y: PeerInfo, rtt: int, latency: Peer -> int)
  {
    Milliseconds(EffectiveRtt(y, latency)) > Milliseconds(rtt)
  }

  /** A peer at least a millisecond slower counts as slower, one no slower never does; what a peer without a measured
      time of a millisecond is judged by is its known latency. */
  lemma {:induction false} SlowerBounds(y: PeerInfo, rtt: int, latency: Peer -> int)
    requires rtt >= 0
    ensures var time := if y.rtt >= 1000000 then y.rtt else latency(y.id);
            (time >= rtt + 1000000 ==> Slower(y, rtt, latency)) && (time <= rtt ==> !Slower(y, rtt, latency))
  {
  }

  /** The peers considered for exchange: the slower ones, except the last in key order, which is never
      looked at. Later ones in key order come first. */
  function Candidates(bp: seq<PeerInfo>, n: nat, rtt: int, latency: Peer -> int): seq<PeerInfo>
    requires n <= |bp|
  {
    if n == 0 then []
    else if Slower(bp[n - 1], rtt, latency) then [bp[n - 1]] + Candidates(bp, n - 1, rtt, latency)
    else Candidates(bp, n - 1, rtt, latency)
  }

  /** The selection loop: a candidate at least as good as the best so far replaces it. */
  ghost function Choose(list: seq<PeerInfo>, cands: seq<PeerInfo>, x: PeerInfo): (Option<PeerInfo>, real)
  {
    if cands == [] then (None, CurrentScore(list))
    else
      var (best, v) := Choose(list, cands[..|cands| - 1], x);
      var c := cands[|cands| - 1];
      var s := ExchangeScore(list, c.id, x);
      if s <= v then (Some(c), s) else (best, v)
  }

  ghost function CandidatesOf(list: seq<PeerInfo>, rtt: int, latency: Peer -> int): seq<PeerInfo>
  {
    var bp := InKeyOrder(list);
    if bp == [] then [] else Candidates(bp, |bp| - 1, rtt, latency)
  }

  /** The peer a KadRTT exchange would evict for `x`, replaceable or not. */
  ghost function Victim(list: seq<PeerInfo>, x: PeerInfo, latency: Peer -> int): Option<PeerInfo>
  {
    Choose(list, CandidatesOf(list, x.rtt, latency), x).0
  }

  lemma {:induction false} CandidateFacts(bp: seq<PeerInfo>, n: nat, rtt: int, latency: Peer -> int, y: PeerInfo)
    requires n <= |bp|
    ensures y in Candidates(bp, n, rtt, latency) <==> y in bp[..n] && Slower(y, rtt, latency)
  {
    if n > 0 {
      CandidateFacts(bp, n - 1, rtt, latency, y);
      assert bp[..n] == bp[..n - 1] + [bp[n - 1]];
    }
  }

  lemma {:induction false} ChooseIsMinimal(list: seq<PeerInfo>, cands: seq<PeerInfo>, x: PeerInfo)
    ensures var (best, v) := Choose(list, cands, x);
            && v <= CurrentScore(list)
            && (forall c :: c in cands ==> v <= ExchangeScore(list, c.id, x))
            && (best.Some? ==> best.value in cands && v == ExchangeScore(list, best.value.id, x))
            && (best.None? ==> v == CurrentScore(list) && forall c :: c in cands ==> ExchangeScore(list, c.id, x) > v)
  {
    hide ExchangeScore, CurrentScore;
    if cands != [] {
      ChooseIsMinimal(list, cands[..|cands| - 1], x);
      assert cands == cands[..|cands| - 1] + [cands[|cands| - 1]];
    }
  }

  lemma {:induction false} OnlyOnce(bp: seq<PeerInfo>, list: seq<PeerInfo>, i: nat, j: nat)
    requires multiset(bp) == multiset(list) && DistinctIds(list) && i < j < |bp|
    ensures bp[i] != bp[j]
  {
    if bp[i] == bp[j] {
      Once(list, bp[i]);
      Twice(bp, i, j);
    }
  }

  /** In key order, the entries before the last are those with a greater key somewhere. */
  lemma {:induction false} BeforeLast(bp: seq<PeerInfo>, list: seq<PeerInfo>, y: PeerInfo)
    requires IsSortOf(bp, list, ByHash()) && InjectiveOn(list, ByHash()) && DistinctIds(list) && bp != []
    ensures y in bp[..|bp| - 1] <==> y in list && exists z :: z in list && ToNat(y.dhtId) < ToNat(z.dhtId)
  {
    hide ToNat, DistinctIds;
    SameElements(bp, list);
    var n := |bp| - 1;
    assert bp[n] in list;
    if y in bp[..n] {
      var i :| 0 <= i < n && bp[..n][i] == y;
      assert ByHash()(bp[i]) <= ByHash()(bp[n]);
      OnlyOnce(bp, list, i, n);
    } else if y in list {
      assert bp == bp[..n] + [bp[n]];
      forall z | z in list
        ensures ToNat(z.dhtId) <= ToNat(y.dhtId)
      {
        var j :| 0 <= j < |bp| && bp[j] == z;
        assert j < n ==> ByHash()(bp[j]) <= ByHash()(bp[n]);
      }
    }
  }

  /** The peers considered are exactly the slower ones that do not come last in key order. */
  lemma {:induction false} CandidatesAre(list: seq<PeerInfo>, rtt: int, latency: Peer -> int, y: PeerInfo)
    requires InjectiveOn(list, ByHash()) && DistinctIds(list)
    ensures y in CandidatesOf(list, rtt, latency)
       <==> y in list && Slower(y, rtt, latency) && exists z :: z in list && ToNat(y.dhtId) < ToNat(z.dhtId)
  {
    hide ToNat, Slower, SomeSort, InjectiveOn, DistinctIds, SortedBy, Candidates;
    var bp := InKeyOrder(list);
    SomeSortIsSort(list, ByHash());
    SameElements(bp, list);
    if bp != [] {
      CandidateFacts(bp, |bp| - 1, rtt, latency, y);
      BeforeLast(bp, list, y);
    }
  }

  /** The chosen peer is in the bucket, measured strictly slower in milliseconds than the newcomer, and
      no other slower candidate would score better; nobody is chosen only if exchanging any candidate
      would make the score worse. */
  lemma {:induction false} VictimFacts(list: seq<PeerInfo>, x: PeerInfo, latency: Peer -> int)
    ensures var v := Victim(list, x, latency);
            var cands := CandidatesOf(list, x.rtt, latency);
            && (v.Some? ==>
                  && v.value in list && Slower(v.value, x.rtt, latency)
                  && ExchangeScore(list, v.value.id, x) <= CurrentScore(list)
                  && forall c :: c in cands ==> ExchangeScore(list, v.value.id, x) <= ExchangeScore(list, c.id, x))
            && (v.None? ==> forall c :: c in cands ==> ExchangeScore(list, c.id, x) > CurrentScore(list))
  {
    hide ExchangeScore, CurrentScore, SomeSort, Choose, Slower;
    var cands := CandidatesOf(list, x.rtt, latency);
    ChooseIsMinimal(list, cands, x);
    var v := Victim(list, x, latency);
    if v.Some? {
      var bp := InKeyOrder(list);
      SomeSortIsSort(list, ByHash());
      SameElements(bp, list);
      CandidateFacts(bp, |bp| - 1, x.rtt, latency, v.value);
    }
  }

  /** The entry an exchange makes for the newcomer: replaceable and useful from now on, whatever was asked. */
  function Incoming(x: PeerInfo): (y: PeerInfo)
    ensures y.isReplaceable && y.lastUsefulAt.Some? && y.id == x.id && y.rtt == x.rtt && y.dhtId == x.dhtId
  {
    x.(isReplaceable := true, lastUsefulAt := Some(x.addedAt))
  }

  /** The chosen candidate stands behind all others that score as well. */
  lemma {:induction false} ChooseIsLast(list: seq<PeerInfo>, cands: seq<PeerInfo>, x: PeerInfo) returns (i: nat)
    requires Choose(list, cands, x).0.Some?
    ensures i < |cands| && Choose(list, cands, x).0 == Some(cands[i])
    ensures forall j :: i < j < |cands| ==> ExchangeScore(list, cands[j].id, x) > ExchangeScore(list, cands[i].id, x)
    decreases |cands|
  {
    hide ExchangeScore, CurrentScore;
    var n := |cands| - 1;
    var (best, v) := Choose(list, cands[..n], x);
    ChooseIsMinimal(list, cands[..n], x);
    if ExchangeScore(list, cands[n].id, x) <= v {
      i := n;
    } else {
      i := ChooseIsLast(list, cands[..n], x);
    }
  }

  ghost predicate Descends(cs: seq<PeerInfo>)
  {
    forall i, j :: 0 <= i < j < |cs| ==> ToNat(cs[j].dhtId) <= ToNat(cs[i].dhtId)
  }

  lemma {:induction false} CandidatesDescend(bp: seq<PeerInfo>, n: nat, rtt: int, latency: Peer -> int)
    requires n <= |bp| && SortedBy(bp, ByHash())
    ensures Descends(Candidates(bp, n, rtt, latency))
  {
    hide Slower, ToNat;
    if n > 0 {
      CandidatesDescend(bp, n - 1, rtt, latency);
      var rest := Candidates(bp, n - 1, rtt, latency);
      forall j | 0 <= j < |rest|
        ensures ToNat(rest[j].dhtId) <= ToNat(bp[n - 1].dhtId)
      {
        CandidateFacts(bp, n - 1, rtt, latency, rest[j]);
        var k :| 0 <= k < n - 1 && bp[..n - 1][k] == rest[j];
        assert ByHash()(bp[k]) <= ByHash()(bp[n - 1]);
      }
    }
  }

  /** Among peers considered that score equally well, the one chosen has the least key. */
  lemma {:induction false} VictimHasLeastKey(list: seq<PeerInfo>, x: PeerInfo, latency: Peer -> int, c: PeerInfo)
    requires Victim(list, x, latency).Some? && c in CandidatesOf(list, x.rtt, latency)
    requires ExchangeScore(list, c.id, x) == ExchangeScore(list, Victim(list, x, latency).value.id, x)
    ensures ToNat(Victim(list, x, latency).value.dhtId) <= ToNat(c.dhtId)
  {
    hide ExchangeScore, Choose, Candidates, SomeSort, ToNat;
    var cands, bp := CandidatesOf(list, x.rtt, latency), InKeyOrder(list);
    var i := ChooseIsLast(list, cands, x);
    SomeSortIsSort(list, ByHash());
    CandidatesDescend(bp, |bp| - 1, x.rtt, latency);
    var j :| 0 <= j < |cands| && cands[j] == c;
  }

  /** A peer that an exchange may evict: slower than the newcomer, and not the last in key order. */
  ghost predicate Considered(list: seq<PeerInfo>, rtt: int, latency: Peer -> int, y: PeerInfo)
  {
    y in list && Slower(y, rtt, latency) && exists z :: z in list && ToNat(y.dhtId) < ToNat(z.dhtId)
  }

  /** The choice over the bucket itself: of all peers considered the one chosen gives the least score, no worse than
      the bucket's own; nobody is chosen exactly if every one considered gives a worse score. */
  lemma {:induction false} VictimIsBest(list: seq<PeerInfo>, x: PeerInfo, latency: Peer -> int)
    requires InjectiveOn(list, ByHash()) && DistinctIds(list)
    ensures var v := Victim(list, x, latency);
            && (v.Some? ==>
                  && Considered(list, x.rtt, latency, v.value) && ExchangeScore(list, v.value.id, x) <= CurrentScore(list)
                  && forall c :: Considered(list, x.rtt, latency, c) ==>
                                   ExchangeScore(list, v.value.id, x) <= ExchangeScore(list, c.id, x))
            && (v.None? <==> forall c :: Considered(list, x.rtt, latency, c) ==> ExchangeScore(list, c.id, x) > CurrentScore(list))
  {
    hide ExchangeScore, CurrentScore, CandidatesOf, Slower, InjectiveOn, DistinctIds, Choose, ToNat;
    ChooseIsMinimal(list, CandidatesOf(list, x.rtt, latency), x);
    forall c
      ensures c in CandidatesOf(list, x.rtt, latency) <==> Considered(list, x.rtt, latency, c)
    {
      CandidatesAre(list, x.rtt, latency, c);
    }
  }

  /** Carry out the exchange in the full bucket of `x`, if the chosen peer is replaceable. */
  ghost function Exchange(cfg: Config, t: Table, x: PeerInfo, latency: Peer -> int): (Table, Option<Peer>)
    requires |t| >= 1 && cfg.Valid()
  {
    var v := Victim(TargetBucket(cfg, t, x.id).list, x, latency);
    if v.Some? && v.value.isReplaceable
    then (Insert(cfg, Remove(cfg, t, v.value.id), Incoming(x)), Some(v.value.id))
    else (t, None)
  }

  /** An exchange keeps the invariant and the number of peers, and puts the newcomer in the place of one
      replaceable peer of its bucket. */
  lemma {:induction false} ExchangeInv(cfg: Config, t: Table, x: PeerInfo, latency: Peer -> int)
    requires Inv(cfg, t) && cfg.Knows(x) && !InTable(t, x.id)
    requires |TargetBucket(cfg, t, x.id).list| >= 2
    ensures var (u, gone) := Exchange(cfg, t, x, latency);
            && Inv(cfg, u)
            && PeersChange(t, u, gone, if gone.Some? then Some(x.id) else None)
            && (gone.Some? ==> exists y ::
                    && y in TargetBucket(cfg, t, x.id).list && y.id == gone.value && y.isReplaceable
                    && Victim(TargetBucket(cfg, t, x.id).list, x, latency) == Some(y)
                    && Slower(y, x.rtt, latency) && Exchanged(t, u, Incoming(x), y)
                    && |TargetBucket(cfg, u, x.id).list| == |TargetBucket(cfg, t, x.id).list|)
  {
    hide Victim, Insert, Remove, All, InTable, PeersChange, ShapeOk, Slower, Exchanged;
    var list := TargetBucket(cfg, t, x.id).list;
    var v := Victim(list, x, latency);
    VictimFacts(list, x, latency);
    if v.Some? && v.value.isReplaceable {
      var y, x' := v.value, Incoming(x);
      SwapInv(cfg, t, x', y);
      SwappedChange(cfg, t, x', y);
      SwapTarget(cfg, t, x.id, y);
      InsertTarget(cfg, Remove(cfg, t, y.id), x');
    } else {
      NobodyChanges(t, t);
    }
  }

  lemma {:induction false} InsertTarget(cfg: Config, t: Table, x: PeerInfo)
    requires |t| >= 1 && cfg.Valid()
    ensures TargetBucket(cfg, Insert(cfg, t, x), x.id).list == [x] + TargetBucket(cfg, t, x.id).list
  {
  }

  // ---------------------------------------------------------------- trimming

  /** The bucket after removing the given peers one after the other. */
  function WithoutAll(list: seq<PeerInfo>, ids: seq<Peer>): seq<PeerInfo>
  {
    if ids == [] then list else Without(WithoutAll(list, ids[..|ids| - 1]), ids[|ids| - 1])
  }

  /** Removing `ids` leaves `k` entries, and what is removed scores at least as high as all that is kept. */
  ghost predicate DropsHighest(list: seq<PeerInfo>, k: int, score: Peer -> int, kept: seq<PeerInfo>, ids: seq<Peer>)
  {
    && kept == WithoutAll(list, ids) && |kept| == k
    && forall a, b :: a in list && a !in kept && b in kept ==> score(a.id) >= score(b.id)
  }

  /** `kept` is what trimming to `k` entries may leave. */
  ghost predicate Trimmed(list: seq<PeerInfo>, k: int, score: Peer -> int, kept: seq<PeerInfo>)
  {
    if |list| <= k then kept == list else exists ids :: DropsHighest(list, k, score, kept, ids)
  }

  lemma {:induction false} WithoutAllDistinct(list: seq<PeerInfo>, ids: seq<Peer>)
    requires DistinctIds(list)
    ensures DistinctIds(WithoutAll(list, ids))
  {
    if ids != [] {
      hide DistinctIds, Without;
      WithoutAllDistinct(list, ids[..|ids| - 1]);
      WithoutFacts(WithoutAll(list, ids[..|ids| - 1]), ids[|ids| - 1]);
    }
  }

  lemma {:induction false} WithoutAllMember(list: seq<PeerInfo>, ids: seq<Peer>, x: PeerInfo)
    requires DistinctIds(list)
    ensures x in WithoutAll(list, ids) <==> x in list && x.id !in ids
  {
    if ids != [] {
      hide DistinctIds, Without;
      var init, p := ids[..|ids| - 1], ids[|ids| - 1];
      assert x.id in ids <==> x.id in init || x.id == p by {
        assert ids == init + [p];
      }
      WithoutAllMember(list, init, x);
      WithoutAllDistinct(list, init);
      WithoutFacts(WithoutAll(list, init), p);
    }
  }

  lemma {:induction false} WithoutAllLength(list: seq<PeerInfo>, ids: seq<Peer>)
    requires DistinctIds(list)
    requires forall i, j :: 0 <= i < j < |ids| ==> ids[i] != ids[j]
    requires forall p :: p in ids ==> HasId(list, p)
    ensures |WithoutAll(list, ids)| == |list| - |ids|
  {
    if ids != [] {
      var init, p := ids[..|ids| - 1], ids[|ids| - 1];
      WithoutAllLength(list, init);
      WithoutAllDistinct(list, init);
      var rest := WithoutAll(list, init);
      assert HasId(rest, p) by {
        assert p in ids;
        HasIdMember(list, p);
        HasIdMember(rest, p);
        var x :| x in list && x.id == p;
        WithoutAllMember(list, init, x);
      }
      WithoutFacts(rest, p);
    }
  }

  // ---------------------------------------------------------------- computing the exchange

  method SumNeighbours(bp: seq<PeerInfo>) returns (total: nat)
    requires bp != []
    ensures total == CplSum(bp)
  {
    total := 0;
    for i := 1 to |bp|
      invariant total == CplSum(bp[..i])
    {
      assert bp[..i + 1][..i] == bp[..i];
      total := total + CplBetween(bp[i - 1], bp[i]);
    }
    assert bp[..|bp|] == bp;
  }

  method SumDeviations(bp: seq<PeerInfo>, avg: real) returns (v: real, running: real)
    requires bp != []
    ensures v == Spread(bp, avg) && running == RunningSpread(bp, avg)
  {
    hide CplBetween, Square;
    v, running := 0.0, 0.0;
    for i := 1 to |bp|
      invariant v == Spread(bp[..i], avg) && running == RunningSpread(bp[..i], avg)
    {
      assert bp[..i + 1][..i] == bp[..i];
      v := v + Square(CplBetween(bp[i - 1], bp[i]) as real - avg);
      running := running + v;
    }
    assert bp[..|bp|] == bp;
  }

  method OthersOf(list: seq<PeerInfo>, p: Peer) returns (r: seq<PeerInfo>)
    ensures r == Others(list, p)
  {
    r := [];
    for i := 0 to |list|
      invariant r == Others(list[..i], p)
    {
      assert list[..i + 1][..i] == list[..i];
      if list[i].id != p {
        r := r + [list[i]];
      }
    }
    assert list[..|list|] == list;
  }

  lemma {:induction false} OthersMember(list: seq<PeerInfo>, p: Peer, x: PeerInfo)
    ensures x in Others(list, p) ==> x in list
  {
    if list != [] {
      OthersMember(list[..|list| - 1], p, x);
    }
  }

  /** The key order is unambiguous because no two entries share a key. */
  lemma {:induction false} KeyOrderUnique(list: seq<PeerInfo>, bp: seq<PeerInfo>)
    requires InjectiveOn(list, ByHash()) && IsSortOf(bp, list, ByHash())
    ensures bp == InKeyOrder(list) && |bp| == |list|
  {
    SomeSortIsSort(list, ByHash());
    SameElements(bp, list);
    SameElements(InKeyOrder(list), list);
    SortUnique(bp, InKeyOrder(list), ByHash());
  }

  method ScoreExchange(list: seq<PeerInfo>, outgoing: Peer, x: PeerInfo) returns (v: real)
    requires InjectiveOn(list + [x], ByHash())
    ensures v == ExchangeScore(list, outgoing, x)
  {
    hide SomeSort, Spread, CplSum, RunningSpread;
    var rest := OthersOf(list, outgoing);
    forall y
      ensures y in rest + [x] ==> y in list + [x]
    {
      OthersMember(list, outgoing, y);
    }
    var bp := SortByKey(rest + [x], ByHash());
    KeyOrderUnique(rest + [x], bp);
    var total := SumNeighbours(bp);
    var running;
    v, running := SumDeviations(bp, total as real / |bp| as real);
  }

  method SlowerOnes(bp: seq<PeerInfo>, rtt: int, latency: Peer -> int) returns (cands: seq<PeerInfo>)
    requires bp != []
    ensures cands == Candidates(bp, |bp| - 1, rtt, latency)
  {
    cands := [];
    for i := 0 to |bp| - 1
      invariant cands == Candidates(bp, i, rtt, latency)
    {
      if Slower(bp[i], rtt, latency) {
        cands := [bp[i]] + cands;
      }
    }
  }

  method ChooseVictim(list: seq<PeerInfo>, x: PeerInfo, latency: Peer -> int) returns (v: Option<PeerInfo>)
    requires list != [] && InjectiveOn(list + [x], ByHash())
    ensures v == Victim(list, x, latency)
  {
    hide SomeSort, Spread, CplSum, RunningSpread, Candidates, ExchangeScore;
    var bp := SortByKey(list, ByHash());
    KeyOrderUnique(list, bp);
    var total := SumNeighbours(bp);
    var spread, best := SumDeviations(bp, total as real / |bp| as real);
    var cands := SlowerOnes(bp, x.rtt, latency);
    v := None;
    for i := 0 to |cands|
      invariant (v, best) == Choose(list, cands[..i], x)
    {
      assert cands[..i + 1][..i] == cands[..i];
      var s := ScoreExchange(list, cands[i].id, x);
      if s <= best {
        v, best := Some(cands[i]), s;
      }
    }
    assert cands[..|cands|] == cands;
  }

  // ---------------------------------------------------------------- the whole add

  /** The table with the peer's bucket re-tuned and trimmed to `kept`. */
  function Retuned(cfg: Config, t: Table, p: Peer, raw: Tuning, kept: seq<PeerInfo>): Table
    requires |t| >= 1 && |cfg.hash(p)| == |cfg.local|
  {
    var i := IndexFor(cfg.Cpl(p), |t|);
    t[i := Tune(t[i], raw, cfg.bucketsize).(list := kept)]
  }

  lemma {:induction false} TrimmedFacts(list: seq<PeerInfo>, k: int, score: Peer -> int, kept: seq<PeerInfo>)
    requires DistinctIds(list) && Trimmed(list, k, score, kept)
    ensures DistinctIds(kept) && (forall x :: x in kept ==> x in list) && |kept| <= |list|
    ensures |kept| <= k && (|list| > k ==> |kept| == k)
  {
    if |list| > k {
      var ids :| DropsHighest(list, k, score, kept, ids);
      WithoutAllDistinct(list, ids);
      forall x
        ensures x in kept ==> x in list
      {
        WithoutAllMember(list, ids, x);
      }
    }
  }

  /** Re-tuning and trimming keep the invariant; a bucket within its new size keeps all its peers, which
      without KadRTT is always so. */
  lemma {:induction false} RetunedInv(cfg: Config, t: Table, p: Peer, raw: Tuning, score: Peer -> int, kept: seq<PeerInfo>)
    requires Inv(cfg, t)
    requires Trimmed(TargetBucket(cfg, t, p).list, TunedK(raw, cfg.bucketsize), score, kept)
    ensures Inv(cfg, Retuned(cfg, t, p, raw, kept))
    ensures !cfg.kadRtt ==> kept == TargetBucket(cfg, t, p).list
  {
    var i := IndexFor(cfg.Cpl(p), |t|);
    assert BucketPlaced(cfg, |t|, i, t[i].list) && BucketOk(cfg, |t|, t[i]);
    TrimmedFacts(t[i].list, TunedK(raw, cfg.bucketsize), score, kept);
    var b := Tune(t[i], raw, cfg.bucketsize).(list := kept);
    ReplaceBucket(cfg, t, i, b);
    ReplaceShape(cfg, t, i, b);
  }

  function HighestFirst(score: Peer -> int): Peer -> int
  {
    p => -score(p)
  }

  lemma {:induction false} OrderRepeatsNobody(list: seq<PeerInfo>, order: seq<Peer>)
    requires DistinctIds(list) && multiset(order) == multiset(Ids(list))
    ensures forall i, j :: 0 <= i < j < |order| ==> order[i] != order[j]
  {
    var ids := Ids(list);
    forall i, j | 0 <= i < j < |order|
      ensures order[i] != order[j]
    {
      if order[i] == order[j] {
        Twice(order, i, j);
        Once(ids, order[i]);
      }
    }
  }

  lemma {:induction false} DroppedScoresHigh(list: seq<PeerInfo>, order: seq<Peer>, n: nat, score: Peer -> int, a: PeerInfo, b: PeerInfo)
    requires DistinctIds(list) && SortedBy(order, HighestFirst(score)) && n <= |order|
    requires forall p :: p in order <==> p in Ids(list)
    requires a in list && a !in WithoutAll(list, order[..n]) && b in WithoutAll(list, order[..n])
    ensures score(a.id) >= score(b.id)
  {
    hide DistinctIds, WithoutAll;
    WithoutAllMember(list, order[..n], a);
    WithoutAllMember(list, order[..n], b);
    var i :| 0 <= i < n && order[..n][i] == a.id;
    var j := FindId(list, order, b);
    assert HighestFirst(score)(order[i]) <= HighestFirst(score)(order[j]);
  }

  lemma {:induction false} TrimLength(list: seq<PeerInfo>, order: seq<Peer>, n: nat)
    requires DistinctIds(list) && multiset(order) == multiset(Ids(list)) && n <= |order|
    requires forall p :: p in order <==> p in Ids(list)
    ensures |WithoutAll(list, order[..n])| == |list| - n
  {
    OrderRepeatsNobody(list, order);
    forall p | p in order[..n]
      ensures HasId(list, p)
    {
      assert p in Ids(list);
    }
    WithoutAllLength(list, order[..n]);
  }

  /** Dropping the highest-scoring peers first is a trimming. */
  lemma {:induction false} TrimOrder(list: seq<PeerInfo>, order: seq<Peer>, n: nat, score: Peer -> int)
    requires DistinctIds(list) && IsSortOf(order, Ids(list), HighestFirst(score)) && 0 < n <= |list|
    ensures |order| == |list|
    ensures Trimmed(list, |list| - n, score, WithoutAll(list, order[..n]))
  {
    SameElements(order, Ids(list));
    hide DistinctIds, WithoutAll, SortedBy;
    TrimLength(list, order, n);
    var kept := WithoutAll(list, order[..n]);
    forall a, b | a in list && a !in kept && b in kept
      ensures score(a.id) >= score(b.id)
    {
      DroppedScoresHigh(list, order, n, score, a, b);
    }
    assert DropsHighest(list, |list| - n, score, kept, order[..n]);
  }

  lemma {:induction false} FindId(list: seq<PeerInfo>, order: seq<Peer>, b: PeerInfo) returns (j: nat)
    requires b in list && forall p :: p in order <==> p in Ids(list)
    ensures j < |order| && order[j] == b.id
  {
    var i :| 0 <= i < |list| && list[i] == b;
    assert Ids(list)[i] == b.id;
    assert b.id in order;
    j :| 0 <= j < |order| && order[j] == b.id;
  }

  /** Find room for `x`, under KadRTT by exchange if need be. A successful exchange is still reported as
      no capacity. Without KadRTT the eviction rule of the other adds applies. */
  ghost function PlaceOrExchange(cfg: Config, t: Table, x: PeerInfo, tune: nat -> Tuning, latency: Peer -> int)
    : (Table, AddOutcome)
    requires |t| >= 1 && IdsFit(cfg, t) && cfg.Valid()
  {
    var pl := Place(cfg, t, x, ADD_KADRTT, tune);
    if pl.placed then (pl.t, Added)
    else if cfg.kadRtt then (Exchange(cfg, pl.t, x, latency).0, NoCapacity)
    else Replace(cfg, pl.t, x)
  }

  /** No two entries of a bucket and no entry and an absent newcomer share a key. */
  lemma {:induction false} KeysDiffer(cfg: Config, t: Table, x: PeerInfo)
    requires cfg.Valid() && Partition(cfg, t) && cfg.Knows(x) && !InTable(t, x.id)
    ensures InjectiveOn(TargetBucket(cfg, t, x.id).list + [x], ByHash())
  {
    var i := IndexFor(cfg.Cpl(x.id), |t|);
    var list := t[i].list;
    assert BucketPlaced(cfg, |t|, i, list);
    HasIdMember(list, x.id);
    forall a, b | a in list + [x] && b in list + [x] && ByHash()(a) == ByHash()(b)
      ensures a == b
    {
      assert cfg.Knows(a) && cfg.Knows(b);
      LessIsNumeric(a.dhtId, b.dhtId);
      assert a.id == b.id;
      if a in list && b in list {
        var j :| 0 <= j < |list| && list[j] == a;
        var k :| 0 <= k < |list| && list[k] == b;
      }
    }
  }

  lemma {:induction false} VictimInBucket(list: seq<PeerInfo>, x: PeerInfo, latency: Peer -> int)
    ensures var v := Victim(list, x, latency); v.Some? ==> v.value in list
  {
    VictimFacts(list, x, latency);
  }
}
