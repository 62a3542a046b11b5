/**
 The k-bucket routing table as a value: a sequence of buckets, where every bucket but the last holds
 the peers sharing exactly as many leading bits with the local identifier as its index says, and the
 last bucket holds all the rest. The operations below say what one step of the table does to that
 value; the class `RoutingTable` carries them out in place.
 */
module TableModel {
  import opened Wrappers
  import opened Keyspace

  datatype PeerInfo = PeerInfo(
    id: Peer, lastUsefulAt: Option<int>, lastQueryAt: int, addedAt: int,
    dhtId: Id, isReplaceable: bool, rtt: int)

  datatype BucketState = BucketState(list: seq<PeerInfo>, k: int, alpha: int, beta: int)

  type Table = seq<BucketState>

  /** The fixed part of a table. `hash` stands for SHA-256; among `peers`, the peers of the network, no two
      have the same hash. */
  datatype Config = Config(local: Id, hash: Peer -> Id, peers: set<Peer>, bucketsize: nat, kadRtt: bool) {

    ghost predicate Valid() {
      && bucketsize >= 2
      && (forall p :: |hash(p)| == |local|)
      && (forall p, q :: p in peers && q in peers && hash(p) == hash(q) ==> p == q)
    }

    /** An entry for a peer of the network that carries the hash of its identifier. */
    predicate Knows(x: PeerInfo) {
      x.dhtId == hash(x.id) && x.id in peers
    }

    /** Leading bits shared by a peer's identifier and the local one. */
    function Cpl(p: Peer): nat
      requires |hash(p)| == |local|
    {
      CommonPrefixLen(hash(p), local)
    }

    function Bits(): nat { 8 * |local| }
  }

  /** What the floating-point tuning formulas yield for a bucket, before clamping. */
  datatype Tuning = Tuning(k: int, alpha: int)

  function Max(a: int, b: int): int { if a < b then b else a }
  function Min(a: int, b: int): int { if a < b then a else b }

  /** The least size that is at least the bucket size, two and what the formula yields. */
  function TunedK(raw: Tuning, bucketsize: nat): (k: int)
    ensures k >= bucketsize && k >= 2 && k >= raw.k && (k == bucketsize || k == 2 || k == raw.k)
  {
    Max(bucketsize, Max(2, raw.k))
  }

  /** The clamps of the tuning step; `bucketsize` is also the pool size. */
  function Tune(b: BucketState, raw: Tuning, bucketsize: nat): (r: BucketState)
    ensures r.list == b.list
    ensures r.k >= bucketsize && r.k >= 2 && r.k >= raw.k && (r.k == bucketsize || r.k == 2 || r.k == raw.k)
    ensures r.alpha >= 2 && (raw.alpha <= 2 ==> r.alpha == 2)
    ensures 2 <= raw.alpha <= bucketsize ==> r.alpha == raw.alpha
    ensures 2 <= bucketsize <= raw.alpha ==> r.alpha == bucketsize
    ensures bucketsize >= 1 ==> r.beta == bucketsize
    ensures 1 <= r.beta <= r.k
  {
    var k := TunedK(raw, bucketsize);
    var beta := Min(k, bucketsize);
    b.(k := k,
    beta := Min(k, if beta < 1 then k else beta),
    alpha := Max(2, Min(raw.alpha, bucketsize)))
  }

  // ---------------------------------------------------------------- bucket lists

  ghost predicate HasId(list: seq<PeerInfo>, p: Peer)
  {
    exists i :: 0 <= i < |list| && list[i].id == p
  }

  ghost predicate DistinctIds(list: seq<PeerInfo>)
  {
    forall i, j :: 0 <= i < j < |list| ==> list[i].id != list[j].id
  }

  /** The peers of the entries, in order. */
  function Ids(list: seq<PeerInfo>): (r: seq<Peer>)
    ensures |r| == |list|
    ensures forall i :: 0 <= i < |list| ==> r[i] == list[i].id
  {
    seq(|list|, i requires 0 <= i < |list| => list[i].id)
  }

  /** The list with the first entry for `p` removed. */
  function Without(list: seq<PeerInfo>, p: Peer): seq<PeerInfo>
  {
    if list == [] then []
    else if list[0].id == p then list[1..]
    else [list[0]] + Without(list[1..], p)
  }

  /** The entries sharing more than `c` bits with the local identifier (or, if `!deeper`, the others). */
  function Pick(cfg: Config, list: seq<PeerInfo>, c: nat, deeper: bool): seq<PeerInfo>
    requires forall x :: x in list ==> |x.dhtId| == |cfg.local|
  {
    if list == [] then []
    else
      var rest := Pick(cfg, list[1..], c, deeper);
      if (CommonPrefixLen(list[0].dhtId, cfg.local) > c) == deeper then [list[0]] + rest else rest
  }

  /** The last replaceable entry, the one an add evicts from a full bucket. */
  function LastReplaceable(list: seq<PeerInfo>): (v: Option<PeerInfo>)
    ensures v.Some? ==> v.value in list && v.value.isReplaceable
    ensures v.None? ==> forall x :: x in list ==> !x.isReplaceable
  {
    if list == [] then None
    else if list[|list| - 1].isReplaceable then Some(list[|list| - 1])
    else LastReplaceable(list[..|list| - 1])
  }

  // ---------------------------------------------------------------- the partition

  ghost predicate Placed(cfg: Config, n: nat, i: nat, x: PeerInfo)
    requires cfg.Valid()
  {
    && cfg.Knows(x)
    && (if i < n - 1 then cfg.Cpl(x.id) == i else cfg.Cpl(x.id) >= i)
  }

  ghost predicate BucketPlaced(cfg: Config, n: nat, i: nat, list: seq<PeerInfo>)
    requires cfg.Valid()
  {
    && (forall x :: x in list ==> Placed(cfg, n, i, x))
    && DistinctIds(list)
  }

  /** Every peer sits in the bucket its identifier calls for, and none sits there twice. */
  ghost predicate Partition(cfg: Config, t: Table)
    requires cfg.Valid()
  {
    && |t| >= 1
    && forall i :: 0 <= i < |t| ==> BucketPlaced(cfg, |t|, i, t[i].list)
  }

  function IndexFor(cpl: nat, n: nat): (i: nat)
    requires n >= 1
    ensures i < n
  {
    if cpl >= n then n - 1 else cpl
  }

  /** All entries, bucket by bucket. */
  function All(t: Table): seq<PeerInfo>
  {
    if t == [] then [] else All(t[..|t| - 1]) + t[|t| - 1].list
  }

  ghost predicate InTable(t: Table, p: Peer)
  {
    exists i :: 0 <= i < |t| && HasId(t[i].list, p)
  }

  // ---------------------------------------------------------------- operations

  function PushFront(t: Table, i: nat, x: PeerInfo): Table
    requires i < |t|
  {
    t[i := t[i].(list := [x] + t[i].list)]
  }

  function Insert(cfg: Config, t: Table, x: PeerInfo): Table
    requires |t| >= 1 && |cfg.hash(x.id)| == |cfg.local|
  {
    PushFront(t, IndexFor(cfg.Cpl(x.id), |t|), x)
  }

  /** Drop empty buckets at the end, keeping the wildcard bucket last. */
  function Collapse(t: Table): (r: Table)
    requires |t| >= 1
    ensures 1 <= |r| <= |t|
    decreases |t|
  {
    var last := |t| - 1;
    if |t| > 1 && t[last].list == [] then Collapse(t[..last])
    else if |t| >= 2 && t[last - 1].list == [] then Collapse(t[..last - 1] + [t[last]])
    else t
  }

  function Remove(cfg: Config, t: Table, p: Peer): (r: Table)
    requires |t| >= 1 && |cfg.hash(p)| == |cfg.local|
    ensures |r| >= 1
  {
    var i := IndexFor(cfg.Cpl(p), |t|);
    var rest := Without(t[i].list, p);
    if |rest| == |t[i].list| then t else Collapse(t[i := t[i].(list := rest)])
  }

  const FRESH_BUCKET := BucketState([], 1, 1, 1)

  ghost predicate IdsFit(cfg: Config, t: Table)
  {
    forall i, x :: 0 <= i < |t| && x in t[i].list ==> |x.dhtId| == |cfg.local|
  }

  /** Occupancy of a new last bucket from which unfolding goes on: a fresh bucket's `k` (1) under
      KadRTT, since it is read before the bucket is tuned, and the bucket size otherwise. */
  function UnfoldThreshold(cfg: Config): nat
  {
    if cfg.kadRtt then 1 else cfg.bucketsize
  }

  /** Split the last bucket: the peers with longer common prefixes move to a new last bucket. */
  function UnfoldOnce(cfg: Config, t: Table, tune: nat -> Tuning): (r: Table)
    requires |t| >= 1 && IdsFit(cfg, t)
    ensures |r| == |t| + 1
  {
    var last := |t| - 1;
    var b := if last == 0 then Tune(t[0], tune(0), cfg.bucketsize) else t[last];
    var stay := b.(list := Pick(cfg, b.list, last, false));
    var moved := FRESH_BUCKET.(list := Pick(cfg, b.list, last, true));
    t[..last] + [stay] + [if cfg.kadRtt then Tune(moved, tune(last + 1), cfg.bucketsize) else moved]
  }

  lemma {:induction false} PickMembers(cfg: Config, list: seq<PeerInfo>, c: nat, deeper: bool, x: PeerInfo)
    requires forall x :: x in list ==> |x.dhtId| == |cfg.local|
    ensures x in Pick(cfg, list, c, deeper) <==>
            x in list && (CommonPrefixLen(x.dhtId, cfg.local) > c) == deeper
    ensures |Pick(cfg, list, c, deeper)| <= |list|
  {
    hide CommonPrefixLen;
    if list != [] {
      PickMembers(cfg, list[1..], c, deeper, x);
      assert list == [list[0]] + list[1..];
    }
  }

  lemma {:induction false} PickEmpty(cfg: Config, c: nat)
    ensures Pick(cfg, [], c, true) == [] && Pick(cfg, [], c, false) == []
  {
  }

  lemma {:induction false} UnfoldOnceFits(cfg: Config, t: Table, tune: nat -> Tuning)
    requires |t| >= 1 && IdsFit(cfg, t)
    ensures IdsFit(cfg, UnfoldOnce(cfg, t, tune))
    ensures UnfoldOnce(cfg, t, tune)[|t|].list != [] ==> |t| <= cfg.Bits()
  {
    hide CommonPrefixLen, Pick;
    var last, u := |t| - 1, UnfoldOnce(cfg, t, tune);
    forall i, x | 0 <= i < |u| && x in u[i].list
      ensures |x.dhtId| == |cfg.local|
    {
      PickMembers(cfg, t[last].list, last, true, x);
      PickMembers(cfg, t[last].list, last, false, x);
    }
    if u[|t|].list != [] {
      PickMembers(cfg, t[last].list, last, true, u[|t|].list[0]);
    }
  }

  /** Unfold the last bucket until it holds fewer peers than the threshold. A last bucket that is
      not empty witnesses a peer with a longer common prefix, which bounds the unfolding. */
  function Unfold(cfg: Config, t: Table, tune: nat -> Tuning): (r: Table)
    requires |t| >= 1 && IdsFit(cfg, t) && cfg.bucketsize >= 1
    ensures |r| > |t|
    decreases cfg.Bits() + 1 - |t|
  {
    UnfoldOnceFits(cfg, t, tune);
    var u := UnfoldOnce(cfg, t, tune);
    if |u[|t|].list| >= UnfoldThreshold(cfg) then Unfold(cfg, u, tune) else u
  }

  // ---------------------------------------------------------------- adding a peer

  datatype AddOutcome = Added | Present | HighLatency | Filtered | NoCapacity

  /** Which bound counts as full: the bucket's tuned `k` or the table-wide bucket size. `addPeer` uses
      `k` only after unfolding, `addPeer2` never, `addPeerKadRTT` always; without KadRTT all use the
      bucket size. */
  datatype Variant = Variant(tunedFirst: bool, tunedAfterUnfold: bool)

  const ADD1 := Variant(false, true)
  const ADD2 := Variant(false, false)
  const ADD_KADRTT := Variant(true, true)

  function Capacity(cfg: Config, b: BucketState, tuned: bool): int
  {
    if cfg.kadRtt && tuned then b.k else cfg.bucketsize
  }

  /** Where an add looks for room: the peer's bucket, else, if that is the last one, the peer's bucket
      after unfolding. */
  datatype Placement = Placement(t: Table, placed: bool)

  function Place(cfg: Config, t: Table, x: PeerInfo, v: Variant, tune: nat -> Tuning): (r: Placement)
    requires |t| >= 1 && IdsFit(cfg, t) && cfg.bucketsize >= 1 && |cfg.hash(x.id)| == |cfg.local|
    ensures |r.t| >= 1
  {
    var i := IndexFor(cfg.Cpl(x.id), |t|);
    if |t[i].list| < Capacity(cfg, t[i], v.tunedFirst) then
      Placement(Insert(cfg, t, x), true)
    else if i == |t| - 1 then
      var u := Unfold(cfg, t, tune);
      var j := IndexFor(cfg.Cpl(x.id), |u|);
      if |u[j].list| < Capacity(cfg, u[j], v.tunedAfterUnfold) then
        Placement(Insert(cfg, u, x), true)
      else
        Placement(u, false)
    else
      Placement(t, false)
  }

  /** A present peer's first use is recorded once. */
  function BumpEntry(x: PeerInfo, p: Peer, at: Option<int>): PeerInfo
  {
    if x.id == p && x.lastUsefulAt.None? then x.(lastUsefulAt := at) else x
  }

  function Bump(list: seq<PeerInfo>, p: Peer, at: Option<int>): (r: seq<PeerInfo>)
    ensures |r| == |list|
    ensures forall i :: 0 <= i < |r| ==> r[i] == BumpEntry(list[i], p, at)
  {
    seq(|list|, i requires 0 <= i < |list| => BumpEntry(list[i], p, at))
  }

  /** Make room in the full bucket of `x` by evicting its last replaceable entry. */
  function Replace(cfg: Config, t: Table, x: PeerInfo): (Table, AddOutcome)
    requires |t| >= 1 && cfg.Valid()
  {
    var victim := LastReplaceable(t[IndexFor(cfg.Cpl(x.id), |t|)].list);
    if victim.Some? then (Insert(cfg, Remove(cfg, t, victim.value.id), x), Added) else (t, NoCapacity)
  }

  /** Find room for `x`, by eviction if need be. */
  function PlaceOrEvict(cfg: Config, t: Table, x: PeerInfo, v: Variant, tune: nat -> Tuning): (Table, AddOutcome)
    requires |t| >= 1 && IdsFit(cfg, t) && cfg.Valid()
  {
    var pl := Place(cfg, t, x, v, tune);
    if pl.placed then (pl.t, Added) else Replace(cfg, pl.t, x)
  }

  predicate Holds(list: seq<PeerInfo>, p: Peer)
  {
    |Without(list, p)| < |list|
  }

  /** `addPeer` and `addPeer2`, for an entry `x` whose peer passes or fails the latency and diversity
      checks as given. */
  function AddPeer(cfg: Config, t: Table, x: PeerInfo, v: Variant, latencyOk: bool, admitted: bool,
                   tune: nat -> Tuning): (Table, AddOutcome)
    requires |t| >= 1 && IdsFit(cfg, t) && cfg.Valid()
  {
    var i := IndexFor(cfg.Cpl(x.id), |t|);
    if Holds(t[i].list, x.id) then
      (t[i := t[i].(list := Bump(t[i].list, x.id, x.lastUsefulAt))], Present)
    else if !latencyOk then (t, HighLatency)
    else if !admitted then (t, Filtered)
    else PlaceOrEvict(cfg, t, x, v, tune)
  }
}
