/**
 The table together with what others have been told about it: the notifications sent, and the peers the
 diversity filter tracks. The operations below are the table's operations with both kept up to date as the
 program does, and the lemmas say when the three still agree.
 */
module Bookkeeping {
  import opened Wrappers
  import opened Keyspace
  import opened TableModel
  import opened TableProofs
  import opened TableSteps
  import opened KadRtt
  import opened Buckets

  /** The calls made to the two notification functions. */
  datatype Event = PeerAdded(p: Peer) | PeerRemoved(p: Peer)

  function Balance(events: seq<Event>, p: Peer): int
  {
    if events == [] then 0
    else
      var e := events[|events| - 1];
      Balance(events[..|events| - 1], p) + (if e == PeerAdded(p) then 1 else if e == PeerRemoved(p) then -1 else 0)
  }

  lemma {:induction false} BalanceAppend(events: seq<Event>, e: Event, p: Peer)
    ensures Balance(events + [e], p)
         == Balance(events, p) + (if e == PeerAdded(p) then 1 else if e == PeerRemoved(p) then -1 else 0)
  {
    assert (events + [e])[..|events|] == events;
  }

  ghost predicate AgreeEvents(events: seq<Event>, t: Table)
  {
    forall p :: Balance(events, p) == if InTable(t, p) then 1 else 0
  }

  lemma {:induction false} AbsentStays(t: Table, u: Table, p: Peer)
    requires PeersChange(t, u, None, None) && !InTable(t, p)
    ensures !InTable(u, p)
  {
    hide InTable;
  }

  ghost predicate AgreeKeys(keys: set<Peer>, whitelist: set<Peer>, t: Table)
  {
    forall p :: p in keys <==> InTable(t, p) && p !in whitelist
  }

  function Announced(gone: Option<Peer>, come: Option<Peer>): (r: seq<Event>)
    ensures gone.Some? && come.Some? ==> r == [PeerRemoved(gone.value), PeerAdded(come.value)]
  {
    (if gone.Some? then [PeerRemoved(gone.value)] else []) + (if come.Some? then [PeerAdded(come.value)] else [])
  }

  lemma {:induction false} BalanceConcat(a: seq<Event>, b: seq<Event>, p: Peer)
    ensures Balance(a + b, p) == Balance(a, p) + Balance(b, p)
  {
    if b == [] {
      assert a + b == a;
    } else {
      var e := b[|b| - 1];
      assert a + b == (a + b[..|b| - 1]) + [e];
      BalanceAppend(a + b[..|b| - 1], e, p);
      BalanceConcat(a, b[..|b| - 1], p);
    }
  }

  lemma {:induction false} AnnouncedBalance(gone: Option<Peer>, come: Option<Peer>, p: Peer)
    ensures Balance(Announced(gone, come), p)
         == (if come == Some(p) then 1 else 0) - (if gone == Some(p) then 1 else 0)
  {
    var a := if gone.Some? then [PeerRemoved(gone.value)] else [];
    var b := if come.Some? then [PeerAdded(come.value)] else [];
    BalanceConcat(a, b, p);
    if gone.Some? { BalanceAppend([], PeerRemoved(gone.value), p); assert [] + a == a; }
    if come.Some? { BalanceAppend([], PeerAdded(come.value), p); assert [] + b == b; }
  }

  /** Announcing who left and who arrived keeps the announcements in step with the table. */
  lemma {:induction false} EventsFollow(events: seq<Event>, t: Table, u: Table, gone: Option<Peer>, come: Option<Peer>)
    requires AgreeEvents(events, t) && PeersChange(t, u, gone, come)
    ensures AgreeEvents(events + Announced(gone, come), u)
  {
    hide InTable, Balance, Announced;
    forall p
      ensures Balance(events + Announced(gone, come), p) == if InTable(u, p) then 1 else 0
    {
      BalanceConcat(events, Announced(gone, come), p);
      AnnouncedBalance(gone, come, p);
    }
  }

  function KeysAfter(keys: set<Peer>, whitelist: set<Peer>, gone: Option<Peer>, come: Option<Peer>): set<Peer>
  {
    (if gone.Some? then keys - {gone.value} else keys)
    + (if come.Some? && come.value !in whitelist then {come.value} else {})
  }

  /** Untracking who left and tracking who arrived, unless whitelisted, keeps the filter in step. */
  lemma {:induction false} KeysFollow(keys: set<Peer>, whitelist: set<Peer>, t: Table, u: Table, gone: Option<Peer>, come: Option<Peer>)
    requires AgreeKeys(keys, whitelist, t) && PeersChange(t, u, gone, come)
    ensures AgreeKeys(KeysAfter(keys, whitelist, gone, come), whitelist, u)
  {
    hide InTable;
  }

  /** The filter's keys after an add: `p` is tracked first, an evicted peer untracked, and `p` untracked
      again if no place was found. */
  function KeysAfterAdd(keys: set<Peer>, whitelist: set<Peer>, p: Peer, gone: Option<Peer>, ok: bool): set<Peer>
  {
    var k1 := if p !in whitelist then keys + {p} else keys;
    var k2 := if gone.Some? then k1 - {gone.value} else k1;
    if ok then k2 else k2 - {p}
  }

  lemma {:induction false} AddKeysFollow(keys: set<Peer>, whitelist: set<Peer>, t: Table, u: Table, p: Peer, gone: Option<Peer>, ok: bool)
    requires AgreeKeys(keys, whitelist, t) && !InTable(t, p)
    requires PeersChange(t, u, gone, if ok then Some(p) else None)
    ensures AgreeKeys(KeysAfterAdd(keys, whitelist, p, gone, ok), whitelist, u)
  {
    hide InTable;
  }

  lemma {:induction false} Unchanged(t: Table)
    ensures PeersChange(t, t, None, None) && Announced(None, None) == []
  {
    hide InTable;
  }

  lemma {:induction false} AgreeSame(events: seq<Event>, keys: set<Peer>, whitelist: set<Peer>, t: Table, u: Table)
    requires forall q :: InTable(u, q) <==> InTable(t, q)
    ensures AgreeEvents(events, t) ==> AgreeEvents(events, u)
    ensures AgreeKeys(keys, whitelist, t) ==> AgreeKeys(keys, whitelist, u)
  {
    hide InTable, Balance;
  }

  function FreezeAll(t: Table): (r: Table)
    ensures |r| == |t|
  {
    seq(|t|, i requires 0 <= i < |t| => t[i].(list := Frozen(t[i].list)))
  }

  lemma {:induction false} FreezePlaced(cfg: Config, n: nat, i: nat, list: seq<PeerInfo>)
    requires cfg.Valid() && BucketPlaced(cfg, n, i, list)
    ensures BucketPlaced(cfg, n, i, Frozen(list))
    ensures forall p :: HasId(Frozen(list), p) <==> HasId(list, p)
    ensures forall x :: x in Frozen(list) ==> !x.isReplaceable
  {
    hide CommonPrefixLen;
    var r := Frozen(list);
    forall x | x in r
      ensures Placed(cfg, n, i, x)
    {
      var j :| 0 <= j < |r| && r[j] == x;
      assert list[j] in list && Placed(cfg, n, i, list[j]);
    }
    assert forall j :: 0 <= j < |r| ==> r[j].id == list[j].id;
    forall p
      ensures HasId(r, p) <==> HasId(list, p)
    {
      if HasId(list, p) {
        var j :| 0 <= j < |list| && list[j].id == p;
        assert r[j].id == p;
      }
    }
  }

  /** Freezing moves no peer, and afterwards no add evicts anybody. */
  lemma {:induction false} FreezeInv(cfg: Config, t: Table)
    requires Inv(cfg, t)
    ensures Inv(cfg, FreezeAll(t))
    ensures forall p :: InTable(FreezeAll(t), p) <==> InTable(t, p)
    ensures forall i, x :: 0 <= i < |t| && x in FreezeAll(t)[i].list ==> !x.isReplaceable
  {
    hide Frozen, HasId, Placed, DistinctIds;
    var r := FreezeAll(t);
    forall i | 0 <= i < |t|
      ensures BucketPlaced(cfg, |t|, i, r[i].list) && BucketOk(cfg, |t|, r[i])
      ensures forall p :: HasId(r[i].list, p) <==> HasId(t[i].list, p)
      ensures forall x :: x in r[i].list ==> !x.isReplaceable
    {
      FreezePlaced(cfg, |t|, i, t[i].list);
      assert BucketOk(cfg, |t|, t[i]);
    }
  }

  // ---------------------------------------------------------------- the operations with their books

  datatype Books = Books(t: Table, events: seq<Event>, keys: set<Peer>)

  const OPENING := Books([FRESH_BUCKET], [], {})

  function IdOf(y: Option<PeerInfo>): Option<Peer>
  {
    if y.Some? then Some(y.value.id) else None
  }

  function SomeIf(c: bool, p: Peer): Option<Peer>
  {
    if c then Some(p) else None
  }

  /** The peer that a plain add past all checks evicts. */
  function Evicted(cfg: Config, t: Table, x: PeerInfo, v: Variant, tune: nat -> Tuning): Option<Peer>
    requires |t| >= 1 && IdsFit(cfg, t) && cfg.Valid()
  {
    var pl := Place(cfg, t, x, v, tune);
    if pl.placed then None else IdOf(LastReplaceable(TargetBucket(cfg, pl.t, x.id).list))
  }

  /** What is written down when `p`, tracked by the filter since it was admitted, has or has not found a
      place: `gone` left and `come` arrived, and the filter forgets `p` unless the add is reported a success. */
  function Entered(b: Books, wl: set<Peer>, p: Peer, u: Table, gone: Option<Peer>, come: Option<Peer>, ok: bool): Books
  {
    Books(u, b.events + Announced(gone, come), KeysAfterAdd(b.keys, wl, p, gone, ok))
  }

  /** A plain add past all checks. */
  function PlaceBooks(cfg: Config, wl: set<Peer>, b: Books, x: PeerInfo, v: Variant, tune: nat -> Tuning): (Books, AddOutcome)
    requires |b.t| >= 1 && IdsFit(cfg, b.t) && cfg.Valid()
  {
    var (u, o) := PlaceOrEvict(cfg, b.t, x, v, tune);
    (Entered(b, wl, x.id, u, Evicted(cfg, b.t, x, v, tune), SomeIf(o == Added, x.id), o == Added), o)
  }

  /** A peer that is there already. */
  function BumpBooks(cfg: Config, b: Books, x: PeerInfo): Books
    requires |b.t| >= 1 && |cfg.hash(x.id)| == |cfg.local|
  {
    var i := IndexFor(cfg.Cpl(x.id), |b.t|);
    b.(t := b.t[i := b.t[i].(list := Bump(b.t[i].list, x.id, x.lastUsefulAt))])
  }

  function AddBooks(cfg: Config, wl: set<Peer>, b: Books, x: PeerInfo, v: Variant, latencyOk: bool, admitted: bool,
                    tune: nat -> Tuning): (Books, AddOutcome)
    requires |b.t| >= 1 && IdsFit(cfg, b.t) && cfg.Valid()
  {
    if Holds(TargetBucket(cfg, b.t, x.id).list, x.id) then (BumpBooks(cfg, b, x), Present)
    else if !latencyOk then (b, HighLatency)
    else if !admitted then (b, Filtered)
    else PlaceBooks(cfg, wl, b, x, v, tune)
  }

  function RemoveBooks(cfg: Config, wl: set<Peer>, b: Books, p: Peer): Books
    requires |b.t| >= 1 && |cfg.hash(p)| == |cfg.local|
  {
    var gone := SomeIf(Holds(TargetBucket(cfg, b.t, p).list, p), p);
    Books(Remove(cfg, b.t, p), b.events + Announced(gone, None), KeysAfter(b.keys, wl, gone, None))
  }

  function FreezeBooks(b: Books): Books
  {
    b.(t := FreezeAll(b.t))
  }

  /** The peer that a KadRTT add past all checks has to leave. */
  ghost function Ousted(cfg: Config, t: Table, x: PeerInfo, tune: nat -> Tuning, latency: Peer -> int): Option<Peer>
    requires |t| >= 1 && IdsFit(cfg, t) && cfg.Valid()
  {
    var pl := Place(cfg, t, x, ADD_KADRTT, tune);
    if pl.placed then None
    else if cfg.kadRtt then Exchange(cfg, pl.t, x, latency).1
    else IdOf(LastReplaceable(TargetBucket(cfg, pl.t, x.id).list))
  }

  /** A KadRTT add past all checks. An exchange announces the newcomer and reports no success. */
  ghost function ExchangeBooks(cfg: Config, wl: set<Peer>, b: Books, x: PeerInfo, tune: nat -> Tuning,
                               latency: Peer -> int): (Books, AddOutcome)
    requires |b.t| >= 1 && IdsFit(cfg, b.t) && cfg.Valid()
  {
    var (u, o) := PlaceOrExchange(cfg, b.t, x, tune, latency);
    var gone := Ousted(cfg, b.t, x, tune, latency);
    (Entered(b, wl, x.id, u, gone, SomeIf(o == Added || gone.Some?, x.id), o == Added), o)
  }

  /** A KadRTT add once its bucket is re-tuned. */
  ghost function RetunedBooks(cfg: Config, wl: set<Peer>, b: Books, x: PeerInfo, latencyOk: bool, admitted: bool,
                              tune: nat -> Tuning, latency: Peer -> int): (Books, AddOutcome)
    requires |b.t| >= 1 && IdsFit(cfg, b.t) && cfg.Valid()
  {
    if Holds(TargetBucket(cfg, b.t, x.id).list, x.id) then (BumpBooks(cfg, b, x), Present)
    else if !latencyOk then (b, HighLatency)
    else if !admitted then (b, Filtered)
    else ExchangeBooks(cfg, wl, b, x, tune, latency)
  }

  /** Re-tuning and trimming tell nobody. */
  function TrimBooks(cfg: Config, b: Books, p: Peer, raw: Tuning, kept: seq<PeerInfo>): Books
    requires |b.t| >= 1 && |cfg.hash(p)| == |cfg.local|
  {
    b.(t := Retuned(cfg, b.t, p, raw, kept))
  }

  // ---------------------------------------------------------------- plain operations keep the books

  lemma {:induction false} BumpDistinct(cfg: Config, t: Table, p: Peer)
    requires Inv(cfg, t)
    ensures DistinctIds(t[IndexFor(cfg.Cpl(p), |t|)].list)
  {
    var i := IndexFor(cfg.Cpl(p), |t|);
    assert BucketPlaced(cfg, |t|, i, t[i].list);
  }

  /** An add finds its peer by common prefix length. */
  lemma {:induction false} AddStart(cfg: Config, t: Table, x: PeerInfo)
    requires Inv(cfg, t)
    ensures IdsFit(cfg, t)
    ensures Holds(t[IndexFor(cfg.Cpl(x.id), |t|)].list, x.id) <==> InTable(t, x.id)
  {
    PartitionFits(cfg, t);
    HoldsIffInTable(cfg, t, x.id);
  }

  ghost predicate Agree(b: Books, wl: set<Peer>)
  {
    AgreeEvents(b.events, b.t) && AgreeKeys(b.keys, wl, b.t)
  }

  /** What an operation must do to keep each agreement. */
  ghost predicate KeepsAgreement(b: Books, c: Books, wl: set<Peer>)
  {
    && (AgreeEvents(b.events, b.t) ==> AgreeEvents(c.events, c.t))
    && (AgreeKeys(b.keys, wl, b.t) ==> AgreeKeys(c.keys, wl, c.t))
  }

  lemma {:induction false} OpeningAgrees(wl: set<Peer>)
    ensures Agree(OPENING, wl)
  {
    forall p
      ensures !InTable(OPENING.t, p)
    {
    }
  }

  lemma {:induction false} EvictedChange(cfg: Config, t: Table, x: PeerInfo, v: Variant, tune: nat -> Tuning)
    requires Inv(cfg, t) && cfg.Knows(x) && !InTable(t, x.id)
    ensures IdsFit(cfg, t)
    ensures var (u, o) := PlaceOrEvict(cfg, t, x, v, tune);
            Inv(cfg, u) && PeersChange(t, u, Evicted(cfg, t, x, v, tune), SomeIf(o == Added, x.id))
  {
    hide Place, Replace, InTable, IdsFit, PeersChange, LastReplaceable, ShapeOk, BucketPlaced;
    PlaceChange(cfg, t, x, v, tune);
    var pl := Place(cfg, t, x, v, tune);
    if !pl.placed {
      AbsentStays(t, pl.t, x.id);
      ReplaceChange(cfg, pl.t, x);
      var (u, o) := Replace(cfg, pl.t, x);
      ChangeThrough(t, pl.t, u, Evicted(cfg, t, x, v, tune), SomeIf(o == Added, x.id));
    }
  }

  lemma {:induction false} EnteredAgrees(b: Books, wl: set<Peer>, p: Peer, u: Table, gone: Option<Peer>, ok: bool)
    requires !InTable(b.t, p) && PeersChange(b.t, u, gone, SomeIf(ok, p))
    ensures KeepsAgreement(b, Entered(b, wl, p, u, gone, SomeIf(ok, p), ok), wl)
  {
    hide InTable, AgreeEvents, AgreeKeys, PeersChange, Announced, KeysAfterAdd;
    if AgreeEvents(b.events, b.t) {
      EventsFollow(b.events, b.t, u, gone, SomeIf(ok, p));
    }
    if AgreeKeys(b.keys, wl, b.t) {
      AddKeysFollow(b.keys, wl, b.t, u, p, gone, ok);
    }
  }

  lemma {:induction false} PlaceAgrees(cfg: Config, wl: set<Peer>, b: Books, x: PeerInfo, v: Variant, tune: nat -> Tuning)
    requires Inv(cfg, b.t) && cfg.Knows(x) && !InTable(b.t, x.id)
    ensures IdsFit(cfg, b.t)
    ensures var (c, o) := PlaceBooks(cfg, wl, b, x, v, tune); Inv(cfg, c.t) && KeepsAgreement(b, c, wl)
  {
    hide InTable, IdsFit, PeersChange, PlaceOrEvict, Evicted, KeepsAgreement;
    EvictedChange(cfg, b.t, x, v, tune);
    var (u, o) := PlaceOrEvict(cfg, b.t, x, v, tune);
    EnteredAgrees(b, wl, x.id, u, Evicted(cfg, b.t, x, v, tune), o == Added);
  }

  lemma {:induction false} BumpAgrees(cfg: Config, wl: set<Peer>, b: Books, x: PeerInfo)
    requires Inv(cfg, b.t)
    ensures var c := BumpBooks(cfg, b, x);
            Inv(cfg, c.t) && KeepsAgreement(b, c, wl) && forall q :: InTable(c.t, q) <==> InTable(b.t, q)
  {
    hide InTable, Bump, ShapeOk, BucketPlaced, AgreeEvents, AgreeKeys;
    BumpInv(cfg, b.t, x.id, x.lastUsefulAt);
    AgreeSame(b.events, b.keys, wl, b.t, BumpBooks(cfg, b, x).t);
  }

  /** Whatever a plain add's outcome, notifications and filter stay in step with the table. */
  lemma {:induction false} AddAgrees(cfg: Config, wl: set<Peer>, b: Books, x: PeerInfo, v: Variant, latencyOk: bool,
                                     admitted: bool, tune: nat -> Tuning)
    requires Inv(cfg, b.t) && cfg.Knows(x)
    ensures IdsFit(cfg, b.t)
    ensures var (c, o) := AddBooks(cfg, wl, b, x, v, latencyOk, admitted, tune);
            && Inv(cfg, c.t) && KeepsAgreement(b, c, wl)
            && (c.t, o) == AddPeer(cfg, b.t, x, v, latencyOk, admitted, tune)
  {
    AddStart(cfg, b.t, x);
    hide InTable, IdsFit, Holds, AgreeEvents, AgreeKeys, Inv, Bump, PlaceOrEvict, Evicted;
    BumpAgrees(cfg, wl, b, x);
    if !InTable(b.t, x.id) {
      PlaceAgrees(cfg, wl, b, x, v, tune);
    }
  }

  lemma {:induction false} RemoveAgrees(cfg: Config, wl: set<Peer>, b: Books, p: Peer)
    requires Inv(cfg, b.t)
    ensures var c := RemoveBooks(cfg, wl, b, p);
            Inv(cfg, c.t) && KeepsAgreement(b, c, wl) && c.t == Remove(cfg, b.t, p)
  {
    hide Inv, InTable, Remove, AgreeEvents, AgreeKeys, PeersChange, Announced, Holds, KeysAfter;
    HoldsIffInTable(cfg, b.t, p);
    RemoveAny(cfg, b.t, p);
    RemovedChange(cfg, b.t, p);
    var gone := SomeIf(InTable(b.t, p), p);
    if AgreeEvents(b.events, b.t) {
      EventsFollow(b.events, b.t, Remove(cfg, b.t, p), gone, None);
    }
    if AgreeKeys(b.keys, wl, b.t) {
      KeysFollow(b.keys, wl, b.t, Remove(cfg, b.t, p), gone, None);
    }
  }

  lemma {:induction false} FreezeAgrees(cfg: Config, wl: set<Peer>, b: Books)
    requires Inv(cfg, b.t)
    ensures var c := FreezeBooks(b); Inv(cfg, c.t) && KeepsAgreement(b, c, wl)
  {
    hide Inv, InTable, FreezeAll, AgreeEvents, AgreeKeys;
    FreezeInv(cfg, b.t);
    AgreeSame(b.events, b.keys, wl, b.t, FreezeAll(b.t));
  }

  // ---------------------------------------------------------------- KadRTT adds: exactly when the books agree

  lemma {:induction false} OustedChange(cfg: Config, t: Table, x: PeerInfo, tune: nat -> Tuning, latency: Peer -> int)
    requires Inv(cfg, t) && cfg.Knows(x) && !InTable(t, x.id)
    ensures IdsFit(cfg, t)
    ensures var (u, o) := PlaceOrExchange(cfg, t, x, tune, latency);
            var gone := Ousted(cfg, t, x, tune, latency);
            && Inv(cfg, u) && (o == Added || o == NoCapacity)
            && PeersChange(t, u, gone, SomeIf(o == Added || gone.Some?, x.id))
  {
    hide Place, Replace, Exchange, InTable, IdsFit, PeersChange, LastReplaceable, ShapeOk, BucketPlaced;
    PlaceChange(cfg, t, x, ADD_KADRTT, tune);
    var pl := Place(cfg, t, x, ADD_KADRTT, tune);
    if !pl.placed {
      AbsentStays(t, pl.t, x.id);
      ExchangeInv(cfg, pl.t, x, latency);
      ReplaceChange(cfg, pl.t, x);
      var (u, o) := PlaceOrExchange(cfg, t, x, tune, latency);
      var gone := Ousted(cfg, t, x, tune, latency);
      ChangeThrough(t, pl.t, u, gone, SomeIf(gone.Some?, x.id));
    }
  }

  /** The filter is told to forget a newcomer that an exchange has put into the table: it still tracks the right
      peers exactly if the newcomer is one it does not track anyway. */
  lemma {:induction false} ExchangedKeysIff(keys: set<Peer>, wl: set<Peer>, t: Table, u: Table, p: Peer, gone: Option<Peer>)
    requires AgreeKeys(keys, wl, t) && PeersChange(t, u, gone, Some(p))
    ensures AgreeKeys(KeysAfterAdd(keys, wl, p, gone, false), wl, u) <==> p in wl
  {
    hide InTable;
    assert InTable(u, p);
  }

  /** Past the checks, a KadRTT add keeps the notifications, and the filter exactly if no exchange took place or
      the newcomer is whitelisted. */
  lemma {:induction false} ExchangeAgreesIff(cfg: Config, wl: set<Peer>, b: Books, x: PeerInfo, tune: nat -> Tuning,
                                             latency: Peer -> int)
    requires Inv(cfg, b.t) && cfg.Knows(x) && !InTable(b.t, x.id)
    ensures IdsFit(cfg, b.t)
    ensures var (c, o) := ExchangeBooks(cfg, wl, b, x, tune, latency);
            var exchanged := o == NoCapacity && Ousted(cfg, b.t, x, tune, latency).Some?;
            && Inv(cfg, c.t)
            && (AgreeEvents(b.events, b.t) ==> AgreeEvents(c.events, c.t))
            && (AgreeKeys(b.keys, wl, b.t) ==> (AgreeKeys(c.keys, wl, c.t) <==> (exchanged ==> x.id in wl)))
            && (exchanged ==> InTable(c.t, x.id) && x.id !in c.keys)
  {
    hide InTable, IdsFit, PeersChange, PlaceOrExchange, Ousted, AgreeEvents, AgreeKeys, Announced, KeysAfterAdd;
    OustedChange(cfg, b.t, x, tune, latency);
    var (u, o) := PlaceOrExchange(cfg, b.t, x, tune, latency);
    var gone := Ousted(cfg, b.t, x, tune, latency);
    var come := SomeIf(o == Added || gone.Some?, x.id);
    if AgreeEvents(b.events, b.t) {
      EventsFollow(b.events, b.t, u, gone, come);
    }
    if o == NoCapacity && gone.Some? {
      ArrivedButForgotten(b.keys, wl, b.t, u, x.id, gone);
      if AgreeKeys(b.keys, wl, b.t) {
        ExchangedKeysIff(b.keys, wl, b.t, u, x.id, gone);
      }
    } else if AgreeKeys(b.keys, wl, b.t) {
      AddKeysFollow(b.keys, wl, b.t, u, x.id, gone, o == Added);
    }
  }

  lemma {:induction false} ArrivedButForgotten(keys: set<Peer>, wl: set<Peer>, t: Table, u: Table, p: Peer, gone: Option<Peer>)
    requires PeersChange(t, u, gone, Some(p))
    ensures InTable(u, p) && p !in KeysAfterAdd(keys, wl, p, gone, false)
  {
    hide InTable;
  }

  // ---------------------------------------------------------------- trimming

  /** The bucket had the peer and trimming dropped it. */
  ghost predicate Dropped(list: seq<PeerInfo>, kept: seq<PeerInfo>, p: Peer)
  {
    HasId(list, p) && !HasId(kept, p)
  }

  lemma {:induction false} AllCovered(list: seq<PeerInfo>, kept: seq<PeerInfo>)
    requires DistinctIds(list) && DistinctIds(kept) && forall x :: x in list ==> HasId(kept, x.id)
    ensures |list| <= |kept|
    decreases |list|
  {
    if list != [] {
      var p := list[0].id;
      var rest := Without(kept, p);
      assert list[0] in list;
      WithoutFacts(kept, p);
      forall x | x in list[1..]
        ensures HasId(rest, x.id)
      {
        HasIdMember(kept, x.id);
        HasIdMember(rest, x.id);
        var i :| 0 <= i < |list[1..]| && list[1..][i] == x;
        assert list[i + 1] == x && list[i + 1].id != p;
      }
      AllCovered(list[1..], rest);
    }
  }

  /** Somebody is dropped exactly if the bucket exceeds its new size. */
  lemma {:induction false} DroppedIff(list: seq<PeerInfo>, k: int, score: Peer -> int, kept: seq<PeerInfo>)
    requires DistinctIds(list) && Trimmed(list, k, score, kept)
    ensures |list| <= k <==> forall p :: !Dropped(list, kept, p)
  {
    TrimmedFacts(list, k, score, kept);
    hide Trimmed;
    if |list| <= k {
      NothingDropped(list, k, score, kept);
    } else if forall p :: !Dropped(list, kept, p) {
      forall x | x in list
        ensures HasId(kept, x.id)
      {
        HasIdMember(list, x.id);
        assert !Dropped(list, kept, x.id);
      }
      AllCovered(list, kept);
    }
  }

  lemma {:induction false} NothingDropped(list: seq<PeerInfo>, k: int, score: Peer -> int, kept: seq<PeerInfo>)
    requires Trimmed(list, k, score, kept) && |list| <= k
    ensures forall p :: !Dropped(list, kept, p)
  {
  }

  /** Re-tuning takes exactly the dropped peers out of the table. */
  lemma {:induction false} RetunedPeers(cfg: Config, t: Table, p: Peer, raw: Tuning, score: Peer -> int,
                                        kept: seq<PeerInfo>, q: Peer)
    requires Inv(cfg, t) && Trimmed(TargetBucket(cfg, t, p).list, TunedK(raw, cfg.bucketsize), score, kept)
    ensures InTable(Retuned(cfg, t, p, raw, kept), q) <==> InTable(t, q) && !Dropped(TargetBucket(cfg, t, p).list, kept, q)
    ensures Dropped(TargetBucket(cfg, t, p).list, kept, q) ==> InTable(t, q)
  {
    var i, j := IndexFor(cfg.Cpl(p), |t|), IndexFor(cfg.Cpl(q), |t|);
    var t1 := Retuned(cfg, t, p, raw, kept);
    RetunedInv(cfg, t, p, raw, score, kept);
    BumpDistinct(cfg, t, p);
    TrimmedFacts(t[i].list, TunedK(raw, cfg.bucketsize), score, kept);
    LookupByIndex(cfg, t, q);
    LookupByIndex(cfg, t1, q);
    hide Trimmed, Partition, ShapeOk, DistinctIds;
    if HasId(kept, q) {
      HasIdMember(kept, q);
      HasIdMember(t[i].list, q);
    }
    if HasId(t[i].list, q) {
      assert InTable(t, q);
      InItsBucket(cfg, t, i, q);
    }
  }

  lemma {:induction false} InItsBucket(cfg: Config, t: Table, i: nat, q: Peer)
    requires cfg.Valid() && Partition(cfg, t) && i < |t| && HasId(t[i].list, q)
    ensures i == IndexFor(cfg.Cpl(q), |t|)
  {
    HasIdMember(t[i].list, q);
    var x :| x in t[i].list && x.id == q;
    assert BucketPlaced(cfg, |t|, i, t[i].list) && Placed(cfg, |t|, i, x);
  }

  // ---------------------------------------------------------------- books after trimming

  /** `t1` is `t` without the peers of `dropped`. */
  ghost predicate Trims(t: Table, t1: Table, dropped: Peer -> bool)
  {
    forall q :: (InTable(t1, q) <==> InTable(t, q) && !dropped(q)) && (dropped(q) ==> InTable(t, q))
  }

  /** Nobody is told of dropped peers, so that the notifications agree afterwards exactly if there are none. */
  lemma {:induction false} EventsAfterTrim(events: seq<Event>, t: Table, t1: Table, u: Table, dropped: Peer -> bool,
                                           gone: Option<Peer>, come: Option<Peer>)
    requires AgreeEvents(events, t) && Trims(t, t1, dropped) && PeersChange(t1, u, gone, come)
    ensures AgreeEvents(events + Announced(gone, come), u) <==> forall q :: !dropped(q)
  {
    hide InTable, Balance, Announced;
    forall q
      ensures Balance(events + Announced(gone, come), q) == (if InTable(u, q) then 1 else 0) <==> !dropped(q)
    {
      BalanceConcat(events, Announced(gone, come), q);
      AnnouncedBalance(gone, come, q);
    }
  }

  /** Without an admission the filter still tracks who was dropped. */
  lemma {:induction false} KeysAfterTrim(keys: set<Peer>, wl: set<Peer>, t: Table, t1: Table, u: Table, dropped: Peer -> bool)
    requires AgreeKeys(keys, wl, t) && Trims(t, t1, dropped) && forall q :: InTable(u, q) <==> InTable(t1, q)
    ensures AgreeKeys(keys, wl, u) <==> forall q :: dropped(q) ==> q in wl
  {
    hide InTable;
    forall q
      ensures (q in keys <==> InTable(u, q) && q !in wl) <==> (dropped(q) ==> q in wl)
    {
    }
  }

  /** An admission sets the filter right about the newcomer, unless the newcomer is exchanged in. */
  lemma {:induction false} KeysAfterTrimAndAdd(keys: set<Peer>, wl: set<Peer>, t: Table, t1: Table, u: Table,
                                               dropped: Peer -> bool, p: Peer, gone: Option<Peer>, ok: bool)
    requires AgreeKeys(keys, wl, t) && Trims(t, t1, dropped) && !InTable(t1, p)
    requires PeersChange(t1, u, gone, SomeIf(ok || gone.Some?, p))
    ensures AgreeKeys(KeysAfterAdd(keys, wl, p, gone, ok), wl, u)
       <==> (forall q :: dropped(q) && q != p ==> q in wl) && (p in wl || ok || gone.None?)
  {
    hide InTable;
    var after := KeysAfterAdd(keys, wl, p, gone, ok);
    forall q | q != p
      ensures (q in after <==> InTable(u, q) && q !in wl) <==> (dropped(q) ==> q in wl)
    {
    }
    assert (p in after <==> InTable(u, p) && p !in wl) <==> (p in wl || ok || gone.None?);
  }

  /** When the filter survives a KadRTT add of `p`: everybody else who was dropped is whitelisted, and so is `p`
      unless it is refused by latency or filter after being dropped, or exchanged in. */
  ghost predicate FilterSurvives(wl: set<Peer>, list: seq<PeerInfo>, kept: seq<PeerInfo>, p: Peer, o: AddOutcome, ousted: bool)
  {
    && (forall q :: Dropped(list, kept, q) && q != p ==> q in wl)
    && (p in wl || ((o == HighLatency || o == Filtered ==> !Dropped(list, kept, p)) && (o == NoCapacity ==> !ousted)))
  }

  lemma {:induction false} TrimsDropped(cfg: Config, t: Table, p: Peer, raw: Tuning, score: Peer -> int, kept: seq<PeerInfo>)
    requires Inv(cfg, t) && Trimmed(TargetBucket(cfg, t, p).list, TunedK(raw, cfg.bucketsize), score, kept)
    ensures Trims(t, Retuned(cfg, t, p, raw, kept), q => Dropped(TargetBucket(cfg, t, p).list, kept, q))
    ensures |TargetBucket(cfg, t, p).list| <= TunedK(raw, cfg.bucketsize)
       <==> forall q :: !Dropped(TargetBucket(cfg, t, p).list, kept, q)
    ensures Inv(cfg, Retuned(cfg, t, p, raw, kept))
  {
    BumpDistinct(cfg, t, p);
    RetunedInv(cfg, t, p, raw, score, kept);
    hide InTable, Trimmed, Dropped, Retuned, DistinctIds, ShapeOk, BucketPlaced;
    DroppedIff(TargetBucket(cfg, t, p).list, TunedK(raw, cfg.bucketsize), score, kept);
    forall q
      ensures InTable(Retuned(cfg, t, p, raw, kept), q) <==> InTable(t, q) && !Dropped(TargetBucket(cfg, t, p).list, kept, q)
      ensures Dropped(TargetBucket(cfg, t, p).list, kept, q) ==> InTable(t, q)
    {
      RetunedPeers(cfg, t, p, raw, score, kept, q);
    }
  }

  /** The part of a KadRTT add after re-tuning, from books that agreed before it. */
  ghost predicate AgreesExactly(b: Books, c: Books, wl: set<Peer>, list: seq<PeerInfo>, kept: seq<PeerInfo>, p: Peer,
                                o: AddOutcome, ousted: bool)
  {
    && (AgreeEvents(b.events, b.t) ==> (AgreeEvents(c.events, c.t) <==> forall q :: !Dropped(list, kept, q)))
    && (AgreeKeys(b.keys, wl, b.t) ==> (AgreeKeys(c.keys, wl, c.t) <==> FilterSurvives(wl, list, kept, p, o, ousted)))
  }

  lemma {:induction false} SameDropped(list: seq<PeerInfo>, kept: seq<PeerInfo>, dropped: Peer -> bool)
    requires forall q :: dropped(q) <==> Dropped(list, kept, q)
    ensures (forall q :: !dropped(q)) <==> forall q :: !Dropped(list, kept, q)
  {
    hide Dropped;
    if q :| Dropped(list, kept, q) {
      assert dropped(q);
    }
  }

  /** A refused or present peer: nothing is written down. */
  lemma {:induction false} QuietAgrees(b: Books, c: Books, t1: Table, wl: set<Peer>, list: seq<PeerInfo>,
                                       kept: seq<PeerInfo>, p: Peer, o: AddOutcome, ousted: bool)
    requires Trims(b.t, t1, q => Dropped(list, kept, q)) && c.events == b.events && c.keys == b.keys
    requires forall q :: InTable(c.t, q) <==> InTable(t1, q)
    requires o == Present || o == HighLatency || o == Filtered
    requires o == Present ==> InTable(t1, p)
    ensures AgreesExactly(b, c, wl, list, kept, p, o, ousted)
  {
    hide InTable, AgreeEvents, AgreeKeys, Dropped, Balance;
    var dropped := q => Dropped(list, kept, q);
    assert dropped(p) <==> Dropped(list, kept, p);
    if AgreeEvents(b.events, b.t) {
      Unchanged(t1);
      assert b.events + Announced(None, None) == b.events;
      EventsAfterTrim(b.events, b.t, t1, c.t, dropped, None, None);
      SameDropped(list, kept, dropped);
    }
    if AgreeKeys(b.keys, wl, b.t) {
      KeysAfterTrim(b.keys, wl, b.t, t1, c.t, dropped);
      assert (forall q :: dropped(q) ==> q in wl) <==> forall q :: Dropped(list, kept, q) ==> q in wl;
    }
  }

  /** A peer past all checks. */
  lemma {:induction false} EnteredExactly(b: Books, t1: Table, wl: set<Peer>, list: seq<PeerInfo>, kept: seq<PeerInfo>,
                                          p: Peer, u: Table, gone: Option<Peer>, o: AddOutcome)
    requires Trims(b.t, t1, q => Dropped(list, kept, q)) && !InTable(t1, p) && (o == Added || o == NoCapacity)
    requires PeersChange(t1, u, gone, SomeIf(o == Added || gone.Some?, p))
    ensures AgreesExactly(b, Entered(b, wl, p, u, gone, SomeIf(o == Added || gone.Some?, p), o == Added), wl, list, kept,
                          p, o, gone.Some?)
  {
    hide InTable, AgreeEvents, AgreeKeys, Dropped, PeersChange, Announced, KeysAfterAdd, Trims;
    var dropped := q => Dropped(list, kept, q);
    if AgreeEvents(b.events, b.t) {
      EventsAfterTrim(b.events, b.t, t1, u, dropped, gone, SomeIf(o == Added || gone.Some?, p));
      SameDropped(list, kept, dropped);
    }
    if AgreeKeys(b.keys, wl, b.t) {
      KeysAfterTrimAndAdd(b.keys, wl, b.t, t1, u, dropped, p, gone, o == Added);
      assert (forall q :: dropped(q) && q != p ==> q in wl) <==> forall q :: Dropped(list, kept, q) && q != p ==> q in wl;
    }
  }

  lemma {:induction false} RetunedExactly(cfg: Config, wl: set<Peer>, b: Books, t1: Table, x: PeerInfo, latencyOk: bool,
                                          admitted: bool, tune: nat -> Tuning, latency: Peer -> int,
                                          list: seq<PeerInfo>, kept: seq<PeerInfo>)
    requires Inv(cfg, t1) && cfg.Knows(x) && Trims(b.t, t1, q => Dropped(list, kept, q))
    ensures IdsFit(cfg, t1)
    ensures var (c, o) := RetunedBooks(cfg, wl, b.(t := t1), x, latencyOk, admitted, tune, latency);
            Inv(cfg, c.t) && AgreesExactly(b, c, wl, list, kept, x.id, o, Ousted(cfg, t1, x, tune, latency).Some?)
  {
    AddStart(cfg, t1, x);
    hide InTable, IdsFit, Holds, Inv, Bump, PlaceOrExchange, Ousted, Trims, AgreesExactly;
    var b1 := b.(t := t1);
    var (c, o) := RetunedBooks(cfg, wl, b1, x, latencyOk, admitted, tune, latency);
    var ousted := Ousted(cfg, t1, x, tune, latency).Some?;
    if InTable(t1, x.id) {
      BumpAgrees(cfg, wl, b1, x);
      QuietAgrees(b, c, t1, wl, list, kept, x.id, o, ousted);
    } else if !latencyOk || !admitted {
      QuietAgrees(b, c, t1, wl, list, kept, x.id, o, ousted);
    } else {
      OustedChange(cfg, t1, x, tune, latency);
      EnteredExactly(b, t1, wl, list, kept, x.id, c.t, Ousted(cfg, t1, x, tune, latency), o);
    }
  }

  /** From books that agree, a KadRTT add leaves notifications that agree exactly if its bucket had no more entries
      than its new size, and a filter that agrees exactly if the filter survives. */
  lemma {:induction false} KadAgreesIff(cfg: Config, wl: set<Peer>, b: Books, x: PeerInfo, latencyOk: bool, admitted: bool,
                                        raw: Tuning, tune: nat -> Tuning, score: Peer -> int, latency: Peer -> int,
                                        kept: seq<PeerInfo>)
    requires Inv(cfg, b.t) && cfg.Knows(x)
    requires Trimmed(TargetBucket(cfg, b.t, x.id).list, TunedK(raw, cfg.bucketsize), score, kept)
    ensures IdsFit(cfg, TrimBooks(cfg, b, x.id, raw, kept).t)
    ensures var b1 := TrimBooks(cfg, b, x.id, raw, kept);
            var (c, o) := RetunedBooks(cfg, wl, b1, x, latencyOk, admitted, tune, latency);
            var list := TargetBucket(cfg, b.t, x.id).list;
            && Inv(cfg, c.t)
            && (AgreeEvents(b.events, b.t) ==> (AgreeEvents(c.events, c.t) <==> |list| <= TunedK(raw, cfg.bucketsize)))
            && (AgreeKeys(b.keys, wl, b.t) ==>
                  (AgreeKeys(c.keys, wl, c.t)
                   <==> FilterSurvives(wl, list, kept, x.id, o, Ousted(cfg, b1.t, x, tune, latency).Some?)))
  {
    hide InTable, IdsFit, RetunedBooks, Ousted, Trims, AgreeEvents, AgreeKeys, FilterSurvives, Dropped, Trimmed, Retuned,
      ShapeOk, BucketPlaced;
    TrimsDropped(cfg, b.t, x.id, raw, score, kept);
    RetunedExactly(cfg, wl, b, Retuned(cfg, b.t, x.id, raw, kept), x, latencyOk, admitted, tune, latency,
                   TargetBucket(cfg, b.t, x.id).list, kept);
  }
}
