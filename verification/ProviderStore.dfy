/**
 The provider store: a cache written through to a datastore of timestamped provider records, with a
 garbage collection that works through a listing of the datastore while adds and reads go on.
 */
module ProviderStore {
  import opened Wrappers
  import opened Keyspace

  type Key = string

  /** The provider part of a record's name, which may be something no provider was ever encoded as. */
  datatype Suffix = Named(p: Peer) | Undecodable(raw: string)

  datatype RecKey = RecKey(key: Key, suffix: Suffix)

  /** A record's value: a time in nanoseconds, or bytes that do not parse as one. */
  datatype Stamp = At(t: int) | Garbled

  type Datastore = map<RecKey, Stamp>

  /** The providers in the order first seen, and the time of each. */
  datatype ProviderSet = ProviderSet(providers: seq<Peer>, times: map<Peer, int>)

  const EMPTY_SET := ProviderSet([], map[])

  function SetVal(ps: ProviderSet, p: Peer, t: int): ProviderSet
  {
    ProviderSet(if p in ps.times then ps.providers else ps.providers + [p], ps.times[p := t])
  }

  /** A garbage collection round: when it began, what was refreshed since, and what the store held. */
  datatype Round = Round(time: int, skip: set<RecKey>, snapshot: Datastore)

  datatype Manager = Manager(cache: map<Key, ProviderSet>, store: Datastore, round: Option<Round>, clock: int)

  predicate Expired(s: Stamp, now: int, validity: int)
  {
    s.Garbled? || now - s.t > validity
  }

  // ---------------------------------------------------------------- events

  /** A provider is announced at time `now`. */
  function Announce(m: Manager, k: Key, p: Peer, now: int): Manager
  {
    var rk := RecKey(k, Named(p));
    Manager(if k in m.cache then m.cache[k := SetVal(m.cache[k], p, now)] else m.cache,
            m.store[rk := At(now)],
            if m.round.Some? then Some(m.round.value.(skip := m.round.value.skip + {rk})) else None,
            now)
  }

  /** What loading does with one record: drop it if it is stale or unreadable, else take it up. */
  function LoadOne(d: Datastore, ps: ProviderSet, rk: RecKey, now: int, validity: int): (Datastore, ProviderSet)
    requires rk in d
  {
    if Expired(d[rk], now, validity) || rk.suffix.Undecodable? then (d - {rk}, ps)
    else (d, SetVal(ps, rk.suffix.p, d[rk].t))
  }

  /** `listing` names each record of key `k` once. */
  ghost predicate ListsKey(d: Datastore, k: Key, listing: seq<RecKey>)
  {
    && (forall rk :: rk in listing <==> rk in d && rk.key == k)
    && Distinct(listing)
  }

  predicate Distinct(listing: seq<RecKey>)
  {
    forall i, j :: 0 <= i < j < |listing| ==> listing[i] != listing[j]
  }

  predicate Listable(d: Datastore, listing: seq<RecKey>)
  {
    Distinct(listing) && forall rk :: rk in listing ==> rk in d
  }

  /** Loading a listing of records, in listing order. */
  function Load(d: Datastore, listing: seq<RecKey>, now: int, validity: int): (r: (Datastore, ProviderSet))
    requires Listable(d, listing)
    ensures forall rk :: rk in d && rk !in listing ==> rk in r.0
  {
    if listing == [] then (d, EMPTY_SET)
    else
      var last := listing[|listing| - 1];
      var (d1, ps) := Load(d, listing[..|listing| - 1], now, validity);
      LoadOne(d1, ps, last, now, validity)
  }

  /** The providers of a key are asked for. What is not cached is loaded, and cached unless empty; a listing
      that fails is an error. */
  function Lookup(m: Manager, k: Key, listing: Option<seq<RecKey>>, now: int, validity: int)
    : (Manager, Option<ProviderSet>)
    requires k !in m.cache && listing.Some? ==> Listable(m.store, listing.value)
  {
    if k in m.cache then (m.(clock := now), Some(m.cache[k]))
    else if listing.None? then (m.(clock := now), None)
    else
      var (d, ps) := Load(m.store, listing.value, now, validity);
      (m.(store := d, cache := if |ps.providers| > 0 then m.cache[k := ps] else m.cache, clock := now), Some(ps))
  }

  /** The cache drops a key to make room. */
  function Evict(m: Manager, k: Key): Manager
  {
    m.(cache := m.cache - {k})
  }

  /** The timer that fired at `fired` begins a round: the cache is emptied and a listing of the store
      requested, which may fail. */
  function BeginRound(m: Manager, fired: int, now: int, listed: bool): Manager
  {
    m.(cache := map[], clock := now, round := if listed then Some(Round(fired, {}, m.store)) else m.round)
  }

  /** The listing yields a record with the value it had when listed. */
  function Collect(m: Manager, rk: RecKey, s: Stamp, validity: int): Manager
    requires m.round.Some?
  {
    if rk in m.round.value.skip || !Expired(s, m.round.value.time, validity) then m
    else m.(store := m.store - {rk})
  }

  function EndRound(m: Manager): Manager
  {
    m.(round := None)
  }

  // ---------------------------------------------------------------- the invariant

  ghost predicate GoodSet(ps: ProviderSet)
  {
    && (forall p :: p in ps.providers <==> p in ps.times)
    && (forall i, j :: 0 <= i < j < |ps.providers| ==> ps.providers[i] != ps.providers[j])
  }

  /** The provider set is exactly what the store holds for the key. */
  ghost predicate Mirrors(ps: ProviderSet, d: Datastore, k: Key)
  {
    && GoodSet(ps)
    && (forall rk :: rk in d && rk.key == k ==> rk.suffix.Named? && rk.suffix.p in ps.times)
    && (forall p :: p in ps.times ==> RecKey(k, Named(p)) in d && d[RecKey(k, Named(p))] == At(ps.times[p]))
  }

  /** During a round: a record not refreshed since is as it was listed, and one mirrored in the cache is
      one the round will leave alone. */
  ghost predicate RoundOk(m: Manager, validity: int)
  {
    m.round.Some? ==>
      var r := m.round.value;
      && r.time <= m.clock
      && (forall rk :: rk in m.store && rk !in r.skip ==> rk in r.snapshot && r.snapshot[rk] == m.store[rk])
      && (forall rk :: rk in m.store && rk !in r.skip && rk.key in m.cache ==> !Expired(m.store[rk], r.time, validity))
  }

  ghost predicate CacheOk(m: Manager)
  {
    forall k :: k in m.cache ==> Mirrors(m.cache[k], m.store, k)
  }

  ghost predicate Inv(m: Manager, validity: int)
  {
    CacheOk(m) && RoundOk(m, validity)
  }

  // ---------------------------------------------------------------- one event at a time

  lemma {:induction false} SetValGood(ps: ProviderSet, p: Peer, t: int)
    requires GoodSet(ps)
    ensures GoodSet(SetVal(ps, p, t))
  {
    var r := SetVal(ps, p, t);
    forall q
      ensures q in r.providers <==> q in r.times
    {
    }
  }

  lemma {:induction false} AnnounceInv(m: Manager, k: Key, p: Peer, now: int, validity: int)
    requires Inv(m, validity) && m.clock <= now
    ensures Inv(Announce(m, k, p, now), validity)
  {
    var n := Announce(m, k, p, now);
    forall j | j in n.cache
      ensures Mirrors(n.cache[j], n.store, j)
    {
      assert Mirrors(m.cache[j], m.store, j);
      if j == k {
        SetValGood(m.cache[k], p, now);
      }
    }
  }

  lemma {:induction false} EvictInv(m: Manager, k: Key, validity: int)
    requires Inv(m, validity)
    ensures Inv(Evict(m, k), validity)
  {
    var n := Evict(m, k);
    forall j | j in n.cache
      ensures Mirrors(n.cache[j], n.store, j)
    {
      assert Mirrors(m.cache[j], m.store, j);
    }
  }

  lemma {:induction false} BeginRoundInv(m: Manager, fired: int, now: int, listed: bool, validity: int)
    requires Inv(m, validity) && m.round.None? && m.clock <= now && fired <= now
    ensures Inv(BeginRound(m, fired, now, listed), validity)
  {
  }

  lemma {:induction false} EndRoundInv(m: Manager, validity: int)
    requires Inv(m, validity)
    ensures Inv(EndRound(m), validity)
  {
    var n := EndRound(m);
    forall j | j in n.cache
      ensures Mirrors(n.cache[j], n.store, j)
    {
      assert Mirrors(m.cache[j], m.store, j);
    }
  }

  /** What the listing can yield: a record's value as listed, or anything for a record refreshed since. */
  ghost predicate CanYield(m: Manager, rk: RecKey, s: Stamp)
    requires m.round.Some?
  {
    rk in m.round.value.skip || (rk in m.round.value.snapshot && m.round.value.snapshot[rk] == s)
  }

  /** The round deletes only records that were stale when it began and have not been refreshed since, and
      nothing the cache mirrors. */
  lemma {:induction false} CollectInv(m: Manager, rk: RecKey, s: Stamp, validity: int)
    requires Inv(m, validity) && m.round.Some? && CanYield(m, rk, s)
    ensures Inv(Collect(m, rk, s, validity), validity)
    ensures var n := Collect(m, rk, s, validity);
            forall q :: q in m.store && q !in n.store ==>
                          q == rk && q !in m.round.value.skip && q.key !in m.cache
                          && Expired(m.store[q], m.round.value.time, validity)
  {
    var n := Collect(m, rk, s, validity);
    if n.store != m.store && rk in m.store {
      assert m.store[rk] == s;
      assert rk.key !in m.cache;
    }
    forall j | j in n.cache
      ensures Mirrors(n.cache[j], n.store, j)
    {
      assert Mirrors(m.cache[j], m.store, j);
    }
  }

  // ---------------------------------------------------------------- loading

  /** A record that loading takes up. */
  predicate Usable(rk: RecKey, s: Stamp, now: int, validity: int)
  {
    !Expired(s, now, validity) && rk.suffix.Named?
  }

  /** `e` is `d` without those of the listed records that are not usable. */
  ghost predicate Swept(d: Datastore, e: Datastore, listing: seq<RecKey>, now: int, validity: int)
  {
    forall rk :: (rk in e <==> rk in d && (rk in listing ==> Usable(rk, d[rk], now, validity)))
                 && (rk in e ==> e[rk] == d[rk])
  }

  /** The providers taken up are exactly those of the usable records listed, each with its time. */
  ghost predicate TakenUp(d: Datastore, k: Key, listing: seq<RecKey>, ps: ProviderSet, now: int, validity: int)
  {
    && GoodSet(ps)
    && (forall rk :: rk in listing && rk in d && Usable(rk, d[rk], now, validity) ==> rk.suffix.p in ps.times)
    && (forall p :: p in ps.times ==>
                      && RecKey(k, Named(p)) in listing && RecKey(k, Named(p)) in d
                      && d[RecKey(k, Named(p))] == At(ps.times[p]) && now - ps.times[p] <= validity)
  }

  lemma {:induction false} LoadFacts(d: Datastore, k: Key, listing: seq<RecKey>, now: int, validity: int)
    requires Listable(d, listing) && forall rk :: rk in listing ==> rk.key == k
    ensures Swept(d, Load(d, listing, now, validity).0, listing, now, validity)
    ensures TakenUp(d, k, listing, Load(d, listing, now, validity).1, now, validity)
  {
    if listing != [] {
      var last, init := listing[|listing| - 1], listing[..|listing| - 1];
      assert listing == init + [last];
      LoadFacts(d, k, init, now, validity);
      var (e, ps) := Load(d, init, now, validity);
      assert last !in init;
      LoadStep(d, e, k, init, last, ps, now, validity);
    }
  }

  lemma {:induction false} LoadStep(d: Datastore, e: Datastore, k: Key, init: seq<RecKey>, last: RecKey, ps: ProviderSet, now: int, validity: int)
    requires last in d && last !in init && last.key == k
    requires Swept(d, e, init, now, validity) && TakenUp(d, k, init, ps, now, validity)
    ensures last in e
    ensures Swept(d, LoadOne(e, ps, last, now, validity).0, init + [last], now, validity)
    ensures TakenUp(d, k, init + [last], LoadOne(e, ps, last, now, validity).1, now, validity)
  {
    if Usable(last, d[last], now, validity) {
      SetValGood(ps, last.suffix.p, d[last].t);
    }
  }

  /** A listing of all of a key's records leaves the key's provider set equal to what is left in the store. */
  lemma {:induction false} LoadMirrors(d: Datastore, k: Key, listing: seq<RecKey>, now: int, validity: int)
    requires ListsKey(d, k, listing)
    ensures Listable(d, listing)
    ensures var (e, ps) := Load(d, listing, now, validity); Swept(d, e, listing, now, validity) && Mirrors(ps, e, k)
  {
    LoadFacts(d, k, listing, now, validity);
  }

  /** Whatever the datastore lists, an answer is exactly what the store then holds for the key, and the store
      has lost only records of that key that are stale or unreadable. */
  lemma {:induction false} LookupInv(m: Manager, k: Key, listing: Option<seq<RecKey>>, now: int, validity: int)
    requires Inv(m, validity) && m.clock <= now
    requires k !in m.cache && listing.Some? ==> ListsKey(m.store, k, listing.value)
    ensures k !in m.cache && listing.Some? ==> Listable(m.store, listing.value)
    ensures var (n, ps) := Lookup(m, k, listing, now, validity);
            && Inv(n, validity)
            && (ps.Some? ==> Mirrors(ps.value, n.store, k))
            && (ps.None? <==> k !in m.cache && listing.None?)
            && (forall rk :: rk in n.store ==> rk in m.store && n.store[rk] == m.store[rk])
            && (forall rk :: rk in m.store && rk !in n.store ==>
                               rk.key == k && k !in m.cache && !Usable(rk, m.store[rk], now, validity))
  {
    if k !in m.cache && listing.Some? {
      LoadMirrors(m.store, k, listing.value, now, validity);
      LoadedCache(m, k, listing.value, now, validity);
      LoadedRound(m, k, listing.value, now, validity);
    } else {
      var n := Lookup(m, k, listing, now, validity).0;
      forall j | j in n.cache
        ensures Mirrors(n.cache[j], n.store, j)
      {
        assert Mirrors(m.cache[j], m.store, j);
      }
    }
  }

  lemma {:induction false} LoadedCache(m: Manager, k: Key, listing: seq<RecKey>, now: int, validity: int)
    requires CacheOk(m) && k !in m.cache && ListsKey(m.store, k, listing)
    ensures Listable(m.store, listing)
    ensures CacheOk(Lookup(m, k, Some(listing), now, validity).0)
  {
    LoadMirrors(m.store, k, listing, now, validity);
    var n := Lookup(m, k, Some(listing), now, validity).0;
    forall j | j in n.cache
      ensures Mirrors(n.cache[j], n.store, j)
    {
      if j != k {
        assert Mirrors(m.cache[j], m.store, j);
      }
    }
  }

  lemma {:induction false} LoadedRound(m: Manager, k: Key, listing: seq<RecKey>, now: int, validity: int)
    requires RoundOk(m, validity) && m.clock <= now && k !in m.cache && ListsKey(m.store, k, listing)
    ensures Listable(m.store, listing)
    ensures RoundOk(Lookup(m, k, Some(listing), now, validity).0, validity)
  {
    LoadMirrors(m.store, k, listing, now, validity);
  }

  /** The providers named by the records of a listing that are readable and valid, in listing order. */
  function ValidNames(d: Datastore, listing: seq<RecKey>, now: int, validity: int): seq<Peer>
    requires forall rk :: rk in listing ==> rk in d
  {
    if listing == [] then []
    else
      var rk := listing[|listing| - 1];
      var names := ValidNames(d, listing[..|listing| - 1], now, validity);
      if rk.suffix.Named? && d[rk].At? && now - d[rk].t <= validity then names + [rk.suffix.p] else names
  }

  /** A loaded answer names the providers in the order of the listing. */
  lemma {:induction false} LoadOrder(d: Datastore, k: Key, listing: seq<RecKey>, now: int, validity: int)
    requires Listable(d, listing) && forall rk :: rk in listing ==> rk.key == k
    ensures Load(d, listing, now, validity).1.providers == ValidNames(d, listing, now, validity)
  {
    if listing != [] {
      var last, init := listing[|listing| - 1], listing[..|listing| - 1];
      assert listing == init + [last];
      assert last !in init;
      LoadOrder(d, k, init, now, validity);
      LoadFacts(d, k, init, now, validity);
      var (e, ps) := Load(d, init, now, validity);
      hide Load, ValidNames, Swept, TakenUp;
      LoadNext(d, e, k, init, last, ps, now, validity);
    }
  }

  lemma {:induction false} LoadNext(d: Datastore, e: Datastore, k: Key, init: seq<RecKey>, last: RecKey, ps: ProviderSet, now: int, validity: int)
    requires last in d && last !in init && last.key == k
    requires Swept(d, e, init, now, validity) && TakenUp(d, k, init, ps, now, validity)
    ensures last in e
    ensures LoadOne(e, ps, last, now, validity).1.providers
         == ps.providers + (if last.suffix.Named? && d[last].At? && now - d[last].t <= validity then [last.suffix.p] else [])
  {
    assert last.suffix.Named? ==> last == RecKey(k, Named(last.suffix.p));
  }
}
