/**
 The provider manager as the event loop runs it: fields updated in place by one event after another.
 */
module ProviderManagers {
  import opened Wrappers
  import opened Keyspace
  import opened ProviderStore
  import opened ProviderRuns

  class ProviderManager {
    const validity: int
    var cache: map<Key, ProviderSet>
    var dstore: Datastore
    var gcSkip: Option<set<RecKey>>
    var gcTime: int
    ghost var gcListing: Datastore
    ghost var clock: int

    ghost function Model(): Manager
      reads this
    {
      Manager(cache, dstore, if gcSkip.Some? then Some(Round(gcTime, gcSkip.value, gcListing)) else None, clock)
    }

    ghost predicate Valid()
      reads this
    {
      Inv(Model(), validity)
    }

    constructor (dstore: Datastore, validity: int, ghost now: int)
      ensures Valid() && this.validity == validity
      ensures Model() == Manager(map[], dstore, None, now)
    {
      this.validity := validity;
      this.cache := map[];
      this.dstore := dstore;
      this.gcSkip := None;
      this.gcTime := 0;
      this.gcListing := map[];
      this.clock := now;
    }

    /** A new provider: the cached set, if any, and the datastore are updated, and a round under way is
        told to leave the record alone. */
    method AddProvider(k: Key, p: Peer, now: int)
      requires Valid() && Enabled(Model(), Announced(k, p, now))
      modifies this
      ensures Valid() && Model() == Next(old(Model()), Announced(k, p, now), validity)
    {
      NextInv(Model(), Announced(k, p, now), validity);
      if k in cache {
        cache := cache[k := SetVal(cache[k], p, now)];
      }
      dstore := dstore[RecKey(k, Named(p)) := At(now)];
      if gcSkip.Some? {
        gcSkip := Some(gcSkip.value + {RecKey(k, Named(p))});
      }
      clock := now;
    }

    /** Reads the listed records one by one, deleting the stale and the unreadable ones. */
    method LoadProviderSet(listing: seq<RecKey>, now: int) returns (pset: ProviderSet)
      requires Listable(dstore, listing)
      modifies this`dstore
      ensures (dstore, pset) == Load(old(dstore), listing, now, validity)
    {
      pset := EMPTY_SET;
      ghost var before := dstore;
      for i := 0 to |listing|
        invariant (dstore, pset) == Load(before, listing[..i], now, validity)
      {
        var rk := listing[i];
        assert listing[..i + 1][..i] == listing[..i];
        if Expired(dstore[rk], now, validity) {
          dstore := dstore - {rk};
          continue;
        }
        match rk.suffix
        case Undecodable(_) => dstore := dstore - {rk};
        case Named(p) => pset := SetVal(pset, p, dstore[rk].t);
      }
      assert listing[..|listing|] == listing;
    }

    method GetProviderSetForKey(k: Key, listing: Option<seq<RecKey>>, now: int) returns (r: Option<ProviderSet>)
      requires Valid() && Enabled(Model(), Asked(k, listing, now))
      modifies this
      ensures Valid() && Model() == Next(old(Model()), Asked(k, listing, now), validity)
      ensures r == Lookup(old(Model()), k, listing, now, validity).1
      ensures r.Some? ==> Mirrors(r.value, dstore, k)
    {
      hide Load, Inv, Mirrors, ListsKey, Listable;
      ghost var before := Model();
      NextInv(before, Asked(k, listing, now), validity);
      LookupInv(before, k, listing, now, validity);
      clock := now;
      if k in cache {
        return Some(cache[k]);
      }
      if listing.None? {
        return None;
      }
      var pset := LoadProviderSet(listing.value, now);
      if |pset.providers| > 0 {
        cache := cache[k := pset];
      }
      r := Some(pset);
    }

    method DropCached(k: Key)
      requires Valid()
      modifies this
      ensures Valid() && Model() == Next(old(Model()), Evicted(k), validity)
    {
      NextInv(Model(), Evicted(k), validity);
      cache := cache - {k};
    }

    /** The timer fired. A listing that fails leaves no round under way. */
    method BeginGc(fired: int, now: int, listed: bool)
      requires Valid() && Enabled(Model(), RoundBegun(fired, now, listed))
      modifies this
      ensures Valid() && Model() == Next(old(Model()), RoundBegun(fired, now, listed), validity)
    {
      NextInv(Model(), RoundBegun(fired, now, listed), validity);
      gcTime := fired;
      cache := map[];
      if listed {
        gcListing := dstore;
        gcSkip := Some({});
      }
      clock := now;
    }

    method CollectOne(rk: RecKey, s: Stamp)
      requires Valid() && Enabled(Model(), Yielded(rk, s))
      modifies this
      ensures Valid() && Model() == Next(old(Model()), Yielded(rk, s), validity)
      ensures rk in dstore
         <==> rk in old(dstore) && (rk in old(gcSkip.value) || (s.At? && old(gcTime) - s.t <= validity))
    {
      NextInv(Model(), Yielded(rk, s), validity);
      if rk in gcSkip.value {
        return;
      }
      if Expired(s, gcTime, validity) {
        dstore := dstore - {rk};
      }
    }

    method EndGc()
      requires Valid() && Enabled(Model(), RoundEnded)
      modifies this
      ensures Valid() && Model() == Next(old(Model()), RoundEnded, validity)
    {
      NextInv(Model(), RoundEnded, validity);
      gcSkip := None;
    }
  }
}
