/**
 Whole runs of the provider store's event loop: announcements, lookups, cache evictions and the steps of
 garbage collection rounds, in any order the loop can take them.
 */
module ProviderRuns {
  import opened Wrappers
  import opened Keyspace
  import opened ProviderStore

  datatype Event =
    | Announced(k: Key, p: Peer, now: int)
    | Asked(k: Key, listing: Option<seq<RecKey>>, now: int)
    | Evicted(k: Key)
    | RoundBegun(fired: int, now: int, listed: bool)
    | Yielded(rk: RecKey, s: Stamp)
    | RoundEnded

  /** The clock does not go back, a listing is complete, and a round yields what it listed. */
  ghost predicate Enabled(m: Manager, e: Event)
  {
    match e
    case Announced(_, _, now) => m.clock <= now
    case Asked(k, listing, now) =>
      m.clock <= now && (k !in m.cache && listing.Some? ==> ListsKey(m.store, k, listing.value))
    case Evicted(_) => true
    case RoundBegun(fired, now, _) => m.round.None? && fired <= now && m.clock <= now
    case Yielded(rk, s) => m.round.Some? && CanYield(m, rk, s)
    case RoundEnded => m.round.Some?
  }

  ghost function Next(m: Manager, e: Event, validity: int): Manager
    requires Enabled(m, e)
  {
    match e
    case Announced(k, p, now) => Announce(m, k, p, now)
    case Asked(k, listing, now) => Lookup(m, k, listing, now, validity).0
    case Evicted(k) => Evict(m, k)
    case RoundBegun(fired, now, listed) => BeginRound(m, fired, now, listed)
    case Yielded(rk, s) => Collect(m, rk, s, validity)
    case RoundEnded => EndRound(m)
  }

  lemma {:induction false} NextInv(m: Manager, e: Event, validity: int)
    requires Inv(m, validity) && Enabled(m, e)
    ensures Inv(Next(m, e, validity), validity)
    ensures m.clock <= Next(m, e, validity).clock
  {
    hide Inv, Announce, Lookup, Collect, ListsKey, Listable, CanYield;
    match e
    case Announced(k, p, now) => AnnounceInv(m, k, p, now, validity); AnnounceClock(m, k, p, now);
    case Asked(k, listing, now) => LookupInv(m, k, listing, now, validity); LookupClock(m, k, listing, now, validity);
    case Evicted(k) => EvictInv(m, k, validity);
    case RoundBegun(fired, now, listed) => BeginRoundInv(m, fired, now, listed, validity);
    case Yielded(rk, s) => CollectInv(m, rk, s, validity); CollectClock(m, rk, s, validity);
    case RoundEnded => EndRoundInv(m, validity);
  }

  lemma {:induction false} AnnounceClock(m: Manager, k: Key, p: Peer, now: int)
    ensures Announce(m, k, p, now).clock == now
  {
  }

  lemma {:induction false} LookupClock(m: Manager, k: Key, listing: Option<seq<RecKey>>, now: int, validity: int)
    requires k !in m.cache && listing.Some? ==> Listable(m.store, listing.value)
    ensures Lookup(m, k, listing, now, validity).0.clock == now
    ensures Lookup(m, k, listing, now, validity).0.round == m.round
  {
  }

  lemma {:induction false} CollectClock(m: Manager, rk: RecKey, s: Stamp, validity: int)
    requires m.round.Some?
    ensures Collect(m, rk, s, validity).clock == m.clock && Collect(m, rk, s, validity).round == m.round
  {
  }

  /** From any datastore, with nothing cached and no round under way. */
  ghost predicate IsRun(ms: seq<Manager>, es: seq<Event>, validity: int)
  {
    && |ms| == |es| + 1
    && ms[0].cache == map[] && ms[0].round.None?
    && forall i :: 0 <= i < |es| ==> Enabled(ms[i], es[i]) && ms[i + 1] == Next(ms[i], es[i], validity)
  }

  /** In every reachable state each cached provider set is exactly what the datastore holds for its key. */
  lemma {:induction false} RunKeepsInv(ms: seq<Manager>, es: seq<Event>, validity: int, i: nat)
    requires IsRun(ms, es, validity) && i <= |es|
    ensures Inv(ms[i], validity)
    ensures forall k :: k in ms[i].cache ==> Mirrors(ms[i].cache[k], ms[i].store, k)
  {
    if i > 0 {
      RunKeepsInv(ms, es, validity, i - 1);
      NextInv(ms[i - 1], es[i - 1], validity);
    }
  }

  /** A record refreshed during a round stays marked until the round ends. */
  lemma {:induction false} RefreshedStaysMarked(ms: seq<Manager>, es: seq<Event>, validity: int, j: nat, i: nat, rk: RecKey)
    requires IsRun(ms, es, validity) && j <= i <= |es|
    requires ms[j].round.Some? && rk in ms[j].round.value.skip
    requires forall h :: j <= h < i ==> !es[h].RoundEnded?
    ensures ms[i].round.Some? && rk in ms[i].round.value.skip
  {
    if j < i {
      RefreshedStaysMarked(ms, es, validity, j, i - 1, rk);
      assert !es[i - 1].RoundEnded?;
    }
  }

  /** Garbage collection never deletes a record announced since its round began. */
  lemma {:induction false} GcSparesRefreshed(ms: seq<Manager>, es: seq<Event>, validity: int, j: nat, i: nat)
    requires IsRun(ms, es, validity) && j < i < |es|
    requires es[j].Announced? && ms[j].round.Some? && es[i].Yielded?
    requires forall h :: j <= h < i ==> !es[h].RoundEnded?
    ensures var rk := RecKey(es[j].k, Named(es[j].p));
            rk in ms[i].store ==> rk in ms[i + 1].store && ms[i + 1].store[rk] == ms[i].store[rk]
  {
    RefreshedStaysMarked(ms, es, validity, j + 1, i, RecKey(es[j].k, Named(es[j].p)));
  }

  // ---------------------------------------------------------------- nothing fresh is lost

  /** The store holds the record with a time not before `t`. */
  predicate HeldSince(d: Datastore, rk: RecKey, t: int)
  {
    rk in d && d[rk].At? && d[rk].t >= t
  }

  lemma {:induction false} NextKeepsFresh(m: Manager, e: Event, validity: int, rk: RecKey, t: int)
    requires Inv(m, validity) && Enabled(m, e) && t <= m.clock
    requires rk.suffix.Named? && HeldSince(m.store, rk, t)
    requires Next(m, e, validity).clock - t <= validity
    ensures HeldSince(Next(m, e, validity).store, rk, t)
  {
    match e
    case Asked(k, listing, now) =>
      LookupKeepsFresh(m, k, listing, now, validity, rk, t);
    case Yielded(q, s) =>
      CollectInv(m, q, s, validity);
    case _ =>
  }

  lemma {:induction false} LookupKeepsFresh(m: Manager, k: Key, listing: Option<seq<RecKey>>, now: int, validity: int, rk: RecKey, t: int)
    requires Inv(m, validity) && Enabled(m, Asked(k, listing, now))
    requires rk.suffix.Named? && HeldSince(m.store, rk, t) && now - t <= validity
    ensures HeldSince(Lookup(m, k, listing, now, validity).0.store, rk, t)
  {
    hide Inv, Lookup, ListsKey, Listable;
    LookupInv(m, k, listing, now, validity);
  }

  lemma {:induction false} JustAnnounced(m: Manager, e: Event, validity: int)
    requires Enabled(m, e) && e.Announced?
    ensures Next(m, e, validity).clock == e.now && HeldSince(Next(m, e, validity).store, RecKey(e.k, Named(e.p)), e.now)
  {
  }

  /** Once announced at time `t`, a provider stays on record in every later state until its validity has
      passed: neither loading nor garbage collection drops it early. */
  lemma {:induction false} AnnouncedStays(ms: seq<Manager>, es: seq<Event>, validity: int, j: nat, i: nat)
    requires IsRun(ms, es, validity) && j < i <= |es| && es[j].Announced?
    requires ms[i].clock - es[j].now <= validity
    ensures es[j].now <= ms[i].clock
    ensures HeldSince(ms[i].store, RecKey(es[j].k, Named(es[j].p)), es[j].now)
  {
    hide Inv, Next, Enabled, HeldSince;
    if i == j + 1 {
      JustAnnounced(ms[j], es[j], validity);
    } else {
      RunKeepsInv(ms, es, validity, i - 1);
      NextInv(ms[i - 1], es[i - 1], validity);
      AnnouncedStays(ms, es, validity, j, i - 1);
      NextKeepsFresh(ms[i - 1], es[i - 1], validity, RecKey(es[j].k, Named(es[j].p)), es[j].now);
    }
  }

  /** End to end: an announced provider is in every answer given about its key while it is valid. */
  lemma {:induction false} AnnouncedIsFound(ms: seq<Manager>, es: seq<Event>, validity: int, j: nat, i: nat)
    requires IsRun(ms, es, validity) && j < i < |es| && es[j].Announced? && es[i].Asked? && es[i].k == es[j].k
    requires es[i].now - es[j].now <= validity
    ensures var r := Lookup(ms[i], es[i].k, es[i].listing, es[i].now, validity).1;
            r.Some? ==> es[j].p in r.value.providers
  {
    LookupClock(ms[i], es[i].k, es[i].listing, es[i].now, validity);
    AnnouncedStays(ms, es, validity, j, i + 1);
    RunKeepsInv(ms, es, validity, i);
    LookupInv(ms[i], es[i].k, es[i].listing, es[i].now, validity);
    var r := Lookup(ms[i], es[i].k, es[i].listing, es[i].now, validity).1;
    if r.Some? {
      InMirror(r.value, ms[i + 1].store, es[j].k, es[j].p);
    }
  }

  lemma {:induction false} InMirror(ps: ProviderSet, d: Datastore, k: Key, p: Peer)
    requires Mirrors(ps, d, k) && RecKey(k, Named(p)) in d
    ensures p in ps.providers
  {
  }

  // ---------------------------------------------------------------- what is stale goes

  /** A record that a round yields stays exactly if it was refreshed since the round began or has a readable time that
      was valid then; nothing else in the store is touched. */
  lemma {:induction false} YieldedStaysIff(m: Manager, rk: RecKey, s: Stamp, validity: int)
    requires Enabled(m, Yielded(rk, s))
    ensures var n := Next(m, Yielded(rk, s), validity);
            && (rk in n.store
                <==> rk in m.store && (rk in m.round.value.skip || (s.At? && m.round.value.time - s.t <= validity)))
            && (forall q :: q != rk ==> (q in n.store <==> q in m.store))
            && (forall q :: q in n.store ==> n.store[q] == m.store[q])
  {
  }

  /** An answer that is loaded leaves exactly the records of the key that name a provider and have a readable time not
      older than the validity. */
  lemma {:induction false} LoadedStaysIff(m: Manager, k: Key, listing: seq<RecKey>, now: int, validity: int, rk: RecKey)
    requires Enabled(m, Asked(k, Some(listing), now)) && k !in m.cache && rk in m.store
    ensures var n := Next(m, Asked(k, Some(listing), now), validity);
            && (rk in n.store
                <==> rk.key != k || (rk.suffix.Named? && m.store[rk].At? && now - m.store[rk].t <= validity))
            && (rk in n.store ==> n.store[rk] == m.store[rk])
  {
    LoadMirrors(m.store, k, listing, now, validity);
  }

  /** A record that is gone stays away from the store unless it is announced again. */
  lemma {:induction false} GoneStaysGone(ms: seq<Manager>, es: seq<Event>, validity: int, j: nat, i: nat, rk: RecKey)
    requires IsRun(ms, es, validity) && j <= i <= |es| && rk !in ms[j].store
    requires forall h :: j <= h < i && es[h].Announced? ==> rk != RecKey(es[h].k, Named(es[h].p))
    ensures rk !in ms[i].store
  {
    if j < i {
      GoneStaysGone(ms, es, validity, j, i - 1, rk);
      RunKeepsInv(ms, es, validity, i - 1);
      OnlyAnnouncedAppears(ms[i - 1], es[i - 1], validity, rk);
    }
  }

  lemma {:induction false} OnlyAnnouncedAppears(m: Manager, e: Event, validity: int, rk: RecKey)
    requires Inv(m, validity) && Enabled(m, e) && rk !in m.store
    requires e.Announced? ==> rk != RecKey(e.k, Named(e.p))
    ensures rk !in Next(m, e, validity).store
  {
    if e.Asked? {
      hide Load;
      LookupInv(m, e.k, e.listing, e.now, validity);
    }
  }

  /** Events `b` to `e` are one whole round: it begins with a listing, ends, and yields every record listed. */
  ghost predicate WholeRound(ms: seq<Manager>, es: seq<Event>, b: nat, e: nat)
    requires |ms| == |es| + 1
  {
    && b < e < |es| && es[b].RoundBegun? && es[b].listed && es[e].RoundEnded?
    && (forall h :: b < h < e ==> !es[h].RoundEnded?)
    && (forall rk :: rk in ms[b].store ==> exists i :: b < i < e && es[i].Yielded? && es[i].rk == rk)
  }

  /** During the round its start, its listing and its marks stay. */
  lemma {:induction false} RoundGoesOn(ms: seq<Manager>, es: seq<Event>, validity: int, b: nat, i: nat)
    requires IsRun(ms, es, validity) && b < i <= |es| && es[b].RoundBegun? && es[b].listed
    requires forall h :: b < h < i ==> !es[h].RoundEnded?
    ensures ms[i].round.Some? && ms[i].round.value.time == es[b].fired && ms[i].round.value.snapshot == ms[b].store
  {
    if i > b + 1 {
      RoundGoesOn(ms, es, validity, b, i - 1);
      assert !es[i - 1].RoundEnded?;
    }
  }

  /** Once a round has yielded every record it listed and ended, each record left in the store was announced since the
      round began or had a readable time that was still valid then. */
  lemma {:induction false} RoundCollects(ms: seq<Manager>, es: seq<Event>, validity: int, b: nat, e: nat, rk: RecKey)
    requires IsRun(ms, es, validity) && WholeRound(ms, es, b, e) && rk in ms[e + 1].store
    ensures || (exists h :: b < h < e && es[h].Announced? && rk == RecKey(es[h].k, Named(es[h].p)))
            || (ms[e + 1].store[rk].At? && es[b].fired - ms[e + 1].store[rk].t <= validity)
  {
    if forall h :: b < h < e && es[h].Announced? ==> rk != RecKey(es[h].k, Named(es[h].p)) {
      if rk !in ms[b + 1].store {
        GoneStaysGone(ms, es, validity, b + 1, e, rk);
      }
      var i :| b < i < e && es[i].Yielded? && es[i].rk == rk;
      UnmarkedTill(ms, es, validity, b, e, rk);
      RoundGoesOn(ms, es, validity, b, e);
      RunKeepsInv(ms, es, validity, e);
      YieldedWhenListed(ms, es, validity, b, i, e, rk);
    }
  }

  /** Without an announcement a record is never marked. */
  lemma {:induction false} UnmarkedTill(ms: seq<Manager>, es: seq<Event>, validity: int, b: nat, i: nat, rk: RecKey)
    requires IsRun(ms, es, validity) && b < i <= |es| && es[b].RoundBegun? && es[b].listed
    requires forall h :: b < h < i ==> !es[h].RoundEnded?
    requires forall h :: b < h < i && es[h].Announced? ==> rk != RecKey(es[h].k, Named(es[h].p))
    ensures ms[i].round.Some? && rk !in ms[i].round.value.skip
  {
    if i > b + 1 {
      UnmarkedTill(ms, es, validity, b, i - 1, rk);
      assert !es[i - 1].RoundEnded?;
    }
  }

  lemma {:induction false} YieldedWhenListed(ms: seq<Manager>, es: seq<Event>, validity: int, b: nat, i: nat, e: nat, rk: RecKey)
    requires IsRun(ms, es, validity) && b < i < e < |es| && es[b].RoundBegun? && es[b].listed
    requires forall h :: b < h < e ==> !es[h].RoundEnded?
    requires forall h :: b < h < e && es[h].Announced? ==> rk != RecKey(es[h].k, Named(es[h].p))
    requires es[i].Yielded? && es[i].rk == rk && rk in ms[e].store && rk in ms[b].store
    ensures ms[b].store[rk].At? && es[b].fired - ms[b].store[rk].t <= validity
  {
    RoundGoesOn(ms, es, validity, b, i);
    UnmarkedTill(ms, es, validity, b, i, rk);
    YieldedStaysIff(ms[i], rk, es[i].s, validity);
    if rk !in ms[i + 1].store {
      GoneStaysGone(ms, es, validity, i + 1, e, rk);
    }
  }
}
