/**
 The peer diversity filter: it tracks the address groups of the peers it has let in and refuses a
 peer whose groups are already well represented.
 */
module DiversityFilter {
  import opened Wrappers
  import opened Collections
  import opened Keyspace
  import opened GroupCounters

  /** `Allow`: below both limits. A common prefix length nobody counts for yet passes the second one
      unseen, whatever that limit is. */
  predicate Allowed(c: Counters, maxForTable: nat, maxPerCpl: nat, g: GroupInfo)
  {
    && Get(c.table, g.key) < maxForTable
    && (g.cpl !in c.byCpl || Get(c.byCpl[g.cpl], g.key) < maxPerCpl)
  }

  lemma {:induction false} UpdateThenDrop<K, V>(m: map<K, V>, k: K, v: V)
    ensures m[k := v] - {k} == m - {k}
  {
  }

  lemma {:induction false} UpdateTwice<K, V>(m: map<K, V>, k: K, v: V, w: V)
    ensures m[k := v][k := w] == m[k := w]
  {
  }

  /** Count down one entry of a map and delete it at zero. */
  method LowerEntry(m: map<GroupKey, int>, k: GroupKey) returns (r: map<GroupKey, int>)
    ensures r == Lower(m, k)
  {
    r := m[k := Get(m, k) - 1];
    if r[k] == 0 {
      UpdateThenDrop(m, k, 0);
      r := r - {k};
    }
  }

  /** The bound the per-prefix check enforces: a limit of zero still lets one peer through. */
  function CplBound(maxPerCpl: nat): nat { if maxPerCpl == 0 then 1 else maxPerCpl }

  class RtPeerIPGroupFilter {
    const maxPerCpl: nat
    const maxForTable: nat
    var cplIpGroupCount: map<nat, map<GroupKey, int>>
    var tableIpGroupCount: map<GroupKey, int>

    function Model(): Counters
      reads this
    {
      Counters(tableIpGroupCount, cplIpGroupCount)
    }

    constructor (maxPerCpl: nat, maxForTable: nat)
      ensures Model() == Counters(map[], map[])
      ensures this.maxPerCpl == maxPerCpl && this.maxForTable == maxForTable
    {
      this.maxPerCpl, this.maxForTable := maxPerCpl, maxForTable;
      cplIpGroupCount, tableIpGroupCount := map[], map[];
    }

    method Allow(g: GroupInfo) returns (allow: bool)
      ensures allow <==> Allowed(Model(), maxForTable, maxPerCpl, g)
    {
      if Get(tableIpGroupCount, g.key) >= maxForTable {
        return false;
      }
      allow := g.cpl !in cplIpGroupCount || Get(cplIpGroupCount[g.cpl], g.key) < maxPerCpl;
    }

    method Increment(g: GroupInfo)
      modifies this
      ensures Model() == Inc(old(Model()), g)
    {
      tableIpGroupCount := tableIpGroupCount[g.key := Get(tableIpGroupCount, g.key) + 1];
      if g.cpl !in cplIpGroupCount {
        cplIpGroupCount := cplIpGroupCount[g.cpl := map[]];
      }
      var inner := cplIpGroupCount[g.cpl];
      cplIpGroupCount := cplIpGroupCount[g.cpl := inner[g.key := Get(inner, g.key) + 1]];
    }

    /** Writing into a missing inner map would panic. */
    method Decrement(g: GroupInfo)
      requires g.cpl in cplIpGroupCount
      modifies this
      ensures Model() == Dec(old(Model()), g)
    {
      tableIpGroupCount := LowerEntry(tableIpGroupCount, g.key);
      var inner := LowerEntry(cplIpGroupCount[g.cpl], g.key);
      UpdateThenDrop(cplIpGroupCount, g.cpl, inner);
      cplIpGroupCount := cplIpGroupCount[g.cpl := inner];
      if |inner| == 0 {
        cplIpGroupCount := cplIpGroupCount - {g.cpl};
      }
    }
  }

  /** The group of one address of a peer, or none if it cannot be determined. */
  type Address = Option<GroupKey>

  /** What `TryAdd` asks of a peer that is not whitelisted. */
  predicate Admits(c: Counters, maxForTable: nat, maxPerCpl: nat, p: Peer, cpl: nat, addrs: seq<Address>)
  {
    && addrs != []
    && forall i :: 0 <= i < |addrs| ==>
                     && addrs[i].Some? && addrs[i].value != ""
                     && Allowed(c, maxForTable, maxPerCpl, GroupInfo(p, cpl, addrs[i].value))
  }

  function Groups(p: Peer, cpl: nat, addrs: seq<Address>): (r: seq<GroupInfo>)
    requires forall i :: 0 <= i < |addrs| ==> addrs[i].Some?
    ensures |r| == |addrs|
    ensures forall i :: 0 <= i < |r| ==> r[i].id == p && r[i].cpl == cpl && Some(r[i].key) == addrs[i]
  {
    seq(|addrs|, i requires 0 <= i < |addrs| => GroupInfo(p, cpl, addrs[i].value))
  }

  function Keys(gs: seq<GroupInfo>): (r: seq<GroupKey>)
    ensures |r| == |gs|
  {
    seq(|gs|, i requires 0 <= i < |gs| => gs[i].key)
  }

  /** `s` lists exactly the group entries of the tracked peers. */
  ghost predicate Enumerates(s: seq<GroupInfo>, tracked: map<Peer, seq<GroupInfo>>)
  {
    forall g :: multiset(s)[g] == if g.id in tracked then multiset(tracked[g.id])[g] else 0
  }

  ghost predicate OwnGroups(tracked: map<Peer, seq<GroupInfo>>, cplFnc: Peer -> nat)
  {
    forall p :: p in tracked ==>
                  tracked[p] != [] && forall g :: g in tracked[p] ==> g.id == p && g.cpl == cplFnc(p)
  }

  /** The view by common prefix length shows every tracked peer with its keys, and nobody else. */
  ghost predicate ShowsAll(tracked: map<Peer, seq<GroupInfo>>, cplFnc: Peer -> nat,
                           view: map<nat, map<Peer, seq<GroupKey>>>)
  {
    forall p :: p in tracked ==>
                  cplFnc(p) in view && p in view[cplFnc(p)] && view[cplFnc(p)][p] == Keys(tracked[p])
  }

  ghost predicate ShowsOnly(tracked: map<Peer, seq<GroupInfo>>, cplFnc: Peer -> nat,
                            view: map<nat, map<Peer, seq<GroupKey>>>)
  {
    forall c :: c in view ==>
                  view[c] != map[] && forall p :: p in view[c] ==> p in tracked && cplFnc(p) == c
  }

  /** No group key is shared by more distinct peers than the limits say. */
  ghost predicate Diverse(s: seq<GroupInfo>, maxForTable: nat, maxPerCpl: nat)
  {
    && (forall k :: |Sharers(s, k)| <= maxForTable)
    && (forall c, k :: |CplSharers(s, c, k)| <= CplBound(maxPerCpl))
  }

  lemma {:induction false} GrowMember(s: seq<GroupInfo>, gs: seq<GroupInfo>, r: seq<GroupInfo>)
    requires multiset(r) == multiset(s) + multiset(gs)
    ensures forall g :: g in r ==> g in s || g in gs
  {
    forall g | g in r
      ensures g in s || g in gs
    {
      assert g in multiset(r);
    }
  }

  lemma {:induction false} GrowSharers(c: Counters, s: seq<GroupInfo>, gs: seq<GroupInfo>, r: seq<GroupInfo>, p: Peer, cpl: nat,
                                       maxForTable: nat, maxPerCpl: nat, k: GroupKey)
    requires Recounts(c, s) && |Sharers(s, k)| <= maxForTable
    requires multiset(r) == multiset(s) + multiset(gs)
    requires forall g :: g in gs ==> g.id == p && g.cpl == cpl && Allowed(c, maxForTable, maxPerCpl, g)
    ensures |Sharers(r, k)| <= maxForTable
  {
    GrowMember(s, gs, r);
    hide Sharers, CountKey, CountCpl;
    if exists g :: g in gs && g.key == k {
      SubsetSize(Sharers(r, k), Sharers(s, k) + {p});
      assert Get(c.table, k) == CountKey(s, k);
    } else {
      SubsetSize(Sharers(r, k), Sharers(s, k));
    }
  }

  lemma {:induction false} GrowCplSharers(c: Counters, s: seq<GroupInfo>, gs: seq<GroupInfo>, r: seq<GroupInfo>, p: Peer, cpl: nat,
                                          maxForTable: nat, maxPerCpl: nat, cc: nat, k: GroupKey)
    requires Recounts(c, s) && |CplSharers(s, cc, k)| <= CplBound(maxPerCpl)
    requires multiset(r) == multiset(s) + multiset(gs)
    requires forall g :: g in gs ==> g.id == p && g.cpl == cpl && Allowed(c, maxForTable, maxPerCpl, g)
    ensures |CplSharers(r, cc, k)| <= CplBound(maxPerCpl)
  {
    GrowMember(s, gs, r);
    hide CplSharers, CountKey, CountCpl;
    if cc == cpl && exists g :: g in gs && g.key == k {
      SubsetSize(CplSharers(r, cc, k), CplSharers(s, cc, k) + {p});
      assert GetCpl(c, cc, k) == CountCpl(s, cc, k);
    } else {
      SubsetSize(CplSharers(r, cc, k), CplSharers(s, cc, k));
    }
  }

  /** A peer let in after the `Allow` checks keeps every group within its limit, however many of the
      peer's addresses fall into one group. */
  lemma {:induction false} GrowDiverse(c: Counters, s: seq<GroupInfo>, gs: seq<GroupInfo>, r: seq<GroupInfo>, p: Peer, cpl: nat,
                                       maxForTable: nat, maxPerCpl: nat)
    requires Recounts(c, s) && Diverse(s, maxForTable, maxPerCpl)
    requires multiset(r) == multiset(s) + multiset(gs)
    requires forall g :: g in gs ==> g.id == p && g.cpl == cpl && Allowed(c, maxForTable, maxPerCpl, g)
    ensures Diverse(r, maxForTable, maxPerCpl)
  {
    hide Sharers, CplSharers, Recounts, Allowed;
    forall k
      ensures |Sharers(r, k)| <= maxForTable
    {
      GrowSharers(c, s, gs, r, p, cpl, maxForTable, maxPerCpl, k);
    }
    forall cc, k
      ensures |CplSharers(r, cc, k)| <= CplBound(maxPerCpl)
    {
      GrowCplSharers(c, s, gs, r, p, cpl, maxForTable, maxPerCpl, cc, k);
    }
  }

  lemma {:induction false} ShrinkDiverse(s: seq<GroupInfo>, r: seq<GroupInfo>, maxForTable: nat, maxPerCpl: nat)
    requires Diverse(s, maxForTable, maxPerCpl)
    requires forall g :: g in r ==> g in s
    ensures Diverse(r, maxForTable, maxPerCpl)
  {
    hide Sharers, CplSharers;
    forall k
      ensures |Sharers(r, k)| <= maxForTable
    {
      SubsetSize(Sharers(r, k), Sharers(s, k));
    }
    forall cc, k
      ensures |CplSharers(r, cc, k)| <= CplBound(maxPerCpl)
    {
      SubsetSize(CplSharers(r, cc, k), CplSharers(s, cc, k));
    }
  }

  function TrackedGroups(tracked: map<Peer, seq<GroupInfo>>, p: Peer): seq<GroupInfo>
  {
    if p in tracked then tracked[p] else []
  }

  function Inner(view: map<nat, map<Peer, seq<GroupKey>>>, c: nat): map<Peer, seq<GroupKey>>
  {
    if c in view then view[c] else map[]
  }

  /** One iteration of the recording loop. */
  function Record(view: map<nat, map<Peer, seq<GroupKey>>>, c: nat, p: Peer, key: GroupKey)
    : map<nat, map<Peer, seq<GroupKey>>>
  {
    var inner := Inner(view, c);
    view[c := inner[p := (if p in inner then inner[p] else []) + [key]]]
  }

  lemma {:induction false} RecordShowsAll(tracked: map<Peer, seq<GroupInfo>>, cplFnc: Peer -> nat,
                                          view: map<nat, map<Peer, seq<GroupKey>>>, p: Peer, g: GroupInfo)
    requires ShowsAll(tracked, cplFnc, view)
    requires p !in tracked ==> p !in Inner(view, cplFnc(p))
    ensures ShowsAll(tracked[p := TrackedGroups(tracked, p) + [g]], cplFnc, Record(view, cplFnc(p), p, g.key))
  {
    var all, v := TrackedGroups(tracked, p) + [g], Record(view, cplFnc(p), p, g.key);
    assert Keys(all) == Keys(TrackedGroups(tracked, p)) + [g.key];
    forall q | q in tracked || q == p
      ensures cplFnc(q) in v && q in v[cplFnc(q)]
      ensures v[cplFnc(q)][q] == Keys(if q == p then all else tracked[q])
    {
    }
  }

  lemma {:induction false} RecordShowsOnly(tracked: map<Peer, seq<GroupInfo>>, cplFnc: Peer -> nat,
                                           view: map<nat, map<Peer, seq<GroupKey>>>, p: Peer, g: GroupInfo)
    requires ShowsOnly(tracked, cplFnc, view)
    ensures ShowsOnly(tracked[p := TrackedGroups(tracked, p) + [g]], cplFnc, Record(view, cplFnc(p), p, g.key))
  {
    var v := Record(view, cplFnc(p), p, g.key);
    assert p in v[cplFnc(p)];
    forall c | c in v
      ensures v[c] != map[] && forall q :: q in v[c] ==> (q in tracked || q == p) && cplFnc(q) == c
    {
      assert c != cplFnc(p) ==> v[c] == view[c];
    }
  }

  lemma {:induction false} AddLists(s: seq<GroupInfo>, tracked: map<Peer, seq<GroupInfo>>, p: Peer, gs: seq<GroupInfo>,
                                    r: seq<GroupInfo>)
    requires Enumerates(s, tracked) && multiset(r) == multiset(s) + multiset(gs)
    requires forall g :: g in gs ==> g.id == p
    ensures Enumerates(r, tracked[p := TrackedGroups(tracked, p) + gs])
  {
    forall g: GroupInfo
      ensures g.id != p ==> multiset(gs)[g] == 0
    {
      assert g in multiset(gs) ==> g in gs;
    }
    assert multiset(TrackedGroups(tracked, p) + gs) == multiset(TrackedGroups(tracked, p)) + multiset(gs);
  }

  /** Deleting a peer from the view, and its common prefix length with the last peer. */
  function Unrecord(view: map<nat, map<Peer, seq<GroupKey>>>, c: nat, p: Peer): map<nat, map<Peer, seq<GroupKey>>>
  {
    var inner := Inner(view, c) - {p};
    if |inner| == 0 then view - {c} else view[c := inner]
  }

  lemma {:induction false} NotEmpty<K, V>(m: map<K, V>, k: K)
    requires k in m
    ensures |m| != 0
  {
    assert k in m.Keys;
  }

  lemma {:induction false} UnrecordKeeps(view: map<nat, map<Peer, seq<GroupKey>>>, c: nat, p: Peer, d: nat, q: Peer)
    requires d in view && q in view[d] && q != p
    ensures var v := Unrecord(view, c, p); d in v && q in v[d] && v[d][q] == view[d][q]
  {
    if d == c {
      NotEmpty(view[c] - {p}, q);
    }
  }

  lemma {:induction false} UnrecordShowsAll(tracked: map<Peer, seq<GroupInfo>>, cplFnc: Peer -> nat,
                                            view: map<nat, map<Peer, seq<GroupKey>>>, p: Peer)
    requires ShowsAll(tracked, cplFnc, view)
    ensures ShowsAll(tracked - {p}, cplFnc, Unrecord(view, cplFnc(p), p))
  {
    hide Keys, Unrecord;
    forall q | q in tracked && q != p
      ensures var v := Unrecord(view, cplFnc(p), p);
              cplFnc(q) in v && q in v[cplFnc(q)] && v[cplFnc(q)][q] == Keys(tracked[q])
    {
      UnrecordKeeps(view, cplFnc(p), p, cplFnc(q), q);
    }
  }

  lemma {:induction false} UnrecordShowsOnly(tracked: map<Peer, seq<GroupInfo>>, cplFnc: Peer -> nat,
                                             view: map<nat, map<Peer, seq<GroupKey>>>, p: Peer)
    requires ShowsOnly(tracked, cplFnc, view)
    ensures ShowsOnly(tracked - {p}, cplFnc, Unrecord(view, cplFnc(p), p))
  {
    var v := Unrecord(view, cplFnc(p), p);
    forall c | c in v
      ensures v[c] != map[] && forall q :: q in v[c] ==> q in tracked && q != p && cplFnc(q) == c
    {
      assert c != cplFnc(p) ==> v[c] == view[c];
    }
  }

  lemma {:induction false} DropLists(s: seq<GroupInfo>, tracked: map<Peer, seq<GroupInfo>>, p: Peer, r: seq<GroupInfo>, cplFnc: Peer -> nat)
    requires Enumerates(s, tracked) && OwnGroups(tracked, cplFnc)
    requires multiset(r) + multiset(TrackedGroups(tracked, p)) == multiset(s)
    ensures Enumerates(r, tracked - {p})
    ensures forall g :: g in r ==> g in s
  {
    var gs := TrackedGroups(tracked, p);
    forall g: GroupInfo
      ensures multiset(r)[g] == if g.id in tracked - {p} then multiset((tracked - {p})[g.id])[g] else 0
    {
      assert g in multiset(gs) ==> g in gs;
      assert multiset(s)[g] == multiset(r)[g] + multiset(gs)[g];
    }
    forall g | g in r
      ensures g in s
    {
      assert g in multiset(s);
    }
  }

  /** The counters are a recount of the tracked groups, and the view shows them. */
  ghost predicate Consistent(c: Counters, s: seq<GroupInfo>, tracked: map<Peer, seq<GroupInfo>>,
                             cplFnc: Peer -> nat, view: map<nat, map<Peer, seq<GroupKey>>>)
  {
    && Enumerates(s, tracked)
    && Recounts(c, s)
    && OwnGroups(tracked, cplFnc)
    && ShowsAll(tracked, cplFnc, view)
    && ShowsOnly(tracked, cplFnc, view)
  }

  lemma {:induction false} OnlyTracked(tracked: map<Peer, seq<GroupInfo>>, cplFnc: Peer -> nat,
                                       view: map<nat, map<Peer, seq<GroupKey>>>, p: Peer)
    requires ShowsOnly(tracked, cplFnc, view) && p !in tracked
    ensures p !in Inner(view, cplFnc(p))
  {
  }

  lemma {:induction false} ConsistentRecounts(c: Counters, s: seq<GroupInfo>, tracked: map<Peer, seq<GroupInfo>>,
                                              cplFnc: Peer -> nat, view: map<nat, map<Peer, seq<GroupKey>>>)
    requires Consistent(c, s, tracked, cplFnc, view)
    ensures Recounts(c, s)
  {
  }

  lemma {:induction false} AddGroupConsistent(c: Counters, s: seq<GroupInfo>, tracked: map<Peer, seq<GroupInfo>>,
                                              cplFnc: Peer -> nat, view: map<nat, map<Peer, seq<GroupKey>>>, g: GroupInfo)
    requires Consistent(c, s, tracked, cplFnc, view) && g.cpl == cplFnc(g.id)
    ensures Consistent(Inc(c, g), [g] + s, tracked[g.id := TrackedGroups(tracked, g.id) + [g]], cplFnc,
                       Record(view, cplFnc(g.id), g.id, g.key))
  {
    hide Recounts, Enumerates, ShowsAll, ShowsOnly, Inc, Record;
    if g.id !in tracked {
      OnlyTracked(tracked, cplFnc, view, g.id);
    }
    IncRecounts(c, s, g);
    AddLists(s, tracked, g.id, [g], [g] + s);
    RecordShowsAll(tracked, cplFnc, view, g.id, g);
    RecordShowsOnly(tracked, cplFnc, view, g.id, g);
  }

  lemma {:induction false} GroupsAreListed(c: Counters, s: seq<GroupInfo>, tracked: map<Peer, seq<GroupInfo>>,
                                           cplFnc: Peer -> nat, view: map<nat, map<Peer, seq<GroupKey>>>, p: Peer)
    requires Consistent(c, s, tracked, cplFnc, view)
    ensures multiset(TrackedGroups(tracked, p)) <= multiset(s)
  {
    var groups := TrackedGroups(tracked, p);
    forall g: GroupInfo
      ensures multiset(groups)[g] <= multiset(s)[g]
    {
      assert g in multiset(groups) ==> g in groups;
    }
  }

  lemma {:induction false} DropConsistent(c: Counters, s: seq<GroupInfo>, tracked: map<Peer, seq<GroupInfo>>,
                                          cplFnc: Peer -> nat, view: map<nat, map<Peer, seq<GroupKey>>>, p: Peer,
                                          d: Counters, r: seq<GroupInfo>)
    requires Consistent(c, s, tracked, cplFnc, view)
    requires Recounts(d, r) && multiset(r) + multiset(TrackedGroups(tracked, p)) == multiset(s)
    ensures Consistent(d, r, tracked - {p}, cplFnc, Unrecord(view, cplFnc(p), p))
    ensures forall g :: g in r ==> g in s
  {
    hide Recounts, Enumerates, ShowsAll, ShowsOnly;
    DropLists(s, tracked, p, r, cplFnc);
    UnrecordShowsAll(tracked, cplFnc, view, p);
    UnrecordShowsOnly(tracked, cplFnc, view, p);
  }

  /** The peers that share a key are exactly the tracked peers with an address in that group. */
  lemma {:induction false} SharersAreTracked(c: Counters, s: seq<GroupInfo>, tracked: map<Peer, seq<GroupInfo>>,
                                             cplFnc: Peer -> nat, view: map<nat, map<Peer, seq<GroupKey>>>, p: Peer, k: GroupKey)
    requires Consistent(c, s, tracked, cplFnc, view)
    ensures p in Sharers(s, k) <==> p in tracked && exists g :: g in tracked[p] && g.key == k
    ensures p in CplSharers(s, cplFnc(p), k) <==> p in Sharers(s, k)
  {
    hide Recounts, ShowsAll, ShowsOnly, Sharers, CplSharers;
    forall g: GroupInfo
      ensures g in s <==> g.id in tracked && g in tracked[g.id]
    {
      assert g in s <==> multiset(s)[g] > 0;
      if g.id in tracked {
        assert g in tracked[g.id] <==> multiset(tracked[g.id])[g] > 0;
      }
    }
  }

  /** `Allow` read off the entries counted: fewer than the table limit carry the key, and fewer than the limit per common
      prefix length do within the peer's, or nothing at all is counted there. */
  lemma {:induction false} AllowedIff(c: Counters, s: seq<GroupInfo>, maxForTable: nat, maxPerCpl: nat, g: GroupInfo)
    requires Recounts(c, s)
    ensures Allowed(c, maxForTable, maxPerCpl, g)
       <==> CountKey(s, g.key) < maxForTable
            && (CountCpl(s, g.cpl, g.key) < maxPerCpl || forall e :: e in s ==> e.cpl != g.cpl)
  {
    assert Get(c.table, g.key) == CountKey(s, g.key);
    assert GetCpl(c, g.cpl, g.key) == CountCpl(s, g.cpl, g.key);
    NothingCounted(c, s, g.cpl);
  }

  /** What admits a peer that is not whitelisted: it has addresses, each with a group that is not yet full. */
  ghost predicate AdmitsByCount(s: seq<GroupInfo>, maxForTable: nat, maxPerCpl: nat, cpl: nat, addrs: seq<Address>)
  {
    && addrs != []
    && forall i :: 0 <= i < |addrs| ==>
                     && addrs[i].Some? && addrs[i].value != ""
                     && CountKey(s, addrs[i].value) < maxForTable
                     && (CountCpl(s, cpl, addrs[i].value) < maxPerCpl || forall e :: e in s ==> e.cpl != cpl)
  }

  lemma {:induction false} AdmitsIff(c: Counters, s: seq<GroupInfo>, tracked: map<Peer, seq<GroupInfo>>, cplFnc: Peer -> nat,
                                     view: map<nat, map<Peer, seq<GroupKey>>>, maxForTable: nat, maxPerCpl: nat, p: Peer,
                                     addrs: seq<Address>)
    requires Consistent(c, s, tracked, cplFnc, view)
    ensures Admits(c, maxForTable, maxPerCpl, p, cplFnc(p), addrs)
       <==> AdmitsByCount(s, maxForTable, maxPerCpl, cplFnc(p), addrs)
  {
    ConsistentRecounts(c, s, tracked, cplFnc, view);
    hide Consistent, Recounts, Allowed, CountKey, CountCpl;
    forall i | 0 <= i < |addrs| && addrs[i].Some?
      ensures Allowed(c, maxForTable, maxPerCpl, GroupInfo(p, cplFnc(p), addrs[i].value))
         <==> CountKey(s, addrs[i].value) < maxForTable
              && (CountCpl(s, cplFnc(p), addrs[i].value) < maxPerCpl || forall e :: e in s ==> e.cpl != cplFnc(p))
    {
      AllowedIff(c, s, maxForTable, maxPerCpl, GroupInfo(p, cplFnc(p), addrs[i].value));
    }
  }

  lemma {:induction false} NothingCounted(c: Counters, s: seq<GroupInfo>, cpl: nat)
    requires Recounts(c, s)
    ensures cpl !in c.byCpl <==> forall e :: e in s ==> e.cpl != cpl
  {
    if cpl in c.byCpl {
      var k :| k in c.byCpl[cpl];
      assert GetCpl(c, cpl, k) == CountCpl(s, cpl, k);
      CountedExists(s, cpl, k);
    } else if e :| e in s && e.cpl == cpl {
      assert GetCpl(c, cpl, e.key) == CountCpl(s, cpl, e.key);
      CountPositive(s, e);
    }
  }

  lemma {:induction false} CountedExists(s: seq<GroupInfo>, cpl: nat, k: GroupKey)
    requires CountCpl(s, cpl, k) > 0
    ensures exists e :: e in s && e.cpl == cpl
  {
    if s[0].key == k && s[0].cpl == cpl {
      assert s[0] in s;
    } else {
      CountedExists(s[1..], cpl, k);
    }
  }

  /** No group key is shared by more than `limit` peers within one common prefix length. */
  ghost predicate CplWithin(s: seq<GroupInfo>, limit: nat)
  {
    forall c, k :: |CplSharers(s, c, k)| <= limit
  }

  /** All groups of one peer, each allowed by the counters as they are. */
  ghost predicate Admissible(c: Counters, maxForTable: nat, maxPerCpl: nat, p: Peer, cpl: nat, gs: seq<GroupInfo>)
  {
    forall g :: g in gs ==> g.id == p && g.cpl == cpl && Allowed(c, maxForTable, maxPerCpl, g)
  }

  /** What the limit per common prefix length promises: admitting a peer with all its groups stays within it. */
  ghost predicate CplLimitKept(maxForTable: nat, maxPerCpl: nat)
  {
    forall c, s, p, cpl, gs ::
      (Recounts(c, s) && CplWithin(s, maxPerCpl) && Admissible(c, maxForTable, maxPerCpl, p, cpl, gs))
      ==> CplWithin(s + gs, maxPerCpl)
  }

  lemma {:induction false} AdmissionStaysWithin(c: Counters, s: seq<GroupInfo>, p: Peer, cpl: nat, gs: seq<GroupInfo>,
                                                maxForTable: nat, maxPerCpl: nat)
    requires Recounts(c, s) && CplWithin(s, maxPerCpl) && Admissible(c, maxForTable, maxPerCpl, p, cpl, gs)
    requires maxPerCpl > 0 || maxForTable == 0
    ensures CplWithin(s + gs, maxPerCpl)
  {
    hide CplSharers, Recounts;
    if maxPerCpl > 0 {
      forall cc, k
        ensures |CplSharers(s + gs, cc, k)| <= maxPerCpl
      {
        GrowCplSharers(c, s, gs, s + gs, p, cpl, maxForTable, maxPerCpl, cc, k);
      }
    } else {
      NobodyAllowed(c, s, maxPerCpl, gs, p, cpl);
      assert s + gs == s;
    }
  }

  lemma {:induction false} NotAllowed(c: Counters, s: seq<GroupInfo>, maxPerCpl: nat, g: GroupInfo)
    requires Recounts(c, s)
    ensures !Allowed(c, 0, maxPerCpl, g)
  {
    assert Get(c.table, g.key) == CountKey(s, g.key);
  }

  /** A limit of zero for the whole table admits no group at all. */
  lemma {:induction false} NobodyAllowed(c: Counters, s: seq<GroupInfo>, maxPerCpl: nat, gs: seq<GroupInfo>, p: Peer, cpl: nat)
    requires Recounts(c, s) && Admissible(c, 0, maxPerCpl, p, cpl, gs)
    ensures gs == []
  {
    if gs != [] {
      assert gs[0] in gs;
      NotAllowed(c, s, maxPerCpl, gs[0]);
    }
  }

  /** The limit per common prefix length is kept by every admission exactly if it is positive or the table admits
      nobody: otherwise a limit of zero lets a first peer in. */
  lemma {:induction false} CplLimitIff(maxForTable: nat, maxPerCpl: nat)
    ensures CplLimitKept(maxForTable, maxPerCpl) <==> maxPerCpl > 0 || maxForTable == 0
  {
    hide CplWithin, Recounts, Admissible;
    if maxPerCpl > 0 || maxForTable == 0 {
      forall c, s, p, cpl, gs | Recounts(c, s) && CplWithin(s, maxPerCpl) && Admissible(c, maxForTable, maxPerCpl, p, cpl, gs)
        ensures CplWithin(s + gs, maxPerCpl)
      {
        AdmissionStaysWithin(c, s, p, cpl, gs, maxForTable, maxPerCpl);
      }
    } else {
      FirstPeerEnters(maxForTable);
      assert [] + [GroupInfo("p", 0, "k")] == [GroupInfo("p", 0, "k")];
    }
  }

  lemma {:induction false} FirstPeerEnters(maxForTable: nat)
    requires maxForTable > 0
    ensures var c, g := Counters(map[], map[]), GroupInfo("p", 0, "k");
            && Recounts(c, []) && CplWithin([], 0) && Admissible(c, maxForTable, 0, "p", 0, [g])
            && !CplWithin([g], 0)
  {
    var g := GroupInfo("p", 0, "k");
    assert CplSharers([g], 0, "k") == {"p"} by {
      assert [g][0] == g && [g][1..] == [];
    }
    assert forall c, k :: CplSharers([], c, k) == {};
  }

  function Track(tracked: map<Peer, seq<GroupInfo>>, p: Peer, gs: seq<GroupInfo>): map<Peer, seq<GroupInfo>>
  {
    if gs == [] then tracked else tracked[p := TrackedGroups(tracked, p) + gs]
  }

  lemma {:induction false} TrackStep(tracked: map<Peer, seq<GroupInfo>>, p: Peer, gs: seq<GroupInfo>, g: GroupInfo)
    ensures var m := Track(tracked, p, gs);
            m[p := TrackedGroups(m, p) + [g]] == Track(tracked, p, gs + [g])
  {
    var had := TrackedGroups(tracked, p);
    if gs == [] {
      assert gs + [g] == [g];
    } else {
      assert had + (gs + [g]) == (had + gs) + [g];
      UpdateTwice(tracked, p, had + gs, had + (gs + [g]));
    }
  }

  lemma {:induction false} PrefixStep(gs: seq<GroupInfo>, i: nat)
    requires i < |gs|
    ensures gs[..i + 1] == gs[..i] + [gs[i]]
    ensures multiset(gs[..i + 1]) == multiset(gs[..i]) + multiset{gs[i]} <= multiset(gs)
  {
    assert gs[..i + 1] == gs[..i] + [gs[i]];
    assert gs == gs[..i + 1] + gs[i + 1..];
  }

  class Filter {
    const pgm: RtPeerIPGroupFilter
    const cplFnc: Peer -> nat
    var peerGroups: map<Peer, seq<GroupInfo>>
    var wlpeers: set<Peer>
    var cplPeerGroups: map<nat, map<Peer, seq<GroupKey>>>

    /** The group entries currently counted, in some order. */
    ghost var entries: seq<GroupInfo>

    ghost predicate Valid()
      reads this, pgm
    {
      && Consistent(pgm.Model(), entries, peerGroups, cplFnc, cplPeerGroups)
      && Diverse(entries, pgm.maxForTable, pgm.maxPerCpl)
    }

    constructor (pgm: RtPeerIPGroupFilter, cplFnc: Peer -> nat)
      requires pgm.Model() == Counters(map[], map[])
      ensures Valid() && this.pgm == pgm && this.cplFnc == cplFnc
      ensures peerGroups == map[] && wlpeers == {}
    {
      this.pgm, this.cplFnc := pgm, cplFnc;
      peerGroups, wlpeers, cplPeerGroups := map[], {}, map[];
      entries := [];
    }

    method WhitelistPeers(peers: seq<Peer>)
      requires Valid()
      modifies this`wlpeers
      ensures Valid()
      ensures wlpeers == old(wlpeers) + set p | p in peers
    {
      for i := 0 to |peers|
        invariant wlpeers == old(wlpeers) + set p | p in peers[..i]
      {
        wlpeers := wlpeers + {peers[i]};
        assert peers[..i + 1] == peers[..i] + [peers[i]];
      }
      assert peers[..|peers|] == peers;
    }

    /** The address checks of `TryAdd`: every address must have an allowed group. */
    method CheckGroups(p: Peer, cpl: nat, addrs: seq<Address>) returns (ok: bool, groups: seq<GroupInfo>)
      ensures ok <==> Admits(pgm.Model(), pgm.maxForTable, pgm.maxPerCpl, p, cpl, addrs)
      ensures ok ==> groups == Groups(p, cpl, addrs)
    {
      groups := [];
      if |addrs| == 0 {
        return false, groups;
      }
      for i := 0 to |addrs|
        invariant forall j :: 0 <= j < i ==>
                                && addrs[j].Some? && addrs[j].value != ""
                                && Allowed(pgm.Model(), pgm.maxForTable, pgm.maxPerCpl, GroupInfo(p, cpl, addrs[j].value))
        invariant |groups| == i
        invariant forall j :: 0 <= j < i ==> groups[j] == GroupInfo(p, cpl, addrs[j].value)
      {
        if addrs[i].None? || addrs[i].value == "" {
          return false, groups;
        }
        var g := GroupInfo(p, cpl, addrs[i].value);
        var allow := pgm.Allow(g);
        if !allow {
          return false, groups;
        }
        groups := groups + [g];
      }
      ok := true;
    }

    /** Count and record the groups of a peer that passed the checks. */
    method AddGroups(p: Peer, groups: seq<GroupInfo>)
      requires Valid() && groups != []
      requires forall g :: g in groups ==> g.id == p && g.cpl == cplFnc(p)
                                           && Allowed(pgm.Model(), pgm.maxForTable, pgm.maxPerCpl, g)
      modifies this`peerGroups, this`cplPeerGroups, this`entries, pgm
      ensures Valid()
      ensures peerGroups == old(peerGroups)[p := TrackedGroups(old(peerGroups), p) + groups]
    {
      hide Consistent, Diverse, Allowed, Inc, Record, Recounts;
      for i := 0 to |groups|
        invariant Consistent(pgm.Model(), entries, peerGroups, cplFnc, cplPeerGroups)
        invariant multiset(entries) == multiset(old(entries)) + multiset(groups[..i])
        invariant peerGroups == Track(old(peerGroups), p, groups[..i])
      {
        var g := groups[i];
        AddGroupConsistent(pgm.Model(), entries, peerGroups, cplFnc, cplPeerGroups, g);
        PrefixStep(groups, i);
        TrackStep(old(peerGroups), p, groups[..i], g);
        pgm.Increment(g);
        entries := [g] + entries;
        peerGroups := peerGroups[p := TrackedGroups(peerGroups, p) + [g]];
        cplPeerGroups := Record(cplPeerGroups, cplFnc(p), p, g.key);
      }
      assert groups[..|groups|] == groups;
      ConsistentRecounts(old(pgm.Model()), old(entries), old(peerGroups), cplFnc, old(cplPeerGroups));
      GrowDiverse(old(pgm.Model()), old(entries), groups, entries, p, cplFnc(p), pgm.maxForTable, pgm.maxPerCpl);
    }

    method TryAdd(p: Peer, addrs: seq<Address>) returns (ok: bool)
      requires Valid()
      modifies this`peerGroups, this`cplPeerGroups, this`entries, pgm
      ensures Valid()
      ensures ok <==> p in wlpeers
                      || Admits(old(pgm.Model()), pgm.maxForTable, pgm.maxPerCpl, p, cplFnc(p), addrs)
      ensures ok <==> p in wlpeers
                      || AdmitsByCount(old(entries), pgm.maxForTable, pgm.maxPerCpl, cplFnc(p), addrs)
      ensures ok && p !in wlpeers ==>
                peerGroups == old(peerGroups)[p := TrackedGroups(old(peerGroups), p) + Groups(p, cplFnc(p), addrs)]
      ensures !ok || p in wlpeers ==> unchanged(this) && unchanged(pgm)
    {
      hide Consistent, Diverse, AdmitsByCount;
      AdmitsIff(pgm.Model(), entries, peerGroups, cplFnc, cplPeerGroups, pgm.maxForTable, pgm.maxPerCpl, p, addrs);
      if p in wlpeers {
        return true;
      }
      var groups;
      ok, groups := CheckGroups(p, cplFnc(p), addrs);
      if ok {
        AddGroups(p, groups);
      }
    }

    /** Count down the groups of a tracked peer. */
    method DropCounts(groups: seq<GroupInfo>)
      requires Recounts(pgm.Model(), entries)
      requires multiset(groups) <= multiset(entries)
      modifies this`entries, pgm
      ensures Recounts(pgm.Model(), entries)
      ensures multiset(entries) + multiset(groups) == multiset(old(entries))
    {
      hide Recounts, Dec, Minus;
      for i := 0 to |groups|
        invariant Recounts(pgm.Model(), entries)
        invariant multiset(entries) + multiset(groups[..i]) == multiset(old(entries))
      {
        var g := groups[i];
        PrefixStep(groups, i);
        assert multiset(groups)[g] >= multiset(groups[..i + 1])[g];
        assert g in multiset(entries);
        DecRecounts(pgm.Model(), entries, g);
        MinusMultiset(entries, g);
        pgm.Decrement(g);
        entries := Minus(entries, g);
      }
      assert groups[..|groups|] == groups;
    }

    method Remove(p: Peer)
      requires Valid()
      modifies this`peerGroups, this`cplPeerGroups, this`entries, pgm
      ensures Valid()
      ensures peerGroups == old(peerGroups) - {p}
    {
      hide Consistent, Recounts, Diverse, Unrecord;
      GroupsAreListed(pgm.Model(), entries, peerGroups, cplFnc, cplPeerGroups, p);
      ConsistentRecounts(pgm.Model(), entries, peerGroups, cplFnc, cplPeerGroups);
      DropCounts(TrackedGroups(peerGroups, p));
      DropConsistent(old(pgm.Model()), old(entries), peerGroups, cplFnc, cplPeerGroups, p, pgm.Model(), entries);
      ShrinkDiverse(old(entries), entries, pgm.maxForTable, pgm.maxPerCpl);
      peerGroups := peerGroups - {p};
      cplPeerGroups := Unrecord(cplPeerGroups, cplFnc(p), p);
    }
  }
}
