/**
 The per-group counters behind the routing table's diversity filter: how many group entries of
 tracked peers carry a group key, over the whole table and within each common prefix length.
 */
module GroupCounters {
  import opened Keyspace

  type GroupKey = string

  /** One of the address groups of one peer. */
  datatype GroupInfo = GroupInfo(id: Peer, cpl: nat, key: GroupKey)

  datatype Counters = Counters(table: map<GroupKey, int>, byCpl: map<nat, map<GroupKey, int>>)

  function Get(m: map<GroupKey, int>, k: GroupKey): int
  {
    if k in m then m[k] else 0
  }

  function GetCpl(c: Counters, cpl: nat, k: GroupKey): int
  {
    if cpl in c.byCpl then Get(c.byCpl[cpl], k) else 0
  }

  /** `Increment` creates the inner map when it is missing. */
  function Inc(c: Counters, g: GroupInfo): Counters
  {
    var inner := if g.cpl in c.byCpl then c.byCpl[g.cpl] else map[];
    Counters(c.table[g.key := Get(c.table, g.key) + 1],
             c.byCpl[g.cpl := inner[g.key := Get(inner, g.key) + 1]])
  }

  function Lower(m: map<GroupKey, int>, k: GroupKey): map<GroupKey, int>
  {
    if Get(m, k) - 1 == 0 then m - {k} else m[k := Get(m, k) - 1]
  }

  /** `Decrement` writes into the inner map, which must exist, and drops what becomes empty. */
  function Dec(c: Counters, g: GroupInfo): Counters
    requires g.cpl in c.byCpl
  {
    var inner := Lower(c.byCpl[g.cpl], g.key);
    Counters(Lower(c.table, g.key),
             if |inner| == 0 then c.byCpl - {g.cpl} else c.byCpl[g.cpl := inner])
  }

  // ---------------------------------------------------------------- the recount

  function CountKey(s: seq<GroupInfo>, k: GroupKey): nat
  {
    if s == [] then 0 else (if s[0].key == k then 1 else 0) + CountKey(s[1..], k)
  }

  function CountCpl(s: seq<GroupInfo>, cpl: nat, k: GroupKey): nat
  {
    if s == [] then 0 else (if s[0].key == k && s[0].cpl == cpl then 1 else 0) + CountCpl(s[1..], cpl, k)
  }

  /** The counters are the recount of the entries, and hold no zero and no empty inner map. */
  ghost predicate Recounts(c: Counters, s: seq<GroupInfo>)
  {
    && (forall k :: Get(c.table, k) == CountKey(s, k))
    && (forall cpl, k :: GetCpl(c, cpl, k) == CountCpl(s, cpl, k))
    && (forall k :: k in c.table ==> c.table[k] > 0)
    && (forall cpl :: cpl in c.byCpl ==> c.byCpl[cpl] != map[] && NoZero(c.byCpl[cpl]))
  }

  ghost predicate NoZero(m: map<GroupKey, int>)
  {
    forall k :: k in m ==> m[k] > 0
  }

  /** The sequence with one occurrence of `g` removed. */
  function Minus(s: seq<GroupInfo>, g: GroupInfo): seq<GroupInfo>
  {
    if s == [] then [] else if s[0] == g then s[1..] else [s[0]] + Minus(s[1..], g)
  }

  lemma {:induction false} CountKeyCons(g: GroupInfo, s: seq<GroupInfo>, k: GroupKey)
    ensures CountKey([g] + s, k) == (if g.key == k then 1 else 0) + CountKey(s, k)
  {
    assert ([g] + s)[1..] == s;
  }

  lemma {:induction false} CountCplCons(g: GroupInfo, s: seq<GroupInfo>, cpl: nat, k: GroupKey)
    ensures CountCpl([g] + s, cpl, k) == (if g.key == k && g.cpl == cpl then 1 else 0) + CountCpl(s, cpl, k)
  {
    assert ([g] + s)[1..] == s;
  }

  lemma {:induction false} MinusCounts(s: seq<GroupInfo>, g: GroupInfo, cpl: nat, k: GroupKey)
    requires g in s
    ensures CountKey(s, k) == CountKey(Minus(s, g), k) + (if g.key == k then 1 else 0)
    ensures CountCpl(s, cpl, k) == CountCpl(Minus(s, g), cpl, k) + (if g.key == k && g.cpl == cpl then 1 else 0)
  {
    if s[0] != g {
      MinusCounts(s[1..], g, cpl, k);
      CountKeyCons(s[0], Minus(s[1..], g), k);
      CountCplCons(s[0], Minus(s[1..], g), cpl, k);
    }
  }

  lemma {:induction false} MinusMultiset(s: seq<GroupInfo>, g: GroupInfo)
    requires g in s
    ensures multiset(s) == multiset(Minus(s, g)) + multiset{g}
  {
    assert s == [s[0]] + s[1..];
    if s[0] != g {
      MinusMultiset(s[1..], g);
    }
  }

  lemma {:induction false} IncRecounts(c: Counters, s: seq<GroupInfo>, g: GroupInfo)
    requires Recounts(c, s)
    ensures Recounts(Inc(c, g), [g] + s)
  {
    var d := Inc(c, g);
    forall k
      ensures Get(d.table, k) == CountKey([g] + s, k)
    {
      CountKeyCons(g, s, k);
    }
    forall cpl, k
      ensures GetCpl(d, cpl, k) == CountCpl([g] + s, cpl, k)
    {
      CountCplCons(g, s, cpl, k);
      assert GetCpl(c, cpl, k) == CountCpl(s, cpl, k);
    }
    assert GetCpl(c, g.cpl, g.key) >= 0 && Get(c.table, g.key) >= 0;
    assert g.key in d.byCpl[g.cpl];
  }

  lemma {:induction false} CountPositive(s: seq<GroupInfo>, g: GroupInfo)
    requires g in s
    ensures CountKey(s, g.key) > 0 && CountCpl(s, g.cpl, g.key) > 0
  {
    if s[0] != g {
      CountPositive(s[1..], g);
    }
  }

  /** Removing a counted entry finds the inner map it writes to. */
  lemma {:induction false} DecDefined(c: Counters, s: seq<GroupInfo>, g: GroupInfo)
    requires Recounts(c, s) && g in s
    ensures g.cpl in c.byCpl && g.key in c.byCpl[g.cpl] && g.key in c.table
  {
    CountPositive(s, g);
    assert GetCpl(c, g.cpl, g.key) == CountCpl(s, g.cpl, g.key);
    assert Get(c.table, g.key) == CountKey(s, g.key);
  }

  lemma {:induction false} LowerFacts(m: map<GroupKey, int>, k: GroupKey)
    requires NoZero(m) && k in m
    ensures NoZero(Lower(m, k))
    ensures forall j :: Get(Lower(m, k), j) == Get(m, j) - (if j == k then 1 else 0)
  {
  }

  lemma {:induction false} EmptyInner(m: map<GroupKey, int>)
    requires |m| == 0
    ensures forall k :: Get(m, k) == 0
  {
    assert m.Keys == {};
  }

  lemma {:induction false} DecRecounts(c: Counters, s: seq<GroupInfo>, g: GroupInfo)
    requires Recounts(c, s) && g in s
    ensures g.cpl in c.byCpl && Recounts(Dec(c, g), Minus(s, g))
  {
    DecDefined(c, s, g);
    var d := Dec(c, g);
    var inner := Lower(c.byCpl[g.cpl], g.key);
    LowerFacts(c.table, g.key);
    LowerFacts(c.byCpl[g.cpl], g.key);
    hide Lower, CountKey, CountCpl, Minus;
    forall k
      ensures Get(d.table, k) == CountKey(Minus(s, g), k)
    {
      MinusCounts(s, g, 0, k);
    }
    forall cpl, k
      ensures GetCpl(d, cpl, k) == CountCpl(Minus(s, g), cpl, k)
    {
      MinusCounts(s, g, cpl, k);
      assert GetCpl(c, cpl, k) == CountCpl(s, cpl, k);
      if cpl == g.cpl && |inner| == 0 {
        EmptyInner(inner);
      }
    }
  }

  // ---------------------------------------------------------------- distinct peers

  /** The peers with an entry for the key, over the whole table or within one common prefix length. */
  function Sharers(s: seq<GroupInfo>, k: GroupKey): (r: set<Peer>)
    ensures |r| <= CountKey(s, k)
    ensures forall p :: p in r <==> exists g :: g in s && g.id == p && g.key == k
  {
    if s == [] then {}
    else if s[0].key == k then Sharers(s[1..], k) + {s[0].id}
    else Sharers(s[1..], k)
  }

  function CplSharers(s: seq<GroupInfo>, cpl: nat, k: GroupKey): (r: set<Peer>)
    ensures |r| <= CountCpl(s, cpl, k)
    ensures forall p :: p in r <==> exists g :: g in s && g.id == p && g.key == k && g.cpl == cpl
  {
    if s == [] then {}
    else if s[0].key == k && s[0].cpl == cpl then CplSharers(s[1..], cpl, k) + {s[0].id}
    else CplSharers(s[1..], cpl, k)
  }
}
