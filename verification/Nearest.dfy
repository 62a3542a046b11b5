/**
 Nearest-peer queries. The table is read bucket by bucket, starting with the target's own bucket, and
 reading stops as soon as enough peers have been collected; the answer is nevertheless the one that
 sorting the whole table would give.
 */
module Nearest {
  import opened Keyspace
  import opened Sorting
  import opened TableModel
  import opened TableProofs
  import opened TableSteps

  /** The entries of buckets `i`, `i + 1`, ... in order. */
  function From(t: Table, i: nat): seq<PeerInfo>
    requires i <= |t|
    decreases |t| - i
  {
    if i == |t| then [] else t[i].list + From(t, i + 1)
  }

  /** Add buckets `i - 1`, `i - 2`, ... while fewer than `count` entries are collected. */
  function Downwards(t: Table, i: nat, acc: seq<PeerInfo>, count: nat): seq<PeerInfo>
    requires i <= |t|
  {
    if i == 0 || |acc| >= count then acc else Downwards(t, i - 1, acc + t[i - 1].list, count)
  }

  /** Bucket `c`, then if short all buckets to its right, then if still short the ones to its left. */
  function Collected(t: Table, c: nat, count: nat): seq<PeerInfo>
    requires c < |t|
  {
    var own := t[c].list;
    var right := if |own| < count then own + From(t, c + 1) else own;
    Downwards(t, c, right, count)
  }

  function DistanceTo(target: Id, x: PeerInfo): nat
  {
    if |x.dhtId| == |target| then ToNat(Xor(target, x.dhtId)) else 0
  }

  function ByDistance(target: Id): PeerInfo -> int
  {
    x => DistanceTo(target, x)
  }

  function ByRtt(): PeerInfo -> int
  {
    (x: PeerInfo) => x.rtt
  }

  function TargetIndex(cfg: Config, t: Table, target: Id): nat
    requires |t| >= 1 && |target| == |cfg.local|
  {
    IndexFor(CommonPrefixLen(target, cfg.local), |t|)
  }

  // ---------------------------------------------------------------- which buckets are closer

  /** Bucket `i` is read before bucket `j` when the target's own bucket is `c`. */
  predicate ReadBefore(c: nat, i: nat, j: nat)
  {
    (i == c && j != c) || (i != c && j < c && j < i)
  }

  /** A bucket read earlier holds only peers strictly closer to the target. */
  lemma {:induction false} EarlierIsCloser(cfg: Config, t: Table, target: Id, i: nat, a: PeerInfo, j: nat, b: PeerInfo)
    requires cfg.Valid() && Partition(cfg, t) && |target| == |cfg.local|
    requires i < |t| && a in t[i].list && j < |t| && b in t[j].list
    requires ReadBefore(TargetIndex(cfg, t, target), i, j)
    ensures DistanceTo(target, a) < DistanceTo(target, b)
  {
    assert BucketPlaced(cfg, |t|, i, t[i].list) && BucketPlaced(cfg, |t|, j, t[j].list);
    assert Placed(cfg, |t|, i, a) && Placed(cfg, |t|, j, b);
    hide CommonPrefixLen, ToNat, Less;
    CommonPrefixRule(target, a.dhtId, cfg.local);
    CommonPrefixRule(target, b.dhtId, cfg.local);
    LongerPrefixIsCloser(target, a.dhtId, b.dhtId);
    LessIsNumeric(Xor(target, a.dhtId), Xor(target, b.dhtId));
  }

  // ---------------------------------------------------------------- what is collected

  lemma {:induction false} AllFrom(t: Table, i: nat)
    requires i <= |t|
    ensures All(t) == All(t[..i]) + From(t, i)
    decreases |t| - i
  {
    if i == |t| {
      assert t[..i] == t;
    } else {
      AllFrom(t, i + 1);
      assert t[..i + 1][..i] == t[..i];
      assert All(t[..i + 1]) == All(t[..i]) + t[i].list;
    }
  }

  lemma {:induction false} FromMember(t: Table, i: nat, x: PeerInfo)
    requires i <= |t| && x in From(t, i)
    ensures exists j :: i <= j < |t| && x in t[j].list
    decreases |t| - i
  {
    if x !in t[i].list {
      FromMember(t, i + 1, x);
    }
  }

  /** `acc` and `rest` divide the table, and everything in `rest` is farther than all of `acc`. */
  ghost predicate Divides(t: Table, target: Id, acc: seq<PeerInfo>, rest: seq<PeerInfo>)
  {
    && multiset(acc) + multiset(rest) == multiset(All(t))
    && Below(acc, rest, ByDistance(target))
  }

  lemma {:induction false} OwnBucketDivides(cfg: Config, t: Table, target: Id)
    requires cfg.Valid() && Partition(cfg, t) && |target| == |cfg.local|
    ensures var c := TargetIndex(cfg, t, target);
            Divides(t, target, t[c].list, All(t[..c]) + From(t, c + 1))
  {
    var c := TargetIndex(cfg, t, target);
    var rest := All(t[..c]) + From(t, c + 1);
    AllFrom(t, c);
    assert From(t, c) == t[c].list + From(t, c + 1);
    assert multiset(t[c].list) + multiset(rest) == multiset(All(t));
    forall a, b | a in t[c].list && b in rest
      ensures DistanceTo(target, a) < DistanceTo(target, b)
    {
      if b in All(t[..c]) {
        AllMember(t[..c], b);
        var j :| 0 <= j < c && b in t[..c][j].list;
        EarlierIsCloser(cfg, t, target, c, a, j, b);
      } else {
        FromMember(t, c + 1, b);
        var j :| c + 1 <= j < |t| && b in t[j].list;
        EarlierIsCloser(cfg, t, target, c, a, j, b);
      }
    }
  }

  lemma {:induction false} SuffixDivides(cfg: Config, t: Table, target: Id, i: nat, acc: seq<PeerInfo>)
    requires cfg.Valid() && Partition(cfg, t) && |target| == |cfg.local|
    requires i <= TargetIndex(cfg, t, target)
    requires multiset(acc) == multiset(From(t, i))
    ensures Divides(t, target, acc, All(t[..i]))
  {
    var c := TargetIndex(cfg, t, target);
    AllFrom(t, i);
    forall a, b | a in acc && b in All(t[..i])
      ensures DistanceTo(target, a) < DistanceTo(target, b)
    {
      assert a in multiset(From(t, i));
      FromMember(t, i, a);
      var k :| i <= k < |t| && a in t[k].list;
      AllMember(t[..i], b);
      var j :| 0 <= j < i && b in t[..i][j].list;
      EarlierIsCloser(cfg, t, target, k, a, j, b);
    }
  }

  lemma {:induction false} DownwardsDivides(cfg: Config, t: Table, target: Id, i: nat, acc: seq<PeerInfo>, count: nat)
    returns (rest: seq<PeerInfo>)
    requires cfg.Valid() && Partition(cfg, t) && |target| == |cfg.local|
    requires i <= TargetIndex(cfg, t, target)
    requires multiset(acc) == multiset(From(t, i))
    ensures Divides(t, target, Downwards(t, i, acc, count), rest)
    ensures |Downwards(t, i, acc, count)| >= count || rest == []
  {
    if i == 0 || |acc| >= count {
      SuffixDivides(cfg, t, target, i, acc);
      rest := All(t[..i]);
    } else {
      assert From(t, i - 1) == t[i - 1].list + From(t, i);
      rest := DownwardsDivides(cfg, t, target, i - 1, acc + t[i - 1].list, count);
    }
  }

  lemma {:induction false} CollectedDivides(cfg: Config, t: Table, target: Id, count: nat) returns (rest: seq<PeerInfo>)
    requires cfg.Valid() && Partition(cfg, t) && |target| == |cfg.local|
    ensures var got := Collected(t, TargetIndex(cfg, t, target), count);
            && Divides(t, target, got, rest)
            && (|got| >= count || rest == [])
  {
    var c := TargetIndex(cfg, t, target);
    if |t[c].list| >= count {
      OwnBucketDivides(cfg, t, target);
      rest := All(t[..c]) + From(t, c + 1);
    } else {
      assert From(t, c) == t[c].list + From(t, c + 1);
      rest := DownwardsDivides(cfg, t, target, c, From(t, c), count);
    }
  }

  // ---------------------------------------------------------------- the answer

  lemma {:induction false} DistanceInjective(cfg: Config, t: Table, target: Id, s: seq<PeerInfo>)
    requires cfg.Valid() && Partition(cfg, t) && |target| == |cfg.local|
    requires forall x :: x in s ==> x in All(t)
    ensures InjectiveOn(s, ByDistance(target))
  {
    forall a, b | a in s && b in s && DistanceTo(target, a) == DistanceTo(target, b)
      ensures a == b
    {
      WhereIs(cfg, t, a);
      WhereIs(cfg, t, b);
      var i := IndexFor(cfg.Cpl(a.id), |t|);
      assert BucketPlaced(cfg, |t|, i, t[i].list) && Placed(cfg, |t|, i, a);
      var j := IndexFor(cfg.Cpl(b.id), |t|);
      assert BucketPlaced(cfg, |t|, j, t[j].list) && Placed(cfg, |t|, j, b);
      XorMetric(target, a.dhtId, b.dhtId);
      assert a.id == b.id;
    }
  }

  /** The first `count` of the sorted collection are the first `count` of the sorted table. */
  lemma {:induction false} NearestIsGlobal(cfg: Config, t: Table, target: Id, count: nat, r: seq<PeerInfo>, s: seq<PeerInfo>)
    requires cfg.Valid() && Partition(cfg, t) && |target| == |cfg.local|
    requires IsSortOf(r, Collected(t, TargetIndex(cfg, t, target), count), ByDistance(target))
    requires IsSortOf(s, All(t), ByDistance(target))
    ensures r[..Min(count, |r|)] == s[..Min(count, |s|)]
  {
    var got := Collected(t, TargetIndex(cfg, t, target), count);
    var rest := CollectedDivides(cfg, t, target, count);
    SameElements(r, got);
    SameElements(s, All(t));
    DistanceInjective(cfg, t, target, s);
    hide Collected, All, InjectiveOn, SortedBy, Partition;
    SmallestFirst(r, rest, s, ByDistance(target));
    if |got| < count {
      assert multiset(r) == multiset(s);
      SameElements(r, s);
    }
    assert s[..|r|][..Min(count, |r|)] == s[..Min(count, |r|)];
  }

  /** A peer is in the table exactly if it comes first when sorting the table by distance to itself. */
  lemma {:induction false} FindIff(cfg: Config, t: Table, id: Peer, s: seq<PeerInfo>)
    requires cfg.Valid() && Partition(cfg, t)
    requires IsSortOf(s, All(t), ByDistance(cfg.hash(id)))
    ensures s != [] && s[0].id == id <==> InTable(t, id)
  {
    hide All;
    var target := cfg.hash(id);
    SameElements(s, All(t));
    InTableMember(t, id);
    if InTable(t, id) {
      var x :| x in All(t) && x.id == id;
      OwnDistance(cfg, t, id, x);
      DistanceInjective(cfg, t, target, s);
      LeastIsFirst(x, s, ByDistance(target));
    } else if s != [] {
      assert s[0] in s;
    }
  }

  lemma {:induction false} DividesMembers(t: Table, target: Id, got: seq<PeerInfo>, rest: seq<PeerInfo>)
    requires Divides(t, target, got, rest)
    ensures forall x :: x in All(t) <==> x in got || x in rest
    ensures Below(got, rest, ByDistance(target))
  {
    forall x
      ensures x in All(t) <==> x in got || x in rest
    {
      assert x in All(t) <==> x in multiset(All(t));
    }
  }

  lemma {:induction false} OwnDistance(cfg: Config, t: Table, id: Peer, x: PeerInfo)
    requires cfg.Valid() && Partition(cfg, t) && x in All(t) && x.id == id
    ensures DistanceTo(cfg.hash(id), x) == 0
  {
    WhereIs(cfg, t, x);
    var i := IndexFor(cfg.Cpl(x.id), |t|);
    assert BucketPlaced(cfg, |t|, i, t[i].list) && Placed(cfg, |t|, i, x);
    XorMetric(cfg.hash(id), x.dhtId, x.dhtId);
  }

  lemma {:induction false} BelowIsPositive(target: Id, r: seq<PeerInfo>, rest: seq<PeerInfo>, x: PeerInfo)
    requires Below(r, rest, ByDistance(target)) && r != [] && x in rest
    ensures DistanceTo(target, x) > 0
  {
    assert r[0] in r;
    assert ByDistance(target)(r[0]) < ByDistance(target)(x);
  }

  // ---------------------------------------------------------------- the KadRTT answer

  /** Closer than twice the minimum distance and no slower than the nearest peer. */
  predicate Preferred(target: Id, first: PeerInfo, x: PeerInfo)
  {
    DistanceTo(target, x) < 2 * DistanceTo(target, first) && x.rtt <= first.rtt
  }

  /** The entries that are preferred (or not), in order. */
  function Sift(q: seq<PeerInfo>, target: Id, first: PeerInfo, preferred: bool): seq<PeerInfo>
  {
    if q == [] then []
    else if Preferred(target, first, q[|q| - 1]) == preferred
    then Sift(q[..|q| - 1], target, first, preferred) + [q[|q| - 1]]
    else Sift(q[..|q| - 1], target, first, preferred)
  }

  lemma {:induction false} SiftMembers(q: seq<PeerInfo>, target: Id, first: PeerInfo, preferred: bool, x: PeerInfo)
    ensures x in Sift(q, target, first, preferred) <==> x in q && Preferred(target, first, x) == preferred
  {
    if q != [] {
      SiftMembers(q[..|q| - 1], target, first, preferred, x);
      assert q == q[..|q| - 1] + [q[|q| - 1]];
    }
  }

  lemma {:induction false} SiftMultiset(q: seq<PeerInfo>, target: Id, first: PeerInfo)
    ensures multiset(Sift(q, target, first, true) + Sift(q, target, first, false)) == multiset(q)
  {
    if q != [] {
      SiftMultiset(q[..|q| - 1], target, first);
      assert q == q[..|q| - 1] + [q[|q| - 1]];
    }
  }

  lemma {:induction false} SiftSorted(q: seq<PeerInfo>, target: Id, first: PeerInfo, preferred: bool)
    requires SortedBy(q, ByRtt())
    ensures SortedBy(Sift(q, target, first, preferred), ByRtt())
  {
    if q != [] {
      var init, last := q[..|q| - 1], q[|q| - 1];
      SiftSorted(init, target, first, preferred);
      var s := Sift(init, target, first, preferred);
      forall i | 0 <= i < |s|
        ensures s[i].rtt <= last.rtt
      {
        SiftMembers(init, target, first, preferred, s[i]);
        var j :| 0 <= j < |init| && init[j] == s[i];
        assert ByRtt()(q[j]) <= ByRtt()(q[|q| - 1]);
      }
    }
  }

  /** `first` is nearest to the target among `got`. */
  ghost predicate IsNearest(target: Id, got: seq<PeerInfo>, first: PeerInfo)
  {
    first in got && forall x :: x in got ==> DistanceTo(target, first) <= DistanceTo(target, x)
  }

  /** A block of preferred peers followed by the others, each block in order of round-trip time, together
      the peers collected for a count of the bucket's beta. */
  ghost predicate KadRttAnswer(cfg: Config, t: Table, target: Id, ok: seq<PeerInfo>, ng: seq<PeerInfo>)
    requires |t| >= 1 && |target| == |cfg.local|
  {
    var c := TargetIndex(cfg, t, target);
    t[c].beta >= 0 &&
    var got := Collected(t, c, t[c].beta);
    && multiset(ok + ng) == multiset(got)
    && SortedBy(ok, ByRtt()) && SortedBy(ng, ByRtt())
    && (forall first :: IsNearest(target, got, first) ==>
                          && (forall x :: x in ok ==> Preferred(target, first, x))
                          && (forall x :: x in ng ==> !Preferred(target, first, x)))
  }

  /** The KadRTT answer leaves out no peer the distance-only answer for beta peers would give. */
  lemma {:induction false} KadRttCoversNearest(cfg: Config, t: Table, target: Id, ok: seq<PeerInfo>, ng: seq<PeerInfo>, s: seq<PeerInfo>)
    requires cfg.Valid() && Partition(cfg, t) && |target| == |cfg.local|
    requires KadRttAnswer(cfg, t, target, ok, ng)
    requires IsSortOf(s, All(t), ByDistance(target))
    ensures var beta := t[TargetIndex(cfg, t, target)].beta;
            forall i :: 0 <= i < |s| && i < beta ==> s[i] in ok + ng
  {
    var c := TargetIndex(cfg, t, target);
    var got := Collected(t, c, t[c].beta);
    var rest := CollectedDivides(cfg, t, target, t[c].beta);
    SameElements(ok + ng, got);
    SameElements(s, All(t));
    DividesMembers(t, target, got, rest);
    assert multiset(s) == multiset(got) + multiset(rest);
    hide Collected, All, KadRttAnswer, Divides;
    forall i | 0 <= i < |s| && i < t[c].beta
      ensures s[i] in got
    {
      if rest == [] {
        assert s[i] in s;
      } else {
        DistanceInjective(cfg, t, target, s);
        AmongFirst(got, rest, s, ByDistance(target), i);
      }
    }
  }

  // ---------------------------------------------------------------- which buckets are read

  lemma {:induction false} FromSuffix(t: Table, i: nat, j: nat)
    requires i + j <= |t|
    ensures From(t[i..], j) == From(t, i + j)
    decreases |t| - j
  {
    if i + j < |t| {
      FromSuffix(t, i, j + 1);
      assert t[i..][j] == t[i + j];
    }
  }

  /** The buckets from `i` on, put together. */
  lemma {:induction false} FromIsAll(t: Table, i: nat)
    requires i <= |t|
    ensures From(t, i) == All(t[i..])
  {
    hide From;
    FromSuffix(t, i, 0);
    AllFrom(t[i..], 0);
    assert t[i..][..0] == [] && All([]) == [];
  }

  /** `h` is the lowest bucket read: the ones above it did not hold enough, it and those above do, unless it is the
      lowest of all. */
  ghost predicate LowestRead(t: Table, c: nat, count: nat, h: nat)
  {
    && h <= c < |t|
    && (h < c ==> |All(t[h + 1..])| < count)
    && (h > 0 ==> |All(t[h..])| >= count)
  }

  lemma {:induction false} DownwardsReads(t: Table, c: nat, i: nat, acc: seq<PeerInfo>, count: nat) returns (h: nat)
    requires i <= c < |t| && multiset(acc) == multiset(From(t, i)) && (i < c ==> |From(t, i + 1)| < count)
    ensures h <= i && multiset(Downwards(t, i, acc, count)) == multiset(From(t, h))
    ensures (h < c ==> |From(t, h + 1)| < count) && (h > 0 ==> |From(t, h)| >= count)
    decreases i
  {
    assert |acc| == |multiset(acc)| == |multiset(From(t, i))| == |From(t, i)|;
    if i == 0 || |acc| >= count {
      h := i;
    } else {
      assert From(t, i - 1) == t[i - 1].list + From(t, i);
      h := DownwardsReads(t, c, i - 1, acc + t[i - 1].list, count);
    }
  }

  /** What is collected: the target's bucket alone if it holds enough, else exactly the buckets from the lowest read on. */
  ghost predicate ReadExactly(t: Table, c: nat, count: nat, got: multiset<PeerInfo>)
    requires c < |t|
  {
    if |t[c].list| >= count then got == multiset(t[c].list)
    else exists h: nat :: LowestRead(t, c, count, h) && got == multiset(All(t[h..]))
  }

  lemma {:induction false} ShortReads(t: Table, c: nat, count: nat) returns (h: nat)
    requires c < |t| && |t[c].list| < count
    ensures h <= c && multiset(Collected(t, c, count)) == multiset(From(t, h))
    ensures (h < c ==> |From(t, h + 1)| < count) && (h > 0 ==> |From(t, h)| >= count)
  {
    hide Downwards;
    assert From(t, c) == t[c].list + From(t, c + 1);
    h := DownwardsReads(t, c, c, From(t, c), count);
  }

  lemma {:induction false} CollectedExactly(t: Table, c: nat, count: nat)
    requires c < |t|
    ensures ReadExactly(t, c, count, multiset(Collected(t, c, count)))
  {
    if |t[c].list| < count {
      hide From, All, Collected;
      var h := ShortReads(t, c, count);
      FromIsAll(t, h);
      FromIsAll(t, h + 1);
      assert LowestRead(t, c, count, h);
    }
  }

  /** A KadRTT answer is the target's bucket alone if that holds at least beta peers, and otherwise all buckets above a
      lowest one read, which is the highest that makes up beta peers with those above it. */
  lemma {:induction false} KadRttReadsExactly(cfg: Config, t: Table, target: Id, ok: seq<PeerInfo>, ng: seq<PeerInfo>)
    requires |t| >= 1 && |target| == |cfg.local| && KadRttAnswer(cfg, t, target, ok, ng)
    ensures var c := IndexFor(CommonPrefixLen(target, cfg.local), |t|); ReadExactly(t, c, t[c].beta, multiset(ok + ng))
  {
    hide Collected, CommonPrefixLen;
    var c := TargetIndex(cfg, t, target);
    CollectedExactly(t, c, t[c].beta);
  }

  /** An entry of bucket `j` is read. */
  ghost predicate IsRead(t: Table, c: nat, count: nat, j: nat)
    requires c < |t| && j < |t|
  {
    j == c || (|t[c].list| < count && (j > c || |All(t[j + 1..])| < count))
  }

  lemma {:induction false} AllShrinks(t: Table, i: nat, j: nat)
    requires i <= j <= |t|
    ensures |All(t[j..])| <= |All(t[i..])|
    decreases j - i
  {
    if i < j {
      AllShrinks(t, i + 1, j);
      FromIsAll(t, i);
      FromIsAll(t, i + 1);
      assert From(t, i) == t[i].list + From(t, i + 1);
    }
  }

  lemma {:induction false} InSuffix(t: Table, h: nat, x: PeerInfo)
    requires h <= |t|
    ensures x in All(t[h..]) <==> exists j :: h <= j < |t| && x in t[j].list
  {
    hide All;
    AllMember(t[h..], x);
    if x in All(t[h..]) {
      var i :| 0 <= i < |t[h..]| && x in t[h..][i].list;
      assert t[h..][i] == t[h + i];
    }
    if j :| h <= j < |t| && x in t[j].list {
      assert t[h..][j - h] == t[j];
    }
  }

  /** The same for one entry: a peer of bucket `j` is in the answer exactly if bucket `j` is read. */
  lemma {:induction false} ReadIff(cfg: Config, t: Table, c: nat, count: nat, got: multiset<PeerInfo>, j: nat, x: PeerInfo)
    requires cfg.Valid() && Partition(cfg, t) && c < |t| && ReadExactly(t, c, count, got) && j < |t| && x in t[j].list
    ensures x in got <==> IsRead(t, c, count, j)
  {
    hide All, Partition;
    if |t[c].list| >= count {
      if x in t[c].list {
        SameBucket(cfg, t, c, j, x);
      }
    } else {
      var h: nat :| LowestRead(t, c, count, h) && got == multiset(All(t[h..]));
      InSuffix(t, h, x);
      if j >= h {
        if j < c {
          AllShrinks(t, h + 1, j + 1);
        }
      } else {
        if i :| h <= i < |t| && x in t[i].list {
          SameBucket(cfg, t, i, j, x);
        }
        AllShrinks(t, j + 1, h);
      }
    }
  }

  lemma {:induction false} SameBucket(cfg: Config, t: Table, i: nat, j: nat, x: PeerInfo)
    requires cfg.Valid() && Partition(cfg, t) && i < |t| && j < |t| && x in t[i].list && x in t[j].list
    ensures i == j
  {
    assert BucketPlaced(cfg, |t|, i, t[i].list) && BucketPlaced(cfg, |t|, j, t[j].list);
    assert Placed(cfg, |t|, i, x) && Placed(cfg, |t|, j, x);
  }

  lemma {:induction false} NobodyPreferred(target: Id, first: PeerInfo, x: PeerInfo)
    requires DistanceTo(target, first) == 0
    ensures !Preferred(target, first, x)
  {
  }

  // ---------------------------------------------------------------- looking a peer up under KadRTT

  /** The peers collected when `id` is looked up under KadRTT. */
  function Pool(cfg: Config, t: Table, id: Peer): seq<PeerInfo>
    requires |t| >= 1 && |cfg.hash(id)| == |cfg.local|
  {
    var c := TargetIndex(cfg, t, cfg.hash(id));
    if t[c].beta >= 0 then Collected(t, c, t[c].beta) else []
  }

  lemma {:induction false} PoolInTable(cfg: Config, t: Table, id: Peer)
    requires Inv(cfg, t)
    ensures t[TargetIndex(cfg, t, cfg.hash(id))].beta >= 1
    ensures forall y :: y in Pool(cfg, t, id) ==> y in All(t)
  {
    var c := TargetIndex(cfg, t, cfg.hash(id));
    assert BucketOk(cfg, |t|, t[c]);
    var rest := CollectedDivides(cfg, t, cfg.hash(id), t[c].beta);
    DividesMembers(t, cfg.hash(id), Pool(cfg, t, id), rest);
  }

  /** A peer of the table is collected when it is looked up, and is then nearest. */
  lemma {:induction false} PoolEntry(cfg: Config, t: Table, id: Peer) returns (x: PeerInfo)
    requires Inv(cfg, t) && InTable(t, id)
    ensures x.id == id && x in All(t) && IsNearest(cfg.hash(id), Pool(cfg, t, id), x)
    ensures DistanceTo(cfg.hash(id), x) == 0
  {
    PoolInTable(cfg, t, id);
    var target := cfg.hash(id);
    var c := TargetIndex(cfg, t, target);
    var got := Pool(cfg, t, id);
    var rest := CollectedDivides(cfg, t, target, t[c].beta);
    DividesMembers(t, target, got, rest);
    InTableMember(t, id);
    x :| x in All(t) && x.id == id;
    OwnDistance(cfg, t, id, x);
    hide Collected, All, Divides, InTable, Pool;
    if x in rest {
      BelowIsPositive(target, got, rest, x);
    }
  }

  /** When the peer looked up is in the table nobody is preferred: the answers are exactly the orders of the
      collected peers by round-trip time. */
  lemma {:induction false} AnswerIsRttOrder(cfg: Config, t: Table, id: Peer, ok: seq<PeerInfo>, ng: seq<PeerInfo>)
    requires Inv(cfg, t) && InTable(t, id)
    ensures KadRttAnswer(cfg, t, cfg.hash(id), ok, ng) <==> ok == [] && IsSortOf(ng, Pool(cfg, t, id), ByRtt())
  {
    PoolInTable(cfg, t, id);
    var x := PoolEntry(cfg, t, id);
    hide Collected, All, InTable, Partition, ShapeOk, Preferred;
    var target, got := cfg.hash(id), Pool(cfg, t, id);
    forall first, y | IsNearest(target, got, first)
      ensures !Preferred(target, first, y)
    {
      NobodyPreferred(target, first, y);
    }
    if KadRttAnswer(cfg, t, target, ok, ng) {
      if ok != [] {
        HasMember(ok);
      }
      assert ok + ng == ng;
    } else {
      assert [] + ng == ng;
    }
  }

  /** An entry for the peer is faster than every other one, or as fast as any. */
  ghost predicate StrictlyFastest(got: seq<PeerInfo>, id: Peer)
  {
    exists x :: x in got && x.id == id && forall y :: y in got && y != x ==> x.rtt < y.rtt
  }

  ghost predicate AmongFastest(got: seq<PeerInfo>, id: Peer)
  {
    exists x :: x in got && x.id == id && forall y :: y in got ==> x.rtt <= y.rtt
  }

  ghost predicate Finds(id: Peer, r: seq<PeerInfo>)
  {
    r != [] && r[0].id == id
  }

  lemma {:induction false} FindsIsHeads(cfg: Config, t: Table, id: Peer, x: PeerInfo, r: seq<PeerInfo>)
    requires cfg.Valid() && Partition(cfg, t) && x in All(t) && x.id == id
    requires IsSortOf(r, Pool(cfg, t, id), ByRtt()) && forall y :: y in Pool(cfg, t, id) ==> y in All(t)
    ensures Finds(id, r) <==> Heads(x, r)
  {
    hide All, Pool;
    if Finds(id, r) {
      SameElements(r, Pool(cfg, t, id));
      assert r[0] in r;
      SameIdSameEntry(cfg, t, r[0], x);
    }
  }

  lemma {:induction false} FastestIs(cfg: Config, t: Table, id: Peer, x: PeerInfo)
    requires cfg.Valid() && Partition(cfg, t) && x in All(t) && x.id == id && x in Pool(cfg, t, id)
    requires forall y :: y in Pool(cfg, t, id) ==> y in All(t)
    ensures StrictlyFastest(Pool(cfg, t, id), id) <==> forall y :: y in Pool(cfg, t, id) && y != x ==> ByRtt()(x) < ByRtt()(y)
    ensures AmongFastest(Pool(cfg, t, id), id) <==> forall y :: y in Pool(cfg, t, id) ==> ByRtt()(x) <= ByRtt()(y)
  {
    hide All, Pool;
    forall y | y in Pool(cfg, t, id) && y.id == id
      ensures y == x
    {
      SameIdSameEntry(cfg, t, y, x);
    }
  }

  /** A peer of the table is found whatever the order of equals exactly if it is the fastest collected peer, and is
      found for some order exactly if none is faster. */
  lemma {:induction false} FindPresent(cfg: Config, t: Table, id: Peer)
    requires Inv(cfg, t) && InTable(t, id)
    ensures (forall ok, ng :: KadRttAnswer(cfg, t, cfg.hash(id), ok, ng) ==> Finds(id, ok + ng))
       <==> StrictlyFastest(Pool(cfg, t, id), id)
    ensures (exists ok, ng :: KadRttAnswer(cfg, t, cfg.hash(id), ok, ng) && Finds(id, ok + ng))
       <==> AmongFastest(Pool(cfg, t, id), id)
  {
    hide All, Pool, InTable, KadRttAnswer, StrictlyFastest, AmongFastest, Inv, Finds, Heads, IsSortOf, IsNearest;
    PoolInTable(cfg, t, id);
    var x := PoolEntry(cfg, t, id);
    EntryInPool(cfg, t, id, x);
    var got := Pool(cfg, t, id);
    AlwaysFirst(x, got, ByRtt());
    SometimesFirst(x, got, ByRtt());
    AnswersMatch(cfg, t, id, x);
    AnswersAreSorts(cfg, t, id, x, got);
  }

  lemma {:induction false} EntryInPool(cfg: Config, t: Table, id: Peer, x: PeerInfo)
    requires Inv(cfg, t) && x in All(t) && x.id == id && IsNearest(cfg.hash(id), Pool(cfg, t, id), x)
    ensures |t| >= 1 && |cfg.hash(id)| == |cfg.local| && x in Pool(cfg, t, id)
    ensures StrictlyFastest(Pool(cfg, t, id), id) <==> forall y :: y in Pool(cfg, t, id) && y != x ==> ByRtt()(x) < ByRtt()(y)
    ensures AmongFastest(Pool(cfg, t, id), id) <==> forall y :: y in Pool(cfg, t, id) ==> ByRtt()(x) <= ByRtt()(y)
  {
    PoolInTable(cfg, t, id);
    hide All, Pool, StrictlyFastest, AmongFastest, ShapeOk;
    FastestIs(cfg, t, id, x);
  }

  lemma {:induction false} AnswersMatch(cfg: Config, t: Table, id: Peer, x: PeerInfo)
    requires Inv(cfg, t) && InTable(t, id) && x in All(t) && x.id == id
    ensures forall ok: seq<PeerInfo>, ng: seq<PeerInfo> ::
              KadRttAnswer(cfg, t, cfg.hash(id), ok, ng) <==> ok == [] && IsSortOf(ng, Pool(cfg, t, id), ByRtt())
    ensures forall ng: seq<PeerInfo> :: IsSortOf(ng, Pool(cfg, t, id), ByRtt()) ==> (Finds(id, [] + ng) <==> Heads(x, ng))
  {
    PoolInTable(cfg, t, id);
    hide All, Pool, InTable, KadRttAnswer, ShapeOk, BucketPlaced, Finds, Heads, IsSortOf;
    forall ok: seq<PeerInfo>, ng: seq<PeerInfo>
      ensures KadRttAnswer(cfg, t, cfg.hash(id), ok, ng) <==> ok == [] && IsSortOf(ng, Pool(cfg, t, id), ByRtt())
    {
      AnswerIsRttOrder(cfg, t, id, ok, ng);
    }
    forall ng: seq<PeerInfo> | IsSortOf(ng, Pool(cfg, t, id), ByRtt())
      ensures Finds(id, [] + ng) <==> Heads(x, ng)
    {
      FindsIsHeads(cfg, t, id, x, ng);
      assert [] + ng == ng;
    }
  }

  lemma {:induction false} AnswersAreSorts(cfg: Config, t: Table, id: Peer, x: PeerInfo, got: seq<PeerInfo>)
    requires |t| >= 1 && |cfg.hash(id)| == |cfg.local|
    requires forall ok: seq<PeerInfo>, ng: seq<PeerInfo> ::
               KadRttAnswer(cfg, t, cfg.hash(id), ok, ng) <==> ok == [] && IsSortOf(ng, got, ByRtt())
    requires forall ng: seq<PeerInfo> :: IsSortOf(ng, got, ByRtt()) ==> (Finds(id, [] + ng) <==> Heads(x, ng))
    ensures (forall ok, ng :: KadRttAnswer(cfg, t, cfg.hash(id), ok, ng) ==> Finds(id, ok + ng))
       <==> (forall r :: IsSortOf(r, got, ByRtt()) ==> Heads(x, r))
    ensures (exists ok, ng :: KadRttAnswer(cfg, t, cfg.hash(id), ok, ng) && Finds(id, ok + ng))
       <==> (exists r :: IsSortOf(r, got, ByRtt()) && Heads(x, r))
  {
    hide KadRttAnswer, Finds, Heads, IsSortOf;
    if forall ok, ng :: KadRttAnswer(cfg, t, cfg.hash(id), ok, ng) ==> Finds(id, ok + ng) {
      forall r | IsSortOf(r, got, ByRtt())
        ensures Heads(x, r)
      {
        assert KadRttAnswer(cfg, t, cfg.hash(id), [], r);
      }
    }
    if r :| IsSortOf(r, got, ByRtt()) && Heads(x, r) {
      assert KadRttAnswer(cfg, t, cfg.hash(id), [], r) && Finds(id, [] + r);
    }
  }

  lemma {:induction false} SameIdSameEntry(cfg: Config, t: Table, a: PeerInfo, b: PeerInfo)
    requires cfg.Valid() && Partition(cfg, t) && a in All(t) && b in All(t) && a.id == b.id
    ensures a == b
  {
    WhereIs(cfg, t, a);
    WhereIs(cfg, t, b);
  }
}
