/**
 The coordinator's code over the peer set: processing an update, the termination tests, picking the peers
 to query next, and assembling the result. Each method computes what the lookup's state machine says.
 */
module Queries {
  import opened Wrappers
  import opened Keyspace
  import opened Sorting
  import opened QueryPeersets
  import opened Lookup
  import opened LookupProofs

  // ---------------------------------------------------------------- sorting peers by distance bytes

  function XorTo(target: Id, hash: Peer -> Id, p: Peer): Id
    requires |hash(p)| == |target|
  {
    Xor(target, hash(p))
  }

  function NumberTo(target: Id, hash: Peer -> Id): Peer -> int
  {
    p => if |hash(p)| == |target| then ToNat(Xor(target, hash(p))) else 0
  }

  /** `SortClosestPeers`: a permutation in which no later peer has a smaller distance string. */
  method SortClosestPeers(peers: seq<Peer>, target: Id, hash: Peer -> Id) returns (r: seq<Peer>)
    requires forall p :: |hash(p)| == |target|
    ensures multiset(r) == multiset(peers)
    ensures forall i, j :: 0 <= i < j < |r| ==> !Less(XorTo(target, hash, r[j]), XorTo(target, hash, r[i]))
    ensures SortedBy(r, NumberTo(target, hash))
  {
    r := SortByKey(peers, NumberTo(target, hash));
    forall i, j | 0 <= i < j < |r|
      ensures !Less(XorTo(target, hash, r[j]), XorTo(target, hash, r[i]))
    {
      assert NumberTo(target, hash)(r[i]) <= NumberTo(target, hash)(r[j]);
      LessIsNumeric(XorTo(target, hash, r[j]), XorTo(target, hash, r[i]));
    }
  }

  // ---------------------------------------------------------------- small steps

  lemma {:induction false} HeardStep(m: States, self: Peer, heard: seq<Peer>, i: nat)
    requires i < |heard|
    ensures var m1 := AddHeard(m, self, heard[..i]);
            AddHeard(m, self, heard[..i + 1])
            == if heard[i] == self || heard[i] in m1 then m1 else m1[heard[i] := Heard]
  {
    assert heard[..i + 1][..i] == heard[..i];
  }

  lemma {:induction false} SettleStep(m: States, self: Peer, ps: seq<Peer>, s: PeerState, i: nat)
    requires i < |ps|
    ensures var m1 := Settle(m, self, ps[..i], s);
            Settle(m, self, ps[..i + 1], s) == if ps[i] == self then m1 else m1[ps[i] := s]
  {
    assert ps[..i + 1][..i] == ps[..i];
  }

  /** Settling some peers leaves the others as they were. */
  lemma {:induction false} SettleOthers(m: States, self: Peer, ps: seq<Peer>, s: PeerState, p: Peer)
    requires p !in ps
    ensures p in Settle(m, self, ps, s) <==> p in m
    ensures p in m ==> Settle(m, self, ps, s)[p] == m[p]
  {
    if ps != [] {
      assert ps == ps[..|ps| - 1] + [ps[|ps| - 1]];
      SettleOthers(m, self, ps[..|ps| - 1], s, p);
    }
  }

  lemma {:induction false} StillWaiting(m: States, self: Peer, ps: seq<Peer>, s: PeerState, i: nat)
    requires CanSettle(m, self, ps) && i < |ps| && ps[i] != self
    ensures ps[i] in Settle(m, self, ps[..i], s) && Settle(m, self, ps[..i], s)[ps[i]] == Waiting
  {
    forall j | 0 <= j < i
      ensures ps[j] != ps[i]
    {
    }
    SettleOthers(m, self, ps[..i], s, ps[i]);
  }

  lemma {:induction false} MarkStep(m: States, ps: seq<Peer>, i: nat)
    requires i < |ps|
    ensures MarkWaiting(m, ps[..i + 1]) == MarkWaiting(m, ps[..i])[ps[i] := Waiting]
  {
    assert ps[..i + 1][..i] == ps[..i];
  }

  lemma {:induction false} MarkKeys(m: States, ps: seq<Peer>)
    requires forall p :: p in ps ==> p in m
    ensures MarkWaiting(m, ps).Keys == m.Keys
  {
    if ps != [] {
      MarkKeys(m, ps[..|ps| - 1]);
      assert ps[|ps| - 1] in ps;
    }
  }

  class Query {
    const conf: Conf
    const qp: QueryPeerset
    var terminated: bool

    ghost predicate Valid()
      reads this, qp
    {
      conf.Valid() && qp.Valid() && qp.dist == conf.dist
    }

    constructor (conf: Conf, ghost universe: set<Peer>)
      requires conf.Valid() && Injective(conf.dist, universe)
      ensures Valid() && fresh(qp) && this.conf == conf && !terminated && qp.states == map[] && qp.universe == universe
    {
      this.conf, terminated := conf, false;
      qp := new QueryPeerset(conf.dist, universe);
    }

    method AddHeardPeers(up: Update)
      requires Valid() && forall p :: p in up.heard ==> p in qp.universe
      modifies qp
      ensures Valid() && qp.states == AddHeard(old(qp.states), conf.self, up.heard)
    {
      hide AddHeard, Holding, SortedBy;
      ghost var m := qp.states;
      assert AddHeard(m, conf.self, up.heard[..0]) == m by { HeardNone(m, conf.self, up.heard); }
      for i := 0 to |up.heard|
        invariant Valid() && qp.states == AddHeard(m, conf.self, up.heard[..i])
      {
        HeardStep(m, conf.self, up.heard, i);
        if up.heard[i] != conf.self {
          var added := qp.TryAdd(up.heard[i], up.cause);
        }
      }
      assert up.heard[..|up.heard|] == up.heard;
    }

    /** Every peer reported on must be waiting; otherwise the program panics. */
    method SettlePeers(ps: seq<Peer>, s: PeerState)
      requires Valid() && CanSettle(qp.states, conf.self, ps)
      modifies qp
      ensures Valid() && qp.states == Settle(old(qp.states), conf.self, ps, s)
    {
      hide Settle, Holding, SortedBy;
      ghost var m := qp.states;
      assert Settle(m, conf.self, ps[..0], s) == m by { SettleNone(m, conf.self, ps, s); }
      for i := 0 to |ps|
        invariant Valid() && qp.states == Settle(m, conf.self, ps[..i], s)
      {
        SettleStep(m, conf.self, ps, s, i);
        if ps[i] != conf.self {
          StillWaiting(m, conf.self, ps, s, i);
          var st := qp.GetState(ps[i]);
          assert st == Waiting;
          qp.SetState(ps[i], s);
        }
      }
      assert ps[..|ps|] == ps;
    }

    method UpdateState(up: Update)
      requires Valid() && !terminated && UpdateOk(qp.states, conf.self, up)
      requires forall p :: p in up.heard ==> p in qp.universe
      modifies qp
      ensures Valid() && qp.states == ApplyUpdate(old(qp.states), conf.self, up)
    {
      hide AddHeard, Settle, CanSettle;
      AddHeardPeers(up);
      SettlePeers(up.queried, Queried);
      SettlePeers(up.unreachable, Unreachable);
    }

    method IsStarved() returns (b: bool)
      requires Valid()
      modifies qp
      ensures Valid() && qp.states == old(qp.states) && (b <==> Starved(qp.states))
    {
      hide Holding, SortedBy;
      var h := qp.NumInState(Heard);
      var w := qp.NumInState(Waiting);
      b := h == 0 && w == 0;
    }

    /** `isLookupTermination`, and its KadRTT variant with a larger `n`. */
    method IsLookupTermination(n: nat) returns (b: bool)
      requires Valid()
      modifies qp
      ensures Valid() && qp.states == old(qp.states) && (b <==> ClosestQueried(qp.states, conf.dist, n))
      ensures b <==> EnoughCloser(qp.states, conf.dist, n)
    {
      hide Holding, SortedBy, ClosestOf, Closest, EnoughCloser;
      ClosestQueriedIff(qp.states, conf.dist, n);
      var peers := qp.GetClosestNInStates(n, NOT_UNREACHABLE);
      forall p | p in peers
        ensures p in qp.states
      {
        ClosestKnown(qp.states, conf.dist, n, NOT_UNREACHABLE, p);
      }
      for i := 0 to |peers|
        invariant Valid() && qp.states == old(qp.states)
        invariant forall j :: 0 <= j < i ==> peers[j] in qp.states && qp.states[peers[j]] == Queried
      {
        assert peers[i] in peers;
        var st := qp.GetState(peers[i]);
        if st != Queried {
          return false;
        }
      }
      b := true;
    }

    method IsReadyToTerminate(stop: bool, limit: int) returns (ready: bool, peers: seq<Peer>)
      requires Valid()
      modifies qp
      ensures Valid() && qp.states == old(qp.states)
      ensures ready <==> Ready(conf, qp.states, stop)
      ensures !ready ==> peers == UpTo(InOrder(InStates(qp.states, {Heard}), conf.dist), limit)
      ensures !ready && limit >= 1 ==> ClosestOf(peers, InStates(qp.states, {Heard}), conf.dist, limit)
      ensures !ready && limit < 1 ==> ClosestOf(peers, InStates(qp.states, {Heard}), conf.dist, |InStates(qp.states, {Heard})|)
    {
      hide Holding, SortedBy, Starved, ClosestQueried, InStates, ClosestOf;
      PicksAreClosest(InStates(qp.states, {Heard}), conf.dist, limit);
      if stop {
        return true, [];
      }
      ready := IsStarved();
      if ready {
        return true, [];
      }
      ready := IsLookupTermination(conf.beta);
      if ready {
        return true, [];
      }
      var heard := qp.GetClosestInStates({Heard});
      peers := PickUpTo(heard, limit);
    }

    /** One turn of the loop in `run` after an update has arrived. `spawned` are the queries started. */
    method Turn(up: Update, stop: bool) returns (spawned: seq<Peer>)
      requires Valid() && !terminated && UpdateOk(qp.states, conf.self, up)
      requires forall p :: p in up.heard ==> p in qp.universe
      modifies this`terminated, qp
      ensures Valid()
      ensures var m := ApplyUpdate(old(qp.states), conf.self, up);
              && (terminated <==> Ready(conf, m, stop))
              && (terminated ==> qp.states == m && spawned == [])
              && (!terminated ==> spawned == NextPeers(conf, m) && qp.states == MarkWaiting(m, spawned))
              && (!terminated && conf.alpha > |InStates(m, {Waiting})| ==>
                    ClosestOf(spawned, InStates(m, {Heard}), conf.dist, conf.alpha - |InStates(m, {Waiting})|))
    {
      hide Holding, SortedBy, ApplyUpdate, Starved, ClosestQueried, InStates, MarkWaiting, ClosestOf;
      UpdateState(up);
      ghost var m := qp.states;
      var waiting := qp.NumInState(Waiting);
      var ready, peers := IsReadyToTerminate(stop, conf.alpha - waiting);
      if ready {
        terminated := true;
        return [];
      }
      NextKnown(conf, m);
      StartQueries(peers);
      spawned := peers;
    }

    /** The turn of a cancelled coordinator. It has ended the lookup when the tests pick their peers, with a limit that
        may be below one, and starts none of them. */
    method CancelledTurn(stop: bool) returns (picked: seq<Peer>)
      requires Valid() && !terminated
      modifies this`terminated, qp
      ensures Valid() && terminated && qp.states == old(qp.states)
      ensures picked == Picked(conf, qp.states, stop)
    {
      hide Holding, SortedBy, Starved, ClosestQueried, InStates;
      terminated := true;
      var waiting := qp.NumInState(Waiting);
      var ready, peers := IsReadyToTerminate(stop, conf.alpha - waiting);
      picked := if ready then [] else peers;
    }

    /** `constructLookupResult`. `n` is the configured beta, under KadRTT the larger of it and the bucket's. */
    method ConstructLookupResult(bucketSize: nat, n: nat, target: Id, hash: Peer -> Id)
      returns (peers: seq<Peer>, state: seq<PeerState>, completed: bool)
      requires Valid() && conf.beta <= n
      requires forall p :: |hash(p)| == |target| && conf.dist(p) == ToNat(Xor(target, hash(p)))
      modifies qp
      ensures Valid() && qp.states == old(qp.states)
      ensures peers == Closest(qp.states, conf.dist, bucketSize, NOT_UNREACHABLE)
      ensures ClosestOf(peers, (set p | p in qp.states && qp.states[p] != Unreachable), conf.dist, bucketSize)
      ensures |state| == |peers| && forall i :: 0 <= i < |peers| ==> peers[i] in qp.states && state[i] == qp.states[peers[i]]
      ensures completed <==> ClosestQueried(qp.states, conf.dist, n) || Starved(qp.states)
      ensures completed ==> ClosestQueried(qp.states, conf.dist, conf.beta) || Starved(qp.states)
      ensures ClosestQueried(qp.states, conf.dist, conf.beta) ==>
                (completed <==> Starved(qp.states) || NextQueried(qp.states, conf.dist, conf.beta, n))
    {
      hide Holding, SortedBy, Starved, InStates, Lists, NextQueried, ClosestOf;
      Reachable(qp.states);
      NormalEndIff(qp.states, conf.dist, conf.beta, n);
      FewerQueried(qp.states, conf.dist, conf.beta, n);
      hide ClosestQueried;
      var done := IsLookupTermination(n);
      var starved := IsStarved();
      completed := done || starved;
      var found := qp.GetClosestNInStates(bucketSize, NOT_UNREACHABLE);
      forall p | p in found
        ensures p in qp.states
      {
        ClosestKnown(qp.states, conf.dist, bucketSize, NOT_UNREACHABLE, p);
      }
      peers := SortClosestPeers(found, target, hash);
      AlreadySorted(qp.states, conf.dist, bucketSize, found, peers, target, hash);
      state := CollectStates(peers);
    }

    method CollectStates(peers: seq<Peer>) returns (state: seq<PeerState>)
      requires Valid() && forall p :: p in peers ==> p in qp.states
      ensures |state| == |peers| && forall i :: 0 <= i < |peers| ==> peers[i] in qp.states && state[i] == qp.states[peers[i]]
    {
      hide Holding, SortedBy;
      state := [];
      for i := 0 to |peers|
        invariant |state| == i
        invariant forall j :: 0 <= j < i ==> peers[j] in qp.states && state[j] == qp.states[peers[j]]
      {
        assert peers[i] in peers;
        var st := qp.GetState(peers[i]);
        state := state + [st];
      }
    }

    /** `spawnQuery` for each peer: it is waiting from here on. */
    method StartQueries(peers: seq<Peer>)
      requires Valid() && forall p :: p in peers ==> p in qp.states
      modifies qp
      ensures Valid() && qp.states == MarkWaiting(old(qp.states), peers)
    {
      hide Holding, SortedBy, MarkWaiting;
      ghost var m := qp.states;
      assert MarkWaiting(m, peers[..0]) == m by { MarkNone(m, peers); }
      for i := 0 to |peers|
        invariant Valid() && qp.states == MarkWaiting(m, peers[..i])
      {
        MarkStep(m, peers, i);
        assert forall p :: p in peers[..i] ==> p in peers;
        MarkKeys(m, peers[..i]);
        assert peers[i] in peers;
        qp.SetState(peers[i], Waiting);
      }
      assert peers[..|peers|] == peers;
    }
  }

  lemma {:induction false} HeardNone(m: States, self: Peer, heard: seq<Peer>)
    ensures AddHeard(m, self, heard[..0]) == m
  {
  }

  lemma {:induction false} SettleNone(m: States, self: Peer, ps: seq<Peer>, s: PeerState)
    ensures Settle(m, self, ps[..0], s) == m
  {
  }

  lemma {:induction false} MarkNone(m: States, ps: seq<Peer>)
    ensures MarkWaiting(m, ps[..0]) == m
  {
  }

  lemma {:induction false} ClosestKnown(m: States, dist: Peer -> nat, n: nat, wanted: set<PeerState>, p: Peer)
    requires p in Closest(m, dist, n, wanted)
    ensures p in m && m[p] in wanted
  {
    assert p in InOrder(InStates(m, wanted), dist);
  }

  lemma {:induction false} NextKnown(conf: Conf, m: States)
    requires conf.Valid()
    ensures forall p :: p in NextPeers(conf, m) ==> p in m
  {
    forall p | p in NextPeers(conf, m)
      ensures p in m
    {
      assert p in InOrder(InStates(m, {Heard}), conf.dist);
    }
  }

  /** The counting loop at the end of `isReadyToTerminate`. */
  method PickUpTo(ps: seq<Peer>, limit: int) returns (r: seq<Peer>)
    ensures r == UpTo(ps, limit)
  {
    r := [];
    var count := 0;
    while count < |ps|
      invariant count <= |ps| && r == ps[..count]
      invariant count >= 1 ==> count < limit || limit < 1
    {
      r := r + [ps[count]];
      count := count + 1;
      if count == limit {
        break;
      }
    }
  }

  /** A turn of the code is the coordinator's step of the state machine. */
  lemma {:induction false} TurnIsReceive(conf: Conf, s: State, stop: bool, m: States, terminated: bool, spawned: seq<Peer>)
    requires conf.Valid() && !s.terminated && s.ch != [] && UpdateOk(s.states, conf.self, s.ch[0])
    requires var m1 := ApplyUpdate(s.states, conf.self, s.ch[0]);
             && (terminated <==> Ready(conf, m1, stop))
             && (terminated ==> m == m1 && spawned == [])
             && (!terminated ==> spawned == NextPeers(conf, m1) && m == MarkWaiting(m1, spawned))
    ensures Receive(conf, s, stop)
         == s.(states := m, terminated := terminated, ch := s.ch[1..], processed := s.processed + 1,
            running := s.running + ToSet(spawned), queries := s.queries + spawned)
  {
    hide ApplyUpdate, UpdateOk, Starved, ClosestQueried, NextPeers, MarkWaiting;
    if terminated {
      assert ToSet(spawned) == {} && s.running + {} == s.running && s.queries + [] == s.queries;
    }
  }

  lemma {:induction false} Reachable(m: States)
    ensures InStates(m, NOT_UNREACHABLE) == set p | p in m && m[p] != Unreachable
  {
  }

  /** A longer prefix of queried peers contains the shorter one. */
  lemma {:induction false} FewerQueried(m: States, dist: Peer -> nat, few: nat, many: nat)
    requires few <= many
    ensures ClosestQueried(m, dist, many) ==> ClosestQueried(m, dist, few)
  {
    hide Lists;
    var r := InOrder(InStates(m, NOT_UNREACHABLE), dist);
    assert forall p :: p in Take(r, few) ==> p in Take(r, many);
  }

  /** The two orders agree: sorting the closest peers by distance bytes changes nothing. */
  lemma {:induction false} AlreadySorted(m: States, dist: Peer -> nat, n: nat, found: seq<Peer>, r: seq<Peer>, target: Id, hash: Peer -> Id)
    requires Injective(dist, m.Keys) && found == Closest(m, dist, n, NOT_UNREACHABLE)
    requires forall p :: |hash(p)| == |target| && dist(p) == ToNat(Xor(target, hash(p)))
    requires multiset(r) == multiset(found) && SortedBy(r, NumberTo(target, hash))
    ensures r == found
  {
    var key := NumberTo(target, hash);
    assert forall p :: key(p) == dist(p);
    assert SortedBy(found, key);
    forall p | p in found
      ensures p in m
    {
      ClosestKnown(m, dist, n, NOT_UNREACHABLE, p);
    }
    assert InjectiveOn(found, key);
    SortUnique(r, found, key);
  }

  // ---------------------------------------------------------------- a lookup that ended normally

  /** Those peers not unreachable that come after the first `few` and before the `many`-th have all been queried. */
  ghost predicate NextQueried(m: States, dist: Peer -> nat, few: nat, many: nat)
  {
    var r := InOrder(InStates(m, NOT_UNREACHABLE), dist);
    forall i :: few <= i < many && i < |r| ==> r[i] in m && m[r[i]] == Queried
  }

  /** The loop ends by the configured beta while the result is judged by a larger number under KadRTT: a lookup that
      ended with its closest beta peers queried counts as completed exactly if the next ones are queried too. */
  lemma {:induction false} NormalEndIff(m: States, dist: Peer -> nat, few: nat, many: nat)
    requires few <= many
    ensures ClosestQueried(m, dist, few) ==> (ClosestQueried(m, dist, many) <==> NextQueried(m, dist, few, many))
    ensures NextQueried(m, dist, few, few)
  {
    hide Lists, InStates;
    var r := InOrder(InStates(m, NOT_UNREACHABLE), dist);
    if ClosestQueried(m, dist, few) {
      if ClosestQueried(m, dist, many) {
        forall i | few <= i < many && i < |r|
          ensures r[i] in m && m[r[i]] == Queried
        {
          assert r[i] in Take(r, many);
        }
      }
      if NextQueried(m, dist, few, many) {
        forall p | p in Take(r, many)
          ensures p in m && m[p] == Queried
        {
          var i :| 0 <= i < |Take(r, many)| && Take(r, many)[i] == p;
          assert i < few ==> p == Take(r, few)[i];
        }
      }
    }
  }

  function TwoPeers(): States
  {
    map["p" := Queried, "q" := Heard]
  }

  function FirstNear(): Peer -> nat
  {
    p => if p == "p" then 0 else 1
  }

  lemma {:induction false} TwoInOrder()
    ensures InOrder(InStates(TwoPeers(), NOT_UNREACHABLE), FirstNear()) == ["p", "q"]
  {
    var s, r := InStates(TwoPeers(), NOT_UNREACHABLE), ["p", "q"];
    assert s == {"p", "q"};
    assert Lists(r, s, FirstNear());
    hide InStates, Lists;
    ListsUnique(InOrder(s, FirstNear()), r, s, FirstNear());
  }

  /** Such a lookup need not be completed: the closer of two peers is queried, the other only heard of. */
  lemma {:induction false} EndedIncomplete()
    ensures ClosestQueried(TwoPeers(), FirstNear(), 1) && !ClosestQueried(TwoPeers(), FirstNear(), 2) && !Starved(TwoPeers())
  {
    TwoInOrder();
    hide InOrder;
    assert Take(["p", "q"], 1) == ["p"] && Take(["p", "q"], 2) == ["p", "q"];
    assert ["p", "q"][1] == "q" && "q" in InStates(TwoPeers(), {Heard});
  }
}
