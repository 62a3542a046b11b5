/**
 What every run of the lookup keeps.
 */
module LookupProofs {
  import opened Wrappers
  import opened Collections
  import opened Keyspace
  import opened Sorting
  import opened QueryPeersets
  import opened Lookup

  // ---------------------------------------------------------------- updates

  /** `r` extends `m` by peers just heard of. */
  ghost predicate Extends(m: States, r: States)
  {
    && (forall p :: p in m ==> p in r && r[p] == m[p])
    && (forall p :: p in r && p !in m ==> r[p] == Heard)
  }

  lemma {:induction false} AddHeardExtends(m: States, self: Peer, heard: seq<Peer>)
    ensures Extends(m, AddHeard(m, self, heard))
    ensures self !in m ==> self !in AddHeard(m, self, heard)
    ensures forall p :: p in AddHeard(m, self, heard) <==> p in m || (p in heard && p != self)
  {
    if heard != [] {
      AddHeardExtends(m, self, heard[..|heard| - 1]);
      assert heard == heard[..|heard| - 1] + [heard[|heard| - 1]];
    }
  }

  lemma {:induction false} ExtendsKeeps(m: States, r: States, wanted: set<PeerState>)
    requires Extends(m, r) && Heard !in wanted
    ensures InStates(r, wanted) == InStates(m, wanted)
  {
  }

  lemma {:induction false} SettleOne(m: States, self: Peer, p: Peer, s: PeerState)
    requires p != self
    ensures Settle(m, self, [p], s) == m[p := s] && Settle(m, self, [], s) == m
  {
    assert [p][..0] == [];
  }

  function Outcome(u: Update): PeerState
  {
    if u.queried != [] then Queried else Unreachable
  }

  /** A report on a peer that is waited for is processed without panic and settles that peer alone. */
  lemma {:induction false} ReportApplies(m: States, self: Peer, u: Update)
    requires IsReport(u) && u.cause in m && m[u.cause] == Waiting && self !in m
    ensures UpdateOk(m, self, u)
    ensures ApplyUpdate(m, self, u) == AddHeard(m, self, u.heard)[u.cause := Outcome(u)]
  {
    hide AddHeard, Settle;
    var m1 := AddHeard(m, self, u.heard);
    AddHeardExtends(m, self, u.heard);
    SettleOne(m1, self, u.cause, Queried);
    SettleOne(m1, self, u.cause, Unreachable);
    SettleOne(m1[u.cause := Queried], self, u.cause, Unreachable);
  }

  lemma {:induction false} SettledStates(m: States, m1: States, c: Peer, o: PeerState)
    requires Extends(m, m1) && c in m && m[c] == Waiting && (o == Queried || o == Unreachable)
    ensures InStates(m1[c := o], {Waiting}) == InStates(m, {Waiting}) - {c}
    ensures InStates(m1[c := o], {Queried, Unreachable}) == InStates(m, {Queried, Unreachable}) + {c}
    ensures c !in InStates(m, {Queried, Unreachable})
  {
  }

  // ---------------------------------------------------------------- the channel

  lemma {:induction false} CausesTail(ch: seq<Update>)
    requires ch != [] && DistinctCauses(ch)
    ensures Causes(ch[1..]) == Causes(ch) - {ch[0].cause} && DistinctCauses(ch[1..])
    ensures ch[0].cause in Causes(ch)
    ensures forall u :: u in ch[1..] ==> u in ch
  {
    assert ch[0] in ch;
    forall p
      ensures p in Causes(ch[1..]) <==> p in Causes(ch) - {ch[0].cause}
    {
      if p in Causes(ch[1..]) {
        var u :| u in ch[1..] && u.cause == p;
        var i :| 0 <= i < |ch[1..]| && ch[1..][i] == u;
        assert ch[i + 1] == u && u in ch;
      }
      if p in Causes(ch) - {ch[0].cause} {
        var u :| u in ch && u.cause == p;
        var i :| 0 <= i < |ch| && ch[i] == u;
        assert ch[1..][i - 1] == u;
      }
    }
  }

  lemma {:induction false} CausesSize(ch: seq<Update>)
    requires DistinctCauses(ch)
    ensures |Causes(ch)| == |ch|
  {
    if ch == [] {
      assert Causes(ch) == {};
    } else {
      CausesTail(ch);
      CausesSize(ch[1..]);
    }
  }

  lemma {:induction false} CausesAppend(ch: seq<Update>, u: Update)
    ensures Causes(ch + [u]) == Causes(ch) + {u.cause}
  {
    assert u in ch + [u];
    forall p
      ensures p in Causes(ch + [u]) <==> p in Causes(ch) + {u.cause}
    {
      if p in Causes(ch) {
        var w :| w in ch && w.cause == p;
        assert w in ch + [u];
      }
    }
  }

  lemma {:induction false} WaitingCount(s: State)
    requires InFlight(s.states, s.running, s.ch)
    ensures |InStates(s.states, {Waiting})| == |s.running| + |s.ch|
  {
    CausesSize(s.ch);
    assert |s.running + Causes(s.ch)| == |s.running| + |Causes(s.ch)|;
  }

  // ---------------------------------------------------------------- starting queries

  lemma {:induction false} MarkFacts(m: States, ps: seq<Peer>)
    requires forall p :: p in ps ==> p in m
    ensures MarkWaiting(m, ps).Keys == m.Keys
    ensures forall p :: p in m ==> MarkWaiting(m, ps)[p] == if p in ps then Waiting else m[p]
  {
    if ps != [] {
      var init, last := ps[..|ps| - 1], ps[|ps| - 1];
      assert ps == init + [last];
      MarkFacts(m, init);
    }
  }

  lemma {:induction false} MarkedStates(m: States, ps: seq<Peer>)
    requires forall p :: p in ps ==> p in m && m[p] == Heard
    ensures InStates(MarkWaiting(m, ps), {Waiting}) == InStates(m, {Waiting}) + ToSet(ps)
    ensures InStates(MarkWaiting(m, ps), {Queried, Unreachable}) == InStates(m, {Queried, Unreachable})
    ensures ToSet(ps) !! InStates(m, {Waiting})
  {
    hide MarkWaiting;
    MarkFacts(m, ps);
  }

  lemma {:induction false} ToSetSize(ps: seq<Peer>)
    requires NoRepeats(ps)
    ensures |ToSet(ps)| == |ps|
  {
    if ps == [] {
      assert ToSet(ps) == {};
    } else {
      var init, last := ps[..|ps| - 1], ps[|ps| - 1];
      ToSetSize(init);
      assert ps == init + [last];
      assert ToSet(ps) == ToSet(init) + {last};
      assert last !in init;
    }
  }

  /** With a limit of at least one, between one (if any peer is known) and `limit` heard peers are picked,
      each once. */
  lemma {:induction false} NextPeersFacts(conf: Conf, m: States)
    requires conf.Valid() && |InStates(m, {Waiting})| < conf.alpha
    ensures var ps := NextPeers(conf, m);
            && (forall p :: p in ps ==> p in m && m[p] == Heard)
            && NoRepeats(ps)
            && |ps| <= conf.alpha - |InStates(m, {Waiting})|
            && (InStates(m, {Heard}) != {} ==> ps != [])
  {
    var all := InOrder(InStates(m, {Heard}), conf.dist);
    var ps := NextPeers(conf, m);
    assert forall p :: p in ps ==> p in all;
    if InStates(m, {Heard}) != {} {
      var p :| p in InStates(m, {Heard});
      assert p in all;
    }
  }

  /** The peers picked are the closest heard ones: as many as the limit allows, or all of them for a limit below one. */
  lemma {:induction false} PicksAreClosest(s: set<Peer>, dist: Peer -> nat, limit: int)
    ensures limit >= 1 ==> ClosestOf(UpTo(InOrder(s, dist), limit), s, dist, limit)
    ensures limit < 1 ==> ClosestOf(UpTo(InOrder(s, dist), limit), s, dist, |s|)
  {
    hide ClosestOf, Lists;
    ListsSize(InOrder(s, dist), s, dist);
    if limit >= 1 {
      TakeIsClosest(s, dist, limit);
    } else {
      TakeIsClosest(s, dist, |s|);
      assert Take(InOrder(s, dist), |s|) == InOrder(s, dist);
    }
  }

  // ---------------------------------------------------------------- the coordinator's turn

  /** An update has been processed and nothing decided yet: there is room for at least one more query. */
  ghost predicate Updated(conf: Conf, universe: set<Peer>, s: State)
  {
    && !s.panicked && !s.terminated
    && |s.running| + |s.ch| < conf.alpha
    && Known(conf, universe, s.states, s.ch) && QueriesMatch(s.states, s.queries)
    && InFlight(s.states, s.running, s.ch)
    && s.processed == 1 + |InStates(s.states, {Queried, Unreachable})|
  }

  lemma {:induction false} QueriesGrow(m: States, queries: seq<Peer>, ps: seq<Peer>)
    requires QueriesMatch(m, queries) && NoRepeats(ps) && forall p :: p in ps ==> p in m && m[p] == Heard
    ensures QueriesMatch(MarkWaiting(m, ps), queries + ps)
  {
    hide MarkWaiting;
    MarkFacts(m, ps);
    var q := queries + ps;
    forall i, j | 0 <= i < j < |q|
      ensures q[i] != q[j]
    {
      if i < |queries| <= j {
        assert q[i] in queries && q[j] in ps;
      }
    }
  }

  lemma {:induction false} FlightGrows(m: States, running: set<Peer>, ch: seq<Update>, ps: seq<Peer>)
    requires InFlight(m, running, ch) && forall p :: p in ps ==> p in m && m[p] == Heard
    ensures InFlight(MarkWaiting(m, ps), running + ToSet(ps), ch)
    ensures running !! ToSet(ps)
  {
    hide MarkWaiting, DistinctCauses;
    MarkedStates(m, ps);
  }

  /** Deciding never exceeds the channel's capacity in flight, and never goes on with nothing in flight. */
  lemma {:induction false} DecideInv(conf: Conf, universe: set<Peer>, s: State, stop: bool)
    requires conf.Valid() && Updated(conf, universe, s)
    ensures Inv(conf, universe, Decide(conf, s, stop))
  {
    hide InFlight, MarkWaiting, NextPeers, Starved, ClosestQueried, Causes, QueriesMatch, InStates, ToSet;
    if !Ready(conf, s.states, stop) {
      WaitingCount(s);
      NextPeersFacts(conf, s.states);
      var ps := NextPeers(conf, s.states);
      QueriesGrow(s.states, s.queries, ps);
      FlightGrows(s.states, s.running, s.ch, ps);
      MarkFacts(s.states, ps);
      MarkedStates(s.states, ps);
      ToSetSize(ps);
      SomethingGoesOn(s, ps);
      assert |s.running + ToSet(ps)| == |s.running| + |ps|;
    }
  }

  lemma {:induction false} SomethingGoesOn(s: State, ps: seq<Peer>)
    requires !Starved(s.states) && InFlight(s.states, s.running, s.ch) && (InStates(s.states, {Heard}) != {} ==> ps != [])
    ensures s.running + ToSet(ps) != {} || s.ch != []
  {
    if InStates(s.states, {Heard}) != {} {
      assert ps[0] in ToSet(ps);
    } else if s.ch == [] {
      assert Causes(s.ch) == {};
    }
  }

  ghost function AfterUpdate(conf: Conf, s: State): State
    requires s.ch != []
  {
    s.(states := ApplyUpdate(s.states, conf.self, s.ch[0]), ch := s.ch[1..], processed := s.processed + 1)
  }

  lemma {:induction false} SeedUpdated(conf: Conf, universe: set<Peer>, s: State)
    requires conf.Valid() && Inv(conf, universe, s) && !s.terminated && s.processed == 0
    ensures UpdateOk(s.states, conf.self, s.ch[0]) && Updated(conf, universe, AfterUpdate(conf, s))
  {
    var t := AfterUpdate(conf, s);
    var u := s.ch[0];
    assert u in s.ch;
    AddHeardExtends(map[], conf.self, u.heard);
    assert Settle(t.states, conf.self, [], Unreachable) == t.states;
    ExtendsKeeps(map[], t.states, {Waiting});
    ExtendsKeeps(map[], t.states, {Queried, Unreachable});
    assert InStates(map[], {Waiting}) == {} && InStates(map[], {Queried, Unreachable}) == {};
    assert Causes(t.ch) == {};
  }

  lemma {:induction false} ReportFlight(m: States, running: set<Peer>, ch: seq<Update>, m1: States)
    requires InFlight(m, running, ch) && ch != []
    requires InStates(m1, {Waiting}) == InStates(m, {Waiting}) - {ch[0].cause}
    ensures InFlight(m1, running, ch[1..])
  {
    hide InStates;
    CausesTail(ch);
  }

  lemma {:induction false} ReportQueries(m: States, queries: seq<Peer>, m1: States, c: Peer, o: PeerState)
    requires QueriesMatch(m, queries) && Extends(m, m1) && c in m && m[c] == Waiting && o != Heard
    ensures QueriesMatch(m1[c := o], queries)
  {
  }

  lemma {:induction false} ReportKnown(conf: Conf, universe: set<Peer>, m: States, ch: seq<Update>, o: PeerState)
    requires Known(conf, universe, m, ch) && ch != [] && ch[0].cause in m
    ensures Known(conf, universe, AddHeard(m, conf.self, ch[0].heard)[ch[0].cause := o], ch[1..])
  {
    hide AddHeard;
    AddHeardExtends(m, conf.self, ch[0].heard);
    assert ch[0] in ch && forall w :: w in ch[1..] ==> w in ch;
  }

  lemma {:induction false} FlightHead(m: States, running: set<Peer>, ch: seq<Update>)
    requires InFlight(m, running, ch) && ch != []
    ensures IsReport(ch[0]) && ch[0].cause in m && m[ch[0].cause] == Waiting
  {
    assert ch[0] in ch && ch[0].cause in Causes(ch);
    assert ch[0].cause in InStates(m, {Waiting});
  }

  lemma {:induction false} ReportUpdated(conf: Conf, universe: set<Peer>, s: State)
    requires conf.Valid() && Inv(conf, universe, s) && !s.terminated && s.processed > 0 && s.ch != []
    ensures UpdateOk(s.states, conf.self, s.ch[0]) && Updated(conf, universe, AfterUpdate(conf, s))
  {
    hide InFlight, ApplyUpdate, UpdateOk, AddHeard, QueriesMatch, InStates, IsReport;
    var u, m := s.ch[0], s.states;
    FlightHead(m, s.running, s.ch);
    ReportApplies(m, conf.self, u);
    var m1 := AddHeard(m, conf.self, u.heard);
    AddHeardExtends(m, conf.self, u.heard);
    SettledStates(m, m1, u.cause, Outcome(u));
    ReportFlight(m, s.running, s.ch, m1[u.cause := Outcome(u)]);
    ReportQueries(m, s.queries, m1, u.cause, Outcome(u));
    hide Known;
    ReportKnown(conf, universe, m, s.ch, Outcome(u));
  }

  /** The next update can be processed, and leaves room for at least one more query. */
  lemma {:induction false} HeadUpdated(conf: Conf, universe: set<Peer>, s: State)
    requires conf.Valid() && Inv(conf, universe, s) && !s.terminated && s.ch != []
    ensures UpdateOk(s.states, conf.self, s.ch[0]) && Updated(conf, universe, AfterUpdate(conf, s))
  {
    hide Updated, UpdateOk, InFlight, QueriesMatch, Known;
    if s.processed == 0 {
      SeedUpdated(conf, universe, s);
    } else {
      ReportUpdated(conf, universe, s);
    }
  }

  lemma {:induction false} ReceiveInv(conf: Conf, universe: set<Peer>, s: State, stop: bool)
    requires conf.Valid() && Inv(conf, universe, s) && !s.terminated && s.ch != []
    ensures Inv(conf, universe, Receive(conf, s, stop))
  {
    hide Inv, Updated, UpdateOk, ApplyUpdate, Decide;
    HeadUpdated(conf, universe, s);
    DecideInv(conf, universe, AfterUpdate(conf, s), stop);
  }

  // ---------------------------------------------------------------- a worker's turn

  lemma {:induction false} FinishFlight(s: State, p: Peer, saw: Option<seq<Peer>>)
    requires InFlight(s.states, s.running, s.ch) && p in s.running
    ensures var t := Finish(s, p, saw); InFlight(t.states, t.running, t.ch)
  {
    var u := Report(p, saw);
    CausesAppend(s.ch, u);
    assert forall w :: w in s.ch ==> w.cause in Causes(s.ch);
    assert DistinctCauses(s.ch + [u]);
  }

  lemma {:induction false} FinishInv(conf: Conf, universe: set<Peer>, s: State, p: Peer, saw: Option<seq<Peer>>)
    requires conf.Valid() && Inv(conf, universe, s) && p in s.running
    requires saw.Some? ==> forall q :: q in saw.value ==> q in universe
    ensures Inv(conf, universe, Finish(s, p, saw))
  {
    hide InFlight, QueriesMatch;
    FinishFlight(s, p, saw);
    var t := Finish(s, p, saw);
    forall u | u in t.ch
      ensures forall q :: q in u.heard ==> q in universe
    {
      assert u in s.ch || u == Report(p, saw);
    }
    assert t.ch != [];
  }

  lemma {:induction false} StepInv(conf: Conf, universe: set<Peer>, s: State, t: State)
    requires conf.Valid() && Inv(conf, universe, s) && Step(conf, universe, s, t)
    ensures Inv(conf, universe, t)
  {
    hide Inv, Receive;
    if !s.terminated && !s.panicked && s.ch != [] && t == Receive(conf, s, true) {
      ReceiveInv(conf, universe, s, true);
    } else if !s.terminated && !s.panicked && s.ch != [] && t == Receive(conf, s, false) {
      ReceiveInv(conf, universe, s, false);
    } else if !s.terminated && !s.panicked && (t == Cancel(conf, s, true) || t == Cancel(conf, s, false)) {
      CancelInv(conf, universe, s);
    } else {
      var p, saw: Option<seq<Peer>> :|
        && p in s.running && |s.ch| < conf.alpha
        && (saw.Some? ==> forall q :: q in saw.value ==> q in universe)
        && t == Finish(s, p, saw);
      FinishInv(conf, universe, s, p, saw);
    }
  }

  lemma {:induction false} CancelInv(conf: Conf, universe: set<Peer>, s: State)
    requires Inv(conf, universe, s)
    ensures Inv(conf, universe, s.(terminated := true))
  {
  }

  // ---------------------------------------------------------------- whole runs

  ghost predicate IsRun(conf: Conf, universe: set<Peer>, ss: seq<State>)
    requires conf.Valid()
  {
    && ss != [] && ss[0] == Init(conf)
    && (forall p :: p in conf.seeds ==> p in universe)
    && forall i :: 0 <= i < |ss| - 1 ==> Step(conf, universe, ss[i], ss[i + 1])
  }

  lemma {:induction false} InitInv(conf: Conf, universe: set<Peer>)
    requires conf.Valid() && forall p :: p in conf.seeds ==> p in universe
    ensures Inv(conf, universe, Init(conf))
  {
  }

  lemma {:induction false} RunInv(conf: Conf, universe: set<Peer>, ss: seq<State>, i: nat)
    requires conf.Valid() && IsRun(conf, universe, ss) && i < |ss|
    ensures Inv(conf, universe, ss[i])
  {
    hide Inv, Step;
    if i == 0 {
      InitInv(conf, universe);
    } else {
      RunInv(conf, universe, ss, i - 1);
      assert Step(conf, universe, ss[i - 1], ss[i - 1 + 1]);
      StepInv(conf, universe, ss[i - 1], ss[i]);
    }
  }

  /** In every state of every run: running workers and queued updates together fit the channel, so no
      worker finds it full; no panic has happened; an unfinished lookup has something in flight; every
      peer is queried at most once; and the updates processed are bounded by the peers there are. */
  lemma {:induction false} RunSafe(conf: Conf, universe: set<Peer>, ss: seq<State>, i: nat)
    requires conf.Valid() && IsRun(conf, universe, ss) && i < |ss|
    ensures var s := ss[i];
            && |s.running| + |s.ch| <= conf.alpha
            && (s.running != {} ==> |s.ch| < conf.alpha)
            && !s.panicked
            && (!s.terminated ==> s.running != {} || s.ch != [])
            && NoRepeats(s.queries)
            && s.processed <= |universe| + 1
  {
    RunInv(conf, universe, ss, i);
    var s := ss[i];
    if s.processed > 0 {
      var done := InStates(s.states, {Queried, Unreachable});
      assert done <= universe;
      SubsetSize(done, universe);
    }
  }

  /** Whenever peers are started the limit they are picked with is at least one: it is so in every turn that
      receives an update. */
  lemma {:induction false} SpawnLimitPositive(conf: Conf, universe: set<Peer>, ss: seq<State>, i: nat)
    requires conf.Valid() && IsRun(conf, universe, ss) && i < |ss|
    requires !ss[i].terminated && ss[i].ch != []
    ensures UpdateOk(ss[i].states, conf.self, ss[i].ch[0])
    ensures conf.alpha - |InStates(AfterUpdate(conf, ss[i]).states, {Waiting})| >= 1
  {
    RunInv(conf, universe, ss, i);
    var s := ss[i];
    hide InFlight, ApplyUpdate, UpdateOk, QueriesMatch, Known;
    HeadUpdated(conf, universe, s);
    WaitingCount(AfterUpdate(conf, s));
  }

  /** In a cancelled turn the limit is what alpha leaves beside the peers in flight. It is below one exactly if alpha
      are in flight, and then the tests pick every heard peer, of whom none is started. */
  lemma {:induction false} CancelledLimit(conf: Conf, universe: set<Peer>, ss: seq<State>, i: nat, stop: bool)
    requires conf.Valid() && IsRun(conf, universe, ss) && i < |ss| && !ss[i].terminated && ss[i].processed > 0
    ensures var s := ss[i];
            var limit := conf.alpha - |InStates(s.states, {Waiting})|;
            && limit == conf.alpha - (|s.running| + |s.ch|) >= 0
            && (limit < 1 && !Ready(conf, s.states, stop) ==>
                  Picked(conf, s.states, stop) == InOrder(InStates(s.states, {Heard}), conf.dist))
            && Cancel(conf, s, stop) == s.(terminated := true)
  {
    RunInv(conf, universe, ss, i);
    hide InFlight, QueriesMatch, Known, Ready;
    WaitingCount(ss[i]);
  }

  lemma {:induction false} CanReport(conf: Conf, universe: set<Peer>, s: State, p: Peer)
    requires conf.Valid() && p in s.running && |s.ch| < conf.alpha
    ensures Step(conf, universe, s, Finish(s, p, None))
  {
    hide Receive;
    var saw: Option<seq<Peer>> := None;
    assert Finish(s, p, None) == Finish(s, p, saw);
  }

  lemma {:induction false} OnlyReports(conf: Conf, universe: set<Peer>, s: State, t: State)
    requires conf.Valid() && s.terminated && Step(conf, universe, s, t)
    ensures t.terminated && |t.running| == |s.running| - 1
  {
    hide Receive;
  }

  /** Once the lookup has terminated, every further step is a worker reporting, and as long as one runs it
      can: the final wait drains. */
  lemma {:induction false} WaitDrains(conf: Conf, universe: set<Peer>, ss: seq<State>, i: nat)
    requires conf.Valid() && IsRun(conf, universe, ss) && i < |ss| && ss[i].terminated
    ensures forall t :: Step(conf, universe, ss[i], t) ==> t.terminated && |t.running| == |ss[i].running| - 1
    ensures forall p :: p in ss[i].running ==> Step(conf, universe, ss[i], Finish(ss[i], p, None))
  {
    hide Step;
    RunSafe(conf, universe, ss, i);
    forall t | Step(conf, universe, ss[i], t)
      ensures t.terminated && |t.running| == |ss[i].running| - 1
    {
      OnlyReports(conf, universe, ss[i], t);
    }
    forall p | p in ss[i].running
      ensures Step(conf, universe, ss[i], Finish(ss[i], p, None))
    {
      CanReport(conf, universe, ss[i], p);
    }
  }

  // ---------------------------------------------------------------- when a lookup is over

  /** The peers closer than `p` that were not found unreachable. */
  ghost function Closer(m: States, dist: Peer -> nat, p: Peer): set<Peer>
  {
    set q | q in m && m[q] != Unreachable && dist(q) < dist(p)
  }

  /** Every peer not yet queried has `n` closer ones that were not found unreachable. */
  ghost predicate EnoughCloser(m: States, dist: Peer -> nat, n: nat)
  {
    forall p :: p in m && (m[p] == Heard || m[p] == Waiting) ==> |Closer(m, dist, p)| >= n
  }

  /** A peer's place in the order of distance is the number of closer peers. */
  lemma {:induction false} PlaceIsCount(m: States, dist: Peer -> nat, r: seq<Peer>, i: nat)
    requires r == InOrder(InStates(m, NOT_UNREACHABLE), dist) && Injective(dist, m.Keys) && i < |r|
    ensures |Closer(m, dist, r[i])| == i
  {
    var s := InStates(m, NOT_UNREACHABLE);
    assert Lists(r, s, dist);
    forall q
      ensures q in ToSet(r[..i]) <==> q in Closer(m, dist, r[i])
    {
      assert q in r <==> q in s;
      if q in r[..i] {
        var j :| 0 <= j < i && r[..i][j] == q;
        assert r[j] in r && r[i] in r && r[j] != r[i] && dist(r[j]) <= dist(r[i]);
      }
      if q in Closer(m, dist, r[i]) {
        var j :| 0 <= j < |r| && r[j] == q;
        assert j < i;
        assert r[..i][j] == q;
      }
    }
    assert ToSet(r[..i]) == Closer(m, dist, r[i]);
    ToSetSize(r[..i]);
  }

  /** The `n` closest peers not unreachable are all queried exactly if every peer not yet queried has `n` closer ones. */
  lemma {:induction false} ClosestQueriedIff(m: States, dist: Peer -> nat, n: nat)
    requires Injective(dist, m.Keys)
    ensures ClosestQueried(m, dist, n) <==> EnoughCloser(m, dist, n)
  {
    var s := InStates(m, NOT_UNREACHABLE);
    var r := InOrder(s, dist);
    assert Lists(r, s, dist);
    if ClosestQueried(m, dist, n) {
      assert forall k :: 0 <= k < |Take(r, n)| ==> r[k] == Take(r, n)[k] && Take(r, n)[k] in Take(r, n);
      forall p | p in m && (m[p] == Heard || m[p] == Waiting)
        ensures |Closer(m, dist, p)| >= n
      {
        assert p in s && p in r;
        var i :| 0 <= i < |r| && r[i] == p;
        PlaceIsCount(m, dist, r, i);
      }
    }
    if EnoughCloser(m, dist, n) {
      forall p | p in Take(r, n)
        ensures p in m && m[p] == Queried
      {
        var i :| 0 <= i < |Take(r, n)| && Take(r, n)[i] == p;
        assert r[i] == p && p in r && p in s;
        PlaceIsCount(m, dist, r, i);
      }
    }
  }

  /** A turn ends the lookup exactly if it is told to stop, every known peer is settled, or every peer not yet queried
      has beta closer ones. */
  lemma {:induction false} ReadyIff(conf: Conf, m: States, stop: bool)
    requires Injective(conf.dist, m.Keys)
    ensures Ready(conf, m, stop)
       <==> || stop
            || (forall p :: p in m ==> m[p] == Queried || m[p] == Unreachable)
            || EnoughCloser(m, conf.dist, conf.beta)
  {
    hide ClosestQueried, EnoughCloser;
    ClosestQueriedIff(m, conf.dist, conf.beta);
    StarvedIff(m);
  }

  lemma {:induction false} StarvedIff(m: States)
    ensures Starved(m) <==> forall p :: p in m ==> m[p] == Queried || m[p] == Unreachable
  {
    if Starved(m) {
      forall p | p in m
        ensures m[p] == Queried || m[p] == Unreachable
      {
        assert p !in InStates(m, {Heard}) && p !in InStates(m, {Waiting});
      }
    }
  }

  // ---------------------------------------------------------------- which peers are queried next

  /** Queries started from `s` to `t`: none is to a peer farther than one left heard, they ascend in distance, and a
      lookup that goes on after an update has alpha peers in flight or nobody left to query. */
  ghost predicate StartsClosest(conf: Conf, s: State, t: State)
  {
    && |s.queries| <= |t.queries| && t.queries[..|s.queries|] == s.queries
    && var started := t.queries[|s.queries|..];
    && Ascending(started, conf.dist)
    && (forall p, q :: p in started && q in t.states && t.states[q] == Heard ==> conf.dist(p) <= conf.dist(q))
    && (!t.terminated && t.processed > s.processed ==>
          |InStates(t.states, {Waiting})| == conf.alpha || InStates(t.states, {Heard}) == {})
  }

  lemma {:induction false} NobodyStarted(conf: Conf, s: State, t: State)
    requires t.queries == s.queries && (t.terminated || t.processed == s.processed)
    ensures StartsClosest(conf, s, t)
  {
    assert t.queries[|s.queries|..] == [];
  }

  lemma {:induction false} DecideStarts(conf: Conf, universe: set<Peer>, s: State, s1: State, stop: bool)
    requires conf.Valid() && Updated(conf, universe, s1) && s1.queries == s.queries
    ensures StartsClosest(conf, s, Decide(conf, s1, stop))
  {
    hide InFlight, MarkWaiting, Ready, Causes, QueriesMatch, ToSet, Known, UpTo;
    var t := Decide(conf, s1, stop);
    if Ready(conf, s1.states, stop) {
      NobodyStarted(conf, s, t);
    } else {
      WaitingCount(s1);
      var limit := conf.alpha - |InStates(s1.states, {Waiting})|;
      var heard := InStates(s1.states, {Heard});
      PicksAreClosest(heard, conf.dist, limit);
      StartedAre(conf, s, s1, t, heard, limit);
    }
  }

  lemma {:induction false} StartedAre(conf: Conf, s: State, s1: State, t: State, heard: set<Peer>, limit: int)
    requires heard == InStates(s1.states, {Heard}) && s1.queries == s.queries
    requires limit == conf.alpha - |InStates(s1.states, {Waiting})| >= 1
    requires conf.Valid()
    requires var ps := NextPeers(conf, s1.states);
             && ClosestOf(ps, heard, conf.dist, limit)
             && t.states == MarkWaiting(s1.states, ps) && t.queries == s1.queries + ps
    ensures StartsClosest(conf, s, t)
  {
    hide MarkWaiting, NextPeers, InStates, ToSet;
    var ps := NextPeers(conf, s1.states);
    assert t.queries[|s.queries|..] == ps;
    StillHeard(s1.states, ps, heard);
    ToSetSize(ps);
    if |ps| == |heard| {
      SubsetIsAll(ToSet(ps), heard);
    }
  }

  lemma {:induction false} StillHeard(m: States, ps: seq<Peer>, heard: set<Peer>)
    requires heard == InStates(m, {Heard}) && forall p :: p in ps ==> p in heard
    ensures InStates(MarkWaiting(m, ps), {Heard}) == heard - ToSet(ps)
    ensures NoRepeats(ps) ==> |InStates(MarkWaiting(m, ps), {Waiting})| == |InStates(m, {Waiting})| + |ps|
    ensures ToSet(ps) <= heard
    ensures forall q :: q in MarkWaiting(m, ps) && MarkWaiting(m, ps)[q] == Heard ==> q in heard && q !in ps
  {
    hide MarkWaiting;
    MarkFacts(m, ps);
    MarkedStates(m, ps);
    if NoRepeats(ps) {
      ToSetSize(ps);
      assert |InStates(m, {Waiting}) + ToSet(ps)| == |InStates(m, {Waiting})| + |ToSet(ps)|;
    }
  }

  lemma {:induction false} SubsetIsAll(a: set<Peer>, b: set<Peer>)
    requires a <= b && |a| == |b|
    ensures a == b
  {
    if x :| x in b && x !in a {
      SubsetSize(a, b - {x});
    }
  }

  lemma {:induction false} StepStarts(conf: Conf, universe: set<Peer>, s: State, t: State)
    requires conf.Valid() && Inv(conf, universe, s) && Step(conf, universe, s, t)
    ensures StartsClosest(conf, s, t)
  {
    hide Inv, Receive, StartsClosest;
    if !s.terminated && !s.panicked && s.ch != [] && (t == Receive(conf, s, true) || t == Receive(conf, s, false)) {
      ReceiveStarts(conf, universe, s, true);
      ReceiveStarts(conf, universe, s, false);
    } else {
      NobodyStarted(conf, s, t);
    }
  }

  lemma {:induction false} ReceiveStarts(conf: Conf, universe: set<Peer>, s: State, stop: bool)
    requires conf.Valid() && Inv(conf, universe, s) && !s.terminated && s.ch != []
    ensures StartsClosest(conf, s, Receive(conf, s, stop))
  {
    hide Inv, Updated, UpdateOk, ApplyUpdate, Decide, StartsClosest;
    HeadUpdated(conf, universe, s);
    DecideStarts(conf, universe, s, AfterUpdate(conf, s), stop);
  }

  /** In every run, each turn queries the closest heard peers: nobody left heard is closer than a peer a query is
      started to, and a lookup goes on only with alpha peers in flight or nobody left to query. */
  lemma {:induction false} RunStartsClosest(conf: Conf, universe: set<Peer>, ss: seq<State>, i: nat)
    requires conf.Valid() && IsRun(conf, universe, ss) && i + 1 < |ss|
    ensures StartsClosest(conf, ss[i], ss[i + 1])
  {
    RunInv(conf, universe, ss, i);
    hide Inv, Step, StartsClosest;
    assert Step(conf, universe, ss[i], ss[i + 1]);
    StepStarts(conf, universe, ss[i], ss[i + 1]);
  }

  /** Every peer named in a report is known once the report is processed, and the peer reported on is settled. */
  lemma {:induction false} ReportIsHeard(conf: Conf, universe: set<Peer>, ss: seq<State>, i: nat, stop: bool)
    requires conf.Valid() && IsRun(conf, universe, ss) && i < |ss| && !ss[i].terminated && ss[i].ch != []
    ensures var u := ss[i].ch[0];
            var t := Receive(conf, ss[i], stop);
            && (forall p :: p in t.states <==> p in ss[i].states || (p in u.heard && p != conf.self))
            && (forall p :: p in u.queried && p != conf.self ==> p in t.states && t.states[p] == Queried)
            && (forall p :: p in u.unreachable && p != conf.self ==> p in t.states && t.states[p] == Unreachable)
  {
    RunInv(conf, universe, ss, i);
    var s := ss[i];
    UpdateIsHeard(conf, universe, s);
    hide Inv, Updated, UpdateOk, ApplyUpdate, Decide, IsRun;
    HeadUpdated(conf, universe, s);
    DecideKeepsSettled(conf, universe, AfterUpdate(conf, s), stop);
  }

  lemma {:induction false} DecideKeepsSettled(conf: Conf, universe: set<Peer>, s: State, stop: bool)
    requires conf.Valid() && Updated(conf, universe, s)
    ensures var t := Decide(conf, s, stop);
            && t.states.Keys == s.states.Keys
            && forall p :: p in s.states && s.states[p] != Heard ==> t.states[p] == s.states[p]
  {
    hide MarkWaiting, NextPeers, Ready;
    WaitingCount(s);
    NextPeersFacts(conf, s.states);
    MarkFacts(s.states, NextPeers(conf, s.states));
  }

  lemma {:induction false} UpdateIsHeard(conf: Conf, universe: set<Peer>, s: State)
    requires conf.Valid() && Inv(conf, universe, s) && !s.terminated && s.ch != []
    ensures var u, m := s.ch[0], ApplyUpdate(s.states, conf.self, s.ch[0]);
            && (forall p :: p in m <==> p in s.states || (p in u.heard && p != conf.self))
            && (forall p :: p in u.queried && p != conf.self ==> p in m && m[p] == Queried)
            && (forall p :: p in u.unreachable && p != conf.self ==> p in m && m[p] == Unreachable)
  {
    var u := s.ch[0];
    AddHeardExtends(s.states, conf.self, u.heard);
    if s.processed == 0 {
      assert ApplyUpdate(s.states, conf.self, u) == AddHeard(s.states, conf.self, u.heard);
    } else {
      hide UpdateOk, ApplyUpdate, AddHeard, QueriesMatch, Known, InFlight;
      FlightHead(s.states, s.running, s.ch);
      ReportApplies(s.states, conf.self, u);
    }
  }

  // ---------------------------------------------------------------- the length of a run

  /** Steps taken so far: an update processed, a worker finished, or the cancellation. */
  ghost predicate Counted(s: State, i: nat)
  {
    i <= s.processed + |s.queries| - |s.running| + (if s.terminated then 1 else 0)
  }

  lemma {:induction false} DecideCounts(conf: Conf, universe: set<Peer>, s: State, stop: bool, i: nat)
    requires conf.Valid() && Updated(conf, universe, s) && Counted(s, i)
    ensures Counted(Decide(conf, s, stop), i)
  {
    hide InFlight, MarkWaiting, NextPeers, Ready, Causes, QueriesMatch, InStates, ToSet, Known;
    if !Ready(conf, s.states, stop) {
      WaitingCount(s);
      NextPeersFacts(conf, s.states);
      var ps := NextPeers(conf, s.states);
      FlightGrows(s.states, s.running, s.ch, ps);
      ToSetSize(ps);
      assert |s.running + ToSet(ps)| == |s.running| + |ps|;
    }
  }

  lemma {:induction false} ReceiveCounts(conf: Conf, universe: set<Peer>, s: State, stop: bool, i: nat)
    requires conf.Valid() && Inv(conf, universe, s) && !s.terminated && s.ch != [] && Counted(s, i)
    ensures Counted(Receive(conf, s, stop), i + 1)
  {
    hide Inv, Updated, UpdateOk, ApplyUpdate, Decide;
    HeadUpdated(conf, universe, s);
    DecideCounts(conf, universe, AfterUpdate(conf, s), stop, i + 1);
  }

  lemma {:induction false} StepCounts(conf: Conf, universe: set<Peer>, s: State, t: State, i: nat)
    requires conf.Valid() && Inv(conf, universe, s) && Step(conf, universe, s, t) && Counted(s, i)
    ensures Counted(t, i + 1)
  {
    hide Inv, Receive;
    if !s.terminated && !s.panicked && s.ch != [] {
      ReceiveCounts(conf, universe, s, true, i);
      ReceiveCounts(conf, universe, s, false, i);
    }
  }

  lemma {:induction false} RunCounts(conf: Conf, universe: set<Peer>, ss: seq<State>, i: nat)
    requires conf.Valid() && IsRun(conf, universe, ss) && i < |ss|
    ensures Counted(ss[i], i)
  {
    hide Inv, Step, Counted;
    if i == 0 {
      StartCounted(conf);
    } else {
      RunCounts(conf, universe, ss, i - 1);
      RunInv(conf, universe, ss, i - 1);
      assert Step(conf, universe, ss[i - 1], ss[i - 1 + 1]);
      StepCounts(conf, universe, ss[i - 1], ss[i], i - 1);
    }
  }

  lemma {:induction false} StartCounted(conf: Conf)
    ensures Counted(Init(conf), 0)
  {
  }

  /** Every run ends: among `U` peers it takes at most `2 U + 2` steps. */
  lemma {:induction false} RunIsBounded(conf: Conf, universe: set<Peer>, ss: seq<State>, i: nat)
    requires conf.Valid() && IsRun(conf, universe, ss) && i < |ss|
    ensures i <= 2 * |universe| + 2
  {
    RunCounts(conf, universe, ss, i);
    RunSafe(conf, universe, ss, i);
    RunInv(conf, universe, ss, i);
    QueriesBounded(ss[i].states, ss[i].queries, universe);
  }

  lemma {:induction false} QueriesBounded(m: States, queries: seq<Peer>, universe: set<Peer>)
    requires QueriesMatch(m, queries) && m.Keys <= universe
    ensures |queries| <= |universe|
  {
    ToSetSize(queries);
    SubsetSize(ToSet(queries), universe);
  }

  /** The only moves of a peer's state. */
  predicate Moves(a: PeerState, b: PeerState)
  {
    a == b || (a == Heard && b == Waiting) || (a == Waiting && (b == Queried || b == Unreachable))
  }

  predicate Settles(a: PeerState, b: PeerState)
  {
    a == b || (a == Waiting && (b == Queried || b == Unreachable))
  }

  predicate Starts(a: PeerState, b: PeerState)
  {
    a == b || (a == Heard && b == Waiting)
  }

  ghost predicate AllMove(m: States, r: States)
  {
    forall p :: p in m ==> p in r && Moves(m[p], r[p])
  }

  lemma {:induction false} UpdateMoves(conf: Conf, universe: set<Peer>, s: State)
    requires conf.Valid() && Inv(conf, universe, s) && !s.terminated && s.ch != []
    ensures UpdateOk(s.states, conf.self, s.ch[0])
    ensures var m := ApplyUpdate(s.states, conf.self, s.ch[0]);
            forall p :: p in s.states ==> p in m && Settles(s.states[p], m[p])
  {
    if s.processed == 0 {
      SeedUpdated(conf, universe, s);
    } else {
      hide UpdateOk, ApplyUpdate, AddHeard, IsReport, QueriesMatch, Known, InFlight;
      FlightHead(s.states, s.running, s.ch);
      ReportApplies(s.states, conf.self, s.ch[0]);
      AddHeardExtends(s.states, conf.self, s.ch[0].heard);
    }
  }

  lemma {:induction false} DecideMoves(conf: Conf, universe: set<Peer>, s: State, stop: bool)
    requires conf.Valid() && Updated(conf, universe, s)
    ensures var t := Decide(conf, s, stop);
            forall p :: p in s.states ==> p in t.states && Starts(s.states[p], t.states[p])
  {
    hide MarkWaiting, NextPeers, Starved, ClosestQueried;
    WaitingCount(s);
    NextPeersFacts(conf, s.states);
    MarkFacts(s.states, NextPeers(conf, s.states));
  }

  lemma {:induction false} ReceiveMoves(conf: Conf, universe: set<Peer>, s: State, stop: bool)
    requires conf.Valid() && Inv(conf, universe, s) && !s.terminated && s.ch != []
    ensures AllMove(s.states, Receive(conf, s, stop).states)
  {
    hide Inv, Updated, UpdateOk, ApplyUpdate, Decide;
    UpdateMoves(conf, universe, s);
    HeadUpdated(conf, universe, s);
    DecideMoves(conf, universe, AfterUpdate(conf, s), stop);
  }

  lemma {:induction false} StepMoves(conf: Conf, universe: set<Peer>, s: State, t: State)
    requires conf.Valid() && Inv(conf, universe, s) && Step(conf, universe, s, t)
    ensures AllMove(s.states, t.states)
  {
    hide Inv, Receive;
    if !s.terminated && !s.panicked && s.ch != [] {
      ReceiveMoves(conf, universe, s, true);
      ReceiveMoves(conf, universe, s, false);
    }
  }

  /** Along every run each peer only moves from heard to waiting to queried or unreachable. */
  lemma {:induction false} RunMoves(conf: Conf, universe: set<Peer>, ss: seq<State>, i: nat)
    requires conf.Valid() && IsRun(conf, universe, ss) && i + 1 < |ss|
    ensures AllMove(ss[i].states, ss[i + 1].states)
  {
    RunInv(conf, universe, ss, i);
    hide Inv, Step;
    assert Step(conf, universe, ss[i], ss[i + 1]);
    StepMoves(conf, universe, ss[i], ss[i + 1]);
  }
}
