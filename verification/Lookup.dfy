/**
 The iterative lookup: one coordinator that processes updates from a channel, decides whether the lookup
 is over, and starts queries to further peers, and one worker per query that reports back on the channel.
 A run is any interleaving of their steps.
 */
module Lookup {
  import opened Wrappers
  import opened Keyspace
  import opened QueryPeersets

  datatype Update = Update(cause: Peer, heard: seq<Peer>, queried: seq<Peer>, unreachable: seq<Peer>)

  datatype Conf = Conf(self: Peer, alpha: nat, beta: nat, dist: Peer -> nat, seeds: seq<Peer>) {
    ghost predicate Valid() {
      alpha >= 1
    }
  }

  // ---------------------------------------------------------------- processing an update

  /** Peers heard of are added unless known already; the local peer never is. */
  function AddHeard(m: States, self: Peer, heard: seq<Peer>): States
  {
    if heard == [] then m
    else
      var m1 := AddHeard(m, self, heard[..|heard| - 1]);
      var p := heard[|heard| - 1];
      if p == self || p in m1 then m1 else m1[p := Heard]
  }

  /** Reporting on a peer that is not waiting would panic. */
  predicate CanSettle(m: States, self: Peer, ps: seq<Peer>)
  {
    && (forall i :: 0 <= i < |ps| ==> ps[i] == self || (ps[i] in m && m[ps[i]] == Waiting))
    && (forall i, j :: 0 <= i < j < |ps| ==> ps[i] == self || ps[i] != ps[j])
  }

  function Settle(m: States, self: Peer, ps: seq<Peer>, s: PeerState): States
  {
    if ps == [] then m
    else
      var m1 := Settle(m, self, ps[..|ps| - 1], s);
      if ps[|ps| - 1] == self then m1 else m1[ps[|ps| - 1] := s]
  }

  predicate UpdateOk(m: States, self: Peer, up: Update)
  {
    var m1 := AddHeard(m, self, up.heard);
    CanSettle(m1, self, up.queried) && CanSettle(Settle(m1, self, up.queried, Queried), self, up.unreachable)
  }

  function ApplyUpdate(m: States, self: Peer, up: Update): States
  {
    var m1 := AddHeard(m, self, up.heard);
    Settle(Settle(m1, self, up.queried, Queried), self, up.unreachable, Unreachable)
  }

  // ---------------------------------------------------------------- deciding

  const NOT_UNREACHABLE := {Heard, Waiting, Queried}

  /** Nothing left to query and nothing under way. */
  ghost predicate Starved(m: States)
  {
    InStates(m, {Heard}) == {} && InStates(m, {Waiting}) == {}
  }

  /** The `n` closest peers not found unreachable have all been queried. */
  ghost predicate ClosestQueried(m: States, dist: Peer -> nat, n: nat)
  {
    forall p :: p in Closest(m, dist, n, NOT_UNREACHABLE) ==> p in m && m[p] == Queried
  }

  /** The loop that picks peers to query stops on reaching the limit, so a limit below one picks all. */
  function UpTo(ps: seq<Peer>, limit: int): seq<Peer>
  {
    if 1 <= limit <= |ps| then ps[..limit] else ps
  }

  ghost function NextPeers(conf: Conf, m: States): seq<Peer>
    requires conf.Valid()
  {
    UpTo(InOrder(InStates(m, {Heard}), conf.dist), conf.alpha - |InStates(m, {Waiting})|)
  }

  function MarkWaiting(m: States, ps: seq<Peer>): States
  {
    if ps == [] then m else MarkWaiting(m, ps[..|ps| - 1])[ps[|ps| - 1] := Waiting]
  }

  // ---------------------------------------------------------------- the state machine

  /** `running` are the workers that have not reported, `ch` the channel, `queries` the queries started so
      far, `processed` the updates received. */
  datatype State = State(states: States, running: set<Peer>, ch: seq<Update>, terminated: bool,
                         panicked: bool, processed: nat, queries: seq<Peer>)

  function Init(conf: Conf): State
  {
    State(map[], {}, [Update(conf.self, conf.seeds, [], [])], false, false, 0, [])
  }

  function ToSet(ps: seq<Peer>): set<Peer>
  {
    set p | p in ps
  }

  /** The termination tests, in any turn. */
  ghost predicate Ready(conf: Conf, m: States, stop: bool)
  {
    stop || Starved(m) || ClosestQueried(m, conf.dist, conf.beta)
  }

  /** The second half of a turn: the tests, and the queries if neither they nor a cancellation ended the lookup. */
  ghost function Decide(conf: Conf, s: State, stop: bool): State
    requires conf.Valid()
  {
    if s.terminated || Ready(conf, s.states, stop) then s.(terminated := true)
    else
      var ps := NextPeers(conf, s.states);
      s.(states := MarkWaiting(s.states, ps), running := s.running + ToSet(ps), queries := s.queries + ps)
  }

  /** One turn of the coordinator: take the next update off the channel, process it and decide. */
  ghost function Receive(conf: Conf, s: State, stop: bool): State
    requires conf.Valid() && s.ch != []
  {
    if !UpdateOk(s.states, conf.self, s.ch[0]) then s.(panicked := true)
    else
      Decide(conf, s.(states := ApplyUpdate(s.states, conf.self, s.ch[0]), ch := s.ch[1..],
             processed := s.processed + 1), stop)
  }

  /** The turn of a cancelled coordinator: it ends the lookup first and then still goes through the tests, which pick
      peers to query that are not started. */
  ghost function Cancel(conf: Conf, s: State, stop: bool): State
    requires conf.Valid()
  {
    Decide(conf, s.(terminated := true), stop)
  }

  /** The peers picked by the tests of a turn, started or not. */
  ghost function Picked(conf: Conf, m: States, stop: bool): seq<Peer>
    requires conf.Valid()
  {
    if Ready(conf, m, stop) then [] else NextPeers(conf, m)
  }

  /** A worker's report on its peer: unreachable, or queried with the peers it named. */
  function Report(p: Peer, saw: Option<seq<Peer>>): (u: Update)
    ensures u.cause == p && (p in u.unreachable <==> saw.None?) && (p in u.queried <==> saw.Some?)
    ensures forall q :: q in u.heard <==> saw.Some? && q in saw.value
  {
    if saw.None? then Update(p, [], [], [p]) else Update(p, saw.value, [p], [])
  }

  function Finish(s: State, p: Peer, saw: Option<seq<Peer>>): State
  {
    s.(running := s.running - {p}, ch := s.ch + [Report(p, saw)])
  }

  /** A worker sends only if the channel has room; a cancelled coordinator stops receiving. Workers go on
      after the coordinator has stopped. All peers named come from `universe`. */
  ghost predicate Step(conf: Conf, universe: set<Peer>, s: State, t: State)
    requires conf.Valid()
  {
    || (!s.terminated && !s.panicked && s.ch != [] && (t == Receive(conf, s, true) || t == Receive(conf, s, false)))
    || (!s.terminated && !s.panicked && (t == Cancel(conf, s, true) || t == Cancel(conf, s, false)))
    || (exists p, saw: Option<seq<Peer>> ::
          && p in s.running && |s.ch| < conf.alpha
          && (saw.Some? ==> forall q :: q in saw.value ==> q in universe)
          && t == Finish(s, p, saw))
  }

  // ---------------------------------------------------------------- the invariant

  predicate IsReport(u: Update)
  {
    (u.queried == [u.cause] && u.unreachable == []) || (u.queried == [] && u.unreachable == [u.cause])
  }

  function Causes(ch: seq<Update>): set<Peer>
  {
    set u | u in ch :: u.cause
  }

  ghost predicate DistinctCauses(ch: seq<Update>)
  {
    forall i, j :: 0 <= i < j < |ch| ==> ch[i].cause != ch[j].cause
  }

  ghost predicate NoRepeats(ps: seq<Peer>)
  {
    forall i, j :: 0 <= i < j < |ps| ==> ps[i] != ps[j]
  }

  /** The peers waited for are exactly those whose worker runs or whose report is queued. */
  ghost predicate InFlight(m: States, running: set<Peer>, ch: seq<Update>)
  {
    && (forall u :: u in ch ==> IsReport(u))
    && DistinctCauses(ch)
    && running !! Causes(ch)
    && InStates(m, {Waiting}) == running + Causes(ch)
  }

  /** The queries started are those to the peers beyond the heard state, each started once. */
  ghost predicate QueriesMatch(m: States, queries: seq<Peer>)
  {
    NoRepeats(queries) && forall p :: p in queries <==> p in m && m[p] != Heard
  }

  ghost predicate Known(conf: Conf, universe: set<Peer>, m: States, ch: seq<Update>)
  {
    && conf.self !in m && m.Keys <= universe
    && (forall u :: u in ch ==> forall q :: q in u.heard ==> q in universe)
  }

  ghost predicate Inv(conf: Conf, universe: set<Peer>, s: State)
  {
    && !s.panicked
    && |s.running| + |s.ch| <= conf.alpha
    && Known(conf, universe, s.states, s.ch)
    && QueriesMatch(s.states, s.queries)
    && (!s.terminated ==> s.running != {} || s.ch != [])
    && if s.processed == 0
       then s.states == map[] && s.running == {} && s.ch == [Update(conf.self, conf.seeds, [], [])]
       else InFlight(s.states, s.running, s.ch) && s.processed == 1 + |InStates(s.states, {Queried, Unreachable})|
  }
}
