/**
 The gradual start of test instances. Instance `s` belongs to a turn, waits at a barrier until a shared
 counter shows that enough instances of the turn before have started, starts, and then adds itself to the
 counter of the turn after.
 */
module Staging {
  import opened Collections

  datatype Gradual = Linear(slope: nat) | Exponential
  {
    predicate Valid()
    {
      Linear? ==> slope > 0
    }
  }

  function Log2(n: nat): nat
  {
    if n < 2 then 0 else 1 + Log2(n / 2)
  }

  function Turn(g: Gradual, s: nat): nat
    requires g.Valid()
  {
    match g
    case Linear(slope) => s / slope
    case Exponential => if s == 0 then 0 else if s == 1 then 1 else Log2(s) + 1
  }

  /** How many instances of the turn before must have started. */
  function WaitFor(g: Gradual, s: nat): nat
    requires g.Valid()
  {
    match g
    case Linear(slope) => if Turn(g, s) == 0 then 0 else slope
    case Exponential => if s == 0 then 0 else if s == 1 then 1 else Pow2(Log2(s) + 1 - 2)
  }

  // ---------------------------------------------------------------- turns are intervals

  /** The first instance of a turn. */
  function First(g: Gradual, t: nat): nat
  {
    match g
    case Linear(slope) => t * slope
    case Exponential => if t == 0 then 0 else Pow2(t - 1)
  }

  lemma {:induction false} Log2Range(n: nat, k: nat)
    requires n >= 1
    ensures Log2(n) == k <==> Pow2(k) <= n < Pow2(k + 1)
  {
    if n >= 2 {
      if k > 0 {
        Log2Range(n / 2, k - 1);
        assert Pow2(k) == 2 * Pow2(k - 1) && Pow2(k + 1) == 2 * Pow2(k);
      }
    } else if k > 0 {
      assert Pow2(k) >= 2;
    }
  }

  lemma {:induction false} DivRange(s: nat, m: nat, t: nat)
    requires m > 0
    ensures s / m == t <==> t * m <= s < (t + 1) * m
  {
    var q := s / m;
    assert s == q * m + s % m;
    if q < t {
      assert (q + 1) * m <= t * m;
    } else if q > t {
      assert (t + 1) * m <= q * m;
    }
  }

  lemma {:induction false} TurnIsInterval(g: Gradual, s: nat, t: nat)
    requires g.Valid()
    ensures Turn(g, s) == t <==> First(g, t) <= s < First(g, t + 1)
  {
    match g
    case Linear(slope) => DivRange(s, slope, t);
    case Exponential =>
      if s >= 1 && t >= 1 {
        Log2Range(s, t - 1);
      }
  }

  /** The number waited for is the size of the turn before. */
  lemma {:induction false} WaitsForPreviousTurn(g: Gradual, s: nat)
    requires g.Valid()
    ensures WaitFor(g, s) == if Turn(g, s) == 0 then 0 else First(g, Turn(g, s)) - First(g, Turn(g, s) - 1)
  {
    match g
    case Linear(slope) =>
      if Turn(g, s) > 0 {
        NextMultiple(Turn(g, s), slope);
      }
    case Exponential =>
      if s >= 2 {
        assert Log2(s) >= 1;
        assert Pow2(Log2(s)) == 2 * Pow2(Log2(s) - 1);
      }
  }

  lemma {:induction false} NextMultiple(t: nat, m: nat)
    requires t > 0
    ensures t * m - (t - 1) * m == m
  {
  }

  // ---------------------------------------------------------------- counting a turn

  /** The instances of turn `t` among the first `n`. */
  ghost function Members(g: Gradual, t: nat, n: nat): set<nat>
    requires g.Valid()
  {
    if n == 0 then {}
    else Members(g, t, n - 1) + (if Turn(g, n - 1) == t then {n - 1} else {})
  }

  lemma {:induction false} MembersAre(g: Gradual, t: nat, n: nat, s: nat)
    requires g.Valid()
    ensures s in Members(g, t, n) <==> s < n && Turn(g, s) == t
  {
    if n > 0 {
      MembersAre(g, t, n - 1, s);
    }
  }

  function Clamp(x: int): nat
  {
    if x < 0 then 0 else x
  }

  lemma {:induction false} TurnSize(g: Gradual, t: nat, n: nat)
    requires g.Valid()
    ensures |Members(g, t, n)| == Clamp((if n < First(g, t + 1) then n else First(g, t + 1)) - First(g, t))
  {
    hide Turn, First, Members;
    FirstMonotone(g, t);
    MembersCount(g, t, n);
    if n > 0 {
      TurnSize(g, t, n - 1);
      TurnIsInterval(g, n - 1, t);
    }
  }

  lemma {:induction false} MembersCount(g: Gradual, t: nat, n: nat)
    requires g.Valid()
    ensures |Members(g, t, n)| == if n == 0 then 0 else |Members(g, t, n - 1)| + (if Turn(g, n - 1) == t then 1 else 0)
  {
    hide Turn;
    if n > 0 {
      MembersAre(g, t, n - 1, n - 1);
    }
  }

  /** How many of `n` instances a turn has, `n` reaching beyond it: the slope under linear staging, and one, one, two,
      four and so on under exponential staging. */
  lemma {:induction false} FullTurnSize(g: Gradual, t: nat, n: nat)
    requires g.Valid() && First(g, t + 1) <= n
    ensures g.Linear? ==> |Members(g, t, n)| == g.slope
    ensures g.Exponential? ==> |Members(g, t, n)| == if t == 0 then 1 else Pow2(t - 1)
  {
    TurnSize(g, t, n);
    if g.Linear? {
      NextMultiple(t + 1, g.slope);
    }
  }

  lemma {:induction false} FirstMonotone(g: Gradual, t: nat)
    ensures First(g, t) <= First(g, t + 1)
  {
    if g.Linear? {
      NextMultiple(t + 1, g.slope);
    }
  }

  // ---------------------------------------------------------------- the protocol

  /** Who has passed the barrier, who has announced it, and the shared counters. */
  datatype State = State(passed: set<nat>, announced: set<nat>, counter: map<nat, nat>)

  function Count(st: State, t: nat): nat
  {
    if t in st.counter then st.counter[t] else 0
  }

  datatype Event = Pass(s: nat) | Announce(s: nat)

  predicate Enabled(g: Gradual, n: nat, st: State, e: Event)
    requires g.Valid()
  {
    match e
    case Pass(s) => s < n && s !in st.passed && Count(st, Turn(g, s)) >= WaitFor(g, s)
    case Announce(s) => s in st.passed && s !in st.announced
  }

  function Next(g: Gradual, st: State, e: Event): State
    requires g.Valid()
  {
    match e
    case Pass(s) => st.(passed := st.passed + {s})
    case Announce(s) =>
      var t := Turn(g, s) + 1;
      State(st.passed, st.announced + {s}, st.counter[t := Count(st, t) + 1])
  }

  const START := State({}, {}, map[])

  /** Each counter is the number of instances of the turn before that have announced themselves. */
  ghost predicate CountsOk(g: Gradual, n: nat, st: State)
    requires g.Valid()
  {
    && Count(st, 0) == 0
    && forall t: nat :: Count(st, t + 1) == |st.announced * Members(g, t, n)|
  }

  /** Whoever has passed had the whole turn before announced. */
  ghost predicate Ordered(g: Gradual, n: nat, st: State)
    requires g.Valid()
  {
    forall s: nat, r: nat :: s in st.passed && r < n && Turn(g, s) == Turn(g, r) + 1 ==> r in st.announced
  }

  ghost predicate Inv(g: Gradual, n: nat, st: State)
    requires g.Valid()
  {
    && st.announced <= st.passed && (forall s :: s in st.passed ==> s < n)
    && CountsOk(g, n, st) && Ordered(g, n, st)
  }

  lemma {:induction false} StartInv(g: Gradual, n: nat)
    requires g.Valid()
    ensures Inv(g, n, START)
  {
    forall t: nat
      ensures Count(START, t + 1) == |START.announced * Members(g, t, n)|
    {
      assert START.announced * Members(g, t, n) == {};
    }
  }

  lemma {:induction false} SubsetOfSameSize(a: set<nat>, b: set<nat>)
    requires a <= b && |a| >= |b|
    ensures a == b
  {
    if x :| x in b && x !in a {
      assert |b - {x}| == |b| - 1;
      SubsetSize(a, b - {x});
    }
  }

  /** An open barrier means that the whole turn before has announced itself. */
  lemma {:induction false} OpenMeansComplete(g: Gradual, n: nat, st: State, s: nat, r: nat)
    requires g.Valid() && Inv(g, n, st) && s < n && Count(st, Turn(g, s)) >= WaitFor(g, s)
    requires r < n && Turn(g, s) == Turn(g, r) + 1
    ensures r in st.announced
  {
    hide Turn, WaitFor, First, Count, Members;
    var t := Turn(g, r);
    var all := Members(g, t, n);
    WaitsForPreviousTurn(g, s);
    TurnIsInterval(g, s, t + 1);
    FirstMonotone(g, t);
    TurnSize(g, t, n);
    SubsetOfSameSize(st.announced * all, all);
    MembersAre(g, t, n, r);
    assert r in st.announced * all;
  }

  lemma {:induction false} PassInv(g: Gradual, n: nat, st: State, s: nat)
    requires g.Valid() && Inv(g, n, st) && Enabled(g, n, st, Pass(s))
    ensures Inv(g, n, Next(g, st, Pass(s)))
  {
    hide Turn, WaitFor, Members;
    var u := Next(g, st, Pass(s));
    forall r: nat | r < n && Turn(g, s) == Turn(g, r) + 1
      ensures r in st.announced
    {
      OpenMeansComplete(g, n, st, s, r);
    }
    assert CountsOk(g, n, u) by {
      forall t: nat
        ensures Count(u, t + 1) == |u.announced * Members(g, t, n)|
      {
        assert Count(st, t + 1) == |st.announced * Members(g, t, n)|;
      }
    }
  }

  lemma {:induction false} AnnounceCounts(g: Gradual, n: nat, st: State, s: nat)
    requires g.Valid() && CountsOk(g, n, st) && s < n && s !in st.announced
    ensures CountsOk(g, n, Next(g, st, Announce(s)))
  {
    hide Turn, Members;
    var u := Next(g, st, Announce(s));
    forall t: nat
      ensures Count(u, t + 1) == |u.announced * Members(g, t, n)|
    {
      MembersAre(g, t, n, s);
      assert Count(st, t + 1) == |st.announced * Members(g, t, n)|;
      var was := st.announced * Members(g, t, n);
      if Turn(g, s) == t {
        assert u.announced * Members(g, t, n) == was + {s};
      } else {
        assert u.announced * Members(g, t, n) == was;
      }
    }
  }

  lemma {:induction false} NextInv(g: Gradual, n: nat, st: State, e: Event)
    requires g.Valid() && Inv(g, n, st) && Enabled(g, n, st, e)
    ensures Inv(g, n, Next(g, st, e))
  {
    hide Turn, CountsOk, WaitFor;
    match e
    case Pass(s) => PassInv(g, n, st, s);
    case Announce(s) => AnnounceCounts(g, n, st, s);
  }

  ghost predicate IsRun(g: Gradual, n: nat, sts: seq<State>, es: seq<Event>)
    requires g.Valid()
  {
    && |sts| == |es| + 1 && sts[0] == START
    && forall i :: 0 <= i < |es| ==> Enabled(g, n, sts[i], es[i]) && sts[i + 1] == Next(g, sts[i], es[i])
  }

  lemma {:induction false} RunInv(g: Gradual, n: nat, sts: seq<State>, es: seq<Event>, i: nat)
    requires g.Valid() && IsRun(g, n, sts, es) && i <= |es|
    ensures Inv(g, n, sts[i])
  {
    hide Inv, Enabled, Next;
    if i == 0 {
      StartInv(g, n);
    } else {
      RunInv(g, n, sts, es, i - 1);
      NextInv(g, n, sts[i - 1], es[i - 1]);
    }
  }

  /** In every interleaving, no instance starts before all instances of the turn before have started. */
  lemma {:induction false} TurnsInOrder(g: Gradual, n: nat, sts: seq<State>, es: seq<Event>, i: nat, s: nat, r: nat)
    requires g.Valid() && IsRun(g, n, sts, es) && i <= |es|
    requires s in sts[i].passed && r < n && Turn(g, s) == Turn(g, r) + 1
    ensures r in sts[i].passed
  {
    hide Turn, CountsOk, IsRun;
    RunInv(g, n, sts, es, i);
  }

  // ---------------------------------------------------------------- progress

  lemma {:induction false} SmallestWaiting(n: nat, passed: set<nat>) returns (s: nat)
    requires exists r: nat :: r < n && r !in passed
    ensures s < n && s !in passed && forall r: nat :: r < s ==> r in passed
  {
    var r: nat :| r < n && r !in passed;
    s := Descend(r, passed);
  }

  lemma {:induction false} Descend(r: nat, passed: set<nat>) returns (s: nat)
    requires r !in passed
    ensures s <= r && s !in passed && forall q: nat :: q < s ==> q in passed
    decreases r
  {
    s := r;
    if q: nat :| q < r && q !in passed {
      s := Descend(q, passed);
    }
  }

  /** Once all that have started have announced it, the lowest waiting instance can start. */
  lemma {:induction false} LowestCanPass(g: Gradual, n: nat, st: State, s: nat)
    requires g.Valid() && Inv(g, n, st) && st.announced == st.passed
    requires s < n && s !in st.passed && forall r: nat :: r < s ==> r in st.passed
    ensures Enabled(g, n, st, Pass(s))
  {
    hide Turn, WaitFor, First, Members;
    WaitsForPreviousTurn(g, s);
    if Turn(g, s) > 0 {
      var t := Turn(g, s) - 1;
      var all := Members(g, t, n);
      TurnIsInterval(g, s, t + 1);
      FirstMonotone(g, t);
      TurnSize(g, t, n);
      forall r | r in all
        ensures r in st.announced
      {
        MembersAre(g, t, n, r);
        TurnIsInterval(g, r, t);
      }
      assert st.announced * all == all;
      assert Count(st, t + 1) == |st.announced * all|;
    }
  }

  /** No state of a run is stuck before every instance has started and announced it. */
  lemma {:induction false} NeverStuck(g: Gradual, n: nat, sts: seq<State>, es: seq<Event>, i: nat) returns (e: Event)
    requires g.Valid() && IsRun(g, n, sts, es) && i <= |es|
    requires exists r: nat :: r < n && r !in sts[i].announced
    ensures Enabled(g, n, sts[i], e)
  {
    hide Turn, WaitFor, CountsOk, Next;
    RunInv(g, n, sts, es, i);
    var st := sts[i];
    if s :| s in st.passed && s !in st.announced {
      e := Announce(s);
    } else {
      assert st.announced == st.passed;
      var s := SmallestWaiting(n, st.passed);
      LowestCanPass(g, n, st, s);
      e := Pass(s);
    }
  }

  /** Each instance takes two steps and no more, so that every run ends. */
  lemma {:induction false} RunIsBounded(g: Gradual, n: nat, sts: seq<State>, es: seq<Event>, i: nat)
    requires g.Valid() && IsRun(g, n, sts, es) && i <= |es|
    ensures i == |sts[i].passed| + |sts[i].announced| <= 2 * n
  {
    hide Turn, WaitFor, CountsOk;
    RunInv(g, n, sts, es, i);
    AtMost(sts[i].passed, n);
    AtMost(sts[i].announced, n);
    if i > 0 {
      RunIsBounded(g, n, sts, es, i - 1);
      assert Enabled(g, n, sts[i - 1], es[i - 1]);
    }
  }

}
