/**
 Choosing the best of the values received for a key: a loop over a stream of values that keeps the best so
 far and who sent it, emits each improvement, and stops the query once enough responses have come.
 */
module BestValue {
  import opened Wrappers
  import opened Keyspace

  type Bytes = string

  /** A received value may be nil, which compares like empty bytes but counts as no value yet. */
  datatype Val = Nil | Real(b: Bytes)
  {
    function Content(): Bytes
    {
      if Nil? then "" else b
    }
  }

  datatype Received = Received(val: Val, from: Peer)

  /** The validator's choice between the best so far and a new value: 1 takes the new one; it may fail. */
  type Select = (Bytes, Bytes) -> Option<int>

  datatype State = State(best: Val, peersWithBest: set<Peer>, responses: nat, emitted: seq<Val>, stops: nat, aborted: bool)

  const START := State(Nil, {}, 0, [], 0, false)

  /** A response is counted, emitted if better, and the query stopped when there are more than `nvals`. */
  function NewVal(st: State, v: Received, better: bool, nvals: nat): State
  {
    var n := st.responses + 1;
    var stop := nvals > 0 && n > nvals;
    st.(responses := n, emitted := if better then st.emitted + [v.val] else st.emitted,
    stops := if stop then st.stops + 1 else st.stops, aborted := stop)
  }

  datatype Verdict = Same | Failed | NotBetter | Better

  function Judge(best: Val, v: Val, select: Select): Verdict
  {
    if best.Nil? then Better
    else if best.b == v.Content() then Same
    else
      match select(best.b, v.Content())
      case None => Failed
      case Some(i) => if i == 1 then Better else NotBetter
  }

  function Process(st: State, v: Received, nvals: nat, select: Select): State
  {
    match Judge(st.best, v.val, select)
    case Same => NewVal(st.(peersWithBest := st.peersWithBest + {v.from}), v, false, nvals)
    case Failed => st
    case NotBetter => NewVal(st, v, false, nvals)
    case Better => NewVal(st.(best := v.val, peersWithBest := {v.from}), v, true, nvals)
  }

  /** The state after the stream `vs`; nothing is received once the query has been stopped. */
  function Consume(vs: seq<Received>, nvals: nat, select: Select): State
  {
    if vs == [] then START
    else
      var st := Consume(vs[..|vs| - 1], nvals, select);
      if st.aborted then st else Process(st, vs[|vs| - 1], nvals, select)
  }

  /** The loop itself, over a stream that ends or is cut off. */
  method ProcessValues(vs: seq<Received>, nvals: nat, select: Select) returns (st: State)
    ensures st == Consume(vs, nvals, select)
  {
    var best, peersWithBest, aborted := Nil, {}, false;
    var responses, emitted, stops := 0, [], 0;
    var i := 0;
    while i < |vs| && !aborted
      invariant 0 <= i <= |vs|
      invariant State(best, peersWithBest, responses, emitted, stops, aborted) == Consume(vs[..i], nvals, select)
      decreases |vs| - i
    {
      var v := vs[i];
      assert vs[..i + 1][..i] == vs[..i];
      i := i + 1;
      var better := true;
      if best.Real? {
        if best.b == v.val.Content() {
          peersWithBest := peersWithBest + {v.from};
          better := false;
        } else {
          var sel := select(best.b, v.val.Content());
          if sel.None? {
            continue;
          }
          better := sel.value == 1;
        }
      }
      if better {
        peersWithBest := {v.from};
        best := v.val;
        emitted := emitted + [v.val];
      }
      responses := responses + 1;
      if nvals > 0 && responses > nvals {
        stops := stops + 1;
        aborted := true;
      }
    }
    st := State(best, peersWithBest, responses, emitted, stops, aborted);
    AfterAbort(vs, i, nvals, select);
  }

  lemma {:induction false} AfterAbort(vs: seq<Received>, i: nat, nvals: nat, select: Select)
    requires i <= |vs| && (i == |vs| || Consume(vs[..i], nvals, select).aborted)
    ensures Consume(vs, nvals, select) == Consume(vs[..i], nvals, select)
    decreases |vs|
  {
    if i == |vs| {
      assert vs[..i] == vs;
    } else {
      var init := vs[..|vs| - 1];
      assert init[..i] == vs[..i];
      AfterAbort(init, i, nvals, select);
    }
  }

  // ---------------------------------------------------------------- quorum

  /** The query is stopped exactly at response `nvals + 1`, once, and never when no number was asked for. */
  lemma {:induction false} StopsOnceAtQuorum(vs: seq<Received>, nvals: nat, select: Select)
    ensures var st := Consume(vs, nvals, select);
            && (st.aborted <==> nvals > 0 && st.responses == nvals + 1)
            && (nvals > 0 ==> st.responses <= nvals + 1)
            && st.stops == (if st.aborted then 1 else 0)
  {
    if vs != [] {
      StopsOnceAtQuorum(vs[..|vs| - 1], nvals, select);
    }
  }

  /** Unless stopped, every value is a response if the validator never fails. */
  lemma {:induction false} EveryValueCounts(vs: seq<Received>, nvals: nat, select: Select)
    requires forall a, b :: select(a, b).Some?
    ensures var st := Consume(vs, nvals, select); st.responses <= |vs| && (!st.aborted ==> st.responses == |vs|)
  {
    if vs != [] {
      EveryValueCounts(vs[..|vs| - 1], nvals, select);
    }
  }

  // ---------------------------------------------------------------- the best value

  /** The values weighed against each other: from the first that is not nil, while the query goes on, and
      without those on which the validator failed. */
  ghost function Weighed(vs: seq<Received>, nvals: nat, select: Select): seq<Received>
  {
    if vs == [] then []
    else
      var init, v := vs[..|vs| - 1], vs[|vs| - 1];
      var st := Consume(init, nvals, select);
      if st.aborted || (st.best.Nil? && v.val.Nil?) || Judge(st.best, v.val, select).Failed?
      then Weighed(init, nvals, select)
      else Weighed(init, nvals, select) + [v]
  }

  ghost predicate TotalPreorder(leq: (Bytes, Bytes) -> bool)
  {
    && (forall a, b :: leq(a, b) || leq(b, a))
    && (forall a, b, c :: leq(a, b) && leq(b, c) ==> leq(a, c))
  }

  /** The validator takes the new value just when it is strictly better, so that ties are kept. */
  ghost predicate Obeys(select: Select, leq: (Bytes, Bytes) -> bool)
  {
    TotalPreorder(leq) && forall a, b :: select(a, b).Some? ==> (select(a, b).value == 1 <==> !leq(b, a))
  }

  /** The content is the best of the values, some value has it, and the peers are exactly its senders. */
  ghost predicate IsBest(b: Bytes, peers: set<Peer>, ws: seq<Received>, leq: (Bytes, Bytes) -> bool)
  {
    && (forall i :: 0 <= i < |ws| ==> leq(ws[i].val.Content(), b))
    && (forall i :: 0 <= i < |ws| && ws[i].val.Content() == b ==> ws[i].from in peers)
    && (forall p :: p in peers ==> exists i :: 0 <= i < |ws| && ws[i].from == p && ws[i].val.Content() == b)
    && peers != {}
  }

  lemma {:induction false} BestStays(b: Bytes, peers: set<Peer>, ws: seq<Received>, v: Received, leq: (Bytes, Bytes) -> bool)
    requires IsBest(b, peers, ws, leq) && leq(v.val.Content(), b)
    ensures IsBest(b, if v.val.Content() == b then peers + {v.from} else peers, ws + [v], leq)
  {
    var qs := if v.val.Content() == b then peers + {v.from} else peers;
    var xs := ws + [v];
    forall p | p in qs
      ensures exists i :: 0 <= i < |xs| && xs[i].from == p && xs[i].val.Content() == b
    {
      if p in peers {
        var i :| 0 <= i < |ws| && ws[i].from == p && ws[i].val.Content() == b;
        assert xs[i] == ws[i];
      } else {
        assert xs[|ws|] == v;
      }
    }
  }

  lemma {:induction false} BestChanges(b: Bytes, peers: set<Peer>, ws: seq<Received>, v: Received, leq: (Bytes, Bytes) -> bool)
    requires TotalPreorder(leq) && IsBest(b, peers, ws, leq) && !leq(v.val.Content(), b)
    ensures IsBest(v.val.Content(), {v.from}, ws + [v], leq)
  {
    var xs, c := ws + [v], v.val.Content();
    assert leq(b, c) && leq(c, c);
    assert xs[|ws|] == v;
    forall i | 0 <= i < |ws|
      ensures leq(xs[i].val.Content(), c) && xs[i].val.Content() != c
    {
      assert xs[i] == ws[i];
      assert leq(ws[i].val.Content(), b);
    }
  }

  lemma {:induction false} FirstIsBest(v: Received, leq: (Bytes, Bytes) -> bool)
    requires TotalPreorder(leq)
    ensures IsBest(v.val.Content(), {v.from}, [v], leq)
  {
    assert [v][0] == v;
  }

  /** The state is right about the values weighed: there is no best only if there were none. */
  ghost predicate Sound(st: State, ws: seq<Received>, leq: (Bytes, Bytes) -> bool)
  {
    if st.best.Nil? then ws == [] else IsBest(st.best.b, st.peersWithBest, ws, leq)
  }

  /** A nil value is preferred to the best so far: it takes its place and leaves no best at all. */
  predicate NilWins(st: State, v: Received, select: Select)
  {
    !st.aborted && st.best.Real? && v.val.Nil? && Judge(st.best, v.val, select).Better?
  }

  ghost predicate NilNeverWins(vs: seq<Received>, nvals: nat, select: Select)
  {
    forall i :: 0 <= i < |vs| ==> !NilWins(Consume(vs[..i], nvals, select), vs[i], select)
  }

  lemma {:induction false} NilNeverWonBefore(vs: seq<Received>, nvals: nat, select: Select, k: nat)
    requires NilNeverWins(vs, nvals, select) && k <= |vs|
    ensures NilNeverWins(vs[..k], nvals, select)
  {
    forall i | 0 <= i < k
      ensures !NilWins(Consume(vs[..k][..i], nvals, select), vs[..k][i], select)
    {
      assert vs[..k][..i] == vs[..i];
    }
  }

  /** Unless a nil value ever wins, the final best value is maximal over all values weighed, and the peers kept
      with it are exactly the senders of that value. */
  lemma {:induction false} FinalIsBest(vs: seq<Received>, nvals: nat, select: Select, leq: (Bytes, Bytes) -> bool)
    requires Obeys(select, leq) && NilNeverWins(vs, nvals, select)
    ensures Sound(Consume(vs, nvals, select), Weighed(vs, nvals, select), leq)
  {
    hide IsBest, TotalPreorder, NilNeverWins;
    if vs != [] {
      var init, v := vs[..|vs| - 1], vs[|vs| - 1];
      NilNeverWonBefore(vs, nvals, select, |vs| - 1);
      FinalIsBest(init, nvals, select, leq);
      var st := Consume(init, nvals, select);
      if !st.aborted {
        LastNilLoses(vs, nvals, select);
        BestStep(st, v, nvals, select, leq, Weighed(init, nvals, select));
      }
    }
  }

  lemma {:induction false} LastNilLoses(vs: seq<Received>, nvals: nat, select: Select)
    requires vs != [] && NilNeverWins(vs, nvals, select)
    ensures !NilWins(Consume(vs[..|vs| - 1], nvals, select), vs[|vs| - 1], select)
  {
  }

  lemma {:induction false} BestStep(st: State, v: Received, nvals: nat, select: Select, leq: (Bytes, Bytes) -> bool, ws: seq<Received>)
    requires Obeys(select, leq) && Sound(st, ws, leq) && !st.aborted && !NilWins(st, v, select)
    ensures var xs := if (st.best.Nil? && v.val.Nil?) || Judge(st.best, v.val, select).Failed? then ws else ws + [v];
            Sound(Process(st, v, nvals, select), xs, leq)
  {
    hide IsBest, TotalPreorder;
    var c := v.val.Content();
    if st.best.Nil? {
      FirstIsBest(v, leq);
      assert ws + [v] == [v];
    } else {
      match Judge(st.best, v.val, select) {
        case Same =>
          Reflexive(leq, c);
          BestStays(st.best.b, st.peersWithBest, ws, v, leq);
        case Failed =>
        case NotBetter =>
          BestStays(st.best.b, st.peersWithBest, ws, v, leq);
        case Better =>
          BestChanges(st.best.b, st.peersWithBest, ws, v, leq);
      }
    }
  }

  /** The best value is right throughout the stream exactly if no nil value ever wins. */
  lemma {:induction false} SoundIffNilNeverWins(vs: seq<Received>, nvals: nat, select: Select, leq: (Bytes, Bytes) -> bool)
    requires Obeys(select, leq)
    ensures (forall k :: 0 <= k <= |vs| ==> Sound(Consume(vs[..k], nvals, select), Weighed(vs[..k], nvals, select), leq))
       <==> NilNeverWins(vs, nvals, select)
  {
    hide IsBest, TotalPreorder, NilWins, NilNeverWins;
    if NilNeverWins(vs, nvals, select) {
      forall k | 0 <= k <= |vs|
        ensures Sound(Consume(vs[..k], nvals, select), Weighed(vs[..k], nvals, select), leq)
      {
        NilNeverWonBefore(vs, nvals, select, k);
        FinalIsBest(vs[..k], nvals, select, leq);
      }
    } else {
      var i := SomeNilWins(vs, nvals, select);
      UnsoundAfterNil(vs[..i + 1], nvals, select, leq);
    }
  }

  lemma {:induction false} SomeNilWins(vs: seq<Received>, nvals: nat, select: Select) returns (i: nat)
    requires !NilNeverWins(vs, nvals, select)
    ensures i < |vs| && NilWins(Consume(vs[..i + 1][..i], nvals, select), vs[..i + 1][i], select)
  {
    i :| 0 <= i < |vs| && NilWins(Consume(vs[..i], nvals, select), vs[i], select);
    assert vs[..i + 1][..i] == vs[..i];
  }

  lemma {:induction false} UnsoundAfterNil(vs: seq<Received>, nvals: nat, select: Select, leq: (Bytes, Bytes) -> bool)
    requires vs != [] && NilWins(Consume(vs[..|vs| - 1], nvals, select), vs[|vs| - 1], select)
    ensures !Sound(Consume(vs, nvals, select), Weighed(vs, nvals, select), leq)
  {
  }

  /** In the streams the search sees only the local record, which comes first, can be nil. */
  lemma {:induction false} NilFirstNeverWins(vs: seq<Received>, nvals: nat, select: Select)
    requires forall i :: 0 < i < |vs| ==> vs[i].val.Real?
    ensures NilNeverWins(vs, nvals, select)
  {
  }

  // ---------------------------------------------------------------- the condition on the stream itself

  /** Value `i` is received before the query is stopped. */
  predicate Taken(i: nat, nvals: nat)
  {
    nvals == 0 || i <= nvals
  }

  /** If value `i` is received and nil, it comes before all real values or after one that empty bytes do not beat. */
  ghost predicate NilIsDominated(vs: seq<Received>, nvals: nat, leq: (Bytes, Bytes) -> bool, i: nat)
    requires i < |vs|
  {
    Taken(i, nvals) && vs[i].val.Nil? && (exists j :: 0 <= j < i && vs[j].val.Real?) ==>
      exists j :: 0 <= j < i && vs[j].val.Real? && leq("", vs[j].val.b)
  }

  ghost predicate NilsAreDominated(vs: seq<Received>, nvals: nat, leq: (Bytes, Bytes) -> bool)
  {
    forall i :: 0 <= i < |vs| ==> NilIsDominated(vs, nvals, leq, i)
  }

  lemma {:induction false} StoppedIff(vs: seq<Received>, nvals: nat, select: Select)
    requires forall a, b :: select(a, b).Some?
    ensures Consume(vs, nvals, select).aborted <==> !Taken(|vs|, nvals)
  {
    StopsOnceAtQuorum(vs, nvals, select);
    EveryValueCounts(vs, nvals, select);
  }

  /** The best value was received, and no real value received is better. */
  ghost predicate Tops(st: State, vs: seq<Received>, leq: (Bytes, Bytes) -> bool)
  {
    && (forall j :: 0 <= j < |vs| && vs[j].val.Real? ==> st.best.Real? && leq(vs[j].val.b, st.best.b))
    && (st.best.Real? ==> exists j :: 0 <= j < |vs| && vs[j].val == st.best)
  }

  lemma {:induction false} BestTops(vs: seq<Received>, nvals: nat, select: Select, leq: (Bytes, Bytes) -> bool)
    requires Obeys(select, leq) && NilNeverWins(vs, nvals, select) && forall a, b :: select(a, b).Some?
    ensures !Consume(vs, nvals, select).aborted ==> Tops(Consume(vs, nvals, select), vs, leq)
  {
    hide NilNeverWins, Tops, TotalPreorder;
    if vs == [] {
      NothingTops(leq);
    } else {
      var init, v := vs[..|vs| - 1], vs[|vs| - 1];
      NilNeverWonBefore(vs, nvals, select, |vs| - 1);
      BestTops(init, nvals, select, leq);
      LastNilLoses(vs, nvals, select);
      var st := Consume(init, nvals, select);
      assert vs == init + [v];
      if !st.aborted {
        TopsStep(st, init, v, nvals, select, leq);
      }
    }
  }

  lemma {:induction false} NothingTops(leq: (Bytes, Bytes) -> bool)
    ensures Tops(START, [], leq)
  {
  }

  lemma {:induction false} TopsStep(st: State, init: seq<Received>, v: Received, nvals: nat, select: Select,
                                    leq: (Bytes, Bytes) -> bool)
    requires Obeys(select, leq) && Tops(st, init, leq) && !st.aborted && !NilWins(st, v, select)
    requires forall a, b :: select(a, b).Some?
    ensures Tops(Process(st, v, nvals, select), init + [v], leq)
  {
    var n, vs := Process(st, v, nvals, select), init + [v];
    if v.val.Real? {
      Reflexive(leq, v.val.b);
    }
    forall j | 0 <= j < |vs| && vs[j].val.Real?
      ensures n.best.Real? && leq(vs[j].val.b, n.best.b)
    {
      assert j < |init| ==> vs[j] == init[j];
    }
    if n.best.Real? {
      if n.best == v.val {
        assert vs[|init|] == v;
      } else {
        var j :| 0 <= j < |init| && init[j].val == st.best;
        assert vs[j] == init[j];
      }
    }
  }

  lemma {:induction false} LastWinsIff(vs: seq<Received>, nvals: nat, select: Select, leq: (Bytes, Bytes) -> bool)
    requires Obeys(select, leq) && vs != [] && forall a, b :: select(a, b).Some?
    requires NilNeverWins(vs[..|vs| - 1], nvals, select)
    ensures !NilWins(Consume(vs[..|vs| - 1], nvals, select), vs[|vs| - 1], select) <==> NilIsDominated(vs, nvals, leq, |vs| - 1)
  {
    hide NilNeverWins, Consume, TotalPreorder;
    var init, v := vs[..|vs| - 1], vs[|vs| - 1];
    var st := Consume(init, nvals, select);
    StoppedIff(init, nvals, select);
    BestTops(init, nvals, select, leq);
    if !st.aborted && v.val.Nil? && st.best.Real? {
      BeatenIff(st, init, leq);
      Reflexive(leq, "");
      assert forall j :: 0 <= j < |init| ==> vs[j] == init[j];
    }
  }

  /** Empty bytes do not beat the best value exactly if there is a real value they do not beat. */
  lemma {:induction false} BeatenIff(st: State, vs: seq<Received>, leq: (Bytes, Bytes) -> bool)
    requires TotalPreorder(leq) && Tops(st, vs, leq) && st.best.Real?
    ensures leq("", st.best.b) <==> exists j :: 0 <= j < |vs| && vs[j].val.Real? && leq("", vs[j].val.b)
    ensures exists j :: 0 <= j < |vs| && vs[j].val.Real?
  {
  }

  lemma {:induction false} DominatedInit(vs: seq<Received>, nvals: nat, leq: (Bytes, Bytes) -> bool, i: nat)
    requires i < |vs| - 1
    ensures NilIsDominated(vs[..|vs| - 1], nvals, leq, i) <==> NilIsDominated(vs, nvals, leq, i)
  {
    assert forall j :: 0 <= j <= i ==> vs[..|vs| - 1][j] == vs[j];
  }

  /** With a validator that never fails, a nil value never wins exactly if each nil value received comes before all
      real values or after one that empty bytes do not beat. */
  lemma {:induction false} NilNeverWinsIff(vs: seq<Received>, nvals: nat, select: Select, leq: (Bytes, Bytes) -> bool)
    requires Obeys(select, leq) && forall a, b :: select(a, b).Some?
    ensures NilNeverWins(vs, nvals, select) <==> NilsAreDominated(vs, nvals, leq)
  {
    hide NilWins, Consume, NilIsDominated, Obeys;
    if vs != [] {
      var n := |vs| - 1;
      NilNeverWinsIff(vs[..n], nvals, select, leq);
      forall i | 0 <= i < n
        ensures NilIsDominated(vs[..n], nvals, leq, i) <==> NilIsDominated(vs, nvals, leq, i)
        ensures vs[..n][..i] == vs[..i] && vs[..n][i] == vs[i]
      {
        DominatedInit(vs, nvals, leq, i);
      }
      if NilNeverWins(vs[..n], nvals, select) {
        LastWinsIff(vs, nvals, select, leq);
      }
    }
  }

  /** The same for the result: with a validator that never fails, the best value is right throughout the stream exactly
      if the stream's nil values are dominated. */
  lemma {:induction false} SoundIffDominated(vs: seq<Received>, nvals: nat, select: Select, leq: (Bytes, Bytes) -> bool)
    requires Obeys(select, leq) && forall a, b :: select(a, b).Some?
    ensures (forall k :: 0 <= k <= |vs| ==> Sound(Consume(vs[..k], nvals, select), Weighed(vs[..k], nvals, select), leq))
       <==> NilsAreDominated(vs, nvals, leq)
  {
    hide Sound, Obeys, NilNeverWins, NilsAreDominated;
    SoundIffNilNeverWins(vs, nvals, select, leq);
    NilNeverWinsIff(vs, nvals, select, leq);
  }

  /** On the streams the search sees, whatever the validator's failures and the number asked for: the best value is
      right, and the values emitted improve. */
  lemma {:induction false} SearchedIsBest(vs: seq<Received>, nvals: nat, select: Select, leq: (Bytes, Bytes) -> bool)
    requires Obeys(select, leq) && forall i :: 0 < i < |vs| ==> vs[i].val.Real?
    ensures Sound(Consume(vs, nvals, select), Weighed(vs, nvals, select), leq)
    ensures WellEmitted(Consume(vs, nvals, select), leq)
  {
    hide Sound, WellEmitted, Obeys, NilNeverWins;
    NilFirstNeverWins(vs, nvals, select);
    FinalIsBest(vs, nvals, select, leq);
    EmittedImprove(vs, nvals, select, leq);
  }

  /** A stream, not one the search sees, in which a nil value wins: what follows is taken unseen, and the greatest value is lost. */
  lemma NilCanWin()
    ensures var leq := (a: Bytes, b: Bytes) => |b| <= |a|;
            var select := (a: Bytes, b: Bytes) => Some(if |b| < |a| then 1 else 0);
            var vs := [Received(Real("x"), "p"), Received(Nil, "q"), Received(Real("yyy"), "r")];
            Obeys(select, leq) && Consume(vs, 0, select).best == Real("yyy") && !leq("x", "yyy")
  {
    var leq := (a: Bytes, b: Bytes) => |b| <= |a|;
    var select := (a: Bytes, b: Bytes) => Some(if |b| < |a| then 1 else 0);
    var vs := [Received(Real("x"), "p"), Received(Nil, "q"), Received(Real("yyy"), "r")];
    assert vs[..2] == [vs[0], vs[1]] && vs[..2][..1] == [vs[0]] && [vs[0]][..0] == [];
    assert Consume([], 0, select) == START;
    assert Consume([vs[0]], 0, select).best == Real("x");
    assert Consume(vs[..2], 0, select).best == Nil;
  }

  lemma {:induction false} Reflexive(leq: (Bytes, Bytes) -> bool, c: Bytes)
    requires TotalPreorder(leq)
    ensures leq(c, c)
  {
  }

  // ---------------------------------------------------------------- what is emitted

  /** A later value is strictly better than an earlier one that is not nil. */
  predicate Improves(x: Val, y: Val, leq: (Bytes, Bytes) -> bool)
  {
    x.Real? ==> !leq(y.Content(), x.b)
  }

  ghost predicate Improving(vals: seq<Val>, leq: (Bytes, Bytes) -> bool)
  {
    forall i, j :: 0 <= i < j < |vals| ==> Improves(vals[i], vals[j], leq)
  }

  /** The values emitted improve strictly, each over all before it, and the last is the best. */
  ghost predicate WellEmitted(st: State, leq: (Bytes, Bytes) -> bool)
  {
    && Improving(st.emitted, leq)
    && (if st.emitted == [] then st.best.Nil? else st.best == st.emitted[|st.emitted| - 1])
    && (st.best.Nil? ==> forall i :: 0 <= i < |st.emitted| ==> st.emitted[i].Nil?)
  }

  lemma {:induction false} EmittedImprove(vs: seq<Received>, nvals: nat, select: Select, leq: (Bytes, Bytes) -> bool)
    requires Obeys(select, leq) && NilNeverWins(vs, nvals, select)
    ensures WellEmitted(Consume(vs, nvals, select), leq)
  {
    hide Improving, TotalPreorder, NilNeverWins;
    if vs == [] {
      NothingImproves(leq);
    } else {
      var init, v := vs[..|vs| - 1], vs[|vs| - 1];
      NilNeverWonBefore(vs, nvals, select, |vs| - 1);
      EmittedImprove(init, nvals, select, leq);
      var st := Consume(init, nvals, select);
      LastNilLoses(vs, nvals, select);
      if !st.aborted && Judge(st.best, v.val, select).Better? {
        ImproveMore(st.emitted, v.val, leq);
      }
    }
  }

  lemma {:induction false} NothingImproves(leq: (Bytes, Bytes) -> bool)
    ensures Improving([], leq)
  {
  }

  lemma {:induction false} ImproveMore(vals: seq<Val>, x: Val, leq: (Bytes, Bytes) -> bool)
    requires TotalPreorder(leq) && Improving(vals, leq)
    requires vals == [] || Improves(vals[|vals| - 1], x, leq)
    requires vals != [] && vals[|vals| - 1].Nil? ==> forall i :: 0 <= i < |vals| ==> vals[i].Nil?
    ensures Improving(vals + [x], leq)
  {
    var all := vals + [x];
    forall i, j | 0 <= i < j < |all|
      ensures Improves(all[i], all[j], leq)
    {
      if j < |vals| {
        assert Improves(vals[i], vals[j], leq);
      } else if i < |vals| - 1 {
        assert Improves(vals[i], vals[|vals| - 1], leq);
        assert Improves(vals[|vals| - 1], x, leq);
      }
    }
  }

  // ---------------------------------------------------------------- every improvement is emitted

  /** The values that beat all before them. */
  ghost function Breakers(ws: seq<Received>, leq: (Bytes, Bytes) -> bool): seq<Val>
  {
    if ws == [] then []
    else
      var init, v := ws[..|ws| - 1], ws[|ws| - 1];
      Breakers(init, leq) + (if Breaks(v, init, leq) then [v.val] else [])
  }

  ghost predicate Breaks(v: Received, ws: seq<Received>, leq: (Bytes, Bytes) -> bool)
  {
    forall i :: 0 <= i < |ws| ==> !leq(v.val.Content(), ws[i].val.Content())
  }

  function RealsOf(vals: seq<Val>): seq<Val>
  {
    if vals == [] then []
    else
      var init := RealsOf(vals[..|vals| - 1]);
      if vals[|vals| - 1].Real? then init + [vals[|vals| - 1]] else init
  }

  lemma {:induction false} RealsMore(vals: seq<Val>, v: Val)
    ensures RealsOf(vals + [v]) == if v.Real? then RealsOf(vals) + [v] else RealsOf(vals)
  {
    assert (vals + [v])[..|vals|] == vals;
  }

  lemma {:induction false} BreakersMore(ws: seq<Received>, v: Received, leq: (Bytes, Bytes) -> bool)
    ensures Breakers(ws + [v], leq) == Breakers(ws, leq) + (if Breaks(v, ws, leq) then [v.val] else [])
  {
    assert (ws + [v])[..|ws|] == ws;
  }

  /** Against a right best value, a value breaks all before it exactly if it is better. */
  lemma {:induction false} BreaksIff(b: Bytes, peers: set<Peer>, ws: seq<Received>, v: Received, leq: (Bytes, Bytes) -> bool)
    requires TotalPreorder(leq) && IsBest(b, peers, ws, leq)
    ensures Breaks(v, ws, leq) <==> !leq(v.val.Content(), b)
  {
    var p :| p in peers;
    var i :| 0 <= i < |ws| && ws[i].from == p && ws[i].val.Content() == b;
    if !leq(v.val.Content(), b) {
      forall j | 0 <= j < |ws|
        ensures !leq(v.val.Content(), ws[j].val.Content())
      {
        assert leq(ws[j].val.Content(), b);
      }
    }
  }

  lemma {:induction false} EmitStep(st: State, v: Received, nvals: nat, select: Select, leq: (Bytes, Bytes) -> bool, ws: seq<Received>)
    requires Obeys(select, leq) && Sound(st, ws, leq) && !st.aborted && !NilWins(st, v, select)
    requires RealsOf(st.emitted) == Breakers(ws, leq)
    ensures var xs := if (st.best.Nil? && v.val.Nil?) || Judge(st.best, v.val, select).Failed? then ws else ws + [v];
            RealsOf(Process(st, v, nvals, select).emitted) == Breakers(xs, leq)
  {
    hide IsBest, TotalPreorder, Breaks, RealsOf, Breakers;
    RealsMore(st.emitted, v.val);
    BreakersMore(ws, v, leq);
    if st.best.Nil? {
      NothingBefore(v, leq);
    } else {
      BreaksIff(st.best.b, st.peersWithBest, ws, v, leq);
      Reflexive(leq, st.best.b);
    }
  }

  lemma {:induction false} NothingBefore(v: Received, leq: (Bytes, Bytes) -> bool)
    ensures Breaks(v, [], leq) && Breakers([], leq) == []
  {
  }

  /** Unless a nil value ever wins, the real values emitted are exactly those weighed that beat all weighed before. */
  lemma {:induction false} EmittedAreBreakers(vs: seq<Received>, nvals: nat, select: Select, leq: (Bytes, Bytes) -> bool)
    requires Obeys(select, leq) && NilNeverWins(vs, nvals, select)
    ensures RealsOf(Consume(vs, nvals, select).emitted) == Breakers(Weighed(vs, nvals, select), leq)
  {
    hide Sound, TotalPreorder, NilNeverWins, RealsOf, Breakers, Process;
    if vs == [] {
      NothingEmitted(leq);
    } else {
      var init, v := vs[..|vs| - 1], vs[|vs| - 1];
      NilNeverWonBefore(vs, nvals, select, |vs| - 1);
      EmittedAreBreakers(init, nvals, select, leq);
      FinalIsBest(init, nvals, select, leq);
      LastNilLoses(vs, nvals, select);
      var st := Consume(init, nvals, select);
      if !st.aborted {
        EmitStep(st, v, nvals, select, leq, Weighed(init, nvals, select));
      }
    }
  }

  lemma {:induction false} NothingEmitted(leq: (Bytes, Bytes) -> bool)
    ensures RealsOf([]) == [] && Breakers([], leq) == []
  {
  }

  /** With a validator that never fails, all real values received before the stop are weighed. */
  lemma {:induction false} AllAreWeighed(vs: seq<Received>, nvals: nat, select: Select)
    requires (forall a, b :: select(a, b).Some?) && forall i :: 0 <= i < |vs| ==> vs[i].val.Real?
    ensures Weighed(vs, nvals, select) == if nvals == 0 || |vs| <= nvals + 1 then vs else vs[..nvals + 1]
  {
    hide Consume;
    if vs != [] {
      var init := vs[..|vs| - 1];
      AllAreWeighed(init, nvals, select);
      StoppedIff(init, nvals, select);
      assert vs == init + [vs[|vs| - 1]];
      if nvals > 0 && |vs| > nvals + 1 {
        assert init[..nvals + 1] == vs[..nvals + 1];
      }
    }
  }
}
