/**
 Concrete runs under KadRTT in which looking up a peer of the table fails, an exchange makes the filter forget a
 peer of the table, and a trim leaves the notifications behind.
 */
module Witnesses {
  import opened Wrappers
  import opened Keyspace
  import opened Sorting
  import opened TableModel
  import opened TableProofs
  import opened TableSteps
  import opened Nearest
  import opened NearestQueries
  import opened KadRtt
  import opened Bookkeeping
  import opened TableRuns

  // ---------------------------------------------------------------- three peers and a bucket of two

  function Key(p: Peer): Byte
  {
    if p == "a" then 0x80 else if p == "b" then 0xC0 else if p == "c" then 0x90 else 0
  }

  function Net(): Config
  {
    Config([0], p => [Key(p)], {"a", "b", "c"}, 2, true)
  }

  function Entry(p: Peer, ms: int): PeerInfo
  {
    PeerInfo(p, None, 0, 0, [Key(p)], true, ms * 1000000)
  }

  function A(): PeerInfo { Entry("a", 30) }
  function B(): PeerInfo { Entry("b", 20) }
  function C(): PeerInfo { Entry("c", 10) }

  /** The add of an entry whose bucket is re-tuned to size `k`, with no trim. */
  function Adding(x: PeerInfo, k: int, kept: seq<PeerInfo>): Op
  {
    AddKadRtt(x, true, true, Tuning(k, 2), _ => Tuning(2, 2), p => if p == "a" then 1 else 0, _ => 0, kept)
  }

  lemma {:induction false} OneByteCpl(a: Byte, b: Byte)
    ensures CommonPrefixLen([a], [b]) == if a ^ b == 0 then 8 else LeadingZeros8(a ^ b)
  {
    hide LeadingZeros8, ZeroPrefixLen;
    assert Xor([a], [b]) == [a ^ b];
    OneByteZeros(a ^ b);
  }

  lemma {:induction false} OneByteZeros(x: Byte)
    ensures ZeroPrefixLen([x]) == if x == 0 then 8 else LeadingZeros8(x)
  {
    hide LeadingZeros8;
    assert [x][1..] == [] && ZeroPrefixLen([]) == 0;
  }

  lemma {:induction false} NetCpl(p: Peer)
    requires p in Net().peers
    ensures CommonPrefixLen([Key(p)], [0]) == 0 && Net().Cpl(p) == 0
  {
    OneByteCpl(Key(p), 0);
    assert (0x80 as Byte) ^ 0 == 0x80 && (0xC0 as Byte) ^ 0 == 0xC0 && (0x90 as Byte) ^ 0 == 0x90;
  }

  lemma {:induction false} NetValid()
    ensures Net().Valid()
  {
  }

  /** One bucket with the given entries, tuned to size `k`. */
  function One(list: seq<PeerInfo>, k: int): Table
  {
    [BucketState(list, k, 2, 2)]
  }

  lemma {:induction false} OneInv(list: seq<PeerInfo>, k: int)
    requires k >= 2 && DistinctIds(list) && forall x :: x in list ==> Net().Knows(x)
    ensures Inv(Net(), One(list, k))
  {
    NetValid();
    forall x | x in list
      ensures Placed(Net(), 1, 0, x)
    {
    }
    assert BucketPlaced(Net(), 1, 0, list);
  }

  /** An add to a lone bucket with room. */
  lemma {:induction false} AddWithRoom(b: Books, x: PeerInfo, k: int)
    requires |b.t| == 1 && Inv(Net(), b.t) && Net().Knows(x) && !HasId(b.t[0].list, x.id)
    requires |b.t[0].list| < k && k >= 2
    ensures Enabled(Net(), b.t, Adding(x, k, b.t[0].list))
    ensures Apply(Net(), {}, b, Adding(x, k, b.t[0].list))
         == Books(One([x] + b.t[0].list, k), b.events + [PeerAdded(x.id)], b.keys + {x.id})
  {
    hide CommonPrefixLen, Holds;
    NetValid();
    NetCpl(x.id);
    var list := b.t[0].list;
    var op := Adding(x, k, list);
    assert Trimmed(list, TunedK(op.raw, 2), op.score, list);
    TrimFits(Net(), b, x, op.raw, op.score, list);
    var b1 := TrimBooks(Net(), b, x.id, op.raw, list);
    assert b1.t == One(list, k);
    HoldsIsInTable(Net(), b1.t, x.id);
    LookupByIndex(Net(), b1.t, x.id);
    assert Place(Net(), b1.t, x, ADD_KADRTT, op.tune) == Placement(One([x] + list, k), true);
  }

  // ---------------------------------------------------------------- two adds, and the slower peer is not found

  function Two(k: int): Books
  {
    Books(One([B(), A()], k), [PeerAdded("a"), PeerAdded("b")], {"a", "b"})
  }

  /** The empty table, the table with `a`, and the table with `a` and `b`. */
  function TwoStates(k: int): seq<Books>
  {
    [OPENING, Books(One([A()], k), [PeerAdded("a")], {"a"}), Two(k)]
  }

  function TwoOps(k: int): seq<Op>
  {
    [Adding(A(), k, []), Adding(B(), k, [A()])]
  }

  lemma {:induction false} FirstRun(k: int)
    requires k >= 2
    ensures IsRunFrom(Net(), {}, OPENING, TwoStates(k)[..2], TwoOps(k)[..1]) && Inv(Net(), TwoStates(k)[1].t)
  {
    hide Apply, Enabled, Goes;
    NetValid();
    FreshInv(Net());
    OneInv([A()], k);
    AddWithRoom(OPENING, A(), k);
    assert [A()] + [] == [A()] && [] + [PeerAdded("a")] == [PeerAdded("a")] && {} + {"a"} == {"a"};
    ExtendRun(Net(), {}, OPENING, [OPENING], [], Adding(A(), k, []));
    assert [OPENING] + [TwoStates(k)[1]] == TwoStates(k)[..2] && [] + [Adding(A(), k, [])] == TwoOps(k)[..1];
  }

  lemma {:induction false} TwoRun(k: int)
    requires k >= 2
    ensures IsRun(Net(), {}, TwoStates(k), TwoOps(k)) && Inv(Net(), Two(k).t)
  {
    hide Apply, Enabled, IsRunFrom, Inv;
    FirstRun(k);
    OneInv([B(), A()], k);
    var b := TwoStates(k)[1];
    AddWithRoom(b, B(), k);
    assert [B()] + [A()] == [B(), A()] && [PeerAdded("a")] + [PeerAdded("b")] == [PeerAdded("a"), PeerAdded("b")];
    assert {"a"} + {"b"} == {"a", "b"};
    RunGoesOn(k);
  }

  lemma {:induction false} RunGoesOn(k: int)
    requires k >= 2 && IsRunFrom(Net(), {}, OPENING, TwoStates(k)[..2], TwoOps(k)[..1])
    requires Inv(Net(), TwoStates(k)[1].t) && Enabled(Net(), TwoStates(k)[1].t, Adding(B(), k, [A()]))
    requires Apply(Net(), {}, TwoStates(k)[1], Adding(B(), k, [A()])) == Two(k)
    ensures IsRun(Net(), {}, TwoStates(k), TwoOps(k))
  {
    hide Apply, Enabled, Inv, Goes;
    ExtendRun(Net(), {}, OPENING, TwoStates(k)[..2], TwoOps(k)[..1], Adding(B(), k, [A()]));
    assert TwoStates(k)[..2] + [Two(k)] == TwoStates(k) && TwoOps(k)[..1] + [Adding(B(), k, [A()])] == TwoOps(k);
  }

  /** A reachable table with two peers in which no answer finds the slower one. */
  lemma {:induction false} FindMisses()
    ensures Net().Valid() && Net().kadRtt && IsRun(Net(), {}, TwoStates(2), TwoOps(2))
    ensures var t := Two(2).t;
            InTable(t, "a") && forall ok, ng :: KadRttAnswer(Net(), t, Net().hash("a"), ok, ng) ==> !Finds("a", ok + ng)
  {
    hide KadRttAnswer, Finds, IsRun;
    NetValid();
    TwoRun(2);
    var t := Two(2).t;
    assert t[0].list[1].id == "a" && HasId(t[0].list, "a");
    SlowerCollected();
    FindUnderKadRtt(Net(), t, "a");
  }

  lemma {:induction false} SlowerCollected()
    ensures Net().Valid() && !AmongFastest(Pool(Net(), Two(2).t, "a"), "a")
  {
    NetValid();
    hide CommonPrefixLen, Config.Valid;
    var t := Two(2).t;
    NetCpl("a");
    assert Pool(Net(), t, "a") == [B(), A()];
    assert B() in [B(), A()] && B().rtt < A().rtt;
  }

  // ---------------------------------------------------------------- a third add, exchanged in and forgotten by the filter

  lemma {:induction false} ByteKeys()
    ensures ToNat([Key("a")]) == 128 && ToNat([Key("b")]) == 192 && ToNat([Key("c")]) == 144
  {
    assert Pow256(0) == 1 && ToNat([]) == 0;
    assert [Key("a")][1..] == [] && [Key("b")][1..] == [] && [Key("c")][1..] == [];
    assert (0x80 as Byte) as nat == 128 && (0xC0 as Byte) as nat == 192 && (0x90 as Byte) as nat == 144;
  }

  lemma {:induction false} NeighbourCpls()
    ensures CplBetween(A(), B()) == 1 && CplBetween(C(), B()) == 1
  {
    OneByteCpl(0x80, 0xC0);
    OneByteCpl(0x90, 0xC0);
    assert (0x80 as Byte) ^ 0xC0 == 0x40 && (0x90 as Byte) ^ 0xC0 == 0x50;
  }

  lemma {:induction false} SortTwo(x: PeerInfo, y: PeerInfo)
    ensures InKeyOrder([x, y]) == if ToNat(x.dhtId) < ToNat(y.dhtId) then [x, y] else [y, x]
  {
    hide ToNat;
    assert [x, y][1..] == [y] && [y][1..] == [];
    assert SomeSort([y], ByHash()) == [y];
  }

  /** Two neighbours with one common bit. */
  lemma {:induction false} ScoreTwo(x: PeerInfo, y: PeerInfo)
    requires CplBetween(x, y) == 1
    ensures Spread([x, y], Average([x, y])) == 0.25 && RunningSpread([x, y], Average([x, y])) == 0.25
  {
    hide CplBetween;
    assert [x, y][..1] == [x];
    assert CplSum([x, y]) == 1;
    assert Square(1.0 - 0.5) == 0.25;
  }

  lemma {:induction false} VictimIsA()
    ensures Victim([B(), A()], C(), _ => 0) == Some(A())
  {
    hide ToNat, CplBetween, Spread, RunningSpread, Average, InKeyOrder;
    ByteKeys();
    NeighbourCpls();
    var list := [B(), A()];
    SortTwo(B(), A());
    SortTwo(B(), C());
    ScoreTwo(A(), B());
    ScoreTwo(C(), B());
    assert list[..1] == [B()] && [B()][..0] == [];
    assert Others([B()], "a") == [B()];
    assert Others(list, "a") + [C()] == [B(), C()];
    var cands := CandidatesOf(list, C().rtt, _ => 0);
    assert Slower(A(), C().rtt, _ => 0);
    assert cands == [A()];
    assert cands[..0] == [];
    assert Choose(list, [], C()) == (None, CurrentScore(list));
  }

  function Unfolded(): Table
  {
    One([B(), A()], 2) + One([], 2)
  }

  lemma {:induction false} NoRoomForC(tune: nat -> Tuning)
    requires tune == (_ => Tuning(2, 2))
    ensures Net().Valid() && IdsFit(Net(), One([B(), A()], 2))
    ensures Place(Net(), One([B(), A()], 2), C(), ADD_KADRTT, tune) == Placement(Unfolded(), false)
  {
    hide CommonPrefixLen;
    NetValid();
    NetCpl("a");
    NetCpl("b");
    NetCpl("c");
    var t := One([B(), A()], 2);
    var list := t[0].list;
    assert list[1..] == [A()] && [A()][1..] == [];
    assert Pick(Net(), list, 0, true) == [] && Pick(Net(), list, 0, false) == list;
    assert UnfoldOnce(Net(), t, tune) == Unfolded();
  }

  /** A reachable table and an add that exchanges a slower peer for the newcomer: the newcomer is in the table, the
      filter does not track it, and no capacity is reported. */
  lemma {:induction false} ExchangeForgets()
    ensures Inv(Net(), Two(2).t) && IsRun(Net(), {}, TwoStates(2), TwoOps(2)) && Agree(Two(2), {})
    ensures Enabled(Net(), Two(2).t, Adding(C(), 2, [B(), A()]))
    ensures var c := Apply(Net(), {}, Two(2), Adding(C(), 2, [B(), A()]));
            InTable(c.t, "c") && "c" !in c.keys && AgreeEvents(c.events, c.t) && !AgreeKeys(c.keys, {}, c.t)
  {
    hide IsRun, Apply, Enabled, AgreeEvents, AgreeKeys, InTable;
    TwoRun(2);
    TwoAgree(2);
    ThirdAdd();
  }

  lemma {:induction false} FirstAgrees(k: int)
    requires k >= 2
    ensures Agree(TwoStates(k)[1], {}) && Inv(Net(), TwoStates(k)[1].t)
  {
    hide Agree;
    NetValid();
    FreshInv(Net());
    OneInv([A()], k);
    OpeningAgrees({});
    StepAgrees(OPENING, A(), k);
    assert [A()] + [] == [A()] && [] + [PeerAdded("a")] == [PeerAdded("a")] && {} + {"a"} == {"a"};
  }

  lemma {:induction false} TwoAgree(k: int)
    requires k >= 2
    ensures Agree(Two(k), {})
  {
    hide Agree, Inv;
    FirstAgrees(k);
    StepAgrees(TwoStates(k)[1], B(), k);
    assert [B()] + [A()] == [B(), A()] && [PeerAdded("a")] + [PeerAdded("b")] == [PeerAdded("a"), PeerAdded("b")];
    assert {"a"} + {"b"} == {"a", "b"};
  }

  lemma {:induction false} StepAgrees(b: Books, x: PeerInfo, k: int)
    requires |b.t| == 1 && Inv(Net(), b.t) && Net().Knows(x) && !HasId(b.t[0].list, x.id)
    requires |b.t[0].list| < k && k >= 2
    ensures Agree(b, {}) ==> Agree(Books(One([x] + b.t[0].list, k), b.events + [PeerAdded(x.id)], b.keys + {x.id}), {})
  {
    hide AgreeEvents, AgreeKeys, Apply, CommonPrefixLen;
    AddWithRoom(b, x, k);
    LookupByIndex(Net(), b.t, x.id);
    var u := One([x] + b.t[0].list, k);
    ArrivesInOne(b.t, x, k);
    if Agree(b, {}) {
      EventsFollow(b.events, b.t, u, None, Some(x.id));
      KeysFollow(b.keys, {}, b.t, u, None, Some(x.id));
      assert Announced(None, Some(x.id)) == [PeerAdded(x.id)];
      assert KeysAfter(b.keys, {}, None, Some(x.id)) == b.keys + {x.id};
    }
  }

  lemma {:induction false} ArrivesInOne(t: Table, x: PeerInfo, k: int)
    requires |t| == 1 && !HasId(t[0].list, x.id)
    ensures PeersChange(t, One([x] + t[0].list, k), None, Some(x.id))
  {
    var u := One([x] + t[0].list, k);
    forall q
      ensures InTable(u, q) <==> InTable(t, q) || q == x.id
    {
      assert u[0].list[0] == x && u[0].list[1..] == t[0].list;
      HasIdCons(u[0].list, q);
    }
  }

  lemma {:induction false} ThirdAdd()
    requires Inv(Net(), Two(2).t) && Agree(Two(2), {})
    ensures Enabled(Net(), Two(2).t, Adding(C(), 2, [B(), A()]))
    ensures var c := Apply(Net(), {}, Two(2), Adding(C(), 2, [B(), A()]));
            InTable(c.t, "c") && "c" !in c.keys && AgreeEvents(c.events, c.t) && !AgreeKeys(c.keys, {}, c.t)
  {
    var b, op := Two(2), Adding(C(), 2, [B(), A()]);
    var list := [B(), A()];
    hide CommonPrefixLen, AgreeEvents, AgreeKeys, Place, Victim, Holds, Insert, Remove, InTable, Announced, KeysAfterAdd, PlaceOrExchange;
    NetValid();
    NetCpl("c");
    assert Trimmed(list, TunedK(op.raw, 2), op.score, list);
    TrimFits(Net(), b, C(), op.raw, op.score, list);
    assert TrimBooks(Net(), b, "c", op.raw, list) == b;
    assert !HasId(list, "c");
    LookupByIndex(Net(), b.t, "c");
    HoldsIsInTable(Net(), b.t, "c");
    NoRoomForC(op.tune);
    VictimIsA();
    ExchangeAgreesIff(Net(), {}, b, C(), op.tune, op.latency);
    assert PlaceOrExchange(Net(), b.t, C(), op.tune, op.latency).1 == NoCapacity by { KadRttHasNoCapacity(b.t, C(), op.tune, op.latency); }
    assert Net().Cpl("c") == 0 && TargetBucket(Net(), Unfolded(), "c").list == list;
    assert Ousted(Net(), b.t, C(), op.tune, op.latency) == Some("a");
  }

  lemma {:induction false} KadRttHasNoCapacity(t: Table, x: PeerInfo, tune: nat -> Tuning, latency: Peer -> int)
    requires |t| >= 1 && IdsFit(Net(), t) && Net().Valid() && !Place(Net(), t, x, ADD_KADRTT, tune).placed
    ensures PlaceOrExchange(Net(), t, x, tune, latency).1 == NoCapacity
  {
  }

  // ---------------------------------------------------------------- a trim that nobody is told of

  function Three(): Books
  {
    Books(One([C(), B(), A()], 3), [PeerAdded("a"), PeerAdded("b"), PeerAdded("c")], {"a", "b", "c"})
  }

  lemma {:induction false} ThreeRun()
    ensures Inv(Net(), Three().t) && Agree(Three(), {})
    ensures IsRun(Net(), {}, TwoStates(3) + [Three()], TwoOps(3) + [Adding(C(), 3, [B(), A()])])
  {
    hide Apply, Enabled, Agree;
    TwoRun(3);
    TwoAgree(3);
    OneInv([C(), B(), A()], 3);
    AddWithRoom(Two(3), C(), 3);
    StepAgrees(Two(3), C(), 3);
    assert [C()] + [B(), A()] == [C(), B(), A()] && {"a", "b"} + {"c"} == {"a", "b", "c"};
    assert [PeerAdded("a"), PeerAdded("b")] + [PeerAdded("c")] == [PeerAdded("a"), PeerAdded("b"), PeerAdded("c")];
    assert TwoStates(3)[2] == Two(3);
    ExtendRun(Net(), {}, OPENING, TwoStates(3), TwoOps(3), Adding(C(), 3, [B(), A()]));
  }

  lemma {:induction false} DropA()
    ensures Trimmed([C(), B(), A()], 2, p => if p == "a" then 1 else 0, [C(), B()])
  {
    var list, score := [C(), B(), A()], (p: Peer) => if p == "a" then 1 else 0;
    assert list[1..] == [B(), A()] && [B(), A()][1..] == [A()] && [A()][1..] == [];
    assert Without([A()], "a") == [] && Without([B(), A()], "a") == [B()] + [] && Without(list, "a") == [C()] + [B()];
    assert ["a"][..0] == [] && WithoutAll(list, ["a"]) == Without(WithoutAll(list, []), "a") == [C(), B()];
    assert DropsHighest(list, 2, score, [C(), B()], ["a"]);
  }

  /** A reachable table and an add of a peer it has already: re-tuning its bucket to a smaller size drops a peer that
      stays announced and tracked. */
  lemma {:induction false} TrimForgets()
    ensures Inv(Net(), Three().t) && Agree(Three(), {})
    ensures Enabled(Net(), Three().t, Adding(C(), 2, [C(), B()]))
    ensures var c := Apply(Net(), {}, Three(), Adding(C(), 2, [C(), B()]));
            !AgreeEvents(c.events, c.t) && !AgreeKeys(c.keys, {}, c.t)
  {
    hide AgreeEvents, AgreeKeys, RetunedBooks, Trimmed, CommonPrefixLen;
    ThreeRun();
    DropA();
    NetCpl("c");
    var b, op := Three(), Adding(C(), 2, [C(), B()]);
    assert TargetBucket(Net(), b.t, "c").list == [C(), B(), A()];
    KadAgreesIff(Net(), {}, b, C(), true, true, op.raw, op.tune, op.score, op.latency, op.kept);
    var list := [C(), B(), A()];
    assert list[2].id == "a" && Dropped(list, [C(), B()], "a");
  }
}
