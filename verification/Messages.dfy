/**
 The DHT's messages and the peers listed in them: what their encodings are and what decoding makes of any
 byte string. The codec of the record carried by a message belongs to another package and is a parameter.
 */
module Messages {
  import opened Wrappers
  import opened WireFormat

  datatype WirePeer = WirePeer(id: Bytes, addrs: seq<Bytes>, connection: int, unrecognized: Bytes)

  datatype Message<+R> = Message(
    typ: int,
    key: Bytes,
    record: Option<R>,
    closerPeers: seq<WirePeer>,
    providerPeers: seq<WirePeer>,
    clusterLevelRaw: int,
    unrecognized: Bytes)

  /** How records are written, and how bytes are merged into one. */
  datatype Codec<!R> = Codec(empty: R, enc: R -> Bytes, merge: (R, Bytes) -> Result<R>)
  {
    /** The codec reads back the record that it wrote, if there is one. */
    ghost predicate Restores(record: Option<R>)
    {
      record.Some? ==> merge(empty, enc(record.value)) == Ok(record.value)
    }
  }

  const EMPTY_PEER := WirePeer([], [], 0, [])

  function EmptyMessage<R>(): Message<R>
  {
    Message(0, [], None, [], [], 0, [])
  }

  // ---------------------------------------------------------------- peers

  function PeerKind(f: int): Kind
  {
    match f
    case 1 => Payload
    case 2 => Payload
    case 3 => Number
    case _ => Unknown
  }

  function AddrItems(addrs: seq<Bytes>): seq<Item>
  {
    seq(|addrs|, i requires 0 <= i < |addrs| => Data(2, addrs[i]))
  }

  /** The identifier is always written; a connection type of zero is not. */
  function PeerItems(p: WirePeer): seq<Item>
  {
    [Data(1, p.id)] + AddrItems(p.addrs) + (if p.connection != 0 then [Num(3, p.connection)] else [])
  }

  function EncodePeer(p: WirePeer): Bytes
  {
    EncodeAll(PeerItems(p)) + p.unrecognized
  }

  function ApplyPeer(p: WirePeer, it: Item): WirePeer
  {
    match it
    case Num(_, x) => p.(connection := x)
    case Data(f, d) => if f == 1 then p.(id := d) else p.(addrs := p.addrs + [d])
    case Raw(c) => p.(unrecognized := p.unrecognized + c)
  }

  function FoldPeer(p: WirePeer, items: seq<Item>): WirePeer
    decreases |items|
  {
    if items == [] then p else FoldPeer(ApplyPeer(p, items[0]), items[1..])
  }

  function ParsePeerAt(s: Bytes, at: nat, p: WirePeer): Result<WirePeer>
  {
    var l := Lex(s, at, PeerKind);
    if l.err.Some? then Err(l.err.value) else Ok(FoldPeer(p, l.items))
  }

  function ParsePeer(s: Bytes, p: WirePeer): Result<WirePeer>
  {
    ParsePeerAt(s, 0, p)
  }

  // ---------------------------------------------------------------- messages

  function MessageKind(f: int): Kind
  {
    match f
    case 1 => Number
    case 2 => Payload
    case 3 => Payload
    case 8 => Payload
    case 9 => Payload
    case 10 => Number
    case _ => Unknown
  }

  function Listed(f: nat, ps: seq<WirePeer>): seq<Item>
  {
    seq(|ps|, i requires 0 <= i < |ps| => Data(f, EncodePeer(ps[i])))
  }

  function HeadItems<R>(c: Codec<R>, m: Message<R>): seq<Item>
  {
    (if m.typ != 0 then [Num(1, m.typ)] else [])
    + (if |m.key| > 0 then [Data(2, m.key)] else [])
    + (if m.record.Some? then [Data(3, c.enc(m.record.value))] else [])
  }

  function ClusterItems<R>(m: Message<R>): seq<Item>
  {
    if m.clusterLevelRaw != 0 then [Num(10, m.clusterLevelRaw)] else []
  }

  function MessageItems<R>(c: Codec<R>, m: Message<R>): seq<Item>
  {
    HeadItems(c, m) + Listed(8, m.closerPeers) + Listed(9, m.providerPeers) + ClusterItems(m)
  }

  function Encode<R>(c: Codec<R>, m: Message<R>): Bytes
  {
    EncodeAll(MessageItems(c, m)) + m.unrecognized
  }

  function Apply<R>(c: Codec<R>, m: Message<R>, it: Item): Result<Message<R>>
  {
    match it
    case Num(f, x) => Ok(if f == 1 then m.(typ := x) else m.(clusterLevelRaw := x))
    case Raw(b) => Ok(m.(unrecognized := m.unrecognized + b))
    case Data(f, d) =>
      if f == 2 then Ok(m.(key := d))
      else if f == 3 then
        match c.merge(if m.record.Some? then m.record.value else c.empty, d)
        case Err(e) => Err(e)
        case Ok(r) => Ok(m.(record := Some(r)))
      else
        match ParsePeer(d, EMPTY_PEER)
        case Err(e) => Err(e)
        case Ok(p) =>
          Ok(if f == 8 then m.(closerPeers := m.closerPeers + [p]) else m.(providerPeers := m.providerPeers + [p]))
  }

  function Fold<R>(c: Codec<R>, m: Message<R>, items: seq<Item>): Result<Message<R>>
    decreases |items|
  {
    if items == [] then Ok(m)
    else
      match Apply(c, m, items[0])
      case Err(e) => Err(e)
      case Ok(n) => Fold(c, n, items[1..])
  }

  /** The fields are taken up in order; the first that cannot be read or taken up is the error. */
  function ParseAt<R>(c: Codec<R>, s: Bytes, at: nat, m: Message<R>): Result<Message<R>>
  {
    var l := Lex(s, at, MessageKind);
    match Fold(c, m, l.items)
    case Err(e) => Err(e)
    case Ok(n) => if l.err.Some? then Err(l.err.value) else Ok(n)
  }

  function Parse<R>(c: Codec<R>, s: Bytes, m: Message<R>): Result<Message<R>>
  {
    ParseAt(c, s, 0, m)
  }

  // ---------------------------------------------------------------- peers: round trip

  ghost predicate GoodPeer(p: WirePeer)
  {
    IsInt32(p.connection) && OnlyUnknown(p.unrecognized, PeerKind)
  }

  lemma {:induction false} FoldPeerConcat(p: WirePeer, xs: seq<Item>, ys: seq<Item>)
    ensures FoldPeer(p, xs + ys) == FoldPeer(FoldPeer(p, xs), ys)
    decreases |xs|
  {
    hide ApplyPeer;
    if xs == [] {
      assert xs + ys == ys;
    } else {
      assert (xs + ys)[1..] == xs[1..] + ys;
      FoldPeerConcat(ApplyPeer(p, xs[0]), xs[1..], ys);
    }
  }

  lemma {:induction false} FoldPeerRaws(p: WirePeer, items: seq<Item>)
    requires forall i :: 0 <= i < |items| ==> items[i].Raw?
    ensures FoldPeer(p, items) == p.(unrecognized := p.unrecognized + Raws(items))
    decreases |items|
  {
    if items == [] {
      assert p.unrecognized + [] == p.unrecognized;
    } else {
      FoldPeerRaws(ApplyPeer(p, items[0]), items[1..]);
      assert p.unrecognized + items[0].c + Raws(items[1..]) == p.unrecognized + Raws(items);
    }
  }

  lemma {:induction false} FoldAddrs(p: WirePeer, addrs: seq<Bytes>)
    ensures FoldPeer(p, AddrItems(addrs)) == p.(addrs := p.addrs + addrs)
    decreases |addrs|
  {
    if addrs == [] {
      assert p.addrs + addrs == p.addrs;
    } else {
      assert AddrItems(addrs)[1..] == AddrItems(addrs[1..]);
      FoldAddrs(p.(addrs := p.addrs + [addrs[0]]), addrs[1..]);
      assert p.addrs + [addrs[0]] + addrs[1..] == p.addrs + addrs;
    }
  }

  lemma {:induction false} FoldPeerOne(p: WirePeer, it: Item)
    ensures FoldPeer(p, [it]) == ApplyPeer(p, it)
  {
    assert [it][1..] == [];
  }

  lemma {:induction false} FoldPeerItems(p: WirePeer)
    ensures FoldPeer(EMPTY_PEER, PeerItems(p)) == p.(unrecognized := [])
  {
    hide FoldPeer, AddrItems;
    var tail := if p.connection != 0 then [Num(3, p.connection)] else [];
    FoldPeerConcat(EMPTY_PEER, [Data(1, p.id)] + AddrItems(p.addrs), tail);
    FoldPeerConcat(EMPTY_PEER, [Data(1, p.id)], AddrItems(p.addrs));
    FoldPeerOne(EMPTY_PEER, Data(1, p.id));
    FoldAddrs(EMPTY_PEER.(id := p.id), p.addrs);
    assert [] + p.addrs == p.addrs;
    var q := WirePeer(p.id, p.addrs, 0, []);
    FoldPeerOne(q, Num(3, p.connection));
    FoldPeerNil(q);
  }

  lemma {:induction false} FoldPeerNil(p: WirePeer)
    ensures FoldPeer(p, []) == p
  {
  }

  lemma {:induction false} PeerItemsEncodable(p: WirePeer)
    requires IsInt32(p.connection)
    ensures AllEncodable(PeerItems(p), PeerKind)
  {
  }

  /** The fields of an encoding are those written and then the unknown ones. */
  lemma {:induction false} LexWithTail(items: seq<Item>, u: Bytes, kind: int -> Kind)
    requires AllEncodable(items, kind) && OnlyUnknown(u, kind) && |EncodeAll(items) + u| < W63
    ensures Lex(EncodeAll(items) + u, 0, kind) == Lexed(items + Lex(u, 0, kind).items, None)
    ensures Raws(Lex(u, 0, kind).items) == u
  {
    hide Lex, EncodeAll, AllEncodable;
    LexMoved(u, 0, |EncodeAll(items)|, kind);
    LexEncoded(items, u, 0, kind);
    OnlyUnknownRaws(u, 0, kind);
  }

  lemma {:induction false} PeerRoundTrip(p: WirePeer)
    requires GoodPeer(p) && |EncodePeer(p)| < W63
    ensures ParsePeer(EncodePeer(p), EMPTY_PEER) == Ok(p)
  {
    hide Lex, EncodeAll, PeerItems, FoldPeer, AllEncodable, Raws;
    PeerItemsEncodable(p);
    LexWithTail(PeerItems(p), p.unrecognized, PeerKind);
    var raws := Lex(p.unrecognized, 0, PeerKind).items;
    FoldPeerConcat(EMPTY_PEER, PeerItems(p), raws);
    FoldPeerItems(p);
    FoldPeerRaws(p.(unrecognized := []), raws);
    assert [] + p.unrecognized == p.unrecognized;
  }

  // ---------------------------------------------------------------- messages: round trip

  ghost predicate GoodMessage<R>(m: Message<R>)
  {
    && IsInt32(m.typ) && IsInt32(m.clusterLevelRaw)
    && GoodPeers(m.closerPeers) && GoodPeers(m.providerPeers)
    && OnlyUnknown(m.unrecognized, MessageKind)
  }

  ghost predicate GoodPeers(ps: seq<WirePeer>)
  {
    forall i :: 0 <= i < |ps| ==> GoodPeer(ps[i])
  }

  lemma {:induction false} FoldConcat<R>(c: Codec<R>, m: Message<R>, xs: seq<Item>, ys: seq<Item>)
    requires Fold(c, m, xs).Ok?
    ensures Fold(c, m, xs + ys) == Fold(c, Fold(c, m, xs).value, ys)
    decreases |xs|
  {
    hide Apply;
    if xs == [] {
      assert xs + ys == ys;
    } else {
      assert (xs + ys)[1..] == xs[1..] + ys;
      FoldConcat(c, Apply(c, m, xs[0]).value, xs[1..], ys);
    }
  }

  lemma {:induction false} FoldOne<R>(c: Codec<R>, m: Message<R>, it: Item)
    ensures Fold(c, m, [it]) == Apply(c, m, it)
  {
    hide Apply;
    assert [it][1..] == [];
    if Apply(c, m, it).Ok? {
      FoldNil(c, Apply(c, m, it).value);
    }
  }

  lemma {:induction false} FoldNil<R>(c: Codec<R>, m: Message<R>)
    ensures Fold(c, m, []) == Ok(m)
  {
  }

  lemma {:induction false} FoldRaws<R>(c: Codec<R>, m: Message<R>, items: seq<Item>)
    requires forall i :: 0 <= i < |items| ==> items[i].Raw?
    ensures Fold(c, m, items) == Ok(m.(unrecognized := m.unrecognized + Raws(items)))
    decreases |items|
  {
    if items == [] {
      assert m.unrecognized + [] == m.unrecognized;
    } else {
      FoldRaws(c, m.(unrecognized := m.unrecognized + items[0].c), items[1..]);
      assert m.unrecognized + items[0].c + Raws(items[1..]) == m.unrecognized + Raws(items);
    }
  }

  /** Every encoding in the list is short enough to be written. */
  ghost predicate Fit(ps: seq<WirePeer>)
  {
    forall i :: 0 <= i < |ps| ==> |EncodePeer(ps[i])| < W63
  }

  lemma {:induction false} FoldCloser<R>(c: Codec<R>, m: Message<R>, ps: seq<WirePeer>)
    requires GoodPeers(ps) && Fit(ps)
    ensures Fold(c, m, Listed(8, ps)) == Ok(m.(closerPeers := m.closerPeers + ps))
    decreases |ps|
  {
    hide EncodePeer, ParsePeer, GoodPeer;
    if ps == [] {
      assert m.closerPeers + ps == m.closerPeers;
    } else {
      PeerRoundTrip(ps[0]);
      assert Listed(8, ps)[1..] == Listed(8, ps[1..]);
      FoldCloser(c, m.(closerPeers := m.closerPeers + [ps[0]]), ps[1..]);
      assert m.closerPeers + [ps[0]] + ps[1..] == m.closerPeers + ps;
    }
  }

  lemma {:induction false} FoldProviders<R>(c: Codec<R>, m: Message<R>, ps: seq<WirePeer>)
    requires GoodPeers(ps) && Fit(ps)
    ensures Fold(c, m, Listed(9, ps)) == Ok(m.(providerPeers := m.providerPeers + ps))
    decreases |ps|
  {
    hide EncodePeer, ParsePeer, GoodPeer;
    if ps == [] {
      assert m.providerPeers + ps == m.providerPeers;
    } else {
      PeerRoundTrip(ps[0]);
      assert Listed(9, ps)[1..] == Listed(9, ps[1..]);
      FoldProviders(c, m.(providerPeers := m.providerPeers + [ps[0]]), ps[1..]);
      assert m.providerPeers + [ps[0]] + ps[1..] == m.providerPeers + ps;
    }
  }

  /** Optional fields: nothing is written for the value the empty message has. */
  lemma {:induction false} FoldOptional<R>(c: Codec<R>, m: Message<R>, written: bool, it: Item, n: Message<R>)
    requires if written then Apply(c, m, it) == Ok(n) else n == m
    ensures Fold(c, m, if written then [it] else []) == Ok(n)
  {
    hide Apply;
    FoldOne(c, m, it);
  }

  /** The record after the bytes of `record`, if any, are merged into `base`. */
  ghost predicate RecordMerges<R>(c: Codec<R>, base: Option<R>, record: Option<R>, merged: Option<R>)
  {
    if record.None? then merged == base
    else merged.Some? && c.merge(if base.Some? then base.value else c.empty, c.enc(record.value)) == Ok(merged.value)
  }

  /** Message `m` taken up into `base`: what `m` sets replaces, what it lists is added. */
  function Merged<R>(base: Message<R>, m: Message<R>, record: Option<R>): Message<R>
  {
    Message(if m.typ != 0 then m.typ else base.typ,
            if |m.key| > 0 then m.key else base.key,
            record,
            base.closerPeers + m.closerPeers,
            base.providerPeers + m.providerPeers,
            if m.clusterLevelRaw != 0 then m.clusterLevelRaw else base.clusterLevelRaw,
            base.unrecognized + m.unrecognized)
  }

  lemma {:induction false} FoldHead<R>(c: Codec<R>, base: Message<R>, m: Message<R>, record: Option<R>)
    requires RecordMerges(c, base.record, m.record, record)
    ensures Fold(c, base, HeadItems(c, m))
         == Ok(base.(typ := Merged(base, m, record).typ, key := Merged(base, m, record).key, record := record))
  {
    hide Fold;
    var m1 := base.(typ := Merged(base, m, record).typ);
    var m2 := m1.(key := Merged(base, m, record).key);
    var m3 := m2.(record := record);
    var a := if m.typ != 0 then [Num(1, m.typ)] else [];
    var b := if |m.key| > 0 then [Data(2, m.key)] else [];
    var d := if m.record.Some? then [Data(3, c.enc(m.record.value))] else [];
    FoldOptional(c, base, m.typ != 0, Num(1, m.typ), m1);
    FoldOptional(c, m1, |m.key| > 0, Data(2, m.key), m2);
    if m.record.Some? {
      FoldOptional(c, m2, true, Data(3, c.enc(m.record.value)), m3);
    } else {
      FoldNil(c, m2);
    }
    FoldConcat(c, base, a, b);
    FoldConcat(c, base, a + b, d);
  }

  lemma {:induction false} FoldItems<R>(c: Codec<R>, base: Message<R>, m: Message<R>, record: Option<R>)
    requires RecordMerges(c, base.record, m.record, record)
    requires GoodPeers(m.closerPeers) && GoodPeers(m.providerPeers) && Fit(m.closerPeers) && Fit(m.providerPeers)
    ensures Fold(c, base, MessageItems(c, m)) == Ok(Merged(base, m, record).(unrecognized := base.unrecognized))
  {
    hide Fold, HeadItems, Listed, GoodPeers, Fit, RecordMerges;
    var all := Merged(base, m, record);
    var m3 := base.(typ := all.typ, key := all.key, record := record);
    var m4 := m3.(closerPeers := all.closerPeers);
    var m5 := m4.(providerPeers := all.providerPeers);
    var head, closer, providers := HeadItems(c, m), Listed(8, m.closerPeers), Listed(9, m.providerPeers);
    FoldHead(c, base, m, record);
    FoldCloser(c, m3, m.closerPeers);
    FoldConcat(c, base, head, closer);
    FoldProviders(c, m4, m.providerPeers);
    FoldConcat(c, base, head + closer, providers);
    FoldOptional(c, m5, m.clusterLevelRaw != 0, Num(10, m.clusterLevelRaw), all.(unrecognized := base.unrecognized));
    FoldConcat(c, base, head + closer + providers, ClusterItems(m));
  }

  lemma {:induction false} MessageItemsEncodable<R>(c: Codec<R>, m: Message<R>)
    requires IsInt32(m.typ) && IsInt32(m.clusterLevelRaw)
    ensures AllEncodable(MessageItems(c, m), MessageKind)
  {
    hide EncodePeer;
  }

  /** A field's payload is shorter than the encoding it is part of. */
  lemma {:induction false} PayloadFits(items: seq<Item>, i: nat)
    requires i < |items| && items[i].Data?
    ensures |items[i].d| <= |EncodeAll(items)|
    decreases |items|
  {
    hide Varint;
    if i > 0 {
      PayloadFits(items[1..], i - 1);
    }
  }

  lemma {:induction false} PeersFit<R>(c: Codec<R>, m: Message<R>)
    requires |Encode(c, m)| < W63
    ensures Fit(m.closerPeers) && Fit(m.providerPeers)
  {
    hide EncodePeer, EncodeAll, HeadItems, ClusterItems;
    var items := MessageItems(c, m);
    var h, n := |HeadItems(c, m)|, |m.closerPeers|;
    forall i | 0 <= i < n
      ensures |EncodePeer(m.closerPeers[i])| < W63
    {
      assert items[h + i] == Listed(8, m.closerPeers)[i];
      PayloadFits(items, h + i);
    }
    forall i | 0 <= i < |m.providerPeers|
      ensures |EncodePeer(m.providerPeers[i])| < W63
    {
      assert items[h + n + i] == Listed(9, m.providerPeers)[i];
      PayloadFits(items, h + n + i);
    }
  }

  /** Decoding an encoded message into any message takes it up field by field: numbers and key replace, the record is
      merged, peers and unknown fields are added. */
  lemma {:induction false} EncodedMerges<R>(c: Codec<R>, base: Message<R>, m: Message<R>, record: Option<R>)
    requires RecordMerges(c, base.record, m.record, record) && GoodMessage(m) && |Encode(c, m)| < W63
    ensures Parse(c, Encode(c, m), base) == Ok(Merged(base, m, record))
  {
    hide Lex, EncodeAll, MessageItems, Fold, AllEncodable, Raws, GoodPeers, Fit, RecordMerges;
    MessageItemsEncodable(c, m);
    PeersFit(c, m);
    LexWithTail(MessageItems(c, m), m.unrecognized, MessageKind);
    var raws := Lex(m.unrecognized, 0, MessageKind).items;
    FoldItems(c, base, m, record);
    FoldConcat(c, base, MessageItems(c, m), raws);
    FoldRaws(c, Merged(base, m, record).(unrecognized := base.unrecognized), raws);
  }

  /** Decoding an encoded message gives it back, with its unknown fields. */
  lemma {:induction false} RoundTrip<R>(c: Codec<R>, m: Message<R>)
    requires c.Restores(m.record) && GoodMessage(m) && |Encode(c, m)| < W63
    ensures Parse(c, Encode(c, m), EmptyMessage()) == Ok(m)
  {
    hide Parse, Encode, GoodMessage;
    EncodedMerges(c, EmptyMessage(), m, m.record);
    MergedIntoEmpty(m);
  }

  lemma {:induction false} MergedIntoEmpty<R>(m: Message<R>)
    ensures Merged(EmptyMessage(), m, m.record) == m
  {
    assert [] + m.closerPeers == m.closerPeers && [] + m.providerPeers == m.providerPeers;
    assert [] + m.unrecognized == m.unrecognized;
  }

  // ---------------------------------------------------------------- decoding arbitrary bytes

  /** Numbers fit 32 bits and payloads a buffer. */
  ghost predicate Sane(items: seq<Item>)
  {
    forall i :: 0 <= i < |items| ==> (items[i].Num? ==> IsInt32(items[i].x)) && (items[i].Data? ==> |items[i].d| < W63)
  }

  lemma {:induction false} ReadSane(s: Bytes, at: nat, kind: int -> Kind)
    requires |s| < W63 && ReadItem(s, at, kind).Got?
    ensures Sane([ReadItem(s, at, kind).value])
  {
    hide ReadVarint, Skip, ToInt32;
  }

  lemma {:induction false} LexSane(s: Bytes, at: nat, kind: int -> Kind)
    requires |s| < W63
    ensures Sane(Lex(s, at, kind).items)
    decreases |s|
  {
    hide ReadItem;
    if s != [] && ReadItem(s, at, kind).Got? {
      var r := ReadItem(s, at, kind);
      ReadSane(s, at, kind);
      assert Sane([r.value]) && [r.value][0] == r.value;
      LexSane(s[r.n..], at + r.n, kind);
    }
  }

  lemma {:induction false} FoldPeerKeeps(p: WirePeer, items: seq<Item>)
    requires Sane(items) && IsInt32(p.connection)
    ensures IsInt32(FoldPeer(p, items).connection)
    ensures FoldPeer(p, items).unrecognized == p.unrecognized + Raws(items)
    decreases |items|
  {
    hide ApplyPeer;
    if items == [] {
      assert p.unrecognized + [] == p.unrecognized;
    } else {
      ApplyPeerKeeps(p, items[0]);
      FoldPeerKeeps(ApplyPeer(p, items[0]), items[1..]);
      assert Raws(items) == (if items[0].Raw? then items[0].c else []) + Raws(items[1..]);
    }
  }

  lemma {:induction false} ApplyPeerKeeps(p: WirePeer, it: Item)
    requires IsInt32(p.connection) && (it.Num? ==> IsInt32(it.x))
    ensures IsInt32(ApplyPeer(p, it).connection)
    ensures ApplyPeer(p, it).unrecognized == p.unrecognized + (if it.Raw? then it.c else [])
  {
  }

  lemma {:induction false} DecodedPeerIsGood(s: Bytes)
    requires |s| < W63 && ParsePeer(s, EMPTY_PEER).Ok?
    ensures GoodPeer(ParsePeer(s, EMPTY_PEER).value)
  {
    hide Lex, Sane, Raws, FoldPeer, OnlyUnknown;
    var items := Lex(s, 0, PeerKind).items;
    LexSane(s, 0, PeerKind);
    FoldPeerKeeps(EMPTY_PEER, items);
    RawsAreUnknown(s, 0, PeerKind);
    assert [] + Raws(items) == Raws(items);
  }

  lemma {:induction false} ApplyKeeps<R>(c: Codec<R>, m: Message<R>, it: Item)
    requires Sane([it]) && IsInt32(m.typ) && IsInt32(m.clusterLevelRaw)
    requires GoodPeers(m.closerPeers) && GoodPeers(m.providerPeers) && Apply(c, m, it).Ok?
    ensures var n := Apply(c, m, it).value;
            && IsInt32(n.typ) && IsInt32(n.clusterLevelRaw) && GoodPeers(n.closerPeers) && GoodPeers(n.providerPeers)
            && n.unrecognized == m.unrecognized + (if it.Raw? then it.c else [])
  {
    hide ParsePeer, GoodPeer;
    assert [it][0] == it;
    if it.Data? && it.field != 2 && it.field != 3 {
      DecodedPeerIsGood(it.d);
    }
  }

  lemma {:induction false} FoldKeeps<R>(c: Codec<R>, m: Message<R>, items: seq<Item>)
    requires Sane(items) && IsInt32(m.typ) && IsInt32(m.clusterLevelRaw)
    requires GoodPeers(m.closerPeers) && GoodPeers(m.providerPeers) && Fold(c, m, items).Ok?
    ensures var n := Fold(c, m, items).value;
            && IsInt32(n.typ) && IsInt32(n.clusterLevelRaw) && GoodPeers(n.closerPeers) && GoodPeers(n.providerPeers)
            && n.unrecognized == m.unrecognized + Raws(items)
    decreases |items|
  {
    hide Apply, GoodPeers;
    if items == [] {
      assert m.unrecognized + [] == m.unrecognized;
    } else {
      ApplyKeeps(c, m, items[0]);
      FoldKeeps(c, Apply(c, m, items[0]).value, items[1..]);
      assert Raws(items) == (if items[0].Raw? then items[0].c else []) + Raws(items[1..]);
    }
  }

  /** Whatever bytes a message was decoded from, it is one that encoding and decoding preserve. */
  lemma {:induction false} DecodedIsGood<R>(c: Codec<R>, s: Bytes)
    requires |s| < W63 && Parse(c, s, EmptyMessage()).Ok?
    ensures GoodMessage(Parse(c, s, EmptyMessage()).value)
  {
    hide Lex, Sane, Raws, Fold, OnlyUnknown;
    var items := Lex(s, 0, MessageKind).items;
    LexSane(s, 0, MessageKind);
    FoldKeeps(c, EmptyMessage(), items);
    RawsAreUnknown(s, 0, MessageKind);
    assert [] + Raws(items) == Raws(items);
  }

  /** Re-encoding a decoded message changes nothing that decoding sees, unknown fields included. */
  lemma {:induction false} DecodeIsStable<R>(c: Codec<R>, s: Bytes)
    requires |s| < W63 && Parse(c, s, EmptyMessage()).Ok?
    requires c.Restores(Parse(c, s, EmptyMessage()).value.record)
    requires |Encode(c, Parse(c, s, EmptyMessage()).value)| < W63
    ensures Parse(c, Encode(c, Parse(c, s, EmptyMessage()).value), EmptyMessage()) == Parse(c, s, EmptyMessage())
  {
    hide Parse, Encode, GoodMessage;
    DecodedIsGood(c, s);
    RoundTrip(c, Parse(c, s, EmptyMessage()).value);
  }

  /** Decoding two encodings one after the other into a message is decoding their concatenation. */
  lemma {:induction false} ConcatIsMerge<R>(c: Codec<R>, a: Bytes, b: Bytes, m: Message<R>)
    requires |a| + |b| < W63 && Parse(c, a, m).Ok? && Parse(c, b, Parse(c, a, m).value).Ok?
    ensures Parse(c, a + b, m) == Parse(c, b, Parse(c, a, m).value)
  {
    hide Lex, Fold;
    LexConcat(a, 0, b, 0, MessageKind);
    LexMoved(b, 0, |a|, MessageKind);
    FoldConcat(c, m, Lex(a, 0, MessageKind).items, Lex(b, 0, MessageKind).items);
  }

  /** So two encodings one after the other decode into the second taken up into the first. */
  lemma {:induction false} TwoEncodings<R>(c: Codec<R>, a: Message<R>, b: Message<R>, record: Option<R>)
    requires GoodMessage(a) && GoodMessage(b) && c.Restores(a.record) && RecordMerges(c, a.record, b.record, record)
    requires |Encode(c, a)| + |Encode(c, b)| < W63
    ensures Parse(c, Encode(c, a) + Encode(c, b), EmptyMessage()) == Ok(Merged(a, b, record))
  {
    hide Parse, Encode, GoodMessage, RecordMerges;
    RoundTrip(c, a);
    EncodedMerges(c, a, b, record);
    ConcatIsMerge(c, Encode(c, a), Encode(c, b), EmptyMessage());
  }

  // ---------------------------------------------------------------- the bytes on the wire

  /** A tag byte and a payload with its length. */
  function Tagged(tag: Octet, d: Bytes): Bytes
  {
    [tag] + (Varint(|d|) + d)
  }

  function AllTagged(tag: Octet, ds: seq<Bytes>): Bytes
  {
    if ds == [] then [] else Tagged(tag, ds[0]) + AllTagged(tag, ds[1..])
  }

  /** A tag byte and a number, or nothing for zero. */
  function TaggedNumber(tag: Octet, x: int): Bytes
  {
    if x == 0 then [] else [tag] + Varint(ToUint64(x))
  }

  function PeerBytes(ps: seq<WirePeer>): seq<Bytes>
  {
    seq(|ps|, i requires 0 <= i < |ps| => EncodePeer(ps[i]))
  }

  lemma {:induction false} OneNumber(f: nat, tag: Octet, x: int)
    requires tag < 128 && tag == 8 * f
    ensures EncodeAll(if x != 0 then [Num(f, x)] else []) == TaggedNumber(tag, x)
  {
    hide ToUint64;
    assert [Num(f, x)][1..] == [] && EncodeAll([]) == [];
    assert Varint(tag) == [tag];
  }

  lemma {:induction false} OnePayload(f: nat, tag: Octet, d: Bytes)
    requires tag < 128 && tag == 8 * f + 2
    ensures EncodeItem(Data(f, d)) == Tagged(tag, d)
    ensures EncodeAll([Data(f, d)]) == Tagged(tag, d)
  {
    assert [Data(f, d)][1..] == [] && EncodeAll([]) == [];
    assert Varint(tag) == [tag];
  }

  lemma {:induction false} ManyPayloads(f: nat, tag: Octet, ds: seq<Bytes>, items: seq<Item>)
    requires tag < 128 && tag == 8 * f + 2 && |items| == |ds| && forall i :: 0 <= i < |ds| ==> items[i] == Data(f, ds[i])
    ensures EncodeAll(items) == AllTagged(tag, ds)
    decreases |ds|
  {
    hide EncodeItem, Tagged;
    if ds != [] {
      OnePayload(f, tag, ds[0]);
      ManyPayloads(f, tag, ds[1..], items[1..]);
    }
  }

  /** The bytes of a peer: its identifier always, each address, the connection type unless zero, and what was not
      recognized. */
  lemma {:induction false} PeerLayout(p: WirePeer)
    ensures EncodePeer(p) == Tagged(0x0a, p.id) + AllTagged(0x12, p.addrs) + TaggedNumber(0x18, p.connection) + p.unrecognized
  {
    hide EncodeAll, Tagged, AllTagged, TaggedNumber;
    var a, b, d := [Data(1, p.id)], AddrItems(p.addrs), if p.connection != 0 then [Num(3, p.connection)] else [];
    OnePayload(1, 0x0a, p.id);
    ManyPayloads(2, 0x12, p.addrs, b);
    OneNumber(3, 0x18, p.connection);
    EncodeAllConcat(a, b);
    EncodeAllConcat(a + b, d);
  }

  lemma {:induction false} HeadLayout<R>(c: Codec<R>, m: Message<R>)
    ensures EncodeAll(HeadItems(c, m))
         == TaggedNumber(0x08, m.typ) + (if m.key == [] then [] else Tagged(0x12, m.key))
            + (if m.record.None? then [] else Tagged(0x1a, c.enc(m.record.value)))
  {
    var a := if m.typ != 0 then [Num(1, m.typ)] else [];
    var b := if |m.key| > 0 then [Data(2, m.key)] else [];
    var d := if m.record.Some? then [Data(3, c.enc(m.record.value))] else [];
    assert EncodeAll([]) == [];
    hide EncodeAll, Tagged, TaggedNumber;
    OneNumber(1, 0x08, m.typ);
    OnePayload(2, 0x12, m.key);
    if m.record.Some? {
      OnePayload(3, 0x1a, c.enc(m.record.value));
    }
    EncodeAllConcat(a, b);
    EncodeAllConcat(a + b, d);
  }

  /** The bytes of a message, field by field in the order written; absent fields are not written. */
  lemma {:induction false} MessageLayout<R>(c: Codec<R>, m: Message<R>)
    ensures Encode(c, m)
         == TaggedNumber(0x08, m.typ) + (if m.key == [] then [] else Tagged(0x12, m.key))
            + (if m.record.None? then [] else Tagged(0x1a, c.enc(m.record.value)))
            + AllTagged(0x42, PeerBytes(m.closerPeers)) + AllTagged(0x4a, PeerBytes(m.providerPeers))
            + TaggedNumber(0x50, m.clusterLevelRaw) + m.unrecognized
  {
    hide EncodeAll, Tagged, AllTagged, TaggedNumber, HeadItems, EncodePeer;
    var a, x, y, z := HeadItems(c, m), Listed(8, m.closerPeers), Listed(9, m.providerPeers), ClusterItems(m);
    HeadLayout(c, m);
    ManyPayloads(8, 0x42, PeerBytes(m.closerPeers), x);
    ManyPayloads(9, 0x4a, PeerBytes(m.providerPeers), y);
    OneNumber(10, 0x50, m.clusterLevelRaw);
    EncodeAllConcat(a, x);
    EncodeAllConcat(a + x, y);
    EncodeAllConcat(a + x + y, z);
  }
}
