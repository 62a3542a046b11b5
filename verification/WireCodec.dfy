/**
 The codec as it runs: sizes summed up field by field, a buffer filled from its end backwards, and a reader
 that advances an index. Each is proved to agree with the encodings and decodings of `Messages`.
 */
module WireCodec {
  import opened Wrappers
  import opened WireFormat
  import opened Messages

  // ---------------------------------------------------------------- sizes

  lemma {:induction false} NumSize(f: nat, x: int)
    requires f <= 15
    ensures |EncodeItem(Num(f, x))| == 1 + Sov(ToUint64(x))
  {
    hide Sov, ToUint64;
    SovIsLength(ToUint64(x));
  }

  lemma {:induction false} DataSize(f: nat, d: Bytes)
    requires f <= 15
    ensures |EncodeItem(Data(f, d))| == 1 + |d| + Sov(|d|)
  {
    hide Sov;
    SovIsLength(|d|);
  }

  /** One more field adds its own length. */
  lemma {:induction false} EncodeSnoc(items: seq<Item>, k: nat)
    requires k < |items|
    ensures |EncodeAll(items[..k + 1])| == |EncodeAll(items[..k])| + |EncodeItem(items[k])|
  {
    hide EncodeItem;
    assert items[..k + 1] == items[..k] + [items[k]];
    EncodeAllConcat(items[..k], [items[k]]);
    assert EncodeAll([items[k]]) == EncodeItem(items[k]) + EncodeAll([]);
  }

  method PeerSize(p: WirePeer) returns (n: nat)
    ensures n == |EncodePeer(p)|
  {
    hide EncodeItem, EncodeAll, Sov;
    ghost var items := PeerItems(p);
    EncodeNil();
    assert items[..0] == [];
    EncodeSnoc(items, 0);
    DataSize(1, p.id);
    n := 1 + |p.id| + Sov(|p.id|);
    for i := 0 to |p.addrs|
      invariant n == |EncodeAll(items[..i + 1])|
    {
      EncodeSnoc(items, i + 1);
      DataSize(2, p.addrs[i]);
      n := n + 1 + |p.addrs[i]| + Sov(|p.addrs[i]|);
    }
    if p.connection != 0 {
      EncodeSnoc(items, |p.addrs| + 1);
      NumSize(3, p.connection);
      n := n + 1 + Sov(ToUint64(p.connection));
    }
    assert items[..|items|] == items;
    n := n + |p.unrecognized|;
  }

  lemma EncodeNil()
    ensures EncodeAll([]) == []
  {
  }

  method PeersSize(f: nat, ps: seq<WirePeer>) returns (n: nat)
    requires f <= 15
    ensures n == |EncodeAll(Listed(f, ps))|
  {
    hide EncodeItem, EncodeAll, EncodePeer, Sov;
    ghost var items := Listed(f, ps);
    n := 0;
    EncodeNil();
    assert items[..0] == [];
    for i := 0 to |ps|
      invariant n == |EncodeAll(items[..i])|
    {
      var l := PeerSize(ps[i]);
      EncodeSnoc(items, i);
      DataSize(f, EncodePeer(ps[i]));
      n := n + 1 + l + Sov(l);
    }
    assert items[..|ps|] == items;
  }

  method HeadSize<R>(c: Codec<R>, m: Message<R>) returns (n: nat)
    ensures n == |EncodeAll(HeadItems(c, m))|
  {
    hide EncodeItem, EncodeAll, Sov;
    ghost var items := HeadItems(c, m);
    n := 0;
    ghost var k := 0;
    EncodeNil();
    assert items[..0] == [];
    if m.typ != 0 {
      EncodeSnoc(items, k);
      NumSize(1, m.typ);
      n, k := n + 1 + Sov(ToUint64(m.typ)), k + 1;
    }
    if |m.key| > 0 {
      EncodeSnoc(items, k);
      DataSize(2, m.key);
      n, k := n + 1 + |m.key| + Sov(|m.key|), k + 1;
    }
    if m.record.Some? {
      EncodeSnoc(items, k);
      DataSize(3, c.enc(m.record.value));
      var l := |c.enc(m.record.value)|;
      n, k := n + 1 + l + Sov(l), k + 1;
    }
    assert items[..k] == items;
  }

  /** The size is the number of bytes of the encoding. */
  method Size<R>(c: Codec<R>, m: Message<R>) returns (n: nat)
    ensures n == |Encode(c, m)|
  {
    hide EncodeItem, EncodeAll, Sov, HeadItems, Listed, ClusterItems;
    var h := HeadSize(c, m);
    var x := PeersSize(8, m.closerPeers);
    var y := PeersSize(9, m.providerPeers);
    n := h + x + y;
    if m.clusterLevelRaw != 0 {
      n := n + 1 + Sov(ToUint64(m.clusterLevelRaw));
    }
    n := n + |m.unrecognized|;
    EncodeParts(c, m);
    ClusterSize(m);
  }

  lemma {:induction false} ClusterSize<R>(m: Message<R>)
    ensures |EncodeAll(ClusterItems(m))| == if m.clusterLevelRaw != 0 then 1 + Sov(ToUint64(m.clusterLevelRaw)) else 0
  {
    hide EncodeItem, Sov;
    if m.clusterLevelRaw != 0 {
      NumSize(10, m.clusterLevelRaw);
      assert ClusterItems(m)[1..] == [];
    }
  }

  lemma {:induction false} EncodeParts<R>(c: Codec<R>, m: Message<R>)
    ensures EncodeAll(MessageItems(c, m))
         == EncodeAll(HeadItems(c, m)) + EncodeAll(Listed(8, m.closerPeers)) + EncodeAll(Listed(9, m.providerPeers))
            + EncodeAll(ClusterItems(m))
  {
    hide EncodeAll, HeadItems, Listed, ClusterItems;
    EncodeAllConcat(HeadItems(c, m), Listed(8, m.closerPeers));
    EncodeAllConcat(HeadItems(c, m) + Listed(8, m.closerPeers), Listed(9, m.providerPeers));
    EncodeAllConcat(HeadItems(c, m) + Listed(8, m.closerPeers) + Listed(9, m.providerPeers), ClusterItems(m));
  }

  // ---------------------------------------------------------------- writing backwards

  /** The buffer holds `written` from `i` to `end` and is otherwise as before. */
  predicate Filled(before: Bytes, now: Bytes, i: nat, end: nat, written: Bytes)
  {
    && i <= end <= |before|
    && |written| == end - i
    && now == before[..i] + written + before[end..]
  }

  lemma {:induction false} FilledFront(before: Bytes, mid: Bytes, now: Bytes, j: nat, i: nat, end: nat, front: Bytes, written: Bytes)
    requires Filled(before, mid, i, end, written) && Filled(mid, now, j, i, front)
    ensures Filled(before, now, j, end, front + written)
  {
    assert mid[..j] == before[..j];
    assert mid[i..] == written + before[end..];
    assert now == before[..j] + (front + written) + before[end..];
  }

  method PutBytes(a: array<Octet>, i: nat, d: Bytes)
    requires |d| <= i <= a.Length
    modifies a
    ensures Filled(old(a[..]), a[..], i - |d|, i, d)
  {
    var j := i - |d|;
    forall k | 0 <= k < |d| {
      a[j + k] := d[k];
    }
    assert a[j..i] == d;
    assert a[..j] == old(a[..])[..j];
    assert a[i..] == old(a[..])[i..];
    assert a[..] == a[..j] + a[j..i] + a[i..];
  }

  /** The bytes of the number, low groups first, in the space before `offset`. */
  method EncodeVarint(a: array<Octet>, offset: nat, v: nat) returns (base: nat)
    requires |Varint(v)| <= offset <= a.Length
    modifies a
    ensures base == offset - |Varint(v)|
    ensures Filled(old(a[..]), a[..], base, offset, Varint(v))
  {
    hide Sov;
    SovIsLength(v);
    base := offset - Sov(v);
    var o, w := base, v;
    ghost var bytes := Varint(v);
    while w >= 128
      invariant base <= o < offset && bytes[o - base..] == Varint(w)
      invariant forall k :: base <= k < o ==> a[k] == bytes[k - base]
      invariant forall k :: 0 <= k < base || offset <= k < a.Length ==> a[k] == old(a[k])
      decreases w
    {
      VarintCons(w);
      assert bytes[o - base] == bytes[o - base..][0];
      assert bytes[o + 1 - base..] == bytes[o - base..][1..];
      a[o] := w % 128 + 128;
      w := w / 128;
      o := o + 1;
    }
    VarintSmall(w);
    assert bytes[o - base] == bytes[o - base..][0];
    a[o] := w;
    FilledByIndex(old(a[..]), a[..], base, offset, bytes);
  }

  lemma {:induction false} VarintCons(w: nat)
    requires w >= 128
    ensures Varint(w)[0] == w % 128 + 128 && Varint(w)[1..] == Varint(w / 128)
  {
  }

  lemma {:induction false} VarintSmall(w: nat)
    requires w < 128
    ensures Varint(w) == [w]
  {
  }

  lemma {:induction false} FilledByIndex(before: Bytes, now: Bytes, i: nat, end: nat, written: Bytes)
    requires i <= end <= |before| == |now| && |written| == end - i
    requires forall k :: i <= k < end ==> now[k] == written[k - i]
    requires forall k :: 0 <= k < i || end <= k < |now| ==> now[k] == before[k]
    ensures Filled(before, now, i, end, written)
  {
  }

  /** A number with its tag in front. */
  method PutNum(a: array<Octet>, i: nat, tag: Octet, ghost f: nat, x: int) returns (j: nat)
    requires tag == 8 * f && tag < 128
    requires |EncodeItem(Num(f, x))| <= i <= a.Length
    modifies a
    ensures j + |EncodeItem(Num(f, x))| == i && Filled(old(a[..]), a[..], j, i, EncodeItem(Num(f, x)))
  {
    hide Sov, ToUint64;
    SovIsLength(ToUint64(x));
    j := EncodeVarint(a, i, ToUint64(x));
    j := PutTag(a, old(a[..]), j, i, tag, Varint(ToUint64(x)));
  }

  method PutTag(a: array<Octet>, ghost before: Bytes, i: nat, ghost end: nat, tag: Octet, ghost written: Bytes) returns (j: nat)
    requires tag < 128 && 1 <= i && Filled(before, a[..], i, end, written)
    modifies a
    ensures j == i - 1 && Filled(before, a[..], j, end, Varint(tag) + written)
  {
    j := i - 1;
    ghost var mid := a[..];
    a[j] := tag;
    assert Filled(mid, a[..], j, i, [tag]) by {
      assert a[..] == mid[..j] + [tag] + mid[i..];
    }
    FilledFront(before, mid, a[..], j, i, end, [tag], written);
  }

  lemma {:induction false} DataParts(tag: Octet, f: nat, d: Bytes)
    requires tag == 8 * f + 2 && tag < 128
    ensures EncodeItem(Data(f, d)) == Varint(tag) + (Varint(|d|) + d) && |Varint(tag)| == 1
  {
    hide Varint;
    VarintSmall(tag);
  }

  /** The length and the tag in front of a payload already written. */
  method PutLength(a: array<Octet>, ghost before: Bytes, i: nat, ghost end: nat, tag: Octet, ghost f: nat, size: nat, ghost d: Bytes) returns (j: nat)
    requires tag == 8 * f + 2 && tag < 128 && |d| == size && |EncodeItem(Data(f, d))| <= end
    requires i + size == end <= a.Length && Filled(before, a[..], i, end, d)
    modifies a
    ensures j + |EncodeItem(Data(f, d))| == end && Filled(before, a[..], j, end, EncodeItem(Data(f, d)))
  {
    hide Sov, EncodeItem, Varint, Filled;
    SovIsLength(size);
    DataParts(tag, f, d);
    ghost var mid := a[..];
    j := EncodeVarint(a, i, size);
    FilledFront(before, mid, a[..], j, i, end, Varint(size), d);
    j := PutTag(a, before, j, end, tag, Varint(size) + d);
  }

  /** A payload with its length and tag. */
  method PutData(a: array<Octet>, i: nat, tag: Octet, ghost f: nat, d: Bytes) returns (j: nat)
    requires tag == 8 * f + 2 && tag < 128 && |EncodeItem(Data(f, d))| <= i <= a.Length
    modifies a
    ensures j + |EncodeItem(Data(f, d))| == i && Filled(old(a[..]), a[..], j, i, EncodeItem(Data(f, d)))
  {
    hide Varint;
    PutBytes(a, i, d);
    j := PutLength(a, old(a[..]), i - |d|, i, tag, f, |d|, d);
  }

  // ---------------------------------------------------------------- progress through the fields

  /** The fields from the `k`-th on and the tail are in place, ending at `end`, and there is room for all. */
  ghost predicate Progress(before: Bytes, now: Bytes, i: nat, end: nat, items: seq<Item>, k: nat, u: Bytes)
  {
    && k <= |items|
    && Filled(before, now, i, end, EncodeAll(items[k..]) + u)
    && |EncodeAll(items)| + |u| <= end
  }

  lemma {:induction false} Room(items: seq<Item>, k: nat)
    requires k < |items|
    ensures EncodeAll(items[k..]) == EncodeItem(items[k]) + EncodeAll(items[k + 1..])
    ensures |EncodeAll(items[k..])| <= |EncodeAll(items)|
  {
    hide EncodeItem;
    assert items[k..][1..] == items[k + 1..];
    EncodeAllConcat(items[..k], items[k..]);
    assert items == items[..k] + items[k..];
  }

  lemma {:induction false} RoomFor(before: Bytes, now: Bytes, i: nat, end: nat, items: seq<Item>, k: nat, u: Bytes)
    requires k < |items| && Progress(before, now, i, end, items, k + 1, u)
    ensures |EncodeItem(items[k])| <= i <= |now|
  {
    hide EncodeItem, EncodeAll;
    Room(items, k);
  }

  lemma {:induction false} Advance(before: Bytes, mid: Bytes, now: Bytes, j: nat, i: nat, end: nat, items: seq<Item>, k: nat, u: Bytes)
    requires k < |items| && Progress(before, mid, i, end, items, k + 1, u) && Filled(mid, now, j, i, EncodeItem(items[k]))
    ensures Progress(before, now, j, end, items, k, u)
  {
    hide EncodeItem, EncodeAll, Filled;
    Room(items, k);
    var one, more := EncodeItem(items[k]), EncodeAll(items[k + 1..]);
    FilledFront(before, mid, now, j, i, end, one, more + u);
    assert one + (more + u) == one + more + u;
  }

  lemma {:induction false} Begun(before: Bytes, now: Bytes, end: nat, items: seq<Item>, u: Bytes)
    requires |EncodeAll(items)| + |u| <= end <= |before| && Filled(before, now, end - |u|, end, u)
    ensures Progress(before, now, end - |u|, end, items, |items|, u)
  {
    hide Filled;
    assert items[|items|..] == [];
    assert EncodeAll([]) + u == u;
  }

  lemma {:induction false} Complete(before: Bytes, now: Bytes, i: nat, end: nat, items: seq<Item>, u: Bytes)
    requires Progress(before, now, i, end, items, 0, u)
    ensures i == end - |EncodeAll(items) + u| && Filled(before, now, i, end, EncodeAll(items) + u)
  {
    assert items[0..] == items;
  }

  // ---------------------------------------------------------------- marshalling

  /** Writes the peer so that it ends at `end`, and returns how many bytes that took. */
  method MarshalPeer(a: array<Octet>, end: nat, p: WirePeer) returns (n: nat)
    requires |EncodePeer(p)| <= end <= a.Length
    modifies a
    ensures n == |EncodePeer(p)| && Filled(old(a[..]), a[..], end - n, end, EncodePeer(p))
  {
    hide EncodeItem, EncodeAll, Filled, Progress;
    ghost var before, items, u := a[..], PeerItems(p), p.unrecognized;
    PutBytes(a, end, p.unrecognized);
    var i: nat := end - |p.unrecognized|;
    Begun(before, a[..], end, items, u);
    if p.connection != 0 {
      i := PutNumField(a, before, i, end, 0x18, 3, p.connection, items, |p.addrs| + 1, u);
    }
    var k := |p.addrs|;
    while k > 0
      invariant 0 <= k <= |p.addrs| && Progress(before, a[..], i, end, items, k + 1, u)
    {
      k := k - 1;
      i := PutDataField(a, before, i, end, 0x12, 2, p.addrs[k], items, k + 1, u);
    }
    i := PutDataField(a, before, i, end, 0x0a, 1, p.id, items, 0, u);
    Complete(before, a[..], i, end, items, u);
    n := end - i;
  }

  method PutNumField(a: array<Octet>, ghost before: Bytes, i: nat, ghost end: nat, tag: Octet, ghost f: nat, x: int,
                     ghost items: seq<Item>, ghost k: nat, ghost u: Bytes) returns (j: nat)
    requires tag == 8 * f && tag < 128 && k < |items| && items[k] == Num(f, x)
    requires Progress(before, a[..], i, end, items, k + 1, u)
    modifies a
    ensures Progress(before, a[..], j, end, items, k, u)
  {
    hide EncodeItem, EncodeAll, Filled, Progress;
    ghost var mid := a[..];
    RoomFor(before, mid, i, end, items, k, u);
    j := PutNum(a, i, tag, f, x);
    Advance(before, mid, a[..], j, i, end, items, k, u);
  }

  method PutDataField(a: array<Octet>, ghost before: Bytes, i: nat, ghost end: nat, tag: Octet, ghost f: nat, d: Bytes,
                      ghost items: seq<Item>, ghost k: nat, ghost u: Bytes) returns (j: nat)
    requires tag == 8 * f + 2 && tag < 128 && k < |items| && items[k] == Data(f, d)
    requires Progress(before, a[..], i, end, items, k + 1, u)
    modifies a
    ensures Progress(before, a[..], j, end, items, k, u)
  {
    hide EncodeItem, EncodeAll, Filled, Progress;
    ghost var mid := a[..];
    RoomFor(before, mid, i, end, items, k, u);
    j := PutData(a, i, tag, f, d);
    Advance(before, mid, a[..], j, i, end, items, k, u);
  }

  /** A listed peer is written in place, then its length and tag in front. */
  method PutPeerField(a: array<Octet>, ghost before: Bytes, i: nat, ghost end: nat, tag: Octet, ghost f: nat, p: WirePeer,
                      ghost items: seq<Item>, ghost k: nat, ghost u: Bytes) returns (j: nat)
    requires tag == 8 * f + 2 && tag < 128 && k < |items| && items[k] == Data(f, EncodePeer(p))
    requires Progress(before, a[..], i, end, items, k + 1, u)
    modifies a
    ensures Progress(before, a[..], j, end, items, k, u)
  {
    hide EncodeItem, EncodeAll, Filled, Progress, EncodePeer;
    ghost var mid := a[..];
    RoomFor(before, mid, i, end, items, k, u);
    PayloadWithin(f, EncodePeer(p));
    var size := MarshalPeer(a, i, p);
    j := PutLength(a, mid, i - size, i, tag, f, size, EncodePeer(p));
    Advance(before, mid, a[..], j, i, end, items, k, u);
  }

  lemma {:induction false} PayloadWithin(f: nat, d: Bytes)
    ensures |d| <= |EncodeItem(Data(f, d))|
  {
  }

  /** The peers of a list are written from the last to the first. */
  method PutPeers(a: array<Octet>, ghost before: Bytes, i: nat, ghost end: nat, tag: Octet, ghost f: nat, ps: seq<WirePeer>,
                  ghost items: seq<Item>, ghost k: nat, ghost u: Bytes) returns (j: nat)
    requires tag == 8 * f + 2 && tag < 128
    requires k + |ps| <= |items| && items[k..k + |ps|] == Listed(f, ps)
    requires Progress(before, a[..], i, end, items, k + |ps|, u)
    modifies a
    ensures Progress(before, a[..], j, end, items, k, u)
  {
    hide EncodeItem, EncodeAll, Filled, Progress, EncodePeer;
    j := i;
    var h := |ps|;
    while h > 0
      invariant 0 <= h <= |ps| && Progress(before, a[..], j, end, items, k + h, u)
    {
      h := h - 1;
      assert items[k + h] == items[k..k + |ps|][h];
      j := PutPeerField(a, before, j, end, tag, f, ps[h], items, k + h, u);
    }
  }

  method PutHead<R>(c: Codec<R>, a: array<Octet>, ghost before: Bytes, i: nat, ghost end: nat, m: Message<R>,
                    ghost items: seq<Item>, ghost u: Bytes) returns (j: nat)
    requires |HeadItems(c, m)| <= |items| && items[..|HeadItems(c, m)|] == HeadItems(c, m)
    requires Progress(before, a[..], i, end, items, |HeadItems(c, m)|, u)
    modifies a
    ensures Progress(before, a[..], j, end, items, 0, u)
  {
    hide EncodeItem, EncodeAll, Filled, Progress;
    ghost var head := HeadItems(c, m);
    ghost var k := |head|;
    assert forall h :: 0 <= h < |head| ==> items[h] == head[h];
    j := i;
    if m.record.Some? {
      k := k - 1;
      j := PutDataField(a, before, j, end, 0x1a, 3, c.enc(m.record.value), items, k, u);
    }
    if |m.key| > 0 {
      k := k - 1;
      j := PutDataField(a, before, j, end, 0x12, 2, m.key, items, k, u);
    }
    if m.typ != 0 {
      k := k - 1;
      j := PutNumField(a, before, j, end, 0x08, 1, m.typ, items, k, u);
    }
  }

  /** Where each part of a message's fields lies. */
  lemma {:induction false} ItemParts<R>(c: Codec<R>, m: Message<R>)
    ensures var items := MessageItems(c, m);
            var x := |HeadItems(c, m)|;
            var y := x + |m.closerPeers|;
            var z := y + |m.providerPeers|;
            && |items| == z + |ClusterItems(m)| && items[..x] == HeadItems(c, m)
            && items[x..y] == Listed(8, m.closerPeers) && items[y..z] == Listed(9, m.providerPeers)
            && items[z..] == ClusterItems(m)
  {
    hide HeadItems, EncodePeer, ClusterItems;
  }

  /** Writes the message so that it ends at `end`: the bytes before its start are untouched. */
  method MarshalToSizedBuffer<R>(c: Codec<R>, a: array<Octet>, end: nat, m: Message<R>) returns (n: nat)
    requires |Encode(c, m)| <= end <= a.Length
    modifies a
    ensures n == |Encode(c, m)| && Filled(old(a[..]), a[..], end - n, end, Encode(c, m))
  {
    hide EncodeItem, EncodeAll, Filled, Progress, HeadItems, Listed, MessageItems;
    ghost var before, items, u := a[..], MessageItems(c, m), m.unrecognized;
    ghost var x := |HeadItems(c, m)|;
    ghost var y := x + |m.closerPeers|;
    ghost var z := y + |m.providerPeers|;
    ItemParts(c, m);
    PutBytes(a, end, m.unrecognized);
    var i: nat := end - |m.unrecognized|;
    Begun(before, a[..], end, items, u);
    if m.clusterLevelRaw != 0 {
      assert items[z] == items[z..][0];
      i := PutNumField(a, before, i, end, 0x50, 10, m.clusterLevelRaw, items, z, u);
    }
    i := PutPeers(a, before, i, end, 0x4a, 9, m.providerPeers, items, y, u);
    i := PutPeers(a, before, i, end, 0x42, 8, m.closerPeers, items, x, u);
    i := PutHead(c, a, before, i, end, m, items, u);
    Complete(before, a[..], i, end, items, u);
    n := end - i;
  }

  /** A buffer of the computed size is filled exactly, and holds the encoding. */
  method Marshal<R>(c: Codec<R>, m: Message<R>) returns (a: array<Octet>)
    ensures fresh(a) && a[..] == Encode(c, m)
  {
    hide Encode;
    var size := Size(c, m);
    a := new Octet[size](_ => 0);
    var n := MarshalToSizedBuffer(c, a, size, m);
    assert n == size;
  }

  // ---------------------------------------------------------------- unmarshalling

  function Grow(low: nat, scale: nat, group: nat): nat
  {
    low + scale * group
  }

  /** What the bytes from `start` read as, given that `k` of them, worth `low`, have been read. */
  ghost predicate ReadSoFar(data: Bytes, start: nat, k: nat, low: nat)
  {
    && start + k <= |data| && k <= 10
    && ReadRaw(data[start..], 10)
       == match ReadRaw(data[start + k..], 10 - k)
          case Bad(e) => Bad(e)
          case Got(v, n) => Got(Grow(low, Pow128(k), v), k + n)
  }

  lemma {:induction false} ReadMore(data: Bytes, start: nat, k: nat, low: nat)
    requires ReadSoFar(data, start, k, low) && k < 10 && start + k < |data| && data[start + k] >= 128
    ensures ReadSoFar(data, start, k + 1, Grow(low, Pow128(k), data[start + k] % 128))
  {
    hide Grow;
    var s := data[start + k..];
    assert s[1..] == data[start + k + 1..];
    var rest := ReadRaw(s[1..], 9 - k);
    assert s[0] == data[start + k];
    if rest.Got? {
      Horner(low, Pow128(k), s[0] % 128, rest.value);
    }
  }

  lemma {:induction false} Horner(low: nat, p: nat, b: nat, v: nat)
    ensures Grow(low, p, b + 128 * v) == Grow(Grow(low, p, b), 128 * p, v)
  {
  }

  /** The seven-bit groups are added up in 64 bits. They do not overlap, so that adding is or-ing. */
  method ReadVarintAt(data: Bytes, start: nat) returns (r: Read<nat>)
    requires start <= |data|
    ensures r == ReadVarint(data[start..])
  {
    hide ReadRaw, Grow;
    var shift, i, acc, scale := 0, start, 0, 1;
    ghost var k: nat, low: nat := 0, 0;
    SoFarStart(data, start);
    while true
      invariant shift == 7 * k && i == start + k && scale == Pow128(k) && acc == low % W64
      invariant ReadSoFar(data, start, k, low)
      decreases 10 - k
    {
      SoFarEnd(data, start, k, low);
      if shift >= 64 {
        return Bad(IntOverflow);
      }
      if i >= |data| {
        return Bad(UnexpectedEof);
      }
      var b := data[i];
      AddGroup(acc, low, scale, b % 128);
      acc := Grow(acc, scale, b % 128) % W64;
      i := i + 1;
      if b < 128 {
        return Got(acc, i - start);
      }
      ReadMore(data, start, k, low);
      low, k := Grow(low, scale, b % 128), k + 1;
      scale, shift := 128 * scale, shift + 7;
    }
  }

  lemma {:induction false} AddGroup(acc: nat, low: nat, scale: nat, b: nat)
    requires acc == low % W64
    ensures Grow(acc, scale, b) % W64 == Grow(low, scale, b) % W64
  {
    AddMod(acc, low, scale * b);
  }

  lemma {:induction false} AddMod(acc: nat, low: nat, x: int)
    requires acc == low % W64
    ensures (acc + x) % W64 == (low + x) % W64
  {
  }

  lemma {:induction false} SoFarStart(data: Bytes, start: nat)
    requires start <= |data|
    ensures ReadSoFar(data, start, 0, 0)
  {
  }

  lemma {:induction false} SoFarEnd(data: Bytes, start: nat, k: nat, low: nat)
    requires ReadSoFar(data, start, k, low)
    ensures k == 10 ==> ReadVarint(data[start..]) == Bad(IntOverflow)
    ensures k < 10 && start + k == |data| ==> ReadVarint(data[start..]) == Bad(UnexpectedEof)
    ensures k < 10 && start + k < |data| && data[start + k] < 128 ==>
              ReadVarint(data[start..]) == Got(Grow(low, Pow128(k), data[start + k]) % W64, k + 1)
  {
    if start + k < |data| {
      assert data[start + k..][0] == data[start + k];
    }
  }

  /** The number of bytes of the field or balanced group at the front. */
  method SkipField(data: Bytes) returns (r: Result<nat>)
    ensures r == Skip(data, 0, 0)
  {
    hide ReadVarint, ReadRaw;
    var i, depth := 0, 0;
    while i < |data|
      invariant Skip(data, i, depth) == Skip(data, 0, 0)
      decreases |data| - i
    {
      var tag := ReadVarintAt(data, i);
      if tag.Bad? {
        return Err(tag.error);
      }
      i := i + tag.n;
      match tag.value % 8 {
        case 0 =>
          var v := ReadVarintAt(data, i);
          RawIsVarint(data[i..]);
          if v.Bad? {
            return Err(v.error);
          }
          i := i + v.n;
        case 1 => i := i + 8;
        case 2 =>
          var len := ReadVarintAt(data, i);
          if len.Bad? {
            return Err(len.error);
          }
          if len.value >= W63 {
            return Err(InvalidLength);
          }
          i := i + len.n + len.value;
        case 3 => depth := depth + 1;
        case 4 =>
          if depth == 0 {
            return Err(UnexpectedEndOfGroup);
          }
          depth := depth - 1;
        case 5 => i := i + 4;
        case _ => return Err(IllegalWireType);
      }
      if i >= W63 {
        return Err(InvalidLength);
      }
      if depth == 0 {
        return Ok(i);
      }
    }
    r := Err(UnexpectedEof);
  }

  lemma {:induction false} RawIsVarint(s: Bytes)
    ensures ReadVarint(s).Bad? <==> ReadRaw(s, 10).Bad?
    ensures ReadVarint(s).Bad? ==> ReadVarint(s).error == ReadRaw(s, 10).error
    ensures ReadVarint(s).Got? ==> ReadVarint(s).n == ReadRaw(s, 10).n
  {
  }

  /** One field of a message or peer from index `i` on. */
  method ReadField(data: Bytes, i: nat, kind: int -> Kind) returns (r: Read<Item>)
    requires i < |data|
    ensures r == ReadItem(data[i..], i, kind)
  {
    hide ReadVarint, ReadRaw, Skip, ToInt32;
    ghost var s := data[i..];
    var tag := ReadVarintAt(data, i);
    if tag.Bad? {
      return Bad(tag.error);
    }
    var field, wire := ToInt32(tag.value / 8), tag.value % 8;
    if wire == 4 {
      return Bad(EndGroup);
    }
    if field <= 0 {
      return Bad(IllegalTag);
    }
    var j := i + tag.n;
    assert data[j..] == s[tag.n..];
    match kind(field) {
      case Number =>
        if wire != 0 {
          return Bad(WrongWireType);
        }
        var v := ReadVarintAt(data, j);
        if v.Bad? {
          return Bad(v.error);
        }
        return Got(Num(field, ToInt32(v.value)), tag.n + v.n);
      case Payload =>
        if wire != 2 {
          return Bad(WrongWireType);
        }
        var len := ReadVarintAt(data, j);
        if len.Bad? {
          return Bad(len.error);
        }
        if len.value >= W63 {
          return Bad(InvalidLength);
        }
        j := j + len.n;
        var post := j + len.value;
        if post >= W63 {
          return Bad(InvalidLength);
        }
        if post > |data| {
          return Bad(UnexpectedEof);
        }
        assert data[j..post] == s[tag.n + len.n..tag.n + len.n + len.value];
        return Got(Data(field, data[j..post]), post - i);
      case Unknown =>
        var n := SkipField(data[i..]);
        if n.Err? {
          return Bad(n.error);
        }
        if i + n.value >= W63 {
          return Bad(InvalidLength);
        }
        if i + n.value > |data| {
          return Bad(UnexpectedEof);
        }
        assert data[i..i + n.value] == s[..n.value];
        return Got(Raw(data[i..i + n.value]), n.value);
    }
  }

  lemma {:induction false} ParsePeerStep(s: Bytes, at: nat, p: WirePeer)
    requires s != []
    ensures ReadItem(s, at, PeerKind).Bad? ==> ParsePeerAt(s, at, p) == Err(ReadItem(s, at, PeerKind).error)
    ensures ReadItem(s, at, PeerKind).Got? ==>
              var r := ReadItem(s, at, PeerKind);
              ParsePeerAt(s, at, p) == ParsePeerAt(s[r.n..], at + r.n, ApplyPeer(p, r.value))
  {
    hide ReadItem, Lex, ApplyPeer;
    LexCons(s, at, PeerKind);
    var r := ReadItem(s, at, PeerKind);
    if r.Got? {
      var more := Lex(s[r.n..], at + r.n, PeerKind).items;
      assert ([r.value] + more)[1..] == more;
    }
  }

  /** Decodes the fields of a peer one after another into `p`. */
  method UnmarshalPeer(data: Bytes, p0: WirePeer) returns (r: Result<WirePeer>)
    ensures r == ParsePeer(data, p0)
  {
    hide ReadItem, Lex, FoldPeer, ApplyPeer;
    var i, p := 0, p0;
    assert data[0..] == data;
    while i < |data|
      invariant 0 <= i <= |data| && ParsePeerAt(data[i..], i, p) == ParsePeer(data, p0)
      decreases |data| - i
    {
      ParsePeerStep(data[i..], i, p);
      var f := ReadField(data, i, PeerKind);
      if f.Bad? {
        return Err(f.error);
      }
      assert data[i..][f.n..] == data[i + f.n..];
      p := SetPeerField(p, f.value);
      i := i + f.n;
    }
    assert data[i..] == [];
    PeerDone(i, p);
    r := Ok(p);
  }

  lemma {:induction false} PeerDone(at: nat, p: WirePeer)
    ensures ParsePeerAt([], at, p) == Ok(p)
  {
  }

  method SetPeerField(p: WirePeer, it: Item) returns (q: WirePeer)
    ensures q == ApplyPeer(p, it)
  {
    match it
    case Num(_, x) => q := p.(connection := x);
    case Data(f, d) =>
      if f == 1 {
        q := p.(id := d);
      } else {
        q := p.(addrs := p.addrs + [d]);
      }
    case Raw(c) => q := p.(unrecognized := p.unrecognized + c);
  }

  lemma {:induction false} ParseStep<R>(c: Codec<R>, s: Bytes, at: nat, m: Message<R>)
    requires s != []
    ensures ReadItem(s, at, MessageKind).Bad? ==> ParseAt(c, s, at, m) == Err(ReadItem(s, at, MessageKind).error)
    ensures ReadItem(s, at, MessageKind).Got? ==>
              var r := ReadItem(s, at, MessageKind);
              ParseAt(c, s, at, m) == match Apply(c, m, r.value)
                                      case Err(e) => Err(e)
                                      case Ok(n) => ParseAt(c, s[r.n..], at + r.n, n)
  {
    hide ReadItem, Lex, Apply;
    LexCons(s, at, MessageKind);
    var r := ReadItem(s, at, MessageKind);
    if r.Got? {
      var more := Lex(s[r.n..], at + r.n, MessageKind).items;
      assert ([r.value] + more)[1..] == more;
    }
  }

  /** Decodes the fields of a message one after another into `m`. */
  method Unmarshal<R>(c: Codec<R>, data: Bytes, m0: Message<R>) returns (r: Result<Message<R>>)
    ensures r == Parse(c, data, m0)
  {
    hide ReadItem, Lex, Fold, Apply;
    var i, m := 0, m0;
    assert data[0..] == data;
    while i < |data|
      invariant 0 <= i <= |data| && ParseAt(c, data[i..], i, m) == Parse(c, data, m0)
      decreases |data| - i
    {
      ParseStep(c, data[i..], i, m);
      var f := ReadField(data, i, MessageKind);
      if f.Bad? {
        return Err(f.error);
      }
      assert data[i..][f.n..] == data[i + f.n..];
      var n := SetField(c, m, f.value);
      if n.Err? {
        return Err(n.error);
      }
      m := n.value;
      i := i + f.n;
    }
    assert data[i..] == [];
    Done(c, i, m);
    r := Ok(m);
  }

  lemma {:induction false} Done<R>(c: Codec<R>, at: nat, m: Message<R>)
    ensures ParseAt(c, [], at, m) == Ok(m)
  {
  }

  method SetField<R>(c: Codec<R>, m: Message<R>, it: Item) returns (r: Result<Message<R>>)
    ensures r == Apply(c, m, it)
  {
    hide ParsePeer;
    match it
    case Num(f, x) =>
      if f == 1 {
        r := Ok(m.(typ := x));
      } else {
        r := Ok(m.(clusterLevelRaw := x));
      }
    case Raw(b) => r := Ok(m.(unrecognized := m.unrecognized + b));
    case Data(f, d) =>
      if f == 2 {
        r := Ok(m.(key := d));
      } else if f == 3 {
        var into := c.empty;
        if m.record.Some? {
          into := m.record.value;
        }
        var merged := c.merge(into, d);
        if merged.Err? {
          return Err(merged.error);
        }
        r := Ok(m.(record := Some(merged.value)));
      } else {
        var p := UnmarshalPeer(d, EMPTY_PEER);
        if p.Err? {
          return Err(p.error);
        }
        if f == 8 {
          r := Ok(m.(closerPeers := m.closerPeers + [p.value]));
        } else {
          r := Ok(m.(providerPeers := m.providerPeers + [p.value]));
        }
      }
  }
}
