/**
 Fields that a schema does not know, as their sender wrote them: how far each reaches, and which bytes are errors.
 */
module UnknownFields {
  import opened Wrappers
  import opened WireFormat
  import opened Messages

  /** A field of any wire type. A group ends with a tag of its own, whose number the reader does not compare. */
  datatype Field =
    | VarField(f: nat, v: nat)
    | Fixed64(f: nat, d: Bytes)
    | Delimited(f: nat, d: Bytes)
    | Group(f: nat, inner: seq<Field>, g: nat)
    | Fixed32(f: nat, d: Bytes)

  predicate Good(x: Field)
  {
    && x.f < W31
    && match x
       case VarField(_, v) => v < W64
       case Fixed64(_, d) => |d| == 8
       case Delimited(_, d) => true
       case Group(_, inner, g) => g < W31 && AllGood(inner)
       case Fixed32(_, d) => |d| == 4
  }

  predicate AllGood(xs: seq<Field>)
  {
    xs == [] || (Good(xs[0]) && AllGood(xs[1..]))
  }

  function BytesOf(x: Field): (b: Bytes)
    ensures |b| >= 1
  {
    match x
    case VarField(f, v) => Varint(8 * f) + Varint(v)
    case Fixed64(f, d) => Varint(8 * f + 1) + d
    case Delimited(f, d) => Varint(8 * f + 2) + (Varint(|d|) + d)
    case Group(f, inner, g) => Varint(8 * f + 3) + (BytesOfAll(inner) + Varint(8 * g + 4))
    case Fixed32(f, d) => Varint(8 * f + 5) + d
  }

  function BytesOfAll(xs: seq<Field>): Bytes
  {
    if xs == [] then [] else BytesOf(xs[0]) + BytesOfAll(xs[1..])
  }

  /** `b` stands in `s` from `i` on. */
  predicate Stands(s: Bytes, i: nat, b: Bytes)
  {
    i + |b| <= |s| && s[i..i + |b|] == b
  }

  lemma {:induction false} StandsParts(s: Bytes, i: nat, a: Bytes, b: Bytes)
    requires Stands(s, i, a + b)
    ensures Stands(s, i, a) && Stands(s, i + |a|, b)
  {
    var ab := s[i..i + |a + b|];
    assert s[i..i + |a|] == ab[..|a|] == a;
    assert s[i + |a|..i + |a| + |b|] == ab[|a|..] == b;
  }

  lemma {:induction false} StandsSplit(s: Bytes, i: nat, b: Bytes)
    requires Stands(s, i, b)
    ensures i + |b| <= |s| && s[i..] == b + s[i + |b|..]
  {
    assert s[i..] == s[i..i + |b|] + s[i + |b|..];
  }

  lemma {:induction false} ReadStanding(s: Bytes, i: nat, v: nat)
    requires Stands(s, i, Varint(v)) && v < W64
    ensures i + |Varint(v)| <= |s|
    ensures ReadVarint(s[i..]) == Got(v, |Varint(v)|) && ReadRaw(s[i..], 10) == Got(v, |Varint(v)|)
  {
    hide Varint, ReadRaw, ReadVarint, Stands;
    StandsSplit(s, i, Varint(v));
    RawRoundTrip(v, s[i + |Varint(v)|..]);
    VarintRoundTrip(v, s[i + |Varint(v)|..]);
  }

  /** What skipping makes of the index and depth behind a tag. */
  function SkipOn(s: Bytes, r: Result<(nat, nat)>): Result<nat>
  {
    match r
    case Err(e) => Err(e)
    case Ok((k, d)) => if k >= W63 then Err(InvalidLength) else if d == 0 then Ok(k) else Skip(s, k, d)
  }

  lemma {:induction false} SkipUnfolds(s: Bytes, i: nat, tag: nat, n: nat, depth: nat)
    requires i < |s| && ReadVarint(s[i..]) == Got(tag, n)
    ensures i + n <= |s| && Skip(s, i, depth) == SkipOn(s, SkipOne(s, i + n, tag % 8, depth))
  {
    hide ReadVarint, SkipOne;
  }

  /** Skipping from a tag goes on behind the tag as its wire type says. */
  lemma {:induction false} SkipTag(s: Bytes, i: nat, f: nat, wire: nat, depth: nat)
    requires f < W31 && wire < 8 && Stands(s, i, Varint(8 * f + wire))
    ensures i + |Varint(8 * f + wire)| <= |s|
    ensures Skip(s, i, depth) == SkipOn(s, SkipOne(s, i + |Varint(8 * f + wire)|, wire, depth))
  {
    hide Varint, ReadVarint, SkipOne, Skip, SkipOn, ReadRaw, ToInt32;
    TagParts(f, wire);
    ReadStanding(s, i, 8 * f + wire);
    SkipUnfolds(s, i, 8 * f + wire, |Varint(8 * f + wire)|, depth);
  }

  /** What skipping a complete field comes to: at the top level it ends behind the field, in a group it goes on there. */
  ghost predicate SkipsTo(s: Bytes, i: nat, j: nat, depth: nat)
  {
    Skip(s, i, depth) == if depth == 0 then Ok(j) else Skip(s, j, depth)
  }

  lemma {:induction false} SkipsVar(s: Bytes, i: nat, f: nat, v: nat, depth: nat)
    requires f < W31 && v < W64 && Stands(s, i, Varint(8 * f) + Varint(v)) && |s| < W63
    ensures SkipsTo(s, i, i + |Varint(8 * f) + Varint(v)|, depth)
  {
    hide Varint, Skip, ReadVarint, ReadRaw, Stands;
    StandsParts(s, i, Varint(8 * f + 0), Varint(v));
    SkipTag(s, i, f, 0, depth);
    ReadStanding(s, i + |Varint(8 * f + 0)|, v);
  }

  lemma {:induction false} SkipsFixed(s: Bytes, i: nat, f: nat, d: Bytes, wire: nat, depth: nat)
    requires f < W31 && ((wire == 1 && |d| == 8) || (wire == 5 && |d| == 4))
    requires Stands(s, i, Varint(8 * f + wire) + d) && |s| < W63
    ensures SkipsTo(s, i, i + |Varint(8 * f + wire) + d|, depth)
  {
    hide Varint, Skip, ReadVarint, ReadRaw, Stands;
    StandsBound(s, i, Varint(8 * f + wire) + d);
    StandsParts(s, i, Varint(8 * f + wire), d);
    SkipTag(s, i, f, wire, depth);
  }

  lemma {:induction false} SkipsDelimited(s: Bytes, i: nat, f: nat, d: Bytes, depth: nat)
    requires f < W31 && Stands(s, i, Varint(8 * f + 2) + (Varint(|d|) + d)) && |s| < W63
    ensures SkipsTo(s, i, i + |Varint(8 * f + 2) + (Varint(|d|) + d)|, depth)
  {
    hide Varint, Skip, ReadVarint, ReadRaw, Stands;
    var tag, len := Varint(8 * f + 2), Varint(|d|);
    StandsBound(s, i, tag + (len + d));
    StandsParts(s, i, tag, len + d);
    SkipTag(s, i, f, 2, depth);
    StandsParts(s, i + |tag|, len, d);
    ReadStanding(s, i + |tag|, |d|);
  }

  /** A complete field of any wire type is skipped exactly, wherever it stands and whatever follows. */
  lemma {:induction false} SkipsField(s: Bytes, i: nat, x: Field, depth: nat)
    requires Good(x) && Stands(s, i, BytesOf(x)) && |s| < W63
    ensures SkipsTo(s, i, i + |BytesOf(x)|, depth)
    decreases x
  {
    hide Varint, Skip, Stands, SkipsTo;
    match x
    case VarField(f, v) => SkipsVar(s, i, f, v, depth);
    case Fixed64(f, d) => SkipsFixed(s, i, f, d, 1, depth);
    case Delimited(f, d) => SkipsDelimited(s, i, f, d, depth);
    case Group(f, inner, g) => SkipsGroup(s, i, f, inner, g, depth);
    case Fixed32(f, d) => SkipsFixed(s, i, f, d, 5, depth);
  }

  lemma {:induction false} StandsBound(s: Bytes, i: nat, b: Bytes)
    requires Stands(s, i, b)
    ensures i + |b| <= |s|
  {
  }

  lemma {:induction false} SkipsGroup(s: Bytes, i: nat, f: nat, inner: seq<Field>, g: nat, depth: nat)
    requires f < W31 && g < W31 && AllGood(inner) && |s| < W63
    requires Stands(s, i, Varint(8 * f + 3) + (BytesOfAll(inner) + Varint(8 * g + 4)))
    ensures SkipsTo(s, i, i + |Varint(8 * f + 3) + (BytesOfAll(inner) + Varint(8 * g + 4))|, depth)
    decreases inner, 1
  {
    hide Varint, Skip, ReadVarint, ReadRaw, Stands, BytesOfAll, AllGood;
    StandsBound(s, i, Varint(8 * f + 3) + (BytesOfAll(inner) + Varint(8 * g + 4)));
    StandsParts(s, i, Varint(8 * f + 3), BytesOfAll(inner) + Varint(8 * g + 4));
    SkipTag(s, i, f, 3, depth);
    var j := i + |Varint(8 * f + 3)|;
    StandsParts(s, j, BytesOfAll(inner), Varint(8 * g + 4));
    SkipsAll(s, j, inner, depth + 1);
    SkipTag(s, j + |BytesOfAll(inner)|, g, 4, depth + 1);
  }

  lemma {:induction false} SkipsAll(s: Bytes, i: nat, xs: seq<Field>, depth: nat)
    requires AllGood(xs) && Stands(s, i, BytesOfAll(xs)) && |s| < W63 && depth > 0
    ensures Skip(s, i, depth) == Skip(s, i + |BytesOfAll(xs)|, depth)
    decreases xs, 0
  {
    hide Skip, BytesOf, Stands, Good;
    if xs != [] {
      StandsParts(s, i, BytesOf(xs[0]), BytesOfAll(xs[1..]));
      SkipsField(s, i, xs[0], depth);
      SkipsAll(s, i + |BytesOf(xs[0])|, xs[1..], depth);
    }
  }

  // ---------------------------------------------------------------- reading

  /** A field with a number the schema does not know. */
  ghost predicate Foreign(x: Field, kind: int -> Kind)
  {
    Good(x) && x.f >= 1 && kind(x.f) == Unknown
  }

  function WireOf(x: Field): nat
  {
    match x case VarField(_, _) => 0 case Fixed64(_, _) => 1 case Delimited(_, _) => 2 case Group(_, _, _) => 3 case Fixed32(_, _) => 5
  }

  lemma {:induction false} StartsWithTag(x: Field, s: Bytes, i: nat)
    requires Stands(s, i, BytesOf(x))
    ensures Stands(s, i, Varint(8 * x.f + WireOf(x)))
  {
    hide Varint, Stands, BytesOfAll;
    match x
    case VarField(f, v) => StandsParts(s, i, Varint(8 * f + 0), Varint(v));
    case Fixed64(f, d) => StandsParts(s, i, Varint(8 * f + 1), d);
    case Delimited(f, d) => StandsParts(s, i, Varint(8 * f + 2), Varint(|d|) + d);
    case Group(f, inner, g) => StandsParts(s, i, Varint(8 * f + 3), BytesOfAll(inner) + Varint(8 * g + 4));
    case Fixed32(f, d) => StandsParts(s, i, Varint(8 * f + 5), d);
  }

  /** An unknown field is read as exactly its bytes, whatever follows. */
  lemma {:induction false} ReadsForeign(x: Field, tail: Bytes, at: nat, kind: int -> Kind)
    requires Foreign(x, kind) && at + |BytesOf(x)| + |tail| < W63
    ensures ReadItem(BytesOf(x) + tail, at, kind) == Got(Raw(BytesOf(x)), |BytesOf(x)|)
  {
    hide Varint, Skip, ReadVarint, ReadRaw, BytesOf, Stands, Good, ToInt32, ReadItem, WireOf;
    var s, b := BytesOf(x) + tail, BytesOf(x);
    StandsInFront(b, tail);
    GoodNumber(x);
    StartsWithTag(x, s, 0);
    TagParts(x.f, WireOf(x));
    ReadStanding(s, 0, 8 * x.f + WireOf(x));
    ItemUnfolds(s, at, kind, 8 * x.f + WireOf(x), |Varint(8 * x.f + WireOf(x))|);
    SkipsField(s, 0, x, 0);
  }

  lemma {:induction false} StandsInFront(b: Bytes, tail: Bytes)
    ensures Stands(b + tail, 0, b) && (b + tail)[..|b|] == b && (b + tail)[0..] == b + tail
  {
  }

  /** Reading an item once its tag is read. */
  lemma {:induction false} ItemUnfolds(s: Bytes, at: nat, kind: int -> Kind, tag: nat, n: nat)
    requires ReadVarint(s) == Got(tag, n)
    ensures var f, r := ToInt32(tag / 8), ReadItem(s, at, kind);
            && (tag % 8 == 4 ==> r == Bad(EndGroup))
            && (tag % 8 != 4 && f <= 0 ==> r == Bad(IllegalTag))
            && (tag % 8 != 4 && f > 0 && kind(f) == Number ==> r == if tag % 8 != 0 then Bad(WrongWireType) else ReadNum(s, n, f))
            && (tag % 8 != 4 && f > 0 && kind(f) == Payload ==> r == if tag % 8 != 2 then Bad(WrongWireType) else ReadData(s, at, n, f))
            && (tag % 8 != 4 && f > 0 && kind(f) == Unknown ==> r == ReadUnknown(s, at))
  {
    hide ReadVarint, ToInt32, ReadNum, ReadData, ReadUnknown;
  }

  lemma {:induction false} GoodNumber(x: Field)
    requires Good(x)
    ensures x.f < W31 && WireOf(x) < 8 && WireOf(x) != 4
  {
  }

  ghost predicate AllForeign(xs: seq<Field>, kind: int -> Kind)
  {
    forall i :: 0 <= i < |xs| ==> Foreign(xs[i], kind)
  }

  /** The raw items of unknown fields. */
  function RawItems(xs: seq<Field>): seq<Item>
  {
    if xs == [] then [] else [Raw(BytesOf(xs[0]))] + RawItems(xs[1..])
  }

  lemma {:induction false} LexForeign(xs: seq<Field>, at: nat, kind: int -> Kind)
    requires AllForeign(xs, kind) && at + |BytesOfAll(xs)| < W63
    ensures Lex(BytesOfAll(xs), at, kind) == Lexed(RawItems(xs), None)
    ensures forall i :: 0 <= i < |RawItems(xs)| ==> RawItems(xs)[i].Raw?
    ensures Raws(RawItems(xs)) == BytesOfAll(xs)
    decreases |xs|
  {
    hide Lex, ReadItem, BytesOf, Foreign;
    if xs == [] {
      LexNil(at, kind);
    } else {
      var b, more := BytesOf(xs[0]), BytesOfAll(xs[1..]);
      ReadsForeign(xs[0], more, at, kind);
      LexCons(b + more, at, kind);
      assert (b + more)[|b|..] == more;
      LexForeign(xs[1..], at + |b|, kind);
      assert ([Raw(b)] + RawItems(xs[1..]))[1..] == RawItems(xs[1..]);
    }
  }

  /** Complete fields, none with one of the known numbers. */
  predicate Numbered(xs: seq<Field>, known: set<nat>)
  {
    forall i :: 0 <= i < |xs| ==> Good(xs[i]) && xs[i].f !in known
  }

  /** Unknown fields as any sender writes them are kept byte by byte and decode into nothing else. */
  lemma {:induction false} ForeignIsKept<R>(c: Codec<R>, m: Message<R>, xs: seq<Field>)
    requires Numbered(xs, {0, 1, 2, 3, 8, 9, 10}) && |BytesOfAll(xs)| < W63
    ensures Parse(c, BytesOfAll(xs), m) == Ok(m.(unrecognized := m.unrecognized + BytesOfAll(xs)))
  {
    hide Lex, RawItems, BytesOfAll, Raws, Fold, Good;
    assert AllForeign(xs, MessageKind);
    LexForeign(xs, 0, MessageKind);
    FoldRaws(c, m, RawItems(xs));
  }

  lemma {:induction false} ForeignIsKeptInPeer(p: WirePeer, xs: seq<Field>)
    requires Numbered(xs, {0, 1, 2, 3}) && |BytesOfAll(xs)| < W63
    ensures ParsePeer(BytesOfAll(xs), p) == Ok(p.(unrecognized := p.unrecognized + BytesOfAll(xs)))
  {
    hide Lex, RawItems, BytesOfAll, Raws, FoldPeer, Good;
    assert AllForeign(xs, PeerKind);
    LexForeign(xs, 0, PeerKind);
    FoldPeerRaws(p, RawItems(xs));
  }

  /** They meet the condition of the round trip, in messages and in peers. */
  lemma {:induction false} ForeignIsUnknown(xs: seq<Field>, kind: int -> Kind)
    requires AllForeign(xs, kind) && |BytesOfAll(xs)| < W63
    ensures OnlyUnknown(BytesOfAll(xs), kind)
  {
    hide Lex, RawItems, BytesOfAll, Raws;
    LexForeign(xs, 0, kind);
  }

  // ---------------------------------------------------------------- errors

  /** A varint fails exactly if its first ten bytes all announce another, or all bytes do and there are fewer. */
  lemma {:induction false} VarintErrors(s: Bytes, k: nat)
    ensures ReadRaw(s, k) == Bad(IntOverflow) <==> |s| >= k && forall i :: 0 <= i < k ==> s[i] >= 128
    ensures ReadRaw(s, k) == Bad(UnexpectedEof) <==> |s| < k && forall i :: 0 <= i < |s| ==> s[i] >= 128
    ensures ReadRaw(s, k).Bad? ==> ReadRaw(s, k).error == IntOverflow || ReadRaw(s, k).error == UnexpectedEof
    decreases k
  {
    if k > 0 && s != [] {
      VarintErrors(s[1..], k - 1);
      assert forall i :: 0 < i < |s| ==> s[i] == s[1..][i - 1];
      assert forall i :: 0 <= i < |s[1..]| ==> s[1..][i] == s[i + 1];
    }
  }

  /** The tags that are errors by themselves. */
  lemma {:induction false} TagErrors(f: nat, wire: nat, rest: Bytes, at: nat, kind: int -> Kind)
    requires f < W31 && wire < 8
    ensures var r := ReadItem(Varint(8 * f + wire) + rest, at, kind);
            && (wire == 4 ==> r == Bad(EndGroup))
            && (wire != 4 && f == 0 ==> r == Bad(IllegalTag))
            && (f > 0 && kind(f) == Number && wire != 0 && wire != 4 ==> r == Bad(WrongWireType))
            && (f > 0 && kind(f) == Payload && wire != 2 && wire != 4 ==> r == Bad(WrongWireType))
            && (f > 0 && kind(f) == Unknown && wire > 5 ==> r == Bad(IllegalWireType))
  {
    hide Varint, ReadVarint, ReadRaw, Skip, ToInt32, Stands, ReadNum, ReadData, ReadItem;
    var s := Varint(8 * f + wire) + rest;
    StandsInFront(Varint(8 * f + wire), rest);
    TagParts(f, wire);
    ReadStanding(s, 0, 8 * f + wire);
    ItemUnfolds(s, at, kind, 8 * f + wire, |Varint(8 * f + wire)|);
    SkipTag(s, 0, f, wire, 0);
  }

  /** A payload shorter than announced, or announced longer than a signed length can say. */
  lemma {:induction false} PayloadErrors(f: nat, len: nat, d: Bytes, at: nat, kind: int -> Kind)
    requires 1 <= f < W31 && kind(f) == Payload && len < W64 && len > |d|
    ensures var tag := Varint(8 * f + 2);
            ReadItem(tag + (Varint(len) + d), at, kind)
            == Bad(if at + |tag| + |Varint(len)| + len >= W63 then InvalidLength else UnexpectedEof)
  {
    hide Varint, ReadVarint, ReadRaw, ToInt32, Stands, ReadNum, ReadUnknown, ReadItem;
    var tag := Varint(8 * f + 2);
    var s := tag + (Varint(len) + d);
    StandsInFront(tag, Varint(len) + d);
    StandsInFront(s, []);
    assert s + [] == s;
    StandsParts(s, 0, tag, Varint(len) + d);
    StandsParts(s, |tag|, Varint(len), d);
    TagParts(f, 2);
    ReadStanding(s, 0, 8 * f + 2);
    ReadStanding(s, |tag|, len);
    ItemUnfolds(s, at, kind, 8 * f + 2, |tag|);
  }
}
