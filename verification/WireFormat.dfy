/**
 The wire format of the DHT's messages: varints, tags, length-delimited payloads, and unknown fields that
 are kept as raw bytes (Protocol Buffers Encoding guide, "Base 128 Varints" and "Length-Delimited Records").
 */
module WireFormat {
  import opened Wrappers
  import opened Collections

  type Octet = x: int | 0 <= x < 256
  type Bytes = seq<Octet>

  const W31 := 0x8000_0000
  const W32 := 0x1_0000_0000
  const W63 := 0x8000_0000_0000_0000
  const W64 := 0x1_0000_0000_0000_0000

  predicate IsInt32(x: int)
  {
    -W31 <= x < W31
  }

  /** Conversion of a signed integer to 64 unsigned bits: negative numbers are sign-extended. */
  function ToUint64(x: int): (v: nat)
    ensures v < W64
  {
    x % W64
  }

  /** The low 32 bits, read as a signed number. */
  function ToInt32(v: nat): (x: int)
    ensures IsInt32(x)
  {
    var w := v % W32;
    if w < W31 then w else w - W32
  }

  datatype Error =
    | IntOverflow
    | UnexpectedEof
    | InvalidLength
    | EndGroup
    | IllegalTag
    | WrongWireType
    | UnexpectedEndOfGroup
    | IllegalWireType
    | BadRecord

  datatype Result<T> = Ok(value: T) | Err(error: Error)

  /** A value read from the front of a byte string, and how many bytes it took. */
  datatype Read<T> = Got(value: T, n: nat) | Bad(error: Error)

  // ---------------------------------------------------------------- varints

  function Varint(v: nat): (s: Bytes)
    ensures |s| >= 1
  {
    if v < 128 then [v] else [v % 128 + 128] + Varint(v / 128)
  }

  function BitLen(v: nat): nat
  {
    if v == 0 then 0 else 1 + BitLen(v / 2)
  }

  /** The number of bytes of a varint, from the bit length of the number with its lowest bit set. */
  function Sov(v: nat): nat
  {
    (BitLen(if v % 2 == 0 then v + 1 else v) + 6) / 7
  }

  function Pow128(k: nat): nat
  {
    if k == 0 then 1 else 128 * Pow128(k - 1)
  }

  /** Reads a varint of at most `k` bytes, keeping all its bits. */
  function ReadRaw(s: Bytes, k: nat): (r: Read<nat>)
    ensures r.Got? ==> 0 < r.n <= |s| && r.n <= k
    decreases k
  {
    if k == 0 then Bad(IntOverflow)
    else if s == [] then Bad(UnexpectedEof)
    else if s[0] < 128 then Got(s[0], 1)
    else
      match ReadRaw(s[1..], k - 1)
      case Bad(e) => Bad(e)
      case Got(v, n) => Got(s[0] % 128 + 128 * v, n + 1)
  }

  /** A varint read into 64 bits: ten bytes at most, and what does not fit is lost. */
  function ReadVarint(s: Bytes): (r: Read<nat>)
    ensures r.Got? ==> 0 < r.n <= |s| && r.value < W64
  {
    match ReadRaw(s, 10)
    case Bad(e) => Bad(e)
    case Got(v, n) => Got(v % W64, n)
  }

  // ---------------------------------------------------------------- fields

  datatype Kind = Number | Payload | Unknown

  datatype Item = Num(field: nat, x: int) | Data(field: nat, d: Bytes) | Raw(c: Bytes)

  /** One field inside a skipped stretch: the index after it and the nesting depth then. */
  function SkipOne(s: Bytes, i: nat, wire: int, depth: nat): Result<(nat, nat)>
    requires i <= |s|
  {
    match wire
    case 0 => (match ReadRaw(s[i..], 10) case Bad(e) => Err(e) case Got(_, n) => Ok((i + n, depth)))
    case 1 => Ok((i + 8, depth))
    case 2 =>
      (match ReadVarint(s[i..])
       case Bad(e) => Err(e)
       case Got(v, n) => if v >= W63 then Err(InvalidLength) else Ok((i + n + v, depth)))
    case 3 => Ok((i, depth + 1))
    case 4 => if depth == 0 then Err(UnexpectedEndOfGroup) else Ok((i, depth - 1))
    case 5 => Ok((i + 4, depth))
    case _ => Err(IllegalWireType)
  }

  /** The index after the field, or the balanced group, that starts at `i`. It may lie beyond the end. */
  function Skip(s: Bytes, i: nat, depth: nat): (r: Result<nat>)
    ensures r.Ok? ==> i < r.value < W63
    decreases |s| - i
  {
    if i >= |s| then Err(UnexpectedEof)
    else
      match ReadVarint(s[i..])
      case Bad(e) => Err(e)
      case Got(w, n) =>
        match SkipOne(s, i + n, w % 8, depth)
        case Err(e) => Err(e)
        case Ok((j, d)) =>
          if j >= W63 then Err(InvalidLength)
          else if d == 0 then Ok(j)
          else Skip(s, j, d)
  }

  /** Reads one field from the front of `s`, which lies at offset `at` of its buffer. */
  function ReadItem(s: Bytes, at: nat, kind: int -> Kind): (r: Read<Item>)
    ensures r.Got? ==> 0 < r.n <= |s|
  {
    match ReadVarint(s)
    case Bad(e) => Bad(e)
    case Got(tag, n) =>
      var field, wire := ToInt32(tag / 8), tag % 8;
      if wire == 4 then Bad(EndGroup)
      else if field <= 0 then Bad(IllegalTag)
      else
        match kind(field)
        case Number => if wire != 0 then Bad(WrongWireType) else ReadNum(s, n, field)
        case Payload => if wire != 2 then Bad(WrongWireType) else ReadData(s, at, n, field)
        case Unknown => ReadUnknown(s, at)
  }

  function ReadNum(s: Bytes, n: nat, field: nat): (r: Read<Item>)
    requires 0 < n <= |s|
    ensures r.Got? ==> 0 < r.n <= |s|
  {
    match ReadVarint(s[n..])
    case Bad(e) => Bad(e)
    case Got(v, k) => Got(Num(field, ToInt32(v)), n + k)
  }

  function ReadData(s: Bytes, at: nat, n: nat, field: nat): (r: Read<Item>)
    requires 0 < n <= |s|
    ensures r.Got? ==> 0 < r.n <= |s|
  {
    match ReadVarint(s[n..])
    case Bad(e) => Bad(e)
    case Got(len, k) => Cut(s, at, n + k, len, field)
  }

  /** A payload of the announced length, starting at `j`. */
  function Cut(s: Bytes, at: nat, j: nat, len: nat, field: nat): (r: Read<Item>)
    requires 0 < j <= |s|
    ensures r.Got? ==> j <= r.n <= |s|
  {
    if len >= W63 || at + j + len >= W63 then Bad(InvalidLength)
    else if j + len > |s| then Bad(UnexpectedEof)
    else Got(Data(field, s[j..j + len]), j + len)
  }

  function ReadUnknown(s: Bytes, at: nat): (r: Read<Item>)
    ensures r.Got? ==> 0 < r.n <= |s|
  {
    match Skip(s, 0, 0)
    case Err(e) => Bad(e)
    case Ok(n) =>
      if at + n >= W63 then Bad(InvalidLength)
      else if n > |s| then Bad(UnexpectedEof)
      else Got(Raw(s[..n]), n)
  }

  /** The fields of a byte string up to its end or to the first that cannot be read. */
  datatype Lexed = Lexed(items: seq<Item>, err: Option<Error>)

  function Lex(s: Bytes, at: nat, kind: int -> Kind): Lexed
    decreases |s|
  {
    if s == [] then Lexed([], None)
    else
      match ReadItem(s, at, kind)
      case Bad(e) => Lexed([], Some(e))
      case Got(it, n) =>
        var l := Lex(s[n..], at + n, kind);
        Lexed([it] + l.items, l.err)
  }

  function EncodeItem(it: Item): Bytes
  {
    match it
    case Num(f, x) => Varint(8 * f) + Varint(ToUint64(x))
    case Data(f, d) => Varint(8 * f + 2) + (Varint(|d|) + d)
    case Raw(c) => c
  }

  // ---------------------------------------------------------------- varints: length and round trip

  lemma {:induction false} BitLenHalf(v: nat)
    requires v >= 1
    ensures BitLen(v) == 1 + BitLen(v / 2)
  {
  }

  lemma {:induction false} BitLenShift(v: nat)
    requires v >= 128
    ensures BitLen(v) == 7 + BitLen(v / 128)
  {
    hide BitLen;
    BitLenHalf(v);
    BitLenHalf(v / 2);
    BitLenHalf(v / 4);
    BitLenHalf(v / 8);
    BitLenHalf(v / 16);
    BitLenHalf(v / 32);
    BitLenHalf(v / 64);
  }

  /** Setting the lowest bit of a positive number does not lengthen it. */
  lemma {:induction false} BitLenOdd(v: nat)
    requires v >= 1 && v % 2 == 0
    ensures BitLen(v + 1) == BitLen(v)
  {
    hide BitLen;
    BitLenHalf(v);
    BitLenHalf(v + 1);
    assert v / 2 == (v + 1) / 2;
  }

  lemma {:induction false} SovPositive(v: nat)
    requires v >= 1
    ensures Sov(v) == (BitLen(v) + 6) / 7
  {
    hide BitLen;
    if v % 2 == 0 {
      BitLenOdd(v);
    }
  }

  lemma {:induction false} SovStep(v: nat)
    requires v >= 128
    ensures Sov(v) == 1 + Sov(v / 128)
  {
    hide BitLen, Sov;
    BitLenShift(v);
    SovPositive(v);
    SovPositive(v / 128);
  }

  /** The size computed from the bit length is the number of bytes written. */
  lemma {:induction false} SovIsLength(v: nat)
    ensures |Varint(v)| == Sov(v)
  {
    hide BitLen, Sov;
    if v < 128 {
      SovSmall(v);
    } else {
      SovIsLength(v / 128);
      SovStep(v);
    }
  }

  lemma {:induction false} SovSmall(v: nat)
    requires v < 128
    ensures Sov(v) == 1
  {
    var u := if v % 2 == 0 then v + 1 else v;
    assert BitLen(u / 2) <= 6 by {
      BitLenBound(u / 2, 6);
    }
  }

  lemma {:induction false} BitLenBound(v: nat, k: nat)
    requires v < Pow2(k)
    ensures BitLen(v) <= k
  {
    if k > 0 {
      BitLenBound(v / 2, k - 1);
    }
  }

  lemma {:induction false} ReadRawVarint(v: nat, rest: Bytes, k: nat)
    requires k >= 1 && v < Pow128(k)
    ensures ReadRaw(Varint(v) + rest, k) == Got(v, |Varint(v)|)
  {
    var s := Varint(v) + rest;
    if v < 128 {
      assert s[0] == v;
    } else {
      ReadRawVarint(v / 128, rest, k - 1);
      assert s[0] == v % 128 + 128;
      assert s[1..] == Varint(v / 128) + rest;
    }
  }

  /** Low groups first, seven bits each, the high bit saying that more follow: 1, 150 and 300. */
  lemma {:induction false} VarintSamples()
    ensures Varint(1) == [0x01] && Varint(150) == [0x96, 0x01] && Varint(300) == [0xac, 0x02]
  {
    assert Varint(150 / 128) == [0x01] && Varint(300 / 128) == [0x02];
  }

  lemma {:induction false} RawRoundTrip(v: nat, rest: Bytes)
    requires v < W64
    ensures ReadRaw(Varint(v) + rest, 10) == Got(v, |Varint(v)|)
  {
    hide Varint, ReadRaw;
    assert Pow128(10) == 128 * 128 * 128 * 128 * 128 * 128 * 128 * 128 * 128 * 128;
    ReadRawVarint(v, rest, 10);
  }

  /** Reading a written 64-bit number gives it back, whatever follows. */
  lemma {:induction false} VarintRoundTrip(v: nat, rest: Bytes)
    requires v < W64
    ensures ReadVarint(Varint(v) + rest) == Got(v, |Varint(v)|)
  {
    hide Varint, ReadRaw;
    RawRoundTrip(v, rest);
  }

  lemma {:induction false} Int32RoundTrip(x: int)
    requires IsInt32(x)
    ensures ToInt32(ToUint64(x)) == x
  {
    if x < 0 {
      assert ToUint64(x) == x + W64;
      assert x + W64 == x + W32 + W32 * (W32 - 1);
    }
  }

  // ---------------------------------------------------------------- reading depends only on what is read

  /** `s` and `t` begin with the same `n` bytes. */
  predicate Share(s: Bytes, t: Bytes, n: nat)
  {
    n <= |s| && n <= |t| && s[..n] == t[..n]
  }

  lemma {:induction false} ShareTail(s: Bytes, t: Bytes, n: nat, i: nat)
    requires Share(s, t, n) && i <= n
    ensures Share(s[i..], t[i..], n - i)
  {
    assert s[i..][..n - i] == s[..n][i..];
    assert t[i..][..n - i] == t[..n][i..];
  }

  lemma {:induction false} ShareLess(s: Bytes, t: Bytes, n: nat, i: nat)
    requires Share(s, t, n) && i <= n
    ensures Share(s, t, i)
  {
    assert s[..i] == s[..n][..i];
    assert t[..i] == t[..n][..i];
  }

  lemma {:induction false} ReadRawLocal(s: Bytes, t: Bytes, k: nat)
    requires ReadRaw(s, k).Got? && Share(s, t, ReadRaw(s, k).n)
    ensures ReadRaw(t, k) == ReadRaw(s, k)
  {
    var n := ReadRaw(s, k).n;
    assert s[0] == s[..n][0] == t[..n][0] == t[0];
    if s[0] >= 128 {
      ShareTail(s, t, n, 1);
      ReadRawLocal(s[1..], t[1..], k - 1);
    }
  }

  /** Both strings hold the same varint at `i`. */
  lemma {:induction false} ReadVarintLocal(s: Bytes, t: Bytes, i: nat, n: nat)
    requires Share(s, t, n) && i <= n
    requires ReadVarint(s[i..]).Got? && i + ReadVarint(s[i..]).n <= n
    ensures ReadVarint(t[i..]) == ReadVarint(s[i..]) && ReadRaw(t[i..], 10) == ReadRaw(s[i..], 10)
  {
    hide ReadRaw;
    ShareTail(s, t, n, i);
    ShareLess(s[i..], t[i..], n - i, ReadVarint(s[i..]).n);
    ReadRawLocal(s[i..], t[i..], 10);
  }

  lemma {:induction false} SkipOneLocal(s: Bytes, t: Bytes, n: nat, i: nat, wire: int, depth: nat)
    requires i <= n && Share(s, t, n)
    requires SkipOne(s, i, wire, depth).Ok? && SkipOne(s, i, wire, depth).value.0 <= n
    ensures SkipOne(t, i, wire, depth) == SkipOne(s, i, wire, depth)
  {
    hide ReadRaw, Share;
    if wire == 0 || wire == 2 {
      ReadVarintLocal(s, t, i, n);
    }
  }

  lemma {:induction false} SkipOneForward(s: Bytes, i: nat, wire: int, depth: nat)
    requires i <= |s| && SkipOne(s, i, wire, depth).Ok?
    ensures SkipOne(s, i, wire, depth).value.0 >= i
  {
  }

  lemma {:induction false} SkipLocal(s: Bytes, t: Bytes, i: nat, depth: nat)
    requires Skip(s, i, depth).Ok? && Share(s, t, Skip(s, i, depth).value)
    ensures Skip(t, i, depth) == Skip(s, i, depth)
    decreases |s| - i
  {
    hide ReadRaw, ReadVarint, SkipOne;
    var n := Skip(s, i, depth).value;
    var tag := ReadVarint(s[i..]);
    var one := SkipOne(s, i + tag.n, tag.value % 8, depth);
    SkipOneForward(s, i + tag.n, tag.value % 8, depth);
    ReadVarintLocal(s, t, i, n);
    SkipOneLocal(s, t, n, i + tag.n, tag.value % 8, depth);
    if one.value.1 != 0 {
      SkipLocal(s, t, one.value.0, one.value.1);
    }
  }

  lemma {:induction false} ReadNumLocal(s: Bytes, t: Bytes, n: nat, field: nat)
    requires 0 < n <= |s| && ReadNum(s, n, field).Got? && Share(s, t, ReadNum(s, n, field).n)
    ensures n <= |t| && ReadNum(t, n, field) == ReadNum(s, n, field)
  {
    hide ReadVarint;
    ReadVarintLocal(s, t, n, ReadNum(s, n, field).n);
  }

  lemma {:induction false} ReadDataLocal(s: Bytes, at: nat, t: Bytes, at2: nat, n: nat, field: nat)
    requires 0 < n <= |s| && ReadData(s, at, n, field).Got? && Share(s, t, ReadData(s, at, n, field).n)
    requires at2 + |t| < W63
    ensures n <= |t| && ReadData(t, at2, n, field) == ReadData(s, at, n, field)
  {
    hide ReadVarint, Share, Cut;
    var r := ReadData(s, at, n, field);
    var len := ReadVarint(s[n..]);
    ReadVarintLocal(s, t, n, r.n);
    CutLocal(s, at, t, at2, n + len.n, len.value, field);
  }

  lemma {:induction false} CutLocal(s: Bytes, at: nat, t: Bytes, at2: nat, j: nat, len: nat, field: nat)
    requires 0 < j <= |s| && Cut(s, at, j, len, field).Got? && Share(s, t, Cut(s, at, j, len, field).n)
    requires at2 + |t| < W63
    ensures j <= |t| && Cut(t, at2, j, len, field) == Cut(s, at, j, len, field)
  {
    ShareSlice(s, t, j, j + len);
  }

  lemma {:induction false} ShareSlice(s: Bytes, t: Bytes, i: nat, n: nat)
    requires Share(s, t, n) && i <= n
    ensures n <= |s| && n <= |t| && s[i..n] == t[i..n]
  {
    assert s[i..n] == s[..n][i..];
    assert t[i..n] == t[..n][i..];
  }

  lemma {:induction false} ReadUnknownLocal(s: Bytes, at: nat, t: Bytes, at2: nat)
    requires ReadUnknown(s, at).Got? && Share(s, t, ReadUnknown(s, at).n) && at2 + |t| < W63
    ensures ReadUnknown(t, at2) == ReadUnknown(s, at)
  {
    hide Skip;
    SkipLocal(s, t, 0, 0);
  }

  /** A field is read the same whatever follows it and wherever it lies. */
  lemma {:induction false} ReadItemLocal(s: Bytes, at: nat, t: Bytes, at2: nat, kind: int -> Kind)
    requires ReadItem(s, at, kind).Got? && Share(s, t, ReadItem(s, at, kind).n) && at2 + |t| < W63
    ensures ReadItem(t, at2, kind) == ReadItem(s, at, kind)
  {
    hide ReadVarint, ReadNum, ReadData, ReadUnknown, Skip, Share;
    var r := ReadItem(s, at, kind);
    var tag := ReadVarint(s);
    var field := ToInt32(tag.value / 8);
    TagWithin(s, at, kind);
    assert s[0..] == s && t[0..] == t;
    ReadVarintLocal(s, t, 0, r.n);
    match kind(field)
    case Number => ReadNumLocal(s, t, tag.n, field);
    case Payload => ReadDataLocal(s, at, t, at2, tag.n, field);
    case Unknown => ReadUnknownLocal(s, at, t, at2);
  }

  /** The tag is part of what a field takes. */
  lemma {:induction false} TagWithin(s: Bytes, at: nat, kind: int -> Kind)
    requires ReadItem(s, at, kind).Got?
    ensures ReadVarint(s).Got? && ReadVarint(s).n <= ReadItem(s, at, kind).n
  {
    hide ReadVarint, Skip;
    if kind(ToInt32(ReadVarint(s).value / 8)) == Unknown {
      SkipPastTag(s);
    }
  }

  lemma {:induction false} SkipPastTag(s: Bytes)
    requires Skip(s, 0, 0).Ok?
    ensures ReadVarint(s).Got? && ReadVarint(s).n <= Skip(s, 0, 0).value
  {
    hide ReadVarint, SkipOne;
    assert s[0..] == s;
    var tag := ReadVarint(s);
    SkipOneForward(s, tag.n, tag.value % 8, 0);
  }

  /** Concatenating two encodings concatenates their fields. */
  lemma {:induction false} LexConcat(a: Bytes, at: nat, b: Bytes, at2: nat, kind: int -> Kind)
    requires Lex(a, at, kind).err.None? && at2 + |a| + |b| < W63
    ensures Lex(a + b, at2, kind)
         == Lexed(Lex(a, at, kind).items + Lex(b, at2 + |a|, kind).items, Lex(b, at2 + |a|, kind).err)
    decreases |a|
  {
    hide ReadItem, Lex;
    if a == [] {
      assert a + b == b;
      LexNil(at, kind);
    } else {
      LexCons(a, at, kind);
      var r := ReadItem(a, at, kind);
      ShareConcat(a, b, r.n);
      ReadItemLocal(a, at, a + b, at2, kind);
      LexCons(a + b, at2, kind);
      LexConcat(a[r.n..], at + r.n, b, at2 + r.n, kind);
    }
  }

  lemma {:induction false} LexNil(at: nat, kind: int -> Kind)
    ensures Lex([], at, kind) == Lexed([], None)
  {
  }

  lemma {:induction false} LexCons(s: Bytes, at: nat, kind: int -> Kind)
    requires s != []
    ensures ReadItem(s, at, kind).Got? ==>
              var r := ReadItem(s, at, kind);
              Lex(s, at, kind) == Lexed([r.value] + Lex(s[r.n..], at + r.n, kind).items, Lex(s[r.n..], at + r.n, kind).err)
    ensures ReadItem(s, at, kind).Bad? ==> Lex(s, at, kind) == Lexed([], Some(ReadItem(s, at, kind).error))
  {
  }

  lemma {:induction false} ShareConcat(a: Bytes, b: Bytes, n: nat)
    requires n <= |a|
    ensures Share(a, a + b, n) && (a + b)[n..] == a[n..] + b
  {
    assert (a + b)[..n] == a[..n];
  }

  // ---------------------------------------------------------------- fields: round trip

  /** A field that the schema knows, with a value that fits it. */
  predicate Encodable(it: Item, kind: int -> Kind)
  {
    match it
    case Num(f, x) => 1 <= f < W31 && kind(f) == Number && IsInt32(x)
    case Data(f, _) => 1 <= f < W31 && kind(f) == Payload
    case Raw(_) => false
  }

  lemma {:induction false} TagParts(f: nat, wire: nat)
    requires f < W31 && wire < 8
    ensures 8 * f + wire < W64 && ToInt32((8 * f + wire) / 8) == f && (8 * f + wire) % 8 == wire
  {
  }

  lemma {:induction false} ReadEncodedNum(f: nat, x: int, at: nat, kind: int -> Kind)
    requires Encodable(Num(f, x), kind)
    ensures var s := EncodeItem(Num(f, x)); ReadItem(s, at, kind) == Got(Num(f, x), |s|)
  {
    hide ReadVarint, Varint, ToUint64, ToInt32;
    var s, tag := EncodeItem(Num(f, x)), Varint(8 * f);
    TagParts(f, 0);
    VarintRoundTrip(8 * f, Varint(ToUint64(x)));
    assert s[|tag|..] == Varint(ToUint64(x)) + [];
    VarintRoundTrip(ToUint64(x), []);
    Int32RoundTrip(x);
  }

  lemma {:induction false} ReadEncodedData(f: nat, d: Bytes, at: nat, kind: int -> Kind)
    requires Encodable(Data(f, d), kind) && at + |EncodeItem(Data(f, d))| < W63
    ensures var s := EncodeItem(Data(f, d)); ReadItem(s, at, kind) == Got(Data(f, d), |s|)
  {
    hide ReadVarint, Varint, ToInt32;
    var s, tag, len := EncodeItem(Data(f, d)), Varint(8 * f + 2), Varint(|d|);
    TagParts(f, 2);
    VarintRoundTrip(8 * f + 2, len + d);
    assert s[|tag|..] == len + d;
    VarintRoundTrip(|d|, d);
    assert s[|tag| + |len|..|tag| + |len| + |d|] == d;
  }

  lemma {:induction false} LexEncodedItem(it: Item, at: nat, kind: int -> Kind)
    requires Encodable(it, kind) && at + |EncodeItem(it)| < W63
    ensures Lex(EncodeItem(it), at, kind) == Lexed([it], None)
  {
    hide ReadItem, Lex;
    var s := EncodeItem(it);
    match it {
      case Num(f, x) => ReadEncodedNum(f, x, at, kind);
      case Data(f, d) => ReadEncodedData(f, d, at, kind);
    }
    LexCons(s, at, kind);
    assert s[|s|..] == [];
    LexNil(at + |s|, kind);
  }

  ghost predicate AllEncodable(items: seq<Item>, kind: int -> Kind)
  {
    forall i :: 0 <= i < |items| ==> Encodable(items[i], kind)
  }

  function EncodeAll(items: seq<Item>): Bytes
  {
    if items == [] then [] else EncodeItem(items[0]) + EncodeAll(items[1..])
  }

  lemma {:induction false} Regroup(a: Bytes, b: Bytes, c: Bytes)
    ensures a + (b + c) == a + b + c
  {
  }

  lemma {:induction false} EncodeAllConcat(xs: seq<Item>, ys: seq<Item>)
    ensures EncodeAll(xs + ys) == EncodeAll(xs) + EncodeAll(ys)
  {
    hide EncodeItem;
    if xs == [] {
      assert xs + ys == ys;
    } else {
      EncodeAllConcat(xs[1..], ys);
      assert (xs + ys)[0] == xs[0] && (xs + ys)[1..] == xs[1..] + ys;
      Regroup(EncodeItem(xs[0]), EncodeAll(xs[1..]), EncodeAll(ys));
    }
  }

  /** Writing fields one after another and reading them back gives the same fields, before any tail. */
  lemma {:induction false} LexEncoded(items: seq<Item>, tail: Bytes, at: nat, kind: int -> Kind)
    requires AllEncodable(items, kind) && at + |EncodeAll(items)| + |tail| < W63
    ensures var l := Lex(tail, at + |EncodeAll(items)|, kind);
            Lex(EncodeAll(items) + tail, at, kind) == Lexed(items + l.items, l.err)
    decreases |items|
  {
    hide Lex, EncodeItem;
    if items == [] {
      assert EncodeAll(items) + tail == tail;
    } else {
      var one, more := EncodeItem(items[0]), EncodeAll(items[1..]);
      LexEncodedItem(items[0], at, kind);
      LexEncoded(items[1..], tail, at + |one|, kind);
      LexConcat(one, at, more + tail, at, kind);
      assert one + more + tail == one + (more + tail);
      assert [items[0]] + items[1..] == items;
    }
  }

  // ---------------------------------------------------------------- unknown fields

  /** A stretch of complete fields that the schema does not know. */
  ghost predicate OnlyUnknown(u: Bytes, kind: int -> Kind)
  {
    Lex(u, 0, kind).err.None? && forall i :: 0 <= i < |Lex(u, 0, kind).items| ==> Lex(u, 0, kind).items[i].Raw?
  }

  /** The raw bytes among the fields, in order. */
  function Raws(items: seq<Item>): Bytes
  {
    if items == [] then [] else (if items[0].Raw? then items[0].c else []) + Raws(items[1..])
  }

  lemma {:induction false} RawsConcat(xs: seq<Item>, ys: seq<Item>)
    ensures Raws(xs + ys) == Raws(xs) + Raws(ys)
  {
    if xs == [] {
      assert xs + ys == ys;
    } else {
      assert (xs + ys)[1..] == xs[1..] + ys;
      RawsConcat(xs[1..], ys);
    }
  }

  lemma {:induction false} RawIsPrefix(s: Bytes, at: nat, kind: int -> Kind)
    requires ReadItem(s, at, kind).Got? && ReadItem(s, at, kind).value.Raw?
    ensures ReadItem(s, at, kind).value.c == s[..ReadItem(s, at, kind).n]
  {
  }

  lemma {:induction false} OnlyUnknownRaws(u: Bytes, at: nat, kind: int -> Kind)
    requires Lex(u, at, kind).err.None?
    requires forall i :: 0 <= i < |Lex(u, at, kind).items| ==> Lex(u, at, kind).items[i].Raw?
    ensures Raws(Lex(u, at, kind).items) == u
    decreases |u|
  {
    hide ReadItem;
    if u != [] {
      LexCons(u, at, kind);
      var r := ReadItem(u, at, kind);
      var l, more := Lex(u, at, kind), Lex(u[r.n..], at + r.n, kind);
      assert l.items[0] == r.value && l.items[1..] == more.items;
      forall i | 0 <= i < |more.items|
        ensures more.items[i].Raw?
      {
        assert more.items[i] == l.items[i + 1];
      }
      RawIsPrefix(u, at, kind);
      OnlyUnknownRaws(u[r.n..], at + r.n, kind);
    }
  }

  lemma {:induction false} OnlyUnknownConcat(u: Bytes, c: Bytes, kind: int -> Kind)
    requires OnlyUnknown(u, kind) && OnlyUnknown(c, kind) && |u| + |c| < W63
    ensures OnlyUnknown(u + c, kind)
  {
    hide Lex;
    LexConcat(u, 0, c, 0, kind);
    LexMoved(c, 0, |u|, kind);
  }

  lemma {:induction false} LexMoved(s: Bytes, at: nat, at2: nat, kind: int -> Kind)
    requires Lex(s, at, kind).err.None? && at2 + |s| < W63
    ensures Lex(s, at2, kind) == Lex(s, at, kind)
  {
    hide Lex;
    LexConcat(s, at, [], at2, kind);
    assert s + [] == s;
    LexNil(at2 + |s|, kind);
  }

  lemma {:induction false} RawAlone(s: Bytes, at: nat, kind: int -> Kind)
    requires ReadItem(s, at, kind).Got? && ReadItem(s, at, kind).value.Raw? && |s| < W63
    ensures OnlyUnknown(s[..ReadItem(s, at, kind).n], kind)
  {
    hide ReadItem, Lex;
    var r := ReadItem(s, at, kind);
    var c := s[..r.n];
    ReadItemLocal(s, at, c, 0, kind);
    LexCons(c, 0, kind);
    assert c[r.n..] == [];
    LexNil(r.n, kind);
  }

  /** The unknown fields of any byte string, put together, are again nothing but complete unknown fields. */
  lemma {:induction false} RawsAreUnknown(s: Bytes, at: nat, kind: int -> Kind)
    requires |s| < W63
    ensures OnlyUnknown(Raws(Lex(s, at, kind).items), kind) && |Raws(Lex(s, at, kind).items)| <= |s|
    decreases |s|
  {
    hide ReadItem, Lex, OnlyUnknown;
    if s == [] || ReadItem(s, at, kind).Bad? {
      UnknownNil(kind);
      LexNil(at, kind);
      if s != [] {
        LexCons(s, at, kind);
      }
    } else {
      LexCons(s, at, kind);
      var r := ReadItem(s, at, kind);
      var more := Lex(s[r.n..], at + r.n, kind).items;
      RawsAreUnknown(s[r.n..], at + r.n, kind);
      assert ([r.value] + more)[1..] == more;
      if r.value.Raw? {
        RawAlone(s, at, kind);
        RawIsPrefix(s, at, kind);
        OnlyUnknownConcat(s[..r.n], Raws(more), kind);
      } else {
        assert [] + Raws(more) == Raws(more);
      }
    }
  }

  lemma {:induction false} UnknownNil(kind: int -> Kind)
    ensures OnlyUnknown([], kind)
  {
  }
}
