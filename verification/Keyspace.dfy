/**
 The XOR key space: identifiers are byte strings of one fixed length, the distance of two of them
 is their bitwise exclusive or, and distances are compared as byte strings.
 */
module Keyspace {

  /** A peer's own identifier; its place in the key space is the hash of it. */
  type Peer = string

  type Byte = bv8
  type Id = seq<Byte>

  /** Number of leading zero bits of one byte. */
  function LeadingZeros8(b: Byte): nat
  {
    if b >= 0x80 then 0
    else if b >= 0x40 then 1
    else if b >= 0x20 then 2
    else if b >= 0x10 then 3
    else if b >= 0x08 then 4
    else if b >= 0x04 then 5
    else if b >= 0x02 then 6
    else if b >= 0x01 then 7
    else 8
  }

  function Xor(a: Id, b: Id): (r: Id)
    requires |a| == |b|
    ensures |r| == |a|
    ensures forall i :: 0 <= i < |a| ==> r[i] == a[i] ^ b[i]
  {
    seq(|a|, i requires 0 <= i < |a| => a[i] ^ b[i])
  }

  /** Number of leading zero bits of a byte string. */
  function ZeroPrefixLen(x: Id): (n: nat)
    ensures n <= 8 * |x|
  {
    if x == [] then 0
    else if x[0] != 0 then LeadingZeros8(x[0])
    else 8 + ZeroPrefixLen(x[1..])
  }

  function CommonPrefixLen(a: Id, b: Id): (n: nat)
    requires |a| == |b|
    ensures n <= 8 * |a|
  {
    ZeroPrefixLen(Xor(a, b))
  }

  /** Lexicographic order of byte strings, the order in which distances are compared. */
  predicate Less(x: Id, y: Id)
  {
    if y == [] then false
    else if x == [] then true
    else x[0] < y[0] || (x[0] == y[0] && Less(x[1..], y[1..]))
  }

  /** The byte string read as a big-endian number. */
  function ToNat(x: Id): nat
  {
    if x == [] then 0 else Value(x[0]) * Pow256(|x| - 1) + ToNat(x[1..])
  }

  function Value(b: Byte): nat
  {
    b as nat
  }

  function Pow256(n: nat): (r: nat)
    ensures r >= 1
  {
    if n == 0 then 1 else 256 * Pow256(n - 1)
  }

  // ---------------------------------------------------------------- one byte

  lemma {:induction false} LeadingZerosXor(x: Byte, y: Byte)
    ensures LeadingZeros8(x) < LeadingZeros8(y) ==> LeadingZeros8(x ^ y) == LeadingZeros8(x)
    ensures LeadingZeros8(x) == LeadingZeros8(y) < 8 ==> LeadingZeros8(x ^ y) > LeadingZeros8(x)
  {
  }

  // ---------------------------------------------------------------- byte strings

  lemma {:induction false} XorCancels(a: Id, b: Id, l: Id)
    requires |a| == |b| == |l|
    ensures Xor(Xor(a, l), Xor(b, l)) == Xor(a, b)
    ensures Xor(a, b) == Xor(b, a)
    ensures Xor(a, Xor(a, b)) == b
  {
    forall i | 0 <= i < |a|
      ensures (a[i] ^ l[i]) ^ (b[i] ^ l[i]) == a[i] ^ b[i] && a[i] ^ b[i] == b[i] ^ a[i]
      ensures a[i] ^ (a[i] ^ b[i]) == b[i]
    {
      XorByte(a[i], b[i], l[i]);
    }
  }

  lemma {:induction false} XorByte(a: Byte, b: Byte, l: Byte)
    ensures (a ^ l) ^ (b ^ l) == a ^ b && a ^ b == b ^ a && a ^ (a ^ b) == b
  {
  }

  lemma {:induction false} LeadingZerosZero(b: Byte)
    ensures LeadingZeros8(b) <= 8
    ensures b == 0 <==> LeadingZeros8(b) == 8
  {
  }

  /** The head byte decides unless it is zero. */
  lemma {:induction false} ZeroPrefixStep(x: Id)
    requires x != []
    ensures LeadingZeros8(x[0]) < 8 ==> ZeroPrefixLen(x) == LeadingZeros8(x[0])
    ensures LeadingZeros8(x[0]) >= 8 ==> ZeroPrefixLen(x) == 8 + ZeroPrefixLen(x[1..])
    ensures LeadingZeros8(x[0]) <= 8
  {
    LeadingZerosZero(x[0]);
  }

  /** Fewer leading zeros decide the exclusive or; equally many cancel at least one more bit. */
  ghost predicate XorRule(zx: nat, zy: nat, zxy: nat, bits: nat)
  {
    && (zx < zy ==> zxy == zx)
    && (zy < zx ==> zxy == zy)
    && (zx == zy < bits ==> zxy > zx)
    && (zx == zy == bits ==> zxy == bits)
  }

  lemma {:induction false} XorRuleByte(x: Byte, y: Byte)
    ensures XorRule(LeadingZeros8(x), LeadingZeros8(y), LeadingZeros8(x ^ y), 8)
  {
    LeadingZerosXor(x, y);
    LeadingZerosXor(y, x);
    XorByte(x, y, 0);
    LeadingZerosZero(x);
    LeadingZerosZero(y);
    LeadingZerosZero(x ^ y);
    XorByte(0, 0, 0);
  }

  lemma {:induction false} XorRuleJoin(a: nat, b: nat, c: nat, u: nat, v: nat, w: nat, zx: nat, zy: nat, zxy: nat, rest: nat)
    requires XorRule(a, b, c, 8) && a <= 8 && b <= 8 && c <= 8
    requires XorRule(u, v, w, rest) && u <= rest && v <= rest && w <= rest
    requires zx == if a < 8 then a else 8 + u
    requires zy == if b < 8 then b else 8 + v
    requires zxy == if c < 8 then c else 8 + w
    ensures XorRule(zx, zy, zxy, 8 + rest)
  {
  }

  lemma {:induction false} ZeroPrefixXorStep(x: Id, y: Id, z: Id)
    requires |x| == |y| == |z| > 0 && z[0] == x[0] ^ y[0]
    requires XorRule(ZeroPrefixLen(x[1..]), ZeroPrefixLen(y[1..]), ZeroPrefixLen(z[1..]), 8 * |x[1..]|)
    ensures XorRule(ZeroPrefixLen(x), ZeroPrefixLen(y), ZeroPrefixLen(z), 8 * |x|)
  {
    hide LeadingZeros8, ZeroPrefixLen, XorRule;
    ZeroPrefixStep(x);
    ZeroPrefixStep(y);
    ZeroPrefixStep(z);
    XorRuleByte(x[0], y[0]);
    XorRuleJoin(LeadingZeros8(x[0]), LeadingZeros8(y[0]), LeadingZeros8(z[0]),
                ZeroPrefixLen(x[1..]), ZeroPrefixLen(y[1..]), ZeroPrefixLen(z[1..]),
                ZeroPrefixLen(x), ZeroPrefixLen(y), ZeroPrefixLen(z), 8 * |x[1..]|);
  }

  lemma {:induction false} ZeroPrefixXor(x: Id, y: Id)
    requires |x| == |y|
    ensures XorRule(ZeroPrefixLen(x), ZeroPrefixLen(y), ZeroPrefixLen(Xor(x, y)), 8 * |x|)
  {
    if x != [] {
      assert Xor(x, y)[1..] == Xor(x[1..], y[1..]);
      ZeroPrefixXor(x[1..], y[1..]);
      ZeroPrefixXorStep(x, y, Xor(x, y));
    }
  }

  /** Common prefix lengths form an ultrametric over a binary alphabet: with respect to a third
      identifier, unequal lengths fix the common prefix and equal ones (short of the whole
      identifier) extend it by at least one bit. */
  lemma {:induction false} CommonPrefixRule(a: Id, b: Id, l: Id)
    requires |a| == |b| == |l|
    ensures XorRule(CommonPrefixLen(a, l), CommonPrefixLen(b, l), CommonPrefixLen(a, b), 8 * |l|)
  {
    XorCancels(a, b, l);
    ZeroPrefixXor(Xor(a, l), Xor(b, l));
  }

  // ---------------------------------------------------------------- order of distances

  lemma {:induction false} LeadingZerosOrder(x: Byte, y: Byte)
    requires LeadingZeros8(x) > LeadingZeros8(y)
    ensures x < y
  {
  }

  lemma {:induction false} MoreZerosIsLess(x: Id, y: Id)
    requires |x| == |y|
    requires ZeroPrefixLen(x) > ZeroPrefixLen(y)
    ensures Less(x, y)
  {
    hide LeadingZeros8;
    ZeroPrefixStep(x);
    ZeroPrefixStep(y);
    if LeadingZeros8(y[0]) < LeadingZeros8(x[0]) {
      LeadingZerosOrder(x[0], y[0]);
    } else {
      LeadingZerosZero(x[0]);
      LeadingZerosZero(y[0]);
      MoreZerosIsLess(x[1..], y[1..]);
    }
  }

  /** Sharing a longer prefix with the target means being strictly closer to it. */
  lemma {:induction false} LongerPrefixIsCloser(target: Id, a: Id, b: Id)
    requires |target| == |a| == |b|
    requires CommonPrefixLen(target, a) > CommonPrefixLen(target, b)
    ensures Less(Xor(target, a), Xor(target, b))
  {
    MoreZerosIsLess(Xor(target, a), Xor(target, b));
  }

  lemma {:induction false} ByteOrder(x: Byte, y: Byte)
    ensures x < y <==> Value(x) < Value(y)
    ensures x == y <==> Value(x) == Value(y)
    ensures Value(x) <= 255
  {
  }

  lemma {:induction false} MoreTimes(a: nat, b: nat, p: nat)
    requires a < b
    ensures a * p + p <= b * p
  {
    assert b * p == a * p + p + (b - a - 1) * p;
  }

  lemma {:induction false} DigitOrder(a: nat, b: nat, p: nat, u: nat, v: nat)
    requires u < p && v < p
    ensures a < b ==> a * p + u < b * p + v
    ensures a <= 255 ==> a * p + u < 256 * p
  {
    if a < b {
      MoreTimes(a, b, p);
    }
    if a <= 255 {
      MoreTimes(a, 256, p);
    }
  }

  lemma {:induction false} ToNatBound(x: Id)
    ensures ToNat(x) < Pow256(|x|)
  {
    hide Value;
    if x != [] {
      ToNatBound(x[1..]);
      ByteOrder(x[0], x[0]);
      DigitOrder(Value(x[0]), 0, Pow256(|x| - 1), ToNat(x[1..]), 0);
    }
  }

  ghost predicate SameOrder(less: bool, equal: bool, m: nat, n: nat)
  {
    (less <==> m < n) && (equal <==> m == n)
  }

  lemma {:induction false} DigitsSameOrder(a: nat, b: nat, p: nat, u: nat, v: nat, less: bool, equal: bool)
    requires u < p && v < p && SameOrder(less, equal, u, v)
    ensures SameOrder(a < b || (a == b && less), a == b && equal, a * p + u, b * p + v)
  {
    DigitOrder(a, b, p, u, v);
    DigitOrder(b, a, p, v, u);
  }

  /** The byte order of equally long strings is the order of the numbers they denote. */
  lemma {:induction false} LessIsNumeric(x: Id, y: Id)
    requires |x| == |y|
    ensures SameOrder(Less(x, y), x == y, ToNat(x), ToNat(y))
  {
    hide Value, Pow256;
    if x != [] {
      hide SameOrder;
      ByteOrder(x[0], y[0]);
      ToNatBound(x[1..]);
      ToNatBound(y[1..]);
      LessIsNumeric(x[1..], y[1..]);
      assert (x == y) == (x[0] == y[0] && x[1..] == y[1..]) by {
        assert x == [x[0]] + x[1..] && y == [y[0]] + y[1..];
      }
      DigitsSameOrder(Value(x[0]), Value(y[0]), Pow256(|x| - 1), ToNat(x[1..]), ToNat(y[1..]),
                      Less(x[1..], y[1..]), x[1..] == y[1..]);
    }
  }

  /** `Less` is a strict total order on identifiers of one length. */
  lemma {:induction false} LessIsStrictTotal(x: Id, y: Id, z: Id)
    requires |x| == |y| == |z|
    ensures !Less(x, x)
    ensures Less(x, y) || Less(y, x) || x == y
    ensures Less(x, y) && Less(y, z) ==> Less(x, z)
    ensures Less(x, y) ==> !Less(y, x)
  {
    LessIsNumeric(x, x);
    LessIsNumeric(x, y);
    LessIsNumeric(y, x);
    LessIsNumeric(y, z);
    LessIsNumeric(x, z);
  }

  // ---------------------------------------------------------------- the XOR metric

  /** Distance is zero only to oneself, symmetric, and for any point and distance there is exactly
      one identifier at that distance. */
  lemma {:induction false} XorMetric(a: Id, b: Id, c: Id)
    requires |a| == |b| == |c|
    ensures ToNat(Xor(a, b)) == 0 <==> a == b
    ensures ToNat(Xor(a, b)) == ToNat(Xor(b, a))
    ensures ToNat(Xor(a, b)) == ToNat(Xor(a, c)) ==> b == c
    ensures CommonPrefixLen(a, b) == 8 * |a| <==> a == b
  {
    XorCancels(a, b, c);
    XorCancels(a, a, c);
    XorCancels(a, c, b);
    LessIsNumeric(Xor(a, b), Xor(a, a));
    LessIsNumeric(Xor(a, b), Xor(a, c));
    ZeroIsZero(Xor(a, a));
    ZeroPrefixFull(Xor(a, b));
  }

  lemma {:induction false} ZeroIsZero(x: Id)
    requires forall i :: 0 <= i < |x| ==> x[i] == 0
    ensures ToNat(x) == 0
  {
    if x != [] {
      ZeroIsZero(x[1..]);
    }
  }

  lemma {:induction false} ZeroPrefixFull(x: Id)
    ensures ZeroPrefixLen(x) == 8 * |x| <==> forall i :: 0 <= i < |x| ==> x[i] == 0
  {
    hide LeadingZeros8;
    if x != [] {
      ZeroPrefixStep(x);
      LeadingZerosZero(x[0]);
      ZeroPrefixFull(x[1..]);
      assert forall i :: 0 < i < |x| ==> x[i] == x[1..][i - 1];
    }
  }
}
