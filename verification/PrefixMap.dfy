/**
 Peer identifiers for a wanted common prefix length: a table from 16-bit prefixes to counters, filled once
 by trying counters in turn, and the bit arithmetic that picks a prefix from it.
 */
module PrefixMap {
  import opened Wrappers
  import opened Collections
  import opened Keyspace

  const MAX_CPL_FOR_REFRESH: nat := 15
  const TARGET: nat := 0x10000

  /** The identifier made from a counter: the two bytes of a SHA-256 multihash's header, the counter in four
      bytes, the highest first, and zeros. */
  function PeerFor(key: nat): Peer
  {
    [18 as char, 32 as char, (key / 0x1000000 % 256) as char, (key / 0x10000 % 256) as char,
     (key / 256 % 256) as char, (key % 256) as char] + seq(28, _ => 0 as char)
  }

  /** Two bytes, the high one first. */
  function Word(hi: Byte, lo: Byte): bv16
  {
    ((hi as bv16) << 8) | (lo as bv16)
  }

  function WordNat(w: bv16): (n: nat)
    ensures n < TARGET
  {
    w as nat
  }

  function Prefix(x: Id): bv16
    requires |x| >= 2
  {
    Word(x[0], x[1])
  }

  function Bit(cpl: nat): bv16
    requires cpl <= MAX_CPL_FOR_REFRESH
  {
    (0x8000 as bv16) >> cpl
  }

  function Mask(cpl: nat): bv16
    requires cpl <= MAX_CPL_FOR_REFRESH
  {
    (0xFFFF as bv16) << (16 - (cpl + 1))
  }

  /** The first `cpl` bits of `prefix`, the opposite of the next one, and the rest from `rand`. */
  function TargetPrefix(prefix: bv16, rand: bv16, cpl: nat): bv16
    requires cpl <= MAX_CPL_FOR_REFRESH
  {
    Pick(prefix, rand, Bit(cpl), Mask(cpl))
  }

  function Pick(prefix: bv16, rand: bv16, bit: bv16, mask: bv16): bv16
  {
    ((prefix ^ bit) & mask) | (rand & !mask)
  }

  function GenRandPeerId(local: Id, cpl: nat, rand: bv16, table: seq<nat>): Option<Peer>
    requires |local| >= 2 && |table| == TARGET
  {
    if cpl > MAX_CPL_FOR_REFRESH then None
    else Some(PeerFor(table[WordNat(TargetPrefix(Prefix(local), rand, cpl))]))
  }

  // ---------------------------------------------------------------- the bit arithmetic

  function PowerOfTwo(cpl: nat): bv16
    requires cpl <= MAX_CPL_FOR_REFRESH
  {
    match cpl
    case 0 => 0x8000 case 1 => 0x4000 case 2 => 0x2000 case 3 => 0x1000
    case 4 => 0x800 case 5 => 0x400 case 6 => 0x200 case 7 => 0x100
    case 8 => 0x80 case 9 => 0x40 case 10 => 0x20 case 11 => 0x10
    case 12 => 8 case 13 => 4 case 14 => 2 case 15 => 1
  }

  lemma {:induction false} BitIsPower(cpl: nat)
    requires cpl <= MAX_CPL_FOR_REFRESH
    ensures Bit(cpl) == PowerOfTwo(cpl)
  {
    hide Bit, PowerOfTwo;
    if cpl < 8 {
      HighBit(cpl);
    } else {
      LowBit(cpl);
    }
  }

  lemma {:induction false} HighBit(cpl: nat)
    requires cpl < 8
    ensures Bit(cpl) == PowerOfTwo(cpl)
  {
  }

  lemma {:induction false} LowBit(cpl: nat)
    requires 8 <= cpl <= MAX_CPL_FOR_REFRESH
    ensures Bit(cpl) == PowerOfTwo(cpl)
  {
  }

  lemma {:induction false} MaskIsComplement(cpl: nat)
    requires cpl <= MAX_CPL_FOR_REFRESH
    ensures Mask(cpl) == !(PowerOfTwo(cpl) - 1)
  {
  }

  /** Whether the two prefixes agree on `cpl` bits and differ in the next. */
  predicate Part(a: bv16, b: bv16, cpl: nat)
    requires cpl <= MAX_CPL_FOR_REFRESH
  {
    Agree(a, b, Bit(cpl), Mask(cpl))
  }

  predicate Agree(a: bv16, b: bv16, bit: bv16, mask: bv16)
  {
    (a ^ b) & mask == bit
  }

  lemma {:induction false} BitUnderMask(cpl: nat)
    requires cpl <= MAX_CPL_FOR_REFRESH
    ensures Bit(cpl) & Mask(cpl) == Bit(cpl)
  {
    hide Bit, Mask;
    BitIsPower(cpl);
    MaskIsComplement(cpl);
  }

  lemma {:induction false} ToggleParts(prefix: bv16, rand: bv16, bit: bv16, mask: bv16)
    requires bit & mask == bit
    ensures Agree(prefix, Pick(prefix, rand, bit, mask), bit, mask)
  {
  }

  /** Any random word gives a prefix that parts from the local one exactly there. */
  lemma {:induction false} TargetParts(prefix: bv16, rand: bv16, cpl: nat)
    requires cpl <= MAX_CPL_FOR_REFRESH
    ensures Part(prefix, TargetPrefix(prefix, rand, cpl), cpl)
  {
    hide Bit, Mask, Pick, Agree;
    BitUnderMask(cpl);
    ToggleParts(prefix, rand, Bit(cpl), Mask(cpl));
  }

  /** And every such prefix is given by some random word, namely itself. */
  lemma {:induction false} EveryTargetIsPicked(prefix: bv16, p: bv16, cpl: nat)
    requires cpl <= MAX_CPL_FOR_REFRESH && Part(prefix, p, cpl)
    ensures TargetPrefix(prefix, p, cpl) == p
  {
    hide Bit, Mask, Pick, Agree;
    UntoggleParts(prefix, p, Bit(cpl), Mask(cpl));
  }

  lemma {:induction false} UntoggleParts(prefix: bv16, p: bv16, bit: bv16, mask: bv16)
    requires Agree(prefix, p, bit, mask)
    ensures Pick(prefix, p, bit, mask) == p
  {
  }

  // ---------------------------------------------------------------- bytes

  lemma {:induction false} WordXor(a0: Byte, a1: Byte, b0: Byte, b1: Byte)
    ensures Word(a0, a1) ^ Word(b0, b1) == Word(a0 ^ b0, a1 ^ b1)
  {
  }

  lemma {:induction false} HighBits(d0: Byte, d1: Byte, cpl: nat)
    requires cpl < 8 && Word(d0, d1) & !(PowerOfTwo(cpl) - 1) == PowerOfTwo(cpl)
    ensures d0 != 0 && LeadingZeros8(d0) == cpl
  {
  }

  lemma {:induction false} LowBits(d0: Byte, d1: Byte, cpl: nat)
    requires 8 <= cpl <= 15 && Word(d0, d1) & !(PowerOfTwo(cpl) - 1) == PowerOfTwo(cpl)
    ensures d0 == 0 && d1 != 0 && LeadingZeros8(d1) == cpl - 8
  {
  }

  lemma {:induction false} ZeroPrefixOfWord(x: Id, cpl: nat)
    requires |x| >= 2 && cpl <= MAX_CPL_FOR_REFRESH && Word(x[0], x[1]) & !(PowerOfTwo(cpl) - 1) == PowerOfTwo(cpl)
    ensures ZeroPrefixLen(x) == cpl
  {
    hide Word, PowerOfTwo, LeadingZeros8;
    if cpl < 8 {
      HighBits(x[0], x[1], cpl);
    } else {
      LowBits(x[0], x[1], cpl);
      assert x[1..][0] == x[1];
    }
  }

  lemma {:induction false} PartIsCommonPrefix(a: Id, b: Id, cpl: nat)
    requires |a| == |b| >= 2 && cpl <= MAX_CPL_FOR_REFRESH && Part(Prefix(a), Prefix(b), cpl)
    ensures CommonPrefixLen(a, b) == cpl
  {
    hide Word, PowerOfTwo, Bit, Mask, ZeroPrefixLen;
    BitIsPower(cpl);
    MaskIsComplement(cpl);
    WordXor(a[0], a[1], b[0], b[1]);
    ZeroPrefixOfWord(Xor(a, b), cpl);
  }

  // ---------------------------------------------------------------- the table

  /** Each slot holds a counter that hashes to that slot. */
  ghost predicate GoodTable(table: seq<nat>, slot: nat -> nat)
  {
    forall p :: 0 <= p < |table| ==> slot(table[p]) == p
  }

  /** The slot of a counter: the first sixteen bits of its identifier's hash. */
  ghost function SlotOf(hash: Peer -> Id): nat -> nat
    requires forall q :: |hash(q)| >= 2
  {
    key => WordNat(Prefix(hash(PeerFor(key))))
  }

  /** The generated identifier shares exactly the wanted number of leading bits with the local one, whatever
      the random word; only lengths over fifteen are refused. */
  lemma {:induction false} GenRandPeerIdExact(hash: Peer -> Id, local: Id, cpl: nat, rand: bv16, table: seq<nat>)
    requires |local| >= 2 && |table| == TARGET && forall q :: |hash(q)| == |local|
    requires GoodTable(table, SlotOf(hash))
    ensures GenRandPeerId(local, cpl, rand, table).Some? <==> cpl <= MAX_CPL_FOR_REFRESH
    ensures cpl <= MAX_CPL_FOR_REFRESH ==>
              CommonPrefixLen(hash(GenRandPeerId(local, cpl, rand, table).value), local) == cpl
  {
    hide PeerFor, Part, TargetPrefix, CommonPrefixLen, Prefix, WordNat;
    if cpl <= MAX_CPL_FOR_REFRESH {
      var p := TargetPrefix(Prefix(local), rand, cpl);
      var id := hash(PeerFor(table[WordNat(p)]));
      assert SlotOf(hash)(table[WordNat(p)]) == WordNat(p);
      SameWord(Prefix(id), p);
      TargetParts(Prefix(local), rand, cpl);
      PartIsCommonPrefix(local, id, cpl);
      CommonPrefixSymmetric(local, id);
    }
  }

  lemma {:induction false} SameWord(a: bv16, b: bv16)
    requires WordNat(a) == WordNat(b)
    ensures a == b
  {
    assert (a as nat) as bv16 == a && (b as nat) as bv16 == b;
  }

  lemma {:induction false} CommonPrefixSymmetric(a: Id, b: Id)
    requires |a| == |b|
    ensures CommonPrefixLen(a, b) == CommonPrefixLen(b, a)
  {
    XorCancels(a, b, a);
  }

  // ---------------------------------------------------------------- filling the table

  /** The slots reached by the first `n` counters. */
  ghost predicate Reached(slot: nat -> nat, n: nat, p: nat)
  {
    exists j: nat :: j < n && slot(j) == p
  }

  lemma {:induction false} ReachedMore(slot: nat -> nat, n: nat, p: nat)
    ensures Reached(slot, n + 1, p) <==> Reached(slot, n, p) || slot(n) == p
  {
    if Reached(slot, n + 1, p) && slot(n) != p {
      var j: nat :| j < n + 1 && slot(j) == p;
      assert j < n;
    }
  }

  lemma {:induction false} NotAllYet(slot: nat -> nat, size: nat, done: set<nat>, n: nat, last: nat)
    requires Done(slot, size, n, done)
    requires forall p: nat :: p < size ==> Reached(slot, last, p)
    requires |done| < size
    ensures n < last
  {
    if n >= last {
      forall p | p in Naturals(size)
        ensures p in done
      {
        assert Reached(slot, last, p);
        var j: nat :| j < last && slot(j) == p;
        assert j < n;
      }
      SubsetSize(Naturals(size), done);
    }
  }

  /** Tries counters from zero up until every slot has one. Each slot gets the first counter that reaches it;
      the search ends because by `last` every slot has been reached. */
  method Generate(size: nat, slot: nat -> nat, ghost last: nat) returns (table: array<nat>)
    requires forall i :: slot(i) < size
    requires forall p: nat :: p < size ==> Reached(slot, last, p)
    ensures fresh(table) && table.Length == size && GoodTable(table[..], slot)
    ensures forall p: nat, j: nat :: p < size && slot(j) == p ==> table[p] <= j
  {
    hide Reached, Done, IsFirst;
    table := new nat[size](_ => 0);
    var found := new bool[size](_ => false);
    var count, i := 0, 0;
    ghost var done: set<nat> := {};
    NothingDone(slot, size);
    while count < size
      invariant count == |done| && table.Length == found.Length == size && fresh(table) && fresh(found)
      invariant Done(slot, size, i, done)
      invariant forall p: nat :: p < size ==> (found[p] <==> p in done)
      invariant forall p: nat :: p < size && found[p] ==> IsFirst(slot, p, table[p])
      decreases last - i
    {
      NotAllYet(slot, size, done, i, last);
      DoneMore(slot, size, i, done);
      var prefix := slot(i);
      if !found[prefix] {
        found[prefix] := true;
        table[prefix] := i;
        count := count + 1;
      }
      done := done + {prefix};
      i := i + 1;
    }
    DoneBound(slot, size, i, done);
    AllDone(done, size);
    FirstFacts(table[..], slot);
  }

  /** The slots reached so far. */
  ghost predicate Done(slot: nat -> nat, size: nat, n: nat, done: set<nat>)
  {
    forall p: nat :: p in done <==> p < size && Reached(slot, n, p)
  }

  /** The first counter that reaches the slot. */
  ghost predicate IsFirst(slot: nat -> nat, p: nat, k: nat)
  {
    slot(k) == p && forall j: nat :: slot(j) == p ==> k <= j
  }

  lemma {:induction false} NothingDone(slot: nat -> nat, size: nat)
    ensures Done(slot, size, 0, {})
  {
  }

  /** The next counter reaches its slot, for the first time if the slot is new. */
  lemma {:induction false} DoneMore(slot: nat -> nat, size: nat, n: nat, done: set<nat>)
    requires Done(slot, size, n, done) && slot(n) < size
    ensures Done(slot, size, n + 1, done + {slot(n)})
    ensures slot(n) !in done ==> IsFirst(slot, slot(n), n) && |done + {slot(n)}| == |done| + 1
    ensures slot(n) in done ==> done + {slot(n)} == done
  {
    forall p: nat
      ensures p in done + {slot(n)} <==> p < size && Reached(slot, n + 1, p)
    {
      ReachedMore(slot, n, p);
    }
  }

  lemma {:induction false} DoneBound(slot: nat -> nat, size: nat, n: nat, done: set<nat>)
    requires Done(slot, size, n, done)
    ensures |done| <= size && forall p :: p in done ==> p < size
  {
    AtMost(done, size);
  }

  lemma {:induction false} FirstFacts(table: seq<nat>, slot: nat -> nat)
    requires forall p: nat :: p < |table| ==> IsFirst(slot, p, table[p])
    ensures GoodTable(table, slot)
    ensures forall p: nat, j: nat :: p < |table| && slot(j) == p ==> table[p] <= j
  {
  }

  lemma {:induction false} AllDone(done: set<nat>, size: nat)
    requires |done| == size && forall p :: p in done ==> p < size
    ensures forall p: nat :: p < size ==> p in done
  {
    forall p: nat | p < size
      ensures p in done
    {
      if p !in done {
        SubsetSize(done, Naturals(size) - {p});
      }
    }
  }
}
