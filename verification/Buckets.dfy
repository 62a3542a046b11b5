/**
 One k-bucket: a list of peer entries, most recently added first, with its tuned parameters.
 */
module Buckets {
  import opened Wrappers
  import opened Keyspace
  import opened TableModel
  import opened TableProofs

  /** The fold behind `min`: a later entry wins whenever the comparator puts it first. */
  function MinOf(list: seq<PeerInfo>, lessThan: (PeerInfo, PeerInfo) -> bool): PeerInfo
    requires list != []
  {
    if |list| == 1 then list[0]
    else
      var best := MinOf(list[..|list| - 1], lessThan);
      if lessThan(list[|list| - 1], best) then list[|list| - 1] else best
  }

  /** The comparator of the adds looks at its first argument only. */
  function FirstReplaceable(): (PeerInfo, PeerInfo) -> bool
  {
    (a: PeerInfo, b: PeerInfo) => a.isReplaceable
  }

  /** With that comparator the minimum is the last replaceable entry, or the first entry if there is none. */
  lemma {:induction false} MinIsLastReplaceable(list: seq<PeerInfo>)
    requires list != []
    ensures LastReplaceable(list) == None ==> MinOf(list, FirstReplaceable()) == list[0]
    ensures LastReplaceable(list).Some? ==> MinOf(list, FirstReplaceable()) == LastReplaceable(list).value
  {
    if |list| > 1 {
      MinIsLastReplaceable(list[..|list| - 1]);
    } else if !list[0].isReplaceable {
      assert list[..0] == [];
    }
  }

  /** No replaceable entry comes after the one chosen. */
  lemma {:induction false} LastReplaceableIsLast(list: seq<PeerInfo>) returns (i: nat)
    requires LastReplaceable(list).Some?
    ensures i < |list| && list[i] == LastReplaceable(list).value
    ensures forall j :: i < j < |list| ==> !list[j].isReplaceable
    decreases |list|
  {
    i := |list| - 1;
    if !list[i].isReplaceable {
      i := LastReplaceableIsLast(list[..i]);
    }
  }

  /** All entries marked as not to be replaced. */
  function Frozen(list: seq<PeerInfo>): (r: seq<PeerInfo>)
    ensures |r| == |list|
    ensures forall i :: 0 <= i < |r| ==> !r[i].isReplaceable && r[i].(isReplaceable := list[i].isReplaceable) == list[i]
  {
    seq(|list|, i requires 0 <= i < |list| => list[i].(isReplaceable := false))
  }

  lemma {:induction false} WithoutAt(list: seq<PeerInfo>, i: nat)
    requires i < |list| && forall j :: 0 <= j < i ==> list[j].id != list[i].id
    ensures Without(list, list[i].id) == list[..i] + list[i + 1..]
  {
    if i > 0 {
      WithoutAt(list[1..], i - 1);
      assert list[..i] == [list[0]] + list[1..][..i - 1];
    }
  }

  lemma {:induction false} WithoutNone(list: seq<PeerInfo>, p: Peer)
    requires forall j :: 0 <= j < |list| ==> list[j].id != p
    ensures Without(list, p) == list
  {
    if list != [] {
      WithoutNone(list[1..], p);
    }
  }

  lemma {:induction false} PickAppend(cfg: Config, list: seq<PeerInfo>, x: PeerInfo, c: nat, deeper: bool)
    requires forall y :: y in list + [x] ==> |y.dhtId| == |cfg.local|
    ensures Pick(cfg, list + [x], c, deeper)
         == Pick(cfg, list, c, deeper)
            + (if (CommonPrefixLen(x.dhtId, cfg.local) > c) == deeper then [x] else [])
  {
    hide CommonPrefixLen;
    if list == [] {
      assert list + [x] == [x] && [x][1..] == [];
    } else {
      assert (list + [x])[1..] == list[1..] + [x];
      PickAppend(cfg, list[1..], x, c, deeper);
    }
  }

  class Bucket {
    var list: seq<PeerInfo>
    var k: int
    var alpha: int
    var beta: int

    function State(): BucketState
      reads this
    {
      BucketState(list, k, alpha, beta)
    }

    constructor ()
      ensures State() == FRESH_BUCKET
    {
      list, k, alpha, beta := [], 1, 1, 1;
    }

    /** Position of the first entry for `p`, or the length of the list. */
    method FindFirst(p: Peer) returns (i: nat)
      ensures i <= |list|
      ensures forall j :: 0 <= j < i ==> list[j].id != p
      ensures i < |list| ==> list[i].id == p
    {
      i := 0;
      while i < |list| && list[i].id != p
        invariant i <= |list|
        invariant forall j :: 0 <= j < i ==> list[j].id != p
      {
        i := i + 1;
      }
    }

    method GetPeer(p: Peer) returns (r: Option<PeerInfo>)
      ensures r.Some? <==> HasId(list, p)
      ensures r.Some? ==> r.value in list && r.value.id == p
      ensures r.Some? <==> Holds(list, p)
    {
      var i := FindFirst(p);
      if i < |list| {
        WithoutAt(list, i);
        return Some(list[i]);
      }
      WithoutNone(list, p);
      r := None;
    }

    method Remove(p: Peer) returns (ok: bool)
      modifies this`list
      ensures list == Without(old(list), p)
      ensures ok <==> Holds(old(list), p)
    {
      var i := FindFirst(p);
      ok := i < |list|;
      if ok {
        WithoutAt(list, i);
        list := list[..i] + list[i + 1..];
      } else {
        WithoutNone(list, p);
      }
    }

    method BumpPeer(p: Peer, at: Option<int>)
      requires DistinctIds(list)
      modifies this`list
      ensures list == Bump(old(list), p, at)
    {
      var i := FindFirst(p);
      if i < |list| && list[i].lastUsefulAt.None? {
        list := list[i := list[i].(lastUsefulAt := at)];
      }
    }

    method PushFront(x: PeerInfo)
      modifies this`list
      ensures list == [x] + old(list)
    {
      list := [x] + list;
    }

    method Min(lessThan: (PeerInfo, PeerInfo) -> bool) returns (r: Option<PeerInfo>)
      ensures r == if list == [] then None else Some(MinOf(list, lessThan))
    {
      if |list| == 0 {
        return None;
      }
      var best := list[0];
      for i := 1 to |list|
        invariant best == MinOf(list[..i], lessThan)
      {
        assert list[..i + 1][..i] == list[..i];
        if lessThan(list[i], best) {
          best := list[i];
        }
      }
      assert list[..|list|] == list;
      r := Some(best);
    }

    /** `updateAllWith` as the table uses it: clear the mark on every entry. */
    method Freeze()
      modifies this`list
      ensures list == Frozen(old(list))
    {
      var out := [];
      for i := 0 to |list|
        invariant |out| == i
        invariant forall j :: 0 <= j < i ==> out[j] == list[j].(isReplaceable := false)
      {
        out := out + [list[i].(isReplaceable := false)];
      }
      list := out;
    }

    /** Move the entries sharing more than `cpl` bits with the local identifier to a new bucket. */
    method Split(cfg: Config, cpl: nat) returns (out: Bucket)
      requires forall x :: x in list ==> |x.dhtId| == |cfg.local|
      modifies this`list
      ensures fresh(out)
      ensures list == Pick(cfg, old(list), cpl, false)
      ensures out.State() == FRESH_BUCKET.(list := Pick(cfg, old(list), cpl, true))
    {
      hide Pick, CommonPrefixLen;
      var all, stay, moved := list, [], [];
      assert all[..0] == [];
      PickEmpty(cfg, cpl);
      for i := 0 to |all|
        invariant stay == Pick(cfg, all[..i], cpl, false)
        invariant moved == Pick(cfg, all[..i], cpl, true)
      {
        assert all[..i + 1] == all[..i] + [all[i]];
        PickAppend(cfg, all[..i], all[i], cpl, true);
        PickAppend(cfg, all[..i], all[i], cpl, false);
        if CommonPrefixLen(all[i].dhtId, cfg.local) > cpl {
          moved := moved + [all[i]];
        } else {
          stay := stay + [all[i]];
        }
      }
      assert all[..|all|] == all;
      out := new Bucket();
      list, out.list := stay, moved;
    }
  }

}
