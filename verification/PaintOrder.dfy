/** What paint order means: a linear scan over everything inserted before, and the chains it counts. */
module PaintOrder {
  import opened Geometry

  /** `m` is the largest order among the first |os| rectangles that meet `query`, or 0 if none does. */
  ghost predicate IsMaxHit(bs: seq<Bounds>, os: seq<nat>, query: Bounds, m: nat)
    requires |bs| == |os|
  {
    && (forall k :: 0 <= k < |bs| && query.Intersects(bs[k]) ==> os[k] <= m)
    && (m == 0 || exists k :: 0 <= k < |bs| && query.Intersects(bs[k]) && os[k] == m)
  }

  /** The linear scan: keep the larger order whenever a rectangle meets the query. */
  ghost function MaxHit(bs: seq<Bounds>, os: seq<nat>, query: Bounds): nat
    requires |bs| == |os|
  {
    if bs == [] then 0
    else
      var n := |bs| - 1;
      var rest := MaxHit(bs[..n], os[..n], query);
      if query.Intersects(bs[n]) && os[n] > rest then os[n] else rest
  }

  /** The scan finds the largest order among the rectangles met, and nothing else is that. */
  lemma {:induction false} MaxHitIsMax(bs: seq<Bounds>, os: seq<nat>, query: Bounds)
    requires |bs| == |os|
    ensures forall m: nat :: IsMaxHit(bs, os, query, m) <==> m == MaxHit(bs, os, query)
  {
    if bs != [] {
      var n := |bs| - 1;
      MaxHitIsMax(bs[..n], os[..n], query);
      var rest := MaxHit(bs[..n], os[..n], query);
      assert IsMaxHit(bs[..n], os[..n], query, rest);
      assert forall k :: 0 <= k < n ==> bs[..n][k] == bs[k] && os[..n][k] == os[k];
    }
  }

  /** The order of each rectangle of an insertion sequence, in insertion order. */
  ghost function Orders(bs: seq<Bounds>): (os: seq<nat>)
    ensures |os| == |bs|
  {
    if bs == [] then []
    else
      var n := |bs| - 1;
      Orders(bs[..n]) + [1 + MaxHit(bs[..n], Orders(bs[..n]), bs[n])]
  }

  /** Later insertions never change the order of an earlier rectangle. */
  lemma {:induction false} OrdersOfPrefix(bs: seq<Bounds>, k: nat)
    requires k <= |bs|
    ensures Orders(bs)[..k] == Orders(bs[..k])
  {
    if k < |bs| {
      var n := |bs| - 1;
      OrdersOfPrefix(bs[..n], k);
      assert bs[..n][..k] == bs[..k];
      assert Orders(bs)[..k] == Orders(bs[..n])[..k];
    } else {
      assert bs[..k] == bs;
    }
  }

  lemma OrderOf(bs: seq<Bounds>, k: nat)
    requires k < |bs|
    ensures Orders(bs)[k] == 1 + MaxHit(bs[..k], Orders(bs)[..k], bs[k])
  {
    OrdersOfPrefix(bs, k + 1);
    OrdersOfPrefix(bs, k);
    assert bs[..k + 1][..k] == bs[..k];
    assert Orders(bs)[k] == Orders(bs)[..k + 1][k];
  }

  /** `chain` lists insertion indices, ascending, each rectangle meeting the previous one. */
  ghost predicate IsChain(bs: seq<Bounds>, chain: seq<nat>) {
    && (forall j :: 0 <= j < |chain| ==> chain[j] < |bs|)
    && (forall j :: 0 < j < |chain| ==> chain[j - 1] < chain[j] && bs[chain[j]].Intersects(bs[chain[j - 1]]))
  }

  ghost predicate ChainEndingAt(bs: seq<Bounds>, chain: seq<nat>, k: nat) {
    IsChain(bs, chain) && |chain| > 0 && chain[|chain| - 1] == k
  }

  /** Meeting rectangles are painted in insertion order: the later one always gets the larger order. */
  lemma LaterIsAbove(bs: seq<Bounds>, i: nat, k: nat)
    requires i < k < |bs| && bs[k].Intersects(bs[i])
    ensures Orders(bs)[i] < Orders(bs)[k]
  {
    OrderOf(bs, k);
    MaxHitIsMax(bs[..k], Orders(bs)[..k], bs[k]);
    assert IsMaxHit(bs[..k], Orders(bs)[..k], bs[k], Orders(bs)[k] - 1);
    assert bs[..k][i] == bs[i] && Orders(bs)[..k][i] == Orders(bs)[i];
  }

  /** An order above 1 is witnessed by an earlier meeting rectangle exactly one below. */
  lemma OneBelowIsWitnessed(bs: seq<Bounds>, k: nat) returns (i: nat)
    requires k < |bs| && Orders(bs)[k] > 1
    ensures i < k && bs[k].Intersects(bs[i]) && Orders(bs)[i] == Orders(bs)[k] - 1
  {
    OrderOf(bs, k);
    MaxHitIsMax(bs[..k], Orders(bs)[..k], bs[k]);
    var m := MaxHit(bs[..k], Orders(bs)[..k], bs[k]);
    assert IsMaxHit(bs[..k], Orders(bs)[..k], bs[k], m);
    i :| 0 <= i < k && bs[k].Intersects(bs[..k][i]) && Orders(bs)[..k][i] == m;
  }

  lemma {:induction false} ChainsAreShort(bs: seq<Bounds>, chain: seq<nat>, k: nat)
    requires ChainEndingAt(bs, chain, k)
    ensures |chain| <= Orders(bs)[k]
    decreases |chain|
  {
    OrderOf(bs, k);
    var n := |chain| - 1;
    if n > 0 {
      ChainsAreShort(bs, chain[..n], chain[n - 1]);
      LaterIsAbove(bs, chain[n - 1], k);
    }
  }

  lemma {:induction false} LongChainExists(bs: seq<Bounds>, k: nat) returns (chain: seq<nat>)
    requires k < |bs|
    ensures ChainEndingAt(bs, chain, k) && |chain| == Orders(bs)[k]
    decreases k
  {
    OrderOf(bs, k);
    if Orders(bs)[k] == 1 {
      chain := [k];
    } else {
      var i := OneBelowIsWitnessed(bs, k);
      var shorter := LongChainExists(bs, i);
      chain := shorter + [k];
    }
  }

  /** The order of a rectangle is the length of the longest chain ending at it. */
  lemma OrderIsLongestChain(bs: seq<Bounds>, k: nat)
    requires k < |bs|
    ensures forall chain :: ChainEndingAt(bs, chain, k) ==> |chain| <= Orders(bs)[k]
    ensures exists chain :: ChainEndingAt(bs, chain, k) && |chain| == Orders(bs)[k]
  {
    var longest := LongChainExists(bs, k);
    forall chain | ChainEndingAt(bs, chain, k) ensures |chain| <= Orders(bs)[k] {
      ChainsAreShort(bs, chain, k);
    }
  }

  lemma {:induction false} ChainFitsBelow(bs: seq<Bounds>, chain: seq<nat>)
    requires IsChain(bs, chain) && |chain| > 0
    ensures |chain| <= chain[|chain| - 1] + 1
    decreases |chain|
  {
    if |chain| > 1 {
      ChainFitsBelow(bs, chain[..|chain| - 1]);
    }
  }

  /** No order exceeds the number of insertions so far, so a 32-bit order cannot wrap before 2^32 of them. */
  lemma OrderAtMostInsertCount(bs: seq<Bounds>, k: nat)
    requires k < |bs|
    ensures 1 <= Orders(bs)[k] <= k + 1
  {
    var chain := LongChainExists(bs, k);
    ChainFitsBelow(bs, chain);
  }
}
