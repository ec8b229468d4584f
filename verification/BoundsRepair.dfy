/** The node updates of an insertion, and why each keeps the tree invariant. */
module BoundsRepair {
  import opened Geometry
  import opened BoundsForest
  import opened Wrappers

  ghost function LeafNode(b: Bounds, order: nat): Node {
    Node(b, order, Leaf(order))
  }

  /** All nodes are in order except those of the first `k` on the path, which lack the new rectangle. */
  ghost predicate RepairedFrom(ns: seq<Node>, path: seq<nat>, k: nat, b: Bounds, order: nat)
    requires k <= |path|
  {
    && (forall j :: 0 <= j < k ==> path[j] < |ns| && NodeStale(ns, path[j], b, order))
    && (forall q :: 0 <= q < |ns| ==> NodeOk(ns, q) || q in path[..k])
  }

  /** The two children of a node made of an old leaf and the new one, the larger order last. */
  function OrderedPair(sibling: nat, siblingOrder: nat, leaf: nat, order: nat): (s: seq<nat>)
    ensures |s| == 2 && (forall x :: x in s <==> x == sibling || x == leaf)
    ensures sibling != leaf ==> Distinct(s)
    ensures s[1] == if order > siblingOrder then leaf else sibling
  {
    var s := if order > siblingOrder then [sibling, leaf] else [leaf, sibling];
    assert s[0] in s && s[1] in s;
    s
  }

  function Grow(node: Node, b: Bounds, order: nat): Node {
    node.(bounds := node.bounds.Union(b), maxOrder := MaxNat(node.maxOrder, order))
  }

  lemma UnionCoversMore(outer: Bounds, inner: Bounds, b: Bounds)
    requires Covers(outer.Union(b), inner)
    ensures Covers(outer.Union(b), inner.Union(b))
    ensures Covers(outer.Union(b).Union(b), inner)
  {
  }

  lemma OkIsStale(ns: seq<Node>, p: nat, b: Bounds, order: nat)
    requires IsInternal(ns, p) && NodeOk(ns, p)
    ensures NodeStale(ns, p, b, order)
  {
  }

  /** `node'` is `node` with at most rectangle `b` and its order taken in. */
  ghost predicate Growing(node: Node, node': Node, b: Bounds, order: nat) {
    && Covers(node.bounds.Union(b), node'.bounds)
    && node.maxOrder <= node'.maxOrder <= MaxNat(node.maxOrder, order)
  }

  ghost predicate OnlyGrowsAt(ns: seq<Node>, ns': seq<Node>, p: nat, b: Bounds, order: nat) {
    && p < |ns| <= |ns'| && Growing(ns[p], ns'[p], b, order)
    && forall i :: 0 <= i < |ns| && i != p ==> ns'[i] == ns[i]
  }

  /** When node `p` grows, its own parent becomes stale and no other node notices. */
  lemma GrowthElsewhere(ns: seq<Node>, ns': seq<Node>, p: nat, q: nat, b: Bounds, order: nat)
    requires OnlyGrowsAt(ns, ns', p, b, order) && q < |ns| && p != q
    ensures NodeOk(ns, q) && !ChildOf(ns, q, p) ==> NodeOk(ns', q)
    ensures NodeStale(ns, q, b, order) ==> NodeStale(ns', q, b, order)
  {
    assert forall c: nat :: ChildOf(ns, q, c) <==> ChildOf(ns', q, c);
    if ChildOf(ns, q, p) && NodeStale(ns, q, b, order) {
      UnionCoversMore(ns[q].bounds, ns[p].bounds, b);
    }
  }

  /** Growth at the end of a descent leaves exactly the nodes above it to be repaired. */
  lemma GrowthOnPath(ns: seq<Node>, root: nat, links: Links, path: seq<nat>, ns': seq<Node>, b: Bounds, order: nat)
    requires WellFormed(ns, root, links) && Descent(ns, root, path) && IsInternal(ns, path[|path| - 1])
    requires OnlyGrowsAt(ns, ns', path[|path| - 1], b, order)
    ensures forall q :: 0 <= q < |ns| && q != path[|path| - 1] ==> NodeOk(ns', q) || q in path
    ensures forall j :: 0 <= j < |path| - 1 ==> path[j] < |ns| && NodeStale(ns', path[j], b, order)
  {
    var p := path[|path| - 1];
    forall q | 0 <= q < |ns| && q != p ensures NodeOk(ns', q) || q in path {
      GrowthElsewhere(ns, ns', p, q, b, order);
      if ChildOf(ns, q, p) {
        ParentOnPath(ns, root, links, path, q);
      }
    }
    forall j | 0 <= j < |path| - 1 ensures path[j] < |ns| && NodeStale(ns', path[j], b, order) {
      PathIsInternal(ns, root, links, path, j);
      DescentDepths(ns, root, links, path, j);
      DescentDepths(ns, root, links, path, |path| - 1);
      OkIsStale(ns, path[j], b, order);
      GrowthElsewhere(ns, ns', p, path[j], b, order);
    }
  }

  /** Room in `p`: the new leaf goes last, or second to last when it does not beat the node's order. */
  function WithLeaf(node: Node, leaf: nat, b: Bounds, order: nat): (r: Node)
    requires node.kind.Internal? && |node.kind.children| >= 1
    ensures r.kind.Internal? && r.bounds == node.bounds.Union(b) && r.maxOrder == MaxNat(node.maxOrder, order)
    ensures |r.kind.children| == |node.kind.children| + 1
    ensures forall x :: x in r.kind.children <==> x == leaf || x in node.kind.children
    ensures Distinct(node.kind.children) && leaf !in node.kind.children ==> Distinct(r.kind.children)
    ensures r.kind.children[|node.kind.children|] ==
              if order <= node.maxOrder then node.kind.children[|node.kind.children| - 1] else leaf
  {
    var pushed := node.kind.children + [leaf];
    var last := |pushed| - 1;
    SwapKeepsMembers(pushed, last - 1, last);
    assert pushed[last] == leaf;
    Grow(node, b, order).(kind := Internal(if order <= node.maxOrder then Swap(pushed, last - 1, last) else pushed))
  }

  lemma AttachNodeOk(ns: seq<Node>, p: nat, b: Bounds, order: nat)
    requires IsInternal(ns, p) && NodeOk(ns, p) && order >= 1
    ensures var ns' := (ns + [LeafNode(b, order)])[p := WithLeaf(ns[p], |ns|, b, order)]; NodeOk(ns', p)
  {
    var node := WithLeaf(ns[p], |ns|, b, order);
    var ns' := (ns + [LeafNode(b, order)])[p := node];
    assert forall x :: x in ns[p].kind.children ==> ChildOf(ns, p, x) && x < |ns|;
    assert ChildrenInRange(ns', p) by {
      forall k | 0 <= k < |node.kind.children| ensures node.kind.children[k] < |ns'| {
        assert node.kind.children[k] in node.kind.children;
      }
    }
    forall c: nat | ChildOf(ns', p, c) ensures c < |ns'| && Fits(ns'[p], ns'[c]) {
      if c != |ns| {
        assert ChildOf(ns, p, c) && c != p ==> ns'[c] == ns[c];
      }
    }
    assert ChildOf(ns, p, LastChild(ns, p));
  }

  lemma AttachKeepsOrder(ns: seq<Node>, root: nat, links: Links, path: seq<nat>, b: Bounds, order: nat)
    requires WellFormed(ns, root, links) && Descent(ns, root, path) && order >= 1
    requires IsInternal(ns, path[|path| - 1])
    ensures NodeOk(ns, path[|path| - 1])
    ensures RepairedFrom((ns + [LeafNode(b, order)])[path[|path| - 1] := WithLeaf(ns[path[|path| - 1]], |ns|, b, order)],
                         path, |path|, b, order)
  {
    var p := path[|path| - 1];
    assert NodeOk(ns, p);
    var ns' := (ns + [LeafNode(b, order)])[p := WithLeaf(ns[p], |ns|, b, order)];
    AttachNodeOk(ns, p, b, order);
    OkIsStale(ns', p, b, order);
    GrowthOnPath(ns, root, links, path, ns', b, order);
    assert path[..|path|] == path;
    assert NodeOk(ns', |ns|);
  }

  lemma ParentOnPath(ns: seq<Node>, root: nat, links: Links, path: seq<nat>, q: nat)
    requires Linked(ns, root, links) && Descent(ns, root, path) && ChildOf(ns, q, path[|path| - 1])
    ensures |path| > 1 && q == path[|path| - 2]
  {
    if |path| > 1 {
      assert ChildOf(ns, path[|path| - 2], path[|path| - 1]);
    }
  }

  lemma PathIsInternal(ns: seq<Node>, root: nat, links: Links, path: seq<nat>, j: nat)
    requires WellFormed(ns, root, links) && Descent(ns, root, path) && IsInternal(ns, path[|path| - 1]) && j < |path|
    ensures IsInternal(ns, path[j]) && NodeOk(ns, path[j])
  {
    if j + 1 < |path| {
      assert ChildOf(ns, path[j], path[j + 1]);
    }
  }

  /** No room in `p`: its child at `pos` makes way for the new internal node, last if it now has the largest order. */
  function WithInner(node: Node, pos: nat, inner: nat, innerOrder: nat): (r: Node)
    requires node.kind.Internal? && pos < |node.kind.children|
    ensures r.kind.Internal? && r.bounds == node.bounds && r.maxOrder == node.maxOrder
    ensures |r.kind.children| == |node.kind.children|
    ensures inner !in node.kind.children && Distinct(node.kind.children) ==>
              Distinct(r.kind.children)
              && forall x :: x in r.kind.children <==> x == inner || (x in node.kind.children && x != node.kind.children[pos])
    ensures var last := |node.kind.children| - 1;
            r.kind.children[last] == if pos == last || innerOrder > node.maxOrder then inner else node.kind.children[last]
  {
    var replaced := node.kind.children[pos := inner];
    var last := |replaced| - 1;
    ReplaceMembers(node.kind.children, pos, inner);
    SwapKeepsMembers(replaced, pos, last);
    node.(kind := Internal(if innerOrder > node.maxOrder then Swap(replaced, pos, last) else replaced))
  }

  lemma ReplaceMembers(s: seq<nat>, pos: nat, y: nat)
    requires pos < |s|
    ensures y !in s && Distinct(s) ==>
              Distinct(s[pos := y]) && forall x :: x in s[pos := y] <==> x == y || (x in s && x != s[pos])
  {
    var t := s[pos := y];
    assert t[pos] == y;
    if y !in s && Distinct(s) {
      forall x | x in s && x != s[pos] ensures x in t {
        var k :| 0 <= k < |s| && s[k] == x;
        assert t[k] == x;
      }
    }
  }

  function InnerNode(sibling: Node, siblingIx: nat, leaf: nat, b: Bounds, order: nat): Node {
    Node(sibling.bounds.Union(b), MaxNat(sibling.maxOrder, order),
         Internal(OrderedPair(siblingIx, sibling.maxOrder, leaf, order)))
  }

  /** The new internal node is no larger than its two leaves need, carries their larger order, and has that leaf last. */
  lemma InnerNodeMeans(sibling: Node, siblingIx: nat, leaf: nat, b: Bounds, order: nat)
    ensures var inner := InnerNode(sibling, siblingIx, leaf, b, order);
            && Covers(inner.bounds, sibling.bounds) && Covers(inner.bounds, b)
            && (forall c :: Covers(c, sibling.bounds) && Covers(c, b) ==> Covers(c, inner.bounds))
            && sibling.maxOrder <= inner.maxOrder && order <= inner.maxOrder && (inner.maxOrder == sibling.maxOrder || inner.maxOrder == order)
            && inner.kind == Internal(if order > sibling.maxOrder then [siblingIx, leaf] else [leaf, siblingIx])
  {
  }

  /** The full node's child at `pos` has made way for inner node `|ns| + 1`. */
  ghost predicate Split(ns: seq<Node>, p: nat, pos: nat, best: nat, inner: Node, ns': seq<Node>, b: Bounds, order: nat) {
    && IsInternal(ns, p) && pos < |ns[p].kind.children| && best == ns[p].kind.children[pos] && best < |ns| && best != p
    && inner == InnerNode(ns[best], best, |ns|, b, order)
    && ns' == (ns + [LeafNode(b, order), inner])[p := WithInner(ns[p], pos, |ns| + 1, inner.maxOrder)]
  }

  lemma SplitInRange(ns: seq<Node>, p: nat, pos: nat, best: nat, inner: Node, ns': seq<Node>, b: Bounds, order: nat)
    requires Split(ns, p, pos, best, inner, ns', b, order) && NodeOk(ns, p) && GoodArity(ns, p)
    ensures ChildrenInRange(ns', p)
    ensures forall c: nat :: ChildOf(ns', p, c) ==> c == |ns| + 1 || (ChildOf(ns, p, c) && c < |ns|)
  {
    assert forall x :: x in ns[p].kind.children ==> ChildOf(ns, p, x) && x < |ns|;
    var node := ns'[p];
    forall k | 0 <= k < |node.kind.children| ensures node.kind.children[k] < |ns'| {
      assert node.kind.children[k] in node.kind.children;
    }
  }

  lemma SplitNodeStale(ns: seq<Node>, p: nat, pos: nat, best: nat, inner: Node, ns': seq<Node>, b: Bounds, order: nat)
    requires Split(ns, p, pos, best, inner, ns', b, order) && NodeOk(ns, p) && GoodArity(ns, p)
    ensures NodeStale(ns', p, b, order)
    ensures ns'[p].maxOrder < order ==> ns'[LastChild(ns', p)].maxOrder == order
  {
    SplitInRange(ns, p, pos, best, inner, ns', b, order);
    forall c: nat | ChildOf(ns', p, c)
      ensures Covers(ns'[p].bounds.Union(b), ns'[c].bounds) && ns'[c].maxOrder <= MaxNat(ns'[p].maxOrder, order)
    {
      SplitChildFits(ns, p, pos, best, inner, ns', b, order, c);
    }
    SplitLast(ns, p, pos, best, inner, ns', b, order);
  }

  lemma SplitChildFits(ns: seq<Node>, p: nat, pos: nat, best: nat, inner: Node, ns': seq<Node>, b: Bounds, order: nat, c: nat)
    requires Split(ns, p, pos, best, inner, ns', b, order) && NodeOk(ns, p)
    requires c == |ns| + 1 || (ChildOf(ns, p, c) && c < |ns|)
    ensures Covers(ns'[p].bounds.Union(b), ns'[c].bounds) && ns'[c].maxOrder <= MaxNat(ns'[p].maxOrder, order)
  {
    assert ChildOf(ns, p, best) && Fits(ns[p], ns[best]);
    UnionCoversMore(ns[p].bounds, ns[best].bounds, b);
    assert c < |ns| ==> Fits(ns[p], ns[c]);
  }

  lemma SplitLast(ns: seq<Node>, p: nat, pos: nat, best: nat, inner: Node, ns': seq<Node>, b: Bounds, order: nat)
    requires Split(ns, p, pos, best, inner, ns', b, order) && NodeOk(ns, p) && GoodArity(ns, p)
    ensures LastChild(ns', p) < |ns'| && ns'[LastChild(ns', p)].maxOrder >= ns'[p].maxOrder
    ensures ns'[p].maxOrder < order ==> ns'[LastChild(ns', p)].maxOrder == order
  {
    assert ChildOf(ns, p, LastChild(ns, p)) && ChildOf(ns, p, best);
  }

  lemma InnerNodeOk(ns: seq<Node>, n: nat, best: nat, leaf: Node, b: Bounds, order: nat)
    requires best < n && n + 1 < |ns| && leaf.kind.Leaf? && leaf.maxOrder == leaf.kind.order
    requires ns[best] == leaf && ns[n] == LeafNode(b, order) && ns[n + 1] == InnerNode(leaf, best, n, b, order)
    ensures NodeOk(ns, n + 1)
  {
    var m := n + 1;
    assert forall c: nat :: ChildOf(ns, m, c) ==> c == best || c == n;
  }

  lemma SplitGrows(ns: seq<Node>, p: nat, pos: nat, best: nat, inner: Node, ns': seq<Node>, b: Bounds, order: nat)
    requires Split(ns, p, pos, best, inner, ns', b, order)
    ensures OnlyGrowsAt(ns, ns', p, b, order) && |ns'| == |ns| + 2
    ensures ns'[best] == ns[best] && ns'[|ns|] == LeafNode(b, order) && ns'[|ns| + 1] == inner
  {
  }

  /** Two sound new nodes and a stale end of the path: only the path is left to repair. */
  lemma OrderAfterSplit(ns: seq<Node>, root: nat, links: Links, path: seq<nat>, ns': seq<Node>, b: Bounds, order: nat)
    requires WellFormed(ns, root, links) && Descent(ns, root, path) && IsInternal(ns, path[|path| - 1])
    requires OnlyGrowsAt(ns, ns', path[|path| - 1], b, order) && |ns'| == |ns| + 2
    requires NodeOk(ns', |ns|) && NodeOk(ns', |ns| + 1) && NodeStale(ns', path[|path| - 1], b, order)
    ensures RepairedFrom(ns', path, |path|, b, order)
  {
    GrowthOnPath(ns, root, links, path, ns', b, order);
    assert path[..|path|] == path;
    assert path[|path| - 1] in path;
  }

  lemma SplitKeepsOrder(ns: seq<Node>, root: nat, links: Links, path: seq<nat>, pos: nat, best: nat, inner: Node,
                        ns': seq<Node>, b: Bounds, order: nat)
    requires WellFormed(ns, root, links) && Descent(ns, root, path) && order >= 1
    requires Split(ns, path[|path| - 1], pos, best, inner, ns', b, order) && IsLeaf(ns, best)
    ensures RepairedFrom(ns', path, |path|, b, order) && ReadyToRepair(ns', path, |path|, None, b, order)
  {
    var p := path[|path| - 1];
    assert GoodArity(ns, p) && NodeOk(ns, p) && NodeOk(ns, best);
    SplitGrows(ns, p, pos, best, inner, ns', b, order);
    NewNodesOk(ns, p, pos, best, inner, ns', b, order);
    SplitNodeStale(ns, p, pos, best, inner, ns', b, order);
    OrderAfterSplit(ns, root, links, path, ns', b, order);
  }

  lemma NewNodesOk(ns: seq<Node>, p: nat, pos: nat, best: nat, inner: Node, ns': seq<Node>, b: Bounds, order: nat)
    requires Split(ns, p, pos, best, inner, ns', b, order) && IsLeaf(ns, best) && NodeOk(ns, best) && order >= 1
    ensures |ns'| == |ns| + 2 && NodeOk(ns', |ns|) && NodeOk(ns', |ns| + 1)
  {
    SplitGrows(ns, p, pos, best, inner, ns', b, order);
    InnerNodeOk(ns', |ns|, best, ns[best], b, order);
  }

  /** One step of the walk back up: take the rectangle in and, if the order is new here, put child `pos` last. */
  function Repaired(node: Node, pos: Option<nat>, b: Bounds, order: nat): (r: Node)
    requires node.kind.Internal? && |node.kind.children| > 0 && (pos.Some? ==> pos.value < |node.kind.children|)
    ensures r.kind.Internal? && r.bounds == node.bounds.Union(b) && r.maxOrder == MaxNat(node.maxOrder, order)
    ensures |r.kind.children| == |node.kind.children|
    ensures forall x :: x in node.kind.children <==> x in r.kind.children
    ensures Distinct(node.kind.children) ==> Distinct(r.kind.children)
    ensures r.kind.children[|node.kind.children| - 1] ==
              if node.maxOrder < order && pos.Some? then node.kind.children[pos.value]
              else node.kind.children[|node.kind.children| - 1]
  {
    var last := |node.kind.children| - 1;
    var grown := Grow(node, b, order);
    if node.maxOrder < order && pos.Some? then
      SwapKeepsMembers(node.kind.children, pos.value, last);
      grown.(kind := Internal(Swap(node.kind.children, pos.value, last)))
    else grown
  }

  lemma RepairedNodeOk(ns: seq<Node>, p: nat, pos: Option<nat>, b: Bounds, order: nat)
    requires p < |ns| && NodeStale(ns, p, b, order) && !ChildOf(ns, p, p)
    requires match pos
             case Some(k) => k < |ns[p].kind.children| && ns[ns[p].kind.children[k]].maxOrder >= order
             case None => ns[p].maxOrder < order ==> ns[LastChild(ns, p)].maxOrder == order
    ensures NodeOk(ns[p := Repaired(ns[p], pos, b, order)], p)
  {
    var node := Repaired(ns[p], pos, b, order);
    var ns' := ns[p := node];
    assert forall x :: x in ns[p].kind.children ==> ChildOf(ns, p, x) && x < |ns|;
    assert ChildrenInRange(ns', p) by {
      forall k | 0 <= k < |node.kind.children| ensures node.kind.children[k] < |ns'| {
        assert node.kind.children[k] in node.kind.children;
      }
    }
    assert forall c: nat :: ChildOf(ns', p, c) ==> ChildOf(ns, p, c);
    assert ChildOf(ns, p, LastChild(ns, p));
  }

  /** What the walk back up needs to know about the node it is at. */
  ghost predicate ReadyToRepair(ns: seq<Node>, path: seq<nat>, k: nat, pos: Option<nat>, b: Bounds, order: nat)
    requires 0 < k <= |path| && RepairedFrom(ns, path, k, b, order)
  {
    match pos
    case Some(i) => k < |path| && i < |ns[path[k - 1]].kind.children| && ns[path[k - 1]].kind.children[i] == path[k]
                    && path[k] < |ns| && ns[path[k]].maxOrder >= order
    case None => k == |path| && (ns[path[k - 1]].maxOrder < order ==> ns[LastChild(ns, path[k - 1])].maxOrder == order)
  }

  lemma RepairKeepsLinks(ns: seq<Node>, root: nat, links: Links, path: seq<nat>, p: nat, pos: Option<nat>, b: Bounds, order: nat)
    requires Linked(ns, root, links) && Descent(ns, root, path) && IsInternal(ns, p)
    requires |ns[p].kind.children| > 0 && (pos.Some? ==> pos.value < |ns[p].kind.children|)
    ensures Linked(ns[p := Repaired(ns[p], pos, b, order)], root, links)
    ensures Descent(ns[p := Repaired(ns[p], pos, b, order)], root, path)
  {
    var ns' := ns[p := Repaired(ns[p], pos, b, order)];
    assert GoodArity(ns, p);
    ReplaceKeepsShape(ns, root, links, p, ns'[p]);
    forall j | 0 < j < |path| ensures ChildOf(ns', path[j - 1], path[j]) {
      assert ChildOf(ns, path[j - 1], path[j]);
    }
  }

  lemma DescentPrefix(ns: seq<Node>, root: nat, path: seq<nat>, k: nat)
    requires Descent(ns, root, path) && 0 < k <= |path|
    ensures Descent(ns, root, path[..k])
  {
    forall j | 0 < j < k ensures ChildOf(ns, path[..k][j - 1], path[..k][j]) {
      assert ChildOf(ns, path[j - 1], path[j]);
    }
  }

  lemma RepairElsewhere(ns: seq<Node>, root: nat, links: Links, path: seq<nat>, k: nat, ns': seq<Node>, b: Bounds, order: nat)
    requires Linked(ns, root, links) && Descent(ns, root, path) && 0 < k <= |path|
    requires RepairedFrom(ns, path, k, b, order)
    requires |ns'| == |ns| && OnlyGrowsAt(ns, ns', path[k - 1], b, order) && NodeOk(ns', path[k - 1])
    ensures RepairedFrom(ns', path, k - 1, b, order)
  {
    var p := path[k - 1];
    forall j | 0 <= j < k - 1 ensures NodeStale(ns', path[j], b, order) {
      DescentDepths(ns, root, links, path, j);
      DescentDepths(ns, root, links, path, k - 1);
      GrowthElsewhere(ns, ns', p, path[j], b, order);
    }
    forall q | 0 <= q < |ns'| ensures NodeOk(ns', q) || q in path[..k - 1] {
      assert path[..k] == path[..k - 1] + [p];
      if q != p && NodeOk(ns, q) {
        GrowthElsewhere(ns, ns', p, q, b, order);
        if ChildOf(ns, q, p) {
          DescentPrefix(ns, root, path, k);
          ParentOnPath(ns, root, links, path[..k], q);
          assert path[..k - 1][k - 2] == q;
        }
      }
    }
  }

  lemma RepairStep(ns: seq<Node>, root: nat, links: Links, path: seq<nat>, k: nat, pos: Option<nat>, b: Bounds, order: nat)
    requires Linked(ns, root, links) && Descent(ns, root, path) && 0 < k <= |path|
    requires RepairedFrom(ns, path, k, b, order) && ReadyToRepair(ns, path, k, pos, b, order)
    ensures var ns' := ns[path[k - 1] := Repaired(ns[path[k - 1]], pos, b, order)];
            Linked(ns', root, links) && Descent(ns', root, path) && RepairedFrom(ns', path, k - 1, b, order)
  {
    var p := path[k - 1];
    var ns' := ns[p := Repaired(ns[p], pos, b, order)];
    assert !ChildOf(ns, p, p);
    RepairKeepsLinks(ns, root, links, path, p, pos, b, order);
    RepairedNodeOk(ns, p, pos, b, order);
    RepairElsewhere(ns, root, links, path, k, ns', b, order);
  }
}
