/** The node vector of the bounds tree as a value: its invariant and what each in-place update does to it. */
module BoundsForest {
  import opened Geometry

  const MAX_CHILDREN: nat := 12

  datatype Kind = Leaf(order: nat) | Internal(children: seq<nat>)

  datatype Node = Node(bounds: Bounds, maxOrder: nat, kind: Kind)

  /** Ghost links of the vector: the parent and the depth of each index. */
  datatype Links = Links(parent: seq<nat>, depth: seq<nat>)

  function MaxNat(a: nat, b: nat): nat { if a > b then a else b }

  ghost predicate IsInternal(ns: seq<Node>, p: nat) {
    p < |ns| && ns[p].kind.Internal?
  }

  ghost predicate IsLeaf(ns: seq<Node>, i: nat) {
    i < |ns| && ns[i].kind.Leaf?
  }

  ghost predicate ChildOf(ns: seq<Node>, p: nat, c: nat) {
    IsInternal(ns, p) && c in ns[p].kind.children
  }

  ghost predicate Distinct(s: seq<nat>) {
    forall i, j :: 0 <= i < j < |s| ==> s[i] != s[j]
  }

  ghost predicate GoodArity(ns: seq<Node>, p: nat) {
    IsInternal(ns, p) ==> 2 <= |ns[p].kind.children| <= MAX_CHILDREN && Distinct(ns[p].kind.children)
  }

  /** Every index but the root hangs below exactly one internal node, one level deeper than it. */
  ghost predicate Linked(ns: seq<Node>, root: nat, links: Links) {
    && |links.parent| == |ns| && |links.depth| == |ns|
    && root < |ns| && links.depth[root] == 0
    && (forall i :: 0 <= i < |ns| ==> links.depth[i] < |ns|)
    && (forall i {:trigger links.parent[i]} :: 0 <= i < |ns| && i != root ==>
          ChildOf(ns, links.parent[i], i) && links.depth[i] == links.depth[links.parent[i]] + 1)
    && (forall p: nat, c: nat :: ChildOf(ns, p, c) ==> c < |ns| && c != root && links.parent[c] == p)
    && (forall p :: 0 <= p < |ns| ==> GoodArity(ns, p))
  }

  ghost predicate Fits(outer: Node, inner: Node) {
    Covers(outer.bounds, inner.bounds) && inner.maxOrder <= outer.maxOrder
  }

  ghost predicate ChildrenInRange(ns: seq<Node>, p: nat) {
    IsInternal(ns, p) ==> |ns[p].kind.children| > 0 && forall k :: 0 <= k < |ns[p].kind.children| ==> ns[p].kind.children[k] < |ns|
  }

  ghost function LastChild(ns: seq<Node>, p: nat): (c: nat)
    requires IsInternal(ns, p) && ChildrenInRange(ns, p)
    ensures c < |ns| && ChildOf(ns, p, c)
  {
    ns[p].kind.children[|ns[p].kind.children| - 1]
  }

  /** A node covers its children, carries the largest of their orders, and keeps a child with that order last. */
  ghost predicate NodeOk(ns: seq<Node>, p: nat)
    requires p < |ns|
  {
    match ns[p].kind
    case Leaf(order) => ns[p].maxOrder == order && order >= 1
    case Internal(children) =>
      && ChildrenInRange(ns, p)
      && (forall c: nat :: ChildOf(ns, p, c) ==> Fits(ns[p], ns[c]))
      && ns[LastChild(ns, p)].maxOrder == ns[p].maxOrder
  }

  /** A node that becomes `NodeOk` once rectangle `b` and its order are added to it. */
  ghost predicate NodeStale(ns: seq<Node>, p: nat, b: Bounds, order: nat)
    requires p < |ns|
  {
    && IsInternal(ns, p) && ChildrenInRange(ns, p)
    && (forall c: nat :: ChildOf(ns, p, c) ==>
          Covers(ns[p].bounds.Union(b), ns[c].bounds) && ns[c].maxOrder <= MaxNat(ns[p].maxOrder, order))
    && ns[LastChild(ns, p)].maxOrder >= ns[p].maxOrder
  }

  ghost predicate WellFormed(ns: seq<Node>, root: nat, links: Links) {
    Linked(ns, root, links) && forall p :: 0 <= p < |ns| ==> NodeOk(ns, p)
  }

  /** A walk from the root along child links. */
  ghost predicate Descent(ns: seq<Node>, root: nat, path: seq<nat>) {
    && |path| > 0 && path[0] == root
    && forall j :: 0 < j < |path| ==> ChildOf(ns, path[j - 1], path[j])
  }

  lemma {:induction false} DescentDepths(ns: seq<Node>, root: nat, links: Links, path: seq<nat>, j: nat)
    requires Linked(ns, root, links) && Descent(ns, root, path) && j < |path|
    ensures path[j] < |ns| && links.depth[path[j]] == j
  {
    if j > 0 {
      DescentDepths(ns, root, links, path, j - 1);
      assert ChildOf(ns, path[j - 1], path[j]);
    }
  }

  lemma {:induction false} DescentExists(ns: seq<Node>, root: nat, links: Links, i: nat) returns (path: seq<nat>)
    requires Linked(ns, root, links) && i < |ns|
    ensures Descent(ns, root, path) && path[|path| - 1] == i
    decreases links.depth[i]
  {
    if i == root {
      path := [root];
    } else {
      path := DescentExists(ns, root, links, links.parent[i]);
      path := path + [i];
    }
  }

  lemma {:induction false} DescentsAgree(ns: seq<Node>, root: nat, links: Links, p: seq<nat>, q: seq<nat>)
    requires Linked(ns, root, links) && Descent(ns, root, p) && Descent(ns, root, q)
    requires p[|p| - 1] == q[|q| - 1]
    ensures p == q
    decreases |p|
  {
    DescentDepths(ns, root, links, p, |p| - 1);
    DescentDepths(ns, root, links, q, |q| - 1);
    var n := |p| - 1;
    if n > 0 {
      assert ChildOf(ns, p[n - 1], p[n]) && ChildOf(ns, q[n - 1], q[n]);
      assert Descent(ns, root, p[..n]) by {
        forall j | 0 < j < n ensures ChildOf(ns, p[..n][j - 1], p[..n][j]) { assert ChildOf(ns, p[j - 1], p[j]); }
      }
      assert Descent(ns, root, q[..n]) by {
        forall j | 0 < j < n ensures ChildOf(ns, q[..n][j - 1], q[..n][j]) { assert ChildOf(ns, q[j - 1], q[j]); }
      }
      DescentsAgree(ns, root, links, p[..n], q[..n]);
      assert p == p[..n] + [p[n]] && q == q[..n] + [q[n]];
    }
  }

  /** The vector is a tree: each stored node is reached from the root by exactly one walk. */
  lemma ReachedExactlyOnce(ns: seq<Node>, root: nat, links: Links, i: nat)
    requires Linked(ns, root, links) && i < |ns|
    ensures exists p :: Descent(ns, root, p) && p[|p| - 1] == i
    ensures forall p, q :: Descent(ns, root, p) && Descent(ns, root, q) && p[|p| - 1] == i == q[|q| - 1] ==> p == q
    ensures forall p :: Descent(ns, root, p) ==> |p| <= |ns| && forall j, k :: 0 <= j < k < |p| ==> p[j] != p[k]
  {
    var p := DescentExists(ns, root, links, i);
    forall p, q | Descent(ns, root, p) && Descent(ns, root, q) && p[|p| - 1] == i == q[|q| - 1] ensures p == q {
      DescentsAgree(ns, root, links, p, q);
    }
    forall p | Descent(ns, root, p) ensures |p| <= |ns| && forall j, k :: 0 <= j < k < |p| ==> p[j] != p[k] {
      DescentDepths(ns, root, links, p, |p| - 1);
      forall j, k | 0 <= j < k < |p| ensures p[j] != p[k] {
        DescentDepths(ns, root, links, p, j);
        DescentDepths(ns, root, links, p, k);
      }
    }
  }

  /** A node covers all its descendants and dominates their orders, not just its children's. */
  lemma {:induction false} AncestorFits(ns: seq<Node>, root: nat, links: Links, path: seq<nat>, i: nat, j: nat)
    requires WellFormed(ns, root, links) && Descent(ns, root, path) && i <= j < |path|
    ensures path[i] < |ns| && path[j] < |ns| && Fits(ns[path[i]], ns[path[j]])
    decreases j - i
  {
    DescentDepths(ns, root, links, path, i);
    DescentDepths(ns, root, links, path, j);
    if i < j {
      AncestorFits(ns, root, links, path, i, j - 1);
      assert ChildOf(ns, path[j - 1], path[j]);
      assert NodeOk(ns, path[j - 1]);
    }
  }

  /** The order a node carries is that of one of its leaves: follow the last children down. */
  lemma {:induction false} MaxOrderAttained(ns: seq<Node>, root: nat, links: Links, path: seq<nat>) returns (down: seq<nat>)
    requires WellFormed(ns, root, links) && Descent(ns, root, path)
    ensures path <= down && Descent(ns, root, down) && path[|path| - 1] < |ns|
    ensures IsLeaf(ns, down[|down| - 1]) && ns[down[|down| - 1]].kind.order == ns[path[|path| - 1]].maxOrder
    decreases |ns| - |path|
  {
    var p := path[|path| - 1];
    DescentDepths(ns, root, links, path, |path| - 1);
    assert NodeOk(ns, p);
    if IsLeaf(ns, p) {
      down := path;
    } else {
      var c := LastChild(ns, p);
      DescentDepths(ns, root, links, path + [c], |path|);
      down := MaxOrderAttained(ns, root, links, path + [c]);
    }
  }

  /** `Node.maxOrder` is the maximum over the leaves below, and the rectangle covers every one of them. */
  lemma SummaryOfSubtree(ns: seq<Node>, root: nat, links: Links, path: seq<nat>)
    requires WellFormed(ns, root, links) && Descent(ns, root, path)
    ensures path[|path| - 1] < |ns|
    ensures forall down :: Descent(ns, root, down) && path <= down ==>
              down[|down| - 1] < |ns| && Fits(ns[path[|path| - 1]], ns[down[|down| - 1]])
    ensures exists down :: Descent(ns, root, down) && path <= down && IsLeaf(ns, down[|down| - 1])
              && ns[down[|down| - 1]].kind.order == ns[path[|path| - 1]].maxOrder
  {
    var down := MaxOrderAttained(ns, root, links, path);
    forall down | Descent(ns, root, down) && path <= down
      ensures down[|down| - 1] < |ns| && Fits(ns[path[|path| - 1]], ns[down[|down| - 1]])
    {
      AncestorFits(ns, root, links, down, |path| - 1, |down| - 1);
      assert down[|path| - 1] == path[|path| - 1];
    }
  }

  // ---------------------------------------------------------------- updates

  function Swap(s: seq<nat>, i: nat, j: nat): (t: seq<nat>)
    requires i < |s| && j < |s|
    ensures |t| == |s| && t[i] == s[j] && t[j] == s[i]
    ensures forall k :: 0 <= k < |s| && k != i && k != j ==> t[k] == s[k]
  {
    s[i := s[j]][j := s[i]]
  }

  lemma SwapKeepsMembers(s: seq<nat>, i: nat, j: nat)
    requires i < |s| && j < |s|
    ensures forall x :: x in s <==> x in Swap(s, i, j)
    ensures Distinct(s) ==> Distinct(Swap(s, i, j))
  {
    var t := Swap(s, i, j);
    forall x | x in s ensures x in t {
      var k :| 0 <= k < |s| && s[k] == x;
      assert t[if k == i then j else if k == j then i else k] == x;
    }
    forall x | x in t ensures x in s {
      var k :| 0 <= k < |t| && t[k] == x;
      assert s[if k == i then j else if k == j then i else k] == x;
    }
  }

  /** Replacing node `p` by one with the same child set changes no link. */
  lemma ReplaceKeepsShape(ns: seq<Node>, root: nat, links: Links, p: nat, node: Node)
    requires Linked(ns, root, links) && IsInternal(ns, p)
    requires node.kind.Internal? && |node.kind.children| == |ns[p].kind.children| && Distinct(node.kind.children)
    requires forall x :: x in ns[p].kind.children <==> x in node.kind.children
    ensures Linked(ns[p := node], root, links)
  {
    var ns' := ns[p := node];
    assert GoodArity(ns, p);
    assert forall q: nat, c: nat :: ChildOf(ns, q, c) <==> ChildOf(ns', q, c);
    forall q | 0 <= q < |ns'| ensures GoodArity(ns', q) { assert GoodArity(ns, q); }
  }

  /** New leaf `|ns|` added below internal node `p`, whose children become `children`. */
  lemma AttachKeepsLinks(ns: seq<Node>, root: nat, links: Links, p: nat, leaf: Node, node: Node)
    requires Linked(ns, root, links) && IsInternal(ns, p) && |ns[p].kind.children| < MAX_CHILDREN
    requires leaf.kind.Leaf? && node.kind.Internal? && |node.kind.children| == |ns[p].kind.children| + 1
    requires forall x :: x in node.kind.children <==> x == |ns| || x in ns[p].kind.children
    requires Distinct(node.kind.children)
    ensures Linked((ns + [leaf])[p := node], root,
                   Links(links.parent + [p], links.depth + [links.depth[p] + 1]))
  {
    var ns' := (ns + [leaf])[p := node];
    assert GoodArity(ns, p);
    forall q: nat, c: nat | ChildOf(ns', q, c) ensures (q == p && c == |ns|) || ChildOf(ns, q, c) {
    }
    assert forall q: nat, c: nat :: ChildOf(ns, q, c) ==> ChildOf(ns', q, c);
    assert ChildOf(ns', p, |ns|);
    forall q | 0 <= q < |ns'| ensures GoodArity(ns', q) {
      if q < |ns| && q != p { assert GoodArity(ns, q); }
    }
  }

  /** New leaf `|ns|` and old leaf `best` put below new internal node `|ns| + 1`, which takes the place of `best`. */
  lemma SplitKeepsLinks(ns: seq<Node>, root: nat, links: Links, p: nat, best: nat, leaf: Node, inner: Node, node: Node)
    requires Linked(ns, root, links) && ChildOf(ns, p, best) && IsLeaf(ns, best)
    requires leaf.kind.Leaf? && inner.kind.Internal? && node.kind.Internal?
    requires |inner.kind.children| == 2 && Distinct(inner.kind.children)
    requires forall x :: x in inner.kind.children <==> x == |ns| || x == best
    requires |node.kind.children| == |ns[p].kind.children| && Distinct(node.kind.children)
    requires forall x :: x in node.kind.children <==> x == |ns| + 1 || (x in ns[p].kind.children && x != best)
    ensures Linked((ns + [leaf, inner])[p := node], root,
                   Links(links.parent[best := |ns| + 1] + [|ns| + 1, p],
                         links.depth[best := links.depth[best] + 1] + [links.depth[best] + 1, links.depth[best]]))
  {
    var ns' := (ns + [leaf, inner])[p := node];
    var n := |ns|;
    assert GoodArity(ns, p);
    assert !ChildOf(ns, best, p);
    forall q: nat, c: nat | ChildOf(ns', q, c)
      ensures (q == p && c == n + 1) || (q == n + 1 && (c == n || c == best)) || (c != best && ChildOf(ns, q, c))
    {
      if q < n && q != p && c == best { assert ChildOf(ns, q, c); assert false; }
    }
    assert forall q: nat, c: nat :: ChildOf(ns, q, c) && c != best ==> ChildOf(ns', q, c);
    assert ChildOf(ns', p, n + 1) && ChildOf(ns', n + 1, n) && ChildOf(ns', n + 1, best);
    forall q | 0 <= q < |ns'| ensures GoodArity(ns', q) {
      if q < |ns| && q != p { assert GoodArity(ns, q); }
    }
    forall i | 0 <= i < n && i != root && i != best ensures links.parent[i] != best {
      assert ChildOf(ns, links.parent[i], i);
    }
  }
}
