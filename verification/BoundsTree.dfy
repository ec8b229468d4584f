/** The paint-order tree: an R-tree in a flat node vector that must agree with a linear scan. */
module BoundsTree {
  import opened Geometry
  import opened BoundsForest
  import opened Wrappers
  import opened BoundsRepair
  import opened BoundsSearch
  import opened PaintOrder

  /** Leaf `leaves[k]` stores the k-th inserted rectangle with its order; there are no other leaves. */
  ghost predicate Registered(ns: seq<Node>, leaves: seq<nat>, history: seq<Bounds>, orders: seq<nat>) {
    && |leaves| == |history| == |orders|
    && (forall k :: 0 <= k < |leaves| ==>
          leaves[k] < |ns| && ns[leaves[k]] == LeafNode(history[k], orders[k]))
    && (forall i: nat :: IsLeaf(ns, i) ==> i in leaves)
    && Distinct(leaves)
  }

  ghost predicate IsMaxLeaf(ns: seq<Node>, leaves: seq<nat>, m: nat) {
    IsLeaf(ns, m) && forall k :: 0 <= k < |leaves| ==> leaves[k] < |ns| && ns[leaves[k]].maxOrder <= ns[m].maxOrder
  }

  function Cost(ns: seq<Node>, b: Bounds, c: nat): real
    requires c < |ns|
  {
    b.Union(ns[c].bounds).HalfPerimeter()
  }

  /** The cost of taking `b` in is how far apart the outermost edges then lie, across plus down. */
  lemma CostIsSpan(ns: seq<Node>, b: Bounds, c: nat)
    requires c < |ns|
    ensures var o := ns[c].bounds;
            var left := if b.origin.x < o.origin.x then b.origin.x else o.origin.x;
            var top := if b.origin.y < o.origin.y then b.origin.y else o.origin.y;
            var right := if b.origin.x + b.size.width > o.origin.x + o.size.width then b.origin.x + b.size.width else o.origin.x + o.size.width;
            var bottom := if b.origin.y + b.size.height > o.origin.y + o.size.height then b.origin.y + b.size.height else o.origin.y + o.size.height;
            Cost(ns, b, c) == (right - left) + (bottom - top)
  {
  }

  /** Child `pos` of `p` grows least when it takes in `b`, and is the first such child. */
  ghost predicate Cheapest(ns: seq<Node>, b: Bounds, p: nat, pos: nat) {
    && IsInternal(ns, p) && ChildrenInRange(ns, p) && pos < |ns[p].kind.children|
    && (forall j :: 0 <= j < |ns[p].kind.children| ==>
          Cost(ns, b, ns[p].kind.children[pos]) <= Cost(ns, b, ns[p].kind.children[j]))
    && (forall j :: 0 <= j < pos ==>
          Cost(ns, b, ns[p].kind.children[pos]) < Cost(ns, b, ns[p].kind.children[j]))
  }

  ghost predicate CheapestStep(ns: seq<Node>, b: Bounds, p: nat, c: nat) {
    exists pos: nat :: Cheapest(ns, b, p, pos) && ns[p].kind.children[pos] == c
  }

  /** The leaves of `ns'` are those of `ns`, unchanged. */
  ghost predicate SameLeaves(ns: seq<Node>, ns': seq<Node>) {
    && (forall i: nat :: IsLeaf(ns', i) <==> IsLeaf(ns, i))
    && (forall i: nat :: IsLeaf(ns, i) ==> ns'[i] == ns[i])
  }

  /** The new leaf has been hung below the end of the path, and only the path is left to repair. */
  ghost predicate Hung(ns: seq<Node>, root: nat, links: Links, path: seq<nat>, b: Bounds, order: nat) {
    && Linked(ns, root, links) && Descent(ns, root, path)
    && RepairedFrom(ns, path, |path|, b, order) && ReadyToRepair(ns, path, |path|, None, b, order)
  }

  lemma RootLeafIsAlone(ns: seq<Node>, root: nat, links: Links)
    requires Linked(ns, root, links) && IsLeaf(ns, root)
    ensures |ns| == 1 && root == 0
  {
    OnlyTheRoot(ns, root, links, 0);
    if |ns| > 1 {
      OnlyTheRoot(ns, root, links, 1);
    }
  }

  lemma OnlyTheRoot(ns: seq<Node>, root: nat, links: Links, i: nat)
    requires Linked(ns, root, links) && IsLeaf(ns, root) && i < |ns|
    ensures i == root
  {
    var path := DescentExists(ns, root, links, i);
    assert |path| > 1 ==> ChildOf(ns, path[0], path[1]);
  }

  lemma UpdateKeepsLeaves(ns0: seq<Node>, ns: seq<Node>, p: nat, node: Node)
    requires SameLeaves(ns0, ns) && IsInternal(ns, p) && node.kind.Internal?
    ensures SameLeaves(ns0, ns[p := node])
  {
  }

  /** The state of the walk back up with `k` nodes of the path still to visit. */
  ghost predicate Repairing(ns0: seq<Node>, ns: seq<Node>, root: nat, links: Links, path: seq<nat>, k: nat,
                            updated: Option<nat>, b: Bounds, order: nat) {
    && k <= |path| && Linked(ns, root, links) && Descent(ns, root, path)
    && RepairedFrom(ns, path, k, b, order) && SameLeaves(ns0, ns)
    && if k == |path| then updated == None && ReadyToRepair(ns, path, k, None, b, order)
       else updated == Some(path[k]) && path[k] < |ns| && ns[path[k]].maxOrder >= order
  }

  lemma RepairTurn(ns0: seq<Node>, ns: seq<Node>, root: nat, links: Links, path: seq<nat>, k: nat,
                   updated: Option<nat>, pos: Option<nat>, b: Bounds, order: nat)
    requires Repairing(ns0, ns, root, links, path, k, updated, b, order) && k > 0
    requires pos.Some? == updated.Some?
    requires pos.Some? ==> pos.value < |ns[path[k - 1]].kind.children| && ns[path[k - 1]].kind.children[pos.value] == updated.value
    ensures Repairing(ns0, ns[path[k - 1] := Repaired(ns[path[k - 1]], pos, b, order)], root, links, path, k - 1,
                      Some(path[k - 1]), b, order)
  {
    RepairStep(ns, root, links, path, k, pos, b, order);
    UpdateKeepsLeaves(ns0, ns, path[k - 1], Repaired(ns[path[k - 1]], pos, b, order));
  }

  lemma StaleIsInternal(ns0: seq<Node>, ns: seq<Node>, root: nat, links: Links, path: seq<nat>, k: nat,
                        updated: Option<nat>, b: Bounds, order: nat)
    requires Repairing(ns0, ns, root, links, path, k, updated, b, order) && k > 0
    ensures IsInternal(ns, path[k - 1]) && |ns[path[k - 1]].kind.children| > 0
  {
    assert NodeStale(ns, path[k - 1], b, order);
  }

  lemma RepairingEnds(ns0: seq<Node>, ns: seq<Node>, root: nat, links: Links, path: seq<nat>,
                      updated: Option<nat>, b: Bounds, order: nat)
    requires Repairing(ns0, ns, root, links, path, 0, updated, b, order)
    ensures WellFormed(ns, root, links) && SameLeaves(ns0, ns)
  {
    assert path[..0] == [];
  }

  lemma UpdatedIsChild(ns0: seq<Node>, ns: seq<Node>, root: nat, links: Links, path: seq<nat>, k: nat,
                       updated: Option<nat>, b: Bounds, order: nat)
    requires Repairing(ns0, ns, root, links, path, k, updated, b, order) && k > 0 && updated.Some?
    ensures IsInternal(ns, path[k - 1]) && updated.value in ns[path[k - 1]].kind.children
  {
    assert ChildOf(ns, path[k - 1], path[k]);
  }

  lemma SplitRootKeepsTree(ns: seq<Node>, b: Bounds, order: nat)
    requires |ns| == 1 && IsLeaf(ns, 0) && NodeOk(ns, 0) && order >= 1
    ensures WellFormed(ns + [LeafNode(b, order), InnerNode(ns[0], 0, 1, b, order)], 2, Links([2, 2, 0], [1, 1, 0]))
  {
    var inner := InnerNode(ns[0], 0, 1, b, order);
    var ns' := ns + [LeafNode(b, order), inner];
    assert forall p: nat, c: nat :: ChildOf(ns', p, c) <==> p == 2 && (c == 0 || c == 1);
    InnerNodeOk(ns', 1, 0, ns[0], b, order);
    assert ChildOf(ns', 2, 0) && ChildOf(ns', 2, 1);
    forall p | 0 <= p < |ns'| ensures GoodArity(ns', p) && NodeOk(ns', p) {
      assert p == 0 || p == 1 || p == 2;
    }
  }

  ghost function AttachNodes(ns: seq<Node>, p: nat, b: Bounds, order: nat): seq<Node>
    requires IsInternal(ns, p) && |ns[p].kind.children| >= 1
  {
    (ns + [LeafNode(b, order)])[p := WithLeaf(ns[p], |ns|, b, order)]
  }

  lemma AttachStaysLinked(ns: seq<Node>, root: nat, links: Links, path: seq<nat>, p: nat, b: Bounds, order: nat)
    requires Linked(ns, root, links) && Descent(ns, root, path)
    requires IsInternal(ns, p) && 1 <= |ns[p].kind.children| < MAX_CHILDREN
    ensures Linked(AttachNodes(ns, p, b, order), root, Links(links.parent + [p], links.depth + [links.depth[p] + 1]))
    ensures Descent(AttachNodes(ns, p, b, order), root, path)
  {
    var ns' := AttachNodes(ns, p, b, order);
    assert GoodArity(ns, p);
    assert |ns| !in ns[p].kind.children by {
      assert forall x :: x in ns[p].kind.children ==> ChildOf(ns, p, x);
    }
    AttachKeepsLinks(ns, root, links, p, LeafNode(b, order), WithLeaf(ns[p], |ns|, b, order));
    forall j | 0 < j < |path| ensures ChildOf(ns', path[j - 1], path[j]) {
      assert ChildOf(ns, path[j - 1], path[j]);
    }
  }

  lemma AttachHangs(ns: seq<Node>, root: nat, links: Links, path: seq<nat>, p: nat, b: Bounds, order: nat)
    requires WellFormed(ns, root, links) && Descent(ns, root, path) && order >= 1 && p == path[|path| - 1]
    requires IsInternal(ns, p) && 1 <= |ns[p].kind.children| < MAX_CHILDREN
    ensures Hung(AttachNodes(ns, p, b, order), root, Links(links.parent + [p], links.depth + [links.depth[p] + 1]), path, b, order)
    ensures SameLeaves(ns + [LeafNode(b, order)], AttachNodes(ns, p, b, order))
  {
    AttachStaysLinked(ns, root, links, path, p, b, order);
    AttachKeepsOrder(ns, root, links, path, b, order);
    var leaf := LeafNode(b, order);
    UpdateKeepsLeaves(ns + [leaf], ns + [leaf], p, WithLeaf(ns[p], |ns|, b, order));
  }

  lemma SplitKeepsDescent(ns: seq<Node>, root: nat, path: seq<nat>, ns': seq<Node>, best: nat)
    requires Descent(ns, root, path) && IsInternal(ns, path[|path| - 1]) && IsLeaf(ns, best)
    requires forall q: nat, c: nat :: ChildOf(ns, q, c) && c != best ==> ChildOf(ns', q, c)
    ensures Descent(ns', root, path)
  {
    forall j | 0 < j < |path| ensures ChildOf(ns', path[j - 1], path[j]) {
      assert ChildOf(ns, path[j - 1], path[j]);
      assert j + 1 < |path| ==> ChildOf(ns, path[j], path[j + 1]);
    }
  }

  ghost function SplitNodes(ns: seq<Node>, p: nat, pos: nat, b: Bounds, order: nat): seq<Node>
    requires IsInternal(ns, p) && pos < |ns[p].kind.children| && ns[p].kind.children[pos] < |ns|
  {
    var best := ns[p].kind.children[pos];
    var inner := InnerNode(ns[best], best, |ns|, b, order);
    (ns + [LeafNode(b, order), inner])[p := WithInner(ns[p], pos, |ns| + 1, inner.maxOrder)]
  }

  ghost function SplitLinks(links: Links, n: nat, p: nat, best: nat): Links
    requires best < |links.parent| == |links.depth|
  {
    Links(links.parent[best := n + 1] + [n + 1, p],
          links.depth[best := links.depth[best] + 1] + [links.depth[best] + 1, links.depth[best]])
  }

  lemma SplitStaysLinked(ns: seq<Node>, root: nat, links: Links, path: seq<nat>, p: nat, pos: nat, b: Bounds, order: nat)
    requires Linked(ns, root, links) && Descent(ns, root, path) && p == path[|path| - 1]
    requires IsInternal(ns, p) && pos < |ns[p].kind.children| && IsLeaf(ns, ns[p].kind.children[pos])
    ensures var best := ns[p].kind.children[pos];
            && best < |links.parent| == |links.depth|
            && Linked(SplitNodes(ns, p, pos, b, order), root, SplitLinks(links, |ns|, p, best))
            && Descent(SplitNodes(ns, p, pos, b, order), root, path)
  {
    SplitKeepsShape(ns, root, links, p, pos, b, order);
    SplitKeepsChildren(ns, root, links, p, pos, b, order);
    SplitKeepsDescent(ns, root, path, SplitNodes(ns, p, pos, b, order), ns[p].kind.children[pos]);
  }

  lemma SplitKeepsChildren(ns: seq<Node>, root: nat, links: Links, p: nat, pos: nat, b: Bounds, order: nat)
    requires Linked(ns, root, links)
    requires IsInternal(ns, p) && pos < |ns[p].kind.children| && ns[p].kind.children[pos] < |ns|
    ensures var best := ns[p].kind.children[pos]; var ns' := SplitNodes(ns, p, pos, b, order);
            forall q: nat, c: nat :: ChildOf(ns, q, c) && c != best ==> ChildOf(ns', q, c)
  {
    assert GoodArity(ns, p) && forall x :: x in ns[p].kind.children ==> ChildOf(ns, p, x);
  }

  lemma SplitKeepsShape(ns: seq<Node>, root: nat, links: Links, p: nat, pos: nat, b: Bounds, order: nat)
    requires Linked(ns, root, links)
    requires IsInternal(ns, p) && pos < |ns[p].kind.children| && IsLeaf(ns, ns[p].kind.children[pos])
    ensures var best := ns[p].kind.children[pos];
            && best < |links.parent| == |links.depth|
            && Linked(SplitNodes(ns, p, pos, b, order), root, SplitLinks(links, |ns|, p, best))
  {
    var best := ns[p].kind.children[pos];
    assert ChildOf(ns, p, best) && GoodArity(ns, p);
    var inner := InnerNode(ns[best], best, |ns|, b, order);
    assert |ns| + 1 !in ns[p].kind.children by {
      assert forall x :: x in ns[p].kind.children ==> ChildOf(ns, p, x);
    }
    var node := WithInner(ns[p], pos, |ns| + 1, inner.maxOrder);
    SplitKeepsLinks(ns, root, links, p, best, LeafNode(b, order), inner, node);
  }

  lemma SplitHangs(ns: seq<Node>, root: nat, links: Links, path: seq<nat>, p: nat, pos: nat, b: Bounds, order: nat)
    requires WellFormed(ns, root, links) && Descent(ns, root, path) && order >= 1 && p == path[|path| - 1]
    requires IsInternal(ns, p) && pos < |ns[p].kind.children| && IsLeaf(ns, ns[p].kind.children[pos])
    ensures var best := ns[p].kind.children[pos];
            && best < |links.parent| == |links.depth|
            && Hung(SplitNodes(ns, p, pos, b, order), root, SplitLinks(links, |ns|, p, best), path, b, order)
            && SameLeaves(ns + [LeafNode(b, order)], SplitNodes(ns, p, pos, b, order))
  {
    var best := ns[p].kind.children[pos];
    assert ChildOf(ns, p, best);
    SplitStaysLinked(ns, root, links, path, p, pos, b, order);
    var leaf := LeafNode(b, order);
    var inner := InnerNode(ns[best], best, |ns|, b, order);
    SplitKeepsOrder(ns, root, links, path, pos, best, inner, SplitNodes(ns, p, pos, b, order), b, order);
    UpdateKeepsLeaves(ns + [leaf], ns + [leaf, inner], p, WithInner(ns[p], pos, |ns| + 1, inner.maxOrder));
  }

  lemma RegisterLeaf(ns: seq<Node>, ns': seq<Node>, leaves: seq<nat>, history: seq<Bounds>, orders: seq<nat>, b: Bounds, order: nat)
    requires Registered(ns, leaves, history, orders) && SameLeaves(ns + [LeafNode(b, order)], ns')
    ensures Registered(ns', leaves + [|ns|], history + [b], orders + [order])
    ensures |ns| < |ns'| && ns'[|ns|] == LeafNode(b, order)
    ensures forall k :: 0 <= k < |leaves| ==> leaves[k] < |ns| && ns'[leaves[k]] == ns[leaves[k]]
  {
    var plus := ns + [LeafNode(b, order)];
    assert IsLeaf(plus, |ns|);
    assert forall k :: 0 <= k < |leaves| ==> IsLeaf(ns, leaves[k]) && IsLeaf(plus, leaves[k]);
    forall i: nat | IsLeaf(ns', i) ensures i in leaves + [|ns|] {
      assert IsLeaf(plus, i);
      assert i < |ns| ==> IsLeaf(ns, i);
    }
  }

  lemma NextOrder(history: seq<Bounds>, orders: seq<nat>, b: Bounds, order: nat)
    requires orders == Orders(history) && order == 1 + MaxHit(history, orders, b)
    ensures Orders(history + [b]) == orders + [order]
  {
    assert (history + [b])[..|history|] == history;
  }

  /** Fast path: the query meets the leaf of globally largest order. */
  lemma MaxLeafSettles(ns: seq<Node>, leaves: seq<nat>, history: seq<Bounds>, orders: seq<nat>, top: nat, query: Bounds)
    requires Registered(ns, leaves, history, orders) && IsMaxLeaf(ns, leaves, top) && query.Intersects(ns[top].bounds)
    ensures ns[top].maxOrder == MaxHit(history, orders, query)
  {
    var k :| 0 <= k < |leaves| && leaves[k] == top;
    assert query.Intersects(history[k]) && orders[k] == ns[top].maxOrder;
    assert forall j :: 0 <= j < |leaves| ==> orders[j] == ns[leaves[j]].maxOrder;
    MaxHitIsMax(history, orders, query);
    assert IsMaxHit(history, orders, query, ns[top].maxOrder);
  }

  ghost predicate Hit(history: seq<Bounds>, orders: seq<nat>, query: Bounds, best: nat)
    requires |history| == |orders|
  {
    best == 0 || exists k :: 0 <= k < |history| && query.Intersects(history[k]) && orders[k] == best
  }

  lemma SearchSettles(ns: seq<Node>, root: nat, links: Links, leaves: seq<nat>, history: seq<Bounds>, orders: seq<nat>,
                      query: Bounds, best: nat, visited: set<nat>)
    requires Registered(ns, leaves, history, orders) && WellFormed(ns, root, links)
    requires root in visited && AllClosed(ns, query, best, [], visited) && Hit(history, orders, query, best)
    ensures best == MaxHit(history, orders, query)
  {
    forall k | 0 <= k < |history| && query.Intersects(history[k]) ensures orders[k] <= best {
      NothingMissed(ns, root, links, query, best, visited, leaves[k]);
      assert NodeOk(ns, leaves[k]);
    }
    MaxHitIsMax(history, orders, query);
    assert IsMaxHit(history, orders, query, best);
  }

  ghost function OrderAt(ns: seq<Node>, i: nat): nat {
    if i < |ns| then ns[i].maxOrder else 0
  }

  ghost function LargerLeaf(ns: seq<Node>, maxLeaf: Option<nat>, newLeaf: nat, order: nat): nat
    requires maxLeaf.Some? ==> maxLeaf.value < |ns|
  {
    if maxLeaf.None? || ns[maxLeaf.value].maxOrder < order then newLeaf else maxLeaf.value
  }

  /** Keeping the old largest leaf unless the new one is strictly above it. */
  lemma MaxLeafUpdate(ns: seq<Node>, ns': seq<Node>, leaves: seq<nat>, newLeaf: nat, maxLeaf: Option<nat>, order: nat)
    requires forall k :: 0 <= k < |leaves| ==> leaves[k] < |ns| <= |ns'| && ns'[leaves[k]] == ns[leaves[k]]
    requires IsLeaf(ns', newLeaf) && ns'[newLeaf].maxOrder == order && (maxLeaf.None? ==> leaves == [])
    requires maxLeaf.Some? ==> maxLeaf.value in leaves && IsMaxLeaf(ns, leaves, maxLeaf.value)
    ensures maxLeaf.Some? ==> maxLeaf.value < |ns'|
    ensures IsMaxLeaf(ns', leaves + [newLeaf], LargerLeaf(ns', maxLeaf, newLeaf, order))
  {
  }

  class BoundsTree {
    var nodes: seq<Node>
    var root: Option<nat>
    var maxLeaf: Option<nat>
    var insertPath: seq<nat>
    var searchStack: seq<nat>
    ghost var links: Links
    ghost var leaves: seq<nat>
    ghost var history: seq<Bounds>
    ghost var orders: seq<nat>

    /** The vector is a well-formed tree whose leaves are exactly the inserted rectangles, with their orders. */
    ghost predicate Sound()
      reads this
    {
      && Registered(nodes, leaves, history, orders)
      && (root.None? ==> nodes == [] && maxLeaf.None? && history == [])
      && (root.Some? ==> WellFormed(nodes, root.value, links) && maxLeaf.Some? && IsMaxLeaf(nodes, leaves, maxLeaf.value))
    }

    /** Moreover every order is the one the linear scan would have assigned. */
    ghost predicate Valid()
      reads this
    {
      Sound() && orders == Orders(history)
    }

    constructor ()
      ensures Valid() && history == []
    {
      nodes, root, maxLeaf, insertPath, searchStack := [], None, None, [], [];
      links, leaves, history, orders := Links([], []), [], [], [];
    }

    method Clear()
      modifies this
      ensures Valid() && history == [] && insertPath == [] && searchStack == []
    {
      nodes := [];
      root, maxLeaf := None, None;
      insertPath, searchStack := [], [];
      leaves, history, orders := [], [], [];
    }

    /** Adds a rectangle; its order is one more than the linear scan finds among all earlier ones it meets. */
    method Insert(newBounds: Bounds) returns (ordering: nat)
      requires Valid()
      modifies this
      ensures Valid() && history == old(history) + [newBounds]
      ensures Orders(history) == Orders(old(history)) + [ordering]
      ensures ordering == 1 + MaxHit(old(history), Orders(old(history)), newBounds)
    {
      var maxIntersecting := FindMaxOrdering(newBounds);
      ordering := maxIntersecting + 1;
      NextOrder(history, orders, newBounds, ordering);
      InsertLeafAndTrackMax(newBounds, ordering);
    }

    method InsertLeafAndTrackMax(b: Bounds, ordering: nat)
      requires Sound() && ordering >= 1
      modifies this
      ensures Sound() && history == old(history) + [b] && orders == old(orders) + [ordering]
      ensures maxLeaf == if old(maxLeaf).None? || OrderAt(old(nodes), old(maxLeaf).value) < ordering then Some(|old(nodes)|) else old(maxLeaf)
    {
      var newLeaf := InsertLeaf(b, ordering);
      if maxLeaf == None {
        maxLeaf := Some(newLeaf);
      } else if nodes[maxLeaf.value].maxOrder < ordering {
        maxLeaf := Some(newLeaf);
      }
    }

    /** The search with all its shortcuts returns what the linear scan returns. */
    method FindMaxOrdering(query: Bounds) returns (best: nat)
      requires Sound()
      modifies this`searchStack
      ensures best == MaxHit(history, orders, query)
    {
      if root.None? {
        return 0;
      }
      if maxLeaf.Some? && query.Intersects(nodes[maxLeaf.value].bounds) {
        MaxLeafSettles(nodes, leaves, history, orders, maxLeaf.value, query);
        return nodes[maxLeaf.value].maxOrder;
      }
      best := SearchTree(query);
    }

    method SearchTree(query: Bounds) returns (best: nat)
      requires root.Some? && Registered(nodes, leaves, history, orders) && WellFormed(nodes, root.value, links)
      modifies this`searchStack
      ensures best == MaxHit(history, orders, query)
    {
      searchStack := [root.value];
      best := 0;
      ghost var visited: set<nat> := {};
      while |searchStack| > 0
        invariant Disciplined(nodes, root.value, links, searchStack, visited)
        invariant root.value in searchStack || root.value in visited
        invariant AllClosed(nodes, query, best, searchStack, visited)
        invariant Hit(history, orders, query, best)
        decreases |nodes| - |visited|
      {
        best, visited := SearchTurn(query, best, visited);
      }
      assert searchStack == [];
      SearchSettles(nodes, root.value, links, leaves, history, orders, query, best, visited);
    }

    /** Pops one node, prunes it, counts it or expands it. */
    method SearchTurn(query: Bounds, best: nat, ghost visited: set<nat>) returns (best': nat, ghost visited': set<nat>)
      requires root.Some? && Registered(nodes, leaves, history, orders) && WellFormed(nodes, root.value, links)
      requires Disciplined(nodes, root.value, links, searchStack, visited) && |searchStack| > 0
      requires AllClosed(nodes, query, best, searchStack, visited) && Hit(history, orders, query, best)
      modifies this`searchStack
      ensures visited' == visited + {old(searchStack)[|old(searchStack)| - 1]}
      ensures forall i :: i in old(searchStack) ==> i in searchStack || i in visited'
      ensures Disciplined(nodes, root.value, links, searchStack, visited')
      ensures AllClosed(nodes, query, best', searchStack, visited') && Hit(history, orders, query, best')
      ensures |visited| < |visited'| <= |nodes|
    {
      ghost var stack := searchStack;
      var x := searchStack[|searchStack| - 1];
      assert x in searchStack;
      searchStack := searchStack[..|searchStack| - 1];
      best', visited' := best, visited + {x};
      assert searchStack + [] == searchStack;
      if nodes[x].maxOrder <= best || !query.Intersects(nodes[x].bounds) {
        Advance(nodes, root.value, links, query, stack, visited, best, [], best);
        return;
      }
      match nodes[x].kind
      case Leaf(order) =>
        best' := MaxNat(best, order);
        assert IsLeaf(nodes, x) && NodeOk(nodes, x);
        Advance(nodes, root.value, links, query, stack, visited, best, [], best');
      case Internal(children) =>
        ExpandCloses(nodes, root.value, links, query, searchStack, visited', best, x);
        Advance(nodes, root.value, links, query, stack, visited, best, LiveChildren(nodes, children, best), best);
        PushLiveChildren(children, best);
    }

    /** The children are pushed in stored order, so the last one, of largest order, is popped first. */
    method PushLiveChildren(children: seq<nat>, best: nat)
      requires forall c :: c in children ==> c < |nodes|
      modifies this`searchStack
      ensures searchStack == old(searchStack) + LiveChildren(nodes, children, best)
    {
      for i := 0 to |children|
        invariant forall c :: c in children[..i] ==> c in children
        invariant searchStack == old(searchStack) + LiveChildren(nodes, children[..i], best)
      {
        assert children[i] in children;
        assert children[..i + 1] == children[..i] + [children[i]];
        if nodes[children[i]].maxOrder > best {
          searchStack := searchStack + [children[i]];
        }
      }
      assert children[..|children|] == children;
    }

    /** Stores a new leaf, hangs it into the tree and records it. */
    method InsertLeaf(b: Bounds, order: nat) returns (newLeaf: nat)
      requires Registered(nodes, leaves, history, orders) && order >= 1
      requires if root.Some? then WellFormed(nodes, root.value, links) else nodes == []
      requires if maxLeaf.Some? then IsMaxLeaf(nodes, leaves, maxLeaf.value) else leaves == []
      modifies this`nodes, this`root, this`insertPath, this`links, this`leaves, this`history, this`orders
      ensures history == old(history) + [b] && orders == old(orders) + [order]
      ensures root.Some? && WellFormed(nodes, root.value, links)
      ensures Registered(nodes, leaves, history, orders)
      ensures maxLeaf.Some? ==> maxLeaf.value < |nodes|
      ensures IsMaxLeaf(nodes, leaves, LargerLeaf(nodes, maxLeaf, newLeaf, order))
      ensures newLeaf == |old(nodes)| && (maxLeaf.Some? ==> OrderAt(nodes, maxLeaf.value) == OrderAt(old(nodes), maxLeaf.value))
    {
      newLeaf := |nodes|;
      ghost var before := nodes;
      PlaceLeaf(b, order);
      RegisterLeaf(before, nodes, leaves, history, orders, b, order);
      MaxLeafUpdate(before, nodes, leaves, newLeaf, maxLeaf, order);
      history, orders := history + [b], orders + [order];
      leaves := leaves + [newLeaf];
    }

    method PlaceLeaf(b: Bounds, order: nat)
      requires if root.Some? then WellFormed(nodes, root.value, links) else nodes == []
      requires order >= 1
      modifies this`nodes, this`root, this`insertPath, this`links
      ensures root.Some? && WellFormed(nodes, root.value, links)
      ensures SameLeaves(old(nodes) + [LeafNode(b, order)], nodes)
    {
      var newLeaf := |nodes|;
      ghost var before := nodes;
      nodes := nodes + [Node(b, order, Leaf(order))];
      if root.None? {
        root := Some(newLeaf);
        links := Links([0], [0]);
      } else if nodes[root.value].kind.Leaf? {
        SplitRoot(newLeaf, b, order, before);
      } else {
        var atPos := Descend(b, before);
        HangBelow(newLeaf, atPos, b, order, before);
        Propagate(b, order);
      }
    }

    /** The root was a leaf: a new root takes it and the new leaf. */
    method SplitRoot(newLeaf: nat, b: Bounds, order: nat, ghost before: seq<Node>)
      requires root.Some? && WellFormed(before, root.value, links) && IsLeaf(before, root.value) && order >= 1
      requires newLeaf == |before| && nodes == before + [LeafNode(b, order)]
      modifies this`nodes, this`root, this`links
      ensures root.Some? && WellFormed(nodes, root.value, links)
      ensures SameLeaves(before + [LeafNode(b, order)], nodes)
    {
      RootLeafIsAlone(before, root.value, links);
      SplitRootKeepsTree(before, b, order);
      var sibling := nodes[root.value];
      nodes := nodes + [InnerNode(sibling, root.value, newLeaf, b, order)];
      assert nodes == before + [LeafNode(b, order), InnerNode(before[0], 0, 1, b, order)];
      root := Some(newLeaf + 1);
      links := Links([2, 2, 0], [1, 1, 0]);
    }

    /** Walks down by least enlargement to the lowest node whose cheapest child is a leaf. */
    method Descend(b: Bounds, ghost before: seq<Node>) returns (atPos: nat)
      requires root.Some? && WellFormed(before, root.value, links) && IsInternal(before, root.value)
      requires |nodes| == |before| + 1 && nodes[..|before|] == before
      modifies this`insertPath
      ensures Descent(before, root.value, insertPath)
      ensures var p := insertPath[|insertPath| - 1]; Cheapest(before, b, p, atPos) && IsLeaf(before, before[p].kind.children[atPos])
      ensures forall j :: 0 < j < |insertPath| ==> CheapestStep(before, b, insertPath[j - 1], insertPath[j])
    {
      var current := root.value;
      insertPath := [current];
      while true
        invariant |insertPath| > 0 && current == insertPath[|insertPath| - 1] && IsInternal(before, current)
        invariant Descent(before, root.value, insertPath)
        invariant forall j :: 0 < j < |insertPath| ==> CheapestStep(before, b, insertPath[j - 1], insertPath[j])
        decreases |before| - |insertPath|
      {
        DescentDepths(before, root.value, links, insertPath, |insertPath| - 1);
        assert GoodArity(before, current) && NodeOk(before, current);
        atPos := CheapestChild(b, current, before);
        var best := nodes[current].kind.children[atPos];
        assert ChildOf(before, current, best);
        if nodes[best].kind.Leaf? {
          return;
        }
        assert CheapestStep(before, b, current, best);
        DescentDepths(before, root.value, links, insertPath + [best], |insertPath|);
        current := best;
        insertPath := insertPath + [current];
      }
    }

    method CheapestChild(b: Bounds, p: nat, ghost before: seq<Node>) returns (pos: nat)
      requires |before| <= |nodes| && nodes[..|before|] == before
      requires IsInternal(before, p) && ChildrenInRange(before, p)
      ensures Cheapest(before, b, p, pos)
    {
      var children := nodes[p].kind.children;
      assert children == before[p].kind.children;
      pos := 0;
      var bestCost := b.Union(nodes[children[0]].bounds).HalfPerimeter();
      for i := 1 to |children|
        invariant pos < |children| && bestCost == Cost(before, b, children[pos])
        invariant forall j :: 0 <= j < i ==> bestCost <= Cost(before, b, children[j])
        invariant forall j :: 0 <= j < pos ==> bestCost < Cost(before, b, children[j])
      {
        var cost := b.Union(nodes[children[i]].bounds).HalfPerimeter();
        if cost < bestCost {
          bestCost := cost;
          pos := i;
        }
      }
    }

    /** Adds the leaf to the node at the end of the path, or pairs it with the cheapest leaf when that node is full. */
    method HangBelow(newLeaf: nat, atPos: nat, b: Bounds, order: nat, ghost before: seq<Node>)
      requires root.Some? && WellFormed(before, root.value, links) && Descent(before, root.value, insertPath)
      requires newLeaf == |before| && nodes == before + [LeafNode(b, order)] && order >= 1
      requires var p := insertPath[|insertPath| - 1];
               IsInternal(before, p) && atPos < |before[p].kind.children| && IsLeaf(before, before[p].kind.children[atPos])
      modifies this`nodes, this`links
      ensures Hung(nodes, root.value, links, insertPath, b, order)
      ensures SameLeaves(before + [LeafNode(b, order)], nodes)
      ensures |nodes| == newLeaf + if |before[insertPath[|insertPath| - 1]].kind.children| < 12 then 1 else 2
    {
      if |nodes[insertPath[|insertPath| - 1]].kind.children| < MAX_CHILDREN {
        AddToNode(newLeaf, b, order, before);
      } else {
        SplitLeaf(newLeaf, atPos, b, order, before);
      }
    }

    method AddToNode(newLeaf: nat, b: Bounds, order: nat, ghost before: seq<Node>)
      requires root.Some? && WellFormed(before, root.value, links) && Descent(before, root.value, insertPath)
      requires newLeaf == |before| && nodes == before + [LeafNode(b, order)] && order >= 1
      requires var p := insertPath[|insertPath| - 1]; IsInternal(before, p) && 1 <= |before[p].kind.children| < MAX_CHILDREN
      modifies this`nodes, this`links
      ensures Hung(nodes, root.value, links, insertPath, b, order)
      ensures SameLeaves(before + [LeafNode(b, order)], nodes) && |nodes| == newLeaf + 1
    {
      var p := insertPath[|insertPath| - 1];
      AttachHangs(before, root.value, links, insertPath, p, b, order);
      nodes := nodes[p := WithLeaf(nodes[p], newLeaf, b, order)];
      assert nodes == AttachNodes(before, p, b, order);
      links := Links(links.parent + [p], links.depth + [links.depth[p] + 1]);
    }

    method SplitLeaf(newLeaf: nat, atPos: nat, b: Bounds, order: nat, ghost before: seq<Node>)
      requires root.Some? && WellFormed(before, root.value, links) && Descent(before, root.value, insertPath)
      requires newLeaf == |before| && nodes == before + [LeafNode(b, order)] && order >= 1
      requires var p := insertPath[|insertPath| - 1];
               IsInternal(before, p) && atPos < |before[p].kind.children| && IsLeaf(before, before[p].kind.children[atPos])
      modifies this`nodes, this`links
      ensures Hung(nodes, root.value, links, insertPath, b, order)
      ensures SameLeaves(before + [LeafNode(b, order)], nodes) && |nodes| == newLeaf + 2
    {
      var p := insertPath[|insertPath| - 1];
      SplitHangs(before, root.value, links, insertPath, p, atPos, b, order);
      var best := nodes[p].kind.children[atPos];
      var inner := InnerNode(nodes[best], best, newLeaf, b, order);
      nodes := nodes + [inner];
      assert nodes == before + [LeafNode(b, order), inner];
      nodes := nodes[p := WithInner(nodes[p], atPos, newLeaf + 1, inner.maxOrder)];
      assert nodes == SplitNodes(before, p, atPos, b, order);
      links := SplitLinks(links, newLeaf, p, best);
    }

    /** Walks back up the path, taking the new rectangle and order in and moving raised children last. */
    method Propagate(b: Bounds, order: nat)
      requires root.Some? && Hung(nodes, root.value, links, insertPath, b, order)
      modifies this`nodes
      ensures WellFormed(nodes, root.value, links) && SameLeaves(old(nodes), nodes)
    {
      var updated: Option<nat> := None;
      var k := |insertPath|;
      while k > 0
        invariant 0 <= k
        invariant Repairing(old(nodes), nodes, root.value, links, insertPath, k, updated, b, order)
      {
        RepairAt(k, updated, b, order, old(nodes));
        updated := Some(insertPath[k - 1]);
        k := k - 1;
      }
      RepairingEnds(old(nodes), nodes, root.value, links, insertPath, updated, b, order);
    }

    /** Repairs the `k`th node of the path, where the child that was updated goes last if its order is new there. */
    method RepairAt(k: nat, updated: Option<nat>, b: Bounds, order: nat, ghost before: seq<Node>)
      requires root.Some? && k > 0 && Repairing(before, nodes, root.value, links, insertPath, k, updated, b, order)
      modifies this`nodes
      ensures Repairing(before, nodes, root.value, links, insertPath, k - 1, Some(insertPath[k - 1]), b, order)
    {
      var p := insertPath[k - 1];
      var pos: Option<nat> := None;
      StaleIsInternal(before, nodes, root.value, links, insertPath, k, updated, b, order);
      if updated.Some? {
        UpdatedIsChild(before, nodes, root.value, links, insertPath, k, updated, b, order);
        pos := PositionOf(nodes[p].kind.children, updated.value);
      }
      RepairTurn(before, nodes, root.value, links, insertPath, k, updated, pos, b, order);
      nodes := nodes[p := Repaired(nodes[p], pos, b, order)];
    }

    static method PositionOf(s: seq<nat>, x: nat) returns (pos: Option<nat>)
      requires x in s
      ensures pos.Some? && pos.value < |s| && s[pos.value] == x && x !in s[..pos.value]
    {
      var i := 0;
      while s[i] != x
        invariant 0 <= i < |s| && x !in s[..i]
        decreases |s| - i
      {
        if i + 1 == |s| {
          assert false;
        }
        i := i + 1;
      }
      pos := Some(i);
    }
  }
}
