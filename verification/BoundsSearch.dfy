/** The pruned stack search over the node vector: what it may drop and why nothing is missed. */
module BoundsSearch {
  import opened Geometry
  import opened BoundsForest

  /** Nothing below `i` can meet the query with an order above `best`. */
  ghost predicate Dead(ns: seq<Node>, query: Bounds, best: nat, i: nat)
    requires i < |ns|
  {
    ns[i].maxOrder <= best || !query.Intersects(ns[i].bounds)
  }

  /** `c` has been dealt with, is still to be dealt with, or cannot matter. */
  ghost predicate Accounted(ns: seq<Node>, query: Bounds, best: nat, stack: seq<nat>, visited: set<nat>, c: nat)
    requires c < |ns|
  {
    c in stack || c in visited || Dead(ns, query, best, c)
  }

  ghost predicate Expanded(ns: seq<Node>, query: Bounds, best: nat, stack: seq<nat>, visited: set<nat>, i: nat) {
    IsInternal(ns, i) && forall c: nat :: ChildOf(ns, i, c) ==> c < |ns| && Accounted(ns, query, best, stack, visited, c)
  }

  ghost predicate Closed(ns: seq<Node>, query: Bounds, best: nat, stack: seq<nat>, visited: set<nat>, i: nat)
    requires i < |ns|
  {
    Dead(ns, query, best, i) || Expanded(ns, query, best, stack, visited, i)
  }

  /** Each index is on the stack at most once in a whole search, and never before its parent was taken off. */
  ghost predicate Disciplined(ns: seq<Node>, root: nat, links: Links, stack: seq<nat>, visited: set<nat>)
    requires |links.parent| == |ns|
  {
    && Distinct(stack)
    && (forall i :: i in stack ==> i < |ns| && i !in visited && (i == root || links.parent[i] in visited))
    && (forall i :: i in visited ==> i < |ns| && (i == root || links.parent[i] in visited))
  }

  /** When the stack is empty every node is dead or was visited, so no leaf can beat `best`. */
  lemma {:induction false} NothingMissed(ns: seq<Node>, root: nat, links: Links, query: Bounds, best: nat,
                                         visited: set<nat>, i: nat)
    requires WellFormed(ns, root, links)
    requires root in visited && forall j :: j in visited ==> j < |ns| && Closed(ns, query, best, [], visited, j)
    requires i < |ns|
    ensures i in visited || Dead(ns, query, best, i)
    decreases links.depth[i]
  {
    if i != root {
      var p := links.parent[i];
      assert ChildOf(ns, p, i);
      NothingMissed(ns, root, links, query, best, visited, p);
      if Dead(ns, query, best, p) {
        assert NodeOk(ns, p) && Fits(ns[p], ns[i]);
      }
    }
  }

  /** Taking `x` off the stack: its children, not yet seen, may be pushed. */
  lemma ChildrenAreFresh(ns: seq<Node>, root: nat, links: Links, stack: seq<nat>, visited: set<nat>, x: nat)
    requires Linked(ns, root, links) && Disciplined(ns, root, links, stack, visited)
    requires x !in visited
    ensures forall c: nat :: ChildOf(ns, x, c) ==> c !in stack && c !in visited && c != root && c != x
  {
    forall c: nat | ChildOf(ns, x, c) ensures c !in stack && c !in visited && c != root && c != x {
      assert links.parent[c] == x && c != root;
      assert links.depth[c] == links.depth[x] + 1;
    }
  }

  ghost predicate AllClosed(ns: seq<Node>, query: Bounds, best: nat, stack: seq<nat>, visited: set<nat>) {
    forall i :: i in visited ==> i < |ns| && Closed(ns, query, best, stack, visited, i)
  }

  lemma CardinalityBelow(s: set<nat>, n: nat)
    requires forall i :: i in s ==> i < n
    ensures |s| <= n
  {
    if n == 0 {
      assert s == {};
    } else {
      assert |s - {n - 1}| >= |s| - 1;
      CardinalityBelow(s - {n - 1}, n - 1);
    }
  }

  /** One turn of the search: `x` comes off the stack, `pushed` (children of `x`) go on, `best` may rise. */
  lemma Advance(ns: seq<Node>, root: nat, links: Links, query: Bounds, stack: seq<nat>, visited: set<nat>, best: nat,
                pushed: seq<nat>, best': nat)
    requires Linked(ns, root, links) && Disciplined(ns, root, links, stack, visited) && |stack| > 0
    requires AllClosed(ns, query, best, stack, visited) && best <= best' && Distinct(pushed)
    requires var x := stack[|stack| - 1];
             && (forall c :: c in pushed ==> ChildOf(ns, x, c))
             && x < |ns| && Closed(ns, query, best', stack[..|stack| - 1] + pushed, visited + {x}, x)
    ensures var x := stack[|stack| - 1]; var stack' := stack[..|stack| - 1] + pushed;
            && Disciplined(ns, root, links, stack', visited + {x})
            && AllClosed(ns, query, best', stack', visited + {x})
            && |ns| - |visited + {x}| < |ns| - |visited| && |visited + {x}| <= |ns|
  {
    var x := stack[|stack| - 1];
    var stack' := stack[..|stack| - 1] + pushed;
    assert x in stack;
    ChildrenAreFresh(ns, root, links, stack, visited, x);
    assert forall c :: c in stack ==> c in stack' || c == x;
    assert forall c :: c in stack' ==> c in stack || c in pushed;
    forall i | i in visited + {x} ensures i < |ns| && Closed(ns, query, best', stack', visited + {x}, i) {
      if i in visited && !Dead(ns, query, best, i) {
        assert Expanded(ns, query, best, stack, visited, i);
      }
    }
    CardinalityBelow(visited + {x}, |ns|);
    assert Disciplined(ns, root, links, stack', visited + {x}) by {
      forall i, j | 0 <= i < j < |stack'| ensures stack'[i] != stack'[j] {
        assert i < |stack| - 1 ==> stack'[i] == stack[i] && stack[i] in stack;
        assert j >= |stack| - 1 ==> stack'[j] in pushed;
      }
      forall i | i in stack' ensures i < |ns| && i !in visited + {x} && (i == root || links.parent[i] in visited + {x}) {
        if i in pushed {
          assert ChildOf(ns, x, i);
        } else {
          var k :| 0 <= k < |stack| - 1 && stack[k] == i;
          assert i in stack;
        }
      }
    }
  }

  /** The children that can still improve on `best`, in their stored order. */
  function LiveChildren(ns: seq<Node>, children: seq<nat>, best: nat): (live: seq<nat>)
    requires forall c :: c in children ==> c < |ns|
    ensures forall c :: c in live <==> c in children && ns[c].maxOrder > best
  {
    if children == [] then []
    else
      var n := |children| - 1;
      assert children[n] in children && forall c :: c in children <==> c in children[..n] || c == children[n];
      var live := LiveChildren(ns, children[..n], best);
      if ns[children[n]].maxOrder > best then live + [children[n]] else live
  }

  /** The last child is popped first, if it can improve on `best`: by the tree's order it is one of largest order. */
  lemma LastChildFirst(ns: seq<Node>, children: seq<nat>, best: nat)
    requires children != [] && forall c :: c in children ==> c < |ns|
    requires children[|children| - 1] in children && ns[children[|children| - 1]].maxOrder > best
    ensures var live := LiveChildren(ns, children, best); live != [] && live[|live| - 1] == children[|children| - 1]
  {
  }

  lemma {:induction false} LiveChildrenDistinct(ns: seq<Node>, children: seq<nat>, best: nat)
    requires Distinct(children) && forall c :: c in children ==> c < |ns|
    ensures Distinct(LiveChildren(ns, children, best))
  {
    if children != [] {
      var n := |children| - 1;
      assert forall c :: c in children[..n] ==> c in children;
      LiveChildrenDistinct(ns, children[..n], best);
      assert children[n] !in children[..n];
    }
  }

  /** Expanding an internal node by its live children accounts for all of them. */
  lemma ExpandCloses(ns: seq<Node>, root: nat, links: Links, query: Bounds, stack: seq<nat>, visited: set<nat>, best: nat, x: nat)
    requires WellFormed(ns, root, links) && IsInternal(ns, x)
    ensures forall c :: c in ns[x].kind.children ==> c < |ns| && ChildOf(ns, x, c)
    ensures Distinct(LiveChildren(ns, ns[x].kind.children, best))
    ensures Closed(ns, query, best, stack + LiveChildren(ns, ns[x].kind.children, best), visited, x)
  {
    forall c | c in ns[x].kind.children ensures c < |ns| && ChildOf(ns, x, c) {
      assert ChildOf(ns, x, c);
    }
    assert GoodArity(ns, x);
    LiveChildrenDistinct(ns, ns[x].kind.children, best);
  }
}
