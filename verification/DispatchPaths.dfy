/** Nodes of the key dispatch tree, the path from the root to a node, and what lies along it. */
module DispatchPaths {
  import opened Wrappers

  type FocusId = nat
  type EntityId = nat
  type KeyContext = string
  type Listener = nat

  datatype DispatchNode = DispatchNode(
    keyListeners: seq<Listener>,
    actionListeners: seq<Listener>,
    modifiersChangedListeners: seq<Listener>,
    context: Option<KeyContext>,
    focusId: Option<FocusId>,
    viewId: Option<EntityId>,
    parent: Option<nat>)

  const NEW_NODE := DispatchNode([], [], [], None, None, None, None)

  /** Parents are always created first, so every walk towards the root ends. */
  ghost predicate ParentsFirst(nodes: seq<DispatchNode>) {
    forall i :: 0 <= i < |nodes| && nodes[i].parent.Some? ==> nodes[i].parent.value < i
  }

  ghost function PathTo(nodes: seq<DispatchNode>, i: nat): (path: seq<nat>)
    requires ParentsFirst(nodes) && i < |nodes|
    ensures Top(path) == Some(i)
  {
    if nodes[i].parent.Some? then PathTo(nodes, nodes[i].parent.value) + [i] else [i]
  }

  function Top<T>(s: seq<T>): Option<T> {
    if s == [] then None else Some(s[|s| - 1])
  }

  ghost function ContextsAlong(nodes: seq<DispatchNode>, path: seq<nat>): seq<KeyContext>
    requires forall i :: i in path ==> i < |nodes|
  {
    if path == [] then []
    else
      var n := |path| - 1;
      assert path[n] in path && forall i :: i in path[..n] ==> i in path;
      var rest := ContextsAlong(nodes, path[..n]);
      match nodes[path[n]].context
      case Some(c) => rest + [c]
      case None => rest
  }

  ghost function ViewsAlong(nodes: seq<DispatchNode>, path: seq<nat>): seq<EntityId>
    requires forall i :: i in path ==> i < |nodes|
  {
    if path == [] then []
    else
      var n := |path| - 1;
      assert path[n] in path && forall i :: i in path[..n] ==> i in path;
      var rest := ViewsAlong(nodes, path[..n]);
      match nodes[path[n]].viewId
      case Some(v) => rest + [v]
      case None => rest
  }

  /** The view of the node itself or of its nearest ancestor that has one. */
  ghost function NearestView(nodes: seq<DispatchNode>, i: nat): Option<EntityId>
    requires ParentsFirst(nodes) && i < |nodes|
  {
    if nodes[i].viewId.Some? then nodes[i].viewId
    else if nodes[i].parent.Some? then NearestView(nodes, nodes[i].parent.value)
    else None
  }

  /** `path` runs from a root down to some node, parent by parent; the empty path is allowed. */
  ghost predicate IsRootPath(nodes: seq<DispatchNode>, path: seq<nat>)
    ensures IsRootPath(nodes, path) ==> forall i :: i in path ==> i < |nodes|
  {
    path == [] ||
    var n := |path| - 1;
    assert forall i :: i in path <==> i in path[..n] || i == path[n];
    path[n] < |nodes| && nodes[path[n]].parent == Top(path[..n]) && IsRootPath(nodes, path[..n])
  }

  /** A path parent by parent from a root is the path to its last node, and the other way round. */
  lemma {:induction false} RootPathIsPathTo(nodes: seq<DispatchNode>, path: seq<nat>)
    requires ParentsFirst(nodes) && IsRootPath(nodes, path) && path != []
    ensures path == PathTo(nodes, path[|path| - 1])
    decreases |path|
  {
    var n := |path| - 1;
    if n > 0 {
      RootPathIsPathTo(nodes, path[..n]);
    }
    assert path == path[..n] + [path[n]];
  }

  lemma {:induction false} PathToIsRootPath(nodes: seq<DispatchNode>, i: nat)
    requires ParentsFirst(nodes) && i < |nodes|
    ensures IsRootPath(nodes, PathTo(nodes, i))
    decreases i
  {
    if nodes[i].parent.Some? {
      PathToIsRootPath(nodes, nodes[i].parent.value);
    }
    var path := PathTo(nodes, i);
    assert path[..|path| - 1] == if nodes[i].parent.Some? then PathTo(nodes, nodes[i].parent.value) else [];
  }

  /** What lies along a path depends on the nodes on it only. */
  lemma {:induction false} AlongAgrees(nodes: seq<DispatchNode>, nodes': seq<DispatchNode>, path: seq<nat>)
    requires forall i :: i in path ==> i < |nodes| && i < |nodes'| && nodes'[i].context == nodes[i].context && nodes'[i].viewId == nodes[i].viewId
    ensures ContextsAlong(nodes', path) == ContextsAlong(nodes, path)
    ensures ViewsAlong(nodes', path) == ViewsAlong(nodes, path)
    decreases |path|
  {
    if path != [] {
      var n := |path| - 1;
      assert path[n] in path && forall i :: i in path[..n] ==> i in path;
      AlongAgrees(nodes, nodes', path[..n]);
    }
  }

  /** The three stacks describe one and the same root path. */
  ghost predicate InStep(nodes: seq<DispatchNode>, nodeStack: seq<nat>, contextStack: seq<KeyContext>, viewStack: seq<EntityId>) {
    && ParentsFirst(nodes)
    && IsRootPath(nodes, nodeStack)
    && contextStack == ContextsAlong(nodes, nodeStack)
    && viewStack == ViewsAlong(nodes, nodeStack)
  }

  lemma {:induction false} TopView(nodes: seq<DispatchNode>, path: seq<nat>)
    requires ParentsFirst(nodes) && IsRootPath(nodes, path) && path != []
    ensures var views := ViewsAlong(nodes, path);
            NearestView(nodes, path[|path| - 1]) == if views == [] then None else Some(views[|views| - 1])
    decreases |path|
  {
    var n := |path| - 1;
    assert forall i :: i in path[..n] ==> i in path;
    if nodes[path[n]].viewId.None? && n > 0 {
      TopView(nodes, path[..n]);
    }
  }

  lemma {:induction false} NearestViewAgrees(nodes: seq<DispatchNode>, nodes': seq<DispatchNode>, i: nat)
    requires ParentsFirst(nodes) && ParentsFirst(nodes') && i < |nodes| && i < |nodes'|
    requires forall k :: 0 <= k <= i ==> nodes'[k].viewId == nodes[k].viewId && nodes'[k].parent == nodes[k].parent
    ensures NearestView(nodes', i) == NearestView(nodes, i)
    decreases i
  {
    if nodes[i].parent.Some? {
      NearestViewAgrees(nodes, nodes', nodes[i].parent.value);
    }
  }

  lemma {:induction false} RootPathAgrees(nodes: seq<DispatchNode>, nodes': seq<DispatchNode>, path: seq<nat>)
    requires IsRootPath(nodes, path)
    requires |nodes| <= |nodes'| && forall i :: 0 <= i < |nodes| ==> nodes'[i].parent == nodes[i].parent
    ensures IsRootPath(nodes', path)
    decreases |path|
  {
    if path != [] {
      RootPathAgrees(nodes, nodes', path[..|path| - 1]);
    }
  }

  /** A new bare node below the top of the stack keeps the stacks in step. */
  lemma PushKeepsStep(nodes: seq<DispatchNode>, nodeStack: seq<nat>, contextStack: seq<KeyContext>, viewStack: seq<EntityId>)
    requires InStep(nodes, nodeStack, contextStack, viewStack)
    ensures InStep(nodes + [NEW_NODE.(parent := Top(nodeStack))], nodeStack + [|nodes|], contextStack, viewStack)
  {
    var nodes' := nodes + [NEW_NODE.(parent := Top(nodeStack))];
    var stack' := nodeStack + [|nodes|];
    assert stack'[..|nodeStack|] == nodeStack;
    AlongAgrees(nodes, nodes', nodeStack);
    RootPathAgrees(nodes, nodes', nodeStack);
    assert Top(nodeStack).Some? ==> Top(nodeStack).value in nodeStack;
  }

  lemma {:induction false} RootPathClimbs(nodes: seq<DispatchNode>, path: seq<nat>)
    requires ParentsFirst(nodes) && IsRootPath(nodes, path) && path != []
    ensures forall k :: 0 <= k < |path| - 1 ==> path[k] < path[|path| - 1]
    decreases |path|
  {
    var n := |path| - 1;
    if n > 0 {
      RootPathClimbs(nodes, path[..n]);
    }
  }

  function DropLast<T>(s: seq<T>): seq<T>
    requires s != []
  {
    s[..|s| - 1]
  }

  /** Popping a vector, which does nothing to an empty one. */
  function PopIf<T>(s: seq<T>, pop: bool): seq<T> {
    if pop && s != [] then DropLast(s) else s
  }

  lemma PopKeepsStep(nodes: seq<DispatchNode>, nodeStack: seq<nat>, contextStack: seq<KeyContext>, viewStack: seq<EntityId>)
    requires InStep(nodes, nodeStack, contextStack, viewStack) && nodeStack != []
    ensures nodeStack[|nodeStack| - 1] < |nodes|
    ensures var node := nodes[nodeStack[|nodeStack| - 1]];
            InStep(nodes, DropLast(nodeStack), PopIf(contextStack, node.context.Some?), PopIf(viewStack, node.viewId.Some?))
  {
    var above := DropLast(nodeStack);
    var node := nodes[nodeStack[|nodeStack| - 1]];
    assert contextStack == ContextsAlong(nodes, above) + Singleton(node.context);
    assert viewStack == ViewsAlong(nodes, above) + Singleton(node.viewId);
    PopSingleton(ContextsAlong(nodes, above), node.context);
    PopSingleton(ViewsAlong(nodes, above), node.viewId);
  }

  lemma PopSingleton<T>(s: seq<T>, x: Option<T>)
    ensures PopIf(s + Singleton(x), x.Some?) == s
  {
  }

  /** Changing what the active node carries: everything above it on the stack is as before. */
  lemma ActiveNodeChanges(nodes: seq<DispatchNode>, nodeStack: seq<nat>, contextStack: seq<KeyContext>, viewStack: seq<EntityId>,
                          node: DispatchNode)
    requires InStep(nodes, nodeStack, contextStack, viewStack) && nodeStack != []
    requires node.parent == nodes[nodeStack[|nodeStack| - 1]].parent
    ensures var a := nodeStack[|nodeStack| - 1]; var nodes' := nodes[a := node]; var above := DropLast(nodeStack);
            && ParentsFirst(nodes') && IsRootPath(nodes', nodeStack) && IsRootPath(nodes, above)
            && ContextsAlong(nodes', nodeStack) == ContextsAlong(nodes, above) + (if node.context.Some? then [node.context.value] else [])
            && ViewsAlong(nodes', nodeStack) == ViewsAlong(nodes, above) + (if node.viewId.Some? then [node.viewId.value] else [])
  {
    var a := nodeStack[|nodeStack| - 1];
    var nodes' := nodes[a := node];
    RootPathClimbs(nodes, nodeStack);
    RootPathAgrees(nodes, nodes', nodeStack);
    AlongAgrees(nodes, nodes', DropLast(nodeStack));
  }

  /** With a single node, the stacks hold just what that node carries. */
  lemma OneNodeInStep(node: DispatchNode, contexts: seq<KeyContext>, views: seq<EntityId>)
    requires node.parent.None?
    ensures InStep([node], [0], contexts, views) <==> contexts == Singleton(node.context) && views == Singleton(node.viewId)
  {
    var path: seq<nat> := [0];
    assert path == [] + [0] && path[..0] == [];
    assert ParentsFirst([node]) && IsRootPath([node], path);
    AlongLast([node], [], 0);
    assert ContextsAlong([node], path) == Singleton(node.context) && ViewsAlong([node], path) == Singleton(node.viewId);
  }

  /** A second context on the active node ends up on the context stack beside the first, but not along the path. */
  lemma SecondContextLosesStep(first: KeyContext, second: KeyContext)
    ensures var once := NEW_NODE.(context := Some(first)); var twice := NEW_NODE.(context := Some(second));
            InStep([once], [0], [first], []) && !InStep([twice], [0], [first, second], [])
  {
    OneNodeInStep(NEW_NODE.(context := Some(first)), [first], []);
    OneNodeInStep(NEW_NODE.(context := Some(second)), [first, second], []);
  }

  /** The same for a second view; a view equal to the innermost one is not recorded again. */
  lemma SecondViewLosesStep(first: EntityId, second: EntityId)
    requires first != second
    ensures var once := NEW_NODE.(viewId := Some(first)); var twice := NEW_NODE.(viewId := Some(second));
            InStep([once], [0], [], [first]) && !InStep([twice], [0], [], [first, second])
  {
    OneNodeInStep(NEW_NODE.(viewId := Some(first)), [], [first]);
    OneNodeInStep(NEW_NODE.(viewId := Some(second)), [], [first, second]);
  }

  function Reverse<T>(s: seq<T>): (r: seq<T>)
    ensures |r| == |s|
  {
    if s == [] then [] else [s[|s| - 1]] + Reverse(s[..|s| - 1])
  }

  ghost function PathOrEmpty(nodes: seq<DispatchNode>, i: Option<nat>): (path: seq<nat>)
    requires ParentsFirst(nodes) && (i.Some? ==> i.value < |nodes|)
    ensures IsRootPath(nodes, path) && Top(path) == i
  {
    match i
    case None => []
    case Some(n) => PathToIsRootPath(nodes, n); PathTo(nodes, n)
  }

  /** `stack`, read backwards, is what remains of `whole` after `above`. */
  ghost predicate Remains<T>(whole: seq<T>, above: seq<T>, stack: seq<T>) {
    whole == above + Reverse(stack)
  }

  lemma MoveAcross<T>(whole: seq<T>, above: seq<T>, x: seq<T>, stack: seq<T>)
    requires Remains(whole, above + x, stack) && |x| <= 1
    ensures Remains(whole, above, stack + x)
  {
    var r := Reverse(stack);
    assert Reverse(stack + x) == x + r by {
      if x == [] {
        assert stack + x == stack && x + r == r;
      } else {
        assert (stack + x)[..|stack|] == stack && x == [x[0]];
      }
    }
    assert (above + x) + r == above + (x + r);
  }

  function Singleton<T>(x: Option<T>): seq<T> {
    if x.Some? then [x.value] else []
  }

  lemma AlongLast(nodes: seq<DispatchNode>, rest: seq<nat>, i: nat)
    requires i < |nodes| && forall k :: k in rest ==> k < |nodes|
    ensures ContextsAlong(nodes, rest + [i]) == ContextsAlong(nodes, rest) + Singleton(nodes[i].context)
    ensures ViewsAlong(nodes, rest + [i]) == ViewsAlong(nodes, rest) + Singleton(nodes[i].viewId)
  {
    assert (rest + [i])[..|rest|] == rest;
  }

  /** Going down to a child of the active node, with its context and its view, keeps the stacks in step. */
  lemma ReactivateKeepsStep(nodes: seq<DispatchNode>, nodeStack: seq<nat>, contextStack: seq<KeyContext>, viewStack: seq<EntityId>, i: nat)
    requires InStep(nodes, nodeStack, contextStack, viewStack) && i < |nodes| && Top(nodeStack) == nodes[i].parent
    ensures InStep(nodes, nodeStack + [i],
                   if nodes[i].context.Some? then contextStack + [nodes[i].context.value] else contextStack,
                   if nodes[i].viewId.Some? then viewStack + [nodes[i].viewId.value] else viewStack)
    ensures nodeStack + [i] == PathTo(nodes, i)
  {
    AlongLast(nodes, nodeStack, i);
    assert contextStack + [] == contextStack && viewStack + [] == viewStack;
    assert (nodeStack + [i])[..|nodeStack|] == nodeStack;
    RootPathIsPathTo(nodes, nodeStack + [i]);
  }

  /** The walk up from the end of `path` has collected, in reverse, what lies below `above`. */
  ghost predicate Collected(nodes: seq<DispatchNode>, path: seq<nat>, above: seq<nat>,
                            nodeStack: seq<nat>, contextStack: seq<KeyContext>, viewStack: seq<EntityId>) {
    && IsRootPath(nodes, path) && IsRootPath(nodes, above)
    && Remains(path, above, nodeStack)
    && Remains(ContextsAlong(nodes, path), ContextsAlong(nodes, above), contextStack)
    && Remains(ViewsAlong(nodes, path), ViewsAlong(nodes, above), viewStack)
  }

  lemma CollectOne(nodes: seq<DispatchNode>, path: seq<nat>, above: seq<nat>, i: nat,
                   nodeStack: seq<nat>, contextStack: seq<KeyContext>, viewStack: seq<EntityId>)
    requires IsRootPath(nodes, above) && i < |nodes|
    requires Collected(nodes, path, above + [i], nodeStack, contextStack, viewStack)
    ensures Collected(nodes, path, above, nodeStack + [i],
                      contextStack + Singleton(nodes[i].context), viewStack + Singleton(nodes[i].viewId))
  {
    AlongLast(nodes, above, i);
    MoveAcross(path, above, [i], nodeStack);
    MoveAcross(ContextsAlong(nodes, path), ContextsAlong(nodes, above), Singleton(nodes[i].context), contextStack);
    MoveAcross(ViewsAlong(nodes, path), ViewsAlong(nodes, above), Singleton(nodes[i].viewId), viewStack);
  }

  function ParentOf(nodes: seq<DispatchNode>, i: nat): Option<nat> {
    if i < |nodes| then nodes[i].parent else None
  }

  /** The path to a node id; an id that is not in the tree is a path of its own. */
  ghost function PathFrom(nodes: seq<DispatchNode>, i: Option<nat>): seq<nat>
    requires ParentsFirst(nodes)
  {
    match i
    case None => []
    case Some(n) => if n < |nodes| then PathTo(nodes, n) else [n]
  }

  lemma WalkUpOne(nodes: seq<DispatchNode>, whole: seq<nat>, i: nat, path: seq<nat>)
    requires ParentsFirst(nodes) && Remains(whole, PathFrom(nodes, Some(i)), path)
    ensures Remains(whole, PathFrom(nodes, ParentOf(nodes, i)), path + [i])
  {
    assert PathFrom(nodes, Some(i)) == PathFrom(nodes, ParentOf(nodes, i)) + [i];
    MoveAcross(whole, PathFrom(nodes, ParentOf(nodes, i)), [i], path);
  }
}
