/** What copying a range of nodes from the previous frame's tree must produce. */
module SubtreeReuse {
  import opened Wrappers
  import opened DispatchPaths

  datatype ReusedSubtree = ReusedSubtree(oldStart: nat, oldEnd: nat, newStart: nat, newEnd: nat, containsFocus: bool) {
    function RefreshNodeId(id: nat): nat
      requires oldStart <= id < oldEnd
    {
      id - oldStart + newStart
    }
  }

  ghost function PopTo(stack: seq<nat>, parent: Option<nat>): seq<nat> {
    if stack == [] || parent == Top(stack) then stack else PopTo(DropLast(stack), parent)
  }

  /** The stack of copied ancestors after the source nodes `a..i` have been visited. */
  ghost function SourceStack(src: seq<DispatchNode>, a: nat, i: nat): seq<nat>
    requires a <= i <= |src|
  {
    if i == a then [] else PopTo(SourceStack(src, a, i - 1), src[i - 1].parent) + [i - 1]
  }

  ghost function CopyParent(src: seq<DispatchNode>, a: nat, i: nat, offset: nat, entry: Option<nat>): Option<nat>
    requires a <= i < |src|
  {
    var stack := PopTo(SourceStack(src, a, i), src[i].parent);
    if stack == [] then entry else ImageOf(Top(stack).value, a, offset)
  }

  ghost function ImageOf(id: nat, a: nat, offset: nat): Option<nat> {
    if id < a then None else Some(id - a + offset)
  }

  /** The nodes from `i` up to the topmost one whose ancestors all lie at `a` or later. */
  ghost function RangePath(src: seq<DispatchNode>, a: nat, i: nat): seq<nat>
    requires ParentsFirst(src) && i < |src|
  {
    if src[i].parent.Some? && src[i].parent.value >= a then RangePath(src, a, src[i].parent.value) + [i] else [i]
  }

  ghost predicate ParentInRange(src: seq<DispatchNode>, a: nat, i: nat)
    requires i < |src|
  {
    src[i].parent.Some? && src[i].parent.value >= a
  }

  /** A parent inside the range is the previous node or one of its ancestors. */
  ghost predicate ParentStillOpen(src: seq<DispatchNode>, a: nat, i: nat)
    requires ParentsFirst(src) && a <= i < |src|
  {
    ParentInRange(src, a, i) ==> src[i].parent.value in RangePath(src, a, i - 1)
  }

  ghost predicate DepthFirst(src: seq<DispatchNode>, a: nat, b: nat)
    requires ParentsFirst(src) && b <= |src|
  {
    forall i :: a <= i < b ==> ParentStillOpen(src, a, i)
  }

  ghost predicate ParentIsImage(src: seq<DispatchNode>, a: nat, i: nat, offset: nat, entry: Option<nat>)
    requires a <= i < |src|
  {
    CopyParent(src, a, i, offset, entry) ==
      if ParentInRange(src, a, i) then ImageOf(src[i].parent.value, a, offset) else entry
  }

  lemma {:induction false} PopRangePath(src: seq<DispatchNode>, a: nat, i: nat, parent: Option<nat>)
    requires ParentsFirst(src) && a <= i < |src|
    ensures var popped := PopTo(RangePath(src, a, i), parent);
            if parent.Some? && parent.value in RangePath(src, a, i)
            then parent.value < |src| && popped == RangePath(src, a, parent.value)
            else popped == []
    decreases i
  {
    var path := RangePath(src, a, i);
    assert Top(path) == Some(i) && i in path;
    if parent != Some(i) {
      if ParentInRange(src, a, i) {
        assert DropLast(path) == RangePath(src, a, src[i].parent.value);
        PopRangePath(src, a, src[i].parent.value, parent);
        assert forall x :: x in path <==> x in DropLast(path) || x == i;
      } else {
        assert DropLast(path) == [];
      }
    }
  }

  lemma {:induction false} RangePathInRange(src: seq<DispatchNode>, a: nat, i: nat)
    requires ParentsFirst(src) && a <= i < |src|
    ensures forall x :: x in RangePath(src, a, i) ==> a <= x
    decreases i
  {
    if ParentInRange(src, a, i) {
      RangePathInRange(src, a, src[i].parent.value);
    }
  }

  /** What is left of the ancestors of `i - 1`, on the stack, when node `i` arrives. */
  lemma OpenStack(src: seq<DispatchNode>, a: nat, i: nat, stack: seq<nat>)
    requires ParentsFirst(src) && a < i < |src| && stack == RangePath(src, a, i - 1)
    ensures var popped := PopTo(stack, src[i].parent);
            if ParentInRange(src, a, i) && src[i].parent.value in stack
            then popped == RangePath(src, a, src[i].parent.value) && Top(popped) == src[i].parent
            else popped == []
  {
    PopRangePath(src, a, i - 1, src[i].parent);
    RangePathInRange(src, a, i - 1);
    assert src[i].parent.Some? && src[i].parent.value in stack ==> ParentInRange(src, a, i);
  }

  lemma StackOneMore(src: seq<DispatchNode>, a: nat, i: nat, stack: seq<nat>)
    requires ParentsFirst(src) && a < i < |src| && stack == RangePath(src, a, i - 1) && ParentStillOpen(src, a, i)
    ensures PopTo(stack, src[i].parent) + [i] == RangePath(src, a, i)
  {
    OpenStack(src, a, i, stack);
  }

  lemma {:induction false} SourceStackIsRangePath(src: seq<DispatchNode>, a: nat, i: nat)
    requires ParentsFirst(src) && a < i <= |src| && DepthFirst(src, a, i)
    ensures SourceStack(src, a, i) == RangePath(src, a, i - 1)
    decreases i
  {
    if i - 1 > a {
      var stack := SourceStack(src, a, i - 1);
      SourceStackIsRangePath(src, a, i - 1);
      assert ParentStillOpen(src, a, i - 1);
      StackOneMore(src, a, i - 1, stack);
    } else {
      assert SourceStack(src, a, a) == [];
      assert SourceStack(src, a, i) == PopTo([], src[a].parent) + [a];
    }
  }

  lemma OneParent(src: seq<DispatchNode>, a: nat, i: nat, offset: nat, entry: Option<nat>)
    requires ParentsFirst(src) && a <= i < |src| && DepthFirst(src, a, i)
    requires entry.Some? ==> entry.value < offset
    ensures ParentIsImage(src, a, i, offset, entry) <==> ParentStillOpen(src, a, i)
  {
    if i > a {
      SourceStackIsRangePath(src, a, i);
      OpenStack(src, a, i, RangePath(src, a, i - 1));
    }
  }

  /** Every copied parent is the image of the old one, or the node active on entry, exactly for depth-first ranges. */
  lemma {:induction false} ImagesIffDepthFirst(src: seq<DispatchNode>, a: nat, b: nat, offset: nat, entry: Option<nat>)
    requires ParentsFirst(src) && a <= b <= |src|
    requires entry.Some? ==> entry.value < offset
    ensures (forall i :: a <= i < b ==> ParentIsImage(src, a, i, offset, entry)) <==> DepthFirst(src, a, b)
    decreases b
  {
    if a < b {
      ImagesIffDepthFirst(src, a, b - 1, offset, entry);
      if DepthFirst(src, a, b - 1) {
        OneParent(src, a, b - 1, offset, entry);
      }
    }
  }

  /** The nodes of a tree of `n` that a loop skipping `start` and taking as many as the range is long goes over. */
  function Clip(start: nat, end: nat, n: nat): (r: (nat, nat))
    ensures r.0 <= r.1 <= n && (start <= end <= n ==> r == (start, end)) && (start >= end || start >= n ==> r.0 == r.1)
    ensures start < n < end ==> r == (start, n)
  {
    var a := if start < n then start else n;
    var b := if end < n then end else n;
    (a, if a <= b then b else a)
  }

  /** Refreshing ids by the result of a splice relates copies as it relates originals, exactly for depth-first ranges. */
  lemma ParentsRefreshedIffDepthFirst(nodes: seq<DispatchNode>, before: seq<DispatchNode>, src: seq<DispatchNode>, entry: Option<nat>,
                                      r: ReusedSubtree)
    requires ParentsFirst(src) && Copied(nodes, before, src, r.oldStart, r.oldEnd, entry) && r.newStart == |before|
    requires entry.Some? ==> entry.value < |before|
    ensures DepthFirst(src, r.oldStart, r.oldEnd) <==>
              forall i: nat :: r.oldStart <= i < r.oldEnd ==> IsRefreshed(nodes[r.RefreshNodeId(i)].parent, src, i, entry, r)
  {
    ImagesIffDepthFirst(src, r.oldStart, r.oldEnd, |before|, entry);
    forall i: nat | r.oldStart <= i < r.oldEnd
      ensures IsRefreshed(nodes[r.RefreshNodeId(i)].parent, src, i, entry, r) <==> ParentIsImage(src, r.oldStart, i, |before|, entry)
    {
      assert CopyOk(nodes, src, r.oldStart, |before|, entry, r.RefreshNodeId(i));
    }
  }

  /** `parent` is the refreshed parent of source node `i` where that was copied, else the node active on entry. */
  ghost predicate IsRefreshed(parent: Option<nat>, src: seq<DispatchNode>, i: nat, entry: Option<nat>, r: ReusedSubtree)
    requires ParentsFirst(src) && r.oldStart <= i < r.oldEnd <= |src|
  {
    parent == if ParentInRange(src, r.oldStart, i) then Some(r.RefreshNodeId(src[i].parent.value)) else entry
  }

  /** A root with two children and then a child of the first: what reactivating node 1 and pushing a node builds. */
  ghost function Interleaved(): seq<DispatchNode> {
    [NEW_NODE, NEW_NODE.(parent := Some(0)), NEW_NODE.(parent := Some(0)), NEW_NODE.(parent := Some(1))]
  }

  /** The last node of such a range is copied to the node active on entry instead of to its parent's copy. */
  lemma InterleavedLosesParent(offset: nat, entry: Option<nat>)
    ensures var src := Interleaved();
            ParentsFirst(src) && !DepthFirst(src, 0, 4) && ParentInRange(src, 0, 3) && CopyParent(src, 0, 3, offset, entry) == entry
  {
    var src := Interleaved();
    RangePathsOfInterleaved();
    SourceStackIsRangePath(src, 0, 3);
    OpenStack(src, 0, 3, [0, 2]);
    assert !ParentStillOpen(src, 0, 3);
  }

  lemma RangePathsOfInterleaved()
    ensures var src := Interleaved();
            ParentsFirst(src) && DepthFirst(src, 0, 3) && RangePath(src, 0, 2) == [0, 2]
  {
    var src := Interleaved();
    assert RangePath(src, 0, 0) == [0] && RangePath(src, 0, 1) == [0, 1];
  }

  ghost function Enclosing(nodes: seq<DispatchNode>, parent: Option<nat>): Option<EntityId>
    requires ParentsFirst(nodes)
  {
    if parent.Some? && parent.value < |nodes| then NearestView(nodes, parent.value) else None
  }

  /** `node` carries over everything of `orig` but its place, and its view only if that differs from the enclosing one. */
  ghost predicate CopiedFrom(node: DispatchNode, orig: DispatchNode, parent: Option<nat>, enclosing: Option<EntityId>) {
    node == orig.(parent := parent, viewId := if orig.viewId == enclosing then None else orig.viewId)
  }

  function Emptied(node: DispatchNode): DispatchNode {
    node.(keyListeners := [], actionListeners := [], modifiersChangedListeners := [])
  }

  /** Only the listeners are taken. */
  lemma EmptiedMeans(node: DispatchNode)
    ensures var e := Emptied(node);
            && e.keyListeners == [] && e.actionListeners == [] && e.modifiersChangedListeners == []
            && e.context == node.context && e.focusId == node.focusId && e.viewId == node.viewId && e.parent == node.parent
  {
  }

  /** The node registered last under each focus id, for the nodes from `from` on; similarly for views. */
  ghost function FocusIndex(nodes: seq<DispatchNode>, from: nat, m: map<FocusId, nat>): map<FocusId, nat> {
    if |nodes| <= from then m
    else
      var n := |nodes| - 1;
      var rest := FocusIndex(nodes[..n], from, m);
      if nodes[n].focusId.Some? then rest[nodes[n].focusId.value := n] else rest
  }

  ghost function ViewIndex(nodes: seq<DispatchNode>, from: nat, m: map<EntityId, nat>): map<EntityId, nat> {
    if |nodes| <= from then m
    else
      var n := |nodes| - 1;
      var rest := ViewIndex(nodes[..n], from, m);
      if nodes[n].viewId.Some? then rest[nodes[n].viewId.value := n] else rest
  }

  /** An id leads to the last of the nodes from `from` on that carries it, or where it led before. */
  lemma {:induction false} FocusIndexMeans(nodes: seq<DispatchNode>, from: nat, m: map<FocusId, nat>, id: FocusId, i: nat)
    ensures id in FocusIndex(nodes, from, m) && FocusIndex(nodes, from, m)[id] == i <==>
              || (from <= i < |nodes| && nodes[i].focusId == Some(id) && forall j :: i < j < |nodes| ==> nodes[j].focusId != Some(id))
              || (id in m && m[id] == i && forall j :: from <= j < |nodes| ==> nodes[j].focusId != Some(id))
    decreases |nodes|
  {
    if |nodes| > from {
      var n := |nodes| - 1;
      FocusIndexMeans(nodes[..n], from, m, id, i);
      assert forall j :: 0 <= j < n ==> nodes[..n][j] == nodes[j];
    }
  }

  lemma {:induction false} ViewIndexMeans(nodes: seq<DispatchNode>, from: nat, m: map<EntityId, nat>, id: EntityId, i: nat)
    ensures id in ViewIndex(nodes, from, m) && ViewIndex(nodes, from, m)[id] == i <==>
              || (from <= i < |nodes| && nodes[i].viewId == Some(id) && forall j :: i < j < |nodes| ==> nodes[j].viewId != Some(id))
              || (id in m && m[id] == i && forall j :: from <= j < |nodes| ==> nodes[j].viewId != Some(id))
    decreases |nodes|
  {
    if |nodes| > from {
      var n := |nodes| - 1;
      ViewIndexMeans(nodes[..n], from, m, id, i);
      assert forall j :: 0 <= j < n ==> nodes[..n][j] == nodes[j];
    }
  }

  ghost function Images(stack: seq<nat>, a: nat, offset: nat): (r: seq<nat>)
    requires forall i :: i in stack ==> a <= i
    ensures |r| == |stack|
  {
    if stack == [] then []
    else
      assert stack[|stack| - 1] in stack;
      assert forall i :: i in DropLast(stack) ==> i in stack;
      Images(DropLast(stack), a, offset) + [(stack[|stack| - 1] - a + offset) as nat]
  }

  /** Node `j` is a faithful copy of the source node at the same place in the range. */
  ghost predicate CopyOk(nodes: seq<DispatchNode>, src: seq<DispatchNode>, a: nat, offset: nat, entry: Option<nat>, j: nat)
    requires ParentsFirst(nodes) && offset <= j < |nodes| && j - offset + a < |src|
  {
    var parent := CopyParent(src, a, j - offset + a, offset, entry);
    CopiedFrom(nodes[j], src[j - offset + a], parent, Enclosing(nodes, parent))
  }

  /** The nodes copied so far, each as promised. */
  ghost predicate Copied(nodes: seq<DispatchNode>, before: seq<DispatchNode>, src: seq<DispatchNode>, a: nat, i: nat, entry: Option<nat>) {
    && ParentsFirst(nodes) && a <= i <= |src| && |nodes| == |before| + i - a && nodes[..|before|] == before
    && forall j :: |before| <= j < |nodes| ==> CopyOk(nodes, src, a, |before|, entry, j)
  }

  lemma EnclosingStable(nodes: seq<DispatchNode>, node: DispatchNode, parent: Option<nat>)
    requires ParentsFirst(nodes) && ParentsFirst(nodes + [node]) && (parent.Some? ==> parent.value < |nodes|)
    ensures Enclosing(nodes + [node], parent) == Enclosing(nodes, parent)
  {
    if parent.Some? {
      NearestViewAgrees(nodes, nodes + [node], parent.value);
    }
  }

  lemma CopiedOneMore(nodes: seq<DispatchNode>, before: seq<DispatchNode>, src: seq<DispatchNode>, a: nat, i: nat, entry: Option<nat>,
                      node: DispatchNode)
    requires Copied(nodes, before, src, a, i, entry) && i < |src| && ParentsFirst(nodes + [node])
    requires var parent := CopyParent(src, a, i, |before|, entry);
             (parent.Some? ==> parent.value < |nodes|) && CopiedFrom(node, src[i], parent, Enclosing(nodes, parent))
    ensures Copied(nodes + [node], before, src, a, i + 1, entry)
  {
    var nodes' := nodes + [node];
    forall j | |before| <= j < |nodes'| ensures CopyOk(nodes', src, a, |before|, entry, j) {
      if j < |nodes| {
        assert CopyOk(nodes, src, a, |before|, entry, j);
        assert nodes'[j] == nodes[j];
      }
      assert nodes'[j].parent.Some? ==> nodes'[j].parent.value < j;
      EnclosingStable(nodes, node, nodes'[j].parent);
    }
  }

  /** The source ancestors being copied sit on top of the entry stack as their images. */
  ghost predicate Stacked(nodeStack: seq<nat>, entry: seq<nat>, sourceStack: seq<nat>, a: nat, i: nat, offset: nat) {
    && (forall x :: x in sourceStack ==> a <= x < i)
    && nodeStack == entry + Images(sourceStack, a, offset)
  }

  lemma StackedTop(nodeStack: seq<nat>, entry: seq<nat>, sourceStack: seq<nat>, a: nat, i: nat, offset: nat)
    requires Stacked(nodeStack, entry, sourceStack, a, i, offset)
    ensures Top(nodeStack) == if sourceStack == [] then Top(entry) else ImageOf(Top(sourceStack).value, a, offset)
    ensures sourceStack != [] ==> nodeStack != [] && Stacked(DropLast(nodeStack), entry, DropLast(sourceStack), a, i, offset)
    ensures sourceStack == [] ==> nodeStack == entry
  {
    if sourceStack != [] {
      assert Top(sourceStack).value in sourceStack;
      assert forall x :: x in DropLast(sourceStack) ==> x in sourceStack;
    }
  }

  lemma StackedPush(nodeStack: seq<nat>, entry: seq<nat>, sourceStack: seq<nat>, a: nat, i: nat, offset: nat)
    requires Stacked(nodeStack, entry, sourceStack, a, i, offset) && a <= i
    ensures Stacked(nodeStack + [(i - a + offset) as nat], entry, sourceStack + [i], a, i + 1, offset)
  {
    assert DropLast(sourceStack + [i]) == sourceStack;
  }

  /** Source nodes `a..i` have handed over their listeners, the others are untouched. */
  ghost predicate Drained(nodes: seq<DispatchNode>, src: seq<DispatchNode>, a: nat, i: nat) {
    |nodes| == |src| && forall k :: 0 <= k < |src| ==> nodes[k] == if a <= k < i then Emptied(src[k]) else src[k]
  }

  /** The innermost view on the stack is the view that encloses a child of the active node. */
  lemma EnclosingIsTop(nodes: seq<DispatchNode>, nodeStack: seq<nat>)
    requires ParentsFirst(nodes) && IsRootPath(nodes, nodeStack)
    ensures Enclosing(nodes, Top(nodeStack)) == Top(ViewsAlong(nodes, nodeStack))
  {
    if nodeStack != [] {
      TopView(nodes, nodeStack);
      assert Top(nodeStack).value in nodeStack;
    }
  }

  ghost predicate HasFocus(src: seq<DispatchNode>, a: nat, b: nat, focus: Option<FocusId>)
    requires b <= |src|
  {
    focus.Some? && exists k :: a <= k < b && src[k].focusId == focus
  }

  lemma AlongExtends(nodes: seq<DispatchNode>, nodes': seq<DispatchNode>, path: seq<nat>)
    requires IsRootPath(nodes, path) && |nodes| <= |nodes'| && nodes'[..|nodes|] == nodes
    ensures forall i :: i in path ==> i < |nodes'|
    ensures ContextsAlong(nodes', path) == ContextsAlong(nodes, path) && ViewsAlong(nodes', path) == ViewsAlong(nodes, path)
  {
    assert forall i :: 0 <= i < |nodes| ==> nodes'[i] == nodes'[..|nodes|][i];
    AlongAgrees(nodes, nodes', path);
  }

  /** Everything the copy loop maintains about the two trees after source nodes `a..i`. */
  ghost predicate CopyState(nodes: seq<DispatchNode>, source: seq<DispatchNode>, nodeStack: seq<nat>, sourceStack: seq<nat>,
                            before: seq<DispatchNode>, src: seq<DispatchNode>, a: nat, i: nat, entry: seq<nat>) {
    && Copied(nodes, before, src, a, i, Top(entry)) && Drained(source, src, a, i)
    && Stacked(nodeStack, entry, sourceStack, a, i, |before|) && sourceStack == SourceStack(src, a, i)
  }

  ghost predicate Indexed(nodes: seq<DispatchNode>, from: nat, focusIds: map<FocusId, nat>, viewIds: map<EntityId, nat>,
                          focusIds': map<FocusId, nat>, viewIds': map<EntityId, nat>) {
    focusIds' == FocusIndex(nodes, from, focusIds) && viewIds' == ViewIndex(nodes, from, viewIds)
  }

  lemma StateStarts(nodes: seq<DispatchNode>, src: seq<DispatchNode>, entry: seq<nat>, a: nat)
    requires ParentsFirst(nodes) && a <= |src|
    ensures CopyState(nodes, src, entry, [], nodes, src, a, a, entry)
  {
    assert entry + [] == entry;
  }

  lemma CopiedAdvances(nodes: seq<DispatchNode>, nodeStack: seq<nat>, rest: seq<nat>, before: seq<DispatchNode>,
                       src: seq<DispatchNode>, a: nat, i: nat, entry: seq<nat>, node: DispatchNode)
    requires Copied(nodes, before, src, a, i, Top(entry)) && i < |src| && ParentsFirst(nodes + [node])
    requires Stacked(nodeStack, entry, rest, a, i, |before|) && rest == PopTo(SourceStack(src, a, i), src[i].parent)
    requires forall k :: k in entry ==> k < |before|
    requires CopiedFrom(node, src[i], Top(nodeStack), Enclosing(nodes, Top(nodeStack)))
    ensures Copied(nodes + [node], before, src, a, i + 1, Top(entry))
  {
    StackedTop(nodeStack, entry, rest, a, i, |before|);
    assert Top(entry).Some? ==> Top(entry).value in entry;
    assert (nodes + [node])[|nodes|] == node;
    CopiedOneMore(nodes, before, src, a, i, Top(entry), node);
  }

  lemma StateAdvances(nodes: seq<DispatchNode>, source: seq<DispatchNode>, nodeStack: seq<nat>, rest: seq<nat>,
                      before: seq<DispatchNode>, src: seq<DispatchNode>, a: nat, i: nat, entry: seq<nat>, node: DispatchNode)
    requires Copied(nodes, before, src, a, i, Top(entry)) && Drained(source, src, a, i) && i < |src|
    requires Stacked(nodeStack, entry, rest, a, i, |before|) && rest == PopTo(SourceStack(src, a, i), src[i].parent)
    requires IsRootPath(before, entry) && ParentsFirst(nodes + [node])
    requires CopiedFrom(node, src[i], Top(nodeStack), Enclosing(nodes, Top(nodeStack)))
    ensures CopyState(nodes + [node], source[i := Emptied(src[i])], nodeStack + [|nodes|], rest + [i],
                      before, src, a, i + 1, entry)
  {
    CopiedAdvances(nodes, nodeStack, rest, before, src, a, i, entry, node);
    StackedPush(nodeStack, entry, rest, a, i, |before|);
    DrainOneMore(source, src, a, i);
  }

  lemma StillSource(nodes: seq<DispatchNode>, src: seq<DispatchNode>, a: nat, i: nat)
    requires Drained(nodes, src, a, i) && i < |src|
    ensures |nodes| == |src| && nodes[i] == src[i]
  {
  }

  lemma DrainOneMore(source: seq<DispatchNode>, src: seq<DispatchNode>, a: nat, i: nat)
    requires Drained(source, src, a, i) && a <= i < |src|
    ensures Drained(source[i := Emptied(src[i])], src, a, i + 1)
  {
  }

  lemma IndexedOneMore(nodes: seq<DispatchNode>, node: DispatchNode, from: nat, focusIds: map<FocusId, nat>, viewIds: map<EntityId, nat>)
    requires from <= |nodes|
    ensures var m := FocusIndex(nodes, from, focusIds);
            FocusIndex(nodes + [node], from, focusIds) == if node.focusId.Some? then m[node.focusId.value := |nodes|] else m
    ensures var m := ViewIndex(nodes, from, viewIds);
            ViewIndex(nodes + [node], from, viewIds) == if node.viewId.Some? then m[node.viewId.value := |nodes|] else m
  {
    assert (nodes + [node])[..|nodes|] == nodes;
  }

  lemma FocusOneMore(src: seq<DispatchNode>, a: nat, i: nat, focus: Option<FocusId>)
    requires a <= i < |src|
    ensures HasFocus(src, a, i + 1, focus) <==> HasFocus(src, a, i, focus) || (src[i].focusId.Some? && src[i].focusId == focus)
  {
  }
}
