/** The dispatch tree with its three stacks, which must always describe the same root path. */
module DispatchTree {
  import opened Wrappers
  import opened DispatchPaths
  import opened SubtreeReuse

  /** An index refers to nodes that exist. */
  ghost predicate Within(index: map<nat, nat>, n: nat) {
    forall id :: id in index ==> index[id] < n
  }

  class DispatchTree {
    var nodeStack: seq<nat>
    var contextStack: seq<KeyContext>
    var viewStack: seq<EntityId>
    var nodes: seq<DispatchNode>
    var focusableNodeIds: map<FocusId, nat>
    var viewNodeIds: map<EntityId, nat>

    ghost predicate Valid()
      reads this
    {
      InStep(nodes, nodeStack, contextStack, viewStack) && Within(focusableNodeIds, |nodes|) && Within(viewNodeIds, |nodes|)
    }

    constructor ()
      ensures Valid() && nodes == [] && nodeStack == [] && focusableNodeIds == map[] && viewNodeIds == map[]
    {
      nodeStack, contextStack, viewStack, nodes := [], [], [], [];
      focusableNodeIds, viewNodeIds := map[], map[];
    }

    method Clear()
      modifies this
      ensures Valid() && nodes == [] && nodeStack == [] && focusableNodeIds == map[] && viewNodeIds == map[]
    {
      nodeStack, contextStack, viewStack, nodes := [], [], [], [];
      focusableNodeIds, viewNodeIds := map[], map[];
    }

    method PushNode() returns (nodeId: nat)
      requires Valid()
      modifies this`nodes, this`nodeStack
      ensures Valid() && nodeId == |old(nodes)| && nodeStack == old(nodeStack) + [nodeId]
      ensures nodes == old(nodes) + [NEW_NODE.(parent := Top(old(nodeStack)))]
      ensures var node := nodes[nodeId];
              && node.keyListeners == [] && node.actionListeners == [] && node.modifiersChangedListeners == []
              && node.context == None && node.focusId == None && node.viewId == None
              && node.parent == if old(nodeStack) == [] then None else Some(old(nodeStack)[|old(nodeStack)| - 1])
    {
      PushKeepsStep(nodes, nodeStack, contextStack, viewStack);
      var parent := Top(nodeStack);
      nodeId := |nodes|;
      nodes := nodes + [NEW_NODE.(parent := parent)];
      nodeStack := nodeStack + [nodeId];
    }

    method PopNode()
      requires Valid() && nodeStack != []
      modifies this`nodeStack, this`contextStack, this`viewStack
      ensures Valid() && nodeStack == DropLast(old(nodeStack))
    {
      PopKeepsStep(nodes, nodeStack, contextStack, viewStack);
      var node := nodes[nodeStack[|nodeStack| - 1]];
      contextStack := PopIf(contextStack, node.context.Some?);
      viewStack := PopIf(viewStack, node.viewId.Some?);
      nodeStack := DropLast(nodeStack);
    }

    /** Makes a node active; popping as little as possible agrees with rebuilding from the root. */
    method SetActiveNode(nodeId: nat)
      requires Valid() && nodeId < |nodes|
      modifies this`nodeStack, this`contextStack, this`viewStack
      ensures Valid() && nodeStack == PathTo(nodes, nodeId)
      ensures contextStack == ContextsAlong(nodes, PathTo(nodes, nodeId))
      ensures viewStack == ViewsAlong(nodes, PathTo(nodes, nodeId))
    {
      var parent := nodes[nodeId].parent;
      while Top(nodeStack) != parent && nodeStack != []
        invariant Valid()
        decreases |nodeStack|
      {
        PopNode();
      }
      if Top(nodeStack) == parent {
        StepDown(nodeId);
      } else {
        RebuildStacks(nodeId);
      }
    }

    /** Goes from the active node, or from no node at all, to one of its children. */
    method StepDown(nodeId: nat)
      requires Valid() && nodeId < |nodes| && Top(nodeStack) == nodes[nodeId].parent
      modifies this`nodeStack, this`contextStack, this`viewStack
      ensures Valid() && nodeStack == PathTo(nodes, nodeId)
    {
      ReactivateKeepsStep(nodes, nodeStack, contextStack, viewStack, nodeId);
      nodeStack := nodeStack + [nodeId];
      if nodes[nodeId].viewId.Some? {
        viewStack := viewStack + [nodes[nodeId].viewId.value];
      }
      if nodes[nodeId].context.Some? {
        contextStack := contextStack + [nodes[nodeId].context.value];
      }
    }

    /** Rebuilds the three stacks by walking up from the node and reversing. */
    method RebuildStacks(nodeId: nat)
      requires Valid() && nodeId < |nodes| && nodeStack == [] && contextStack == [] && viewStack == []
      modifies this`nodeStack, this`contextStack, this`viewStack
      ensures Valid() && nodeStack == PathTo(nodes, nodeId)
    {
      ghost var path := PathOrEmpty(nodes, Some(nodeId));
      var current: Option<nat> := Some(nodeId);
      while current.Some?
        invariant current.Some? ==> current.value < |nodes|
        invariant Collected(nodes, path, PathOrEmpty(nodes, current), nodeStack, contextStack, viewStack)
        decreases if current.Some? then current.value + 1 else 0
      {
        current := CollectAbove(path, current.value);
      }
      contextStack := Reverse(contextStack);
      viewStack := Reverse(viewStack);
      nodeStack := Reverse(nodeStack);
      assert path == nodeStack;
    }

    method CollectAbove(ghost path: seq<nat>, i: nat) returns (parent: Option<nat>)
      requires ParentsFirst(nodes) && i < |nodes|
      requires Collected(nodes, path, PathOrEmpty(nodes, Some(i)), nodeStack, contextStack, viewStack)
      modifies this`nodeStack, this`contextStack, this`viewStack
      ensures parent == nodes[i].parent
      ensures Collected(nodes, path, PathOrEmpty(nodes, parent), nodeStack, contextStack, viewStack)
    {
      CollectOne(nodes, path, PathOrEmpty(nodes, nodes[i].parent), i, nodeStack, contextStack, viewStack);
      assert contextStack + [] == contextStack && viewStack + [] == viewStack;
      if nodes[i].context.Some? {
        contextStack := contextStack + [nodes[i].context.value];
      }
      if nodes[i].viewId.Some? {
        viewStack := viewStack + [nodes[i].viewId.value];
      }
      nodeStack := nodeStack + [i];
      parent := nodes[i].parent;
    }

    /** Keeps the stacks in step exactly when the active node had no context yet. */
    method SetKeyContext(context: KeyContext)
      requires Valid() && nodeStack != []
      modifies this`nodes, this`contextStack
      ensures contextStack == old(contextStack) + [context]
      ensures var a := nodeStack[|nodeStack| - 1]; nodes == old(nodes)[a := old(nodes)[a].(context := Some(context))]
      ensures Valid() <==> old(nodes)[nodeStack[|nodeStack| - 1]].context.None?
    {
      var a := nodeStack[|nodeStack| - 1];
      ActiveNodeChanges(nodes, nodeStack, contextStack, viewStack, nodes[a].(context := Some(context)));
      nodes := nodes[a := nodes[a].(context := Some(context))];
      contextStack := contextStack + [context];
    }

    method SetFocusId(focusId: FocusId)
      requires Valid() && nodeStack != []
      modifies this`nodes, this`focusableNodeIds
      ensures Valid() && focusableNodeIds == old(focusableNodeIds)[focusId := nodeStack[|nodeStack| - 1]]
      ensures var a := nodeStack[|nodeStack| - 1]; nodes == old(nodes)[a := old(nodes)[a].(focusId := Some(focusId))]
    {
      var a := nodeStack[|nodeStack| - 1];
      ActiveNodeChanges(nodes, nodeStack, contextStack, viewStack, nodes[a].(focusId := Some(focusId)));
      nodes := nodes[a := nodes[a].(focusId := Some(focusId))];
      focusableNodeIds := focusableNodeIds[focusId := a];
    }

    /** A view equal to the innermost one is not recorded again; otherwise as for contexts. */
    method SetViewId(viewId: EntityId)
      requires Valid() && nodeStack != []
      modifies this`nodes, this`viewNodeIds, this`viewStack
      ensures var a := nodeStack[|nodeStack| - 1];
              if Top(old(viewStack)) == Some(viewId) then
                nodes == old(nodes) && viewNodeIds == old(viewNodeIds) && viewStack == old(viewStack)
              else
                && nodes == old(nodes)[a := old(nodes)[a].(viewId := Some(viewId))]
                && viewNodeIds == old(viewNodeIds)[viewId := a] && viewStack == old(viewStack) + [viewId]
      ensures Valid() <==> Top(old(viewStack)) == Some(viewId) || old(nodes)[nodeStack[|nodeStack| - 1]].viewId.None?
    {
      if Top(viewStack) != Some(viewId) {
        var a := nodeStack[|nodeStack| - 1];
        ActiveNodeChanges(nodes, nodeStack, contextStack, viewStack, nodes[a].(viewId := Some(viewId)));
        nodes := nodes[a := nodes[a].(viewId := Some(viewId))];
        viewNodeIds := viewNodeIds[viewId := a];
        viewStack := viewStack + [viewId];
      }
    }

    /** The path from the root to a node, by walking up and reversing. */
    method DispatchPath(target: nat) returns (path: seq<nat>)
      requires ParentsFirst(nodes)
      ensures path == if target < |nodes| then PathTo(nodes, target) else [target]
    {
      path := [];
      var current: Option<nat> := Some(target);
      while current.Some?
        invariant Remains(PathFrom(nodes, Some(target)), PathFrom(nodes, current), path)
        decreases if current.Some? then current.value + 1 else 0
      {
        var i := current.value;
        WalkUpOne(nodes, PathFrom(nodes, Some(target)), i, path);
        path := path + [i];
        current := ParentOf(nodes, i);
      }
      path := Reverse(path);
    }

    /** Whether the node focused by `child` lies at or below the one focused by `parent`. */
    method FocusContains(parent: FocusId, child: FocusId) returns (contains: bool)
      requires ParentsFirst(nodes) && Within(focusableNodeIds, |nodes|)
      ensures contains <==>
                || parent == child
                || (parent in focusableNodeIds && child in focusableNodeIds
                    && focusableNodeIds[parent] in PathTo(nodes, focusableNodeIds[child]))
    {
      if parent == child {
        return true;
      }
      if parent in focusableNodeIds {
        var target := focusableNodeIds[parent];
        var current: Option<nat> := if child in focusableNodeIds then Some(focusableNodeIds[child]) else None;
        while current.Some?
          invariant current.Some? ==> current.value < |nodes|
          invariant child in focusableNodeIds ==>
                      (target in PathTo(nodes, focusableNodeIds[child]) <==> target in PathOrEmpty(nodes, current))
          invariant child !in focusableNodeIds ==> current == None
          decreases if current.Some? then current.value + 1 else 0
        {
          if current.value == target {
            return true;
          }
          current := nodes[current.value].parent;
        }
      }
      contains := false;
    }

    /** Copies one node of the source below the active node and takes its listeners. */
    method MoveNode(source: DispatchTree, i: nat)
      requires Valid() && source != this && i < |source.nodes|
      modifies this, source`nodes
      ensures Valid() && nodeStack == old(nodeStack) + [|old(nodes)|]
      ensures |nodes| == |old(nodes)| + 1 && nodes == old(nodes) + [nodes[|old(nodes)|]]
      ensures CopiedFrom(nodes[|old(nodes)|], old(source.nodes[i]), Top(old(nodeStack)), Top(old(viewStack)))
      ensures source.nodes == old(source.nodes)[i := Emptied(old(source.nodes[i]))]
      ensures focusableNodeIds == var f := nodes[|old(nodes)|].focusId;
                if f.Some? then old(focusableNodeIds)[f.value := |old(nodes)|] else old(focusableNodeIds)
      ensures viewNodeIds == var v := nodes[|old(nodes)|].viewId;
                if v.Some? then old(viewNodeIds)[v.value := |old(nodes)|] else old(viewNodeIds)
    {
      var node := source.nodes[i];
      ghost var before := nodes;
      var _ := PushNode();
      CarryOver(node, before);
      SetListeners(node, before);
      source.nodes := source.nodes[i := Emptied(node)];
    }

    /** Sets context, focus and view of the bare active node from another node. */
    method CarryOver(node: DispatchNode, ghost before: seq<DispatchNode>)
      requires Valid() && nodeStack != [] && nodeStack[|nodeStack| - 1] == |before| && |nodes| == |before| + 1
      requires nodes == before + [NEW_NODE.(parent := nodes[|before|].parent)]
      modifies this`nodes, this`contextStack, this`viewStack, this`focusableNodeIds, this`viewNodeIds
      ensures Valid() && |nodes| == |before| + 1
      ensures var view := if node.viewId == Top(old(viewStack)) then None else node.viewId;
              && nodes == before + [old(nodes)[|before|].(context := node.context, focusId := node.focusId, viewId := view)]
              && viewNodeIds == if view.Some? then old(viewNodeIds)[view.value := |before|] else old(viewNodeIds)
      ensures focusableNodeIds == if node.focusId.Some? then old(focusableNodeIds)[node.focusId.value := |before|] else old(focusableNodeIds)
    {
      ghost var n := |before|;
      ghost var bare := nodes[n];
      if node.context.Some? {
        SetKeyContext(node.context.value);
      }
      assert nodes == before + [bare.(context := node.context)];
      if node.focusId.Some? {
        SetFocusId(node.focusId.value);
      }
      assert nodes == before + [bare.(context := node.context, focusId := node.focusId)];
      if node.viewId.Some? {
        SetViewId(node.viewId.value);
      }
    }

    method SetListeners(node: DispatchNode, ghost before: seq<DispatchNode>)
      requires Valid() && nodeStack != [] && nodeStack[|nodeStack| - 1] == |before|
      requires |nodes| == |before| + 1 && nodes[..|before|] == before
      modifies this`nodes
      ensures Valid()
      ensures nodes == before + [old(nodes)[|before|].(keyListeners := node.keyListeners,
                actionListeners := node.actionListeners, modifiersChangedListeners := node.modifiersChangedListeners)]
    {
      var a := nodeStack[|nodeStack| - 1];
      var target := nodes[a].(keyListeners := node.keyListeners, actionListeners := node.actionListeners,
                              modifiersChangedListeners := node.modifiersChangedListeners);
      ActiveNodeChanges(nodes, nodeStack, contextStack, viewStack, target);
      ActiveNodeChanges(nodes, nodeStack, contextStack, viewStack, nodes[a]);
      assert nodes[a := nodes[a]] == nodes;
      nodes := nodes[a := target];
    }

    /**
      * Moves a range of the source's nodes below the active node and leaves all stacks as they were on entry. What lies
      * beyond the end of the source is ignored, but still counted in the new range.
      */
    method ReuseSubtree(oldStart: nat, oldEnd: nat, source: DispatchTree, focus: Option<FocusId>) returns (reused: ReusedSubtree)
      requires Valid() && source != this
      modifies this, source`nodes
      ensures Valid() && nodeStack == old(nodeStack) && contextStack == old(contextStack) && viewStack == old(viewStack)
      ensures var (a, b) := Clip(oldStart, oldEnd, |old(source.nodes)|);
              && Copied(nodes, old(nodes), old(source.nodes), a, b, Top(old(nodeStack)))
              && Drained(source.nodes, old(source.nodes), a, b)
              && (reused.containsFocus <==> HasFocus(old(source.nodes), a, b, focus))
      ensures focusableNodeIds == FocusIndex(nodes, |old(nodes)|, old(focusableNodeIds))
      ensures viewNodeIds == ViewIndex(nodes, |old(nodes)|, old(viewNodeIds))
      ensures reused.oldStart == oldStart && reused.oldEnd == oldEnd && reused.newStart == |old(nodes)|
      ensures reused.newEnd == |old(nodes)| + if oldStart <= oldEnd then oldEnd - oldStart else 0
    {
      ghost var before, entry := nodes, nodeStack;
      var newStart, newEnd := |nodes|, |nodes| + if oldStart <= oldEnd then oldEnd - oldStart else 0;
      var (a, b) := Clip(oldStart, oldEnd, |source.nodes|);
      var sourceStack, containsFocus := CopyRange(a, b, source, focus);
      while sourceStack != []
        invariant Valid() && Stacked(nodeStack, entry, sourceStack, a, b, |before|)
        decreases |sourceStack|
        modifies this`nodeStack, this`contextStack, this`viewStack
      {
        StackedTop(nodeStack, entry, sourceStack, a, b, |before|);
        sourceStack := DropLast(sourceStack);
        PopNode();
      }
      StackedTop(nodeStack, entry, [], a, b, |before|);
      AlongExtends(before, nodes, entry);
      reused := ReusedSubtree(oldStart, oldEnd, newStart, newEnd, containsFocus);
    }

    method CopyRange(a: nat, b: nat, source: DispatchTree, focus: Option<FocusId>) returns (sourceStack: seq<nat>, containsFocus: bool)
      requires Valid() && source != this && a <= b <= |source.nodes|
      modifies this, source`nodes
      ensures Valid() && Copied(nodes, old(nodes), old(source.nodes), a, b, Top(old(nodeStack)))
      ensures Drained(source.nodes, old(source.nodes), a, b)
      ensures Stacked(nodeStack, old(nodeStack), sourceStack, a, b, |old(nodes)|)
      ensures focusableNodeIds == FocusIndex(nodes, |old(nodes)|, old(focusableNodeIds))
      ensures viewNodeIds == ViewIndex(nodes, |old(nodes)|, old(viewNodeIds))
      ensures containsFocus <==> HasFocus(old(source.nodes), a, b, focus)
    {
      ghost var before, src, entry := nodes, source.nodes, nodeStack;
      containsFocus, sourceStack := false, [];
      StateStarts(nodes, source.nodes, nodeStack, a);
      for i := a to b
        invariant Valid() && CopyState(nodes, source.nodes, nodeStack, sourceStack, before, src, a, i, entry)
        invariant Indexed(nodes, |before|, old(focusableNodeIds), old(viewNodeIds), focusableNodeIds, viewNodeIds)
        invariant containsFocus <==> HasFocus(src, a, i, focus)
      {
        FocusOneMore(src, a, i, focus);
        StillSource(source.nodes, src, a, i);
        containsFocus := containsFocus || (source.nodes[i].focusId.Some? && source.nodes[i].focusId == focus);
        sourceStack := ReuseNode(source, i, sourceStack, a, src, before, entry, old(focusableNodeIds), old(viewNodeIds));
      }
    }

    /** Copies source node `i` after popping back to its parent, if that is among the copied ancestors. */
    method ReuseNode(source: DispatchTree, i: nat, stack: seq<nat>, ghost a: nat, ghost src: seq<DispatchNode>,
                     ghost before: seq<DispatchNode>, ghost entry: seq<nat>,
                     ghost focusIds: map<FocusId, nat>, ghost viewIds: map<EntityId, nat>) returns (rest: seq<nat>)
      requires Valid() && source != this && i < |src| && IsRootPath(before, entry)
      requires CopyState(nodes, source.nodes, nodeStack, stack, before, src, a, i, entry)
      requires Indexed(nodes, |before|, focusIds, viewIds, focusableNodeIds, viewNodeIds)
      modifies this, source`nodes
      ensures Valid() && CopyState(nodes, source.nodes, nodeStack, rest, before, src, a, i + 1, entry)
      ensures Indexed(nodes, |before|, focusIds, viewIds, focusableNodeIds, viewNodeIds)
    {
      ghost var copies := nodes;
      rest := PopAncestors(stack, source.nodes[i].parent, a, i, |before|, entry);
      EnclosingIsTop(nodes, nodeStack);
      ghost var drained, popped := source.nodes, nodeStack;
      MoveNode(source, i);
      StateAdvances(copies, drained, popped, rest, before, src, a, i, entry, nodes[|copies|]);
      IndexedOneMore(copies, nodes[|copies|], |before|, focusIds, viewIds);
      rest := rest + [i];
    }

    /** Pops until the parent is on top, or the copied ancestors are used up. */
    method PopAncestors(stack: seq<nat>, parent: Option<nat>, ghost a: nat, ghost i: nat, ghost offset: nat, ghost entry: seq<nat>)
      returns (rest: seq<nat>)
      requires Valid() && Stacked(nodeStack, entry, stack, a, i, offset)
      modifies this`nodeStack, this`contextStack, this`viewStack
      ensures Valid() && Stacked(nodeStack, entry, rest, a, i, offset)
      ensures rest == PopTo(stack, parent)
    {
      rest := stack;
      while rest != [] && parent != Top(rest)
        invariant Valid() && Stacked(nodeStack, entry, rest, a, i, offset)
        invariant PopTo(rest, parent) == PopTo(stack, parent)
        decreases |rest|
      {
        StackedTop(nodeStack, entry, rest, a, i, offset);
        rest := DropLast(rest);
        PopNode();
      }
    }
  }
}
