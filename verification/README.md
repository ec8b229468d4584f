# Lucie: verified cores

This project models, in Dafny, the engines of the Lucie user-interface library whose
fast or stateful code has a simple meaning, and proves that the two agree.

| engine | Dafny files | main result |
|---|---|---|
| paint order (`BoundsTree`) | `Geometry`, `PaintOrder`, `BoundsForest`, `BoundsRepair`, `BoundsSearch`, `BoundsTree` | the pruned R-tree assigns exactly the order a linear scan assigns, and that order is the longest chain of overlapping rectangles |
| dispatch tree | `DispatchPaths`, `SubtreeReuse`, `DispatchTree` | the node, context and view stacks always describe one root path; splicing a subtree yields a shifted copy |
| key dispatch and keymap | `KeyBindings`, `Precedence`, `Keymap`, `KeyDispatch` | precedence and disabling without the loops; no keystroke is lost or reordered |
| highlights | `Highlights` | the lazy endpoint sweep is pointwise overlay |
| subscriptions | `Subscriptions`, `SlotHistory`, `SubscriberSet` | what a notification pass leaves registered, whatever the callbacks insert, drop, activate and remove |
| effect loop and invalidation index | `Effects`, `Audiences`, `App` | run to completion, first in first out, each notification queued once; every effect calls exactly its registered audience; the two index maps mirror each other |
| hinting cache | `HintCache` | each list holds the most recently requested keys, and what is returned is right in every run |
| arena | `Arena` | aligned, disjoint allocations; handles end with their generation |
| colour | `Color` | RGB to HSL and back is the identity |
| refinements and cascades | `Refinement` | composition, superset and difference laws at any nesting depth |
| truncation, line lookup | `Truncation` | exactly when what is painted fits |

Coordinates, widths and colour channels are real numbers. Objects whose methods update
their fields are classes; a `Vec`, a map or a set that the original mutates is a field of
type `seq`, `map` or `set`. `dafny verify dfyconfig.toml` checks the project.

Points worth knowing:

* Every order the tree hands out is at most the number of insertions, so the 32-bit
  order cannot wrap before 2^32 of them. The comment above `BoundsTree` speaks of a branching factor of 4;
  the constant is 12, and 12 is modelled. Rectangles may have any extent, also negative.
* `set_key_context` and `set_view_id` push unconditionally. The stacks stay in step
  exactly when the active node had no context (or view) yet; the contracts say so as an equivalence,
  and `SecondContextLosesStep` and `SecondViewLosesStep` are instances.
* A subtree splice keeps parents exactly for depth-first ranges (`InterleavedLosesParent` is
  an instance of the other kind). A copied node drops its view when the view enclosing it in
  the new tree is the same. A range reaching past the end of the source tree copies what there
  is, but the new range it reports is as long as the old one.
* A subscription dropped during a pass is forgotten if something was inserted under the
  same key earlier in that pass: the code records a drop only while the key's slot is
  taken. `DropsCountIffEarly` is the exact condition, `LateDropIsLost` an instance, and
  `DropsCountIfLeftAlone` a condition on the callbacks alone. Likewise removing a key in the
  middle of its own pass does not reach the subscribers being visited (`RemovalSparesVisited`).
* The effect loop never starts a pass within a pass: the subscribers of its four registries are
  called in the flush only, and outside shutdown a flush is not entered again before it returns.
  A pass started by a callback of another pass over the same registry would make that pass
  forget the drops it had remembered (`InnerPassForgetsDrops`).
* After the font library failed to reconfigure an instance, the cache goes on as if the spoiled
  key had been requested, unless a newer entry is already for that key; then the list
  has two entries for it (`EveryFullListCanBeSpoiled`). The cache does not record that an instance is
  spoiled: a later request for what it appears to be for is a hit and returns it. As long as no
  reconfiguration fails every instance returned is configured for its key.
* End truncation tests the width rounded down: a line too wide by less than one unit is
  painted whole (`FractionIsNotCut`). One that overflows by that test fits after the cut exactly when
  the affix alone is below the limit, and is not cut otherwise (`WideAffixCutsNothing`).
* Start truncation fits exactly when the last item fits beside the affix. It paints the affix in
  front even when nothing is skipped, and cuts a line that would fit whole if line and
  affix together do not (`FittingLineIsCut`).
* A difference (`subtract`) cannot express that an optional field became absent;
  `DifferenceRebuilds` says exactly when it rebuilds the structure.

## Model

| member | source | states |
|---|---|---|
| Geometry.UnionIsLeastCover | crates/lucie-common/src/geometry.rs:1071-1075 | the union covers both rectangles and lies inside every rectangle that does, whatever the extents |
| Geometry.CoverMeetsMore | crates/lucie-common/src/bounds_tree.rs:158-161 | skipping a node whose rectangle misses the query skips no descendant that meets it |
| Geometry.IntersectsIffShareInterior | crates/lucie-common/src/geometry.rs:860-865 | for rectangles of positive extent, intersecting is sharing an interior point |
| Geometry.IntersectsIffOriginInSum | crates/lucie-common/src/geometry.rs:860-865 | for any extents: intersecting is one origin lying inside the other rectangle grown by the extent of the first, and is symmetric |
| PaintOrder.MaxHitIsMax | crates/lucie-common/src/bounds_tree.rs:420-424 | the linear scan yields the largest order among the rectangles met, 0 if none, and only that |
| PaintOrder.OrdersOfPrefix | crates/lucie-common/src/bounds_tree.rs:106-126 | later insertions never change an order already given |
| PaintOrder.LaterIsAbove | crates/lucie-common/src/bounds_tree.rs:106-114 | of two intersecting rectangles the later one gets the strictly larger order |
| PaintOrder.OneBelowIsWitnessed | crates/lucie-common/src/bounds_tree.rs:106-114 | an order k > 1 has an earlier intersecting rectangle of order k - 1 |
| PaintOrder.OrderIsLongestChain | crates/lucie-common/src/bounds_tree.rs:106-126 | the order of a rectangle is the length of the longest chain of successively inserted, consecutively intersecting rectangles ending at it |
| PaintOrder.OrderAtMostInsertCount | crates/lucie-common/src/bounds_tree.rs:110-126 | orders lie between 1 and the number of insertions so far |
| BoundsForest.ReachedExactlyOnce | crates/lucie-common/src/bounds_tree.rs:28-39 | every stored node is reached from the root by exactly one walk, and walks neither repeat a node nor exceed the vector's length |
| BoundsForest.SummaryOfSubtree | crates/lucie-common/src/bounds_tree.rs:43-53 | a node covers all its descendants, dominates their orders, and its `max_order` is that of a leaf below it |
| BoundsForest.AttachKeepsLinks | crates/lucie-common/src/bounds_tree.rs:253-266 | adding a leaf to a node with room keeps the tree shape |
| BoundsForest.SplitKeepsLinks | crates/lucie-common/src/bounds_tree.rs:272-300 | pairing a leaf with the new one below a fresh internal node keeps the tree shape |
| BoundsRepair.AttachKeepsOrder | crates/lucie-common/src/bounds_tree.rs:253-270 | with room, the node is in order again, largest child last, and only its ancestors are left to repair |
| BoundsRepair.SplitKeepsOrder | crates/lucie-common/src/bounds_tree.rs:272-305 | in a full node, only the path is left to repair and a new largest order is already last |
| BoundsRepair.InnerNodeMeans | crates/lucie-common/src/bounds_tree.rs:272-295 | the node made of two leaves is no larger than they need, carries the larger order and has that leaf last |
| BoundsRepair.RepairStep | crates/lucie-common/src/bounds_tree.rs:314-336 | one step up the path puts that node in order, keeping links, path and all other nodes |
| BoundsSearch.NothingMissed | crates/lucie-common/src/bounds_tree.rs:144-176 | once the stack is empty every node was visited or cannot beat the result |
| BoundsSearch.Advance | crates/lucie-common/src/bounds_tree.rs:150-176 | one turn of the search drops nothing that could matter, revisits nothing and shrinks the unvisited part |
| BoundsSearch.LastChildFirst | crates/lucie-common/src/bounds_tree.rs:166-172 | the last child, one of largest order, is popped first |
| BoundsTree.BoundsTree.Insert | crates/lucie-common/src/bounds_tree.rs:110-126 | returns 1 plus what the linear scan finds among all earlier rectangles and keeps the whole invariant, for every run |
| BoundsTree.BoundsTree.FindMaxOrdering | crates/lucie-common/src/bounds_tree.rs:129-178 | fast path, order pruning and spatial pruning together equal the linear scan |
| BoundsTree.BoundsTree.SearchTurn | crates/lucie-common/src/bounds_tree.rs:150-176 | popping, pruning, counting or expanding one node keeps the search invariant and progresses |
| BoundsTree.BoundsTree.InsertLeaf | crates/lucie-common/src/bounds_tree.rs:182-339 | every insertion branch keeps the tree well formed and its leaves exactly the inserted rectangles |
| BoundsTree.BoundsTree.Descend | crates/lucie-common/src/bounds_tree.rs:222-312 | walks from the root by first least enlargement to a node whose cheapest child is a leaf |
| BoundsTree.BoundsTree.CheapestChild | crates/lucie-common/src/bounds_tree.rs:235-246 | the first child whose union with the new rectangle has least half perimeter |
| BoundsTree.CostIsSpan | crates/lucie-common/src/bounds_tree.rs:229-241 | the cost is the distance between the outermost edges of both rectangles, across plus down |
| BoundsTree.BoundsTree.HangBelow | crates/lucie-common/src/bounds_tree.rs:249-307 | adds to the node with room or splits the leaf, leaving only the path to repair |
| BoundsTree.BoundsTree.SplitRoot | crates/lucie-common/src/bounds_tree.rs:196-219 | a leaf root and the new leaf become the children of a well-formed new root |
| BoundsTree.BoundsTree.Propagate | crates/lucie-common/src/bounds_tree.rs:314-336 | walking back up restores the invariant and touches no leaf |
| DispatchPaths.RootPathIsPathTo | crates/lucie/src/key_dispatch.rs:489-498 | a parent-by-parent path from a root is the dispatch path of its last node |
| DispatchPaths.PathToIsRootPath | crates/lucie/src/key_dispatch.rs:489-498 | the dispatch path of a node runs parent by parent from a root |
| DispatchPaths.PopKeepsStep | crates/lucie/src/key_dispatch.rs:227-236 | popping the top node, its context and its view keeps the three stacks in step |
| DispatchTree.DispatchTree.PushNode | crates/lucie/src/key_dispatch.rs:161-168 | the new node is a child of the active one and the stacks stay in step |
| DispatchTree.DispatchTree.PopNode | crates/lucie/src/key_dispatch.rs:227-236 | the stacks stay in step and lose the top node |
| DispatchTree.DispatchTree.SetActiveNode | crates/lucie/src/key_dispatch.rs:170-205 | afterwards the node stack is the dispatch path and the other stacks are the contexts and views along it, from any reachable state |
| DispatchTree.DispatchTree.SetKeyContext | crates/lucie/src/key_dispatch.rs:207-210 | records the context on the active node; the stacks stay in step iff the node had none |
| DispatchPaths.SecondContextLosesStep | crates/lucie/src/key_dispatch.rs:207-210 | an instance where a second context breaks the stacks |
| DispatchPaths.SecondViewLosesStep | crates/lucie/src/key_dispatch.rs:218-225 | an instance where a second view breaks the stacks |
| DispatchTree.DispatchTree.SetFocusId | crates/lucie/src/key_dispatch.rs:212-216 | records the focus id on the active node and in the index |
| DispatchTree.DispatchTree.SetViewId | crates/lucie/src/key_dispatch.rs:218-225 | records a view different from the innermost one; the stacks stay in step iff nothing changed or the node had none |
| DispatchTree.DispatchTree.FocusContains | crates/lucie/src/key_dispatch.rs:312-327 | true iff the ids are equal or the parent's node lies on the child's dispatch path |
| DispatchTree.DispatchTree.DispatchPath | crates/lucie/src/key_dispatch.rs:489-498 | the path from the root to the node; an unknown id is a path of its own |
| DispatchTree.DispatchTree.MoveNode | crates/lucie/src/key_dispatch.rs:238-254 | the copy carries context, focus id and listeners, keeps its view unless the enclosing one is the same, and empties the source's listeners |
| DispatchTree.DispatchTree.ReuseSubtree | crates/lucie/src/key_dispatch.rs:256-285 | the part of the range that exists is copied node by node, listeners move, focus is reported iff present in the range, indices are updated and all stacks return to their entry values |
| SubtreeReuse.ImagesIffDepthFirst | crates/lucie/src/key_dispatch.rs:256-285 | every copied parent is the image of the old parent, or the node active on entry, iff the range is in depth-first order |
| SubtreeReuse.ParentsRefreshedIffDepthFirst | crates/lucie/src/key_dispatch.rs:99-103 | after a splice, the parent of each refreshed node is the refreshed parent of the original where that was copied, else the node active on entry, iff the range is in depth-first order |
| SubtreeReuse.InterleavedLosesParent | crates/lucie/src/key_dispatch.rs:261-276 | an instance whose last copy hangs below the node active on entry instead of its parent's copy |
| SubtreeReuse.SourceStackIsRangePath | crates/lucie/src/key_dispatch.rs:261-276 | over a depth-first range the helper stack holds the copied node's ancestors within the range |
| SubtreeReuse.FocusIndexMeans | crates/lucie/src/key_dispatch.rs:212-216 | after a splice a focus id leads to the last copied node that carries it, or where it led before |
| SubtreeReuse.ViewIndexMeans | crates/lucie/src/key_dispatch.rs:218-225 | the same for views |
| SubtreeReuse.EmptiedMeans | crates/lucie/src/key_dispatch.rs:250-253 | a source node loses its three kinds of listeners and nothing else |
| KeyBindings.AnswersMean | crates/lucie/src/keymap.rs:116-131 | the answers are exactly the enabled exact matches that do something and that no user-level `NoAction` outranks, by depth then index, descending |
| KeyBindings.CutKeeps | crates/lucie/src/keymap.rs:157-173 | cutting at the first user-level `NoAction` and skipping the others keeps exactly the matches ranked above it that do something |
| KeyBindings.RankedUnique | crates/lucie/src/keymap.rs:152-152 | a strictly ranked list is determined by its members, so any correct sort gives the same result |
| Precedence.AnswerMeans | crates/lucie/src/keymap.rs:132-173 | said of bindings, depths and indices alone: the answers are the bindings typed out in full that apply, do something, and are deeper, or as deep and later, than every one that applies and switches off; deepest and latest first |
| Precedence.AwaitsMeans | crates/lucie/src/keymap.rs:175-189 | in the same terms: more is awaited iff some longer binding that applies and does something, not before the first answer, is the last that applies with its keystrokes |
| Precedence.NoPredicateComesFirst | crates/lucie/src/keymap.rs:193-199 | a binding without a predicate applies in every context, and its answer precedes all answers added before it |
| Precedence.NoPredicateSwitchesOff | crates/lucie/src/keymap.rs:125-131 | a user-level `NoAction` without a predicate that matches removes every match added before it |
| Keymap.Keymap.AddBindings | crates/lucie/src/keymap.rs:45-57 | appends the bindings in order and keeps the index lists exact |
| Keymap.Keymap.BindingsForAction | crates/lucie/src/keymap.rs:74-106 | the bindings of the action, in order, without those a later `NoAction` with equal keystrokes and wider context takes away |
| Keymap.NullifiedMeans | crates/lucie/src/keymap.rs:87-101 | a binding is taken away iff a later `NoAction` has the same keystrokes and no predicate, or one that takes in the binding's |
| Keymap.Keymap.BindingsForInput | crates/lucie/src/keymap.rs:132-190 | returns the answers and whether some keystroke sequence's last pending binding, not below the first answer, does something |
| Keymap.Keymap.Scan | crates/lucie/src/keymap.rs:133-150 | finds exactly the enabled exact and pending matches |
| Keymap.Keymap.AnyAwaited | crates/lucie/src/keymap.rs:175-189 | the set of awaited keystrokes is non-empty iff some counting entry is the last for its keystrokes and does something |
| Keymap.AwaitedMeans | crates/lucie/src/keymap.rs:175-189 | that is the same as a top pending binding that is not `NoAction` |
| Keymap.Keymap.PossibleNextBindingsForInput | crates/lucie/src/keymap.rs:202-229 | exactly the enabled pending bindings that do something, by rank |
| KeyDispatch.SegmentsConserve | crates/lucie/src/key_dispatch.rs:410-415 | segments and remainder put together are the input, with one replay per non-empty segment |
| KeyDispatch.OutcomeUnique | crates/lucie/src/key_dispatch.rs:416-449 | segments, replays and remainder are determined by the conditions proved of the dispatch |
| KeyDispatch.DispatchKey | crates/lucie/src/key_dispatch.rs:416-449 | the pending keys split into longest bound prefixes (or single keys), one replay each, given up only while what remains with the new key does not settle; the outcome is that of the remainder with the new key |
| KeyDispatch.FlushDispatch | crates/lucie/src/key_dispatch.rs:451-461 | the whole pending input is segmented and replayed |
| KeyDispatch.ReplayPrefix | crates/lucie/src/key_dispatch.rs:463-487 | splits off the longest bound prefix with its bindings and last key, or one key when no prefix is bound |
| KeyDispatch.BindingsForInput | crates/lucie/src/key_dispatch.rs:397-402 | asks the keymap with the contexts along the dispatch path |
| Highlights.CombineHighlights | crates/lucie-style/src/lib.rs:837-874 | the output is sorted, disjoint and non-empty, covers exactly the covered positions, and styles each with the fold, in input order, of the highlights covering it, whatever order ties are sorted in |
| Highlights.Sweep.Next | crates/lucie-style/src/lib.rs:856-873 | each call returns the next covered stretch between consecutive endpoints with its folded style, and nothing covered is passed over |
| Highlights.ActiveIsCovering | crates/lucie-style/src/lib.rs:857-866 | up to the next endpoint the active flags are exactly the covering highlights |
| Highlights.StyleAtMeans | crates/lucie-style/src/lib.rs:861-865 | no style without highlights; one more highlight is put on top of the style there was, exactly where it reaches |
| Highlights.OverlayIsInInputOrder | crates/lucie-style/src/lib.rs:861-865 | under a style that records what is put on, the overlay is exactly the covering styles in input order |
| Highlights.DroppingEmptyIsHarmless | crates/lucie-style/src/lib.rs:844-851 | empty ranges contribute nothing to any position |
| Subscriptions.RetainExact | crates/lucie/src/subscription.rs:93-120 | after a pass the key holds the old subscribers kept and not dropped before the first insertion, plus the new ones not dropped or removed since; the registry is sound again |
| SlotHistory.RetainElsewhere | crates/lucie/src/subscription.rs:95-120 | after a pass every other key has exactly the subscribers that the events under it leave there |
| SlotHistory.UntouchedKeyKeepsSlot | crates/lucie/src/subscription.rs:95-120 | a key that no callback inserts under, removes or drops a handle of keeps its subscribers |
| SlotHistory.SlotAfterMeans | crates/lucie/src/subscription.rs:47-82 | a subscriber is in a slot, with its callback, iff the last that happened to it is its insertion, or it was there and nothing happened to it |
| SlotHistory.AllShowInSlot | crates/lucie/src/subscription.rs:47-90 | any operations change a slot not being visited exactly as their events under its key say |
| SlotHistory.VisitPerforms | crates/lucie/src/subscription.rs:103-103 | during a pass the registry is as all operations of the subscribers called make it, in order |
| SlotHistory.UnsubscribeMeans | crates/lucie/src/subscription.rs:60-79 | a drop takes one subscriber out of one slot, or is remembered while that is being visited; nothing else changes |
| Subscriptions.VisitMeans | crates/lucie/src/subscription.rs:103-103 | calls go in ascending id order, and a subscriber stays unless it was called and declined |
| Subscriptions.CalledIffActive | crates/lucie/src/subscription.rs:103-103 | a subscriber is called iff it is active when its turn comes |
| Subscriptions.EarlyDropsMean | crates/lucie/src/subscription.rs:62-78 | a drop is remembered iff nothing was inserted or removed under the key before it in the pass |
| Subscriptions.NewAliveMeans | crates/lucie/src/subscription.rs:106-109 | a subscriber is new after the pass, with a given callback, iff its insertion with that callback is the last that happened to it |
| Subscriptions.DropsCountIffEarly | crates/lucie/src/subscription.rs:111-115 | every drop in the pass takes effect iff each kept old subscriber that is dropped is dropped before any insertion or removal under its key |
| Subscriptions.DropsCountIfLeftAlone | crates/lucie/src/subscription.rs:111-115 | if no callback inserts or removes under the key of the pass, exactly the subscribers kept and not dropped remain |
| Subscriptions.RemovalSparesVisited | crates/lucie/src/subscription.rs:83-90 | a kept subscriber that is not dropped survives the pass even if its key is removed meanwhile |
| Subscriptions.PassOverVisitedIsIdle | crates/lucie/src/subscription.rs:99-101 | a pass over a key whose subscribers are being visited does nothing |
| Subscriptions.InnerPassForgetsDrops | crates/lucie/src/subscription.rs:110-115 | a pass over another key leaves the slot taken but none of the drops remembered |
| Subscriptions.LateDropIsLost | crates/lucie/src/subscription.rs:62-78 | an instance, in a sound registry, where a subscriber dropped in the pass stays registered |
| Subscriptions.OpKeepsSound | crates/lucie/src/subscription.rs:47-82 | insert, drop, activate and remove keep ids below the counter and filed under their key; the counter never goes back, so ids are never reused |
| SubscriberSet.SubscriberSet.Insert | crates/lucie/src/subscription.rs:47-58 | registers under a new id; a sound registry stays sound |
| SubscriberSet.SubscriberSet.Unsubscribe | crates/lucie/src/subscription.rs:60-79 | removes from the slot, or remembers the drop while the slot is taken; a sound registry stays sound |
| SubscriberSet.SubscriberSet.Remove | crates/lucie/src/subscription.rs:83-90 | takes the key out and returns exactly its active callbacks in id order |
| SubscriberSet.SubscriberSet.Retain | crates/lucie/src/subscription.rs:95-120 | performs the pass that the lemmas on `Retained` describe, whatever the callbacks insert, drop, activate and remove; other keys are as their own events leave them; the registry is sound again |
| App.App.PushEffect | crates/lucie/src/app.rs:1033-1049 | an effect is queued once; a notification already waiting is not queued again |
| App.App.NotifyChange | crates/lucie/src/app.rs:1811-1825 | the entity's notification is waiting afterwards unless all interested windows are drawing; views are marked dirty, those marked before stay so; the index row is put back |
| App.App.FlushEffects | crates/lucie/src/app.rs:1054-1101 | each turn applies the next effect in the order they were queued, however long the flush goes on; when it returns nothing is left queued or marked pending; it returns once callbacks are silent |
| App.App.TakeTurn | crates/lucie/src/app.rs:1055-1084 | a turn performs what releasing entities does and then applies the next effect, and nothing else happens to the registries |
| App.App.ApplyFirst | crates/lucie/src/app.rs:1058-1080 | the first effect is applied by calling exactly its registered audience, with the effect of a pass on the registries; its notification may be queued again from the moment its callbacks start |
| App.App.CallAudience | crates/lucie/src/app.rs:1143-1186 | calls the active subscribers under the effect's key that hear it, one after the other, and leaves the registries as a pass over them does |
| Effects.CalledAreAudience | crates/lucie/src/app.rs:1143-1186 | the subscribers called are those of the effect's key that hear it, each active one and none never activated, in the order of their ids |
| Audiences.NotifyReachesObservers | crates/lucie/src/app.rs:1143-1147 | a change of an entity calls the observers of that entity, each staying iff it says so; other entities' observers are as their own events leave them |
| Audiences.EmitReachesListeners | crates/lucie/src/app.rs:1149-1153 | an event calls the listeners of its source for its type; those for other types stay |
| Audiences.GlobalReachesObservers | crates/lucie/src/app.rs:1164-1167 | a change of a global calls the observers of its type |
| Audiences.CreationReachesObservers | crates/lucie/src/app.rs:1173-1186 | a new entity calls the observers of its type, and all stay |
| Audiences.OthersReachNobody | crates/lucie/src/app.rs:1155-1171 | refreshing windows and deferred callbacks call no subscriber |
| Audiences.OtherObserversStay | crates/lucie/src/app.rs:1143-1147 | the observers of other entities stay registered unless a callback touches them |
| Audiences.ActionsReachRegistries | crates/lucie/src/app.rs:746-751 | each operation reaches its own registry, in order, also from updates within updates |
| Effects.AppliedKeepsSound | crates/lucie/src/app.rs:1143-1186 | after an effect every registry is sound and none is left being visited |
| Effects.CallOne | crates/lucie/src/app.rs:1143-1146 | a callback's actions reach the registry being visited and the others in the order they are done |
| App.App.FinishUpdate | crates/lucie/src/app.rs:757-764 | only the outermost update flushes, and when that returns the queue is empty |
| App.App.UpdateApp | crates/lucie/src/app.rs:746-751 | an update restores the counters; outermost, everything accepted has been applied in order |
| App.App.Run | crates/lucie/src/app.rs:746-764 | whatever callbacks do, nested updates included, nothing is applied and the invariant holds; every effect pushed is waiting afterwards, those other than notifications are queued once for each request and in order, and nothing else is queued |
| Effects.QueuesInTurn | crates/lucie/src/app.rs:1033-1049 | queueing by one action and then by others is queueing by all of them |
| App.App.RecordEntitiesAccessed | crates/lucie/src/app.rs:788-804 | replaces exactly one window's row; the two maps stay inverse to each other |
| App.SameRowsMirror | crates/lucie/src/app.rs:1811-1825 | taking a row out and putting it back leaves the mirror intact |
| HintCache.HintCache.Get | crates/lucie-text/src/hinting.rs:51-68 | in every run the instance returned has the size and coordinates asked for, and is configured for them unless it is a hit on an entry whose reconfiguration failed, which never happens while none fails; lists have at most sixteen entries and no serial twice; each list holds the most recent keys unless a failed reconfiguration duplicates one; a failed creation changes nothing |
| HintCache.SpoilKeepsMostRecent | crates/lucie-text/src/hinting.rs:61-65 | after a failed reconfiguration the list is as if the spoiled key had been requested, iff no newer entry is for it |
| HintCache.EveryFullListCanBeSpoiled | crates/lucie-text/src/hinting.rs:61-65 | for every full list there are a request and a failure that leave two entries for one key |
| HintCache.ReadyAfterUse | crates/lucie-text/src/hinting.rs:51-68 | only a hit on an entry that failed yields an instance that is not ready, and only a failure makes one |
| HintCache.HintCache.Find | crates/lucie-text/src/hinting.rs:76-107 | a matching entry, else a new one while there is room, else a least recently used one |
| HintCache.UseKeepsMostRecent | crates/lucie-text/src/hinting.rs:57-66 | hit, addition and replacement all leave the sixteen most recently requested distinct keys |
| HintCache.SerialsDistinct | crates/lucie-text/src/hinting.rs:58-59 | serials are distinct within and across the two lists |
| HintCache.MostRecentMeans | crates/lucie-text/src/hinting.rs:57-66 | in numbers: at most sixteen entries, each requested and stamped with its last request; whatever was requested and is not held has sixteen entries requested after it |
| Arena.AlignUpIsFirst | crates/lucie-common/src/arena.rs:52-52 | rounding up gives the first aligned address at or after the offset |
| Arena.AllocationKeepsLayout | crates/lucie-common/src/arena.rs:51-61 | a new block is aligned, inside its chunk and disjoint from all earlier ones |
| Arena.Arena.Alloc | crates/lucie-common/src/arena.rs:109-148 | the block starts at the first aligned address from the used part of the current chunk on, which then ends with the block; if that does not fit, the same in the next chunk from its start, adding one if there is none; fails exactly if that does not fit either; succeeds when size + align - 1 fits a chunk |
| Arena.Arena.Clear | crates/lucie-common/src/arena.rs:98-106 | invalidates the handles of the generation, drops each element once, empties every chunk and keeps the capacity |
| Color.RgbRoundTrip | crates/lucie-common/src/color.rs:316-342 | converting any colour with channels in [0,1] to HSL and back gives it back, across all sectors and ties |
| Color.SectorOf | crates/lucie-common/src/color.rs:513-521 | the sector of the computed hue puts largest, middle and smallest channel where they were |
| Color.ChromaIsSpread | crates/lucie-common/src/color.rs:502-511 | chroma recomputed from saturation and lightness is the spread of the channels |
| Color.CornersOfTheCube | crates/lucie-common/src/color.rs:496-527 | the eight corners of the colour cube get the hue, saturation and lightness the standard gives them |
| Color.SectorSixIsSectorZero | crates/lucie-common/src/color.rs:316-342 | hues from a full turn to a sixth beyond it give the colours one turn earlier |
| Color.ToRgbInRange | crates/lucie-common/src/color.rs:336-341 | channels end up in range and alpha is kept, whatever the input |
| Refinement.RefineComposes | crates/lucie-macros/src/derive_refineable.rs:94-186 | refining by a then b is refining by a refined by b |
| Refinement.MergeAssociates | crates/lucie-macros/src/derive_refineable.rs:146-186 | refinements compose associatively |
| Refinement.SupersetIffUnchanged | crates/lucie-macros/src/derive_refineable.rs:266-296 | a structure is a superset of a refinement iff refining by it changes nothing |
| Refinement.CoversIffUnchanged | crates/lucie-macros/src/derive_refineable.rs:297-320 | a refinement is a superset of another iff refining by that changes nothing |
| Refinement.SubtractRestores | crates/lucie-macros/src/derive_refineable.rs:323-374 | r refined by `s.subtract(r)` is a superset of s: refining it by s changes nothing |
| Refinement.DifferenceRebuilds | crates/lucie-macros/src/derive_refineable.rs:323-374 | a difference rebuilds the structure iff no optional field would have to become absent |
| Refinement.SubtractIsMinimal | crates/lucie-macros/src/derive_refineable.rs:323-374 | a difference repeats nothing of what is subtracted, and is empty iff there is nothing new |
| Refinement.SubtractRefinementIsMinimal | crates/lucie-macros/src/derive_refineable.rs:323-374 | the same for refinements: the difference is empty iff the one covers the other |
| Refinement.EmptyHasNoEffect | crates/lucie-common/src/refineable.rs:66-69 | applying an empty refinement changes nothing |
| Refinement.NonEmptyHasEffect | crates/lucie-common/src/refineable.rs:66-69 | a non-empty refinement changes some structure it fits |
| Refinement.CascadeRefinesInOrder | crates/lucie-common/src/refineable.rs:45-50 | refining by the merged cascade is refining by each filled slot in order, for any number of slots |
| Refinement.LastSlotDecides | crates/lucie-common/src/refineable.rs:125-131 | of a field, the last filled slot that says anything decides |
| Refinement.Cascade.Set | crates/lucie-common/src/refineable.rs:117-119 | replaces one slot; the base stays present iff it is not the one emptied |
| Refinement.Cascade.Merged | crates/lucie-common/src/refineable.rs:125-131 | the fold of the filled slots, later ones taking precedence |
| Refinement.Cascade.FromCascade | crates/lucie-common/src/refineable.rs:45-50 | the default refined by each filled slot in turn |
| Truncation.Truncation.Update | crates/lucie-text/src/layout.rs:312-407 | the cut is at the last item with room before the overflow (end), or at the first item whose rest fits beside the affix, with the skipped width (start) |
| Truncation.Truncation.Paint | crates/lucie-text/src/layout.rs:486-553 | which items are drawn, where the affix goes and how far the line reaches |
| Truncation.NoRoomBeyond | crates/lucie-text/src/layout.rs:339-374 | with widths that are not negative the early exit skips no later candidate |
| Truncation.EndTruncationFits | crates/lucie-text/src/layout.rs:339-374 | a line whose width rounded down exceeds the limit fits iff the affix alone is below it, and then keeps as much as possible; any other line is not cut and fits iff it does whole |
| Truncation.FractionIsNotCut | crates/lucie-text/src/layout.rs:354-356 | an instance too wide by a fraction that is painted whole |
| Truncation.WideAffixCutsNothing | crates/lucie-text/src/layout.rs:347-349 | an instance where an affix as wide as the limit prevents the cut |
| Truncation.StartTruncationFits | crates/lucie-text/src/layout.rs:376-405 | what is painted fits iff the last item fits beside the affix, and then no cut further left would; a line that fits whole is cut or overflows iff line and affix together do not fit |
| Truncation.TruncateAndPaint | crates/lucie-text/src/layout.rs:312-553 | deciding and painting together reach within the limit exactly under these conditions, and draw a prefix (end) or a suffix (start) of the items |
| Truncation.FittingLineIsCut | crates/lucie-text/src/layout.rs:394-401 | an instance where a line that would fit whole loses an item |
| Truncation.LineForOffset | crates/lucie-text/src/layout.rs:246-286 | the last line beginning at or before the offset, the first if there is none |

## Left out

- Floating point: rounding, NaN and signed zero; all quantities are real numbers.
- Machine integers: orders, ids and serials are unbounded, with the bound on orders proved and the 64-bit limit of the serial a precondition.
- `NodeChildren`: the fixed array of twelve slots and its length are one sequence; slots beyond the length, which are never read, are not kept.
- KeyBindings.MatchKeystrokes: keystroke equality, predicate evaluation and predicate inclusion are parameters.
- `DispatchTree::truncate`, `focus_path`, `view_path_reversed` and the action queries on paths: easy members, or index clean-up that only matters with an unbroken id discipline.
- SubscriberSet.SubscriberSet.Retain: callbacks that start a further pass over the same registry are excluded; outside shutdown the effect loop never nests passes; a removal hands its callbacks over at once, the original when they are asked for.
- App.App.FlushEffects: what callbacks do is given for each turn and subscriber; the four registries are values changed by the operations that `SubscriberSet` is proved to perform; marking windows dirty, shutdown, window removal and drawing in tests are left out.
- App.App.NotifyChange: hash map iteration order is arbitrary; the window's own dirty flag is not kept.
- HintCache.HintCache.Get: what the font library does is two success flags and an arbitrary instance after a failure; an instance is its size, its coordinates and whether it is ready.
- Arena.Arena.Alloc: addresses are natural numbers, element contents and pointer wrap-around are not modelled; where a new chunk lies is a parameter required to be disjoint from the others.
- Color: colours out of range and the trip from HSL to RGB and back, which is not the identity for grey.
- Refinement: the generated in-place `refine` is modelled on values, so update in place of a structure's fields is not captured.
- Truncation.Truncation.Paint: glyph drawing, underlines and strikethroughs; an affix without glyphs has width zero.
- Font shaping, rasterising, windows, platforms, the runtime, the random priority queue and the tab controller: input and output, foreign libraries or no clean law.
