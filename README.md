# p3ui core, modelled in Dafny

p3ui is a retained-mode user-interface library built on top of Dear ImGui. Its core is a tree
of `Node`s whose style, size and placement are recomputed lazily: a change to a node sets
`needs_update` (and, where the style is affected, `needs_restyle`) on it and on its ancestors,
and marks the nearest `RenderLayer` above it dirty. The next frame runs `update_restyle` over
the marked part of the tree, lays `Layout` nodes out as a single flex line, and repaints only
the render layers that are dirty or whose cached render target no longer has the requested
size. A `RenderBackend` owns the textures and render targets the layers cache; deleting one
only queues it, and `gc` frees what was queued. Two deadline schedulers (`event_loop` and the
GLFW-driven `platform::EventLoop`) keep a binary heap of `(deadline, work)` pairs and run
what is due, earliest first. `string_utils.h` and `Types.h` give the trimming helpers and the
length types (`px`, `em`, `rem`, `%`) everything else uses.

The model is split by source file:

| Dafny file | module | models |
|---|---|---|
| wrappers.dfy | Wrappers | `Option`, `Result` and `Outcome` |
| types.dfy | Types | `Types.h`: units, lengths, enums, equality operators |
| string_utils.dfy | StringUtils | `string_utils.h` |
| seqs.dfy | Seqs | the erase/remove idioms used by the observers and by `gc` |
| heaps.dfy | Heaps | the `std::priority_queue` of both event loops |
| draining.dfy | Drains | what `pop_work_from_queue` promises, shared by both loops |
| event_loop.dfy | EventLoops | `event_loop.cpp` and its tests |
| platform_event_loop.dfy | PlatformEventLoops | `platform/event_loop.cpp` |
| render_backend.dfy | RenderBackends | `RenderBackend.cpp` |
| rendering.dfy | Rendering | `RenderLayer.cpp` and `Context.cpp` |
| node_records.dfy | NodeRecords | a node's own fields and its contextual size |
| arena.dfy | Arenas | the parent/child links, invalidation, add/insert/remove |
| restyle.dfy | Restyles | `update_restyle` as a function over the tree |
| nodes.dfy | Nodes | `Node.cpp` as a mutable `Tree` object |
| layout.dfy | Layouts | `Layout.cpp`: `update_content` and `render_impl` |

Nodes are kept in an arena, a `map` from node id to a record holding the id of the parent and
the ids of the children. The `Tree` class holds that arena as a field, so its methods update
it in place. A `shared_ptr` child list becomes a sequence of ids. A raw parent pointer becomes
`Option<NodeId>`.

Where the library's prose and its code disagree, the model follows the code:
- A horizontal layout's automatic width adds `ItemSpacing.y`, not `ItemSpacing.x`, between
  children (Layout.cpp:56).
- Vertical alignment has no `Baseline` case, so a baseline-aligned child of a vertical layout
  keeps a cross size of 0 (Layout.cpp:205-221).
- A shrinking child loses exactly the epsilon (0.1 horizontally, 0.0001 vertically), however
  far the line overflows: its share `remaining * shrink / grow_total` is never positive, so
  `std::max` picks the epsilon (Layout.cpp:115-118 and 200-203).
- `remove` does not check that the node is a child.
- `close` and `stop` do not empty the queue.

## Model

| member | source | states |
|---|---|---|
| Types.LengthEquals | cpp/p3_parser/source/p3/Types.h:36-45 | two lengths compare equal exactly when they have the same unit and the same value, which is exactly structural equality |
| Types.LengthPercentageEquals | cpp/p3_parser/source/p3/Types.h:47-54 | equal exactly when both are the same length or both the same percentage; a length never equals a percentage |
| Types.BasisEquals | cpp/p3_parser/source/p3/Types.h:25-28 | two optional bases are equal exactly when both are absent or both present and equal |
| Types.LayoutLengthEquals | cpp/p3_parser/source/p3/Types.h:25-28 | a layout length (basis, grow, shrink) equals another exactly when all three parts are equal |
| Types.DifferentUnitsNeverEqual | cpp/p3_parser/source/p3/Types.h:44 | lengths in different units never compare equal, whatever their values |
| Types.OnePxIsNotOneEm | cpp/p3_parser/source/p3/Types.h:44 | `1px` and `1em` are not equal |
| Types.EqualitiesAreSymmetric | cpp/p3_parser/source/p3/Types.h:36-54 | both equality operators are symmetric |
| StringUtils.LTrimCopy | cpp/p3/source/p3/string_utils.h:48-51 | the result is a suffix of the input and does not start with whitespace |
| StringUtils.LTrimRemovesOnlySpace | cpp/p3/source/p3/string_utils.h:31-35 | every character `ltrim` removes is whitespace |
| StringUtils.RTrimCopy | cpp/p3/source/p3/string_utils.h:53-56 | the result is a prefix of the input and does not end with whitespace |
| StringUtils.RTrimRemovesOnlySpace | cpp/p3/source/p3/string_utils.h:37-41 | every character `rtrim` removes is whitespace |
| StringUtils.TrimCopy | cpp/p3/source/p3/string_utils.h:58-61 | the result neither starts nor ends with whitespace |
| StringUtils.LTrim | cpp/p3/source/p3/string_utils.h:31-35 | the in-place erase loop leaves exactly the left-trimmed copy |
| StringUtils.RTrim | cpp/p3/source/p3/string_utils.h:37-41 | the in-place erase loop leaves exactly the right-trimmed copy |
| StringUtils.Trim | cpp/p3/source/p3/string_utils.h:43-46 | trimming in place leaves exactly the trimmed copy |
| StringUtils.TrimIsSubstring | cpp/p3/source/p3/string_utils.h:43-46 | the trimmed string is the contiguous piece of the input that starts after its leading whitespace |
| StringUtils.AllWhitespaceTrimsToEmpty | cpp/p3/source/p3/string_utils.h:43-46 | a string made only of whitespace trims to the empty string |
| StringUtils.TrimIdempotent | cpp/p3/source/p3/string_utils.h:58-61 | trimming twice gives the same as trimming once |
| StringUtils.EndsWith | cpp/p3/source/p3/string_utils.h:70-77 | false when the ending is longer than the string; true for the empty ending |
| StringUtils.EndsWithIffSuffix | cpp/p3/source/p3/string_utils.h:70-77 | `ends_with` holds exactly when the string is some prefix followed by the ending |
| Seqs.Without | cpp/p3/source/p3/platform/event_loop.h:37-44 | erasing every occurrence of `x` keeps all other elements with their counts and in their order |
| Seqs.WithoutAppend | cpp/p3/source/p3/platform/event_loop.h:37-44 | erasing distributes over concatenation, so order is kept |
| Seqs.WithoutIdempotent | cpp/p3/source/p3/platform/event_loop.h:37-44 | erasing the same element twice changes nothing more |
| Seqs.RemoveAll | cpp/p3/source/p3/RenderBackend.cpp:10-15 | removing a set of elements keeps only elements of the list outside the set, keeps every such element, and never lengthens the list |
| Seqs.RemoveAllCounts | cpp/p3/source/p3/RenderBackend.cpp:10-15 | after removal an element of the set occurs 0 times and every other element exactly as often as before |
| Seqs.RemoveAllAppend | cpp/p3/source/p3/RenderBackend.cpp:10-15 | removing distributes over concatenation, so the survivors keep their order |
| Seqs.RemoveAllMembership | cpp/p3/source/p3/RenderBackend.cpp:10-15 | an element survives the removal exactly when it was present and not in the removed set |
| Seqs.RemoveAllEmpty | cpp/p3/source/p3/RenderBackend.cpp:10-15 | removing nothing keeps the list |
| Heaps.FrontIsEarliest | cpp/p3/source/p3/event_loop.cpp:8-14 | with the `>` comparator, the top of a heap has the earliest deadline |
| Heaps.PushHeap | cpp/p3/source/p3/event_loop.cpp:69-70 | pushing keeps the heap property and adds exactly the pushed pair |
| Heaps.PopHeap | cpp/p3/source/p3/event_loop.cpp:33-39 | popping returns the front, keeps the heap property and removes exactly that pair |
| Heaps.DrainDue | cpp/p3/source/p3/event_loop.cpp:33-39 | the drain loop takes every pair due at `now`, earliest first, runs their work in that order, and leaves a heap of only pairs not yet due; nothing is lost |
| Heaps.AscendingDistinctUnique | cpp/p3/tests/source/test_event_loop.cpp:26-39 | two ascending orders of the same pairs are the same sequence when the deadlines are distinct, so the order the tests expect is the only one |
| Drains.PopStep | cpp/p3/source/p3/event_loop.cpp:52-61 | each pop moves the pairs it took from the queue to what ran, in ascending order, taken at the first reading at which they were due |
| EventLoops.EventLoop.CallAt | cpp/p3/source/p3/event_loop.cpp:63-75 | on a closed loop nothing changes; otherwise the queue gains exactly the new pair and stays a heap |
| EventLoops.EventLoop.Close | cpp/p3/source/p3/event_loop.cpp:77-84 | the closed flag is set and the queue is kept |
| EventLoops.EventLoop.PopWork | cpp/p3/source/p3/event_loop.cpp:20-43 | the result and queue meet the pop contract: empty work at once on a closed loop, else the due pairs earliest first at the first reading where any are due, or nothing when the readings run out |
| EventLoops.EventLoop.ProcessWork | cpp/p3/source/p3/event_loop.cpp:45-50 | every task of the batch runs in order; the loop is closed afterwards exactly when it was before or a task closed it |
| EventLoops.EventLoop.RunForever | cpp/p3/source/p3/event_loop.cpp:52-61 | what ran is what left the queue, earliest first, each taken at the first reading at which it was due; what is left was not due at any reading; the run ends exactly when the loop is closed, otherwise the readings ran out |
| EventLoops.InsertQueues | cpp/p3/tests/source/test_event_loop.cpp:7-12 | one `call_at` on a fresh loop queues exactly one task |
| EventLoops.EarliestOnTop | cpp/p3/tests/source/test_event_loop.cpp:14-24 | after three `call_at`s the front is the earliest |
| EventLoops.ProcessedInOrder | cpp/p3/tests/source/test_event_loop.cpp:26-39 | three tasks due at `t`, `t-1s` and `t-2s` run as 3, 2, 1 and the closing one ends the run |
| EventLoops.ProcessedInTime | cpp/p3/tests/source/test_event_loop.cpp:41-51 | tasks due at `t+1ms` and `t+2ms` run in that order, the queue ends empty, and some reading used was at least `t+2ms` |
| PlatformEventLoops.AddThenRemove | cpp/p3/source/p3/platform/event_loop.h:36-44 | adding an observer that was not registered and then removing it gives back the original list |
| PlatformEventLoops.EventLoop.AddObserver | cpp/p3/source/p3/platform/event_loop.h:36 | the observer is appended; nothing else changes |
| PlatformEventLoops.EventLoop.RemoveObserver | cpp/p3/source/p3/platform/event_loop.h:37-44 | every occurrence of the observer is erased and no other observer is affected |
| PlatformEventLoops.EventLoop.CallAt | cpp/p3/source/p3/platform/event_loop.cpp:125-137 | on a stopped or closed loop nothing changes; otherwise the queue gains exactly the new pair |
| PlatformEventLoops.EventLoop.Stop | cpp/p3/source/p3/platform/event_loop.cpp:149-156 | only the stopped flag is set |
| PlatformEventLoops.EventLoop.Close | cpp/p3/source/p3/platform/event_loop.cpp:139-147 | both the stopped and the closed flags are set; the queue is kept |
| PlatformEventLoops.EventLoop.PopWork | cpp/p3/source/p3/platform/event_loop.cpp:61-90 | the pop contract, guarded by the stopped flag: empty work at once on a stopped loop, else the due pairs earliest first at the first reading where any are due, or nothing when the readings run out |
| PlatformEventLoops.EventLoop.RunTasks | cpp/p3/source/p3/platform/event_loop.cpp:117-118 | every task of the batch runs in order; the flags end up as before or as set by a task |
| PlatformEventLoops.EventLoop.NotifyObservers | cpp/p3/source/p3/platform/event_loop.cpp:119-120 | every observer is called once, in registration order |
| PlatformEventLoops.EventLoop.RunForever | cpp/p3/source/p3/platform/event_loop.cpp:113-123 | each round runs a batch and then every observer; what ran left the queue earliest first, each pair at the first reading at which it was due; an empty batch happens only in the first round, when the loop starts stopped; the run ends exactly when the loop is stopped |
| RenderBackends.RenderBackend.CreateTexture | cpp/p3/source/p3/backend/OpenGL2RenderBackend.cpp:27-31 | a new texture, distinct from every texture the backend owns, is appended to its textures; nothing else changes |
| RenderBackends.RenderBackend.CreateRenderTarget | cpp/p3/source/p3/backend/OpenGL2RenderBackend.cpp:33-37 | a new render target of the requested size, owned by the backend; nothing else changes |
| RenderBackends.RenderBackend.DeleteTexture | cpp/p3/source/p3/RenderBackend.cpp:28-31 | the texture is only queued for deletion |
| RenderBackends.RenderBackend.DeleteRenderTarget | cpp/p3/source/p3/RenderBackend.cpp:33-36 | the render target is only queued for deletion |
| RenderBackends.RenderBackend.Exec | cpp/p3/source/p3/RenderBackend.cpp:38-41 | the task is queued behind the others |
| RenderBackends.RenderBackend.Gc | cpp/p3/source/p3/RenderBackend.cpp:8-19 | the owned textures and targets lose exactly those queued for deletion, in order; the queues are emptied; the queued tasks run in order; with nothing queued the owned lists are unchanged |
| RenderBackends.RenderBackend.Shutdown | cpp/p3/source/p3/RenderBackend.cpp:21-26 | all textures and targets are released and the queued tasks run |
| RenderBackends.DeferredDeletion | cpp/p3/source/p3/RenderBackend.cpp:8-36 | after creating two targets, deleting one and running `gc`, the deleted one is gone, the other is still owned and nothing is queued |
| Rendering.RequestedExtent | cpp/p3/source/p3/RenderLayer.cpp:47-48 | the requested target extent is at least 1 and the extent rounded to the nearest integer |
| Rendering.ContextSlot.Current | cpp/p3/source/p3/Context.cpp:32-37 | the current context when one is set; otherwise the error "no context active" |
| Rendering.Context.constructor | cpp/p3/source/p3/Context.cpp:13-19 | the new context becomes the current one, with no render layers |
| Rendering.Context.Rem | cpp/p3/source/p3/UserInterface.cpp:155-160 | the default font's size, or 12 when there is none |
| Rendering.Context.RenderLayerTop | cpp/p3/source/p3/Context.cpp:25-30 | the innermost render layer when there is one; otherwise the error "no render layer present" |
| Rendering.Context.PushRenderLayer | cpp/p3/source/p3/RenderLayer.cpp:30 | the layer becomes the innermost one; the others stay |
| Rendering.Context.PopRenderLayer | cpp/p3/source/p3/RenderLayer.cpp:99 | the innermost layer is dropped; the others stay |
| Rendering.ToActualFollowsFonts | cpp/p3/source/p3/Context.cpp:54-66 | a rem length follows the default font's size, 12 pixels per rem without one, whatever the font in use; an em length follows only the font in use; a nonzero em and rem length agree exactly when the font in use has the default size |
| Rendering.ToActualScales | cpp/p3/source/p3/Context.cpp:54-61 | px converts to itself, and scaling a length's value scales its pixel size by the same factor |
| Rendering.RenderLayer.PushTo | cpp/p3/source/p3/RenderLayer.cpp:24-74 | the object count restarts, the layer becomes the innermost one, the requested extent and viewport are recorded, and the layer turns dirty exactly when it was, or the target size or viewport changed |
| Rendering.RenderLayer.RegisterObject | cpp/p3/source/p3/RenderLayer.cpp:76-79 | the object count goes up by one |
| Rendering.RenderLayer.SetDirty | cpp/p3/source/p3/RenderLayer.cpp:157-160 | the layer is dirty; nothing else changes |
| Rendering.RenderLayer.Reset | cpp/p3/source/p3/RenderLayer.cpp:89-95 | the layer drops its target and backend; the backend only gains a queued deletion of that target |
| Rendering.RenderLayer.PopFromContextAndRender | cpp/p3/source/p3/RenderLayer.cpp:97-155 | the layer leaves the stack; with no objects the target is dropped and nothing is painted; otherwise a target of the requested size exists, is reused when the size matches, and is repainted exactly when the layer was dirty or the target was recreated; the layer ends clean. On the backends: a recreated target is new and appended to the context's backend, which the layer then holds; a dropped or mis-sized target is queued for deletion on the backend it came from; nothing else on either backend changes |
| Rendering.RenderLayer.Recreate | cpp/p3/source/p3/RenderLayer.cpp:112-122 | the held target, if any, is queued for deletion on its own backend, and a new target of exactly the requested size is created on the context's backend and held; the layer is dirty |
| Rendering.MarkDirtyComposes | cpp/p3/source/p3/RenderLayer.cpp:157-160 | marking two sets of layers dirty one after the other marks their union |
| Rendering.DropTargetsComposes | cpp/p3/source/p3/RenderLayer.cpp:89-95 | resetting two sets of layers one after the other resets their union |
| Rendering.SteadyFrames | cpp/p3/source/p3/RenderLayer.cpp:24-155 | two frames with the same objects and extent paint at most once in total and leave the layer clean with a target |
| NodeRecords.DefaultLayoutProps | cpp/p3/source/p3/Layout.h:34-38 | a layout starts horizontal, space-between, stretch, with no spacing and 0.25em padding |
| NodeRecords.NewRec | cpp/p3/source/p3/Node.h:165-216 | a new node is visible, static, of size 0, with no parent, children or caption, and needs both an update and a restyle |
| NodeRecords.ContextualBasisKinds | cpp/p3/source/p3/Node.cpp:500-520 | a length basis gives the converted length whatever the automatic size and the content; a percentage basis ignores the automatic size and is linear in the content |
| NodeRecords.ContextualDependsOnContentOnlyForPercent | cpp/p3/source/p3/Node.cpp:500-520 | only a percentage basis depends on the content size |
| Nodes.DecimalStringReadsBack | cpp/p3/source/p3/Node.cpp:58 | an id's decimal string reads back as the id |
| Nodes.LabelsIdentifyNodes | cpp/p3/source/p3/Node.cpp:351-356 | two ImGui labels are equal only for the same node, whatever the captions |
| Nodes.RegistryAdd | cpp/p3/source/p3/Node.cpp:34-45 | the id handed out is the last released one or a fresh one, and is never live |
| Nodes.RegistryRelease | cpp/p3/source/p3/Node.cpp:47-51 | releasing a live id keeps the registry sound |
| Nodes.InvalidateTouchesOnlyUpdateFlags | cpp/p3/source/p3/Node.cpp:200-207 | `set_needs_update` changes no node but by setting `needs_update` |
| Nodes.Tree.Create | cpp/p3/source/p3/Node.cpp:34-45 | the new node takes the last released id when there is one, otherwise the next fresh id; its record is a new node's and its label is `##` and the id |
| Nodes.Tree.NodeCount | cpp/p3/source/p3/Node.cpp:185-188 | the number of live nodes |
| Nodes.Tree.Destroy | cpp/p3/source/p3/Node.cpp:65-71 | the node is gone, its children lose their parent, its id goes onto the pool; the tree stays valid |
| Nodes.Tree.SetNeedsUpdate | cpp/p3/source/p3/Node.cpp:190-208 | the nearest layer on the way to the root is dirty; the node and the unmarked ancestors below the first marked one get `needs_update`; the tree is valid again |
| Nodes.Tree.SetNeedsRestyle | cpp/p3/source/p3/Node.cpp:173-177 | the node needs a restyle, then as `set_needs_update` |
| Nodes.Tree.Insert | cpp/p3/source/p3/Node.cpp:241-248 | refused, with nothing changed, when the child has a parent or is an ancestor of the parent; otherwise linked at the index, marked for restyle and the tree kept valid |
| Nodes.Tree.Add | cpp/p3/source/p3/Node.cpp:233-239 | as `insert` at the end of the children |
| Nodes.Tree.Dispose | cpp/p3/source/p3/Node.cpp:590-596 | every layer in the subtree drops its target, each backend only gaining queued deletions |
| Nodes.Tree.Remove | cpp/p3/source/p3/Node.cpp:250-259 | the subtree is disposed, the child loses its parent and leaves the child list, and the parent is invalidated |
| Nodes.Tree.SetVisible | cpp/p3/source/p3/Node.cpp:427-433 | nothing changes when the value is the same; otherwise it is stored and the node is marked for restyle |
| Nodes.Tree.SetWidth | cpp/p3/source/p3/Node.cpp:628-635 | nothing changes when the new width compares equal to the old; otherwise it is stored and the node is marked for restyle |
| Nodes.Tree.SetHeight | cpp/p3/source/p3/Node.cpp:642-648 | nothing changes when the new height compares equal to the old; otherwise it is stored and the node is marked for restyle |
| Nodes.Tree.SetLabel | cpp/p3/source/p3/Node.cpp:351-356 | the caption is stored and the ImGui label is rebuilt from it and the id |
| Nodes.Tree.SetPosition | cpp/p3/source/p3/Node.cpp:475-478 | the position is stored and nothing is invalidated |
| Nodes.Tree.SetLayoutProps | cpp/p3/source/p3/Layout.cpp:276-324 | the layout properties are stored and the node is invalidated |
| Nodes.Tree.SetAttribute | cpp/p3/source/p3/Node.cpp:73-84 | fails with "attribute <name> not found" on an unknown name, or with the parse error; a failure changes nothing |
| Nodes.Tree.Render | cpp/p3/source/p3/Node.cpp:293-335 | a node is drawn exactly when visible and of non-negative area; its recorded size changes exactly when drawn at a new size |
| Nodes.Tree.UpdateRestyle | cpp/p3/source/p3/Node.cpp:138-171 | the tree ends as the restyle traversal leaves it, and stays valid |
| Restyles.Restyle | cpp/p3/source/p3/Node.cpp:138-171 | the traversal keeps the tree's shape and dirties only layers of the tree |
| Restyles.RestyleOutcome | cpp/p3/source/p3/Node.cpp:142-155 | a node that needs nothing and is not forced is left alone; otherwise its flags are cleared and, when it restyles, its own layer is dirty |
| Restyles.SecondRestyleIsNoop | cpp/p3/source/p3/Node.cpp:147-148 | restyling again right after a restyle changes nothing |
| Restyles.HiddenKidsAreSkipped | cpp/p3/source/p3/Node.cpp:161-164 | an invisible child is left as it was |
| Restyles.RestyleSettles | cpp/p3/source/p3/Node.cpp:138-171 | after the restyle no node in the subtree needs an update |
| Restyles.RestyleKeepsCoherent | cpp/p3/source/p3/Node.cpp:138-171 | a node that needs no update has no descendant that does, before and after the restyle |
| Arenas.InvalidateMarksUnmarkedPrefix | cpp/p3/source/p3/Node.cpp:200-207 | the node and exactly the run of unmarked ancestors above it get marked |
| Arenas.NearestLayerIsFirstOnWay | cpp/p3/source/p3/Node.cpp:192-199 | the layer found is the first one on the way from the node to the root |
| Arenas.InvalidateRestoresCoherence | cpp/p3/source/p3/Node.cpp:200-207 | invalidating the one node that may break coherence restores it |
| Arenas.MarkedUpToRoot | cpp/p3/source/p3/Node.cpp:200-207 | in a coherent tree every ancestor of a node that needs an update also needs one, so the upward walk may stop at the first marked node |
| Arenas.AddAsWritten | cpp/p3/source/p3/Node.cpp:225-231 | the check as written passes exactly when the child has no parent |
| Arenas.AddAsWrittenCreatesCycle | cpp/p3/source/p3/Node.cpp:225-248 | two parentless nodes added to each other both pass the check and make each the other's ancestor |
| Arenas.AddAsWrittenSelfLoop | cpp/p3/source/p3/Node.cpp:225-248 | a parentless node added to itself passes the check and becomes its own parent |
| Arenas.BeforeAdd | cpp/p3/source/p3/Node.cpp:225-231 | passes exactly when the child has no parent and is not an ancestor of the new parent |
| Arenas.LinkKeepsClosed | cpp/p3/source/p3/Node.cpp:233-248 | an accepted link keeps the tree acyclic |
| Arenas.AttachEffect | cpp/p3/source/p3/Node.cpp:241-248 | the child sits at the index with the parent as its parent, is marked for restyle and update, and the parent is marked |
| Arenas.UnlinkKeepsClosed | cpp/p3/source/p3/Node.cpp:250-259 | unlinking keeps the tree acyclic |
| Arenas.ReleaseKeepsClosed | cpp/p3/source/p3/Node.cpp:65-71 | destroying a node and orphaning its children keeps the tree acyclic |
| Layouts.FlowAppend | cpp/p3/source/p3/Layout.cpp:26-47 | the in-flow children keep their order |
| Layouts.MaxOrZeroIsMax | cpp/p3/source/p3/Layout.cpp:39-47 | the maximum is at least 0, covers every child, and is 0 or one of them |
| Layouts.SumWithGapsIsSumPlusGaps | cpp/p3/source/p3/Layout.cpp:26-38 | stacking is the sum of the sizes plus one spacing between each pair of neighbours |
| Layouts.StackSizes | cpp/p3/source/p3/Layout.cpp:26-38 | the stacking loop yields the in-flow children's sizes with one spacing between neighbours |
| Layouts.MaxSize | cpp/p3/source/p3/Layout.cpp:39-47 | the maximum loop yields the largest in-flow child's size, or 0 |
| Layouts.UpdateContent | cpp/p3/source/p3/Layout.cpp:23-72 | the automatic width and height: along the direction the stacked sizes, across it the largest, plus the frame padding on each side; an axis with a basis is left alone |
| Layouts.EmptyLayoutIsPadding | cpp/p3/source/p3/Layout.cpp:23-72 | with no in-flow child the automatic size is the padding alone |
| Layouts.AutoSizeBounds | cpp/p3/source/p3/Layout.cpp:23-72 | along the stacking axis the automatic size is the sizes plus the gaps plus the padding; across it covers every in-flow child |
| Layouts.MainSize | cpp/p3/source/p3/Layout.cpp:115-118 | a growing item gains its share of the free space, a shrinking one loses at least the epsilon, any other keeps its basis |
| Layouts.CrossPlacement | cpp/p3/source/p3/Layout.cpp:122-142 | stretch fills the cross extent; start, center and end place the item's own cross size at the start, middle and end |
| Layouts.Justify | cpp/p3/source/p3/Layout.cpp:144-161 | justification adds nothing unless no item grows and there is free space |
| Layouts.ScanLine | cpp/p3/source/p3/Layout.cpp:94-106 | the first scan yields the count, the bases with gaps and the grow total of the in-flow children |
| Layouts.AddGaps | cpp/p3/source/p3/Layout.cpp:191-192 | the vertical scan's gaps are `(n - 1)` spacings for at least two items |
| Layouts.PlaceOne | cpp/p3/source/p3/Layout.cpp:108-175 | one child's rectangle is its slot in the line, and the cursor moves to the next slot's start |
| Layouts.PlaceLine | cpp/p3/source/p3/Layout.cpp:108-175 | every in-flow child gets its slot's rectangle, in order; other children are skipped |
| Layouts.RenderImpl | cpp/p3/source/p3/Layout.cpp:74-257 | the rectangles are exactly the line's slots for the in-flow children, along the layout's axis |
| Layouts.CursorAtIsPrefixSum | cpp/p3/source/p3/Layout.cpp:172-173 | the cursor before an item is the start plus the earlier offsets, sizes and spacings |
| Layouts.GrowFillsContent | cpp/p3/source/p3/Layout.cpp:115-118 | when anything grows, the grown sizes and gaps exactly fill the content extent |
| Layouts.NoOffsetsWhenGrowing | cpp/p3/source/p3/Layout.cpp:144-161 | when an item grows, no justification offset is added |
| Layouts.ShrinkLosesEpsilon | cpp/p3/source/p3/Layout.cpp:115-118 | a shrinking item ends exactly the epsilon below its basis, however far the line overflows |
| Layouts.ShrinkEpsilonPerDirection | cpp/p3/source/p3/Layout.cpp:115-118 | on an overfull line, each shrinking item is laid out exactly 0.1 below its basis in a horizontal layout and 0.0001 below it in a vertical one (the vertical branch is Layout.cpp:200-203) |
| Layouts.BasesWhenNotGrowing | cpp/p3/source/p3/Layout.cpp:108-175 | with spare room and no growing item the main sizes add up to the bases |
| Layouts.JustifyDistributesFreeSpace | cpp/p3/source/p3/Layout.cpp:144-161 | with free space and nothing growing, the free space splits into a lead before the first item and a trail after the last as each justification prescribes: start all after, end all before, center half each, space-around one share each side, space-between none unless there is a single item |
| Layouts.GrowExample | cpp/p3/source/p3/Layout.cpp:115-118 | two items of basis 50 with grow 1 and 2 in a 300 line get 350/3 and 550/3, side by side, stretched across |
| Layouts.SpaceBetweenExample | cpp/p3/source/p3/Layout.cpp:144-161 | two items of 50 in a 300 line with space-between sit at 0 and 250, centred across |

## Left out

- Every call into ImGui, Skia and GLFW is left out: drawing, `glfwInit`, `glfwPollEvents`, `glfwTerminate`, `AddImage`, the canvas, the work rectangle, the cursor moves of `render`, debug drawing and the alpha of disabled nodes. Their results that the core reads are parameters: the style values, the viewport and the font size.
- Threads are not modelled: the mutex, the condition variables and the 500 ms poll timeout of the platform loop. The clock is a finite sequence of readings, and a run that exhausts them stops, which the contracts state.
- `Event::create` and `FunctionalEvent` are left out. A task is an id plus an effect on its loop: nothing, stop or close.
- Observers cannot change the loop. Each observer call is recorded in the log instead.
- The observer loop of `event_loop.cpp:57-58` is not modelled. The plain loop's header declares no observer list for it to read.
- Thread-local globals become explicit state. `current_context` is a `ContextSlot` object. The registry's count, pool and next id are fields of `Tree`. `EventLoop::current` (platform/event_loop.cpp:29-38) is not modelled.
- `tokenize` (string_utils.h:63-68) is not modelled, because no core operation calls it.
- `float` is modelled as `real`. The model has no NaN, no infinity and no rounding.
  - The `uint32_t` cast of a target extent is the floor.
  - A zero grow total in the shrink branch takes the epsilon. For a positive shrink weight this is what `max(eps, -inf)` gives. For a negative shrink weight the source computes `max(eps, +inf)` and the size becomes minus infinity (Layout.cpp:117-118, 202-203); the model still takes the epsilon.
  - A percentage basis divides exactly.
- These parts of Node.cpp are not modelled: `update_status`, `postpone`, `redraw`, `render_absolute`, `set_left`, `set_top`, `set_color`, the mouse handlers and the resize callbacks. They only forward to ImGui or to callbacks.
- The `RenderLayer` destructor is not modelled separately. Its effect is `Rendering.RenderLayer.Reset`.
- These are not part of this model: the theme, `UserInterface` beyond its `rem`, the widgets, the builder and the Python bindings.
- Heaps.DrainDue: a drain compares against one clock reading `now`. The source reads the clock again on every turn of its drain loop (event_loop.cpp:33, platform/event_loop.cpp:79). So a task that falls due during a drain runs in that same pass in the source, but in the next pass in the model.
- Layouts.MainSize: when `grow_total` is 0 but an item's grow weight is not (weights 1 and -1, say), the source divides by zero (Layout.cpp:116 and 201). The model adds nothing to that item's basis instead.
- The layout reads each node's computed style (`style_computation()`: direction, alignment, justification, grow and shrink weights, bases, position). The model reads the node's own stored properties instead, as if no style block or theme overrode them. Style blocks, the cascade and the theme are not part of this model.
- Heaps.PushHeap: the heap is a textbook sift-up and sift-down. It does not reproduce libstdc++'s exact arrangement of equal deadlines. Only the order of distinct deadlines is promised.
- Nodes.Tree.Remove: the source does not check that the node is a child of this one, so the model does not require it either. Removing a node that is not a child still disposes it and clears its parent.
- Nodes.Tree.Render: only the guards and the size bookkeeping are modelled. The drawing is left out.
- Nodes.Tree.Insert: an index past the end is excluded by a precondition. `std::advance` past the end is undefined behaviour in the source.
- The render layers' painting is counted, not drawn. Each repaint adds one to `paints`.

## Findings

| source | as written | input that shows it | evidently intended | confidence | as-written member | corrected member |
|---|---|---|---|---|---|---|
| cpp/p3/source/p3/Node.cpp:225-248 | `before_add` only refuses a node that already has a parent, so `a.add(b); b.add(a)` or `a.add(a)` links a node under itself. The `add` that closes the cycle then never returns when no node of the cycle owns a render layer: its `set_needs_restyle` calls `set_needs_update`, whose upward search for a layer (Node.cpp:192-198) goes round the cycle forever. Otherwise `update_restyle` and `dispose` recurse without end. | two parentless nodes 0 and 1: add 1 under 0, then 0 under 1 (Arenas.TwoRoots); or add 0 under itself | refuse a node that would become its own ancestor | not executed; medium | Arenas.AddAsWrittenCreatesCycle, Arenas.AddAsWrittenSelfLoop | Arenas.BeforeAdd, Arenas.LinkKeepsClosed, used by Nodes.Tree.Add and Nodes.Tree.Insert |
