# SectionAdapter in Dafny

A model of the core of SectionAdapter, an Android `RecyclerView` adapter
that shows sections and their child nodes as one flat list. It covers:

- dragging items within (or, if allowed, across) sections;
- swiping items;
- collapsing and expanding a section from its header's view holder.

The model has five modules.

- `Extensions` (`extensions.dfy`) models `List<T>.move`.
  - `Moved` is the slice-level specification.
  - `Move` is the copy/remove/insert algorithm over a buffer, proved equal to `Moved`.
  - Lemmas show that `Moved` is a permutation, that position `fromPos` ends up at `toPos` and the elements in between shift by one, and that moving back undoes a move.
- `Nodes` (`node.dfy`) models the `Node` and `Section` interfaces as one datatype.
  - `id` stands for the object reference that `===` compares.
  - `cls` stands for `javaClass`.
  - The abstract `propertyDiff` is a function parameter.
- `SectionAdapters` (`section_adapter.dfy`) holds the adapter (`class SectionAdapter`).
  - Its state is the flat list `dataset`, the header map `sectionsMapping` and the six policy flags.
  - `differ.submitList(x)` is modelled as the immediate assignment `dataset := x`.
  - The module also holds the section view holder (`class SectionViewHolder`), with its `collapsed` flag and the list surgery of `collapseSection` and `expandSection`.
  - Three functions describe the list `submitSections` builds: `Flatten`, `HeaderMap` and `Offset` (the index of section `j`'s header).
  - `LimitsAt` characterises the drag limits computed by `findLimitsForNode`.
  - `MoveStaysInSection` puts these together. Right after `submitSections`, on a list without repeated items, with cross-section moves off, a child of a section may be dragged exactly onto the positions of that section's children.
- `DragNSwipe` (`drag_n_swipe_callback.dfy`) holds the `ItemTouchHelper.Callback` subclass and its touch listener.
  - The adapter that the callback talks to is a recording object. Its answers are functions of the calls it has received so far, so every contract can say exactly which calls the callback makes.
- `Wrappers` (`wrappers.dfy`) provides `Option`, which stands for Kotlin's nullable event.

Behaviour of the code as written, which the model keeps:

- The header map is rebuilt only by `submitNodes` and `submitSections`. `OnItemMove`, `CollapseSection` and `ExpandSection` leave it as it was. After a drag or a collapse, the limits of later drags come from the header indices of the last submission.
- `findLimitsForNode` locates the item by `indexOf`, which finds the first equal item. `IndexOfDistinct` shows this is the dragged position when the list has no repeated items.
- `toggleCollapse` collapses when `collapsed` is already true and expands when it is false. `collapseSection` and `expandSection` then set `collapsed` to the value it already had. So `ToggleCollapse` never changes `collapsed`, and its contract says so. A subclass may flip the protected flag itself before calling it.
- `submitSections` always puts every child after its section; `collapsedByDefault` and `canBeCollapsed` are never read. Whether a section can be collapsed is decided by `isCollapsible()` (false unless overridden), which is modelled as the view holder's `collapsible`.
- `submitNodes` records the index of every `Section` among the bare nodes in the header map.
- No submission is rejected: there is no duplicate-key check.

So the code does not do four things one might expect of it. `submitSections`
still emits the children of a section that is collapsed. `canBeCollapsed` is
never read. Bare-node mode still records section indices. Key collisions are
not rejected. The model follows the code on all four.

One `id` stands for one node object. Two values with the same `id` are meant
to be the same node, with the same class and fields. The datatype does not
enforce this, so a lemma about two distinct nodes states `self.id != obj.id`
as a premise. This is why `DifferentClassesDiffer` requires it.

## Model

| member | source | states |
|---|---|---|
| Extensions.Moved | sectionadapter/src/main/java/com/sectionadapter/Extensions.kt:3-7 | The moved list is as long as the input, and the element taken from `fromPos` sits at `toPos` |
| Extensions.MovedAt | sectionadapter/src/main/java/com/sectionadapter/Extensions.kt:3-7 | Position by position: the moved element lands at `toPos`; elements between the two positions shift one step toward `fromPos`; positions outside both keep their element |
| Extensions.MovedIsPermutation | sectionadapter/src/main/java/com/sectionadapter/Extensions.kt:3-7 | `move` neither loses nor duplicates an element (same multiset) |
| Extensions.MovedToSelf | sectionadapter/src/main/java/com/sectionadapter/Extensions.kt:3-7 | Moving an element onto its own position returns an equal list |
| Extensions.MovedInverse | sectionadapter/src/main/java/com/sectionadapter/Extensions.kt:3-7 | Moving from `toPos` back to `fromPos` restores the original list |
| Extensions.RemoveAt | sectionadapter/src/main/java/com/sectionadapter/Extensions.kt:5 | `removeAt(pos)` on the copied buffer: slots before `pos` keep their element and every later slot takes its right neighbour's |
| Extensions.ShiftRight | sectionadapter/src/main/java/com/sectionadapter/Extensions.kt:6 | The shift of `add(pos, elem)`: slots before `pos` keep their element and every later slot takes its left neighbour's |
| Extensions.MovedFromSteps | sectionadapter/src/main/java/com/sectionadapter/Extensions.kt:4-6 | A remove step followed by an insert step of that shape yields exactly `Moved` |
| Extensions.Move | sectionadapter/src/main/java/com/sectionadapter/Extensions.kt:3-7 | The `removeAt` + `add` algorithm on a copied buffer returns exactly `Moved(l, fromPos, toPos)` |
| Nodes.AreContentsTheSame | sectionadapter/src/main/java/com/sectionadapter/Node.kt:6-10 | The same reference always compares equal. Nodes compare equal only if they are the same reference or of the same class |
| Nodes.SameReferenceIsSame | sectionadapter/src/main/java/com/sectionadapter/Node.kt:7 | The same reference always has the same contents, whatever `propertyDiff` says |
| Nodes.DifferentClassesDiffer | sectionadapter/src/main/java/com/sectionadapter/Node.kt:8 | Distinct references of different classes never have the same contents |
| Nodes.SameClassDelegates | sectionadapter/src/main/java/com/sectionadapter/Node.kt:9 | Distinct references of one class compare exactly as `propertyDiff` says |
| Nodes.ContentsReflexive | sectionadapter/src/main/java/com/sectionadapter/Node.kt:6-10 | Content comparison is reflexive even for a non-reflexive `propertyDiff` |
| Nodes.ContentsSymmetric | sectionadapter/src/main/java/com/sectionadapter/Node.kt:6-10 | Content comparison is symmetric whenever `propertyDiff` is |
| SectionAdapters.IndexOf | sectionadapter/src/main/java/com/sectionadapter/SectionAdapter.kt:33 | `indexOf` is -1 exactly when the item is absent; otherwise it is a position holding the item with no earlier occurrence |
| SectionAdapters.IndexOfAfter | sectionadapter/src/main/java/com/sectionadapter/SectionAdapter.kt:140 | The index found is the one right after a prefix that does not contain the item |
| SectionAdapters.IndexOfDistinct | sectionadapter/src/main/java/com/sectionadapter/SectionAdapter.kt:45 | In a list without repeats, `indexOf(dataset[p])` is `p`, so the limits are those of the dragged position |
| SectionAdapters.RemoveAll | sectionadapter/src/main/java/com/sectionadapter/SectionAdapter.kt:133 | `removeAll` never makes the list longer |
| SectionAdapters.RemoveAllMember | sectionadapter/src/main/java/com/sectionadapter/SectionAdapter.kt:133 | An item survives `removeAll(xs)` if and only if it was in the list and is not in `xs` |
| SectionAdapters.RemoveAllConcat | sectionadapter/src/main/java/com/sectionadapter/SectionAdapter.kt:133 | `removeAll` keeps survivors in order: it distributes over concatenation |
| SectionAdapters.RemoveAllDisjoint | sectionadapter/src/main/java/com/sectionadapter/SectionAdapter.kt:133 | A list with no element in `xs` is left unchanged |
| SectionAdapters.RemoveAllCovered | sectionadapter/src/main/java/com/sectionadapter/SectionAdapter.kt:133 | A list all of whose elements are in `xs` is emptied |
| SectionAdapters.Flatten | sectionadapter/src/main/java/com/sectionadapter/SectionAdapter.kt:159-169 | The list `submitSections` builds, each section followed by its children. It has at least one item per section; its layout is given by `FlattenFront` and `FlattenLayout` |
| SectionAdapters.HeaderMap | sectionadapter/src/main/java/com/sectionadapter/SectionAdapter.kt:161-166 | The header map `submitSections` records: at most one entry per section. Its keys and values are given by `HeaderMapAt` and `HeaderMapKey` |
| SectionAdapters.FlattenFront | sectionadapter/src/main/java/com/sectionadapter/SectionAdapter.kt:162-167 | The built list starts with the first section followed by its children |
| SectionAdapters.FlattenLength | sectionadapter/src/main/java/com/sectionadapter/SectionAdapter.kt:159-169 | The built list has one entry per section plus one per child |
| SectionAdapters.FlattenPrefix | sectionadapter/src/main/java/com/sectionadapter/SectionAdapter.kt:162-167 | What is built from the first `m` sections is a prefix of what is built from all of them |
| SectionAdapters.OffsetOfPrefix | sectionadapter/src/main/java/com/sectionadapter/SectionAdapter.kt:164 | A header's index depends only on the sections before it |
| SectionAdapters.FlattenPrefixLength | sectionadapter/src/main/java/com/sectionadapter/SectionAdapter.kt:164 | The list built from the first `j` sections is exactly as long as header `j`'s index |
| SectionAdapters.FlattenLayout | sectionadapter/src/main/java/com/sectionadapter/SectionAdapter.kt:162-167 | Section `j` sits at `Offset(j)`, and the slots up to `Offset(j+1)` are exactly its children, in order |
| SectionAdapters.FlattenTotal | sectionadapter/src/main/java/com/sectionadapter/SectionAdapter.kt:159-169 | The list length is `Offset(|sections|)` |
| SectionAdapters.OffsetMonotone | sectionadapter/src/main/java/com/sectionadapter/SectionAdapter.kt:164 | Header indices strictly increase with the section index |
| SectionAdapters.HeaderMapAt | sectionadapter/src/main/java/com/sectionadapter/SectionAdapter.kt:164-166 | Each section's header index is a key of the header map and maps to that section |
| SectionAdapters.HeaderMapKey | sectionadapter/src/main/java/com/sectionadapter/SectionAdapter.kt:164-166 | Every key of the header map is some section's header index |
| SectionAdapters.HeaderMapMatchesDataset | sectionadapter/src/main/java/com/sectionadapter/SectionAdapter.kt:159-169 | Every recorded header index is in range and holds the section it maps to |
| SectionAdapters.HeadersOutsideSection | sectionadapter/src/main/java/com/sectionadapter/SectionAdapter.kt:159-169 | No header index falls strictly inside a section's children, and none lies after the last header |
| SectionAdapters.MaxOf | sectionadapter/src/main/java/com/sectionadapter/SectionAdapter.kt:34-36 | Over the keys below the item, `minBy { nodeIndex - it }` picks the largest such key |
| SectionAdapters.MinOf | sectionadapter/src/main/java/com/sectionadapter/SectionAdapter.kt:37-39 | `sorted().firstOrNull { it > nodeIndex }` picks the smallest key above the item |
| SectionAdapters.LowerLimit | sectionadapter/src/main/java/com/sectionadapter/SectionAdapter.kt:34-36 | The first limit is one past the nearest header strictly below the item, or 0 when there is none. No header below the item lies at or above it |
| SectionAdapters.UpperLimit | sectionadapter/src/main/java/com/sectionadapter/SectionAdapter.kt:37-39 | The second limit is one before the nearest header strictly above the item, or size - 1 when there is none. No header above the item lies at or below it |
| SectionAdapters.LimitsAt | sectionadapter/src/main/java/com/sectionadapter/SectionAdapter.kt:32-41 | The pair is (`LowerLimit`, `UpperLimit`). It encloses the item whenever the item's index is a position of the list, and no header other than the item lies within it |
| SectionAdapters.SubmittedLower | sectionadapter/src/main/java/com/sectionadapter/SectionAdapter.kt:34-36 | After `submitSections`, the nearest header below a child of section `j` is section `j`'s own |
| SectionAdapters.SubmittedUpper | sectionadapter/src/main/java/com/sectionadapter/SectionAdapter.kt:37-39 | After `submitSections`, the nearest header above a child of section `j` is section `j + 1`'s, or the list ends with section `j`'s children |
| SectionAdapters.SubmittedLimits | sectionadapter/src/main/java/com/sectionadapter/SectionAdapter.kt:32-41 | After `submitSections`, the limits for a child of section `j` are exactly the first and last child slots of that section |
| SectionAdapters.Collapsed | sectionadapter/src/main/java/com/sectionadapter/SectionAdapter.kt:131-134 | The list `collapseSection` submits is no longer than before. No child of the section is in it, and any other item is in it exactly when it was in the old list |
| SectionAdapters.RemoveAllMembers | sectionadapter/src/main/java/com/sectionadapter/SectionAdapter.kt:133 | `RemoveAllMember` for every item at once |
| SectionAdapters.Expanded | sectionadapter/src/main/java/com/sectionadapter/SectionAdapter.kt:138-147 | Expanding adds exactly the children. They go in order right after the first occurrence of the section, or at the front if the section is absent (`indexOf` = -1) |
| SectionAdapters.CollapsedLayout | sectionadapter/src/main/java/com/sectionadapter/SectionAdapter.kt:131-136 | Collapsing a section whose children occur only after its header leaves the header where it was, with the rest unchanged |
| SectionAdapters.ExpandedLayout | sectionadapter/src/main/java/com/sectionadapter/SectionAdapter.kt:138-147 | Expanding puts the children right after the first occurrence of the header |
| SectionAdapters.CollapseThenExpand | sectionadapter/src/main/java/com/sectionadapter/SectionAdapter.kt:125-147 | Collapse followed by expand restores the list, when the children occur nowhere else |
| SectionAdapters.ItemsTheSame | sectionadapter/src/main/java/com/sectionadapter/SectionAdapter.kt:172-174 | An item is always the same item as itself, and two items can be the same only if their keys agree |
| SectionAdapters.ContentsTheSame | sectionadapter/src/main/java/com/sectionadapter/SectionAdapter.kt:176-178 | The diff's content check: true for the same reference, and possible otherwise only for items of the same class |
| SectionAdapters.ItemsTheSameIsKeyEquivalence | sectionadapter/src/main/java/com/sectionadapter/SectionAdapter.kt:172-174 | Item identity for diffing is an equivalence relation. It holds exactly when the keys agree |
| SectionAdapters.ContentsTheSameReflexive | sectionadapter/src/main/java/com/sectionadapter/SectionAdapter.kt:176-178 | An item always has the same contents as itself |
| SectionAdapters.SectionAdapter.constructor | sectionadapter/src/main/java/com/sectionadapter/SectionAdapter.kt:15-63 | A new adapter has an empty list and header map, and every policy flag off |
| SectionAdapters.SectionAdapter.FindLimitsForNode | sectionadapter/src/main/java/com/sectionadapter/SectionAdapter.kt:32-41 | A listed item's index lies within its limits, and no recorded header other than the item lies inside them |
| SectionAdapters.SectionAdapter.AcceptsMove | sectionadapter/src/main/java/com/sectionadapter/SectionAdapter.kt:44-53 | The move condition of `onItemMove`. It always holds when cross-section moves are on, and it holds for a move onto the item's own index. With cross-section moves off, an accepted move never crosses a recorded header: every other header lies below both the item and the target, or above both |
| SectionAdapters.SectionAdapter.OnItemMove | sectionadapter/src/main/java/com/sectionadapter/SectionAdapter.kt:43-55 | Accepted exactly when cross-section moves are on or the target is within the dragged item's limits. When accepted, the list is the `move` of the old one; when refused, the list is unchanged. The header map is never changed |
| SectionAdapters.SectionAdapter.MoveStaysInSection | sectionadapter/src/main/java/com/sectionadapter/SectionAdapter.kt:43-49 | Right after `submitSections` on a list without repeats, with cross-section moves off, a child of section `j` is accepted onto a target if and only if that target is one of section `j`'s child slots |
| SectionAdapters.SectionAdapter.GetItemViewType | sectionadapter/src/main/java/com/sectionadapter/SectionAdapter.kt:107-112 | `SECTION` exactly for a section, `NODE` exactly for anything else |
| SectionAdapters.SectionAdapter.CanItemBeMoved | sectionadapter/src/main/java/com/sectionadapter/SectionAdapter.kt:65-70 | The section policy for items whose view type is `SECTION`, the node policy otherwise |
| SectionAdapters.SectionAdapter.CanItemBeSwiped | sectionadapter/src/main/java/com/sectionadapter/SectionAdapter.kt:72-77 | The section policy for items whose view type is `SECTION`, the node policy otherwise |
| SectionAdapters.SectionAdapter.DispatchOnlyOnSectionness | sectionadapter/src/main/java/com/sectionadapter/SectionAdapter.kt:65-81 | Two positions that are both sections, or both not, get the same view type and the same move, swipe and `swipeBack` answers |
| SectionAdapters.SectionAdapter.SubmitNodes | sectionadapter/src/main/java/com/sectionadapter/SectionAdapter.kt:150-157 | The list becomes `items`; the header map holds exactly the indices of the sections among them, each mapped to its own item |
| SectionAdapters.SectionAdapter.SubmitSections | sectionadapter/src/main/java/com/sectionadapter/SectionAdapter.kt:159-169 | The list becomes every section followed by its children. The header map becomes the header indices, and each recorded index holds its section |
| SectionAdapters.SectionViewHolder.constructor | sectionadapter/src/main/java/com/sectionadapter/SectionAdapter.kt:120-122 | A new view holder starts expanded (`collapsed` false) |
| SectionAdapters.SectionViewHolder.CollapseSection | sectionadapter/src/main/java/com/sectionadapter/SectionAdapter.kt:131-136 | The list loses every child of the section and keeps the rest in order; `collapsed` becomes true |
| SectionAdapters.SectionViewHolder.ExpandSection | sectionadapter/src/main/java/com/sectionadapter/SectionAdapter.kt:138-147 | The children are inserted in order after the first occurrence of the section; `collapsed` becomes false |
| SectionAdapters.SectionViewHolder.ToggleCollapse | sectionadapter/src/main/java/com/sectionadapter/SectionAdapter.kt:125-129 | Nothing happens unless collapsible. Otherwise it collapses when `collapsed` and expands when not; `collapsed` ends as it started |
| DragNSwipe.TouchAdapter.SwipeBack | sectionadapter/src/main/java/com/sectionadapter/DragNSwipeCallback.kt:127 | `swipeBack` is true unless the implementation overrides it |
| DragNSwipe.TouchAdapter.OnItemMove | sectionadapter/src/main/java/com/sectionadapter/DragNSwipeCallback.kt:142 | The adapter records the step and answers as its implementation decides |
| DragNSwipe.TouchAdapter.OnItemMoveEnded | sectionadapter/src/main/java/com/sectionadapter/DragNSwipeCallback.kt:143 | The adapter records the end of a drag |
| DragNSwipe.TouchAdapter.OnItemSwiped | sectionadapter/src/main/java/com/sectionadapter/DragNSwipeCallback.kt:156 | The adapter records the swipe with its direction |
| DragNSwipe.DragNSwipeCallback.constructor | sectionadapter/src/main/java/com/sectionadapter/DragNSwipeCallback.kt:12-70 | A new callback has no drag in progress (`dragFrom` = `dragTo` = -1) and no pending swipe-back |
| DragNSwipe.DragNSwipeCallback.GetMovementFlags | sectionadapter/src/main/java/com/sectionadapter/DragNSwipeCallback.kt:21-32 | Drag flags are UP and DOWN exactly when the item can be moved and 0 otherwise. Swipe flags are START and END exactly when it can be swiped and 0 otherwise. No other bit is ever set |
| DragNSwipe.DragNSwipeCallback.OnMove | sectionadapter/src/main/java/com/sectionadapter/DragNSwipeCallback.kt:34-46 | The first step anchors `dragFrom` and later steps keep it; `dragTo` is always the latest target. The step goes to the adapter, whose answer is returned |
| DragNSwipe.DragNSwipeCallback.ClearView | sectionadapter/src/main/java/com/sectionadapter/DragNSwipeCallback.kt:48-55 | A drag that started and ended on different positions is reported once and then reset to -1/-1. Otherwise nothing is reported and nothing changes |
| DragNSwipe.DragNSwipeCallback.ConvertToAbsoluteDirection | sectionadapter/src/main/java/com/sectionadapter/DragNSwipeCallback.kt:101-107 | A pending swipe-back yields 0 and is cleared; otherwise the library's conversion is returned. Afterwards no swipe-back is pending |
| DragNSwipe.DragNSwipeCallback.OnSwiped | sectionadapter/src/main/java/com/sectionadapter/DragNSwipeCallback.kt:109-111 | The swipe is forwarded to the adapter unchanged |
| DragNSwipe.ReleasedPastThreshold | sectionadapter/src/main/java/com/sectionadapter/DragNSwipeCallback.kt:86 | A release counts as a swipe exactly when it lies more than the threshold to the left or to the right of the press |
| DragNSwipe.ReleaseDirection | sectionadapter/src/main/java/com/sectionadapter/DragNSwipeCallback.kt:90-91 | `FOCUS_RIGHT` exactly for a release to the left of the press, `FOCUS_LEFT` exactly for one at or to the right of it |
| DragNSwipe.ThresholdIsStrict | sectionadapter/src/main/java/com/sectionadapter/DragNSwipeCallback.kt:86-91 | In either direction, a release counts as a swipe exactly when its distance exceeds the threshold. A release to the left reports `FOCUS_RIGHT`; one to the right (or at the start) reports `FOCUS_LEFT` |
| DragNSwipe.SwipeTouchListener.constructor | sectionadapter/src/main/java/com/sectionadapter/DragNSwipeCallback.kt:79 | A new listener starts with `startX` = -1 |
| DragNSwipe.SwipeTouchListener.OnTouch | sectionadapter/src/main/java/com/sectionadapter/DragNSwipeCallback.kt:81-97 | A press records its x. A release beyond the threshold sets `swipeBack` and reports one swipe in the release direction. Any other release, move, cancel or null event changes nothing. The event is never consumed |
| DragNSwipe.DragIsReportedOnce | sectionadapter/src/main/java/com/sectionadapter/DragNSwipeCallback.kt:34-55 | A two-step drag followed by a release sends both steps and exactly one end report, from the first origin to the last target. It leaves the callback ready for the next drag |
| DragNSwipe.DragBackIsNotReported | sectionadapter/src/main/java/com/sectionadapter/DragNSwipeCallback.kt:34-55 | A drag that returns to its origin sends its steps but no end report, and keeps its anchor |
| DragNSwipe.SwipeBackIsOneShot | sectionadapter/src/main/java/com/sectionadapter/DragNSwipeCallback.kt:81-107 | After a press and a release past the threshold, the swipe is reported once. The next direction conversion yields 0, and the one after that is the library's again |

## Left out

- `AsyncListDiffer` and `DiffUtil`: the background diff and its delivery are library code. `submitList` is modelled as the synchronous replacement of `dataset`. `ItemsTheSame` and `ContentsTheSame` model the two callbacks the diff uses.
- View holders' creation and binding (`onCreateViewHolder`, `onBindViewHolder`, `bindNode`, `bindSection`) and `getItemCount`: they only drive views.
- `onChildDraw` and `setTouchListener`: they install the touch listener through the view system. `SwipeTouchListener` models the installed listener directly.
- `getSwipeThreshold` is the library's and is a parameter of `OnTouch`. The held view's adapter position is a parameter too.
- `DragNSwipe.DragNSwipeCallback.GetMovementFlags`: returns the (drag, swipe) pair it passes to `makeMovementFlags`, not the packed integer, because the packing is library code.
- `DragNSwipe.SwipeTouchListener.OnTouch`: Kotlin's `Float` coordinates are exact `real`s here, so float rounding in the threshold comparison is not modelled.
- `isLongPressDragEnabled` and `isItemViewSwipeEnabled` only return the constructor's `dragEnabled` and `swipeEnabled`, which are fields of the model.
- `SectionAdapters.SectionAdapter.SwipeBack` returns the adapter-wide flag. It has no contract of its own; `DispatchOnlyOnSectionness` states that it does not depend on the position.
- `SectionAdapter.onItemMoveEnded` and `onItemSwiped` have empty bodies, so the adapter model holds nothing for them. The callback's calls to them are modelled on the recording `TouchAdapter`.
- `SectionAdapters.RemoveAll`: its own contract only bounds the length. What survives is stated by `RemoveAllMember`, `RemoveAllConcat`, `RemoveAllDisjoint` and `RemoveAllCovered`.
- Positions out of range are excluded by `requires` clauses. This covers `OnItemMove` (its `fromPosition`, and `toPosition` whenever the move is performed), `GetItemViewType`, `CanItemBeMoved`, `CanItemBeSwiped` and `AcceptsMove`. In the source such calls throw `IndexOutOfBoundsException` from `dataset[...]` or from `move`'s `removeAt`/`add`; `onItemMove(0, -1)` with cross-section moves on is an example. The model does not describe those exceptions, because `RecyclerView` only passes current adapter positions.
- `DragNSwipeCallback`'s default argument `swipeEnabled = true` is not modelled: the constructor always takes `swipeEnabled` explicitly. The call to `super.clearView` in `clearView` is library code (it resets the item view) and is left out.
- Kotlin `equals` on nodes (used by `indexOf` and `removeAll`) is Dafny value equality on the `Node` datatype.
- A node's mutable properties (`key`, `canBeCollapsed`, `nodes`) are modelled as immutable values. `collapsedByDefault` and `canBeCollapsed` are carried but, as in the code, never read.
- `DataBindingSectionAdapter.kt` is not part of this model.
