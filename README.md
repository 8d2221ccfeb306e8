# Marker categories and the MultiList contract, modelled in Dafny

This project models two small pieces of the Eclipse Platform UI:

- **`MarkerCategory`** (markers view, `org.eclipse.ui.internal.views.markers`): a category node that shows
  entries `start..end` (both inclusive) of the marker entry array held by its `Markers`. It builds its child
  array lazily and only once: a copy of that window, with every child entry pointed back at the category. It
  caches the highest severity of its concrete children, found by a max scan that stops as soon as the
  error level is reached. It chooses one of three description labels, and it defines value equality on
  `(markers, name)` with a hash code that agrees with it.
- **`MultiList`**, as the data-binding tests pin it down: a list that is the concatenation of child
  writable lists. It is stale when any child is stale. It fires a stale event only on the edge from
  not stale to stale. Each add to a child is re-fired as exactly one change event, whose diff position is
  shifted by the total size of the children before that child.

Files:

- `marker_category.dfy`, module `MarkerCategories`: the class `MarkerCategory` with its cached fields; the
  two collaborators reduced to what the category uses (`Markers`: the entry array and the generator's limit
  settings; `MarkerEntry`: its concreteness, its attributes, its category back-pointer, whether it holds
  cached values); the severity scan as a function (`ScanSeverity`), an independent maximum
  (`MaxSeverity`) and the lemmas that connect them; the label choice; `Equals` and `HashCode`.
- `multi_list.dfy`, module `MultiLists`: diff entries and what applying them means (`Transforms`), the
  concatenation (`Concat`) and the child offsets (`Offset`), lemmas that rebasing a child's diff by its
  offset is correct, and the class `MultiList`. Its state is the children's contents, their stale flags,
  the log of fired change events and the number of fired stale events.
- `multi_list_test.dfy`, module `MultiListScenarios`: each test of `MultiListTest` as a verified method that
  returns what the test observes, with the test's assertions as its postcondition, and the conformance
  `Delegate`.

Behaviour worth knowing, as the code has it:

- `getHighestSeverity` sets the cache to 0 before it builds the children. The model keeps that order.
- `getHighestSeverity` returns early only when the running value is *exactly* `SEVERITY_ERROR`. For
  severities in 0..2 the result is the maximum over the concrete children (`HighestSeverityIsMax`).
  When an attribute exceeds 2, the result depends on where that entry sits relative to the first
  error-level entry; `ScanSeverity` models this exactly.
- `clearCache` clears the children's caches only. It builds the children if needed. It does not reset the
  category's own cached severity or child array.
- Once built, the child array is never rebuilt. Later changes to the `Markers` entry array do not reach
  the category (`GetChildren`, cached case).

## Model

| member | source | states |
|---|---|---|
| `MarkerCategories.MarkerCategory.constructor` | bundles/org.eclipse.ui.ide/src/org/eclipse/ui/internal/views/markers/MarkerCategory.java:44-51 | the new category holds the given markers, window and name; no children built, severity not computed (-1), not refreshing |
| `MarkerCategories.MarkerCategory.GetChildren` | bundles/org.eclipse.ui.ide/src/org/eclipse/ui/internal/views/markers/MarkerCategory.java:54-70 | the result has `end - start + 1` elements; on the first call it is a fresh array whose element i is entry `start + i` of the marker array, and every child's category is now this category; on later calls the same cached array is returned and nothing is written |
| `MarkerCategories.MarkerCategory.ChildrenCount` | bundles/org.eclipse.ui.ide/src/org/eclipse/ui/internal/views/markers/MarkerCategory.java:67-70 | the number of entry indices from `start` to `end` inclusive: never negative for a well-formed window, 1 exactly when `start == end`, none exactly when `end < start` |
| `MarkerCategories.MarkerCategory.GetHighestSeverity` | bundles/org.eclipse.ui.ide/src/org/eclipse/ui/internal/views/markers/MarkerCategory.java:105-119 | the result is `>= 0` and is stored in the cache; if the cache already held a value (`>= 0`) that value is returned and nothing else changes; otherwise the result is the early-exit scan over the children; when the children are built by this call they are the window of the entry array and each has this category |
| `MarkerCategories.ScanSeverity` | bundles/org.eclipse.ui.ide/src/org/eclipse/ui/internal/views/markers/MarkerCategory.java:108-118 | the scan of the children from a running value, stopping at the error level, never ends below that running value |
| `MarkerCategories.HighestSeverity` | bundles/org.eclipse.ui.ide/src/org/eclipse/ui/internal/views/markers/MarkerCategory.java:108-118 | the scan from the info level, so the highest severity is never negative |
| `MarkerCategories.ScanSeverityBounds` | bundles/org.eclipse.ui.ide/src/org/eclipse/ui/internal/views/markers/MarkerCategory.java:108-118 | the scan ends on its starting value or on the severity of a concrete item |
| `MarkerCategories.HighestSeverityBounds` | bundles/org.eclipse.ui.ide/src/org/eclipse/ui/internal/views/markers/MarkerCategory.java:108-118 | the highest severity is 0 or the severity of some concrete child |
| `MarkerCategories.MaxSeverity` | bundles/org.eclipse.ui.ide/src/org/eclipse/ui/internal/views/markers/MarkerCategory.java:108-118 | reference: at least 0, at least every concrete item's severity (a missing attribute counting -1), and 0 or one of those severities |
| `MarkerCategories.ScanSeverityIsMax` | bundles/org.eclipse.ui.ide/src/org/eclipse/ui/internal/views/markers/MarkerCategory.java:109-117 | with all concrete severities at most `SEVERITY_ERROR`, the scan from a running value below the error level gives the larger of that value and the maximum |
| `MarkerCategories.HighestSeverityIsMax` | bundles/org.eclipse.ui.ide/src/org/eclipse/ui/internal/views/markers/MarkerCategory.java:108-118 | with all concrete severities at most `SEVERITY_ERROR`, the highest severity equals the maximum of 0 and the concrete children's severities; non-concrete children are ignored |
| `MarkerCategories.ScanSeverityStopsAtError` | bundles/org.eclipse.ui.ide/src/org/eclipse/ui/internal/views/markers/MarkerCategory.java:114-115 | a scan that reaches the error level gives the error level whatever items follow |
| `MarkerCategories.HighestSeverityStopsAtError` | bundles/org.eclipse.ui.ide/src/org/eclipse/ui/internal/views/markers/MarkerCategory.java:114-115 | if the children up to some point already give `SEVERITY_ERROR`, children appended after that point cannot change the result |
| `MarkerCategories.MarkerCategory.GetDescription` | bundles/org.eclipse.ui.ide/src/org/eclipse/ui/internal/views/markers/MarkerCategory.java:80-96 | the limit label exactly when limits are enabled and the child count exceeds the limit (carrying the limit and the count); otherwise the one-item label exactly when the count is 1; otherwise the count label with a count other than 1; every label carries the category name; no limit label when limits are disabled |
| `MarkerCategories.MarkerCategory.ClearCache` | bundles/org.eclipse.ui.ide/src/org/eclipse/ui/internal/views/markers/MarkerCategory.java:144-148 | the children are built as `GetChildren` builds them, and afterwards no child holds cached values |
| `MarkerCategories.MarkerCategory.Equals` | bundles/org.eclipse.ui.ide/src/org/eclipse/ui/internal/views/markers/MarkerCategory.java:161-180 | true exactly when the other object is a `MarkerCategory` with the same `Markers` and an equal name, null matching only null |
| `MarkerCategories.MarkerCategory.HashCode` | bundles/org.eclipse.ui.ide/src/org/eclipse/ui/internal/views/markers/MarkerCategory.java:150-158 | the hash is `31 * 31 + 31 * hash(markers) + hash(name)` reduced once to a Java `int`, a null counting 0, so the overflow of the inner step does not change it; 961 for a category with neither |
| `MarkerCategories.WrapCongruent` | bundles/org.eclipse.ui.ide/src/org/eclipse/ui/internal/views/markers/MarkerCategory.java:154-156 | numbers congruent modulo 2^32 give the same Java `int` |
| `MarkerCategories.WrapInner` | bundles/org.eclipse.ui.ide/src/org/eclipse/ui/internal/views/markers/MarkerCategory.java:154-156 | wrapping an intermediate value to `int` before a multiply-and-add does not change the wrapped result |
| `MarkerCategories.EqualsContract` | bundles/org.eclipse.ui.ide/src/org/eclipse/ui/internal/views/markers/MarkerCategory.java:150-180 | `Equals` is reflexive and symmetric, and equal categories have equal `HashCode` |
| `MarkerCategories.EqualsTransitive` | bundles/org.eclipse.ui.ide/src/org/eclipse/ui/internal/views/markers/MarkerCategory.java:161-180 | `Equals` is transitive |
| `MarkerCategories.Wrap32` | bundles/org.eclipse.ui.ide/src/org/eclipse/ui/internal/views/markers/MarkerCategory.java:154-156 | the hash arithmetic wraps like Java `int`: the result is congruent to the exact value modulo 2^32 and equals it when it is in range |
| `MultiLists.AnyStale` | tests/org.eclipse.jface.tests.databinding/src/org/eclipse/core/tests/databinding/observable/list/MultiListTest.java:52-58 | the MultiList's staleness is true exactly when some child's flag is set |
| `MultiLists.MultiList.IsStale` | tests/org.eclipse.jface.tests.databinding/src/org/eclipse/core/tests/databinding/observable/list/MultiListTest.java:52-81 | the MultiList is stale exactly when some child's flag is set |
| `MultiLists.ConcatSplit` | tests/org.eclipse.jface.tests.databinding/src/org/eclipse/core/tests/databinding/observable/list/MultiListTest.java:61-69 | the contents split around any child: the children before it, then that child, then the children after it |
| `MultiLists.ElementAt` | tests/org.eclipse.jface.tests.databinding/src/org/eclipse/core/tests/databinding/observable/list/MultiListTest.java:61-69 | element i of child c is the MultiList's element at the child's offset plus i |
| `MultiLists.OffsetsOrdered` | tests/org.eclipse.jface.tests.databinding/src/org/eclipse/core/tests/databinding/observable/list/MultiListTest.java:113-120 | an earlier child's range ends at or before a later child's offset |
| `MultiLists.Locate` | tests/org.eclipse.jface.tests.databinding/src/org/eclipse/core/tests/databinding/observable/list/MultiListTest.java:61-69 | every position of the MultiList lies in exactly one child, at the position minus that child's offset |
| `MultiLists.ApplyEntryInContext` | tests/org.eclipse.jface.tests.databinding/src/org/eclipse/core/tests/databinding/observable/list/MultiListTest.java:91-120 | a diff entry applied to one child equals the entry moved by the size of the preceding part, applied to the whole list |
| `MultiLists.RebaseSound` | tests/org.eclipse.jface.tests.databinding/src/org/eclipse/core/tests/databinding/observable/list/MultiListTest.java:91-120 | a child diff turning `s` into `t`, with each position moved by the offset of the child, turns `pre + s + post` into `pre + t + post` |
| `MultiLists.AppendRebase` | tests/org.eclipse.jface.tests.databinding/src/org/eclipse/core/tests/databinding/observable/list/MultiListTest.java:113-120 | after appending to child c, the rebased position (new local index plus the post-append offset of c) is the old offset plus the old child size, and that one addition entry turns the old contents into the new |
| `MultiLists.StaleEdge` | tests/org.eclipse.jface.tests.databinding/src/org/eclipse/core/tests/databinding/observable/list/MultiListTest.java:72-81 | setting a child's flag takes the aggregate from not stale to stale exactly when the flag is set and no child was stale; afterwards the aggregate is the new flag or another child's flag |
| `MultiLists.MultiList.constructor` | tests/org.eclipse.jface.tests.databinding/src/org/eclipse/core/tests/databinding/observable/list/MultiListTest.java:46-48 | a MultiList over the given children and flags, with no events fired |
| `MultiLists.MultiList.ComputeOffset` | tests/org.eclipse.jface.tests.databinding/src/org/eclipse/core/tests/databinding/observable/list/MultiListTest.java:113-120 | the summing loop returns the total current size of the children before child c |
| `MultiLists.MultiList.ComputeStaleness` | tests/org.eclipse.jface.tests.databinding/src/org/eclipse/core/tests/databinding/observable/list/MultiListTest.java:52-58 | the loop over the children returns the MultiList's staleness (the OR of the flags) |
| `MultiLists.MultiList.ChildAdd` | tests/org.eclipse.jface.tests.databinding/src/org/eclipse/core/tests/databinding/observable/list/MultiListTest.java:91-120 | child c gains x at its end; exactly one change event is fired, holding one addition entry for x at the post-mutation offset of c plus the new local index; that entry turns the old contents into the new; the size grows by one; staleness and stale events are unchanged |
| `MultiLists.MultiList.ChildSetStale` | tests/org.eclipse.jface.tests.databinding/src/org/eclipse/core/tests/databinding/observable/list/MultiListTest.java:52-81 | only child c's flag changes; a stale event is fired exactly when the MultiList goes from not stale to stale; contents and change events are unchanged |
| `MultiListScenarios.SetUp` | tests/org.eclipse.jface.tests.databinding/src/org/eclipse/core/tests/databinding/observable/list/MultiListTest.java:44-49 | the fixture is a fresh MultiList over two empty, non-stale children with no events |
| `MultiListScenarios.TestIsStaleFollowsSublist` | tests/org.eclipse.jface.tests.databinding/src/org/eclipse/core/tests/databinding/observable/list/MultiListTest.java:52-58 | not stale at first, stale after child 0 is set stale, not stale after it is cleared |
| `MultiListScenarios.TestDependencyFiresListChange` | tests/org.eclipse.jface.tests.databinding/src/org/eclipse/core/tests/databinding/observable/list/MultiListTest.java:61-69 | the contents are empty at first and `[element]` after adding it to child 0 |
| `MultiListScenarios.TestStaleEventNoFireEventIfAlreadyStale` | tests/org.eclipse.jface.tests.databinding/src/org/eclipse/core/tests/databinding/observable/list/MultiListTest.java:72-81 | with child 0 stale, setting child 1 stale fires no stale event |
| `MultiListScenarios.TestModifySubListFiresListChangeEventFromMultiList` | tests/org.eclipse.jface.tests.databinding/src/org/eclipse/core/tests/databinding/observable/list/MultiListTest.java:84-135 | after each of the three adds the change-event count is 1, 2 and 3; each event has exactly one entry, an addition of the added element, at positions 0, 1 and 1 |
| `MultiListScenarios.CreateObservableCollection` | tests/org.eclipse.jface.tests.databinding/src/org/eclipse/core/tests/databinding/observable/list/MultiListTest.java:152-160 | the delegate's list has all `elementCount` created elements, in order, in child 0, and child 1 is empty; its size is `elementCount` and it is not stale |
| `MultiListScenarios.Change` | tests/org.eclipse.jface.tests.databinding/src/org/eclipse/core/tests/databinding/observable/list/MultiListTest.java:163-166 | one element is appended to child 0 and the size grows by one; exactly one change event is fired, one addition of the element at the old size of child 0, which turns the old contents into the new; stale flags and stale events are unchanged |
| `MultiListScenarios.SetStale` | tests/org.eclipse.jface.tests.databinding/src/org/eclipse/core/tests/databinding/observable/list/MultiListTest.java:169-171 | child 0's flag becomes the given value and nothing else changes, change events included; the MultiList is stale exactly when that value or another child's flag is set, so with no other child stale its staleness is that value; a stale event is fired exactly when the MultiList goes from not stale to stale |

## Left out

- The source of `MultiList` and `WritableList` is not part of this model. Their behaviour is taken from what
  `MultiListTest` asserts. A child is its contents and its stale flag; appending models `WritableList.add`.
  Setting the flag models `setStale`, which fires a stale event only when the child goes from not stale to stale.
- MultiList: realms and thread affinity, listener registration and dispatch order, re-entrancy and disposal
  are not modelled. The tracker is reduced to the log of fired diffs and the count of stale events.
- MultiList: insertion at a position and removal in a child are not modelled, because the tests do not
  exercise them. `RebaseSound` covers the rebasing of any child diff, including such entries.
- The `ObservableListContractTest` conformance suite and `ListChangeEventTracker` are not part of this model.
  `createElement` of the delegate is a function parameter.
- `NLS.bind` and the `MarkerMessages` texts: a description is the `Description` label it would format,
  with the values passed to it.
- `Markers`, `MarkerContentGenerator`, `MarkerEntry` and `IMarker` are not part of this model beyond the
  fields the category reads and writes. `MarkerEntry.setCategory` is a write of the entry's `category`
  field. `MarkerEntry.clearCache` is a reset of its `cached` flag.
- `Markers.equals` is taken to be object identity, and `Markers.hashCode` is a constant of each `Markers`.
- `HashCode`: `String.hashCode` is computed over Dafny characters (Unicode scalar values). It differs
  from Java's UTF-16 code units for characters outside the Basic Multilingual Plane.
- `start`, `end`, `name` and `markers` are constants. This file assigns them only in the constructor;
  writes to `start` and `end` from elsewhere in the package are not modelled.
- The Java runtime exceptions of `getChildren` are preconditions. A null `markers` would be a
  NullPointerException, and a window outside the entry array an IndexOutOfBounds or NegativeArraySize
  exception. `GetChildren`, `GetHighestSeverity` and `ClearCache` require the window to fit (`CanBuild`)
  when the children are not built yet, and `GetDescription` requires non-null `markers`.
- `getName`, `getParent` (always null), `isConcrete` (always false), `toString` and the `refreshing` flag
  (only set, its use being commented out in `getDescription`) carry no logic and are not modelled beyond
  the `name` and `refreshing` fields.
- Java `int` width is not modelled for the window and the list sizes: `ChildrenCount` computes
  `end - start + 1`, and MultiList sizes, offsets and diff positions, as unbounded integers. For a window
  inside a Java array (`0 <= start`, `end` below the array length) the exact count is below 2^31, so no
  wrap-around occurs there; the hash code is the only place that models `int` overflow.
- The marker entry array of the model holds no null entries (`array<MarkerEntry>`), so the
  NullPointerException that `setCategory` on a null entry would raise in `getChildren` is not modelled.
- `HighestSeverityIsMax` states the maximum only when every concrete severity is at most `SEVERITY_ERROR`.
  `ScanSeverity` captures the exact result for larger attribute values.
