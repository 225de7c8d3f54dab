# Linked editing ranges

A Dafny model of the editor's linked-editing index and of the refresh that
rebuilds it (`crates/editor/src/linked_editing_ranges.rs`).

Linked editing lets the user edit several spans of a buffer at once. Each
span is edited together with its siblings: for example, the opening and
closing tag names of an HTML element. The editor keeps an index from buffer
to a list of linked groups. Each group is a primary range plus its sibling
ranges.

- When the cursor moves, `get` answers which group, if any, contains the
  selection.
- When the selections change, `refresh_linked_ranges` asks the language
  provider for the linked ranges at each selection. It turns every useful
  answer into a sorted batch of groups. Then it replaces the index with
  those batches, unless a rename started meanwhile.

The model has four modules, one per concern:

- `Anchors`: anchors are offsets under one fixed buffer snapshot, so
  comparing two anchors is integer comparison. The module also holds the
  range and group values, containment, and the order that `sort_by` uses.
- `Index`:
  - the class `LinkedEditingRanges`, whose field `ranges` is the map from
    buffer to entries;
  - `Get` and `IsEmpty`;
  - the bisection behind `partition_point`;
  - proofs that under the line 13 invariant, one candidate is enough: the
    lookup agrees with a left-to-right scan for a containing entry.
- `Sorting`: `sort_by` as a stable insertion sort. It is proved sorted, a
  permutation, and stable. When no primary range repeats, the sorted
  arrangement is unique.
- `Siblings`: one provider response.
  - The containment check.
  - The pairwise loop over `combinations(2)`, as a method that updates the
    sibling map in place.
  - The listing of the map in unspecified order.
  - The sort.
  - The sibling relation of distinct ranges is the complete graph: each
    range's list holds every other range, in response order. The sorted
    batch does not depend on the map's order.
- `Refresh`: the selection filter, one batch per request, and the install.
  The install is guarded by the rename flag. It clears the index, extends
  each buffer's entries and sorts them, as methods on the index.

Inputs stand for the parts that are not modelled:

- the provider's answer to each request;
- the rename flag at the refresh's two checks;
- whether the editor has a project;
- the buffers that can still be snapshotted when the install sorts.

Six points about the code that are easy to misread:

- The invariant on line 13 is strict: an entry starts after the previous
  one ends, `[x + 1].start > [x].end`.
- The install clears the whole index (line 112), so buffers that got no
  batch lose their entries.
- A buffer that cannot be snapshotted when the install sorts keeps its
  merged entries, unsorted (lines 121-128). They are not removed.
- If either end of any selection cannot be resolved to an anchor, the whole
  refresh is abandoned (the `?` on lines 49-50). The refresh does not just
  skip that selection.
- `is_empty` asks whether the map has no keys. A buffer whose batch is
  empty still has a key. This happens when a one-range response contains
  the query: it links nothing, yet its buffer gets an empty entry list
  (`Refresh.SingleRangeResponseInstallsEmptyEntry`).
- A request carries the selection's head as `start` and its tail as `end`
  (lines 47-55). The check on lines 77-80 compares a range's start with the
  head and its end with the tail. For a selection made forwards, the head
  comes after the tail, so a range that contains only the head passes the
  check. The installed groups then contain none of the selection
  (`Refresh.ForwardSelectionPassesCheckByHeadAlone`).

## Model

| member | source | states |
|---|---|---|
| Anchors.RangeLeIsTotalOrder | crates/editor/src/linked_editing_ranges.rs:97 | the range order used by the sorts is reflexive, total and transitive. It identifies only equal ranges and orders by start first |
| Index.PartitionPoint | crates/editor/src/linked_editing_ranges.rs:25-26 | for any entry list, the search returns a boundary inside the searched slice: the entry before it starts at or before the pivot, and the entry at it starts after |
| Index.PartitionPointCounts | crates/editor/src/linked_editing_ranges.rs:25-30 | on entries sorted by start, the search returns the number of entries starting at or before the pivot. An entry lies before the result exactly when it starts at or before the pivot, so a result of 0 means no entry starts early enough |
| Index.Lookup | crates/editor/src/linked_editing_ranges.rs:25-33 | soundness: a returned entry is one of the buffer's entries and contains the query, starting at or before its start and ending at or after its end |
| Index.FirstContainingSpec | crates/editor/src/linked_editing_ranges.rs:31-33 | the reference scan returns nothing exactly when no entry contains the query. Otherwise it returns the first entry that contains it |
| Index.ContainingIsLastAtOrBefore | crates/editor/src/linked_editing_ranges.rs:13 | on sorted entries satisfying the strict non-overlap invariant, an entry containing a well-formed query is the last entry starting at or before the query's start |
| Index.LookupFindsContainingEntry | crates/editor/src/linked_editing_ranges.rs:25-33 | completeness: under the invariant, if some entry contains a well-formed query, the lookup returns exactly that entry |
| Index.LookupMatchesLinearScan | crates/editor/src/linked_editing_ranges.rs:25-33 | under the invariant, for a well-formed query, the bisecting lookup and the left-to-right scan for a containing entry give the same answer |
| Index.LinkedEditingRanges.constructor | crates/editor/src/linked_editing_ranges.rs:11-15 | the default index has no buffers |
| Index.LinkedEditingRanges.Get | crates/editor/src/linked_editing_ranges.rs:18-34 | an unknown buffer gives nothing. A result is an entry of that buffer containing the query. When that buffer's entries keep the line 13 invariant and the query is well-formed, the result is the first containing entry |
| Index.LinkedEditingRanges.IsEmpty | crates/editor/src/linked_editing_ranges.rs:35-37 | true exactly when no buffer has an entry list, even an empty one. Then every lookup gives nothing |
| Sorting.InsertByRange | crates/editor/src/linked_editing_ranges.rs:97 | inserting into sorted entries keeps them sorted and adds exactly the inserted entry |
| Sorting.SortByRange | crates/editor/src/linked_editing_ranges.rs:97 | the sort's result is sorted by range and is a permutation of its input |
| Sorting.SortByRangeIsStable | crates/editor/src/linked_editing_ranges.rs:129 | `sort_by` is stable: entries with equal primary ranges keep their relative order |
| Sorting.SortedArrangementIsUnique | crates/editor/src/linked_editing_ranges.rs:96-97 | two sorted lists holding the same entries, with no primary range repeated, are equal |
| Siblings.LinkSiblings | crates/editor/src/linked_editing_ranges.rs:83-95 | the loop over all pairs, updating the map in place, builds the sibling map that `combinations(2)` order defines |
| Siblings.LinkRow | crates/editor/src/linked_editing_ranges.rs:88-95 | linking the pairs whose first range is `edits[a]` leaves the map from which the remaining pairs finish the same sibling map |
| Siblings.LinkFromKeys | crates/editor/src/linked_editing_ranges.rs:86 | linking pairs of a response only adds ranges of that response as keys |
| Siblings.SiblingMapIsClique | crates/editor/src/linked_editing_ranges.rs:83-95 | for distinct ranges, each range's sibling list is every other range in response order. Only response ranges are keys, and with two or more ranges every range is a key |
| Siblings.SiblingsOfEach | crates/editor/src/linked_editing_ranges.rs:83-95 | for distinct ranges, after the loop the list of range `c` is the response without `c`, in order |
| Siblings.SiblingGraphIsComplete | crates/editor/src/linked_editing_ranges.rs:83-95 | for n >= 2 distinct ranges, the keys are exactly the ranges. The sibling relation is symmetric and irreflexive and links any two different ranges. Each range has n - 1 siblings |
| Siblings.DuplicateRangeIsItsOwnSibling | crates/editor/src/linked_editing_ranges.rs:88-94 | a range repeated in a response becomes its own sibling twice, so the clique results need distinct ranges |
| Siblings.CollectGroups | crates/editor/src/linked_editing_ranges.rs:96 | collecting the map lists each of its entries exactly once, in some order |
| Siblings.ListedGroupsHaveDistinctPrimaries | crates/editor/src/linked_editing_ranges.rs:96 | a listing of the map never repeats a primary range |
| Siblings.SortedListingIsBatch | crates/editor/src/linked_editing_ranges.rs:96-97 | whatever order the map is listed in, sorting the listing gives the same batch |
| Siblings.BatchIsClique | crates/editor/src/linked_editing_ranges.rs:83-97 | for n >= 2 distinct ranges, the batch is sorted by range, holds one group per range whose siblings are the other ranges in response order, holds nothing else, and repeats no primary |
| Siblings.SiblingBatch | crates/editor/src/linked_editing_ranges.rs:77-98 | a response gives nothing exactly when none of its ranges contains the query `start..end`. Otherwise it gives the sorted batch of its sibling map |
| Refresh.ApplicableSelections | crates/editor/src/linked_editing_ranges.rs:45-56 | the refresh gives up exactly when some selection end cannot be resolved. Otherwise the result is the requests of the same-buffer selections, in order |
| Refresh.SameBufferRequestsMembers | crates/editor/src/linked_editing_ranges.rs:45-56 | a request is kept exactly when it is built from a selection whose head and tail lie in the same buffer |
| Refresh.SameBufferRequestsAppend | crates/editor/src/linked_editing_ranges.rs:45-56 | the filter preserves order: filtering two runs of selections one after the other gives the two filtered runs in that order |
| Refresh.FetchBatches | crates/editor/src/linked_editing_ranges.rs:62-106 | one batch per request, in request order. A failed request, or a response that fails the containment check, gives nothing; any other response gives its batch for the request's buffer |
| Refresh.BatchesForPointwise | crates/editor/src/linked_editing_ranges.rs:100-106 | there is one batch per request, and the batch at each position comes from the request at that position and its response, as `join_all` keeps the order |
| Refresh.MergedAppend | crates/editor/src/linked_editing_ranges.rs:113-119 | one more batch appends its groups to its buffer's entry list, creating the list when missing. An absent batch changes nothing |
| Refresh.TouchedBuffers | crates/editor/src/linked_editing_ranges.rs:113-119 | a buffer gets an entry list exactly when some batch is for it |
| Refresh.MergeBatches | crates/editor/src/linked_editing_ranges.rs:112-119 | after the clear and the extend loop, the index holds, for each buffer with a batch, its batches' groups in batch order, and nothing else |
| Refresh.SortBuffers | crates/editor/src/linked_editing_ranges.rs:120-130 | visiting the buffers in any order, each snapshottable buffer's entries become sorted. The other buffers' entries and the set of buffers are unchanged |
| Refresh.InstallBatches | crates/editor/src/linked_editing_ranges.rs:108-130 | a pending rename leaves the index unchanged. Otherwise the index becomes the merged batches, sorted per snapshottable buffer |
| Refresh.InstalledEntries | crates/editor/src/linked_editing_ranges.rs:112-130 | after an install, exactly the buffers that got a batch have entry lists. Those of snapshottable buffers are sorted by start and hold exactly their batches' groups |
| Refresh.RefreshLinkedRanges | crates/editor/src/linked_editing_ranges.rs:39-138 | a rename pending at the start issues no request and changes nothing. Requests are one per applicable selection, and none means no change. A rename pending at install changes nothing. Otherwise the index is replaced by the installed batches |
| Refresh.SingleRequestBatch | crates/editor/src/linked_editing_ranges.rs:69-98 | a request whose response contains the query yields that response's batch |
| Refresh.SingleBatchInstall | crates/editor/src/linked_editing_ranges.rs:112-130 | a single batch becomes its buffer's only entry list, sorted when the buffer can be snapshotted |
| Refresh.SingleRangeResponseInstallsEmptyEntry | crates/editor/src/linked_editing_ranges.rs:35-37 | a one-range response that contains the query installs an empty entry list, so the index is not empty although no lookup can succeed |
| Refresh.TagPairBatch | crates/editor/src/linked_editing_ranges.rs:77-98 | for an opening and a closing tag name in document order, each is the other's only sibling, and the opening tag's group comes first |
| Refresh.TagPairRefresh | crates/editor/src/linked_editing_ranges.rs:18-130 | a refresh with the cursor in an opening tag installs, for that buffer only, the two tags linked to each other. A lookup inside either tag finds that tag's group, and a lookup inside neither finds nothing |
| Refresh.ForwardSelectionPassesCheckByHeadAlone | crates/editor/src/linked_editing_ranges.rs:77-80 | with tail 7 and head 13, the closing tag 11..15 passes the containment check although no range contains 7..13. Its batch is installed, and a lookup of 7..13 over it finds nothing |

## Left out

- The asynchronous plumbing is not modelled: `cx.spawn`, `project.update`, `join_all`, `this.update` and `linked_editing_range_task`. Neither is cancellation by replacing the spawned future. The refresh is modelled as one sequential run whose awaited results are inputs.
- `project.linked_edit` is a language-server request. Each answer is an input: `None` for a request that failed (`log_err()?`), or the list of ranges returned.
- The anchor and snapshot subsystem is not part of this model: `text::Anchor`, `BufferSnapshot`, `text_anchor_for_position` and `MultiBuffer::buffer`. Anchors are offsets under one snapshot. Each selection end arrives already resolved, or as `None` when resolution failed. Buffers that can be snapshotted at install time are an input set.
- `AnchorRangeExt::cmp` is not part of this model. It is taken to order by start and, on equal starts, to put the larger end first. The lookup relies only on the order by start.
- `Index.PartitionPoint` bisects the way the standard library's `partition_point` does in effect. On entries sorted by start, any correct implementation returns the same count (`Index.PartitionPointCounts`).
- `Sorting.SortByRange` is a function, not an in-place sort of the vector. A stable sort's result is unique given the comparator, so which algorithm is used does not show.
- HashMap iteration order (lines 96 and 120) is left unspecified. `Siblings.CollectGroups` and `Refresh.SortBuffers` pick keys in any order. Results are stated after the sort, or independently of the order.
- The install is not shown to restore the non-overlap half of the line 13 invariant. Batches from two selections may overlap or repeat ranges. The install establishes only the order by start, and only for snapshottable buffers.
- Responses with repeated ranges: the clique results assume distinct ranges. For repeats, only the counterexample `Siblings.DuplicateRangeIsItsOwnSibling` is stated.
- Logging (`log_err`), `cx.notify()` and the UI are left out. The editor's `pending_rename` and `project` fields become booleans.
