/**
 * The sequential steps of `refresh_linked_ranges`: collecting the
 * applicable selections, turning each provider response into a batch,
 * and installing the batches into the index unless a rename is pending.
 *
 * The provider's answers, the rename flag at each of its two checks, and
 * which buffers can still be snapshotted are inputs.
 */
module Refresh {
  import opened Anchors
  import opened Sorting
  import opened Siblings
  import opened Index

  /** One end of a selection after `text_anchor_for_position`: its buffer and its anchor there. */
  datatype BufferAnchor = BufferAnchor(buffer: BufferId, anchor: int)

  /** A selection's head and tail as resolved; `None` where resolution failed. */
  datatype Selection = Selection(head: Option<BufferAnchor>, tail: Option<BufferAnchor>)

  /**
   * An applicable selection `(cursor_buffer, start_position, end_position)`:
   * one provider request. `start` is the head's anchor and `end` the tail's,
   * so for a selection made forwards `start` lies after `end`.
   */
  datatype Request = Request(buffer: BufferId, start: int, end: int)

  /** One response's sorted groups, tagged with the buffer they belong to. */
  datatype Batch = Batch(buffer: BufferId, groups: seq<LinkGroup>)

  predicate AllResolved(selections: seq<Selection>)
  {
    forall i :: 0 <= i < |selections| ==> selections[i].head.Some? && selections[i].tail.Some?
  }

  /** The requests of lines 45-56: one per selection whose head and tail share a buffer, in order. */
  function SameBufferRequests(selections: seq<Selection>): seq<Request>
    requires AllResolved(selections)
  {
    if selections == [] then []
    else
      var last := selections[|selections| - 1];
      SameBufferRequests(selections[..|selections| - 1]) +
        (if last.head.value.buffer == last.tail.value.buffer
         then [Request(last.head.value.buffer, last.head.value.anchor, last.tail.value.anchor)]
         else [])
  }

  /**
   * Lines 45-56: walk the selections, give up on the whole refresh when an
   * end cannot be resolved (the `?` on lines 49-50), skip selections that
   * span two buffers, and push the others.
   */
  method ApplicableSelections(selections: seq<Selection>) returns (r: Option<seq<Request>>)
    ensures r.None? <==> !AllResolved(selections)
    ensures r.Some? ==> r.value == SameBufferRequests(selections)
  {
    var applicable := [];
    for i := 0 to |selections|
      invariant AllResolved(selections[..i])
      invariant applicable == SameBufferRequests(selections[..i])
    {
      var selection := selections[i];
      if selection.head.None? || selection.tail.None? {
        return None;
      }
      var cursorBuffer, startPosition := selection.head.value.buffer, selection.head.value.anchor;
      var tailBuffer, endPosition := selection.tail.value.buffer, selection.tail.value.anchor;
      assert selections[..i + 1][..i] == selections[..i];
      if cursorBuffer == tailBuffer {
        applicable := applicable + [Request(cursorBuffer, startPosition, endPosition)];
      }
    }
    assert selections[..|selections|] == selections;
    return Some(applicable);
  }

  /** The filter keeps exactly the same-buffer selections, each as the request built from its ends. */
  lemma {:induction false} SameBufferRequestsMembers(selections: seq<Selection>, request: Request)
    requires AllResolved(selections)
    ensures request in SameBufferRequests(selections) <==>
      exists i :: 0 <= i < |selections| &&
        selections[i].head.value.buffer == selections[i].tail.value.buffer &&
        request == Request(selections[i].head.value.buffer, selections[i].head.value.anchor, selections[i].tail.value.anchor)
    decreases |selections|
  {
    if selections != [] {
      var init := selections[..|selections| - 1];
      assert AllResolved(init);
      SameBufferRequestsMembers(init, request);
      forall i | 0 <= i < |init| ensures init[i] == selections[i] { }
    }
  }

  /** The filter preserves order: filtering a concatenation concatenates the filtered parts. */
  lemma {:induction false} SameBufferRequestsAppend(a: seq<Selection>, b: seq<Selection>)
    requires AllResolved(a) && AllResolved(b)
    ensures AllResolved(a + b)
    ensures SameBufferRequests(a + b) == SameBufferRequests(a) + SameBufferRequests(b)
    decreases |b|
  {
    if b == [] {
      assert a + b == a;
    } else {
      var b' := b[..|b| - 1];
      assert (a + b)[..|a + b| - 1] == a + b';
      assert AllResolved(b');
      SameBufferRequestsAppend(a, b');
    }
  }

  /**
   * The requests a refresh issues: none when a rename is pending (line 40),
   * when there is no project (line 43) or when a selection end cannot be
   * resolved; otherwise one per applicable selection (none when there is
   * none, line 59).
   */
  function RequestsOf(renamePending: bool, hasProject: bool, selections: seq<Selection>): seq<Request>
  {
    if renamePending || !hasProject || !AllResolved(selections) then []
    else SameBufferRequests(selections)
  }

  /** Lines 77-80: some range of the response contains the request's `start..end`. */
  predicate AnyContains(edits: seq<AnchorRange>, request: Request)
  {
    exists i :: 0 <= i < |edits| && Contains(edits[i], AnchorRange(request.start, request.end))
  }

  /**
   * Lines 69-98 for one request: a failed request (`log_err()?`) or a
   * response none of whose ranges contains the request's `start..end`
   * contributes nothing; otherwise the response's sorted batch for the
   * request's buffer.
   */
  ghost function BatchFor(request: Request, response: Option<seq<AnchorRange>>): Option<Batch>
  {
    match response
    case None => None
    case Some(edits) =>
      if AnyContains(edits, request) then Some(Batch(request.buffer, BatchOf(edits)))
      else None
  }

  /** The batch of each request, from the response at the same position. */
  ghost function BatchesFor(requests: seq<Request>, responses: seq<Option<seq<AnchorRange>>>): seq<Option<Batch>>
    requires |responses| == |requests|
  {
    if requests == [] then []
    else
      var n := |requests| - 1;
      BatchesFor(requests[..n], responses[..n]) + [BatchFor(requests[n], responses[n])]
  }

  /**
   * Lines 62-106: one batch per request, in request order, from the
   * provider's answer to that request (`join_all` keeps the order).
   */
  method FetchBatches(requests: seq<Request>, responses: seq<Option<seq<AnchorRange>>>)
    returns (batches: seq<Option<Batch>>)
    requires |responses| == |requests|
    ensures batches == BatchesFor(requests, responses)
  {
    batches := [];
    for i := 0 to |requests|
      invariant batches == BatchesFor(requests[..i], responses[..i])
    {
      var request := requests[i];
      var batch: Option<Batch> := None;
      if responses[i].Some? {
        var groups := SiblingBatch(responses[i].value, request.start, request.end);
        if groups.Some? {
          batch := Some(Batch(request.buffer, groups.value));
        }
      }
      assert batch == BatchFor(request, responses[i]);
      BatchesForAppend(requests, responses, i, batches, batch);
      batches := batches + [batch];
    }
    assert requests[..|requests|] == requests;
    assert responses[..|responses|] == responses;
  }

  /** One batch per request, in request order: the batch at `i` comes from request `i` and its response. */
  lemma {:induction false} BatchesForPointwise(requests: seq<Request>, responses: seq<Option<seq<AnchorRange>>>)
    requires |responses| == |requests|
    ensures |BatchesFor(requests, responses)| == |requests|
    ensures forall i :: 0 <= i < |requests| ==>
      BatchesFor(requests, responses)[i] == BatchFor(requests[i], responses[i])
    decreases |requests|
  {
    if requests != [] {
      var n := |requests| - 1;
      BatchesForPointwise(requests[..n], responses[..n]);
      forall i | 0 <= i < n ensures requests[..n][i] == requests[i] && responses[..n][i] == responses[i] { }
    }
  }

  lemma BatchesForAppend(requests: seq<Request>, responses: seq<Option<seq<AnchorRange>>>, i: nat,
                         batches: seq<Option<Batch>>, batch: Option<Batch>)
    requires |responses| == |requests| && i < |requests|
    requires batches == BatchesFor(requests[..i], responses[..i])
    requires batch == BatchFor(requests[i], responses[i])
    ensures batches + [batch] == BatchesFor(requests[..i + 1], responses[..i + 1])
  {
    assert requests[..i + 1][..i] == requests[..i] && responses[..i + 1][..i] == responses[..i];
  }

  /** The buffers that got at least one batch. */
  function Touched(batches: seq<Option<Batch>>): set<BufferId>
  {
    if batches == [] then {}
    else
      var last := batches[|batches| - 1];
      Touched(batches[..|batches| - 1]) + (if last.Some? then {last.value.buffer} else {})
  }

  /** Buffer `id`'s batches, concatenated in order. */
  function Appended(batches: seq<Option<Batch>>, id: BufferId): seq<LinkGroup>
  {
    if batches == [] then []
    else
      var last := batches[|batches| - 1];
      Appended(batches[..|batches| - 1], id) + (if last.Some? && last.value.buffer == id then last.value.groups else [])
  }

  /** The index after `clear()` and the `entry().or_default().extend()` loop (lines 112-119). */
  function Merged(batches: seq<Option<Batch>>): map<BufferId, seq<LinkGroup>>
  {
    map id | id in Touched(batches) :: Appended(batches, id)
  }

  /** `m` with the entries of the buffers in `visited` sorted by range. */
  function SortVisited(m: map<BufferId, seq<LinkGroup>>, visited: set<BufferId>): map<BufferId, seq<LinkGroup>>
  {
    map id | id in m :: if id in visited then SortByRange(m[id]) else m[id]
  }

  /** The index after the per-buffer sort (lines 120-130): the buffers that can be snapshotted are sorted. */
  function Installed(batches: seq<Option<Batch>>, snapshottable: set<BufferId>): map<BufferId, seq<LinkGroup>>
  {
    SortVisited(Merged(batches), snapshottable)
  }

  lemma MergedAppend(batches: seq<Option<Batch>>, b: Option<Batch>)
    ensures b.None? ==> Merged(batches + [b]) == Merged(batches)
    ensures b.Some? ==> Merged(batches + [b]) == Merged(batches)[b.value.buffer :=
      (if b.value.buffer in Merged(batches) then Merged(batches)[b.value.buffer] else []) + b.value.groups]
  {
    var bs := batches + [b];
    assert bs[..|bs| - 1] == batches;
    assert Touched(bs) == Touched(batches) + (if b.Some? then {b.value.buffer} else {});
    forall id ensures Appended(bs, id) == Appended(batches, id) + (if b.Some? && b.value.buffer == id then b.value.groups else []) { }
    if b.Some? {
      var id := b.value.buffer;
      UntouchedHasNothing(batches, id);
      var expected := Merged(batches)[id := (if id in Merged(batches) then Merged(batches)[id] else []) + b.value.groups];
      assert Merged(bs).Keys == expected.Keys;
      forall k | k in expected ensures Merged(bs)[k] == expected[k] { }
    } else {
      assert Merged(bs).Keys == Merged(batches).Keys;
      forall k | k in Merged(bs) ensures Merged(bs)[k] == Merged(batches)[k] { }
    }
  }

  lemma {:induction false} UntouchedHasNothing(batches: seq<Option<Batch>>, id: BufferId)
    ensures id !in Touched(batches) ==> Appended(batches, id) == []
    decreases |batches|
  {
    if batches != [] {
      UntouchedHasNothing(batches[..|batches| - 1], id);
    }
  }

  /**
   * Lines 108-130: unless a rename has become pending, clear the index,
   * append every batch to its buffer's entries, then sort each buffer's
   * entries by range when the buffer can still be snapshotted (visited in
   * the map's unspecified order).
   */
  method InstallBatches(index: LinkedEditingRanges, batches: seq<Option<Batch>>, renamePending: bool,
                        snapshottable: set<BufferId>)
    modifies index
    ensures renamePending ==> index.ranges == old(index.ranges)
    ensures !renamePending ==> index.ranges == Installed(batches, snapshottable)
  {
    if renamePending {
      return;
    }
    MergeBatches(index, batches);
    SortBuffers(index, snapshottable);
  }

  /** Lines 112-119: clear the index, then append every batch to its buffer's entry list. */
  method MergeBatches(index: LinkedEditingRanges, batches: seq<Option<Batch>>)
    modifies index
    ensures index.ranges == Merged(batches)
  {
    index.ranges := map[];
    for i := 0 to |batches|
      invariant index.ranges == Merged(batches[..i])
    {
      MergedAppend(batches[..i], batches[i]);
      assert batches[..i + 1] == batches[..i] + [batches[i]];
      if batches[i].Some? {
        var batch := batches[i].value;
        index.ranges := index.ranges[batch.buffer :=
          (if batch.buffer in index.ranges then index.ranges[batch.buffer] else []) + batch.groups];
      }
    }
    assert batches[..|batches|] == batches;
  }

  /**
   * Lines 120-130: visit the buffers in the map's unspecified order and sort
   * the entries of each one that can still be snapshotted.
   */
  method SortBuffers(index: LinkedEditingRanges, snapshottable: set<BufferId>)
    modifies index
    ensures index.ranges == SortVisited(old(index.ranges), snapshottable)
  {
    ghost var merged := index.ranges;
    var todo := index.ranges.Keys;
    while todo != {}
      invariant SortProgress(merged, index.ranges, todo, snapshottable)
      decreases todo
    {
      var id :| id in todo;
      SortLoopStep(merged, index.ranges, todo, snapshottable, id);
      if id in snapshottable {
        index.ranges := index.ranges[id := SortByRange(index.ranges[id])];
      }
      todo := todo - {id};
    }
    SortedEachVisited(merged, index.ranges, snapshottable);
  }

  /**
   * The sort loop's invariant: `current` has the buffers of `m`, and the
   * entries of each snapshottable buffer no longer in `todo` are sorted.
   */
  predicate SortProgress(m: map<BufferId, seq<LinkGroup>>, current: map<BufferId, seq<LinkGroup>>,
                         todo: set<BufferId>, snapshottable: set<BufferId>)
  {
    todo <= m.Keys && current.Keys == m.Keys &&
    forall id :: id in m ==>
      current[id] == if id in snapshottable && id !in todo then SortByRange(m[id]) else m[id]
  }

  lemma SortLoopStep(m: map<BufferId, seq<LinkGroup>>, current: map<BufferId, seq<LinkGroup>>,
                     todo: set<BufferId>, snapshottable: set<BufferId>, id: BufferId)
    requires SortProgress(m, current, todo, snapshottable) && id in todo
    ensures id in current
    ensures SortProgress(m, if id in snapshottable then current[id := SortByRange(current[id])] else current,
                         todo - {id}, snapshottable)
  {
  }

  /** A map with the same buffers whose every entry list is sorted exactly when visited is `SortVisited`. */
  lemma SortedEachVisited(m: map<BufferId, seq<LinkGroup>>, r: map<BufferId, seq<LinkGroup>>, visited: set<BufferId>)
    requires r.Keys == m.Keys
    requires forall id :: id in m ==> r[id] == if id in visited then SortByRange(m[id]) else m[id]
    ensures r == SortVisited(m, visited)
  {
    assert r.Keys == SortVisited(m, visited).Keys;
  }

  /**
   * After an install every buffer that got a batch has an entry list, no
   * other buffer has one, and a buffer that could be snapshotted holds
   * exactly its batches' groups sorted by range, hence sorted by start as
   * the lookup needs.
   */
  lemma InstalledEntries(batches: seq<Option<Batch>>, snapshottable: set<BufferId>, id: BufferId)
    ensures id in Installed(batches, snapshottable) <==>
      exists i :: 0 <= i < |batches| && batches[i].Some? && batches[i].value.buffer == id
    ensures id in Installed(batches, snapshottable) && id in snapshottable ==>
      SortedByStart(Installed(batches, snapshottable)[id]) &&
      multiset(Installed(batches, snapshottable)[id]) == multiset(Appended(batches, id))
  {
    TouchedBuffers(batches, id);
  }

  lemma {:induction false} TouchedBuffers(batches: seq<Option<Batch>>, id: BufferId)
    ensures id in Touched(batches) <==>
      exists i :: 0 <= i < |batches| && batches[i].Some? && batches[i].value.buffer == id
    decreases |batches|
  {
    if batches != [] {
      var init := batches[..|batches| - 1];
      TouchedBuffers(init, id);
      forall i | 0 <= i < |init| ensures init[i] == batches[i] { }
    }
  }

  /**
   * The whole refresh with the provider's answers given: unless it is
   * abandoned before any request (rename pending, no project, an
   * unresolvable selection, or no applicable selection), it issues one
   * request per applicable selection and, unless a rename is pending by
   * then, replaces the whole index by the installed batches.
   */
  method RefreshLinkedRanges(index: LinkedEditingRanges, renamePendingAtStart: bool, hasProject: bool,
                             selections: seq<Selection>, responses: seq<Option<seq<AnchorRange>>>,
                             renamePendingAtInstall: bool, snapshottable: set<BufferId>)
    returns (requests: seq<Request>)
    requires |responses| == |RequestsOf(renamePendingAtStart, hasProject, selections)|
    modifies index
    ensures requests == RequestsOf(renamePendingAtStart, hasProject, selections)
    ensures renamePendingAtStart ==> requests == [] && index.ranges == old(index.ranges)
    ensures requests == [] || renamePendingAtInstall ==> index.ranges == old(index.ranges)
    ensures requests != [] && !renamePendingAtInstall ==>
      index.ranges == Installed(BatchesFor(requests, responses), snapshottable)
  {
    if renamePendingAtStart || !hasProject {
      return [];
    }
    var applicable := ApplicableSelections(selections);
    if applicable.None? {
      return [];
    }
    requests := applicable.value;
    if requests == [] {
      return;
    }
    var batches := FetchBatches(requests, responses);
    InstallBatches(index, batches, renamePendingAtInstall, snapshottable);
  }

  /**
   * A response of one range that contains the query links nothing, yet the
   * install still creates an entry list, an empty one, for the buffer: the
   * index is then not empty although no lookup can succeed.
   */
  lemma SingleRangeResponseInstallsEmptyEntry(request: Request, r: AnchorRange, snapshottable: set<BufferId>)
    requires Contains(r, AnchorRange(request.start, request.end))
    ensures Installed(BatchesFor([request], [Some([r])]), snapshottable) == map[request.buffer := []]
  {
    SingleRangeLinksNothing(r);
    assert Enumerate(map[]) == [];
    assert BatchOf([r]) == [];
    SingleRequestBatch(request, [r], 0);
    SingleBatchInstall(request.buffer, [], snapshottable);
  }

  /** A single batch installs as that buffer's only entry list, sorted when the buffer can be snapshotted. */
  lemma SingleBatchInstall(buffer: BufferId, groups: seq<LinkGroup>, snapshottable: set<BufferId>)
    ensures Installed([Some(Batch(buffer, groups))], snapshottable) ==
      map[buffer := if buffer in snapshottable then SortByRange(groups) else groups]
  {
    var batches := [Some(Batch(buffer, groups))];
    assert batches[..0] == [];
    assert Touched(batches) == {buffer};
    assert Appended(batches, buffer) == groups;
  }

  /** One request whose response passed the containment check yields that response's batch. */
  lemma SingleRequestBatch(request: Request, edits: seq<AnchorRange>, i: nat)
    requires i < |edits| && Contains(edits[i], AnchorRange(request.start, request.end))
    ensures BatchesFor([request], [Some(edits)]) == [Some(Batch(request.buffer, BatchOf(edits)))]
  {
    assert [request][..0] == [] && [Some(edits)][..0] == [];
  }

  /**
   * Two ranges in document order, such as the opening and closing tag names
   * of `<div>x</div>`, each become the other's only sibling, and the batch
   * lists the opening one first.
   */
  lemma TagPairBatch(opening: AnchorRange, closing: AnchorRange)
    requires opening.end < closing.start && opening.start <= opening.end
    ensures BatchOf([opening, closing]) == [LinkGroup(opening, [closing]), LinkGroup(closing, [opening])]
  {
    var expected := [LinkGroup(opening, [closing]), LinkGroup(closing, [opening])];
    TagPairGroups(opening, closing);
    SortedListingIsBatch([opening, closing], expected);
    TagPairSorted(opening, closing);
  }

  /** The two groups of a tag pair are already in order, so sorting leaves them be. */
  lemma TagPairSorted(opening: AnchorRange, closing: AnchorRange)
    requires opening.end < closing.start && opening.start <= opening.end
    ensures SortedByRange([LinkGroup(opening, [closing]), LinkGroup(closing, [opening])])
    ensures SortByRange([LinkGroup(opening, [closing]), LinkGroup(closing, [opening])])
         == [LinkGroup(opening, [closing]), LinkGroup(closing, [opening])]
  {
    var expected := [LinkGroup(opening, [closing]), LinkGroup(closing, [opening])];
    AppendKeepsSorted([expected[0]], expected[1]);
    assert [expected[0]] + [expected[1]] == expected;
    SortedArrangementIsUnique(SortByRange(expected), expected);
  }

  lemma TagPairGroups(opening: AnchorRange, closing: AnchorRange)
    requires opening != closing
    ensures multiset(GroupsOf(SiblingMapOf([opening, closing]))) ==
      multiset([LinkGroup(opening, [closing]), LinkGroup(closing, [opening])])
  {
    var m := SiblingMapOf([opening, closing]);
    TagPairSiblings(opening, closing, m);
    TwoGroups(m, opening, closing);
  }

  /** In a response of two distinct ranges, each range's only sibling is the other one. */
  lemma TagPairSiblings(opening: AnchorRange, closing: AnchorRange, m: SiblingMap)
    requires opening != closing && m == SiblingMapOf([opening, closing])
    ensures m.Keys == {opening, closing} && m[opening] == [closing] && m[closing] == [opening]
  {
    var edits := [opening, closing];
    SiblingMapIsClique(edits);
    assert edits[..0] + edits[1..] == [closing];
    assert edits[..1] + edits[2..] == [opening];
    assert SiblingsOf(m, edits[0]) == [closing] && SiblingsOf(m, edits[1]) == [opening];
  }

  lemma TwoGroups(m: SiblingMap, opening: AnchorRange, closing: AnchorRange)
    requires opening != closing && m.Keys == {opening, closing}
    requires m[opening] == [closing] && m[closing] == [opening]
    ensures multiset(GroupsOf(m)) == multiset([LinkGroup(opening, [closing]), LinkGroup(closing, [opening])])
  {
    var x, y := LinkGroup(opening, [closing]), LinkGroup(closing, [opening]);
    assert GroupsOf(m) == {x, y};
    assert multiset({x, y}) == multiset{x, y} == multiset([x, y]);
  }

  /**
   * The refresh for a cursor inside the opening tag of a tag pair: the index
   * afterwards holds, for that buffer only, the two tags each linked to the
   * other in document order; a lookup inside either tag finds that tag's
   * group and a lookup in neither finds nothing.
   */
  lemma TagPairRefresh(request: Request, opening: AnchorRange, closing: AnchorRange, query: AnchorRange)
    requires opening.start <= opening.end < closing.start <= closing.end
    requires Contains(opening, AnchorRange(request.start, request.end))
    requires query.start <= query.end
    ensures var installed := Installed(BatchesFor([request], [Some([opening, closing])]), {request.buffer});
      var entries := [LinkGroup(opening, [closing]), LinkGroup(closing, [opening])];
      installed == map[request.buffer := entries] &&
      (Contains(opening, query) ==> Lookup(entries, query) == Some(entries[0])) &&
      (Contains(closing, query) ==> Lookup(entries, query) == Some(entries[1])) &&
      (!Contains(opening, query) && !Contains(closing, query) ==> Lookup(entries, query) == None)
  {
    TagPairInstall(request, opening, closing);
    TagPairLookup(opening, closing, query);
  }

  lemma TagPairInstall(request: Request, opening: AnchorRange, closing: AnchorRange)
    requires opening.start <= opening.end < closing.start <= closing.end
    requires Contains(opening, AnchorRange(request.start, request.end))
    ensures Installed(BatchesFor([request], [Some([opening, closing])]), {request.buffer})
         == map[request.buffer := [LinkGroup(opening, [closing]), LinkGroup(closing, [opening])]]
  {
    var entries := [LinkGroup(opening, [closing]), LinkGroup(closing, [opening])];
    TagPairBatch(opening, closing);
    SingleRequestBatch(request, [opening, closing], 0);
    SingleBatchInstall(request.buffer, entries, {request.buffer});
    TagPairSorted(opening, closing);
  }

  lemma TagPairLookup(opening: AnchorRange, closing: AnchorRange, query: AnchorRange)
    requires opening.start <= opening.end < closing.start <= closing.end
    requires query.start <= query.end
    ensures var entries := [LinkGroup(opening, [closing]), LinkGroup(closing, [opening])];
      (Contains(opening, query) ==> Lookup(entries, query) == Some(entries[0])) &&
      (Contains(closing, query) ==> Lookup(entries, query) == Some(entries[1])) &&
      (!Contains(opening, query) && !Contains(closing, query) ==> Lookup(entries, query) == None)
  {
    var entries := [LinkGroup(opening, [closing]), LinkGroup(closing, [opening])];
    LookupMatchesLinearScan(entries, query);
    assert entries[1..][1..] == [];
  }

  /**
   * The containment check compares a range's start with the head and its end
   * with the tail. For a selection made forwards from offset 7 to offset 13
   * (tail 7, head 13), the closing tag name at 11..15 passes the check,
   * although it does not contain the selection; the installed pair then
   * answers no lookup of 7..13.
   */
  lemma ForwardSelectionPassesCheckByHeadAlone()
    ensures var edits := [AnchorRange(1, 5), AnchorRange(11, 15)];
      var request := Request(0, 13, 7);
      var entries := [LinkGroup(edits[0], [edits[1]]), LinkGroup(edits[1], [edits[0]])];
      AnyContains(edits, request) &&
      !Contains(edits[0], AnchorRange(7, 13)) && !Contains(edits[1], AnchorRange(7, 13)) &&
      BatchesFor([request], [Some(edits)]) == [Some(Batch(0, entries))] &&
      Lookup(entries, AnchorRange(7, 13)) == None
  {
    var edits := [AnchorRange(1, 5), AnchorRange(11, 15)];
    var request := Request(0, 13, 7);
    assert Contains(edits[1], AnchorRange(request.start, request.end));
    TagPairBatch(edits[0], edits[1]);
    SingleRequestBatch(request, edits, 1);
    TagPairLookup(edits[0], edits[1], AnchorRange(7, 13));
  }
}
