/**
 * Values shared by the linked-editing index and its refresh pipeline.
 *
 * An anchor is represented by its offset under one fixed buffer snapshot, so
 * comparing two anchors "under the snapshot" is integer comparison.
 */
module Anchors {

  datatype Option<+T> = None | Some(value: T)

  /** Identifier of a text buffer. */
  type BufferId = nat

  /** A span of one buffer, `start..end`, as anchor offsets. */
  datatype AnchorRange = AnchorRange(start: int, end: int)

  /** One linked group: a range together with the ranges that are edited with it. */
  datatype LinkGroup = LinkGroup(primary: AnchorRange, siblings: seq<AnchorRange>)

  /** `outer` covers `query`: it starts at or before it and ends at or after it. */
  predicate Contains(outer: AnchorRange, query: AnchorRange)
  {
    outer.start <= query.start && query.end <= outer.end
  }

  /**
   * The order of `AnchorRangeExt::cmp` from the text crate: ascending by
   * start, and on equal starts the longer range (larger end) first.
   * `RangeLe(a, b)` holds when `a` is ordered at or before `b`.
   */
  predicate RangeLe(a: AnchorRange, b: AnchorRange)
  {
    a.start < b.start || (a.start == b.start && a.end >= b.end)
  }

  /** The comparator is a total preorder that identifies only equal ranges. */
  lemma RangeLeIsTotalOrder(a: AnchorRange, b: AnchorRange, c: AnchorRange)
    ensures RangeLe(a, a)
    ensures RangeLe(a, b) || RangeLe(b, a)
    ensures RangeLe(a, b) && RangeLe(b, a) ==> a == b
    ensures RangeLe(a, b) && RangeLe(b, c) ==> RangeLe(a, c)
    ensures RangeLe(a, b) ==> a.start <= b.start
  {
  }
}
