/**
 * The per-buffer index of linked-editing groups and its point-containment
 * lookup (`LinkedEditingRanges`, `get`, `is_empty`).
 */
module Index {
  import opened Anchors

  /** Ascending by primary start: the order `partition_point` searches. */
  predicate SortedByStart(s: seq<LinkGroup>)
  {
    forall i, j :: 0 <= i < j < |s| ==> s[i].primary.start <= s[j].primary.start
  }

  /** The documented invariant of a buffer's entries: each starts after the previous one ends. */
  predicate NonOverlapping(s: seq<LinkGroup>)
  {
    forall i :: 0 <= i < |s| - 1 ==> s[i].primary.end < s[i + 1].primary.start
  }

  /**
   * `partition_point` with the predicate "primary starts at or before `pivot`",
   * searched in `s[lo..hi]` by bisection. Whatever the order of `s`, the
   * result is a boundary: the entry just before it satisfies the predicate
   * and the entry at it does not.
   */
  function PartitionPoint(s: seq<LinkGroup>, pivot: int, lo: nat, hi: nat): (k: nat)
    requires lo <= hi <= |s|
    ensures lo <= k <= hi
    ensures k > lo ==> s[k - 1].primary.start <= pivot
    ensures k < hi ==> s[k].primary.start > pivot
    decreases hi - lo
  {
    if lo == hi then lo
    else
      var mid := (lo + hi) / 2;
      if s[mid].primary.start <= pivot then PartitionPoint(s, pivot, mid + 1, hi)
      else PartitionPoint(s, pivot, lo, mid)
  }

  /** Number of entries whose primary starts at or before `pivot`. */
  function CountAtOrBefore(s: seq<LinkGroup>, pivot: int): nat
  {
    if s == [] then 0
    else CountAtOrBefore(s[..|s| - 1], pivot) + (if s[|s| - 1].primary.start <= pivot then 1 else 0)
  }

  /**
   * On entries sorted by start, the search finds the partition exactly:
   * everything before the result starts at or before the pivot, everything
   * from it on starts after, and the result is the count of the former.
   */
  lemma {:induction false} PartitionPointCounts(s: seq<LinkGroup>, pivot: int)
    requires SortedByStart(s)
    ensures PartitionPoint(s, pivot, 0, |s|) == CountAtOrBefore(s, pivot)
    ensures forall i :: 0 <= i < |s| ==>
      (i < PartitionPoint(s, pivot, 0, |s|) <==> s[i].primary.start <= pivot)
  {
    var k := PartitionPoint(s, pivot, 0, |s|);
    PrefixCount(s, pivot, k);
  }

  lemma {:induction false} PrefixCount(s: seq<LinkGroup>, pivot: int, k: nat)
    requires k <= |s|
    requires forall i :: 0 <= i < k ==> s[i].primary.start <= pivot
    requires forall i :: k <= i < |s| ==> s[i].primary.start > pivot
    ensures CountAtOrBefore(s, pivot) == k
    decreases |s|
  {
    if s != [] {
      var init := s[..|s| - 1];
      if k == |s| {
        PrefixCount(init, pivot, k - 1);
      } else {
        PrefixCount(init, pivot, k);
      }
    }
  }

  /**
   * Lines 24-33 after the map lookup: bisect for the first entry starting
   * after the query, and return the entry before it if it reaches the
   * query's end.
   */
  function Lookup(s: seq<LinkGroup>, query: AnchorRange): (r: Option<LinkGroup>)
    ensures r.Some? ==> r.value in s && Contains(r.value.primary, query)
  {
    var lowerBound := PartitionPoint(s, query.start, 0, |s|);
    if lowerBound == 0 then None
    else if s[lowerBound - 1].primary.end >= query.end then Some(s[lowerBound - 1])
    else None
  }

  /** Reference definition: the first entry, scanning left to right, that contains the query. */
  function FirstContaining(s: seq<LinkGroup>, query: AnchorRange): Option<LinkGroup>
  {
    if s == [] then None
    else if Contains(s[0].primary, query) then Some(s[0])
    else FirstContaining(s[1..], query)
  }

  lemma {:induction false} FirstContainingSpec(s: seq<LinkGroup>, query: AnchorRange)
    ensures FirstContaining(s, query).None? <==>
      forall i :: 0 <= i < |s| ==> !Contains(s[i].primary, query)
    ensures FirstContaining(s, query).Some? ==>
      exists i :: 0 <= i < |s| && FirstContaining(s, query) == Some(s[i]) &&
        Contains(s[i].primary, query) &&
        forall j :: 0 <= j < i ==> !Contains(s[j].primary, query)
  {
    if s != [] && !Contains(s[0].primary, query) {
      FirstContainingSpec(s[1..], query);
      if FirstContaining(s[1..], query).Some? {
        var i :| 0 <= i < |s[1..]| && FirstContaining(s[1..], query) == Some(s[1..][i]) &&
          Contains(s[1..][i].primary, query) &&
          forall j :: 0 <= j < i ==> !Contains(s[1..][j].primary, query);
        assert forall j :: 0 <= j < i + 1 ==> !Contains(s[j].primary, query) by {
          forall j | 0 <= j < i + 1 ensures !Contains(s[j].primary, query) {
            if j > 0 { assert s[j] == s[1..][j - 1]; }
          }
        }
      } else {
        forall i | 0 <= i < |s| ensures !Contains(s[i].primary, query) {
          if i > 0 { assert s[i] == s[1..][i - 1]; }
        }
      }
    }
  }

  /**
   * Why one candidate is enough: on sorted, non-overlapping entries, an entry
   * containing a query (whose start is not after its end) is the last entry
   * that starts at or before the query's start.
   */
  lemma ContainingIsLastAtOrBefore(s: seq<LinkGroup>, query: AnchorRange, j: nat)
    requires SortedByStart(s) && NonOverlapping(s)
    requires query.start <= query.end
    requires j < |s| && Contains(s[j].primary, query)
    ensures j + 1 == CountAtOrBefore(s, query.start)
  {
    if j + 1 < |s| {
      assert s[j + 1].primary.start > query.start;
    }
    PrefixCount(s, query.start, j + 1);
  }

  /** Completeness: under the invariant, an entry containing the query is exactly what the lookup returns. */
  lemma LookupFindsContainingEntry(s: seq<LinkGroup>, query: AnchorRange, j: nat)
    requires SortedByStart(s) && NonOverlapping(s)
    requires query.start <= query.end
    requires j < |s| && Contains(s[j].primary, query)
    ensures Lookup(s, query) == Some(s[j])
  {
    ContainingIsLastAtOrBefore(s, query, j);
    PartitionPointCounts(s, query.start);
  }

  /** Under the invariant, the bisecting lookup agrees with the linear scan. */
  lemma LookupMatchesLinearScan(s: seq<LinkGroup>, query: AnchorRange)
    requires SortedByStart(s) && NonOverlapping(s)
    requires query.start <= query.end
    ensures Lookup(s, query) == FirstContaining(s, query)
  {
    FirstContainingSpec(s, query);
    if FirstContaining(s, query).Some? {
      var j :| 0 <= j < |s| && FirstContaining(s, query) == Some(s[j]) && Contains(s[j].primary, query);
      LookupFindsContainingEntry(s, query, j);
    }
  }

  /** The index: for each buffer, its linked groups. */
  class LinkedEditingRanges {
    var ranges: map<BufferId, seq<LinkGroup>>

    /** `#[derive(Default)]`: the index starts empty. */
    constructor ()
      ensures ranges == map[]
    {
      ranges := map[];
    }

    /** The group of buffer `id` that contains `query`, if any. */
    function Get(id: BufferId, query: AnchorRange): (r: Option<LinkGroup>)
      reads this
      ensures id !in ranges ==> r == None
      ensures r.Some? ==> id in ranges && r.value in ranges[id] && Contains(r.value.primary, query)
      ensures (id in ranges && SortedByStart(ranges[id]) && NonOverlapping(ranges[id]) &&
               query.start <= query.end) ==> r == FirstContaining(ranges[id], query)
    {
      if id !in ranges then None
      else
        var found := Lookup(ranges[id], query);
        assert SortedByStart(ranges[id]) && NonOverlapping(ranges[id]) && query.start <= query.end ==>
          found == FirstContaining(ranges[id], query) by {
          if SortedByStart(ranges[id]) && NonOverlapping(ranges[id]) && query.start <= query.end {
            LookupMatchesLinearScan(ranges[id], query);
          }
        }
        found
    }

    /** True iff no buffer has an entry list, even an empty one. */
    function IsEmpty(): (b: bool)
      reads this
      ensures b <==> forall id :: id !in ranges
      ensures b ==> forall id, query :: Get(id, query) == None
    {
      |ranges| == 0
    }
  }
}
