/**
 * `sort_by(|lhs, rhs| lhs.0.cmp(&rhs.0, &snapshot))` on a vector of linked
 * groups: a stable sort by the primary range under the anchor-range order.
 */
module Sorting {
  import opened Anchors

  predicate SortedByRange(s: seq<LinkGroup>)
  {
    forall i, j :: 0 <= i < j < |s| ==> RangeLe(s[i].primary, s[j].primary)
  }

  /** The entries of `s` whose primary range is `key`, in their order in `s`. */
  function WithPrimary(s: seq<LinkGroup>, key: AnchorRange): seq<LinkGroup>
  {
    if s == [] then []
    else WithPrimary(s[..|s| - 1], key) + (if s[|s| - 1].primary == key then [s[|s| - 1]] else [])
  }

  /**
   * Inserts `g` into `sorted` right after the last entry ordered at or before
   * it, so that `g` follows every entry with an equal primary range.
   */
  function InsertByRange(sorted: seq<LinkGroup>, g: LinkGroup): (r: seq<LinkGroup>)
    requires SortedByRange(sorted)
    ensures SortedByRange(r)
    ensures multiset(r) == multiset(sorted) + multiset{g}
  {
    if sorted == [] then [g]
    else
      var init, last := sorted[..|sorted| - 1], sorted[|sorted| - 1];
      if RangeLe(last.primary, g.primary) then
        AppendKeepsSorted(sorted, g);
        sorted + [g]
      else
        assert sorted == init + [last];
        var front := InsertByRange(init, g);
        InsertedLastIsBefore(init, g, front, last);
        AppendKeepsSorted(front, last);
        front + [last]
  }

  /**
   * When `g` goes before `last`, whatever ends the insertion of `g` into
   * the entries before `last` is ordered at or before `last`.
   */
  lemma InsertedLastIsBefore(init: seq<LinkGroup>, g: LinkGroup, front: seq<LinkGroup>, last: LinkGroup)
    requires SortedByRange(init + [last]) && !RangeLe(last.primary, g.primary)
    requires multiset(front) == multiset(init) + multiset{g} && front != []
    ensures RangeLe(front[|front| - 1].primary, last.primary)
  {
    var x := front[|front| - 1];
    assert x in multiset(front);
    RangeLeIsTotalOrder(g.primary, last.primary, g.primary);
    if x != g {
      assert x in multiset(init);
      var i :| 0 <= i < |init| && init[i] == x;
      assert (init + [last])[i] == x && (init + [last])[|init|] == last;
    }
  }

  /** Appending an entry that is ordered at or after the last one keeps a sequence sorted. */
  lemma AppendKeepsSorted(s: seq<LinkGroup>, x: LinkGroup)
    requires SortedByRange(s)
    requires s != [] ==> RangeLe(s[|s| - 1].primary, x.primary)
    ensures SortedByRange(s + [x])
  {
    forall i | 0 <= i < |s| ensures RangeLe(s[i].primary, x.primary) {
      RangeLeIsTotalOrder(s[i].primary, s[|s| - 1].primary, x.primary);
    }
  }

  /** Insertion sort: sorted, and a permutation of its input. */
  function SortByRange(s: seq<LinkGroup>): (r: seq<LinkGroup>)
    ensures SortedByRange(r)
    ensures multiset(r) == multiset(s)
    ensures |r| == |s|
  {
    if s == [] then []
    else
      assert s == s[..|s| - 1] + [s[|s| - 1]];
      var r := InsertByRange(SortByRange(s[..|s| - 1]), s[|s| - 1]);
      assert |r| == |multiset(r)|;
      r
  }

  lemma {:induction false} WithPrimaryAppend(a: seq<LinkGroup>, b: seq<LinkGroup>, key: AnchorRange)
    ensures WithPrimary(a + b, key) == WithPrimary(a, key) + WithPrimary(b, key)
    decreases |b|
  {
    if b == [] {
      assert a + b == a;
    } else {
      var b', x := b[..|b| - 1], b[|b| - 1];
      assert (a + b)[..|a + b| - 1] == a + b';
      WithPrimaryAppend(a, b', key);
    }
  }

  lemma InsertKeepsEqualRangesInOrder(sorted: seq<LinkGroup>, g: LinkGroup, key: AnchorRange)
    requires SortedByRange(sorted)
    ensures WithPrimary(InsertByRange(sorted, g), key)
         == WithPrimary(sorted, key) + (if g.primary == key then [g] else [])
  {
    InsertKeepsOrder(sorted, g, key, InsertByRange(sorted, g));
  }

  /** The entry `x` alone, if its primary range is `key`. */
  lemma WithPrimarySingle(x: LinkGroup, key: AnchorRange)
    ensures WithPrimary([x], key) == (if x.primary == key then [x] else [])
  {
    assert [x][..0] == [];
  }

  lemma {:induction false} InsertKeepsOrder(sorted: seq<LinkGroup>, g: LinkGroup, key: AnchorRange, r: seq<LinkGroup>)
    requires SortedByRange(sorted) && r == InsertByRange(sorted, g)
    ensures WithPrimary(r, key) == WithPrimary(sorted, key) + (if g.primary == key then [g] else [])
    decreases |sorted|
  {
    if sorted == [] {
      WithPrimarySingle(g, key);
      assert WithPrimary([], key) == [];
    } else {
      var init, last := sorted[..|sorted| - 1], sorted[|sorted| - 1];
      if RangeLe(last.primary, g.primary) {
        assert r == sorted + [g];
        AppendedAfter(sorted, g, key);
      } else {
        var front := InsertByRange(init, g);
        assert r == front + [last];
        InsertKeepsOrder(init, g, key, front);
        RangeLeIsTotalOrder(last.primary, g.primary, g.primary);
        InsertedBefore(init, last, g, key, front);
        assert sorted == init + [last];
      }
    }
  }

  lemma AppendedAfter(s: seq<LinkGroup>, g: LinkGroup, key: AnchorRange)
    ensures WithPrimary(s + [g], key) == WithPrimary(s, key) + (if g.primary == key then [g] else [])
  {
    WithPrimaryAppend(s, [g], key);
    WithPrimarySingle(g, key);
  }

  lemma InsertedBefore(init: seq<LinkGroup>, last: LinkGroup, g: LinkGroup, key: AnchorRange, front: seq<LinkGroup>)
    requires last.primary != g.primary
    requires WithPrimary(front, key) == WithPrimary(init, key) + (if g.primary == key then [g] else [])
    ensures WithPrimary(front + [last], key)
         == WithPrimary(init + [last], key) + (if g.primary == key then [g] else [])
  {
    WithPrimaryAppend(front, [last], key);
    WithPrimaryAppend(init, [last], key);
    WithPrimarySingle(last, key);
    var t := if g.primary == key then [g] else [];
    var wl := WithPrimary([last], key);
    assert t == [] || wl == [];
    SwapEmpty(WithPrimary(init, key), t, wl);
  }

  /** `(w + t) + l == (w + l) + t` when one of `t`, `l` is empty. */
  lemma SwapEmpty(w: seq<LinkGroup>, t: seq<LinkGroup>, l: seq<LinkGroup>)
    requires t == [] || l == []
    ensures (w + t) + l == (w + l) + t
  {
  }

  /** `sort_by` is stable: entries with equal primary ranges keep their relative order. */
  lemma {:induction false} SortByRangeIsStable(s: seq<LinkGroup>, key: AnchorRange)
    ensures WithPrimary(SortByRange(s), key) == WithPrimary(s, key)
    decreases |s|
  {
    if s != [] {
      var init, last := s[..|s| - 1], s[|s| - 1];
      SortByRangeIsStable(init, key);
      InsertKeepsEqualRangesInOrder(SortByRange(init), last, key);
    }
  }

  /**
   * Two sorted sequences holding the same entries are equal: the order
   * identifies only equal ranges, so when no primary range repeats there is
   * exactly one sorted arrangement of a batch.
   */
  lemma {:induction false} SortedArrangementIsUnique(a: seq<LinkGroup>, b: seq<LinkGroup>)
    requires SortedByRange(a) && SortedByRange(b)
    requires multiset(a) == multiset(b)
    requires forall i, j :: 0 <= i < j < |a| ==> a[i].primary != a[j].primary
    ensures a == b
    decreases |a|
  {
    assert |a| == |multiset(a)| == |multiset(b)| == |b|;
    if a != [] {
      SortedHeadsAgree(a, b);
      DropHead(a, b);
      SortedArrangementIsUnique(a[1..], b[1..]);
      assert a == [a[0]] + a[1..];
      assert b == [b[0]] + b[1..];
    }
  }

  /** Two sorted arrangements of the same entries, without repeated primaries, start alike. */
  lemma SortedHeadsAgree(a: seq<LinkGroup>, b: seq<LinkGroup>)
    requires SortedByRange(a) && SortedByRange(b)
    requires multiset(a) == multiset(b) && a != []
    requires forall i, j :: 0 <= i < j < |a| ==> a[i].primary != a[j].primary
    ensures b != [] && a[0] == b[0]
  {
    assert a[0] in multiset(b);
    var j :| 0 <= j < |b| && b[j] == a[0];
    assert b[0] in multiset(a);
    var i :| 0 <= i < |a| && a[i] == b[0];
    RangeLeIsTotalOrder(a[0].primary, b[0].primary, a[0].primary);
    assert RangeLe(b[0].primary, b[j].primary) by {
      if j > 0 { } else { RangeLeIsTotalOrder(b[0].primary, b[0].primary, b[0].primary); }
    }
    assert RangeLe(a[0].primary, a[i].primary) by {
      if i > 0 { } else { RangeLeIsTotalOrder(a[0].primary, a[0].primary, a[0].primary); }
    }
    assert a[0].primary == b[0].primary;
    assert i == 0;
  }

  /** Dropping an equal first entry keeps the rest sorted, alike in content, and without repeats. */
  lemma DropHead(a: seq<LinkGroup>, b: seq<LinkGroup>)
    requires SortedByRange(a) && SortedByRange(b)
    requires multiset(a) == multiset(b) && a != [] && b != [] && a[0] == b[0]
    requires forall i, j :: 0 <= i < j < |a| ==> a[i].primary != a[j].primary
    ensures SortedByRange(a[1..]) && SortedByRange(b[1..])
    ensures multiset(a[1..]) == multiset(b[1..])
    ensures forall i, j :: 0 <= i < j < |a[1..]| ==> a[1..][i].primary != a[1..][j].primary
  {
    TailsAlike(a, b);
  }

  lemma TailsAlike(a: seq<LinkGroup>, b: seq<LinkGroup>)
    requires multiset(a) == multiset(b) && a != [] && b != [] && a[0] == b[0]
    ensures multiset(a[1..]) == multiset(b[1..])
  {
    assert a == [a[0]] + a[1..];
    assert b == [b[0]] + b[1..];
    assert multiset(a[1..]) == multiset(a) - multiset{a[0]};
    assert multiset(b[1..]) == multiset(b) - multiset{b[0]};
  }
}
