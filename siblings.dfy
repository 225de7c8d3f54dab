/**
 * Turning one provider response (a flat list of mutually linked ranges)
 * into a batch of linked groups: every unordered pair of ranges from
 * `combinations(2)` makes each range a sibling of the other, and the
 * resulting map is listed and sorted by range.
 */
module Siblings {
  import opened Anchors
  import opened Sorting

  type SiblingMap = map<AnchorRange, seq<AnchorRange>>

  predicate Distinct(s: seq<AnchorRange>)
  {
    forall i, j :: 0 <= i < j < |s| ==> s[i] != s[j]
  }

  /**
   * `Distinct`, stated one element at a time, so that proofs by induction
   * over the pairwise loop unfold it only where they need it.
   */
  predicate NoRepeats(s: seq<AnchorRange>)
    decreases |s|
  {
    |s| <= 1 || (s[0] !in s[1..] && NoRepeats(s[1..]))
  }

  lemma {:induction false} NoRepeatsIsDistinct(s: seq<AnchorRange>)
    ensures NoRepeats(s) <==> Distinct(s)
    decreases |s|
  {
    if |s| > 1 {
      var tail := s[1..];
      NoRepeatsIsDistinct(tail);
      if Distinct(s) {
        forall i, j | 0 <= i < j < |tail| ensures tail[i] != tail[j] {
          assert tail[i] == s[i + 1] && tail[j] == s[j + 1];
        }
        forall k | 0 <= k < |tail| ensures tail[k] != s[0] {
          assert tail[k] == s[k + 1];
        }
      }
      if NoRepeats(s) {
        forall i, j | 0 <= i < j < |s| ensures s[i] != s[j] {
          assert s[j] == tail[j - 1];
          if i > 0 {
            assert s[i] == tail[i - 1];
          }
        }
      }
    }
  }

  /** The siblings recorded for `key`, or the empty list `or_default` would create. */
  function SiblingsOf(m: SiblingMap, key: AnchorRange): seq<AnchorRange>
  {
    if key in m then m[key] else []
  }

  /** Lines 93-94 for one pair: each range is pushed onto the other's sibling list. */
  function LinkPair(m: SiblingMap, first: AnchorRange, second: AnchorRange): SiblingMap
  {
    var m' := m[first := SiblingsOf(m, first) + [second]];
    m'[second := SiblingsOf(m', second) + [first]]
  }

  /**
   * Links the pairs of `s.into_iter().combinations(2)` from `(s[a], s[b])`
   * on, in the order itertools yields them: `(s[a], s[b])`, ...,
   * `(s[a], s[|s| - 1])`, then the pairs whose first index is `a + 1`, and
   * so on.
   */
  function LinkFrom(m: SiblingMap, s: seq<AnchorRange>, a: nat, b: nat): SiblingMap
    requires a < b <= |s| + 1
    decreases |s| + 1 - a, |s| + 1 - b
  {
    if a >= |s| then m
    else if b >= |s| then (if a + 1 >= |s| then m else LinkFrom(m, s, a + 1, a + 2))
    else LinkFrom(LinkPair(m, s[a], s[b]), s, a, b + 1)
  }

  /** The sibling map built from a response (lines 83-95). */
  function SiblingMapOf(edits: seq<AnchorRange>): SiblingMap
  {
    LinkFrom(map[], edits, 0, 1)
  }

  /** The map's entries as linked groups. */
  function GroupsOf(m: SiblingMap): set<LinkGroup>
  {
    set k | k in m :: LinkGroup(k, m[k])
  }

  /**
   * Lines 83-95: the pairwise loop over `combinations(2)`, updating the
   * sibling map in place, one row of pairs `(edits[a], _)` at a time.
   */
  method LinkSiblings(edits: seq<AnchorRange>) returns (siblings: SiblingMap)
    ensures siblings == SiblingMapOf(edits)
  {
    ghost var target := SiblingMapOf(edits);
    siblings := map[];
    var a := 0;
    while a < |edits|
      invariant 0 <= a <= |edits|
      invariant a < |edits| ==> LinkFrom(siblings, edits, a, a + 1) == target
      invariant a == |edits| ==> siblings == target
    {
      siblings := LinkRow(edits, a, siblings);
      a := a + 1;
    }
  }

  /**
   * The pairs `(edits[a], edits[b])` for `b` after `a`, in order: linking
   * them and going on from the next row links what the remaining pairs of
   * `combinations(2)` from `(edits[a], edits[a + 1])` would.
   */
  method LinkRow(edits: seq<AnchorRange>, a: nat, start: SiblingMap) returns (siblings: SiblingMap)
    requires a < |edits|
    ensures a + 1 < |edits| ==> LinkFrom(siblings, edits, a + 1, a + 2) == LinkFrom(start, edits, a, a + 1)
    ensures a + 1 == |edits| ==> siblings == LinkFrom(start, edits, a, a + 1)
  {
    siblings := start;
    var b := a + 1;
    while b < |edits|
      invariant a + 1 <= b <= |edits|
      invariant LinkFrom(siblings, edits, a, b) == LinkFrom(start, edits, a, a + 1)
    {
      var first, second := edits[a], edits[b];
      assert LinkFrom(LinkPair(siblings, first, second), edits, a, b + 1) == LinkFrom(siblings, edits, a, b);
      siblings := siblings[first := SiblingsOf(siblings, first) + [second]];
      siblings := siblings[second := SiblingsOf(siblings, second) + [first]];
      b := b + 1;
    }
  }

  /** Linking pairs of `s` only ever adds ranges of `s` as keys. */
  lemma {:induction false} LinkFromKeys(m: SiblingMap, s: seq<AnchorRange>, a: nat, b: nat, linked: SiblingMap)
    requires a < b <= |s| + 1
    requires forall k :: k in m ==> k in s
    requires linked == LinkFrom(m, s, a, b)
    ensures forall k :: k in linked ==> k in s
    decreases |s| + 1 - a, |s| + 1 - b, 1
  {
    if a < |s| {
      if b >= |s| {
        if a + 1 < |s| {
          LinkFromKeys(m, s, a + 1, a + 2, linked);
        }
      } else {
        var m' := LinkPair(m, s[a], s[b]);
        assert linked == LinkFrom(m', s, a, b + 1);
        assert m'.Keys == m.Keys + {s[a], s[b]};
        LinkPairThenKeys(s, a, b, m', linked);
      }
    }
  }

  /** The step of `LinkFromKeys` after the pair `(s[a], s[b])`. */
  lemma {:induction false} LinkPairThenKeys(s: seq<AnchorRange>, a: nat, b: nat, m': SiblingMap, linked: SiblingMap)
    requires a < b < |s|
    requires forall k :: k in m' ==> k in s
    requires linked == LinkFrom(m', s, a, b + 1)
    ensures forall k :: k in linked ==> k in s
    decreases |s| + 1 - a, |s| + 1 - b, 0
  {
    LinkFromKeys(m', s, a, b + 1, linked);
  }

  /**
   * The sibling list of `s[c]` part-way through the pairwise loop, for
   * distinct ranges, once all pairs with first index below `a` are linked,
   * and so are the pairs `(s[a], s[b'])` with `b' < b`.
   */
  function Expected(s: seq<AnchorRange>, a: nat, b: nat, c: nat): seq<AnchorRange>
    requires a < b <= |s| && c < |s|
  {
    if c < a then s[..c] + s[c + 1..]
    else if c == a then s[..a] + s[a + 1..b]
    else if c < b then s[..a + 1]
    else s[..a]
  }

  lemma ExpectedAfterPair(s: seq<AnchorRange>, a: nat, b: nat, c: nat)
    requires a < b < |s| && c < |s|
    ensures c == a ==> Expected(s, a, b + 1, c) == Expected(s, a, b, c) + [s[b]]
    ensures c == b ==> Expected(s, a, b + 1, c) == Expected(s, a, b, c) + [s[a]]
    ensures c != a && c != b ==> Expected(s, a, b + 1, c) == Expected(s, a, b, c)
  {
    if c == a {
      assert s[a + 1..b + 1] == s[a + 1..b] + [s[b]];
    } else if c == b {
      assert s[..a + 1] == s[..a] + [s[a]];
    }
  }

  lemma ExpectedAtNextRow(s: seq<AnchorRange>, a: nat, c: nat)
    requires 0 < a < |s| && c < |s|
    ensures Expected(s, a - 1, |s|, c) == Expected(s, a, a + 1, c)
  {
    if c == a - 1 {
      assert s[a - 1 + 1..|s|] == s[c + 1..];
    } else if c == a {
      assert s[a + 1..a + 1] == [];
    }
  }

  /** What linking the pair `(x, y)` pushes onto `key`'s list: `y` if `key` is `x`, then `x` if `key` is `y`. */
  function PairPush(x: AnchorRange, y: AnchorRange, key: AnchorRange): seq<AnchorRange>
  {
    (if x == key then [y] else []) + (if y == key then [x] else [])
  }

  /**
   * What the pairs from `(s[a], s[b])` on, in `combinations(2)` order, push
   * onto `key`'s list.
   */
  function Pushed(s: seq<AnchorRange>, a: nat, b: nat, key: AnchorRange): seq<AnchorRange>
    requires a < b <= |s| + 1
    decreases |s| + 1 - a, |s| + 1 - b
  {
    if a >= |s| then []
    else if b >= |s| then
      if a + 1 >= |s| then [] else Pushed(s, a + 1, a + 2, key)
    else PairPush(s[a], s[b], key) + Pushed(s, a, b + 1, key)
  }

  lemma LinkPairPushes(m: SiblingMap, x: AnchorRange, y: AnchorRange, key: AnchorRange)
    ensures SiblingsOf(LinkPair(m, x, y), key) == SiblingsOf(m, key) + PairPush(x, y, key)
  {
  }

  /**
   * The pairwise loop only ever appends: from any state, each key's final
   * list is its current list followed by what the remaining pairs push.
   */
  lemma {:induction false} LinkFromPushes(m: SiblingMap, s: seq<AnchorRange>, a: nat, b: nat, key: AnchorRange,
                                         linked: SiblingMap, pushed: seq<AnchorRange>)
    requires a < b <= |s| + 1
    requires linked == LinkFrom(m, s, a, b) && pushed == Pushed(s, a, b, key)
    ensures SiblingsOf(linked, key) == SiblingsOf(m, key) + pushed
    decreases |s| + 1 - a, |s| + 1 - b, 1
  {
    if a >= |s| {
      assert SiblingsOf(m, key) + [] == SiblingsOf(m, key);
    } else if b >= |s| {
      if a + 1 < |s| {
        LinkFromPushes(m, s, a + 1, a + 2, key, linked, pushed);
      } else {
        assert SiblingsOf(m, key) + [] == SiblingsOf(m, key);
      }
    } else {
      var m' := LinkPair(m, s[a], s[b]);
      var rest := Pushed(s, a, b + 1, key);
      assert linked == LinkFrom(m', s, a, b + 1);
      assert pushed == PairPush(s[a], s[b], key) + rest;
      LinkPairPushes(m, s[a], s[b], key);
      LinkPairThenPushes(s, a, b, key, m', linked, SiblingsOf(m, key), PairPush(s[a], s[b], key), rest, pushed);
    }
  }

  /**
   * The step of `LinkFromPushes` across the pair `(s[a], s[b])`, given that
   * linking it turned `key`'s list `before` into `before + step`.
   */
  lemma {:induction false} LinkPairThenPushes(s: seq<AnchorRange>, a: nat, b: nat, key: AnchorRange,
                                             m': SiblingMap, linked: SiblingMap, before: seq<AnchorRange>,
                                             step: seq<AnchorRange>, rest: seq<AnchorRange>, pushed: seq<AnchorRange>)
    requires a < b < |s|
    requires linked == LinkFrom(m', s, a, b + 1) && rest == Pushed(s, a, b + 1, key)
    requires SiblingsOf(m', key) == before + step && pushed == step + rest
    ensures SiblingsOf(linked, key) == before + pushed
    decreases |s| + 1 - a, |s| + 1 - b, 0
  {
    LinkFromPushes(m', s, a, b + 1, key, linked, rest);
    AppendChain(before, step, rest, pushed, before + step, SiblingsOf(linked, key));
  }

  /** For distinct ranges, linking `(s[a], s[b])` pushes onto `s[c]` exactly what `Expected` gains. */
  lemma ExpectedGrowsByPush(s: seq<AnchorRange>, a: nat, b: nat, c: nat)
    requires NoRepeats(s) && a < b < |s| && c < |s|
    ensures Expected(s, a, b, c) + PairPush(s[a], s[b], s[c]) == Expected(s, a, b + 1, c)
  {
    NoRepeatsIsDistinct(s);
    ExpectedAfterPair(s, a, b, c);
    if c == a {
      assert s[b] != s[c];
      assert PairPush(s[a], s[b], s[c]) == [s[b]];
    } else if c == b {
      assert s[a] != s[c];
      assert PairPush(s[a], s[b], s[c]) == [s[a]];
    } else {
      assert s[a] != s[c] && s[b] != s[c];
      assert PairPush(s[a], s[b], s[c]) == [];
      assert Expected(s, a, b, c) + [] == Expected(s, a, b, c);
    }
  }

  /**
   * For distinct ranges, what the remaining pairs push onto `s[c]`
   * completes its list as the finished loop has it.
   */
  lemma {:induction false} PushedCompletes(s: seq<AnchorRange>, a: nat, b: nat, c: nat, pushed: seq<AnchorRange>)
    requires NoRepeats(s) && a < b <= |s| && c < |s|
    requires pushed == Pushed(s, a, b, s[c])
    ensures Expected(s, a, b, c) + pushed == Expected(s, |s| - 1, |s|, c)
    decreases |s| + 1 - a, |s| + 1 - b, 1
  {
    if b < |s| {
      var rest := Pushed(s, a, b + 1, s[c]);
      assert pushed == PairPush(s[a], s[b], s[c]) + rest;
      PushedNextPair(s, a, b, c, rest, pushed);
    } else if a + 1 < |s| {
      assert pushed == Pushed(s, a + 1, a + 2, s[c]);
      PushedNextRow(s, a, c, pushed);
    } else {
      assert pushed == [];
      assert Expected(s, a, b, c) + [] == Expected(s, a, b, c);
    }
  }

  /** The step of `PushedCompletes` across the pair `(s[a], s[b])`. */
  lemma {:induction false} PushedNextPair(s: seq<AnchorRange>, a: nat, b: nat, c: nat, rest: seq<AnchorRange>,
                                         pushed: seq<AnchorRange>)
    requires NoRepeats(s) && a < b < |s| && c < |s|
    requires rest == Pushed(s, a, b + 1, s[c]) && pushed == PairPush(s[a], s[b], s[c]) + rest
    ensures Expected(s, a, b, c) + pushed == Expected(s, |s| - 1, |s|, c)
    decreases |s| + 1 - a, |s| + 1 - b, 0
  {
    PushedCompletes(s, a, b + 1, c, rest);
    ExpectedGrowsByPush(s, a, b, c);
    AppendChain(Expected(s, a, b, c), PairPush(s[a], s[b], s[c]), rest, pushed,
                Expected(s, a, b + 1, c), Expected(s, |s| - 1, |s|, c));
  }

  /** The step of `PushedCompletes` from the row of `s[a]` to the row of `s[a + 1]`. */
  lemma {:induction false} PushedNextRow(s: seq<AnchorRange>, a: nat, c: nat, pushed: seq<AnchorRange>)
    requires NoRepeats(s) && a + 1 < |s| && c < |s|
    requires pushed == Pushed(s, a + 1, a + 2, s[c])
    ensures Expected(s, a, |s|, c) + pushed == Expected(s, |s| - 1, |s|, c)
    decreases |s| + 1 - a, 0, 0
  {
    PushedCompletes(s, a + 1, a + 2, c, pushed);
    ExpectedAtNextRow(s, a + 1, c);
  }

  /** `x + p` is `z` when `p` is `y + rest`, `x + y` is `w` and `w + rest` is `z`. */
  lemma AppendChain(x: seq<AnchorRange>, y: seq<AnchorRange>, rest: seq<AnchorRange>, p: seq<AnchorRange>,
                    w: seq<AnchorRange>, z: seq<AnchorRange>)
    requires p == y + rest && x + y == w && w + rest == z
    ensures x + p == z
  {
    assert x + (y + rest) == (x + y) + rest;
  }

  /**
   * Clique completeness: for distinct ranges, the sibling list of each
   * range is every other range of the response, in response order; only
   * ranges of the response are keys, and with two or more ranges all are.
   */
  lemma SiblingMapIsClique(s: seq<AnchorRange>)
    requires Distinct(s)
    ensures forall k :: k in SiblingMapOf(s) ==> k in s
    ensures forall c :: 0 <= c < |s| ==> SiblingsOf(SiblingMapOf(s), s[c]) == s[..c] + s[c + 1..]
    ensures |s| >= 2 ==> forall c :: 0 <= c < |s| ==> s[c] in SiblingMapOf(s)
  {
    var m := SiblingMapOf(s);
    if s != [] {
      var n := |s|;
      NoRepeatsIsDistinct(s);
      LinkFromKeys(map[], s, 0, 1, m);
      forall c | 0 <= c < n ensures SiblingsOf(m, s[c]) == s[..c] + s[c + 1..] {
        SiblingsOfEach(s, m, c);
      }
      if n >= 2 {
        forall c | 0 <= c < n ensures s[c] in m {
          var other := if c == 0 then 1 else 0;
          assert s[other] in s[..c] + s[c + 1..];
        }
      }
    }
  }

  /** For ranges without repeats, the finished loop has recorded every other range as a sibling of `s[c]`. */
  lemma SiblingsOfEach(s: seq<AnchorRange>, m: SiblingMap, c: nat)
    requires NoRepeats(s) && m == SiblingMapOf(s) && c < |s|
    ensures SiblingsOf(m, s[c]) == s[..c] + s[c + 1..]
  {
    var pushed := Pushed(s, 0, 1, s[c]);
    LinkFromPushes(map[], s, 0, 1, s[c], m, pushed);
    PushedCompletes(s, 0, 1, c, pushed);
    ExpectedEnds(s, c);
    assert SiblingsOf(map[], s[c]) == [];
  }

  /** Before the loop a list is empty; after it, it holds every other range. */
  lemma ExpectedEnds(s: seq<AnchorRange>, c: nat)
    requires c < |s|
    ensures Expected(s, 0, 1, c) == []
    ensures Expected(s, |s| - 1, |s|, c) == s[..c] + s[c + 1..]
  {
    if c == |s| - 1 {
      assert s[c + 1..] == [] && s[|s|..|s|] == [];
    }
  }

  /**
   * The sibling relation of a response of n >= 2 distinct ranges is the
   * complete graph: every range is a key, no range is its own sibling,
   * any two different ranges are each other's siblings, and every range
   * has n - 1 siblings.
   */
  lemma SiblingGraphIsComplete(s: seq<AnchorRange>)
    requires Distinct(s) && |s| >= 2
    ensures forall k :: k in SiblingMapOf(s) <==> k in s
    ensures forall x, y :: x in SiblingMapOf(s) && y in SiblingMapOf(s) ==>
      (y in SiblingMapOf(s)[x] <==> x != y)
    ensures forall x :: x in SiblingMapOf(s) ==> |SiblingMapOf(s)[x]| == |s| - 1
  {
    var m := SiblingMapOf(s);
    SiblingMapIsClique(s);
    forall x | x in m ensures |m[x]| == |s| - 1 {
      var a :| 0 <= a < |s| && s[a] == x;
      assert SiblingsOf(m, s[a]) == s[..a] + s[a + 1..];
    }
    forall x, y | x in m && y in m ensures y in m[x] <==> x != y {
      var a :| 0 <= a < |s| && s[a] == x;
      var b :| 0 <= b < |s| && s[b] == y;
      assert SiblingsOf(m, s[a]) == s[..a] + s[a + 1..];
      OthersHoldEveryOther(s, a, b);
    }
  }

  lemma OthersHoldEveryOther(s: seq<AnchorRange>, a: nat, b: nat)
    requires Distinct(s) && a < |s| && b < |s|
    ensures s[b] in s[..a] + s[a + 1..] <==> a != b
  {
    var others := s[..a] + s[a + 1..];
    if a == b {
      forall i | 0 <= i < |others| ensures others[i] != s[a] {
        if i < a { assert others[i] == s[i]; } else { assert others[i] == s[i + 1]; }
      }
    } else if b < a {
      assert others[b] == s[b];
    } else {
      assert others[b - 1] == s[b];
    }
  }

  /** Two duplicates in a response make a range its own sibling: distinctness is needed above. */
  lemma DuplicateRangeIsItsOwnSibling(r: AnchorRange)
    ensures SiblingMapOf([r, r]) == map[r := [r, r]]
  {
    var m := LinkPair(map[], r, r);
    var once: SiblingMap := map[r := [r]];
    var empty: SiblingMap := map[];
    assert SiblingsOf(empty, r) == [];
    var m1 := empty[r := SiblingsOf(empty, r) + [r]];
    assert m1[r] == [r] && m1.Keys == {r};
    assert m1 == once;
    assert m == m1[r := SiblingsOf(m1, r) + [r]];
    assert SiblingsOf(once, r) == [r];
    assert m[r] == [r, r] && m.Keys == {r};
    assert m == map[r := [r, r]];
    assert LinkFrom(map[], [r, r], 0, 1) == LinkFrom(m, [r, r], 0, 2);
    assert LinkFrom(m, [r, r], 0, 2) == LinkFrom(m, [r, r], 1, 2);
    assert LinkFrom(m, [r, r], 1, 2) == m;
  }

  /** A response of a single range has no pairs, so it links nothing. */
  lemma SingleRangeLinksNothing(r: AnchorRange)
    ensures SiblingMapOf([r]) == map[]
  {
  }

  /**
   * `siblings.into_iter().collect()` (line 96): the entries of the map in
   * some order, each exactly once.
   */
  method CollectGroups(m: SiblingMap) returns (groups: seq<LinkGroup>)
    ensures multiset(groups) == multiset(GroupsOf(m))
  {
    groups := [];
    var rest := m;
    while rest != map[]
      invariant multiset(groups) + multiset(GroupsOf(rest)) == multiset(GroupsOf(m))
      decreases |rest|
    {
      assert rest.Keys != {};
      var k :| k in rest;
      GroupsOfRemove(rest, k);
      groups := groups + [LinkGroup(k, rest[k])];
      rest := rest - {k};
    }
    assert GroupsOf(rest) == {};
  }

  /** Taking one key out of the map takes exactly its group out of the map's groups. */
  lemma GroupsOfRemove(m: SiblingMap, k: AnchorRange)
    requires k in m
    ensures multiset(GroupsOf(m)) == multiset(GroupsOf(m - {k})) + multiset{LinkGroup(k, m[k])}
  {
    var g := LinkGroup(k, m[k]);
    forall x ensures x in GroupsOf(m) <==> x in GroupsOf(m - {k}) + {g} {
      if x in GroupsOf(m) && x != g {
        assert x.primary in m - {k};
      }
    }
    assert GroupsOf(m) == GroupsOf(m - {k}) + {g};
    assert g !in GroupsOf(m - {k});
  }

  /** Some listing of the map's entries, as a reference for the sorted batch. */
  ghost function Enumerate(m: SiblingMap): (s: seq<LinkGroup>)
    ensures multiset(s) == multiset(GroupsOf(m))
    decreases |m|
  {
    if m == map[] then
      assert GroupsOf(m) == {};
      []
    else
      assert m.Keys != {};
      var k :| k in m;
      GroupsOfRemove(m, k);
      [LinkGroup(k, m[k])] + Enumerate(m - {k})
  }

  /** Entries listed from a map never repeat a primary range. */
  lemma ListedGroupsHaveDistinctPrimaries(m: SiblingMap, s: seq<LinkGroup>)
    requires multiset(s) == multiset(GroupsOf(m))
    ensures forall i, j :: 0 <= i < j < |s| ==> s[i].primary != s[j].primary
  {
    forall i, j | 0 <= i < j < |s| ensures s[i].primary != s[j].primary {
      assert s[i] in multiset(s) && s[j] in multiset(s);
      RepeatedEntryCountsTwice(s, i, j);
    }
  }

  lemma RepeatedEntryCountsTwice(s: seq<LinkGroup>, i: nat, j: nat)
    requires i < j < |s|
    ensures s[i] == s[j] ==> multiset(s)[s[i]] >= 2
  {
    assert s == s[..j] + s[j..];
    assert s[i] == s[..j][i];
    assert s[j] == s[j..][0];
    assert multiset(s) == multiset(s[..j]) + multiset(s[j..]);
  }

  /** The sorted batch for a response that passed the containment check. */
  ghost function BatchOf(edits: seq<AnchorRange>): seq<LinkGroup>
  {
    SortByRange(Enumerate(SiblingMapOf(edits)))
  }

  /** Any listing of the sibling map, once sorted, is the batch: the unspecified map order does not show. */
  lemma SortedListingIsBatch(edits: seq<AnchorRange>, groups: seq<LinkGroup>)
    requires multiset(groups) == multiset(GroupsOf(SiblingMapOf(edits)))
    ensures SortByRange(groups) == BatchOf(edits)
  {
    var m := SiblingMapOf(edits);
    var sorted := SortByRange(groups);
    ListedGroupsHaveDistinctPrimaries(m, sorted);
    SortedArrangementIsUnique(sorted, BatchOf(edits));
  }

  /**
   * The batch for a response of n >= 2 distinct ranges: sorted, one group
   * per range, whose siblings are the other n - 1 ranges in response order,
   * and no other groups.
   */
  lemma BatchIsClique(edits: seq<AnchorRange>)
    requires Distinct(edits) && |edits| >= 2
    ensures SortedByRange(BatchOf(edits))
    ensures forall c :: 0 <= c < |edits| ==> LinkGroup(edits[c], edits[..c] + edits[c + 1..]) in BatchOf(edits)
    ensures forall g :: g in BatchOf(edits) ==>
      exists c :: 0 <= c < |edits| && g == LinkGroup(edits[c], edits[..c] + edits[c + 1..])
    ensures forall i, j :: 0 <= i < j < |BatchOf(edits)| ==> BatchOf(edits)[i].primary != BatchOf(edits)[j].primary
  {
    var m := SiblingMapOf(edits);
    var batch := BatchOf(edits);
    SiblingMapIsClique(edits);
    ListedGroupsHaveDistinctPrimaries(m, batch);
    forall c | 0 <= c < |edits| ensures LinkGroup(edits[c], edits[..c] + edits[c + 1..]) in batch {
      assert LinkGroup(edits[c], m[edits[c]]) in GroupsOf(m);
      assert LinkGroup(edits[c], m[edits[c]]) in multiset(batch);
    }
    forall g | g in batch
      ensures exists c :: 0 <= c < |edits| && g == LinkGroup(edits[c], edits[..c] + edits[c + 1..])
    {
      assert g in multiset(batch);
      assert g in GroupsOf(m);
      var c :| 0 <= c < |edits| && edits[c] == g.primary;
      assert SiblingsOf(m, edits[c]) == edits[..c] + edits[c + 1..];
    }
  }

  /**
   * Lines 77-98 for one response: discard it unless some range contains the
   * query `start..end`; otherwise link every pair, list the map and sort the
   * list by range.
   */
  method SiblingBatch(edits: seq<AnchorRange>, start: int, end: int) returns (r: Option<seq<LinkGroup>>)
    ensures r.None? <==> forall i :: 0 <= i < |edits| ==> !Contains(edits[i], AnchorRange(start, end))
    ensures r.Some? ==> r.value == BatchOf(edits)
  {
    var i := 0;
    while i < |edits| && !Contains(edits[i], AnchorRange(start, end))
      invariant 0 <= i <= |edits|
      invariant forall j :: 0 <= j < i ==> !Contains(edits[j], AnchorRange(start, end))
    {
      i := i + 1;
    }
    if i == |edits| {
      return None;
    }
    var siblings := LinkSiblings(edits);
    var groups := CollectGroups(siblings);
    SortedListingIsBatch(edits, groups);
    r := Some(SortByRange(groups));
  }
}
