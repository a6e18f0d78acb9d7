/** What merging and removing boxes come to: pixels, sizes and the order of the boxes. */
module BoxRules {
  import opened Boxes
  import opened StableSort
  import opened BoxGroups
  import opened Sublists

  /** `sorted` holds the same boxes, larger ones first and equally large ones as they stood. */
  ghost predicate LargestFirst(sorted: seq<Box>, boxes: seq<Box>) {
    multiset(sorted) == multiset(boxes)
    && (forall i, j :: 0 <= i < j < |sorted| ==> Area(sorted[i]) >= Area(sorted[j]))
    && forall k :: WithKey(sorted, ByArea(), k) == WithKey(boxes, ByArea(), k)
  }

  lemma SortedLargestFirst(boxes: seq<Box>)
    ensures LargestFirst(Descending(boxes, ByArea()), boxes)
  {
    var sorted := Descending(boxes, ByArea());
    Sorts(boxes, ByArea());
    forall k ensures WithKey(sorted, ByArea(), k) == WithKey(boxes, ByArea(), k) {
      Stable(boxes, ByArea(), k);
    }
    forall i, j | 0 <= i < j < |sorted| ensures Area(sorted[i]) >= Area(sorted[j]) {
      assert ByArea()(sorted[i]) >= ByArea()(sorted[j]);
    }
  }

  // ---------------------------------------------------------------- conditions in pixels

  lemma OverlapPixels(a: Box, b: Box)
    ensures Overlap(a, b) <==> Pixels(a) * Pixels(b) != {}
    ensures Overlap(a, b) ==>
      |Pixels(a)| == Area(a) > 0 && |Pixels(b)| == Area(b) > 0 && |Pixels(a) * Pixels(b)| == Area(Common(a, b))
  {
    var c := Common(a, b);
    CommonPixels(a, b);
    if Overlap(a, b) {
      assert (c.x1, c.y1) in Pixels(c);
      PositiveArea(a);
      PositiveArea(b);
      hide Pixels, Area;
      PixelCount(a);
      PixelCount(b);
      PixelCount(c);
    }
  }

  /** A box joins a group when a large enough share of the pixels of both is common to them. */
  lemma JoinsExactly(seed: Box, b: Box, threshold: real)
    ensures var common, covered := Pixels(seed) * Pixels(b), Pixels(seed) + Pixels(b);
      Joins(seed, b, threshold) <==> common != {} && |common| as real / |covered| as real >= threshold
  {
    OverlapPixels(seed, b);
    hide Overlap, Pixels, Area, Common;
    UnionSize(Pixels(seed), Pixels(b));
    SubsetSize(Pixels(seed), Pixels(seed) + Pixels(b));
  }

  /** A box is contained when a large enough share of its own pixels is common to both. */
  lemma ContainedExactly(b: Box, c: Box, threshold: real)
    ensures var common := Pixels(b) * Pixels(c);
      Contained(b, c, threshold) <==> common != {} && |common| as real / |Pixels(b)| as real >= threshold
  {
    OverlapPixels(b, c);
    hide Pixels, Area, Common;
  }

  // ------------------------------------------------------------------------ removing

  /** The positions of the boxes, among the first `n`, that no box before them contains. */
  ghost function Uncovered(boxes: seq<Box>, n: nat, threshold: real): set<nat>
    requires n <= |boxes|
  {
    set p: nat | p < n && forall q :: 0 <= q < p ==> !Contained(boxes[p], boxes[q], threshold)
  }

  lemma {:induction false} UncontainedPicks(boxes: seq<Box>, n: nat, threshold: real)
    requires n <= |boxes|
    ensures Picks(Uncontained(boxes, n, threshold), boxes[..n], Uncovered(boxes, n, threshold))
  {
    hide Contained, Picks;
    if n == 0 {
      PicksNone<Box>([]);
      assert Uncovered(boxes, n, threshold) == {} && boxes[..n] == [];
    } else {
      var keep := !ContainedInSome(boxes, n - 1, boxes[n - 1], threshold);
      UncontainedPicks(boxes, n - 1, threshold);
      PicksSnoc(Uncontained(boxes, n - 1, threshold), boxes[..n - 1], Uncovered(boxes, n - 1, threshold), boxes[n - 1], keep);
      assert Uncovered(boxes, n, threshold) == Uncovered(boxes, n - 1, threshold) + (if keep then {n - 1} else {});
      assert boxes[..n] == boxes[..n - 1] + [boxes[n - 1]];
    }
  }

  /**
   Of the boxes, the larger first, those remain that no box before them contains, be
   that one removed itself or not.
   */
  lemma RemainingExactly(boxes: seq<Box>, threshold: real) returns (sorted: seq<Box>)
    ensures LargestFirst(sorted, boxes)
    ensures Picks(Remaining(boxes, threshold), sorted,
      set p: nat | p < |sorted| && forall q :: 0 <= q < p ==> !Contained(sorted[p], sorted[q], threshold))
  {
    hide Contained, LargestFirst, Descending, Picks;
    Sorts(boxes, ByArea());
    SortedLargestFirst(boxes);
    sorted := Descending(boxes, ByArea());
    UncontainedPicks(sorted, |boxes|, threshold);
    assert sorted[..|boxes|] == sorted;
  }

  /** The boxes that remain stand largest first, and none of them is contained in a larger one. */
  lemma RemainingApart(boxes: seq<Box>, threshold: real)
    ensures var r := Remaining(boxes, threshold);
      (forall i, j :: 0 <= i < j < |r| ==> Area(r[i]) >= Area(r[j]))
      && forall b, c :: b in r && c in r && Area(b) < Area(c) ==> !Contained(b, c, threshold)
  {
    hide Contained, Remaining, Area;
    var sorted := RemainingExactly(boxes, threshold);
    var r := Remaining(boxes, threshold);
    var chosen := set p: nat | p < |sorted| && forall q :: 0 <= q < p ==> !Contained(sorted[p], sorted[q], threshold);
    var at :| Places(at, chosen) && ReadAt(r, sorted, at);
    forall b, c | b in r && c in r && Area(b) < Area(c) ensures !Contained(b, c, threshold) {
      var i, j :| 0 <= i < |r| && r[i] == b && 0 <= j < |r| && r[j] == c;
      assert at[i] in at && at[j] < at[i];
    }
  }

  // ------------------------------------------------------------------------- merging

  /** Adds a box behind the others: to the first group whose first box it joins, else as its own group. */
  function Place(groups: seq<Group>, b: Box, threshold: real): seq<Group> {
    if groups == [] then [[b]]
    else if Joins(groups[0][0], b, threshold) then [groups[0] + [b]] + groups[1..]
    else [groups[0]] + Place(groups[1..], b, threshold)
  }

  /** Taking the groups out of the list one by one is placing the boxes one by one. */
  lemma {:induction false} GroupsPlaced(boxes: seq<Box>, b: Box, threshold: real)
    ensures Groups(boxes + [b], threshold) == Place(Groups(boxes, threshold), b, threshold)
    decreases |boxes|
  {
    hide Joins, Joining;
    if boxes == [] {
      NoneJoining(b, threshold);
      NoGroups(threshold);
      GroupsUnfold([b], threshold);
      assert boxes + [b] == [b] && [b][1..] == [];
      assert [b] + [] == [b];
    } else {
      var seed, rest := boxes[0], boxes[1..];
      var joined, others := Joining(seed, rest, threshold, true), Joining(seed, rest, threshold, false);
      JoiningMembers(seed, rest, threshold, false);
      assert (boxes + [b])[0] == seed && (boxes + [b])[1..] == rest + [b];
      JoiningSnoc(seed, rest, b, threshold);
      GroupsUnfold(boxes, threshold);
      GroupsUnfold(boxes + [b], threshold);
      GroupsPlaced(others, b, threshold);
      hide Groups;
      PlacedFirst([seed] + joined, Groups(others, threshold), b, threshold);
      if Joins(seed, b, threshold) {
        assert [seed] + (joined + [b]) == ([seed] + joined) + [b] && others + [] == others;
      } else {
        assert joined + [] == joined;
      }
    }
  }

  lemma PlacedFirst(group: Group, more: seq<Group>, b: Box, threshold: real)
    ensures Place([group] + more, b, threshold)
         == if Joins(group[0], b, threshold) then [group + [b]] + more else [group] + Place(more, b, threshold)
  {
    hide Joins;
    assert ([group] + more)[1..] == more;
  }

  /** The first box of each group is a largest one of all that are in this group or a later one. */
  ghost predicate LargestOpens(groups: seq<Group>) {
    forall i, k, b :: 0 <= i <= k < |groups| && b in groups[k] ==> Area(groups[i][0]) >= Area(b)
  }

  lemma {:induction false} SeedsLargest(boxes: seq<Box>, threshold: real)
    requires IsDescending(boxes, ByArea())
    ensures LargestOpens(Groups(boxes, threshold))
    decreases |boxes|
  {
    hide Joins, Joining, Area;
    if boxes != [] {
      var seed, rest := boxes[0], boxes[1..];
      var others := Joining(seed, rest, threshold, false);
      JoiningMembers(seed, rest, threshold, false);
      JoiningDescending(seed, rest, threshold);
      SeedsLargest(others, threshold);
      FirstOpens(boxes, threshold);
      GroupsUnfold(boxes, threshold);
      var groups, more := Groups(boxes, threshold), Groups(others, threshold);
      hide Groups;
      forall i, k, b | 0 <= i <= k < |groups| && b in groups[k] ensures Area(groups[i][0]) >= Area(b) {
        if i > 0 {
          assert groups[i] == more[i - 1] && groups[k] == more[k - 1];
        }
      }
    }
  }

  lemma FirstOpens(boxes: seq<Box>, threshold: real)
    requires boxes != [] && IsDescending(boxes, ByArea())
    ensures var groups := Groups(boxes, threshold);
      groups != [] && groups[0][0] == boxes[0]
      && forall k, b :: 0 <= k < |groups| && b in groups[k] ==> Area(boxes[0]) >= Area(b)
  {
    var groups := Groups(boxes, threshold);
    GroupsUnfold(boxes, threshold);
    GroupsPartition(boxes, threshold);
    hide Groups, Joining, Area, Concat;
    forall k, b | 0 <= k < |groups| && b in groups[k] ensures Area(boxes[0]) >= Area(b) {
      ConcatMembers(groups, b);
      assert b in multiset(Concat(groups)) && b in multiset(boxes);
      var i :| 0 <= i < |boxes| && boxes[i] == b;
      assert ByArea()(boxes[0]) >= ByArea()(boxes[i]);
    }
  }

  lemma {:induction false} JoiningDescending(seed: Box, boxes: seq<Box>, threshold: real)
    requires IsDescending(boxes, ByArea())
    ensures IsDescending(Joining(seed, boxes, threshold, false), ByArea())
  {
    hide Joins, ByArea;
    if boxes != [] {
      var front, last := boxes[..|boxes| - 1], boxes[|boxes| - 1];
      JoiningDescending(seed, front, threshold);
      JoiningMembers(seed, front, threshold, false);
      forall b | b in front ensures ByArea()(b) >= ByArea()(last) {
      }
    }
  }

  /**
   The merged boxes stand for groups of the input, each opened by a largest box of all
   that were left, and a box of a group with others carries no tag and full confidence.
   */
  lemma MergedExactly(boxes: seq<Box>, threshold: real) returns (sorted: seq<Box>)
    ensures LargestFirst(sorted, boxes)
    ensures var groups, merged := Groups(sorted, threshold), Merged(boxes, threshold);
      LargestOpens(groups) && |merged| == |groups|
      && forall k :: 0 <= k < |merged| ==>
        if |groups[k]| == 1 then merged[k] == groups[k][0]
        else Encloses(merged[k], groups[k]) && merged[k].tag == "" && merged[k].confidence == 1.0
  {
    hide LargestFirst, Groups, LargestOpens, Encloses, Descending;
    Sorts(boxes, ByArea());
    SortedLargestFirst(boxes);
    sorted := Descending(boxes, ByArea());
    SeedsLargest(sorted, threshold);
    var groups := Groups(sorted, threshold);
    forall k | 0 <= k < |groups| ensures Encloses(Hull(groups[k]), groups[k]) {
      HullEncloses(groups[k]);
    }
  }
}
