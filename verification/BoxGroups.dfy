/** Merging overlapping boxes, and removing boxes contained in larger ones. */
module BoxGroups {
  import opened Boxes
  import opened StableSort

  function ByArea(): Box -> real { (b: Box) => Area(b) as real }

  predicate Overlap(a: Box, b: Box) {
    var c := Common(a, b);
    c.x2 > c.x1 && c.y2 > c.y1
  }

  /** `b` joins the group that `seed` opened. */
  predicate Joins(seed: Box, b: Box, threshold: real) {
    Overlap(seed, b)
    && (var intersection := Area(Common(seed, b));
        var union := Area(seed) + Area(b) - intersection;
        (if union > 0 then Ratio(intersection, union) else 0.0) >= threshold)
  }

  /** The boxes that join, or those that do not, in order. */
  function Joining(seed: Box, boxes: seq<Box>, threshold: real, joins: bool): seq<Box> {
    if boxes == [] then []
    else
      var last := boxes[|boxes| - 1];
      Joining(seed, boxes[..|boxes| - 1], threshold, joins) + (if Joins(seed, last, threshold) == joins then [last] else [])
  }

  lemma {:induction false} JoiningMembers(seed: Box, boxes: seq<Box>, threshold: real, joins: bool)
    ensures forall b :: b in Joining(seed, boxes, threshold, joins) <==> b in boxes && Joins(seed, b, threshold) == joins
    ensures |Joining(seed, boxes, threshold, joins)| <= |boxes|
  {
    if boxes != [] {
      var front, last := boxes[..|boxes| - 1], boxes[|boxes| - 1];
      JoiningMembers(seed, front, threshold, joins);
      assert boxes == front + [last];
      hide Joins;
    }
  }

  type Group = s: seq<Box> | s != [] witness [Box(0, 0, 0, 0, "", 1.0)]

  /** The groups: the first box opens one, all that join it leave with it. */
  function Groups(boxes: seq<Box>, threshold: real): seq<Group>
    decreases |boxes|
  {
    if boxes == [] then []
    else
      JoiningMembers(boxes[0], boxes[1..], threshold, false);
      [[boxes[0]] + Joining(boxes[0], boxes[1..], threshold, true)]
      + Groups(Joining(boxes[0], boxes[1..], threshold, false), threshold)
  }

  function MinOf(boxes: seq<Box>, edge: Box -> int): (r: int)
    requires boxes != []
    ensures (exists b :: b in boxes && edge(b) == r) && forall b :: b in boxes ==> r <= edge(b)
  {
    var last := boxes[|boxes| - 1];
    if |boxes| == 1 then edge(last)
    else
      assert boxes == boxes[..|boxes| - 1] + [last];
      Min(MinOf(boxes[..|boxes| - 1], edge), edge(last))
  }

  function MaxOf(boxes: seq<Box>, edge: Box -> int): (r: int)
    requires boxes != []
    ensures (exists b :: b in boxes && edge(b) == r) && forall b :: b in boxes ==> edge(b) <= r
  {
    var last := boxes[|boxes| - 1];
    if |boxes| == 1 then edge(last)
    else
      assert boxes == boxes[..|boxes| - 1] + [last];
      Max(MaxOf(boxes[..|boxes| - 1], edge), edge(last))
  }

  /** What a group is merged into: itself if alone, else the box around its members. */
  function Hull(group: Group): Box {
    if |group| == 1 then group[0]
    else
      Box(MinOf(group, (b: Box) => b.x1), MinOf(group, (b: Box) => b.y1),
          MaxOf(group, (b: Box) => b.x2), MaxOf(group, (b: Box) => b.y2), "", 1.0)
  }

  function Hulls(groups: seq<Group>): (r: seq<Box>)
    ensures |r| == |groups| && forall k :: 0 <= k < |r| ==> r[k] == Hull(groups[k])
  {
    if groups == [] then [] else [Hull(groups[0])] + Hulls(groups[1..])
  }

  /** What merging returns. */
  function Merged(boxes: seq<Box>, threshold: real): seq<Box> {
    Hulls(Groups(Descending(boxes, ByArea()), threshold))
  }

  // ------------------------------------------------------------ the merge loop

  /** The boxes from `lo` up to `hi` that are not used, in order. */
  function Free(boxes: seq<Box>, used: set<nat>, lo: nat, hi: nat): seq<Box>
    requires hi <= |boxes|
  {
    if hi <= lo then []
    else Free(boxes, used, lo, hi - 1) + (if hi - 1 in used then [] else [boxes[hi - 1]])
  }

  lemma {:induction false} FreeCons(boxes: seq<Box>, used: set<nat>, lo: nat, hi: nat)
    requires lo < hi <= |boxes|
    ensures Free(boxes, used, lo, hi) == (if lo in used then [] else [boxes[lo]]) + Free(boxes, used, lo + 1, hi)
  {
    if lo + 1 < hi {
      FreeCons(boxes, used, lo, hi - 1);
    }
  }

  lemma {:induction false} FreeAll(boxes: seq<Box>, hi: nat)
    requires hi <= |boxes|
    ensures Free(boxes, {}, 0, hi) == boxes[..hi]
  {
    if hi > 0 {
      FreeAll(boxes, hi - 1);
    }
  }

  lemma {:induction false} FreeSame(boxes: seq<Box>, a: set<nat>, b: set<nat>, lo: nat, hi: nat)
    requires hi <= |boxes| && forall i: nat :: lo <= i < hi ==> (i in a <==> i in b)
    ensures Free(boxes, a, lo, hi) == Free(boxes, b, lo, hi)
  {
    if lo < hi {
      FreeSame(boxes, a, b, lo, hi - 1);
    }
  }

  /** Collects the group of the box at `i`, marking its other members as used. */
  method CollectGroup(boxes: seq<Box>, i: nat, used: set<nat>, threshold: real) returns (group: seq<Box>, now: set<nat>)
    requires i < |boxes|
    ensures group == [boxes[i]] + Joining(boxes[i], Free(boxes, used, i + 1, |boxes|), threshold, true)
    ensures Free(boxes, now, i + 1, |boxes|) == Joining(boxes[i], Free(boxes, used, i + 1, |boxes|), threshold, false)
  {
    hide Joins, Free, Joining;
    var seed := boxes[i];
    NoneJoin(boxes, used, i + 1, seed, threshold);
    group, now := [seed], used;
    for j := i + 1 to |boxes|
      invariant group == [seed] + Joining(seed, Free(boxes, used, i + 1, j), threshold, true)
      invariant Free(boxes, now, i + 1, j) == Joining(seed, Free(boxes, used, i + 1, j), threshold, false)
      invariant forall k: nat :: j <= k ==> (k in now <==> k in used)
    {
      ghost var was := now;
      CollectStep(boxes, i + 1, j, used, was, seed, threshold);
      if j !in now {
        if Joins(seed, boxes[j], threshold) {
          group := group + [boxes[j]];
          now := now + {j};
        }
      }
      FreeSame(boxes, now, was, i + 1, j);
    }
  }

  lemma NoneJoin(boxes: seq<Box>, used: set<nat>, lo: nat, seed: Box, threshold: real)
    requires lo <= |boxes|
    ensures Free(boxes, used, lo, lo) == []
    ensures Joining(seed, [], threshold, true) == Joining(seed, [], threshold, false) == []
  {
  }

  /** How the boxes free so far, and those of them that join, grow by the box at `j`. */
  lemma CollectStep(boxes: seq<Box>, lo: nat, j: nat, used: set<nat>, was: set<nat>, seed: Box, threshold: real)
    requires lo <= j < |boxes| && (j in was <==> j in used)
    ensures var before, after, b := Free(boxes, used, lo, j), Free(boxes, used, lo, j + 1), boxes[j];
      if j in was then after == before
      else
        Joining(seed, after, threshold, true) == Joining(seed, before, threshold, true) + (if Joins(seed, b, threshold) then [b] else [])
        && Joining(seed, after, threshold, false) == Joining(seed, before, threshold, false) + (if Joins(seed, b, threshold) then [] else [b])
    ensures forall now :: Free(boxes, now, lo, j + 1) == Free(boxes, now, lo, j) + (if j in now then [] else [boxes[j]])
  {
    hide Joins, Joining;
    var before := Free(boxes, used, lo, j);
    assert before + [] == before;
    JoiningSnoc(seed, before, boxes[j], threshold);
  }

  lemma JoiningSnoc(seed: Box, front: seq<Box>, last: Box, threshold: real)
    ensures Joining(seed, front + [last], threshold, true)
         == Joining(seed, front, threshold, true) + (if Joins(seed, last, threshold) then [last] else [])
    ensures Joining(seed, front + [last], threshold, false)
         == Joining(seed, front, threshold, false) + (if Joins(seed, last, threshold) then [] else [last])
  {
    assert (front + [last])[..|front|] == front;
  }

  method MergeOverlappingBoxes(input: seq<Box>, threshold: real) returns (merged: seq<Box>)
    ensures merged == Merged(input, threshold)
  {
    if input == [] {
      return [];
    }
    var boxes := Descending(input, ByArea());
    merged := [];
    var used: set<nat> := {};
    ghost var whole := Hulls(Groups(boxes, threshold));
    FreeAll(boxes, |boxes|);
    assert boxes[..|boxes|] == boxes;
    NothingFree(boxes, {}, threshold);
    hide *;
    for i := 0 to |boxes|
      invariant merged + Hulls(Groups(Free(boxes, used, i, |boxes|), threshold)) == whole
    {
      if i !in used {
        var group, now := CollectGroup(boxes, i, used, threshold);
        GroupLeaves(boxes, i, used, now, threshold, merged);
        merged := merged + [Hull(group)];
        used := now;
      } else {
        UsedSkipped(boxes, i, used);
      }
    }
    NothingFree(boxes, used, threshold);
    assert merged + [] == merged;
  }

  lemma UsedSkipped(boxes: seq<Box>, i: nat, used: set<nat>)
    requires i < |boxes| && i in used
    ensures Free(boxes, used, i, |boxes|) == Free(boxes, used, i + 1, |boxes|)
  {
    FreeCons(boxes, used, i, |boxes|);
  }

  /** The group of the box at `i` is the first of those still to come. */
  lemma GroupLeaves(boxes: seq<Box>, i: nat, used: set<nat>, now: set<nat>, threshold: real, merged: seq<Box>)
    requires i < |boxes| && i !in used
    requires Free(boxes, now, i + 1, |boxes|) == Joining(boxes[i], Free(boxes, used, i + 1, |boxes|), threshold, false)
    ensures merged + Hulls(Groups(Free(boxes, used, i, |boxes|), threshold))
         == merged + [Hull([boxes[i]] + Joining(boxes[i], Free(boxes, used, i + 1, |boxes|), threshold, true))]
            + Hulls(Groups(Free(boxes, now, i + 1, |boxes|), threshold))
  {
    hide *;
    var rest := Free(boxes, used, i + 1, |boxes|);
    FreeCons(boxes, used, i, |boxes|);
    GroupsCons(boxes[i], rest, threshold);
    Regroup(merged, Hull([boxes[i]] + Joining(boxes[i], rest, threshold, true)),
            Hulls(Groups(Joining(boxes[i], rest, threshold, false), threshold)));
  }

  lemma Regroup(a: seq<Box>, b: Box, c: seq<Box>)
    ensures a + ([b] + c) == (a + [b]) + c
  {
  }

  lemma NothingFree(boxes: seq<Box>, used: set<nat>, threshold: real)
    ensures Hulls(Groups(Free(boxes, used, |boxes|, |boxes|), threshold)) == []
  {
  }

  lemma GroupsCons(seed: Box, rest: seq<Box>, threshold: real)
    ensures Hulls(Groups([seed] + rest, threshold))
         == [Hull([seed] + Joining(seed, rest, threshold, true))] + Hulls(Groups(Joining(seed, rest, threshold, false), threshold))
  {
    hide Joining, Hull;
    var group: Group, others := [seed] + Joining(seed, rest, threshold, true), Groups(Joining(seed, rest, threshold, false), threshold);
    assert ([seed] + rest)[1..] == rest;
    assert Groups([seed] + rest, threshold) == [group] + others;
    assert ([group] + others)[1..] == others;
  }

  // ------------------------------------------------------------- what merging keeps

  function Concat(groups: seq<Group>): seq<Box> {
    if groups == [] then [] else groups[0] + Concat(groups[1..])
  }

  lemma {:induction false} JoiningParts(seed: Box, boxes: seq<Box>, threshold: real)
    ensures multiset(Joining(seed, boxes, threshold, true)) + multiset(Joining(seed, boxes, threshold, false)) == multiset(boxes)
  {
    if boxes != [] {
      hide Joins, Joining;
      var front, last := boxes[..|boxes| - 1], boxes[|boxes| - 1];
      JoiningParts(seed, front, threshold);
      assert boxes == front + [last];
      JoiningSnoc(seed, front, last, threshold);
      OneGoesAside(Joining(seed, front, threshold, true), Joining(seed, front, threshold, false), last, Joins(seed, last, threshold));
    } else {
      NoneJoining(seed, threshold);
    }
  }

  lemma NoneJoining(seed: Box, threshold: real)
    ensures Joining(seed, [], threshold, true) == Joining(seed, [], threshold, false) == []
  {
  }

  lemma OneGoesAside(a: seq<Box>, b: seq<Box>, last: Box, toA: bool)
    ensures multiset(a + (if toA then [last] else [])) + multiset(b + (if toA then [] else [last]))
         == multiset(a) + multiset(b) + multiset{last}
  {
    assert a + [] == a && b + [] == b;
  }

  /** Every box is in exactly one group. */
  lemma {:induction false} GroupsPartition(boxes: seq<Box>, threshold: real)
    ensures multiset(Concat(Groups(boxes, threshold))) == multiset(boxes)
    decreases |boxes|
  {
    hide *;
    if boxes == [] {
      NoGroups(threshold);
    } else {
      var seed, rest := boxes[0], boxes[1..];
      var joined, others := Joining(seed, rest, threshold, true), Joining(seed, rest, threshold, false);
      JoiningMembers(seed, rest, threshold, false);
      JoiningParts(seed, rest, threshold);
      GroupsPartition(others, threshold);
      GroupsUnfold(boxes, threshold);
      ConcatCons([seed] + joined, Groups(others, threshold));
      AddGroup(seed, joined, others, rest, Concat(Groups(others, threshold)));
      assert boxes == [seed] + rest;
    }
  }

  lemma {:induction false} GroupsFewer(boxes: seq<Box>, threshold: real)
    ensures |Groups(boxes, threshold)| <= |boxes|
    decreases |boxes|
  {
    if boxes != [] {
      JoiningMembers(boxes[0], boxes[1..], threshold, false);
      GroupsFewer(Joining(boxes[0], boxes[1..], threshold, false), threshold);
    }
  }

  lemma NoGroups(threshold: real)
    ensures Groups([], threshold) == [] && Concat([]) == []
  {
  }

  lemma GroupsUnfold(boxes: seq<Box>, threshold: real)
    requires boxes != []
    ensures Groups(boxes, threshold)
         == [[boxes[0]] + Joining(boxes[0], boxes[1..], threshold, true)] + Groups(Joining(boxes[0], boxes[1..], threshold, false), threshold)
  {
    hide Joining;
  }

  lemma AddGroup(seed: Box, joined: seq<Box>, others: seq<Box>, rest: seq<Box>, more: seq<Box>)
    requires multiset(joined) + multiset(others) == multiset(rest) && multiset(more) == multiset(others)
    ensures multiset(([seed] + joined) + more) == multiset([seed] + rest)
  {
    assert multiset([seed] + rest) == multiset{seed} + multiset(rest);
    assert multiset(([seed] + joined) + more) == multiset{seed} + multiset(joined) + multiset(more);
  }

  lemma ConcatCons(group: Group, more: seq<Group>)
    ensures Concat([group] + more) == group + Concat(more)
  {
    assert ([group] + more)[1..] == more;
  }

  /** `b` lies inside `c`. */
  predicate Inside(b: Box, c: Box) { c.x1 <= b.x1 && c.y1 <= b.y1 && b.x2 <= c.x2 && b.y2 <= c.y2 }

  /** `c` encloses the boxes, and each of its edges is the edge of one of them. */
  ghost predicate Encloses(c: Box, boxes: seq<Box>) {
    (forall b :: b in boxes ==> Inside(b, c))
    && (exists b :: b in boxes && b.x1 == c.x1) && (exists b :: b in boxes && b.y1 == c.y1)
    && (exists b :: b in boxes && b.x2 == c.x2) && (exists b :: b in boxes && b.y2 == c.y2)
  }

  /** A merged box encloses its group, with every edge attained by a member. */
  lemma HullEncloses(group: Group)
    ensures Encloses(Hull(group), group)
  {
    assert group[0] in group;
  }

  lemma {:induction false} ConcatMembers(groups: seq<Group>, b: Box)
    ensures b in Concat(groups) <==> exists k :: 0 <= k < |groups| && b in groups[k]
  {
    if groups != [] {
      ConcatMembers(groups[1..], b);
      if b in Concat(groups[1..]) {
        var k :| 0 <= k < |groups[1..]| && b in groups[1..][k];
        assert b in groups[k + 1];
      }
      if k :| 0 <= k < |groups| && b in groups[k] {
        assert k > 0 ==> b in groups[1..][k - 1];
      }
    }
  }

  /** Merging keeps the overall bounding box, whichever way it is described. */
  lemma MergeKeepsBounds(boxes: seq<Box>, threshold: real, c: Box)
    ensures Encloses(c, Merged(boxes, threshold)) <==> Encloses(c, boxes)
  {
    var sorted := Descending(boxes, ByArea());
    var groups := Groups(sorted, threshold);
    var merged := Merged(boxes, threshold);
    Sorts(boxes, ByArea());
    GroupsPartition(sorted, threshold);
    hide Groups, Descending, Concat, Hull, Encloses;
    forall b ensures b in boxes <==> exists k :: 0 <= k < |groups| && b in groups[k] {
      ConcatMembers(groups, b);
      assert b in boxes <==> b in multiset(boxes);
      assert b in Concat(groups) <==> b in multiset(Concat(groups));
    }
    forall k | 0 <= k < |groups| ensures Encloses(merged[k], groups[k]) {
      HullEncloses(groups[k]);
    }
    SameBounds(boxes, groups, merged, c);
  }

  /** Enclosing the boxes of all groups is enclosing the boxes around them. */
  lemma SameBounds(boxes: seq<Box>, groups: seq<Group>, merged: seq<Box>, c: Box)
    requires forall b :: b in boxes <==> exists k :: 0 <= k < |groups| && b in groups[k]
    requires |merged| == |groups| && forall k :: 0 <= k < |groups| ==> Encloses(merged[k], groups[k])
    ensures Encloses(c, merged) <==> Encloses(c, boxes)
  {
    if Encloses(c, boxes) {
      BoundsOfHulls(boxes, groups, merged, c);
    }
    if Encloses(c, merged) {
      BoundsOfBoxes(boxes, groups, merged, c);
    }
  }

  lemma BoundsOfHulls(boxes: seq<Box>, groups: seq<Group>, merged: seq<Box>, c: Box)
    requires forall b :: b in boxes <==> exists k :: 0 <= k < |groups| && b in groups[k]
    requires |merged| == |groups| && forall k :: 0 <= k < |groups| ==> Encloses(merged[k], groups[k])
    requires Encloses(c, boxes)
    ensures Encloses(c, merged)
  {
    forall h | h in merged ensures Inside(h, c) {
      var k :| 0 <= k < |merged| && merged[k] == h;
      assert Encloses(h, groups[k]);
      forall b | b in groups[k] ensures b in boxes {
      }
    }
    forall b | b in boxes ensures exists h :: h in merged && Inside(b, h) {
      var k :| 0 <= k < |groups| && b in groups[k];
      assert Encloses(merged[k], groups[k]) && merged[k] in merged;
    }
    var l :| l in boxes && l.x1 == c.x1;
    var t :| t in boxes && t.y1 == c.y1;
    var r :| r in boxes && r.x2 == c.x2;
    var d :| d in boxes && d.y2 == c.y2;
    var hl :| hl in merged && Inside(l, hl);
    var ht :| ht in merged && Inside(t, ht);
    var hr :| hr in merged && Inside(r, hr);
    var hd :| hd in merged && Inside(d, hd);
    assert Inside(hl, c) && Inside(ht, c) && Inside(hr, c) && Inside(hd, c);
  }

  lemma BoundsOfBoxes(boxes: seq<Box>, groups: seq<Group>, merged: seq<Box>, c: Box)
    requires forall b :: b in boxes <==> exists k :: 0 <= k < |groups| && b in groups[k]
    requires |merged| == |groups| && forall k :: 0 <= k < |groups| ==> Encloses(merged[k], groups[k])
    requires Encloses(c, merged)
    ensures Encloses(c, boxes)
  {
    forall b | b in boxes ensures Inside(b, c) {
      var k :| 0 <= k < |groups| && b in groups[k];
      assert Encloses(merged[k], groups[k]) && merged[k] in merged;
    }
    forall h | h in merged
      ensures (exists b :: b in boxes && b.x1 == h.x1) && (exists b :: b in boxes && b.y1 == h.y1)
      ensures (exists b :: b in boxes && b.x2 == h.x2) && (exists b :: b in boxes && b.y2 == h.y2)
    {
      var k :| 0 <= k < |merged| && merged[k] == h;
      assert Encloses(h, groups[k]);
    }
  }

  /** The group that the first box opens, and what the later ones have to do with it. */
  lemma FirstGroup(boxes: seq<Box>, threshold: real)
    requires boxes != []
    ensures var others := Joining(boxes[0], boxes[1..], threshold, false);
      |others| < |boxes|
      && Groups(boxes, threshold) == [[boxes[0]] + Joining(boxes[0], boxes[1..], threshold, true)] + Groups(others, threshold)
      && (forall b :: b in Groups(boxes, threshold)[0][1..] ==> Joins(boxes[0], b, threshold))
      && (forall k, b :: 0 <= k < |Groups(others, threshold)| && b in Groups(others, threshold)[k] ==> !Joins(boxes[0], b, threshold))
  {
    hide Joins;
    var seed, rest := boxes[0], boxes[1..];
    var others := Joining(seed, rest, threshold, false);
    var more := Groups(others, threshold);
    JoiningMembers(seed, rest, threshold, true);
    JoiningMembers(seed, rest, threshold, false);
    GroupsPartition(others, threshold);
    forall k, b | 0 <= k < |more| && b in more[k] ensures !Joins(seed, b, threshold) {
      ConcatMembers(more, b);
      assert b in multiset(Concat(more));
      assert b in others;
    }
    assert Groups(boxes, threshold)[0][1..] == Joining(seed, rest, threshold, true);
  }

  /**
   What the groups are: every other member joined the first box of its group, and
   no box of a later group joins the first box of an earlier one.
   */
  lemma {:induction false} GroupsMeaning(boxes: seq<Box>, threshold: real)
    ensures forall k, b :: 0 <= k < |Groups(boxes, threshold)| && b in Groups(boxes, threshold)[k][1..] ==>
      Joins(Groups(boxes, threshold)[k][0], b, threshold)
    ensures forall i, k, b :: 0 <= i < k < |Groups(boxes, threshold)| && b in Groups(boxes, threshold)[k] ==>
      !Joins(Groups(boxes, threshold)[i][0], b, threshold)
    decreases |boxes|
  {
    if boxes == [] {
      assert Groups(boxes, threshold) == [];
    } else {
      hide *;
      FirstGroup(boxes, threshold);
      GroupsMeaning(Joining(boxes[0], boxes[1..], threshold, false), threshold);
    }
  }

  /**
   Merging partitions the input: the groups hold every input box exactly once, and
   there are no more merged boxes than boxes.
   */
  lemma MergePartitions(boxes: seq<Box>, threshold: real)
    ensures multiset(Concat(Groups(Descending(boxes, ByArea()), threshold))) == multiset(boxes)
    ensures |Merged(boxes, threshold)| <= |boxes|
  {
    Sorts(boxes, ByArea());
    GroupsPartition(Descending(boxes, ByArea()), threshold);
    GroupsFewer(Descending(boxes, ByArea()), threshold);
  }

  // ---------------------------------------------------------- removing contained boxes

  /** The share of `b` that lies in `c` is at least the threshold; an overlap rules out an empty `b`. */
  predicate Contained(b: Box, c: Box, threshold: real) {
    Overlap(b, c)
    && (assert b.x2 > b.x1 && b.y2 > b.y1;
        assert Area(b) > 0 by { PositiveArea(b); }
        Ratio(Area(Common(b, c)), Area(b)) >= threshold)
  }

  lemma PositiveArea(b: Box)
    requires b.x2 > b.x1 && b.y2 > b.y1
    ensures Area(b) > 0
  {
  }

  /** Some box among the first `n` contains `b`. */
  predicate ContainedInSome(boxes: seq<Box>, n: nat, b: Box, threshold: real)
    requires n <= |boxes|
  {
    exists j :: 0 <= j < n && Contained(b, boxes[j], threshold)
  }

  /** The boxes not contained in an earlier one, removed or not. */
  function Uncontained(boxes: seq<Box>, n: nat, threshold: real): seq<Box>
    requires n <= |boxes|
  {
    if n == 0 then []
    else
      Uncontained(boxes, n - 1, threshold)
      + (if ContainedInSome(boxes, n - 1, boxes[n - 1], threshold) then [] else [boxes[n - 1]])
  }

  /** What removal returns. */
  function Remaining(boxes: seq<Box>, threshold: real): seq<Box> {
    Sorts(boxes, ByArea());
    Uncontained(Descending(boxes, ByArea()), |boxes|, threshold)
  }

  method RemoveContainedBoxes(input: seq<Box>, threshold: real) returns (keep: seq<Box>)
    ensures keep == Remaining(input, threshold)
  {
    Sorts(input, ByArea());
    if input == [] {
      return [];
    }
    var boxes := Descending(input, ByArea());
    hide Contained, Descending;
    keep := [];
    for i := 0 to |boxes|
      invariant keep == Uncontained(boxes, i, threshold)
    {
      var isContained := false;
      for j := 0 to i
        invariant !isContained ==> !ContainedInSome(boxes, j, boxes[i], threshold)
        invariant isContained ==> ContainedInSome(boxes, i, boxes[i], threshold)
      {
        if Contained(boxes[i], boxes[j], threshold) {
          isContained := true;
          break;
        }
      }
      if !isContained {
        keep := keep + [boxes[i]];
      }
    }
  }

  lemma {:induction false} UncontainedMembers(boxes: seq<Box>, n: nat, threshold: real, b: Box)
    requires n <= |boxes|
    ensures b in Uncontained(boxes, n, threshold) <==>
      exists i :: 0 <= i < n && boxes[i] == b && !ContainedInSome(boxes, i, b, threshold)
  {
    hide ContainedInSome;
    if n > 0 {
      UncontainedMembers(boxes, n - 1, threshold, b);
    }
  }

  /** The kept boxes stay sorted, and no kept box is contained in an earlier kept one. */
  lemma {:induction false} UncontainedStable(boxes: seq<Box>, n: nat, threshold: real)
    requires n <= |boxes| && IsDescending(boxes, ByArea())
    ensures var kept := Uncontained(boxes, n, threshold);
      IsDescending(kept, ByArea())
      && (forall b :: b in kept ==> exists i :: 0 <= i < n && boxes[i] == b)
      && forall k :: 0 <= k < |kept| ==> !ContainedInSome(kept, k, kept[k], threshold)
  {
    if n > 0 {
      hide Contained, ByArea;
      UncontainedStable(boxes, n - 1, threshold);
      var before := Uncontained(boxes, n - 1, threshold);
      var b := boxes[n - 1];
      if !ContainedInSome(boxes, n - 1, b, threshold) {
        forall j | 0 <= j < |before|
          ensures !Contained(b, before[j], threshold) && ByArea()(before[j]) >= ByArea()(b)
        {
          assert before[j] in before;
          var i :| 0 <= i < n - 1 && boxes[i] == before[j];
        }
        var kept := before + [b];
        forall k | 0 <= k < |kept| ensures !ContainedInSome(kept, k, kept[k], threshold) {
          assert k < |before| ==> !ContainedInSome(before, k, before[k], threshold);
        }
      }
    }
  }

  lemma {:induction false} AllUncontained(boxes: seq<Box>, n: nat, threshold: real)
    requires n <= |boxes| && forall k :: 0 <= k < |boxes| ==> !ContainedInSome(boxes, k, boxes[k], threshold)
    ensures Uncontained(boxes, n, threshold) == boxes[..n]
  {
    if n > 0 {
      AllUncontained(boxes, n - 1, threshold);
    }
  }

  /** Removal is idempotent, at every threshold. */
  lemma RemoveTwice(boxes: seq<Box>, threshold: real)
    ensures Remaining(Remaining(boxes, threshold), threshold) == Remaining(boxes, threshold)
  {
    hide Contained, ContainedInSome;
    var sorted := Descending(boxes, ByArea());
    var kept := Remaining(boxes, threshold);
    Sorts(boxes, ByArea());
    UncontainedStable(sorted, |boxes|, threshold);
    SortsOnce(kept, ByArea());
    AllUncontained(kept, |kept|, threshold);
    assert kept[..|kept|] == kept;
  }

  /** Two products of positive factors: the smaller factors cannot give the larger product. */
  lemma FullProduct(w: int, h: int, v: int, g: int)
    requires 0 < v <= w && 0 < g <= h && v * g >= w * h
    ensures v == w && g == h
  {
    assert v * g <= w * g <= w * h;
    assert v < w ==> v * g < w * g;
    assert g < h ==> w * g < w * h;
  }

  /** A box contained to its full share lies inside. */
  lemma FullyContained(b: Box, c: Box, threshold: real)
    requires Contained(b, c, threshold) && threshold >= 1.0
    ensures Inside(b, c)
  {
    var d := Common(b, c);
    PositiveArea(b);
    WholeRatio(Area(d), Area(b));
    FullProduct(b.x2 - b.x1, b.y2 - b.y1, d.x2 - d.x1, d.y2 - d.y1);
  }

  lemma WholeRatio(part: int, whole: int)
    requires whole > 0 && Ratio(part, whole) >= 1.0
    ensures part >= whole
  {
    assert Ratio(part, whole) * whole as real == part as real;
  }

  lemma {:induction false} InsideKept(boxes: seq<Box>, i: nat, n: nat, threshold: real)
    requires i < n <= |boxes| && threshold >= 1.0
    ensures exists c :: c in Uncontained(boxes, n, threshold) && Inside(boxes[i], c)
    decreases i
  {
    hide Contained;
    if ContainedInSome(boxes, i, boxes[i], threshold) {
      var j :| 0 <= j < i && Contained(boxes[i], boxes[j], threshold);
      FullyContained(boxes[i], boxes[j], threshold);
      InsideKept(boxes, j, n, threshold);
    } else {
      UncontainedMembers(boxes, n, threshold, boxes[i]);
    }
  }

  /**
   At threshold one and above, every box lies inside some box that is kept, although
   a box is also compared with boxes that were removed.
   */
  lemma RemovedLieInside(boxes: seq<Box>, threshold: real, b: Box)
    requires threshold >= 1.0 && b in boxes
    ensures exists c :: c in Remaining(boxes, threshold) && Inside(b, c)
  {
    Sorts(boxes, ByArea());
    var sorted := Descending(boxes, ByArea());
    assert b in multiset(boxes) && b in multiset(sorted);
    var i :| 0 <= i < |sorted| && sorted[i] == b;
    InsideKept(sorted, i, |boxes|, threshold);
  }

  const FIRST := Box(0, 0, 100, 1, "", 1.0)
  const SECOND := Box(9, 0, 108, 1, "", 1.0)
  const THIRD := Box(18, 0, 116, 1, "", 1.0)

  /**
   Below one this fails: at the default threshold the third box is removed because
   of the second, which is removed because of the first, and the only box kept does
   not contain the third to that share.
   */
  lemma RemovedWithoutKeeper()
    ensures Remaining([FIRST, SECOND, THIRD], 0.9) == [FIRST] && !Contained(THIRD, FIRST, 0.9)
  {
    ThirdContained();
    assert Area(FIRST) >= Area(SECOND) >= Area(THIRD);
    OnlyFirstKept(FIRST, SECOND, THIRD, 0.9);
  }

  lemma ThirdContained()
    ensures Contained(SECOND, FIRST, 0.9) && Contained(THIRD, SECOND, 0.9) && !Contained(THIRD, FIRST, 0.9)
  {
  }

  lemma OnlyFirstKept(a: Box, b: Box, c: Box, t: real)
    requires Area(a) >= Area(b) >= Area(c) && Contained(b, a, t) && Contained(c, b, t)
    ensures Remaining([a, b, c], t) == [a]
  {
    hide Contained, Descending;
    var boxes := [a, b, c];
    assert boxes[0] == a && boxes[1] == b && boxes[2] == c;
    SortsOnce(boxes, ByArea());
    assert ContainedInSome(boxes, 1, b, t) && ContainedInSome(boxes, 2, c, t);
    assert Uncontained(boxes, 1, t) == [a];
    assert Uncontained(boxes, 2, t) == [a];
  }
}
