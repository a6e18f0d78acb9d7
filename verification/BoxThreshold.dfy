/** At which thresholds the boxes kept stand in for those removed. */
module BoxThreshold {
  import opened Boxes
  import opened StableSort
  import opened BoxGroups

  /** On every input, each box removed is contained, to the threshold, in one that is kept. */
  ghost predicate KeepersContain(threshold: real) {
    forall boxes, b :: b in boxes && b !in Remaining(boxes, threshold) ==>
      exists c :: c in Remaining(boxes, threshold) && Contained(b, c, threshold)
  }

  lemma RatioAtLeast(part: int, whole: int, t: real)
    requires whole > 0
    ensures Ratio(part, whole) >= t <==> part as real >= t * whole as real
  {
    var r, w := Ratio(part, whole), whole as real;
    assert r * w == part as real;
    assert (r - t) * w == r * w - t * w;
    SameSign(r - t, w);
  }

  lemma SameSign(x: real, w: real)
    requires w > 0.0
    ensures x >= 0.0 <==> x * w >= 0.0
  {
  }

  lemma InsideShare(b: Box, c: Box)
    requires Inside(b, c) && b.x2 > b.x1 && b.y2 > b.y1
    ensures Overlap(b, c) && Area(Common(b, c)) == Area(b)
  {
  }

  /** A box that an earlier one contains is not empty, and the threshold is at most one. */
  lemma ContainedAtOne(b: Box, x: Box, c: Box, threshold: real)
    requires Contained(b, x, threshold) && threshold >= 1.0 && Inside(b, c)
    ensures Contained(b, c, threshold)
  {
    FullyContained(b, x, threshold);
    InsideShare(b, x);
    InsideShare(b, c);
  }

  lemma RemovedWhy(boxes: seq<Box>, threshold: real, b: Box) returns (x: Box)
    requires b in boxes && b !in Remaining(boxes, threshold)
    ensures Contained(b, x, threshold)
  {
    hide Contained, Descending;
    Sorts(boxes, ByArea());
    var sorted := Descending(boxes, ByArea());
    assert b in multiset(boxes) && b in multiset(sorted);
    var i :| 0 <= i < |sorted| && sorted[i] == b;
    UncontainedMembers(sorted, |boxes|, threshold, b);
    assert ContainedInSome(sorted, i, b, threshold);
    var j :| 0 <= j < i && Contained(b, sorted[j], threshold);
    x := sorted[j];
  }

  // ---------------------------------------------------------------- three strips

  function Strip(from: int, length: int): Box { Box(from, 0, from + length, 1, "", 1.0) }

  lemma StripContained(s: int, step: int, length: int, t: real)
    requires 0 < step && 0 < length
    ensures Contained(Strip(s + step, length), Strip(s, length), t)
            <==> step < length && (length - step) as real >= t * length as real
  {
    var b, c := Strip(s + step, length), Strip(s, length);
    assert Area(b) == length && Common(b, c) == Box(s + step, 0, s + length, 1, "", 1.0);
    assert Area(Common(b, c)) == length - step;
    RatioAtLeast(length - step, length, t);
  }

  /** Each strip is contained in the one before, and the third is not contained in the first. */
  lemma ThreeStrips(s: int, length: int, t: real)
    requires 0 < s < length && (length - s) as real >= t * length as real
    requires 2 * s >= length || (length - 2 * s) as real < t * length as real
    ensures !KeepersContain(t)
  {
    var first, second, third := Strip(0, length), Strip(s, length), Strip(2 * s, length);
    var boxes := [first, second, third];
    StripContained(0, s, length, t);
    StripContained(s, s, length, t);
    StripContained(0, 2 * s, length, t);
    assert Area(first) == Area(second) == Area(third) == length && boxes[2] == third && third != first;
    hide *;
    OnlyFirstKept(first, second, third, t);
    Refutes(boxes, third, first, t);
  }

  lemma Refutes(boxes: seq<Box>, b: Box, c: Box, t: real)
    requires b in boxes && Remaining(boxes, t) == [c] && b != c && !Contained(b, c, t)
    ensures !KeepersContain(t)
  {
    hide Contained, Remaining;
    forall d | d in Remaining(boxes, t) ensures !Contained(b, d, t) {
    }
    assert b in boxes && b !in Remaining(boxes, t);
  }

  /** A length and a step that tell any threshold below one apart from one. */
  lemma FindStrips(t: real) returns (s: int, length: int)
    requires t < 1.0
    ensures 0 < s < length && (length - s) as real >= t * length as real
    ensures 2 * s >= length || (length - 2 * s) as real < t * length as real
  {
    if t <= 0.0 {
      s, length := 1, 2;
    } else {
      var gap := 1.0 - t;
      length := (2.0 / gap).Floor + 1;
      assert 2.0 / gap * gap == 2.0;
      Grows(2.0 / gap, length as real, gap);
      var share := gap * length as real;
      s := share.Floor;
      assert share == length as real - t * length as real;
      Grows(0.0, t, length as real);
    }
  }

  lemma Grows(a: real, b: real, c: real)
    requires a < b && c > 0.0
    ensures a * c < b * c
  {
    assert (b - a) * c > 0.0;
  }

  /**
   A box that is removed is always contained, to the threshold, in one that is kept if
   and only if the threshold is at least one.
   */
  lemma KeepersExactly(threshold: real)
    ensures KeepersContain(threshold) <==> threshold >= 1.0
  {
    if threshold >= 1.0 {
      forall boxes, b | b in boxes && b !in Remaining(boxes, threshold)
        ensures exists c :: c in Remaining(boxes, threshold) && Contained(b, c, threshold)
      {
        RemovedLieInside(boxes, threshold, b);
        var c :| c in Remaining(boxes, threshold) && Inside(b, c);
        var x := RemovedWhy(boxes, threshold, b);
        ContainedAtOne(b, x, c, threshold);
      }
    } else {
      var s, length := FindStrips(threshold);
      ThreeStrips(s, length, threshold);
    }
  }
}
