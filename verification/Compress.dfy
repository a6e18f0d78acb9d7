/** Compressing points into ranges. */
module Compress {

  /** A range holds the points from `first` to `last`, both included. */
  datatype Range = Range(first: int, last: int)

  function Points(r: Range): seq<int>
    decreases r.last - r.first
  {
    if r.last < r.first then [] else Points(Range(r.first, r.last - 1)) + [r.last]
  }

  function Expand(ranges: seq<Range>): seq<int> {
    if ranges == [] then [] else Expand(ranges[..|ranges| - 1]) + Points(ranges[|ranges| - 1])
  }

  ghost predicate Increasing(points: seq<int>) { forall i, j :: 0 <= i < j < |points| ==> points[i] < points[j] }

  /** Non-empty ranges in order, with a gap between any two of them. */
  ghost predicate Canonical(ranges: seq<Range>) {
    (forall i :: 0 <= i < |ranges| ==> ranges[i].first <= ranges[i].last)
    && forall i, j :: 0 <= i < j < |ranges| ==> ranges[i].last + 1 < ranges[j].first
  }

  /** The ranges expand back to the points, whatever these are, and are canonical for increasing ones. */
  method CompressPoints(points: seq<int>) returns (ranges: seq<Range>)
    ensures Expand(ranges) == points
    ensures Increasing(points) ==> Canonical(ranges)
  {
    hide Expand, Canonical, Increasing;
    ranges := [];
    NoPoints();
    for n := 0 to |points|
      invariant Expand(ranges) == points[..n]
      invariant ranges == [] <==> n == 0
      invariant ranges != [] ==> ranges[|ranges| - 1].last == points[n - 1]
      invariant forall i :: 0 <= i < |ranges| ==> ranges[i].first <= ranges[i].last
      invariant Increasing(points) ==> Canonical(ranges)
    {
      var point := points[n];
      assert points[..n + 1] == points[..n] + [point];
      if ranges != [] && ranges[|ranges| - 1].last == point - 1 {
        Extended(ranges, point);
        ranges := ranges[|ranges| - 1 := ranges[|ranges| - 1].(last := point)];
      } else {
        Appended(ranges, point);
        if Increasing(points) && n > 0 {
          NextAbove(points, n);
        }
        ranges := ranges + [Range(point, point)];
      }
    }
    assert points[..|points|] == points;
  }

  lemma NextAbove(points: seq<int>, n: nat)
    requires Increasing(points) && 0 < n < |points|
    ensures points[n - 1] < points[n]
  {
  }

  /** Stretching the last range by one point. */
  lemma Extended(ranges: seq<Range>, point: int)
    requires ranges != [] && ranges[|ranges| - 1].first <= ranges[|ranges| - 1].last == point - 1
    ensures var longer := ranges[|ranges| - 1 := ranges[|ranges| - 1].(last := point)];
      Expand(longer) == Expand(ranges) + [point] && (Canonical(ranges) ==> Canonical(longer))
  {
    var front, r := ranges[..|ranges| - 1], ranges[|ranges| - 1];
    var longer := ranges[|ranges| - 1 := r.(last := point)];
    assert longer[..|longer| - 1] == front;
    assert Points(Range(r.first, point)) == Points(r) + [point];
  }

  /** Starting a new range for a point. */
  lemma Appended(ranges: seq<Range>, point: int)
    ensures Expand(ranges + [Range(point, point)]) == Expand(ranges) + [point]
    ensures Canonical(ranges) && (ranges != [] ==> ranges[|ranges| - 1].last + 1 < point) ==> Canonical(ranges + [Range(point, point)])
  {
    var more := ranges + [Range(point, point)];
    assert more[..|more| - 1] == ranges;
    assert Points(Range(point, point - 1)) == [] && Points(Range(point, point)) == [point];
    if Canonical(ranges) && (ranges != [] ==> ranges[|ranges| - 1].last + 1 < point) {
      hide Expand, Points;
      CanonicalSnoc(more);
    }
  }

  // ------------------------------------------------------------- uniqueness

  lemma {:induction false} PointsOf(r: Range)
    ensures |Points(r)| == (if r.last < r.first then 0 else r.last - r.first + 1)
    ensures forall i :: 0 <= i < |Points(r)| ==> Points(r)[i] == r.first + i
    decreases r.last - r.first
  {
    if r.first <= r.last {
      PointsOf(Range(r.first, r.last - 1));
    }
  }

  /** The number of gaps in a list of points, counting the start. */
  function Runs(points: seq<int>): nat {
    if points == [] then 0
    else if |points| == 1 then 1
    else
      var n := |points| - 1;
      Runs(points[..n]) + (if points[n] == points[n - 1] + 1 then 0 else 1)
  }

  lemma {:induction false} RunsConcat(a: seq<int>, b: seq<int>)
    requires b != []
    ensures Runs(a + b) == Runs(a) + Runs(b) - (if a != [] && a[|a| - 1] + 1 == b[0] then 1 else 0)
  {
    var n := |b| - 1;
    if a == [] {
      assert a + b == b;
    } else if n == 0 {
      assert (a + b)[..|a|] == a;
    } else {
      RunsConcat(a, b[..n]);
      assert (a + b)[..|a| + n] == a + b[..n];
    }
  }

  lemma {:induction false} RunsOfRange(r: Range)
    requires r.first <= r.last
    ensures Runs(Points(r)) == 1
    decreases r.last - r.first
  {
    PointsOf(r);
    if r.first < r.last {
      var shorter := Range(r.first, r.last - 1);
      RunsOfRange(shorter);
      PointsOf(shorter);
      assert Points(r)[..|Points(shorter)|] == Points(shorter);
    }
  }

  lemma ExpandLast(ranges: seq<Range>)
    requires Canonical(ranges) && ranges != []
    ensures Expand(ranges) != [] && Expand(ranges)[|Expand(ranges)| - 1] == ranges[|ranges| - 1].last
  {
    PointsOf(ranges[|ranges| - 1]);
  }

  /** Any list of ranges needs at least as many ranges as its points have runs. */
  lemma {:induction false} RunsBound(ranges: seq<Range>)
    ensures Runs(Expand(ranges)) <= |ranges|
    ensures Canonical(ranges) ==> Runs(Expand(ranges)) == |ranges|
  {
    if ranges != [] {
      hide *;
      var front, last := ranges[..|ranges| - 1], ranges[|ranges| - 1];
      RunsBound(front);
      RunsOfLast(ranges);
      if Canonical(ranges) {
        CanonicalFront(ranges);
        CanonicalLast(ranges);
      }
    }
  }

  /** A non-empty last range adds one run, or none if it continues the points before it. */
  lemma RunsOfLast(ranges: seq<Range>)
    requires ranges != []
    ensures var before, r := Expand(ranges[..|ranges| - 1]), ranges[|ranges| - 1];
      Runs(Expand(ranges)) == Runs(before)
        + (if r.last < r.first || (before != [] && before[|before| - 1] + 1 == r.first) then 0 else 1)
  {
    hide Runs;
    var before, r := Expand(ranges[..|ranges| - 1]), ranges[|ranges| - 1];
    PointsOf(r);
    if r.first <= r.last {
      RunsOfRange(r);
      RunsConcat(before, Points(r));
    } else {
      assert before + [] == before;
    }
  }

  /** The last of canonical ranges does not continue the points before it. */
  lemma CanonicalLast(ranges: seq<Range>)
    requires Canonical(ranges) && ranges != []
    ensures var before, r := Expand(ranges[..|ranges| - 1]), ranges[|ranges| - 1];
      r.first <= r.last && (before == [] || before[|before| - 1] + 1 != r.first)
  {
    var front := ranges[..|ranges| - 1];
    if front != [] {
      ExpandLast(front);
    }
    hide Expand, Points;
    assert front == [] || front[|front| - 1].last + 1 < ranges[|ranges| - 1].first;
    NoPoints();
  }

  lemma NoPoints()
    ensures Expand([]) == [] && Canonical([])
  {
  }

  /** Canonical ranges are the shortest ranges for their points. */
  lemma Shortest(canonical: seq<Range>, other: seq<Range>)
    requires Canonical(canonical) && Expand(other) == Expand(canonical)
    ensures |canonical| <= |other|
  {
    RunsBound(canonical);
    RunsBound(other);
  }

  lemma CanonicalFront(ranges: seq<Range>)
    requires Canonical(ranges) && ranges != []
    ensures Canonical(ranges[..|ranges| - 1])
  {
  }

  lemma {:induction false} ExpandBelow(ranges: seq<Range>, bound: int)
    requires forall i :: 0 <= i < |ranges| ==> ranges[i].last < bound
    ensures forall x :: x in Expand(ranges) ==> x < bound
  {
    if ranges != [] {
      ExpandBelow(ranges[..|ranges| - 1], bound);
      PointsOf(ranges[|ranges| - 1]);
    }
  }

  /** The last range is determined by the points: it starts right behind the last gap. */
  lemma LastRange(a: seq<Range>, b: seq<Range>)
    requires Canonical(a) && Canonical(b) && a != [] && b != [] && Expand(a) == Expand(b)
    ensures a[|a| - 1] == b[|b| - 1]
  {
    ExpandLast(a);
    ExpandLast(b);
    StartsNoLater(a, b);
    StartsNoLater(b, a);
  }

  /** The points of the last range are the last points. */
  lemma InLast(ranges: seq<Range>, k: int)
    requires Canonical(ranges) && ranges != []
    requires ranges[|ranges| - 1].first <= k <= ranges[|ranges| - 1].last
    ensures var i := |Expand(ranges)| - 1 - (ranges[|ranges| - 1].last - k); i >= 0 && Expand(ranges)[i] == k
  {
    PointsOf(ranges[|ranges| - 1]);
  }

  /** The point right before the last range is missing. */
  lemma GapBeforeLast(ranges: seq<Range>, i: nat)
    requires Canonical(ranges) && ranges != []
    ensures var r := ranges[|ranges| - 1];
      i < |Expand(ranges)| && i == |Expand(ranges)| - 2 - (r.last - r.first) ==> Expand(ranges)[i] != r.first - 1
  {
    var r := ranges[|ranges| - 1];
    PointsOf(r);
    var front := ranges[..|ranges| - 1];
    ExpandBelow(front, r.first - 1);
    if i < |Expand(front)| {
      assert Expand(front)[i] in Expand(front);
    }
  }

  lemma StartsNoLater(a: seq<Range>, b: seq<Range>)
    requires Canonical(a) && Canonical(b) && a != [] && b != [] && Expand(a) == Expand(b)
    requires a[|a| - 1].last == b[|b| - 1].last
    ensures a[|a| - 1].first <= b[|b| - 1].first
  {
    var p, q, n := a[|a| - 1], b[|b| - 1], |Expand(a)|;
    if q.first < p.first {
      InLast(b, p.first - 1);
      GapBeforeLast(a, n - 2 - (p.last - p.first));
    }
  }

  lemma ExpandFront(ranges: seq<Range>)
    requires ranges != []
    ensures var n := |ranges| - 1;
      |Expand(ranges)| >= |Points(ranges[n])| && Expand(ranges[..n]) == Expand(ranges)[..|Expand(ranges)| - |Points(ranges[n])|]
  {
  }

  /** The canonical ranges of a list of points are unique. */
  lemma {:induction false} CanonicalUnique(a: seq<Range>, b: seq<Range>)
    requires Canonical(a) && Canonical(b) && Expand(a) == Expand(b)
    ensures a == b
  {
    hide *;
    NoPoints();
    if a != [] {
      ExpandLast(a);
    }
    if b != [] {
      ExpandLast(b);
    }
    if a != [] && b != [] {
      LastRange(a, b);
      var m, n := |a| - 1, |b| - 1;
      ExpandFront(a);
      ExpandFront(b);
      CanonicalFront(a);
      CanonicalFront(b);
      CanonicalUnique(a[..m], b[..n]);
      assert a == a[..m] + [a[m]] && b == b[..n] + [b[n]];
    }
  }

  // ------------------------------------------------- the unique shortest list

  /** Canonical ranges expand to increasing points. */
  lemma {:induction false} ExpandIncreasing(ranges: seq<Range>)
    requires Canonical(ranges)
    ensures Increasing(Expand(ranges))
  {
    if ranges != [] {
      var front, r := ranges[..|ranges| - 1], ranges[|ranges| - 1];
      CanonicalFront(ranges);
      ExpandIncreasing(front);
      ExpandBelow(front, r.first);
      PointsOf(r);
      JoinIncreasing(Expand(front), Points(r), r.first);
    }
  }

  lemma JoinIncreasing(a: seq<int>, b: seq<int>, bound: int)
    requires Increasing(a) && Increasing(b) && (forall x :: x in a ==> x < bound) && forall x :: x in b ==> bound <= x
    ensures Increasing(a + b)
  {
    forall i, j | 0 <= i < j < |a + b| ensures (a + b)[i] < (a + b)[j] {
      assert i < |a| ==> a[i] in a;
      assert j >= |a| ==> b[j - |a|] in b;
    }
  }

  /** Ranges that need no more than one range for each run of increasing points are canonical. */
  lemma {:induction false} TightCanonical(ranges: seq<Range>)
    requires Increasing(Expand(ranges)) && |ranges| <= Runs(Expand(ranges))
    ensures Canonical(ranges)
  {
    if ranges != [] {
      var front, r := ranges[..|ranges| - 1], ranges[|ranges| - 1];
      var before := Expand(front);
      ExpandStep(ranges);
      hide *;
      RunsOfLast(ranges);
      RunsBound(front);
      FrontIncreasing(before, Points(r));
      TightCanonical(front);
      PointsOf(r);
      if front != [] {
        ExpandLast(front);
        LastBelow(before, Points(r));
      }
      CanonicalSnoc(ranges);
    }
  }

  lemma ExpandStep(ranges: seq<Range>)
    requires ranges != []
    ensures Expand(ranges) == Expand(ranges[..|ranges| - 1]) + Points(ranges[|ranges| - 1])
  {
  }

  lemma CanonicalSnoc(ranges: seq<Range>)
    requires ranges != [] && ranges[|ranges| - 1].first <= ranges[|ranges| - 1].last && Canonical(ranges[..|ranges| - 1])
    requires |ranges| > 1 ==> ranges[|ranges| - 2].last + 1 < ranges[|ranges| - 1].first
    ensures Canonical(ranges)
  {
    var front := ranges[..|ranges| - 1];
    assert forall i :: 0 <= i < |front| ==> front[i] == ranges[i];
  }

  lemma FrontIncreasing(a: seq<int>, b: seq<int>)
    requires Increasing(a + b)
    ensures Increasing(a)
  {
    assert forall i :: 0 <= i < |a| ==> (a + b)[i] == a[i];
  }

  lemma LastBelow(a: seq<int>, b: seq<int>)
    requires Increasing(a + b) && a != [] && b != []
    ensures a[|a| - 1] < b[0]
  {
    assert (a + b)[|a| - 1] == a[|a| - 1] && (a + b)[|a|] == b[0];
  }

  /** Canonical ranges are the only list of ranges for their points that is no longer. */
  lemma UniqueShortest(canonical: seq<Range>, other: seq<Range>)
    requires Canonical(canonical) && Expand(other) == Expand(canonical) && |other| <= |canonical|
    ensures other == canonical
  {
    RunsBound(canonical);
    ExpandIncreasing(canonical);
    TightCanonical(other);
    CanonicalUnique(canonical, other);
  }
}
