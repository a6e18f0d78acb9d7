/** Bounding boxes, and intersection over union as a ratio of pixel sets. */
module Boxes {

  /** A box covers the pixels from (x1, y1) up to but not including (x2, y2). */
  datatype Box = Box(x1: int, y1: int, x2: int, y2: int, tag: string, confidence: real)

  function Max(a: int, b: int): int { if a > b then a else b }

  function Min(a: int, b: int): int { if a < b then a else b }

  function Area(b: Box): int { (b.x2 - b.x1) * (b.y2 - b.y1) }

  predicate WellFormed(b: Box) { b.x1 <= b.x2 && b.y1 <= b.y2 }

  lemma AreaNotNegative(b: Box)
    requires WellFormed(b)
    ensures Area(b) >= 0
  {
  }

  /** The rectangle of the common area; its corners cross when there is none. */
  function Common(a: Box, b: Box): Box {
    Box(Max(a.x1, b.x1), Max(a.y1, b.y1), Min(a.x2, b.x2), Min(a.y2, b.y2), "", 1.0)
  }

  function Ratio(part: int, whole: int): (r: real)
    requires whole > 0
    ensures (part >= 0 ==> r >= 0.0) && (part == 0 ==> r == 0.0)
  {
    part as real / whole as real
  }

  function ComputeIou(a: Box, b: Box): (r: real)
    ensures 0.0 <= r
  {
    var c := Common(a, b);
    if c.x2 < c.x1 || c.y2 < c.y1 then 0.0
    else
      AreaNotNegative(c);
      var intersection := Area(c);
      var union := Area(a) + Area(b) - intersection;
      if union > 0 then Ratio(intersection, union) else 0.0
  }

  function ExpandBox(b: Box, margin: int): Box {
    Box(b.x1 - margin, b.y1 - margin, b.x2 + margin, b.y2 + margin, b.tag, b.confidence)
  }

  // -------------------------------------------------------------------- pixels

  function Rect(x1: int, y1: int, x2: int, y2: int): set<(int, int)> {
    set x, y | x1 <= x < x2 && y1 <= y < y2 :: (x, y)
  }

  function Pixels(b: Box): set<(int, int)> { Rect(b.x1, b.y1, b.x2, b.y2) }

  lemma {:induction false} ColumnSize(x: int, y1: int, y2: int)
    requires y1 <= y2
    ensures |Rect(x, y1, x + 1, y2)| == y2 - y1
    decreases y2 - y1
  {
    if y1 == y2 {
      assert Rect(x, y1, x + 1, y2) == {};
    } else {
      ColumnSize(x, y1, y2 - 1);
      assert Rect(x, y1, x + 1, y2) == Rect(x, y1, x + 1, y2 - 1) + {(x, y2 - 1)};
    }
  }

  lemma {:induction false} RectSize(x1: int, y1: int, x2: int, y2: int)
    requires x1 <= x2 && y1 <= y2
    ensures |Rect(x1, y1, x2, y2)| == (x2 - x1) * (y2 - y1)
    decreases x2 - x1
  {
    if x1 == x2 {
      assert Rect(x1, y1, x2, y2) == {};
    } else {
      RectSize(x1, y1, x2 - 1, y2);
      ColumnSize(x2 - 1, y1, y2);
      var column := Rect(x2 - 1, y1, x2, y2);
      assert Rect(x1, y1, x2, y2) == Rect(x1, y1, x2 - 1, y2) + column;
      assert Rect(x1, y1, x2 - 1, y2) !! column;
      assert (x2 - x1) * (y2 - y1) == (x2 - 1 - x1) * (y2 - y1) + (y2 - y1);
    }
  }

  /** The area of a well-formed box is the number of its pixels. */
  lemma PixelCount(b: Box)
    requires WellFormed(b)
    ensures |Pixels(b)| == Area(b)
  {
    RectSize(b.x1, b.y1, b.x2, b.y2);
  }

  lemma UnionSize(a: set<(int, int)>, b: set<(int, int)>)
    ensures |a + b| == |a| + |b| - |a * b|
  {
    assert a + b == a + (b - a);
    assert b == (b - a) + (a * b);
  }

  lemma CommonPixels(a: Box, b: Box)
    ensures Pixels(a) * Pixels(b) == Pixels(Common(a, b))
  {
  }

  /**
   On well-formed boxes the measure is the number of common pixels over the number
   of pixels covered at all; two boxes that cover nothing have measure zero.
   */
  lemma IouIsPixelRatio(a: Box, b: Box)
    requires WellFormed(a) && WellFormed(b)
    ensures var covered := Pixels(a) + Pixels(b);
      ComputeIou(a, b) == if covered == {} then 0.0 else Ratio(|Pixels(a) * Pixels(b)|, |covered|)
  {
    hide *;
    CoveredSize(a, b);
    IouByArea(a, b);
  }

  lemma IouByArea(a: Box, b: Box)
    ensures var c := Common(a, b);
      var union := Area(a) + Area(b) - Area(c);
      (if WellFormed(c) then ComputeIou(a, b) == (if union > 0 then Ratio(Area(c), union) else 0.0) else ComputeIou(a, b) == 0.0)
  {
    hide Area, Ratio, Common;
  }

  lemma CoveredSize(a: Box, b: Box)
    requires WellFormed(a) && WellFormed(b)
    ensures var common, covered, c := Pixels(a) * Pixels(b), Pixels(a) + Pixels(b), Common(a, b);
      |covered| == Area(a) + Area(b) - |common| && |common| == (if WellFormed(c) then Area(c) else 0)
      && (covered == {} <==> |covered| == 0)
  {
    PixelCount(a);
    PixelCount(b);
    CommonPixels(a, b);
    CrossedPixels(Common(a, b));
    hide Pixels, Area;
    UnionSize(Pixels(a), Pixels(b));
  }

  /** A box whose corners cross covers nothing. */
  lemma CrossedPixels(b: Box)
    ensures |Pixels(b)| == if WellFormed(b) then Area(b) else 0
  {
    if WellFormed(b) {
      PixelCount(b);
    } else {
      assert Pixels(b) == {};
    }
  }

  /** The measure does not depend on the order of the boxes, well-formed or not. */
  lemma IouSymmetric(a: Box, b: Box)
    ensures ComputeIou(a, b) == ComputeIou(b, a)
  {
    assert Area(Common(a, b)) == Area(Common(b, a));
  }

  lemma SubsetSize(a: set<(int, int)>, b: set<(int, int)>)
    requires a <= b
    ensures |a| <= |b| && (|a| == |b| ==> a == b)
  {
    assert b == a + (b - a);
  }

  /** Non-empty rectangles are determined by their pixels. */
  lemma SameRect(a: Box, b: Box)
    requires Pixels(a) == Pixels(b) != {}
    ensures a.x1 == b.x1 && a.y1 == b.y1 && a.x2 == b.x2 && a.y2 == b.y2
  {
    var p :| p in Pixels(a);
    assert (a.x1, a.y1) in Pixels(a) && (a.x2 - 1, a.y2 - 1) in Pixels(a);
    assert (b.x1, b.y1) in Pixels(b) && (b.x2 - 1, b.y2 - 1) in Pixels(b);
  }

  lemma RatioBounds(part: nat, whole: nat)
    requires 0 < whole && part <= whole
    ensures 0.0 <= Ratio(part, whole) <= 1.0
    ensures Ratio(part, whole) == 1.0 <==> part == whole
  {
    var r := Ratio(part, whole);
    assert r * whole as real == part as real;
    Times(r, whole as real);
  }

  lemma Times(r: real, w: real)
    requires w > 0.0
    ensures r < 0.0 ==> r * w < 0.0
    ensures r > 1.0 ==> r * w > w
    ensures r < 1.0 ==> r * w < w
  {
    assert r * w - w == (r - 1.0) * w;
  }

  /** The measure lies between zero and one, and is one exactly for the same area, if there is any. */
  lemma IouRange(a: Box, b: Box)
    requires WellFormed(a) && WellFormed(b)
    ensures 0.0 <= ComputeIou(a, b) <= 1.0
    ensures ComputeIou(a, b) == 1.0
            <==> Area(a) > 0 && a.x1 == b.x1 && a.y1 == b.y1 && a.x2 == b.x2 && a.y2 == b.y2
  {
    IouIsPixelRatio(a, b);
    PixelCount(a);
    var common, covered := Pixels(a) * Pixels(b), Pixels(a) + Pixels(b);
    SubsetSize(common, covered);
    if covered != {} {
      RatioBounds(|common|, |covered|);
      if ComputeIou(a, b) == 1.0 {
        assert Pixels(a) == common == Pixels(b);
        SameRect(a, b);
      }
    }
    if Area(a) > 0 && a.x1 == b.x1 && a.y1 == b.y1 && a.x2 == b.x2 && a.y2 == b.y2 {
      assert common == covered == Pixels(a);
    }
  }
}
