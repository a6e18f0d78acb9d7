/** When greedy matching is optimal after all. */
module MatchOptimal {
  import opened Boxes
  import opened StableSort
  import opened Matching
  import opened MatchQuality

  /** The two boxes reach the threshold together. */
  predicate Reaches(gts: seq<Box>, preds: seq<Box>, threshold: real, width: int, i: int, j: int) {
    0 <= i < |gts| && 0 <= j < |preds| && ComputeIou(Expanded(gts, width)[i], preds[j]) >= threshold
  }

  /** Of two boxes that reach the threshold together, one does so with no other box. */
  ghost predicate Stars(gts: seq<Box>, preds: seq<Box>, threshold: real, width: int) {
    forall i, j :: Reaches(gts, preds, threshold, width, i, j) ==>
      (forall k :: Reaches(gts, preds, threshold, width, k, j) ==> k == i)
      || (forall k :: Reaches(gts, preds, threshold, width, i, k) ==> k == j)
  }

  predicate Over(g: Pair, p: Pair) { (g.gt == p.gt || g.pred == p.pred) && g.iou >= p.iou }

  lemma SumCons(p: Pair, pairs: seq<Pair>)
    ensures Sum([p] + pairs) == p.iou + Sum(pairs)
  {
    assert ([p] + pairs)[1..] == pairs;
  }

  lemma {:induction false} SumSplit(pairs: seq<Pair>, k: nat)
    requires k < |pairs|
    ensures Sum(pairs) == Sum(pairs[..k] + pairs[k + 1..]) + pairs[k].iou
  {
    if k == 0 {
      assert pairs[..0] + pairs[1..] == pairs[1..];
    } else {
      hide Sum;
      SumSplit(pairs[1..], k - 1);
      var rest := pairs[1..][..k - 1] + pairs[1..][k..];
      assert pairs[..k] + pairs[k + 1..] == [pairs[0]] + rest;
      SumCons(pairs[0], rest);
      SumCons(pairs[0], pairs[1..]);
      assert pairs == [pairs[0]] + pairs[1..];
    }
  }

  lemma {:induction false} NotNegativeSum(pairs: seq<Pair>)
    requires forall p :: p in pairs ==> 0.0 <= p.iou
    ensures 0.0 <= Sum(pairs)
  {
    if pairs != [] {
      assert pairs[0] in pairs;
      NotNegativeSum(pairs[1..]);
    }
  }

  lemma OtherKept(pairs: seq<Pair>, k: nat, g: Pair)
    requires k < |pairs| && g in pairs && g != pairs[k]
    ensures g in pairs[..k] + pairs[k + 1..]
  {
    var n :| 0 <= n < |pairs| && pairs[n] == g;
    assert n < k ==> pairs[..k][n] == g;
    assert n > k ==> pairs[k + 1..][n - k - 1] == g;
  }

  /** Each pair of `m` has a pair of `c` over it, and no pair of `c` is over two. */
  ghost predicate Covers(c: seq<Pair>, m: seq<Pair>) {
    (forall p :: p in m ==> exists g :: g in c && Over(g, p))
    && forall g, i, j :: g in c && 0 <= i < j < |m| ==> !(Over(g, m[i]) && Over(g, m[j]))
  }

  lemma {:induction false} CoverBounds(c: seq<Pair>, m: seq<Pair>)
    requires Covers(c, m) && forall g :: g in c ==> 0.0 <= g.iou
    ensures |m| <= |c| && Sum(m) <= Sum(c)
  {
    if m == [] {
      NotNegativeSum(c);
    } else {
      assert m[0] in m;
      var g :| g in c && Over(g, m[0]);
      var k :| 0 <= k < |c| && c[k] == g;
      var fewer := c[..k] + c[k + 1..];
      CoversRest(c, m, k);
      SumSplit(c, k);
      CoverBounds(fewer, m[1..]);
    }
  }

  lemma CoversRest(c: seq<Pair>, m: seq<Pair>, k: nat)
    requires Covers(c, m) && m != [] && k < |c| && Over(c[k], m[0])
    ensures Covers(c[..k] + c[k + 1..], m[1..])
    ensures forall g :: g in c[..k] + c[k + 1..] ==> g in c
  {
    hide Over;
    var fewer := c[..k] + c[k + 1..];
    forall g | g in fewer ensures g in c {
    }
    assert m[0] in m;
    forall p | p in m[1..] ensures exists g :: g in fewer && Over(g, p) {
      var i :| 0 <= i < |m[1..]| && m[1..][i] == p;
      assert m[i + 1] == p && p in m;
      var g :| g in c && Over(g, p);
      OtherKept(c, k, g);
    }
    forall g, i, j | g in fewer && 0 <= i < j < |m[1..]| ensures !(Over(g, m[1..][i]) && Over(g, m[1..][j])) {
      assert m[1..][i] == m[i + 1] && m[1..][j] == m[j + 1];
    }
  }

  lemma PairReaches(gts: seq<Box>, preds: seq<Box>, threshold: real, width: int, m: seq<Pair>, p: Pair)
    requires IsMatching(m, gts, preds, threshold, width) && p in m
    ensures Reaches(gts, preds, threshold, width, p.gt, p.pred)
  {
  }

  /** In stars, no pair is over two pairs of a matching. */
  lemma OverOne(gts: seq<Box>, preds: seq<Box>, threshold: real, width: int, g: Pair, p: Pair, q: Pair)
    requires Stars(gts, preds, threshold, width)
    requires Reaches(gts, preds, threshold, width, g.gt, g.pred)
    requires Reaches(gts, preds, threshold, width, p.gt, p.pred) && Reaches(gts, preds, threshold, width, q.gt, q.pred)
    requires p.gt != q.gt && p.pred != q.pred
    ensures !(Over(g, p) && Over(g, q))
  {
    hide Reaches;
  }

  /**
   Greedy matching finds a largest matching, and one of largest total, when of two
   boxes that reach the threshold together always one does so with no other box: in
   particular when no prediction reaches it with two ground-truth boxes, or none of
   these with two predictions.
   */
  lemma GreedyOptimal(gts: seq<Box>, preds: seq<Box>, threshold: real, width: int, m: seq<Pair>)
    requires Stars(gts, preds, threshold, width) && IsMatching(m, gts, preds, threshold, width)
    ensures var chosen := Chosen(gts, preds, threshold, width);
      IsMatching(chosen, gts, preds, threshold, width) && |m| <= |chosen| && Sum(m) <= Sum(chosen)
  {
    ChosenMembers(gts, preds, threshold, width);
    var chosen := Chosen(gts, preds, threshold, width);
    assert IsMatching(chosen, gts, preds, threshold, width);
    assert forall g :: g in chosen ==> 0.0 <= g.iou;
    hide Chosen, Over;
    forall p | p in m ensures exists g :: g in chosen && Over(g, p) {
      OverSome(gts, preds, threshold, width, m, p);
    }
    forall g, i, j | g in chosen && 0 <= i < j < |m| ensures !(Over(g, m[i]) && Over(g, m[j])) {
      assert m[i] in m && m[j] in m;
      PairReaches(gts, preds, threshold, width, chosen, g);
      PairReaches(gts, preds, threshold, width, m, m[i]);
      PairReaches(gts, preds, threshold, width, m, m[j]);
      OverOne(gts, preds, threshold, width, g, m[i], m[j]);
    }
    CoverBounds(chosen, m);
  }

  lemma OverSome(gts: seq<Box>, preds: seq<Box>, threshold: real, width: int, m: seq<Pair>, p: Pair)
    requires IsMatching(m, gts, preds, threshold, width) && p in m
    ensures exists g :: g in Chosen(gts, preds, threshold, width) && Over(g, p)
  {
    hide Chosen;
    NoBlockingPair(gts, preds, threshold, width, p.gt, p.pred);
    var g :| g in Chosen(gts, preds, threshold, width) && (g.gt == p.gt || g.pred == p.pred)
      && g.iou >= ComputeIou(Expanded(gts, width)[p.gt], preds[p.pred]);
    assert Over(g, p);
  }

  // ------------------------------------------------------- disjoint ground truth

  lemma DisjointShares(a: set<(int, int)>, b: set<(int, int)>, p: set<(int, int)>)
    requires a !! b
    ensures |a * p| + |b * p| <= |p|
  {
    assert |(a * p) + (b * p)| == |a * p| + |b * p|;
    SubsetSize((a * p) + (b * p), p);
  }

  lemma RatioPart(part: nat, whole: nat, t: real)
    requires whole > 0 && t > 0.5 && Ratio(part, whole) >= t
    ensures 2 * part > whole
  {
    var r := Ratio(part, whole);
    assert r * whole as real == part as real;
    HalfShare(r, whole as real);
    hide Ratio;
    MoreThan(part, whole);
  }

  lemma MoreThan(part: int, whole: int)
    requires 2.0 * part as real > whole as real
    ensures 2 * part > whole
  {
  }

  lemma HalfShare(r: real, w: real)
    requires r > 0.5 && w > 0.0
    ensures 2.0 * (r * w) > w
  {
    assert 2.0 * (r * w) - w == (2.0 * r - 1.0) * w;
  }

  /** Above one half, most of the prediction lies in the ground-truth box. */
  lemma MostInside(a: Box, p: Box, t: real)
    requires ComputeIou(a, p) >= t > 0.5
    ensures 2 * |Pixels(a) * Pixels(p)| > |Pixels(p)|
  {
    assert WellFormed(a) && WellFormed(p);
    IouIsPixelRatio(a, p);
    var common, covered := Pixels(a) * Pixels(p), Pixels(a) + Pixels(p);
    hide ComputeIou, Pixels, Ratio;
    assert covered != {};
    RatioPart(|common|, |covered|, t);
    SubsetSize(Pixels(p), covered);
  }

  /** So with pairwise disjoint ground truth, no margin and a threshold above one half it is optimal. */
  lemma GreedyOptimalDisjoint(gts: seq<Box>, preds: seq<Box>, threshold: real, width: int, m: seq<Pair>)
    requires threshold > 0.5 && width <= 0
    requires forall i, j :: 0 <= i < j < |gts| ==> Pixels(gts[i]) !! Pixels(gts[j])
    requires IsMatching(m, gts, preds, threshold, width)
    ensures var chosen := Chosen(gts, preds, threshold, width);
      IsMatching(chosen, gts, preds, threshold, width) && |m| <= |chosen| && Sum(m) <= Sum(chosen)
  {
    hide Pixels, ComputeIou, Chosen, IsMatching;
    forall i, j, k | Reaches(gts, preds, threshold, width, i, j) && Reaches(gts, preds, threshold, width, k, j) ensures k == i {
      if k != i {
        MostInside(gts[i], preds[j], threshold);
        MostInside(gts[k], preds[j], threshold);
        DisjointShares(Pixels(gts[i]), Pixels(gts[k]), Pixels(preds[j]));
      }
    }
    GreedyOptimal(gts, preds, threshold, width, m);
  }
}
