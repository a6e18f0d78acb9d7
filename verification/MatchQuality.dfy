/** What the greedy matching is worth: stability, half-optimality, accounting and the metrics. */
module MatchQuality {
  import opened Boxes
  import opened StableSort
  import opened Matching

  function Sum(pairs: seq<Pair>): real {
    if pairs == [] then 0.0 else pairs[0].iou + Sum(pairs[1..])
  }

  // ------------------------------------------------------------ half-optimality

  function WithoutRow(pairs: seq<Pair>, row: nat): seq<Pair> {
    if pairs == [] then []
    else (if pairs[0].gt == row then [] else [pairs[0]]) + WithoutRow(pairs[1..], row)
  }

  function WithoutCol(pairs: seq<Pair>, col: nat): seq<Pair> {
    if pairs == [] then []
    else (if pairs[0].pred == col then [] else [pairs[0]]) + WithoutCol(pairs[1..], col)
  }

  lemma {:induction false} RowMembers(pairs: seq<Pair>, row: nat)
    ensures forall p :: p in WithoutRow(pairs, row) <==> p in pairs && p.gt != row
    ensures OneToOne(pairs) ==> OneToOne(WithoutRow(pairs, row))
  {
    if pairs != [] {
      RowMembers(pairs[1..], row);
      assert pairs == [pairs[0]] + pairs[1..];
      if OneToOne(pairs) {
        TailApart(pairs);
      }
    }
  }

  lemma {:induction false} ColMembers(pairs: seq<Pair>, col: nat)
    ensures forall p :: p in WithoutCol(pairs, col) <==> p in pairs && p.pred != col
    ensures OneToOne(pairs) ==> OneToOne(WithoutCol(pairs, col))
  {
    if pairs != [] {
      ColMembers(pairs[1..], col);
      assert pairs == [pairs[0]] + pairs[1..];
      if OneToOne(pairs) {
        TailApart(pairs);
      }
    }
  }

  lemma TailApart(pairs: seq<Pair>)
    requires OneToOne(pairs) && pairs != []
    ensures OneToOne(pairs[1..])
    ensures forall p :: p in pairs[1..] ==> p.gt != pairs[0].gt && p.pred != pairs[0].pred
  {
    forall p | p in pairs[1..] ensures p.gt != pairs[0].gt && p.pred != pairs[0].pred {
      var i :| 0 <= i < |pairs[1..]| && pairs[1..][i] == p;
      assert pairs[i + 1] == p;
    }
  }

  lemma {:induction false} RowAbsent(pairs: seq<Pair>, row: nat)
    requires forall p :: p in pairs ==> p.gt != row
    ensures WithoutRow(pairs, row) == pairs
  {
    if pairs != [] {
      RowAbsent(pairs[1..], row);
    }
  }

  lemma {:induction false} ColAbsent(pairs: seq<Pair>, col: nat)
    requires forall p :: p in pairs ==> p.pred != col
    ensures WithoutCol(pairs, col) == pairs
  {
    if pairs != [] {
      ColAbsent(pairs[1..], col);
    }
  }

  /** Giving up one row costs at most one pair of weight at most `w`. */
  lemma {:induction false} RowCost(pairs: seq<Pair>, row: nat, w: real)
    requires OneToOne(pairs) && 0.0 <= w && forall p :: p in pairs ==> p.iou <= w
    ensures |pairs| <= |WithoutRow(pairs, row)| + 1 && Sum(pairs) <= Sum(WithoutRow(pairs, row)) + w
  {
    if pairs != [] {
      TailApart(pairs);
      assert pairs[0] in pairs;
      if pairs[0].gt == row {
        RowAbsent(pairs[1..], row);
        assert WithoutRow(pairs, row) == pairs[1..];
      } else {
        RowCost(pairs[1..], row, w);
        assert WithoutRow(pairs, row)[1..] == WithoutRow(pairs[1..], row);
      }
    }
  }

  /** Giving up one column costs at most one pair of weight at most `w`. */
  lemma {:induction false} ColCost(pairs: seq<Pair>, col: nat, w: real)
    requires OneToOne(pairs) && 0.0 <= w && forall p :: p in pairs ==> p.iou <= w
    ensures |pairs| <= |WithoutCol(pairs, col)| + 1 && Sum(pairs) <= Sum(WithoutCol(pairs, col)) + w
  {
    if pairs != [] {
      TailApart(pairs);
      assert pairs[0] in pairs;
      if pairs[0].pred == col {
        ColAbsent(pairs[1..], col);
        assert WithoutCol(pairs, col) == pairs[1..];
      } else {
        ColCost(pairs[1..], col, w);
        assert WithoutCol(pairs, col)[1..] == WithoutCol(pairs[1..], col);
      }
    }
  }

  /** A one-to-one choice of pairs from the list that are still free and good enough. */
  ghost predicate Rival(flat: seq<Pair>, threshold: real, rows: set<nat>, cols: set<nat>, m: seq<Pair>) {
    OneToOne(m)
    && forall p :: p in m ==> p in flat && p.iou >= threshold && p.gt !in rows && p.pred !in cols
  }

  lemma FlatTail(flat: seq<Pair>, p: Pair)
    requires IsDescending(flat, ByIou()) && flat != []
    ensures p in flat ==> p.iou <= flat[0].iou && (p != flat[0] ==> p in flat[1..])
    ensures IsDescending(flat[1..], ByIou())
  {
    assert ByIou()(flat[0]) == flat[0].iou;
    if p in flat {
      var i :| 0 <= i < |flat| && flat[i] == p;
      assert ByIou()(flat[i]) == p.iou;
      assert i > 0 ==> flat[1..][i - 1] == p;
    }
  }

  lemma SomeMember(pairs: seq<Pair>)
    ensures pairs == [] || exists p :: p in pairs
  {
    if pairs != [] {
      assert pairs[0] in pairs;
    }
  }

  lemma {:induction false} HalfOfAny(flat: seq<Pair>, threshold: real, rows: set<nat>, cols: set<nat>, m: seq<Pair>)
    requires IsDescending(flat, ByIou()) && (forall p :: p in flat ==> 0.0 <= p.iou)
    requires Rival(flat, threshold, rows, cols, m)
    ensures var g := Greedy(flat, threshold, rows, cols);
      |m| <= 2 * |g| && Sum(m) <= 2.0 * Sum(g)
  {
    if flat == [] {
      SomeMember(m);
    } else {
      var head := flat[0];
      forall p ensures p in flat ==> p.iou <= head.iou && (p != head ==> p in flat[1..]) {
        FlatTail(flat, p);
      }
      if head.gt !in rows && head.pred !in cols && head.iou >= threshold {
        var fewer := WithoutCol(WithoutRow(m, head.gt), head.pred);
        RowMembers(m, head.gt);
        ColMembers(WithoutRow(m, head.gt), head.pred);
        assert head in flat;
        RowCost(m, head.gt, head.iou);
        ColCost(WithoutRow(m, head.gt), head.pred, head.iou);
        HalfOfAny(flat[1..], threshold, rows + {head.gt}, cols + {head.pred}, fewer);
      } else {
        HalfOfAny(flat[1..], threshold, rows, cols, m);
      }
    }
  }

  /** A one-to-one matching of in-range boxes, each pair at or above the threshold. */
  ghost predicate IsMatching(m: seq<Pair>, gts: seq<Box>, preds: seq<Box>, threshold: real, width: int) {
    OneToOne(m)
    && forall p :: p in m ==>
         p.gt < |gts| && p.pred < |preds|
         && p.iou == ComputeIou(Expanded(gts, width)[p.gt], preds[p.pred]) >= threshold
  }

  /**
   Greedy matching is half-optimal: no one-to-one matching at or above the
   threshold has more than twice as many pairs, or more than twice the total.
   */
  lemma HalfOptimal(gts: seq<Box>, preds: seq<Box>, threshold: real, width: int, m: seq<Pair>)
    requires IsMatching(m, gts, preds, threshold, width)
    ensures var chosen := Chosen(gts, preds, threshold, width);
      IsMatching(chosen, gts, preds, threshold, width)
      && |m| <= 2 * |chosen| && Sum(m) <= 2.0 * Sum(chosen)
  {
    ChosenMembers(gts, preds, threshold, width);
    var all := Flat(Expanded(gts, width), preds);
    var flat := Descending(all, ByIou());
    Sorts(all, ByIou());
    forall p ensures p in flat <==>
      p.gt < |gts| && p.pred < |preds| && p.iou == ComputeIou(Expanded(gts, width)[p.gt], preds[p.pred])
    {
      SortedMembers(all, p);
      FlatMembers(Expanded(gts, width), preds, p);
    }
    HalfOfAny(flat, threshold, {}, {}, m);
  }

  // ---------------------------------------------------------------- no blocking pair

  lemma {:induction false} Blocked(flat: seq<Pair>, threshold: real, rows: set<nat>, cols: set<nat>, p: Pair)
    requires IsDescending(flat, ByIou()) && p in flat && p.iou >= threshold
    ensures p.gt in rows || p.pred in cols
      || exists g :: g in Greedy(flat, threshold, rows, cols) && (g.gt == p.gt || g.pred == p.pred) && g.iou >= p.iou
  {
    var head := flat[0];
    FlatTail(flat, p);
    if head.gt !in rows && head.pred !in cols && head.iou >= threshold {
      var rest := Greedy(flat[1..], threshold, rows + {head.gt}, cols + {head.pred});
      assert Greedy(flat, threshold, rows, cols) == [head] + rest;
      assert head in [head] + rest;
      if p.gt != head.gt && p.pred != head.pred {
        Blocked(flat[1..], threshold, rows + {head.gt}, cols + {head.pred}, p);
      }
    } else if p != head {
      Blocked(flat[1..], threshold, rows, cols, p);
    }
  }

  /**
   Stability: every pair at or above the threshold shares a box with a chosen pair
   of at least its measure.
   */
  lemma NoBlockingPair(gts: seq<Box>, preds: seq<Box>, threshold: real, width: int, i: nat, j: nat)
    requires i < |gts| && j < |preds| && ComputeIou(Expanded(gts, width)[i], preds[j]) >= threshold
    ensures exists g | g in Chosen(gts, preds, threshold, width) ::
      (g.gt == i || g.pred == j) && g.iou >= ComputeIou(Expanded(gts, width)[i], preds[j])
  {
    var p := Pair(i, j, ComputeIou(Expanded(gts, width)[i], preds[j]));
    var all := Flat(Expanded(gts, width), preds);
    Sorts(all, ByIou());
    SortedMembers(all, p);
    FlatMembers(Expanded(gts, width), preds, p);
    Blocked(Descending(all, ByIou()), threshold, {}, {}, p);
  }

  // -------------------------------------------------------------------- accounting

  ghost predicate InBounds(s: seq<nat>, n: nat) { forall k :: 0 <= k < |s| ==> s[k] < n }

  /** The boxes at the given indices. */
  function At(boxes: seq<Box>, indices: seq<nat>): seq<Box>
    requires InBounds(indices, |boxes|)
  {
    if indices == [] then []
    else At(boxes, indices[..|indices| - 1]) + [boxes[indices[|indices| - 1]]]
  }

  function GtIndices(pairs: seq<Pair>): (r: seq<nat>)
    ensures |r| == |pairs| && forall k :: 0 <= k < |r| ==> r[k] == pairs[k].gt
  {
    seq(|pairs|, k requires 0 <= k < |pairs| => pairs[k].gt)
  }

  function PredIndices(pairs: seq<Pair>): (r: seq<nat>)
    ensures |r| == |pairs| && forall k :: 0 <= k < |r| ==> r[k] == pairs[k].pred
  {
    seq(|pairs|, k requires 0 <= k < |pairs| => pairs[k].pred)
  }

  ghost predicate Distinct(s: seq<nat>) { forall i, j :: 0 <= i < j < |s| ==> s[i] != s[j] }

  function Without(s: seq<nat>, x: nat): seq<nat> {
    if s == [] then []
    else Without(s[..|s| - 1], x) + (if s[|s| - 1] == x then [] else [s[|s| - 1]])
  }

  lemma {:induction false} WithoutMembers(s: seq<nat>, x: nat)
    ensures forall y :: y in Without(s, x) <==> y in s && y != x
    ensures Distinct(s) ==> Distinct(Without(s, x))
  {
    if s != [] {
      var front, last := s[..|s| - 1], s[|s| - 1];
      WithoutMembers(front, x);
      assert s == front + [last];
      if Distinct(s) {
        assert forall i :: 0 <= i < |front| ==> front[i] == s[i];
        assert last !in front;
      }
    }
  }

  lemma AtSnoc(boxes: seq<Box>, front: seq<nat>, last: nat)
    requires InBounds(front + [last], |boxes|)
    ensures InBounds(front, |boxes|) && last < |boxes|
    ensures At(boxes, front + [last]) == At(boxes, front) + [boxes[last]]
  {
    var s := front + [last];
    assert s[..|front|] == front && s[|front|] == last;
    assert forall i :: 0 <= i < |front| ==> front[i] == s[i];
  }

  lemma WithoutInBounds(s: seq<nat>, x: nat, n: nat)
    requires InBounds(s, n)
    ensures InBounds(Without(s, x), n)
  {
    WithoutMembers(s, x);
    var w := Without(s, x);
    forall k | 0 <= k < |w| ensures w[k] < n {
      assert w[k] in w;
      var i :| 0 <= i < |s| && s[i] == w[k];
    }
  }

  lemma DistinctFront(s: seq<nat>)
    requires Distinct(s) && s != []
    ensures Distinct(s[..|s| - 1]) && s[|s| - 1] !in s[..|s| - 1]
  {
    assert forall i :: 0 <= i < |s| - 1 ==> s[..|s| - 1][i] == s[i];
  }

  /** Dropping index `x` from distinct indices drops its box, if it was there. */
  lemma {:induction false} WithoutAt(boxes: seq<Box>, s: seq<nat>, x: nat)
    requires Distinct(s) && InBounds(s, |boxes|) && x < |boxes|
    ensures InBounds(Without(s, x), |boxes|)
    ensures multiset(At(boxes, s)) == multiset(At(boxes, Without(s, x))) + (if x in s then multiset{boxes[x]} else multiset{})
  {
    WithoutInBounds(s, x, |boxes|);
    if s != [] {
      var front, last := s[..|s| - 1], s[|s| - 1];
      DistinctFront(s);
      assert s == front + [last];
      AtSnoc(boxes, front, last);
      WithoutAt(boxes, front, x);
      if last != x {
        AtSnoc(boxes, Without(front, x), last);
      }
      OneAdded(At(boxes, front), boxes[last]);
      OneAdded(At(boxes, Without(front, x)), boxes[last]);
      assert x in s <==> x in front || x == last;
      hide *;
      AtWithout(s, x);
    }
  }

  lemma OneAdded(a: seq<Box>, box: Box)
    ensures multiset(a + [box]) == multiset(a) + multiset{box}
  {
  }

  lemma AtWithout(s: seq<nat>, x: nat)
    requires s != []
    ensures Without(s, x) == if s[|s| - 1] == x then Without(s[..|s| - 1], x) else Without(s[..|s| - 1], x) + [s[|s| - 1]]
  {
  }

  lemma {:induction false} AtPrefix(boxes: seq<Box>, s: seq<nat>, n: nat)
    requires n <= |boxes| && InBounds(s, n)
    ensures At(boxes[..n], s) == At(boxes, s)
  {
    if s != [] {
      AtPrefix(boxes, s[..|s| - 1], n);
    }
  }

  function SetOf(s: seq<nat>): set<nat> { set i | i in s }

  lemma PickedFromSome(picked: seq<nat>, n: nat)
    requires InBounds(picked, n) && picked != []
    ensures 0 < n
  {
    assert picked[0] < n;
  }

  /** Picking distinct indices and keeping the rest accounts for every box once. */
  lemma {:induction false} Accounted(boxes: seq<Box>, picked: seq<nat>)
    requires Distinct(picked) && InBounds(picked, |boxes|)
    ensures multiset(At(boxes, picked)) + multiset(Unused(boxes, SetOf(picked))) == multiset(boxes)
    decreases |boxes|
  {
    if boxes == [] {
      NoneAccounted(boxes, picked);
    } else {
      hide *;
      var n := |boxes| - 1;
      var fewer := Without(picked, n);
      WithoutMembers(picked, n);
      FewerInBounds(picked, n);
      WithoutAt(boxes, picked, n);
      AtPrefix(boxes, fewer, n);
      FewerSame(picked, n);
      UnusedPrefix(boxes[..n], SetOf(picked), SetOf(fewer));
      UnusedLast(boxes, SetOf(picked));
      Accounted(boxes[..n], fewer);
      InSet(picked, n);
      LastApart(boxes);
      OneAdded(Unused(boxes[..n], SetOf(fewer)), boxes[n]);
      AddUp(multiset(At(boxes, picked)), multiset(At(boxes, fewer)),
            multiset(Unused(boxes, SetOf(picked))), multiset(Unused(boxes[..n], SetOf(fewer))),
            multiset(boxes), multiset(boxes[..n]), boxes[n], n in picked);
    }
  }

  lemma NoneAccounted(boxes: seq<Box>, picked: seq<nat>)
    requires InBounds(picked, |boxes|) && boxes == []
    ensures multiset(At(boxes, picked)) + multiset(Unused(boxes, SetOf(picked))) == multiset(boxes)
  {
    if picked != [] {
      PickedFromSome(picked, |boxes|);
    }
  }

  lemma LastApart(boxes: seq<Box>)
    requires boxes != []
    ensures multiset(boxes) == multiset(boxes[..|boxes| - 1]) + multiset{boxes[|boxes| - 1]}
  {
    assert boxes == boxes[..|boxes| - 1] + [boxes[|boxes| - 1]];
  }

  lemma FewerSame(picked: seq<nat>, n: nat)
    ensures forall i: nat :: i < n ==> (i in SetOf(picked) <==> i in SetOf(Without(picked, n)))
  {
    WithoutMembers(picked, n);
  }

  lemma AddUp(picked: multiset<Box>, fewer: multiset<Box>, unused: multiset<Box>, unusedFewer: multiset<Box>,
              all: multiset<Box>, front: multiset<Box>, box: Box, isPicked: bool)
    requires picked == fewer + (if isPicked then multiset{box} else multiset{})
    requires unused == unusedFewer + (if isPicked then multiset{} else multiset{box})
    requires fewer + unusedFewer == front && all == front + multiset{box}
    ensures picked + unused == all
  {
  }

  lemma InSet(s: seq<nat>, x: nat)
    ensures x in SetOf(s) <==> x in s
  {
  }

  lemma UnusedLast(boxes: seq<Box>, used: set<nat>)
    requires boxes != []
    ensures var n := |boxes| - 1;
      Unused(boxes, used) == Unused(boxes[..n], used) + (if n in used then [] else [boxes[n]])
  {
  }

  lemma FewerInBounds(picked: seq<nat>, n: nat)
    requires InBounds(picked, n + 1)
    ensures InBounds(Without(picked, n), n)
  {
    WithoutMembers(picked, n);
    var w := Without(picked, n);
    forall k | 0 <= k < |w| ensures w[k] < n {
      assert w[k] in w;
      var i :| 0 <= i < |picked| && picked[i] == w[k];
    }
  }

  lemma {:induction false} UnusedPrefix(boxes: seq<Box>, a: set<nat>, b: set<nat>)
    requires forall i: nat :: i < |boxes| ==> (i in a <==> i in b)
    ensures Unused(boxes, a) == Unused(boxes, b)
  {
    if boxes != [] {
      UnusedPrefix(boxes[..|boxes| - 1], a, b);
    }
  }

  /**
   Accounting: the matched and the unmatched ground-truth boxes are together all of
   them, each once, and so are the predictions.
   */
  lemma EveryBoxOnce(gts: seq<Box>, preds: seq<Box>, threshold: real, width: int)
    ensures var chosen := Chosen(gts, preds, threshold, width);
      InBounds(GtIndices(chosen), |gts|) && InBounds(PredIndices(chosen), |preds|)
      && multiset(At(gts, GtIndices(chosen))) + multiset(Unused(gts, Rows(chosen))) == multiset(gts)
      && multiset(At(preds, PredIndices(chosen))) + multiset(Unused(preds, Cols(chosen))) == multiset(preds)
  {
    hide Chosen;
    var chosen := Chosen(gts, preds, threshold, width);
    ChosenMembers(gts, preds, threshold, width);
    var a, b := GtIndices(chosen), PredIndices(chosen);
    assert forall k :: 0 <= k < |chosen| ==> chosen[k] in chosen;
    Accounted(gts, a);
    Accounted(preds, b);
    IndexSets(chosen);
  }

  lemma IndexSets(pairs: seq<Pair>)
    ensures Rows(pairs) == SetOf(GtIndices(pairs)) && Cols(pairs) == SetOf(PredIndices(pairs))
  {
    forall p | p in pairs ensures p.gt in GtIndices(pairs) && p.pred in PredIndices(pairs) {
      var k :| 0 <= k < |pairs| && pairs[k] == p;
      assert GtIndices(pairs)[k] == p.gt && PredIndices(pairs)[k] == p.pred;
    }
    forall k | 0 <= k < |pairs| ensures pairs[k].gt in Rows(pairs) && pairs[k].pred in Cols(pairs) {
      assert pairs[k] in pairs;
    }
  }

  // ------------------------------------------------------- the bound is attained

  const GTS := [Box(0, 0, 100, 1, "", 1.0), Box(-20, 0, 80, 1, "", 1.0)]
  const PREDS := [Box(0, 0, 90, 1, "", 1.0), Box(10, 0, 110, 1, "", 1.0)]

  lemma ExampleMeasures()
    ensures ComputeIou(GTS[0], PREDS[0]) == 90.0 / 100.0 && ComputeIou(GTS[0], PREDS[1]) == 90.0 / 110.0
    ensures ComputeIou(GTS[1], PREDS[0]) == 80.0 / 110.0 && ComputeIou(GTS[1], PREDS[1]) == 70.0 / 130.0
  {
  }

  /** A one-to-one list in which all pairs share a box with one of them holds only that one. */
  lemma Alone(pairs: seq<Pair>, g: Pair)
    requires OneToOne(pairs) && g in pairs && forall p :: p in pairs ==> p.gt == g.gt || p.pred == g.pred
    ensures |pairs| == 1
  {
    TailApart(pairs);
    SomeMember(pairs[1..]);
    assert pairs[0] in pairs;
    assert pairs == [pairs[0]] + pairs[1..];
  }

  /**
   The matching is not the optimal assignment that the method's documentation
   names: two pairs can be matched here, and greedy matching finds one.
   */
  lemma GreedyNotOptimal()
    ensures |Chosen(GTS, PREDS, 0.6, 0)| == 1
    ensures exists m :: IsMatching(m, GTS, PREDS, 0.6, 0) && |m| == 2
  {
    hide Chosen, ComputeIou;
    var chosen := Chosen(GTS, PREDS, 0.6, 0);
    assert Expanded(GTS, 0) == GTS;
    ExampleMeasures();
    ChosenMembers(GTS, PREDS, 0.6, 0);
    NoBlockingPair(GTS, PREDS, 0.6, 0, 0, 0);
    var g :| g in chosen && (g.gt == 0 || g.pred == 0) && g.iou >= 90.0 / 100.0;
    assert g.gt == 0 && g.pred == 0;
    Alone(chosen, g);
    var m := [Pair(0, 1, 90.0 / 110.0), Pair(1, 0, 80.0 / 110.0)];
    assert IsMatching(m, GTS, PREDS, 0.6, 0);
  }

  // ---------------------------------------------------------------------- metrics

  datatype Metrics = Metrics(precision: real, recall: real, f1: real)

  function Share(part: nat, whole: nat): real {
    if whole > 0 then part as real / whole as real else 0.0
  }

  function Evaluate(truePositives: nat, falsePositives: nat, falseNegatives: nat): Metrics {
    var precision := Share(truePositives, truePositives + falsePositives);
    var recall := Share(truePositives, truePositives + falseNegatives);
    Metrics(precision, recall, if precision + recall > 0.0 then 2.0 * precision * recall / (precision + recall) else 0.0)
  }

  predicate IsPerfect(m: Metrics) { m.precision == 1.0 && m.recall == 1.0 }

  lemma ShareFacts(part: nat, whole: nat)
    requires part <= whole
    ensures 0.0 <= Share(part, whole) <= 1.0
    ensures Share(part, whole) == 1.0 <==> part == whole > 0
    ensures Share(part, whole) > 0.0 <==> part > 0
    ensures Share(part, whole) * whole as real == part as real
  {
    if whole > 0 {
      RatioBounds(part, whole);
      assert Share(part, whole) * whole as real == part as real;
    }
  }

  lemma HarmonicMean(t: real, n: real, m: real, p: real, r: real)
    requires 0.0 < t && 0.0 < n && 0.0 < m && p * m == t && r * n == t
    ensures p + r > 0.0 && 2.0 * p * r / (p + r) == 2.0 * t / (n + m)
  {
    assert p == t / m && r == t / n;
    assert p > 0.0 && r > 0.0;
    assert (p + r) * t == p * r * (n + m) by {
      assert p * t == p * (r * n) && r * t == r * (p * m);
    }
    var f := 2.0 * p * r / (p + r);
    assert f * (p + r) == 2.0 * p * r;
    assert f * (n + m) * (p + r) == 2.0 * (p * r * (n + m)) == 2.0 * t * (p + r);
    CancelFactor(f * (n + m), 2.0 * t, p + r);
  }

  lemma CancelFactor(a: real, b: real, c: real)
    requires a * c == b * c && c > 0.0
    ensures a == b
  {
    assert (a - b) * c == 0.0;
  }

  /**
   The F1 score is twice the matches over all boxes on both sides, and an evaluation
   is perfect exactly when something was matched and nothing was left over.
   */
  lemma MetricsMeaning(tp: nat, fp: nat, fn: nat)
    ensures Evaluate(tp, fp, fn).f1 == Share(2 * tp, (tp + fn) + (tp + fp))
    ensures IsPerfect(Evaluate(tp, fp, fn)) <==> tp > 0 && fp == 0 && fn == 0
  {
    ShareFacts(tp, tp + fp);
    ShareFacts(tp, tp + fn);
    if tp > 0 {
      HarmonicMean(tp as real, (tp + fn) as real, (tp + fp) as real, Share(tp, tp + fp), Share(tp, tp + fn));
    }
  }

  lemma {:induction false} UnusedSize(boxes: seq<Box>, picked: seq<nat>)
    requires Distinct(picked) && InBounds(picked, |boxes|)
    ensures |picked| + |Unused(boxes, SetOf(picked))| == |boxes|
  {
    Accounted(boxes, picked);
    AtSize(boxes, picked);
    assert |multiset(At(boxes, picked)) + multiset(Unused(boxes, SetOf(picked)))|
        == |At(boxes, picked)| + |Unused(boxes, SetOf(picked))|;
  }

  lemma {:induction false} AtSize(boxes: seq<Box>, s: seq<nat>)
    requires InBounds(s, |boxes|)
    ensures |At(boxes, s)| == |s|
  {
    if s != [] {
      AtSize(boxes, s[..|s| - 1]);
    }
  }

  /**
   The recall that is reported is at least half of the recall that any matching
   could reach, and the reported false negatives and positives are what is left of
   the two lists.
   */
  lemma RecallAtLeastHalf(gts: seq<Box>, preds: seq<Box>, threshold: real, width: int, m: seq<Pair>)
    requires IsMatching(m, gts, preds, threshold, width)
    ensures var chosen := Chosen(gts, preds, threshold, width);
      var fn, fp := |Unused(gts, Rows(chosen))|, |Unused(preds, Cols(chosen))|;
      |chosen| + fn == |gts| && |chosen| + fp == |preds|
      && Share(|m|, |gts|) <= 2.0 * Evaluate(|chosen|, fp, fn).recall
  {
    hide *;
    var chosen := Chosen(gts, preds, threshold, width);
    HalfOptimal(gts, preds, threshold, width, m);
    ChosenIndices(gts, preds, threshold, width);
    UnusedSize(gts, GtIndices(chosen));
    UnusedSize(preds, PredIndices(chosen));
    IndexSets(chosen);
    RecallStep(|m|, |chosen|, |Unused(preds, Cols(chosen))|, |Unused(gts, Rows(chosen))|);
  }

  lemma ChosenIndices(gts: seq<Box>, preds: seq<Box>, threshold: real, width: int)
    ensures var chosen := Chosen(gts, preds, threshold, width);
      Distinct(GtIndices(chosen)) && InBounds(GtIndices(chosen), |gts|)
      && Distinct(PredIndices(chosen)) && InBounds(PredIndices(chosen), |preds|)
  {
    hide Chosen;
    ChosenMembers(gts, preds, threshold, width);
    var chosen := Chosen(gts, preds, threshold, width);
    assert forall k :: 0 <= k < |chosen| ==> chosen[k] in chosen;
  }

  lemma RecallStep(rival: nat, tp: nat, fp: nat, fn: nat)
    requires rival <= 2 * tp
    ensures Share(rival, tp + fn) <= 2.0 * Evaluate(tp, fp, fn).recall
  {
    if tp + fn > 0 {
      DivideBoth(rival as real, tp as real, (tp + fn) as real);
    }
  }

  lemma DivideBoth(a: real, b: real, c: real)
    requires a <= 2.0 * b && c > 0.0
    ensures a / c <= 2.0 * (b / c)
  {
    var x, y := a / c, b / c;
    assert x * c == a && y * c == b;
    NotNegative(2.0 * y - x, c);
  }

  lemma NotNegative(x: real, c: real)
    requires x * c >= 0.0 && c > 0.0
    ensures x >= 0.0
  {
  }
}
