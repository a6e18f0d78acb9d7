/** What the matching compares, in which order, what it takes, and the scores it reports. */
module MatchRules {
  import opened Boxes
  import opened StableSort
  import opened Matching
  import opened MatchQuality
  import opened Sublists

  // ------------------------------------------------------------------ what is compared

  ghost predicate Within(p: (int, int), q: (int, int), d: int) {
    -d <= p.0 - q.0 <= d && -d <= p.1 - q.1 <= d
  }

  function Clamp(x: int, low: int, high: int): int { if x < low then low else if x > high then high else x }

  /**
   With a positive margin a ground-truth box stands for all pixels at most that far from
   one of its own, otherwise for itself.
   */
  lemma ExpandedExactly(gts: seq<Box>, width: int, i: nat, p: (int, int))
    requires i < |gts| && Pixels(gts[i]) != {}
    ensures p in Pixels(Expanded(gts, width)[i])
            <==> exists q :: q in Pixels(gts[i]) && Within(p, q, if width > 0 then width else 0)
  {
    var b, d := gts[i], if width > 0 then width else 0;
    var inside :| inside in Pixels(b);
    if p in Pixels(Expanded(gts, width)[i]) {
      var q := (Clamp(p.0, b.x1, b.x2 - 1), Clamp(p.1, b.y1, b.y2 - 1));
      assert q in Pixels(b) && Within(p, q, d);
    }
  }

  lemma {:induction false} FlatAt(gts: seq<Box>, preds: seq<Box>, i: nat, j: nat)
    requires i < |gts| && j < |preds|
    ensures var k := i * |preds| + j;
      k < |Flat(gts, preds)| == |gts| * |preds| && Flat(gts, preds)[k] == Pair(i, j, ComputeIou(gts[i], preds[j]))
  {
    hide ComputeIou;
    var n := |gts| - 1;
    FlatSize(gts[..n], preds);
    assert |gts| * |preds| == n * |preds| + |preds|;
    if i < n {
      FlatAt(gts[..n], preds, i, j);
    }
  }

  lemma {:induction false} FlatSize(gts: seq<Box>, preds: seq<Box>)
    ensures |Flat(gts, preds)| == |gts| * |preds|
  {
    if gts != [] {
      var n := |gts| - 1;
      FlatSize(gts[..n], preds);
      assert |gts| * |preds| == n * |preds| + |preds|;
    }
  }

  // ---------------------------------------------------------------------- what is taken

  /** The pair at position `k` reaches the threshold and meets no pair chosen before it. */
  ghost predicate Takes(flat: seq<Pair>, threshold: real, rows: set<nat>, cols: set<nat>, chosen: set<nat>, k: nat)
    requires k < |flat|
  {
    flat[k].iou >= threshold && flat[k].gt !in rows && flat[k].pred !in cols
    && forall n :: n in chosen && n < k ==> flat[n].gt != flat[k].gt && flat[n].pred != flat[k].pred
  }

  lemma {:induction false} GreedyPicks(flat: seq<Pair>, threshold: real, rows: set<nat>, cols: set<nat>) returns (chosen: set<nat>)
    ensures Picks(Greedy(flat, threshold, rows, cols), flat, chosen)
    ensures forall k: nat :: k < |flat| ==> (k in chosen <==> Takes(flat, threshold, rows, cols, chosen, k))
  {
    hide Picks;
    if flat == [] {
      PicksNone(flat);
      chosen := {};
    } else {
      var p, tail := flat[0], flat[1..];
      var takes := p.gt !in rows && p.pred !in cols && p.iou >= threshold;
      var moreRows, moreCols := if takes then rows + {p.gt} else rows, if takes then cols + {p.pred} else cols;
      var rest := GreedyPicks(tail, threshold, moreRows, moreCols);
      chosen := (if takes then {0} else {}) + (set k | k in rest :: k + 1);
      var taken := Greedy(tail, threshold, moreRows, moreCols);
      assert Greedy(flat, threshold, rows, cols) == (if takes then [p] else []) + taken;
      hide Greedy;
      assert forall k: nat :: k > 0 ==> (k in chosen <==> k - 1 in rest);
      PicksCons(taken, tail, rest, p, takes, chosen);
      assert flat == [p] + tail;
      forall k: nat | k < |flat| ensures k in chosen <==> Takes(flat, threshold, rows, cols, chosen, k) {
        if k > 0 {
          TakesStep(flat, threshold, rows, cols, rest, chosen, takes, k);
        }
      }
    }
  }

  lemma TakesStep(flat: seq<Pair>, threshold: real, rows: set<nat>, cols: set<nat>, rest: set<nat>, chosen: set<nat>, takes: bool, k: nat)
    requires 0 < k < |flat|
    requires (0 in chosen <==> takes) && forall m: nat :: m > 0 ==> (m in chosen <==> m - 1 in rest)
    ensures var tail := flat[1..];
      var moreRows, moreCols := if takes then rows + {flat[0].gt} else rows, if takes then cols + {flat[0].pred} else cols;
      Takes(tail, threshold, moreRows, moreCols, rest, k - 1) <==> Takes(flat, threshold, rows, cols, chosen, k)
  {
    var tail := flat[1..];
    var moreRows, moreCols := if takes then rows + {flat[0].gt} else rows, if takes then cols + {flat[0].pred} else cols;
    if Takes(tail, threshold, moreRows, moreCols, rest, k - 1) {
      forall n | n in chosen && n < k ensures flat[n].gt != flat[k].gt && flat[n].pred != flat[k].pred {
        assert n > 0 ==> n - 1 in rest && tail[n - 1] == flat[n];
      }
    }
    if Takes(flat, threshold, rows, cols, chosen, k) {
      forall n | n in rest && n < k - 1 ensures tail[n].gt != tail[k - 1].gt && tail[n].pred != tail[k - 1].pred {
        assert n + 1 in chosen && flat[n + 1] == tail[n];
      }
    }
  }

  /**
   The choice, with no reference to how it is made: the pairs stand in descending order
   of their measure, equal ones row by row, and a pair is chosen exactly when it reaches
   the threshold and no pair chosen before it has its row or its column.
   */
  lemma ChosenExactly(gts: seq<Box>, preds: seq<Box>, threshold: real, width: int) returns (sorted: seq<Pair>, chosen: set<nat>)
    ensures var flat := Flat(Expanded(gts, width), preds);
      multiset(sorted) == multiset(flat) && IsDescending(sorted, ByIou())
      && forall k :: WithKey(sorted, ByIou(), k) == WithKey(flat, ByIou(), k)
    ensures Picks(Chosen(gts, preds, threshold, width), sorted, chosen)
    ensures forall k: nat :: k < |sorted| ==> (k in chosen <==> Takes(sorted, threshold, {}, {}, chosen, k))
  {
    hide Flat, Expanded, Takes, Greedy, Descending, ByIou, WithKey, Picks;
    var flat := Flat(Expanded(gts, width), preds);
    Sorts(flat, ByIou());
    forall k ensures WithKey(Descending(flat, ByIou()), ByIou(), k) == WithKey(flat, ByIou(), k) {
      Stable(flat, ByIou(), k);
    }
    sorted := Descending(flat, ByIou());
    chosen := GreedyPicks(sorted, threshold, {}, {});
  }

  /** The boxes left over are those at the other positions, in their order. */
  lemma {:induction false} UnusedPicks(boxes: seq<Box>, used: set<nat>)
    ensures Picks(Unused(boxes, used), boxes, set p: nat | p < |boxes| && p !in used)
  {
    hide Picks;
    if boxes == [] {
      PicksNone(boxes);
      assert (set p: nat | p < |boxes| && p !in used) == {};
    } else {
      var n := |boxes| - 1;
      UnusedPicks(boxes[..n], used);
      var before := set p: nat | p < n && p !in used;
      PicksSnoc(Unused(boxes[..n], used), boxes[..n], before, boxes[n], n !in used);
      assert boxes == boxes[..n] + [boxes[n]];
      assert (set p: nat | p < |boxes| && p !in used) == before + (if n !in used then {n} else {});
    }
  }

  // -------------------------------------------------------------------------- the scores

  /**
   Precision is the share of the predictions that were matched and recall that of the
   ground truth; a share of nothing is zero.
   */
  lemma ScoresExactly(gts: seq<Box>, preds: seq<Box>, threshold: real, width: int)
    ensures var chosen := Chosen(gts, preds, threshold, width);
      var m := Evaluate(|chosen|, |Unused(preds, Cols(chosen))|, |Unused(gts, Rows(chosen))|);
      m.precision * |preds| as real == |chosen| as real && m.recall * |gts| as real == |chosen| as real
      && (preds == [] ==> m.precision == 0.0) && (gts == [] ==> m.recall == 0.0)
  {
    hide Chosen, Unused, Rows, Cols;
    var chosen := Chosen(gts, preds, threshold, width);
    ChosenIndices(gts, preds, threshold, width);
    UnusedSize(gts, GtIndices(chosen));
    UnusedSize(preds, PredIndices(chosen));
    IndexSets(chosen);
    ShareFacts(|chosen|, |preds|);
    ShareFacts(|chosen|, |gts|);
  }
}
