/** Matching predicted boxes to ground truth by descending overlap, and how good that is. */
module Matching {
  import opened Boxes
  import opened StableSort

  /** A ground-truth index, a prediction index and their measure. */
  datatype Pair = Pair(gt: nat, pred: nat, iou: real)

  function ByIou(): Pair -> real { (p: Pair) => p.iou }

  /** The boxes that are compared: ground truth is widened by a positive margin. */
  function Expanded(gts: seq<Box>, width: int): (r: seq<Box>)
    ensures |r| == |gts|
  {
    if width > 0 then seq(|gts|, i requires 0 <= i < |gts| => ExpandBox(gts[i], width)) else gts
  }

  /** All pairs, row by row. */
  function Flat(gts: seq<Box>, preds: seq<Box>): seq<Pair> {
    if gts == [] then []
    else Flat(gts[..|gts| - 1], preds) + Row(|gts| - 1, gts[|gts| - 1], preds)
  }

  function Row(i: nat, gt: Box, preds: seq<Box>): (r: seq<Pair>)
    ensures |r| == |preds| && forall j :: 0 <= j < |r| ==> r[j] == Pair(i, j, ComputeIou(gt, preds[j]))
  {
    seq(|preds|, j requires 0 <= j < |preds| => Pair(i, j, ComputeIou(gt, preds[j])))
  }

  /** The pairs taken from a list, where some rows and columns are already used. */
  function Greedy(flat: seq<Pair>, threshold: real, rows: set<nat>, cols: set<nat>): seq<Pair> {
    if flat == [] then []
    else
      var p := flat[0];
      if p.gt !in rows && p.pred !in cols && p.iou >= threshold
      then [p] + Greedy(flat[1..], threshold, rows + {p.gt}, cols + {p.pred})
      else Greedy(flat[1..], threshold, rows, cols)
  }

  /** The pairs that the matcher chooses. */
  function Chosen(gts: seq<Box>, preds: seq<Box>, threshold: real, width: int): seq<Pair> {
    Greedy(Descending(Flat(Expanded(gts, width), preds), ByIou()), threshold, {}, {})
  }

  function Rows(pairs: seq<Pair>): set<nat> { set p | p in pairs :: p.gt }

  function Cols(pairs: seq<Pair>): set<nat> { set p | p in pairs :: p.pred }

  datatype Match = Match(gt: Box, pred: Box, iou: real)

  predicate InRange(pairs: seq<Pair>, gts: seq<Box>, preds: seq<Box>) {
    forall p :: p in pairs ==> p.gt < |gts| && p.pred < |preds|
  }

  function BoxesOf(pairs: seq<Pair>, gts: seq<Box>, preds: seq<Box>): (r: seq<Match>)
    requires InRange(pairs, gts, preds)
    ensures |r| == |pairs|
    ensures forall k :: 0 <= k < |r| ==> r[k] == Match(gts[pairs[k].gt], preds[pairs[k].pred], pairs[k].iou)
  {
    seq(|pairs|, k requires 0 <= k < |pairs| && InRange(pairs, gts, preds) =>
      assert pairs[k] in pairs; Match(gts[pairs[k].gt], preds[pairs[k].pred], pairs[k].iou))
  }

  /** The boxes whose index is not in `used`, in order. */
  function Unused(boxes: seq<Box>, used: set<nat>): seq<Box> {
    if boxes == [] then []
    else Unused(boxes[..|boxes| - 1], used) + (if |boxes| - 1 in used then [] else [boxes[|boxes| - 1]])
  }

  // -------------------------------------------------------------------- the lists

  lemma {:induction false} FlatMembers(gts: seq<Box>, preds: seq<Box>, p: Pair)
    ensures p in Flat(gts, preds) <==>
      p.gt < |gts| && p.pred < |preds| && p.iou == ComputeIou(gts[p.gt], preds[p.pred])
  {
    if gts != [] {
      var n := |gts| - 1;
      FlatMembers(gts[..n], preds, p);
      var row := Row(n, gts[n], preds);
      if p.gt == n && p.pred < |preds| {
        assert row[p.pred] in row;
      }
      assert p in row <==> p.gt == n && p.pred < |preds| && p.iou == ComputeIou(gts[n], preds[p.pred]);
    }
  }

  lemma {:induction false} GreedyMembers(flat: seq<Pair>, threshold: real, rows: set<nat>, cols: set<nat>)
    ensures forall p :: p in Greedy(flat, threshold, rows, cols) ==>
      p in flat && p.iou >= threshold && p.gt !in rows && p.pred !in cols
    ensures OneToOne(Greedy(flat, threshold, rows, cols))
  {
    if flat != [] {
      var p := flat[0];
      if p.gt !in rows && p.pred !in cols && p.iou >= threshold {
        GreedyMembers(flat[1..], threshold, rows + {p.gt}, cols + {p.pred});
      } else {
        GreedyMembers(flat[1..], threshold, rows, cols);
      }
    }
  }

  /** No row and no column is used twice. */
  ghost predicate OneToOne(pairs: seq<Pair>) {
    forall i, j :: 0 <= i < j < |pairs| ==> pairs[i].gt != pairs[j].gt && pairs[i].pred != pairs[j].pred
  }

  lemma SortedMembers(flat: seq<Pair>, p: Pair)
    ensures p in Descending(flat, ByIou()) <==> p in flat
  {
    Sorts(flat, ByIou());
    assert p in Descending(flat, ByIou()) <==> p in multiset(Descending(flat, ByIou()));
    assert p in flat <==> p in multiset(flat);
  }

  /** Every chosen pair holds two boxes and their measure, at or above the threshold. */
  lemma ChosenMembers(gts: seq<Box>, preds: seq<Box>, threshold: real, width: int)
    ensures OneToOne(Chosen(gts, preds, threshold, width)) && InRange(Chosen(gts, preds, threshold, width), gts, preds)
    ensures forall p :: p in Chosen(gts, preds, threshold, width) ==>
      p.gt < |gts| && p.pred < |preds|
      && p.iou == ComputeIou(Expanded(gts, width)[p.gt], preds[p.pred]) >= threshold
  {
    var flat := Flat(Expanded(gts, width), preds);
    GreedyMembers(Descending(flat, ByIou()), threshold, {}, {});
    forall p | p in Chosen(gts, preds, threshold, width)
      ensures p.gt < |gts| && p.pred < |preds| && p.iou == ComputeIou(Expanded(gts, width)[p.gt], preds[p.pred]) >= threshold
    {
      SortedMembers(flat, p);
      FlatMembers(Expanded(gts, width), preds, p);
    }
  }

  // ----------------------------------------------------------------- the algorithm

  /** Fills the matrix of measures. */
  method FillMatrix(gts: seq<Box>, preds: seq<Box>) returns (matrix: array2<real>)
    ensures matrix.Length0 == |gts| && matrix.Length1 == |preds|
    ensures forall i, j :: 0 <= i < |gts| && 0 <= j < |preds| ==> matrix[i, j] == ComputeIou(gts[i], preds[j])
  {
    matrix := new real[|gts|, |preds|];
    for i := 0 to |gts|
      invariant forall a, b :: 0 <= a < i && 0 <= b < |preds| ==> matrix[a, b] == ComputeIou(gts[a], preds[b])
    {
      for j := 0 to |preds|
        invariant forall a, b :: 0 <= a < i && 0 <= b < |preds| ==> matrix[a, b] == ComputeIou(gts[a], preds[b])
        invariant forall b :: 0 <= b < j ==> matrix[i, b] == ComputeIou(gts[i], preds[b])
      {
        matrix[i, j] := ComputeIou(gts[i], preds[j]);
      }
    }
  }

  /** Lists the matrix row by row. */
  method Flatten(gts: seq<Box>, preds: seq<Box>, matrix: array2<real>) returns (flat: seq<Pair>)
    requires matrix.Length0 == |gts| && matrix.Length1 == |preds|
    requires forall i, j :: 0 <= i < |gts| && 0 <= j < |preds| ==> matrix[i, j] == ComputeIou(gts[i], preds[j])
    ensures flat == Flat(gts, preds)
  {
    flat := [];
    for i := 0 to |gts|
      invariant flat == Flat(gts[..i], preds)
    {
      var row: seq<Pair> := [];
      for j := 0 to |preds|
        invariant row == Row(i, gts[i], preds)[..j]
      {
        row := row + [Pair(i, j, matrix[i, j])];
      }
      assert gts[..i + 1][..i] == gts[..i];
      flat := flat + row;
    }
    assert gts[..|gts|] == gts;
  }

  /** Goes through the sorted list once and takes every pair that is still free and good enough. */
  method TakeGreedily(flat: seq<Pair>, threshold: real, gts: seq<Box>, preds: seq<Box>)
    returns (matches: seq<Match>, rows: set<nat>, cols: set<nat>)
    requires InRange(flat, gts, preds)
    ensures var chosen := Greedy(flat, threshold, {}, {});
      InRange(chosen, gts, preds) && matches == BoxesOf(chosen, gts, preds) && rows == Rows(chosen) && cols == Cols(chosen)
  {
    hide BoxesOf, Rows, Cols;
    ghost var chosen := Greedy(flat, threshold, {}, {});
    ghost var pairs: seq<Pair> := [];
    rows, cols, matches := {}, {}, [];
    NoBoxes(gts, preds);
    assert flat[0..] == flat;
    for n := 0 to |flat|
      invariant rows == Rows(pairs) && cols == Cols(pairs)
      invariant pairs + Greedy(flat[n..], threshold, rows, cols) == chosen
      invariant InRange(pairs, gts, preds) && matches == BoxesOf(pairs, gts, preds)
    {
      var p := flat[n];
      assert flat[n..][1..] == flat[n + 1..] && p in flat;
      if p.gt !in rows && p.pred !in cols && p.iou >= threshold {
        ghost var rest := Greedy(flat[n + 1..], threshold, rows + {p.gt}, cols + {p.pred});
        assert chosen == (pairs + [p]) + rest;
        RowsAppend(pairs, p);
        BoxesAppend(pairs, p, gts, preds);
        matches := matches + [Match(gts[p.gt], preds[p.pred], p.iou)];
        pairs := pairs + [p];
        rows := rows + {p.gt};
        cols := cols + {p.pred};
      }
    }
    assert pairs + [] == pairs;
  }

  lemma NoBoxes(gts: seq<Box>, preds: seq<Box>)
    ensures BoxesOf([], gts, preds) == [] && Rows([]) == {} && Cols([]) == {}
  {
  }

  lemma BoxesAppend(pairs: seq<Pair>, p: Pair, gts: seq<Box>, preds: seq<Box>)
    requires InRange(pairs, gts, preds) && p.gt < |gts| && p.pred < |preds|
    ensures InRange(pairs + [p], gts, preds)
    ensures BoxesOf(pairs + [p], gts, preds) == BoxesOf(pairs, gts, preds) + [Match(gts[p.gt], preds[p.pred], p.iou)]
  {
  }

  lemma FlatInRange(gts: seq<Box>, preds: seq<Box>, width: int)
    ensures InRange(Descending(Flat(Expanded(gts, width), preds), ByIou()), gts, preds)
  {
    var flat := Flat(Expanded(gts, width), preds);
    forall p | p in Descending(flat, ByIou()) ensures p.gt < |gts| && p.pred < |preds| {
      SortedMembers(flat, p);
      FlatMembers(Expanded(gts, width), preds, p);
    }
  }

  method MatchBoxes(gts: seq<Box>, preds: seq<Box>, threshold: real, width: int)
    returns (matches: seq<Match>, unmatchedGt: seq<Box>, unmatchedPred: seq<Box>)
    ensures var chosen := Chosen(gts, preds, threshold, width);
      InRange(chosen, gts, preds) && matches == BoxesOf(chosen, gts, preds)
      && unmatchedGt == Unused(gts, Rows(chosen)) && unmatchedPred == Unused(preds, Cols(chosen))
  {
    if gts == [] || preds == [] {
      NoPairs(gts, preds, threshold, width);
      NoBoxes(gts, preds);
      AllUnused(gts);
      AllUnused(preds);
      return [], gts, preds;
    }
    var expanded := Expanded(gts, width);
    var matrix := FillMatrix(expanded, preds);
    var flat := Flatten(expanded, preds, matrix);
    FlatInRange(gts, preds, width);
    var rows, cols;
    matches, rows, cols := TakeGreedily(Descending(flat, ByIou()), threshold, gts, preds);
    unmatchedGt := KeepUnused(gts, rows);
    unmatchedPred := KeepUnused(preds, cols);
  }

  lemma RowsAppend(pairs: seq<Pair>, p: Pair)
    ensures Rows(pairs + [p]) == Rows(pairs) + {p.gt} && Cols(pairs + [p]) == Cols(pairs) + {p.pred}
  {
    assert forall q :: q in pairs + [p] <==> q in pairs || q == p;
  }

  method KeepUnused(boxes: seq<Box>, used: set<nat>) returns (kept: seq<Box>)
    ensures kept == Unused(boxes, used)
  {
    kept := [];
    for i := 0 to |boxes|
      invariant kept == Unused(boxes[..i], used)
    {
      assert boxes[..i + 1][..i] == boxes[..i];
      if i !in used {
        kept := kept + [boxes[i]];
      }
    }
    assert boxes[..|boxes|] == boxes;
  }

  lemma {:induction false} NoColumns(gts: seq<Box>)
    ensures Flat(gts, []) == []
  {
    if gts != [] {
      NoColumns(gts[..|gts| - 1]);
    }
  }

  lemma NoPairs(gts: seq<Box>, preds: seq<Box>, threshold: real, width: int)
    requires gts == [] || preds == []
    ensures Chosen(gts, preds, threshold, width) == []
  {
    NoColumns(Expanded(gts, width));
  }

  lemma {:induction false} AllUnused(boxes: seq<Box>)
    ensures Unused(boxes, {}) == boxes
  {
    if boxes != [] {
      AllUnused(boxes[..|boxes| - 1]);
    }
  }
}
