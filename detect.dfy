/**
 * Post-processing of the tree-crown detector's output (pipeline/detect.py,
 * the filtering part of detect_trees). The detector itself is outside the
 * model: its result is the input, `None` standing for "no result".
 *
 * A data frame of detections is a sequence of records; a boolean-mask
 * selection keeps the rows whose mask is true, in order, and the final
 * re-indexing makes a row's index its position in the sequence.
 */
module Detect {

  /** One detected crown, in the pixel space of one tile image. */
  datatype Detection = Detection(
    xmin: real, ymin: real, xmax: real, ymax: real,
    score: real, labelName: string)

  datatype Option<T> = None | Some(value: T)

  /** The defaults of detect_trees. */
  const DefaultScoreThreshold: real := 0.3
  const DefaultMinBoxPx: int := 30
  const DefaultMaxBoxPx: int := 300

  function Width(d: Detection): real { d.xmax - d.xmin }
  function Height(d: Detection): real { d.ymax - d.ymin }

  /** The confidence mask: an inclusive lower bound on the score. */
  predicate ScoreOk(d: Detection, scoreThreshold: real) {
    d.score >= scoreThreshold
  }

  /** The size mask: inclusive bounds on both the width and the height. */
  predicate SizeOk(d: Detection, minBoxPx: int, maxBoxPx: int) {
    minBoxPx as real <= Width(d) && Width(d) <= maxBoxPx as real &&
    minBoxPx as real <= Height(d) && Height(d) <= maxBoxPx as real
  }

  /** Both masks together: what a detection must satisfy to be kept. */
  predicate Kept(d: Detection, scoreThreshold: real, minBoxPx: int, maxBoxPx: int) {
    ScoreOk(d, scoreThreshold) && SizeOk(d, minBoxPx, maxBoxPx)
  }

  function ScoreMask(scoreThreshold: real): Detection -> bool {
    d => ScoreOk(d, scoreThreshold)
  }

  function SizeMask(minBoxPx: int, maxBoxPx: int): Detection -> bool {
    d => SizeOk(d, minBoxPx, maxBoxPx)
  }

  function KeptMask(scoreThreshold: real, minBoxPx: int, maxBoxPx: int): Detection -> bool {
    d => Kept(d, scoreThreshold, minBoxPx, maxBoxPx)
  }

  /**
   * The rows of `rows` whose mask is true, in their original order: every
   * selected row satisfies the mask and comes from `rows`, and every row of
   * `rows` that satisfies the mask is selected.
   */
  function Select(rows: seq<Detection>, mask: Detection -> bool): (r: seq<Detection>)
    ensures |r| <= |rows|
    ensures forall k :: 0 <= k < |r| ==> mask(r[k]) && r[k] in rows
    ensures forall i :: 0 <= i < |rows| && mask(rows[i]) ==> rows[i] in r
  {
    if rows == [] then []
    else if mask(rows[0]) then [rows[0]] + Select(rows[1..], mask)
    else Select(rows[1..], mask)
  }

  /** Adds `n` to every element. */
  function Shift(idx: seq<nat>, n: nat): seq<nat>
  {
    seq(|idx|, k requires 0 <= k < |idx| => idx[k] + n)
  }

  /**
   * The positions in `rows` of the selected rows, counted from 0 in the
   * detector's output.
   */
  function SelectedPositions(rows: seq<Detection>, mask: Detection -> bool): seq<nat>
  {
    if rows == [] then []
    else
      var rest := Shift(SelectedPositions(rows[1..], mask), 1);
      if mask(rows[0]) then [0] + rest else rest
  }

  /** The k-th selected row is the row at the k-th position. */
  lemma {:induction false} SelectedPositionsMatch(rows: seq<Detection>, mask: Detection -> bool)
    ensures var idx := SelectedPositions(rows, mask);
            |idx| == |Select(rows, mask)| &&
            forall k :: 0 <= k < |idx| ==> idx[k] < |rows| && rows[idx[k]] == Select(rows, mask)[k]
  {
    if rows != [] {
      SelectedPositionsMatch(rows[1..], mask);
      var tail := SelectedPositions(rows[1..], mask);
      var rest := Shift(tail, 1);
      var sel := Select(rows[1..], mask);
      forall k | 0 <= k < |rest|
        ensures rest[k] < |rows| && rows[rest[k]] == sel[k]
      {
        assert rows[rest[k]] == rows[1..][tail[k]];
      }
      if mask(rows[0]) {
        var idx := [0] + rest;
        forall k | 1 <= k < |idx|
          ensures idx[k] < |rows| && rows[idx[k]] == ([rows[0]] + sel)[k]
        {
          assert idx[k] == rest[k - 1];
        }
      }
    }
  }

  /** The positions of the selected rows are strictly increasing. */
  lemma {:induction false} SelectedPositionsIncreasing(rows: seq<Detection>, mask: Detection -> bool)
    ensures forall j, k :: 0 <= j < k < |SelectedPositions(rows, mask)| ==>
              SelectedPositions(rows, mask)[j] < SelectedPositions(rows, mask)[k]
  {
    if rows != [] {
      SelectedPositionsIncreasing(rows[1..], mask);
      var tail := SelectedPositions(rows[1..], mask);
      var rest := Shift(tail, 1);
      forall j, k | 0 <= j < k < |rest|
        ensures rest[j] < rest[k]
      {
        assert tail[j] < tail[k];
      }
      if mask(rows[0]) {
        var idx := [0] + rest;
        forall j, k | 0 <= j < k < |idx|
          ensures idx[j] < idx[k]
        {
          assert idx[k] == rest[k - 1];
          if j > 0 {
            assert idx[j] == rest[j - 1];
          }
        }
      }
    }
  }

  /** A position is listed exactly when its row satisfies the mask. */
  lemma {:induction false} SelectedPositionsExact(rows: seq<Detection>, mask: Detection -> bool)
    ensures forall i :: 0 <= i < |rows| ==> (i in SelectedPositions(rows, mask) <==> mask(rows[i]))
  {
    if rows != [] {
      SelectedPositionsExact(rows[1..], mask);
      var tail := SelectedPositions(rows[1..], mask);
      var rest := Shift(tail, 1);
      forall i | 1 <= i < |rows|
        ensures i in rest <==> mask(rows[i])
      {
        assert rows[1..][i - 1] == rows[i];
        if i - 1 in tail {
          var k :| 0 <= k < |tail| && tail[k] == i - 1;
          assert rest[k] == i;
        }
        if i in rest {
          var k :| 0 <= k < |rest| && rest[k] == i;
          assert tail[k] == i - 1;
        }
      }
      assert 0 !in rest;
    }
  }

  /**
   * detect_trees after inference: an absent or empty result gives no rows;
   * otherwise the score mask, then the size mask, then re-indexing. Every
   * detection returned passes both masks and comes from the result, and there
   * are never more of them than the result had.
   */
  function DetectTrees(results: Option<seq<Detection>>, scoreThreshold: real,
                       minBoxPx: int, maxBoxPx: int): (out: seq<Detection>)
    ensures results.None? ==> out == []
    ensures results.Some? ==> |out| <= |results.value|
    ensures results.Some? ==> forall k :: 0 <= k < |out| ==>
              Kept(out[k], scoreThreshold, minBoxPx, maxBoxPx) && out[k] in results.value
  {
    match results
    case None => []
    case Some(rows) =>
      if |rows| == 0 then []
      else Select(Select(rows, ScoreMask(scoreThreshold)), SizeMask(minBoxPx, maxBoxPx))
  }

  /** Applying two masks in turn selects what their conjunction selects. */
  lemma {:induction false} SelectTwice(rows: seq<Detection>, first: Detection -> bool,
                                       second: Detection -> bool, both: Detection -> bool)
    requires forall d :: both(d) == (first(d) && second(d))
    ensures Select(Select(rows, first), second) == Select(rows, both)
  {
    if rows != [] {
      SelectTwice(rows[1..], first, second, both);
    }
  }

  /** Selecting rows that all satisfy the mask changes nothing. */
  lemma {:induction false} SelectAll(rows: seq<Detection>, mask: Detection -> bool)
    requires forall k :: 0 <= k < |rows| ==> mask(rows[k])
    ensures Select(rows, mask) == rows
  {
    if rows != [] {
      SelectAll(rows[1..], mask);
    }
  }

  /** The two masks of detect_trees select exactly the detections that are kept. */
  lemma {:induction false} DetectTreesSelectsKept(rows: seq<Detection>, scoreThreshold: real,
                               minBoxPx: int, maxBoxPx: int)
    ensures DetectTrees(Some(rows), scoreThreshold, minBoxPx, maxBoxPx)
            == Select(rows, KeptMask(scoreThreshold, minBoxPx, maxBoxPx))
  {
    SelectTwice(rows, ScoreMask(scoreThreshold), SizeMask(minBoxPx, maxBoxPx),
                KeptMask(scoreThreshold, minBoxPx, maxBoxPx));
  }

  /** An empty detector result gives no detections. */
  lemma DetectTreesEmpty(scoreThreshold: real, minBoxPx: int, maxBoxPx: int)
    ensures DetectTrees(Some([]), scoreThreshold, minBoxPx, maxBoxPx) == []
  {
  }

  /**
   * Every kept detection passes the score threshold and the size bounds, and
   * every input detection that passes both is kept.
   */
  lemma DetectTreesSoundAndComplete(rows: seq<Detection>, scoreThreshold: real,
                                    minBoxPx: int, maxBoxPx: int)
    ensures var out := DetectTrees(Some(rows), scoreThreshold, minBoxPx, maxBoxPx);
            (forall k :: 0 <= k < |out| ==>
               out[k].score >= scoreThreshold &&
               minBoxPx as real <= out[k].xmax - out[k].xmin <= maxBoxPx as real &&
               minBoxPx as real <= out[k].ymax - out[k].ymin <= maxBoxPx as real) &&
            (forall i :: 0 <= i < |rows| && Kept(rows[i], scoreThreshold, minBoxPx, maxBoxPx) ==>
               rows[i] in out)
  {
  }

  /**
   * The output is an order-preserving subsequence of the input: output row k
   * is input row idx[k] for strictly increasing positions idx, which are
   * exactly the positions of the kept detections; so there are at most as
   * many output rows as input rows.
   */
  lemma {:induction false} DetectTreesSubsequence(rows: seq<Detection>, scoreThreshold: real,
                               minBoxPx: int, maxBoxPx: int)
    ensures var out := DetectTrees(Some(rows), scoreThreshold, minBoxPx, maxBoxPx);
            var idx := SelectedPositions(rows, KeptMask(scoreThreshold, minBoxPx, maxBoxPx));
            |out| == |idx| <= |rows| &&
            (forall k :: 0 <= k < |idx| ==> idx[k] < |rows| && out[k] == rows[idx[k]]) &&
            (forall j, k :: 0 <= j < k < |idx| ==> idx[j] < idx[k]) &&
            (forall i :: 0 <= i < |rows| ==>
               (i in idx <==> Kept(rows[i], scoreThreshold, minBoxPx, maxBoxPx)))
  {
    DetectTreesSelectsKept(rows, scoreThreshold, minBoxPx, maxBoxPx);
    SelectedPositionsMatch(rows, KeptMask(scoreThreshold, minBoxPx, maxBoxPx));
    SelectedPositionsIncreasing(rows, KeptMask(scoreThreshold, minBoxPx, maxBoxPx));
    SelectedPositionsExact(rows, KeptMask(scoreThreshold, minBoxPx, maxBoxPx));
  }

  /** Filtering the filtered detections again with the same settings changes nothing. */
  lemma {:induction false} DetectTreesIdempotent(rows: seq<Detection>, scoreThreshold: real,
                              minBoxPx: int, maxBoxPx: int)
    ensures var out := DetectTrees(Some(rows), scoreThreshold, minBoxPx, maxBoxPx);
            DetectTrees(Some(out), scoreThreshold, minBoxPx, maxBoxPx) == out
  {
    var out := DetectTrees(Some(rows), scoreThreshold, minBoxPx, maxBoxPx);
    DetectTreesSelectsKept(rows, scoreThreshold, minBoxPx, maxBoxPx);
    DetectTreesSelectsKept(out, scoreThreshold, minBoxPx, maxBoxPx);
    SelectAll(out, KeptMask(scoreThreshold, minBoxPx, maxBoxPx));
  }

  /**
   * The size bounds are inclusive: a single detection whose width equals the
   * minimum (and which otherwise passes) is kept, and one a pixel narrower is
   * dropped.
   */
  lemma SizeBoundsInclusive(d: Detection, scoreThreshold: real, minBoxPx: int, maxBoxPx: int)
    requires d.score >= scoreThreshold
    requires minBoxPx <= maxBoxPx
    requires minBoxPx as real <= Height(d) <= maxBoxPx as real
    ensures Width(d) == minBoxPx as real ==>
              DetectTrees(Some([d]), scoreThreshold, minBoxPx, maxBoxPx) == [d]
    ensures Width(d) == (minBoxPx - 1) as real ==>
              DetectTrees(Some([d]), scoreThreshold, minBoxPx, maxBoxPx) == []
  {
  }

  /**
   * At the default settings (score 0.3, boxes of 30 to 300 px) a confident
   * box exactly 30 px wide is kept and one 29 px wide is dropped.
   */
  lemma DefaultSizeBounds(d: Detection)
    requires d.score >= DefaultScoreThreshold
    requires DefaultMinBoxPx as real <= Height(d) <= DefaultMaxBoxPx as real
    ensures Width(d) == 30.0 ==>
              DetectTrees(Some([d]), DefaultScoreThreshold, DefaultMinBoxPx, DefaultMaxBoxPx) == [d]
    ensures Width(d) == 29.0 ==>
              DetectTrees(Some([d]), DefaultScoreThreshold, DefaultMinBoxPx, DefaultMaxBoxPx) == []
  {
  }
}
