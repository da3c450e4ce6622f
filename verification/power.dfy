/** dexpy/power.py: the adjustment of a term's non-centrality parameter to the
    range of its model-matrix column. The F-distribution power computation in
    the same file is not part of this model. */
module Power {

  /** `always_positive(x_col)`: `numpy.all(x_col >= 0)`, so zero counts as
      positive and an empty column qualifies. */
  function AlwaysPositive(col: seq<real>): (r: bool)
    ensures r <==> forall i :: 0 <= i < |col| ==> col[i] >= 0.0
  {
    if |col| == 0 then true else col[0] >= 0.0 && AlwaysPositive(col[1..])
  }

  /** `adjust_non_centrality(nc, x_col)`: a column that never goes negative
      spans 0 to 1 rather than −1 to 1, so its non-centrality is quadrupled;
      any negative entry leaves it as it is. */
  function AdjustNonCentrality(nc: real, col: seq<real>): (r: real)
    ensures (forall i :: 0 <= i < |col| ==> col[i] >= 0.0) ==> r == 4.0 * nc
    ensures (exists i :: 0 <= i < |col| && col[i] < 0.0) ==> r == nc
  {
    if AlwaysPositive(col) then nc * 4.0 else nc
  }

  /** The column of a squared coded factor is never negative, so its
      non-centrality is always quadrupled. */
  lemma SquaredColumnQuadrupled(nc: real, x: seq<real>)
    ensures AdjustNonCentrality(nc, seq(|x|, i requires 0 <= i < |x| => x[i] * x[i])) == 4.0 * nc
  {
    var col := seq(|x|, i requires 0 <= i < |x| => x[i] * x[i]);
    forall i | 0 <= i < |col|
      ensures col[i] >= 0.0
    {
      SquareNonNegative(x[i]);
    }
  }

  lemma SquareNonNegative(y: real)
    ensures y * y >= 0.0
  {
  }

  /** A two-level factor's column, holding −1 somewhere, is left alone; an
      empty column counts as positive. */
  lemma AdjustNonCentralityEdges(nc: real, col: seq<real>)
    requires -1.0 in col
    ensures AdjustNonCentrality(nc, col) == nc
    ensures AdjustNonCentrality(nc, []) == 4.0 * nc
  {
  }
}
