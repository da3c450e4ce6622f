/** dexpy/cox_effects.py: points along the Cox effect direction of a mixture.
    The chosen component is moved to each new location and the remaining
    components keep their ratios to one another, taking up what is left. */
module CoxEffects {
  import opened Common

  /** `numpy.linspace(0, 1, num)` over exact reals: `num` equally spaced values
      from 0 to 1 inclusive; a single sample is 0, a negative count raises. */
  function Linspace(num: int): (r: Result<seq<real>>)
    ensures r.Ok? <==> num >= 0
    ensures r.Ok? ==> |r.value| == num
    ensures r.Ok? && num >= 1 ==> r.value[0] == 0.0
    ensures r.Ok? && num >= 2 ==> r.value[num - 1] == 1.0
    ensures r.Ok? ==> forall i :: 0 <= i < |r.value| ==> 0.0 <= r.value[i] <= 1.0
  {
    if num < 0 then Err(NegativeSampleCount)
    else if num == 1 then Ok([0.0])
    else
      var samples := seq(num, i requires 0 <= i < num => i as real / (num - 1) as real);
      assert forall i :: 0 <= i < num ==> samples[i] <= 1.0 by {
        forall i | 0 <= i < num
          ensures samples[i] <= 1.0
        {
          FractionAtMostOne(i, num - 1);
        }
      }
      Ok(samples)
  }

  lemma FractionAtMostOne(i: nat, d: nat)
    requires i <= d && d > 0
    ensures i as real / d as real <= 1.0
  {
  }

  /** The samples are equally spaced: consecutive values differ by 1/(num−1). */
  lemma LinspaceEquallySpaced(num: int, i: nat)
    requires num >= 2 && i + 1 < num
    ensures Linspace(num).value[i + 1] - Linspace(num).value[i] == 1.0 / (num - 1) as real
  {
  }

  /** Entry j of the point that moves component c of `point` to `nl`. A pure
      blend (component c already at 1) spreads the change evenly over the other
      components; otherwise each other component changes by its share of what
      is left. */
  function CoxEntry(point: seq<real>, c: nat, nl: real, j: nat): real
    requires c < |point| && j < |point|
  {
    if j == c then nl
    else
      if point[c] == 1.0 then EvenShare(point[c], nl, |point| - 1)
      else ProportionalShare(point[j], point[c], nl)
  }

  /** A pure blend's other components each take an equal part of the change
      −(nl − x_c) of component c. */
  function EvenShare(xc: real, nl: real, others: nat): real
    requires others > 0
  {
    -(nl - xc) / others as real
  }

  /** Component x_j of a non-pure blend gives up its proportional part of the
      change of component c: x_j − (nl − x_c)·x_j / (1 − x_c). */
  function ProportionalShare(xj: real, xc: real, nl: real): real
    requires xc != 1.0
  {
    xj - ((nl - xc) * xj) / (1.0 - xc)
  }

  /** One row of `cox_points`: `point` moved along the Cox direction of
      component c until that component reaches `nl`. */
  function CoxRow(point: seq<real>, c: nat, nl: real): (row: seq<real>)
    requires c < |point|
    ensures |row| == |point|
    ensures row[c] == nl
  {
    seq(|point|, j requires 0 <= j < |point| => CoxEntry(point, c, nl, j))
  }

  /** `generate_cox_points(point, coordinate, n_points, new_locs)`. Without
      explicit locations the component is moved to `n_points + 1` equally
      spaced values in [0, 1]. With no locations at all no index is read and
      the result is empty; otherwise an out-of-range coordinate raises. */
  function GenerateCoxPoints(point: seq<real>, coordinate: nat, nPoints: int, newLocs: Option<seq<real>>)
    : (r: Result<seq<seq<real>>>)
    ensures newLocs.None? && nPoints < -1 ==> r == Err(NegativeSampleCount)
    ensures newLocs.None? ==> (r.Ok? <==> nPoints == -1 || (nPoints >= 0 && coordinate < |point|))
    ensures newLocs.None? && r.Ok? ==> |r.value| == nPoints + 1
    ensures r.Ok? ==> forall i :: 0 <= i < |r.value| ==> |r.value[i]| == |point|
    ensures r.Ok? && newLocs.Some? ==> |r.value| == |newLocs.value|
    ensures newLocs.Some? ==> (r.Ok? <==> |newLocs.value| == 0 || coordinate < |point|)
    ensures r.Ok? && newLocs.Some? ==>
      forall i :: 0 <= i < |r.value| ==> r.value[i] == CoxRow(point, coordinate, newLocs.value[i])
  {
    var locs :- match newLocs
      case None => Linspace(nPoints + 1)
      case Some(given) => Ok(given);
    if |locs| == 0 then Ok([])
    else if coordinate >= |point| then Err(IndexOutOfRange)
    else Ok(seq(|locs|, i requires 0 <= i < |locs| => CoxRow(point, coordinate, locs[i])))
  }

  /** The Cox direction of a non-pure point: every other component is scaled
      by the same factor (1 − nl)/(1 − x_c), so the ratios among the other
      components are kept. */
  lemma CoxKeepsRatios(point: seq<real>, c: nat, nl: real, j: nat)
    requires c < |point| && j < |point| && j != c && point[c] != 1.0
    ensures CoxRow(point, c, nl)[j] == ((1.0 - nl) / (1.0 - point[c])) * point[j]
  {
    ScaleByRemainder(point[j], point[c], nl);
  }

  /** A component absent from a non-pure point stays absent along its Cox
      direction. */
  lemma CoxKeepsZeros(point: seq<real>, c: nat, nl: real, j: nat)
    requires c < |point| && j < |point| && j != c && point[c] != 1.0 && point[j] == 0.0
    ensures CoxRow(point, c, nl)[j] == 0.0
  {
    CoxKeepsRatios(point, c, nl, j);
    ZeroTimes((1.0 - nl) / (1.0 - point[c]));
  }

  lemma ZeroTimes(k: real)
    ensures k * 0.0 == 0.0
  {
  }

  lemma ScaleByRemainder(x: real, y: real, nl: real)
    requires y != 1.0
    ensures ProportionalShare(x, y, nl) == ((1.0 - nl) / (1.0 - y)) * x
  {
    var d := 1.0 - y;
    assert x == x * d / d;
    assert x - ((nl - y) * x) / d == (x * d - (nl - y) * x) / d;
    assert x * d - (nl - y) * x == x * (1.0 - nl);
  }

  /** From a pure blend of component c every other component gets an equal
      share of what component c gives up. */
  lemma CoxFromPureBlend(point: seq<real>, c: nat, nl: real, j: nat)
    requires c < |point| && j < |point| && j != c && point[c] == 1.0
    ensures CoxRow(point, c, nl)[j] == (1.0 - nl) / (|point| - 1) as real
  {
    EvenShareOfPureBlend(nl, |point| - 1);
  }

  lemma EvenShareOfPureBlend(nl: real, others: nat)
    requires others > 0
    ensures EvenShare(1.0, nl, others) == (1.0 - nl) / others as real
  {
  }

  /** Moving component c to where it already is leaves a mixture unchanged:
      the direction passes through the point. */
  lemma CoxRowThroughPoint(point: seq<real>, c: nat)
    requires c < |point|
    requires point[c] != 1.0 || IsMixture(point)
    ensures CoxRow(point, c, point[c]) == point
  {
    var row := CoxRow(point, c, point[c]);
    forall j | 0 <= j < |point|
      ensures row[j] == point[j]
    {
      if j != c && point[c] == 1.0 {
        PairBelowSum(point, c, j);
      }
    }
  }

  /** Every point along the direction keeps the components summing to 1. */
  lemma CoxRowKeepsSum(point: seq<real>, c: nat, nl: real)
    requires c < |point| && |point| >= 2 && Sum(point) == 1.0
    ensures Sum(CoxRow(point, c, nl)) == 1.0
  {
    if point[c] == 1.0 {
      PureBlendRowSum(point, c, nl);
    } else {
      MixedRowSum(point, c, nl);
    }
  }

  lemma PureBlendRowSum(point: seq<real>, c: nat, nl: real)
    requires c < |point| && |point| >= 2 && point[c] == 1.0
    ensures Sum(CoxRow(point, c, nl)) == 1.0
  {
    var row := CoxRow(point, c, nl);
    var q := |point|;
    var share := (1.0 - nl) / (q - 1) as real;
    forall j | 0 <= j < q && j != c
      ensures row[j] == share
    {
      CoxFromPureBlend(point, c, nl, j);
    }
    SumConstantOutside(row, c, share);
    CancelDivision((q - 1) as real, 1.0 - nl);
  }

  lemma MixedRowSum(point: seq<real>, c: nat, nl: real)
    requires c < |point| && Sum(point) == 1.0 && point[c] != 1.0
    ensures Sum(CoxRow(point, c, nl)) == 1.0
  {
    var k := ScaleFactor(point[c], nl);
    ScaledOutsideCoordinate(point, c, nl, k);
    SumScaledOutside(point, CoxRow(point, c, nl), c, k);
    ScaledRemainder(Sum(CoxRow(point, c, nl)), nl, point[c], k);
  }

  /** The factor (1 − nl)/(1 − x_c) by which the other components of a
      non-pure point are scaled. */
  function ScaleFactor(xc: real, nl: real): real
    requires xc != 1.0
  {
    (1.0 - nl) / (1.0 - xc)
  }

  lemma ScaledOutsideCoordinate(point: seq<real>, c: nat, nl: real, k: real)
    requires c < |point| && point[c] != 1.0 && k == ScaleFactor(point[c], nl)
    ensures forall j :: 0 <= j < |point| && j != c ==> CoxRow(point, c, nl)[j] == k * point[j]
  {
    forall j | 0 <= j < |point| && j != c
      ensures CoxRow(point, c, nl)[j] == k * point[j]
    {
      CoxKeepsRatios(point, c, nl, j);
    }
  }

  /** The arithmetic of the last step: the rest of the row is the rest of the
      point, 1 − x_c, scaled by (1 − nl)/(1 − x_c), which is 1 − nl. */
  lemma ScaledRemainder(total: real, nl: real, xc: real, k: real)
    requires xc != 1.0 && k == ScaleFactor(xc, nl)
    requires total == nl + k * (1.0 - xc)
    ensures total == 1.0
  {
    CancelDivision(1.0 - xc, 1.0 - nl);
  }

  lemma CancelDivision(d: real, x: real)
    requires d != 0.0
    ensures d * (x / d) == x && (x / d) * d == x
  {
  }

  /** From a mixture, moving a component to any location in [0, 1] gives a
      mixture again. */
  lemma CoxRowIsMixture(point: seq<real>, c: nat, nl: real)
    requires c < |point| && |point| >= 2 && IsMixture(point)
    requires 0.0 <= nl <= 1.0
    ensures IsMixture(CoxRow(point, c, nl))
  {
    var row := CoxRow(point, c, nl);
    CoxRowKeepsSum(point, c, nl);
    forall j | 0 <= j < |row|
      ensures row[j] >= 0.0
    {
      if j != c {
        if point[c] == 1.0 {
          CoxFromPureBlend(point, c, nl, j);
        } else {
          CoxKeepsRatios(point, c, nl, j);
          NonNegativeProduct(point[j], 1.0 - nl, 1.0 - point[c]);
        }
      }
    }
    NonNegativeUnitSumIsMixture(row);
  }

  lemma NonNegativeProduct(x: real, a: real, b: real)
    requires x >= 0.0 && a >= 0.0 && b > 0.0
    ensures x * (a / b) >= 0.0
  {
  }

  /** With given locations in [0, 1], every generated point of a mixture of at
      least two components is a mixture. */
  lemma {:induction false} GivenCoxPointsAreMixtures(point: seq<real>, coordinate: nat, locs: seq<real>)
    requires |point| >= 2 && IsMixture(point)
    requires forall i :: 0 <= i < |locs| ==> 0.0 <= locs[i] <= 1.0
    ensures var r := GenerateCoxPoints(point, coordinate, 0, Some(locs));
      r.Ok? ==> forall i :: 0 <= i < |r.value| ==> IsMixture(r.value[i])
  {
    var r := GenerateCoxPoints(point, coordinate, 0, Some(locs));
    if r.Ok? {
      forall i | 0 <= i < |r.value|
        ensures IsMixture(r.value[i])
      {
        CoxRowIsMixture(point, coordinate, locs[i]);
      }
    }
  }

  /** With default locations, `n_points` ≥ 1 gives n_points + 1 points; point
      i puts component `coordinate` at i / n_points, the first at 0 and the
      last at the vertex 1. */
  lemma DefaultCoxLocations(point: seq<real>, coordinate: nat, nPoints: int, i: nat)
    requires coordinate < |point| && nPoints >= 1 && i <= nPoints
    ensures GenerateCoxPoints(point, coordinate, nPoints, None).Ok?
    ensures |GenerateCoxPoints(point, coordinate, nPoints, None).value| == nPoints + 1
    ensures GenerateCoxPoints(point, coordinate, nPoints, None).value[i] ==
      CoxRow(point, coordinate, i as real / nPoints as real)
  {
  }
}
