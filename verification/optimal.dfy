/** dexpy/optimal.py: the box constraints `bootstrap` builds before sampling a
    starting design. For each factor f it appends the row −x_f ≤ 1 and then
    the row x_f ≤ 1, so the constraint system A·x ≤ b describes the cube
    [−1, 1]^f. The sampler, the patsy model and the exchange search are not
    part of this model. */
module Optimal {
  import opened Common

  /** Entry (r, j) of the constraint matrix: rows 2i and 2i+1 bound factor i,
      from below (−1) and from above (+1). */
  function BoxEntry(r: nat, j: nat): real
  {
    if j == r / 2 then (if r % 2 == 0 then -1.0 else 1.0) else 0.0
  }

  /** A 2f×f constraint matrix with its bound vector, both as `bootstrap`
      leaves them. */
  predicate IsBoxSystem(a: seq<seq<real>>, b: seq<real>, f: nat)
  {
    && |a| == 2 * f && |b| == 2 * f
    && (forall r :: 0 <= r < 2 * f ==> |a[r]| == f && b[r] == 1.0)
    && (forall r, j :: 0 <= r < 2 * f && 0 <= j < f ==> a[r][j] == BoxEntry(r, j))
  }

  /** The loop of `bootstrap`: start from zeros, and for each factor write the
      lower-bound row and then the upper-bound row, advancing the row counter
      c twice. */
  method BoxConstraints(factorCount: nat) returns (a: seq<seq<real>>, b: seq<real>)
    ensures IsBoxSystem(a, b, factorCount)
  {
    a := seq(2 * factorCount, _ => Uniform(factorCount, 0.0));
    b := Uniform(2 * factorCount, 0.0);
    var c := 0;
    var f := 0;
    while f < factorCount
      invariant 0 <= f <= factorCount && c == 2 * f
      invariant |a| == 2 * factorCount && |b| == 2 * factorCount
      invariant forall r :: 0 <= r < |a| ==> |a[r]| == factorCount
      invariant forall r, j :: 0 <= r < c && 0 <= j < factorCount ==> a[r][j] == BoxEntry(r, j)
      invariant forall r, j :: c <= r < |a| && 0 <= j < factorCount ==> a[r][j] == 0.0
      invariant forall r :: 0 <= r < |b| ==> b[r] == (if r < c then 1.0 else 0.0)
    {
      BoxRowEntries(f, 2 * f);
      BoxRowEntries(f, 2 * f + 1);
      a := a[c := a[c][f := -1.0]];
      b := b[c := 1.0];
      c := c + 1;
      a := a[c := a[c][f := 1.0]];
      b := b[c := 1.0];
      c := c + 1;
      f := f + 1;
    }
  }

  /** Row 2f is −1 and row 2f+1 is +1 in column f; both are 0 elsewhere. */
  lemma BoxRowEntries(f: nat, r: nat)
    requires r == 2 * f || r == 2 * f + 1
    ensures forall j: nat :: BoxEntry(r, j) == (if j == f then (if r == 2 * f then -1.0 else 1.0) else 0.0)
  {
    assert r / 2 == f && (r % 2 == 0 <==> r == 2 * f);
  }

  /** Inner product of a constraint row with a point. */
  function Dot(u: seq<real>, x: seq<real>): real
    requires |u| == |x|
  {
    if |u| == 0 then 0.0 else Dot(u[..|u| - 1], x[..|x| - 1]) + u[|u| - 1] * x[|x| - 1]
  }

  /** A row that is zero outside column k picks out v·x_k. */
  lemma {:induction false} DotSingleEntry(u: seq<real>, x: seq<real>, k: nat, v: real)
    requires |u| == |x| && k < |u|
    requires forall j :: 0 <= j < |u| ==> u[j] == (if j == k then v else 0.0)
    ensures Dot(u, x) == v * x[k]
  {
    var n := |u| - 1;
    var u', x' := u[..n], x[..n];
    assert Dot(u, x) == Dot(u', x') + u[n] * x[n];
    if k < n {
      assert forall j :: 0 <= j < n ==> u'[j] == u[j];
      DotSingleEntry(u', x', k, v);
      assert u[n] == 0.0;
      assert x'[k] == x[k];
    } else {
      assert forall j :: 0 <= j < n ==> u'[j] == 0.0;
      DotOfZeroRow(u', x');
      assert u[n] == v;
    }
  }

  lemma {:induction false} DotOfZeroRow(u: seq<real>, x: seq<real>)
    requires |u| == |x|
    requires forall j :: 0 <= j < |u| ==> u[j] == 0.0
    ensures Dot(u, x) == 0.0
  {
    if |u| > 0 {
      var n := |u| - 1;
      assert forall j :: 0 <= j < n ==> u[..n][j] == 0.0;
      DotOfZeroRow(u[..n], x[..n]);
    }
  }

  /** x satisfies every constraint A·x ≤ b. */
  predicate Feasible(a: seq<seq<real>>, b: seq<real>, x: seq<real>)
    requires |a| == |b|
    requires forall r :: 0 <= r < |a| ==> |a[r]| == |x|
  {
    forall r :: 0 <= r < |a| ==> Dot(a[r], x) <= b[r]
  }

  predicate InUnitCube(x: seq<real>)
  {
    forall j :: 0 <= j < |x| ==> -1.0 <= x[j] <= 1.0
  }

  /** The rows pair up into the two bounds of each factor. */
  lemma BoxRowsOfFactor(a: seq<seq<real>>, b: seq<real>, f: nat, x: seq<real>, i: nat)
    requires IsBoxSystem(a, b, f) && |x| == f && i < f
    ensures Dot(a[2 * i], x) == -x[i]
    ensures Dot(a[2 * i + 1], x) == x[i]
  {
    BoxRowEntries(i, 2 * i);
    BoxRowEntries(i, 2 * i + 1);
    DotSingleEntry(a[2 * i], x, i, -1.0);
    DotSingleEntry(a[2 * i + 1], x, i, 1.0);
  }

  /** The constraint system built by `bootstrap` admits exactly the points of
      the cube [−1, 1]^f. */
  lemma BoxFeasibleIffInCube(a: seq<seq<real>>, b: seq<real>, f: nat, x: seq<real>)
    requires IsBoxSystem(a, b, f) && |x| == f
    ensures Feasible(a, b, x) <==> InUnitCube(x)
  {
    if Feasible(a, b, x) {
      forall j | 0 <= j < f
        ensures -1.0 <= x[j] <= 1.0
      {
        BoxRowsOfFactor(a, b, f, x, j);
        assert Dot(a[2 * j], x) <= b[2 * j];
        assert Dot(a[2 * j + 1], x) <= b[2 * j + 1];
      }
    }
    if InUnitCube(x) {
      forall r | 0 <= r < 2 * f
        ensures Dot(a[r], x) <= b[r]
      {
        var i := r / 2;
        BoxRowsOfFactor(a, b, f, x, i);
        assert r == 2 * i || r == 2 * i + 1;
      }
    }
  }

  /** `x0 = np.array([0, 0])`: the sampler's starting point, of length 2
      whatever the number of factors. */
  const StartPoint: seq<real> := [0.0, 0.0]

  /** The starting point has the dimension of the box only for two factors,
      and then it is its centre, inside the box. */
  lemma StartPointInsideBox(a: seq<seq<real>>, b: seq<real>, f: nat)
    requires IsBoxSystem(a, b, f)
    ensures |StartPoint| == f <==> f == 2
    ensures f == 2 ==> Feasible(a, b, StartPoint)
  {
    if f == 2 {
      BoxFeasibleIffInCube(a, b, f, StartPoint);
    }
  }
}
