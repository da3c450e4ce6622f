/** dexpy/simplex_lattice.py: the simplex-lattice mixture design. The pure
    blends always come first; a quadratic lattice adds the 1/2–1/2 binary
    blends, a cubic lattice adds the 2/3–1/3 and 1/3–2/3 binary blends and,
    from three components on, the 1/3–1/3–1/3 ternary blends. */
module SimplexLattice {
  import opened Common
  import opened Eval
  import opened Combinations

  /** The model order the lattice is built for (`ModelOrder`). */
  datatype ModelOrder = Linear | Quadratic | Cubic

  /** `run_count` as the builder computes it before writing any row. Counting
      pairs with fewer than two components asks for a negative factorial. */
  function LatticeRunCount(q: nat, order: ModelOrder): (r: Result<real>)
    ensures r.Ok? <==> order == Linear || q >= 2
    ensures order == Linear ==> r == Ok(q as real)
    ensures r.Ok? && order == Quadratic ==> r.value == (q + Binom(q, 2)) as real
    ensures r.Ok? && order == Cubic ==> r.value == (q + 2 * Binom(q, 2) + Binom(q, 3)) as real
  {
    match order
    case Linear => Ok(q as real)
    case Quadratic =>
      var pairs :- CountNChooseK(q, 2);
      Ok(q as real + pairs)
    case Cubic =>
      var pairs :- CountNChooseK(q, 2);
      if q > 2 then
        var triples :- CountNChooseK(q, 3);
        Ok(q as real + pairs * 2.0 + triples)
      else
        BinomAboveIsZero(q, 3);
        Ok(q as real + pairs * 2.0)
  }

  /** The guard `factor_count > 2` is what keeps a two-component cubic lattice
      from failing: counting triples of two components would raise. */
  lemma CubicGuardNeeded()
    ensures LatticeRunCount(2, Cubic) == Ok(4.0)
    ensures CountNChooseK(2, 3).Err?
  {
  }

  function Pairs(q: nat): seq<seq<nat>>
  {
    Combos(0, q, 2)
  }

  function Triples(q: nat): seq<seq<nat>>
  {
    Combos(0, q, 3)
  }

  /** `loc[row, combo] = 1.0` for each single component. */
  function PureBlendRows(q: nat): (rows: seq<seq<real>>)
    ensures |rows| == |Combos(0, q, 1)|
    ensures forall t :: 0 <= t < |rows| ==> |rows[t]| == q
  {
    var singles := Combos(0, q, 1);
    seq(|singles|, t requires 0 <= t < |singles| => Blend(q, singles[t], [1.0]))
  }

  /** `loc[row, combo] = 0.5` for each pair. */
  function HalfBlendRows(q: nat): (rows: seq<seq<real>>)
    ensures |rows| == |Pairs(q)|
    ensures forall t :: 0 <= t < |rows| ==> |rows[t]| == q
  {
    var pairs := Pairs(q);
    seq(|pairs|, t requires 0 <= t < |pairs| => Blend(q, pairs[t], [0.5, 0.5]))
  }

  /** The proportions of a cubic binary blend: 2/3 on the lower component
      first, or 1/3 first. */
  function Thirds(twoThirdsFirst: bool): (vals: seq<real>)
    ensures |vals| == 2
  {
    if twoThirdsFirst then [2.0 / 3.0, 1.0 / 3.0] else [1.0 / 3.0, 2.0 / 3.0]
  }

  /** For each pair, `loc[row, combo] = [2/3, 1/3]` and then `[1/3, 2/3]`. */
  function ThirdBlendRows(q: nat): (rows: seq<seq<real>>)
    ensures |rows| == 2 * |Pairs(q)|
    ensures forall t :: 0 <= t < |rows| ==> |rows[t]| == q
  {
    var pairs := Pairs(q);
    seq(2 * |pairs|, t requires 0 <= t < 2 * |pairs| => Blend(q, pairs[t / 2], Thirds(t % 2 == 0)))
  }

  /** `loc[row, combo] = 1/3` for each triple. */
  function TripleBlendRows(q: nat): (rows: seq<seq<real>>)
    ensures |rows| == |Triples(q)|
    ensures forall t :: 0 <= t < |rows| ==> |rows[t]| == q
  {
    var triples := Triples(q);
    seq(|triples|, t requires 0 <= t < |triples| => Blend(q, triples[t], [1.0 / 3.0, 1.0 / 3.0, 1.0 / 3.0]))
  }

  /** The rows in the order the builder writes them. */
  function LatticeRows(q: nat, order: ModelOrder): (rows: seq<seq<real>>)
    ensures forall t :: 0 <= t < |rows| ==> |rows[t]| == q
  {
    match order
    case Linear => PureBlendRows(q)
    case Quadratic => PureBlendRows(q) + HalfBlendRows(q)
    case Cubic => PureBlendRows(q) + ThirdBlendRows(q) + (if q > 2 then TripleBlendRows(q) else [])
  }

  /** `build_simplex_lattice(factor_count, model_order)`: fails exactly when
      the run count cannot be computed, and otherwise writes exactly as many
      rows as it preallocated, so no all-zero row is left over. */
  function BuildSimplexLattice(q: nat, order: ModelOrder): (r: Result<seq<seq<real>>>)
    ensures r.Ok? <==> order == Linear || q >= 2
    ensures r.Ok? ==> |r.value| as real == LatticeRunCount(q, order).value
    ensures r.Ok? ==> r.value == LatticeRows(q, order)
  {
    match LatticeRunCount(q, order)
    case Err(e) => Err(e)
    case Ok(runCount) =>
      LatticeRowCount(q, order);
      Ok(LatticeRows(q, order))
  }

  lemma LatticeRowCount(q: nat, order: ModelOrder)
    requires order == Linear || q >= 2
    ensures |LatticeRows(q, order)| as real == LatticeRunCount(q, order).value
  {
    if q > 0 {
      SingletonCombos(0, q, 0);
    }
    if order == Cubic && q <= 2 {
      BinomAboveIsZero(q, 3);
    }
  }

  /** The first q rows are the pure blends: row i is the i-th unit vector. */
  lemma LatticeStartsWithPureBlends(q: nat, order: ModelOrder, i: nat)
    requires i < q
    ensures i < |LatticeRows(q, order)|
    ensures LatticeRows(q, order)[i] == PureBlend(q, i)
  {
    SingletonCombos(0, q, i);
    SingletonBlendIsPure(q, i);
    assert LatticeRows(q, order)[i] == PureBlendRows(q)[i];
  }

  /** A linear lattice is exactly the q×q identity table. */
  lemma LinearLatticeIsIdentity(q: nat)
    ensures BuildSimplexLattice(q, Linear) == Ok(seq(q, i requires 0 <= i => PureBlend(q, i)))
  {
    var rows := LatticeRows(q, Linear);
    if q > 0 {
      SingletonCombos(0, q, 0);
    }
    forall i | 0 <= i < q
      ensures rows[i] == PureBlend(q, i)
    {
      LatticeStartsWithPureBlends(q, Linear, i);
    }
    assert rows == seq(q, i requires 0 <= i => PureBlend(q, i));
  }

  /** Quadratic lattice: after the pure blends, row q+t puts 1/2 on the two
      components of the t-th pair (in combination order) and 0 elsewhere. */
  lemma QuadraticBinaryBlends(q: nat, t: nat, j: nat)
    requires t < |Pairs(q)| && j < q
    ensures q + t < |LatticeRows(q, Quadratic)|
    ensures LatticeRows(q, Quadratic)[q + t][j] == (if j in Pairs(q)[t] then 0.5 else 0.0)
  {
    LatticeSizes(q);
    var pair := Pairs(q)[t];
    assert LatticeRows(q, Quadratic)[q + t] == Blend(q, pair, [0.5, 0.5]);
    BlendAt(q, pair, [0.5, 0.5], j);
  }

  /** Cubic lattice: pair t contributes two consecutive rows, the first with
      2/3 on its lower and 1/3 on its higher component, the second the other
      way round; all other entries are 0. */
  lemma CubicBinaryBlends(q: nat, t: nat, j: nat)
    requires t < |Pairs(q)| && j < q
    ensures q + 2 * t + 1 < |LatticeRows(q, Cubic)|
    ensures var pair, rows := Pairs(q)[t], LatticeRows(q, Cubic);
      && rows[q + 2 * t][j] == (if j == pair[0] then 2.0 / 3.0 else if j == pair[1] then 1.0 / 3.0 else 0.0)
      && rows[q + 2 * t + 1][j] == (if j == pair[0] then 1.0 / 3.0 else if j == pair[1] then 2.0 / 3.0 else 0.0)
  {
    var pair := Pairs(q)[t];
    assert IsCombo(pair, 0, q, 2);
    var rows := LatticeRows(q, Cubic);
    CubicBinaryRow(q, t, 2 * t, true, j);
    assert rows[q + 2 * t][j] == (if j == pair[0] then 2.0 / 3.0 else if j == pair[1] then 1.0 / 3.0 else 0.0);
    CubicBinaryRow(q, t, 2 * t + 1, false, j);
    assert rows[q + 2 * t + 1][j] == (if j == pair[0] then 1.0 / 3.0 else if j == pair[1] then 2.0 / 3.0 else 0.0);
  }

  lemma CubicBinaryRow(q: nat, t: nat, u: nat, first: bool, j: nat)
    requires t < |Pairs(q)| && j < q
    requires u == (if first then 2 * t else 2 * t + 1)
    ensures q + u < |LatticeRows(q, Cubic)|
    ensures var pair := Pairs(q)[t];
      LatticeRows(q, Cubic)[q + u][j] == (if j == pair[0] then Thirds(first)[0] else if j == pair[1] then Thirds(first)[1] else 0.0)
  {
    LatticeSizes(q);
    CubicMiddle(q, u);
    assert u / 2 == t;
    assert (u % 2 == 0) == first;
    var pair := Pairs(q)[t];
    assert IsCombo(pair, 0, q, 2);
    assert ThirdBlendRows(q)[u] == Blend(q, pair, Thirds(first));
    PairBlendAt(q, pair, Thirds(first)[0], Thirds(first)[1], j);
    assert Thirds(first) == [Thirds(first)[0], Thirds(first)[1]];
  }

  /** The cubic lattice continues with the binary-blend rows after the pure blends. */
  lemma CubicMiddle(q: nat, u: nat)
    requires u < |ThirdBlendRows(q)|
    ensures |PureBlendRows(q)| == q
    ensures q + u < |LatticeRows(q, Cubic)|
    ensures LatticeRows(q, Cubic)[q + u] == ThirdBlendRows(q)[u]
  {
    LatticeSizes(q);
    var c := if q > 2 then TripleBlendRows(q) else [];
    MiddleBlock(PureBlendRows(q), ThirdBlendRows(q), c, u);
  }

  lemma MiddleBlock<T>(a: seq<T>, b: seq<T>, c: seq<T>, u: nat)
    requires u < |b|
    ensures (a + b + c)[|a| + u] == b[u]
  {
    assert (a + b + c)[|a| + u] == (a + b)[|a| + u];
  }

  /** Entry j of a two-component blend of an increasing pair. */
  lemma PairBlendAt(q: nat, pair: seq<nat>, x: real, y: real, j: nat)
    requires IsCombo(pair, 0, q, 2) && j < q
    ensures Blend(q, pair, [x, y])[j] == (if j == pair[0] then x else if j == pair[1] then y else 0.0)
  {
    BlendAt(q, pair, [x, y], j);
  }

  /** Cubic lattice with more than two components: the remaining rows put 1/3
      on each triple of components, in combination order. */
  lemma CubicTernaryBlends(q: nat, t: nat, j: nat)
    requires q > 2 && t < |Triples(q)| && j < q
    ensures q + 2 * |Pairs(q)| + t < |LatticeRows(q, Cubic)|
    ensures LatticeRows(q, Cubic)[q + 2 * |Pairs(q)| + t][j] == (if j in Triples(q)[t] then 1.0 / 3.0 else 0.0)
  {
    LatticeSizes(q);
    var triple := Triples(q)[t];
    var vals := [1.0 / 3.0, 1.0 / 3.0, 1.0 / 3.0];
    assert LatticeRows(q, Cubic)[q + 2 * |Pairs(q)| + t] == Blend(q, triple, vals);
    BlendAt(q, triple, vals, j);
  }

  lemma LatticeSizes(q: nat)
    ensures |PureBlendRows(q)| == q
  {
    if q > 0 {
      SingletonCombos(0, q, 0);
    }
  }

  /** Every row has q proportions and is a mixture. */
  predicate AllMixtures(rows: seq<seq<real>>, q: nat)
  {
    forall t :: 0 <= t < |rows| ==> |rows[t]| == q && IsMixture(rows[t])
  }

  /** Every row of every lattice is a mixture: proportions in [0, 1] summing
      to 1. */
  lemma LatticeRowsAreMixtures(q: nat, order: ModelOrder, t: nat)
    requires t < |LatticeRows(q, order)|
    ensures |LatticeRows(q, order)[t]| == q
    ensures IsMixture(LatticeRows(q, order)[t])
  {
    PureRowsAreMixtures(q);
    match order
    case Linear =>
    case Quadratic =>
      HalfRowsAreMixtures(q);
      MixturesConcat(PureBlendRows(q), HalfBlendRows(q), q);
    case Cubic =>
      ThirdRowsAreMixtures(q);
      MixturesConcat(PureBlendRows(q), ThirdBlendRows(q), q);
      var c := if q > 2 then TripleBlendRows(q) else [];
      if q > 2 {
        TripleRowsAreMixtures(q);
      }
      MixturesConcat(PureBlendRows(q) + ThirdBlendRows(q), c, q);
  }

  lemma MixturesConcat(a: seq<seq<real>>, b: seq<seq<real>>, q: nat)
    requires AllMixtures(a, q) && AllMixtures(b, q)
    ensures AllMixtures(a + b, q)
  {
    forall t | 0 <= t < |a + b|
      ensures |(a + b)[t]| == q && IsMixture((a + b)[t])
    {
      if t >= |a| {
        assert (a + b)[t] == b[t - |a|];
      }
    }
  }

  lemma PureRowsAreMixtures(q: nat)
    ensures AllMixtures(PureBlendRows(q), q)
  {
    MixtureProportions();
    forall t | 0 <= t < |PureBlendRows(q)|
      ensures IsMixture(PureBlendRows(q)[t])
    {
      BlendIsMixture(q, Combos(0, q, 1)[t], [1.0]);
    }
  }

  lemma HalfRowsAreMixtures(q: nat)
    ensures AllMixtures(HalfBlendRows(q), q)
  {
    MixtureProportions();
    forall t | 0 <= t < |HalfBlendRows(q)|
      ensures IsMixture(HalfBlendRows(q)[t])
    {
      BlendIsMixture(q, Pairs(q)[t], [0.5, 0.5]);
    }
  }

  lemma ThirdRowsAreMixtures(q: nat)
    ensures AllMixtures(ThirdBlendRows(q), q)
  {
    MixtureProportions();
    forall u | 0 <= u < |ThirdBlendRows(q)|
      ensures IsMixture(ThirdBlendRows(q)[u])
    {
      var vals := Thirds(u % 2 == 0);
      assert 0.0 <= vals[0] <= 1.0 && 0.0 <= vals[1] <= 1.0;
      BlendIsMixture(q, Pairs(q)[u / 2], vals);
    }
  }

  lemma TripleRowsAreMixtures(q: nat)
    ensures AllMixtures(TripleBlendRows(q), q)
  {
    MixtureProportions();
    forall t | 0 <= t < |TripleBlendRows(q)|
      ensures IsMixture(TripleBlendRows(q)[t])
    {
      BlendIsMixture(q, Triples(q)[t], [1.0 / 3.0, 1.0 / 3.0, 1.0 / 3.0]);
    }
  }

  /** The proportion lists the builder writes each sum to 1. */
  lemma MixtureProportions()
    ensures Sum([1.0]) == 1.0
    ensures Sum([0.5, 0.5]) == 1.0
    ensures Sum(Thirds(true)) == 1.0 && Sum(Thirds(false)) == 1.0
    ensures Sum([1.0 / 3.0, 1.0 / 3.0, 1.0 / 3.0]) == 1.0
  {
    SumOfTwo(0.5, 0.5);
    SumOfTwo(2.0 / 3.0, 1.0 / 3.0);
    SumOfTwo(1.0 / 3.0, 2.0 / 3.0);
    SumOfThree(1.0 / 3.0, 1.0 / 3.0, 1.0 / 3.0);
  }

  lemma SumOfTwo(x: real, y: real)
    ensures Sum([x, y]) == x + y
  {
    assert [x][..0] == [];
    assert Sum([x]) == x;
    assert [x, y][..1] == [x];
  }

  lemma SumOfThree(x: real, y: real, z: real)
    ensures Sum([x, y, z]) == x + y + z
  {
    assert [x, y, z][..2] == [x, y];
    SumOfTwo(x, y);
  }
}
