/** dexpy/simplex_centroid.py: the simplex-centroid mixture design. For each
    subset size i = 1..q, and each i-subset of the q components in combination
    order, one run puts 1/i on those components and 0 elsewhere. */
module SimplexCentroid {
  import opened Common
  import opened Eval
  import opened Combinations

  /** `run_count`: C(q,1) + ... + C(q,m) with the library's own counter. */
  function CentroidRunCount(q: nat, m: nat): (r: real)
    requires m <= q
    ensures r == (SumBinom(q, m) - 1) as real
  {
    if m == 0 then 0.0 else CentroidRunCount(q, m - 1) + CountNChooseK(q, m).value
  }

  /** The subsets the builder visits, in visiting order. */
  function CentroidSubsets(q: nat): seq<seq<nat>>
  {
    Subsets(q, q)
  }

  /** The run for subset `combo`: `factor_data.loc[row, combo] = 1 / i`. */
  function CentroidRow(q: nat, combo: seq<nat>): seq<real>
    requires |combo| > 0
  {
    Blend(q, combo, Uniform(|combo|, 1.0 / |combo| as real))
  }

  /** `build_simplex_centroid(factor_count)`: the runs as a table of proportions. */
  function BuildSimplexCentroid(q: nat): (rows: seq<seq<real>>)
    ensures |rows| == |CentroidSubsets(q)|
    ensures forall t :: 0 <= t < |rows| ==> rows[t] == CentroidRow(q, CentroidSubsets(q)[t])
  {
    var subsets := CentroidSubsets(q);
    seq(|subsets|, t requires 0 <= t < |subsets| => CentroidRow(q, subsets[t]))
  }

  /** The table has 2^q − 1 runs, exactly the `run_count` the builder
      preallocates, so every preallocated row is written and none is left
      all-zero. */
  lemma {:induction false} CentroidRunCountMatches(q: nat)
    ensures |BuildSimplexCentroid(q)| == Pow2(q) - 1
    ensures |BuildSimplexCentroid(q)| as real == CentroidRunCount(q, q)
  {
    SubsetsCount(q, q);
    SumBinomRow(q);
  }

  /** A run for a subset of size i holds 1/i on exactly the components of the
      subset and 0 on the others. */
  lemma CentroidRowEntries(q: nat, t: nat, j: nat)
    requires t < |CentroidSubsets(q)| && j < q
    ensures var combo := CentroidSubsets(q)[t];
      BuildSimplexCentroid(q)[t][j] == (if j in combo then 1.0 / |combo| as real else 0.0)
  {
    var combo := CentroidSubsets(q)[t];
    var vals := Uniform(|combo|, 1.0 / |combo| as real);
    BlendAt(q, combo, vals, j);
    if j in combo {
      var k :| 0 <= k < |combo| && combo[k] == j;
    }
  }

  /** Every run is a mixture: proportions in [0, 1] summing to 1. */
  lemma CentroidRowsAreMixtures(q: nat, t: nat)
    requires t < |BuildSimplexCentroid(q)|
    ensures |BuildSimplexCentroid(q)[t]| == q
    ensures IsMixture(BuildSimplexCentroid(q)[t])
  {
    var combo := CentroidSubsets(q)[t];
    var i := |combo|;
    var vals := Uniform(i, 1.0 / i as real);
    SumUniform(i, 1.0 / i as real);
    assert i as real * (1.0 / i as real) == 1.0;
    BlendIsMixture(q, combo, vals);
  }

  /** Runs come grouped by subset size, ascending, and within a size in
      lexicographic combination order; every non-empty subset of the
      components has its run. */
  lemma CentroidOrderAndCoverage(q: nat, c: seq<nat>)
    ensures forall t, u :: 0 <= t < u < |CentroidSubsets(q)| ==>
      ShortLexLess(CentroidSubsets(q)[t], CentroidSubsets(q)[u])
    ensures 1 <= |c| && IsCombo(c, 0, q, |c|) ==> c in CentroidSubsets(q)
  {
    SubsetsSorted(q, q);
    if 1 <= |c| && IsCombo(c, 0, q, |c|) {
      assert |c| <= q by {
        IncreasingBelowBound(c, q);
      }
      SubsetsComplete(c, q, q);
    }
  }

  /** An increasing list of components below q has at most q entries. */
  lemma {:induction false} IncreasingBelowBound(c: seq<nat>, q: nat)
    requires IsCombo(c, 0, q, |c|)
    ensures |c| <= q
  {
    if |c| > 0 {
      var last := |c| - 1;
      var prefix := c[..last];
      assert IsCombo(prefix, 0, c[last], |prefix|) by {
        forall t | 0 <= t < |prefix|
          ensures prefix[t] < c[last]
        {
          assert c[t] < c[last];
        }
      }
      IncreasingBelowBound(prefix, c[last]);
    }
  }

  /** No two runs are the same. */
  lemma CentroidRowsDistinct(q: nat, t: nat, u: nat)
    requires t < u < |BuildSimplexCentroid(q)|
    ensures BuildSimplexCentroid(q)[t] != BuildSimplexCentroid(q)[u]
  {
    var subsets := CentroidSubsets(q);
    var a, b := subsets[t], subsets[u];
    SubsetsSorted(q, q);
    assert ShortLexLess(a, b);
    if a == b {
      LexLessIrreflexive(a);
    }
    if BuildSimplexCentroid(q)[t] == BuildSimplexCentroid(q)[u] {
      UniformBlendInjective(q, a, b, 1.0 / |a| as real, 1.0 / |b| as real);
    }
  }

  /** The first q runs are the pure blends, component by component. */
  lemma CentroidStartsWithPureBlends(q: nat, t: nat)
    requires t < q
    ensures t < |BuildSimplexCentroid(q)|
    ensures BuildSimplexCentroid(q)[t] == PureBlend(q, t)
  {
    SingletonSubsetsFirst(q, t);
    assert Uniform(1, 1.0 / 1 as real) == [1.0];
    SingletonBlendIsPure(q, t);
  }

  /** The subsets visited first are the singletons [0], ..., [q-1]. */
  lemma SingletonSubsetsFirst(q: nat, t: nat)
    requires t < q
    ensures t < |CentroidSubsets(q)|
    ensures CentroidSubsets(q)[t] == [t]
  {
    SingletonCombos(0, q, t);
    assert Subsets(q, 1) == [] + Combos(0, q, 1);
    PrefixOfSubsets(q, 1, q);
    PrefixIndex(Subsets(q, q), Subsets(q, 1), t);
  }

  lemma PrefixIndex<T>(a: seq<T>, b: seq<T>, t: nat)
    requires |b| <= |a| && a[..|b|] == b && t < |b|
    ensures a[t] == b[t]
  {
    assert a[..|b|][t] == a[t];
  }

  /** Growing the size bound only appends subsets. */
  lemma {:induction false} PrefixOfSubsets(q: nat, m: nat, m': nat)
    requires m <= m'
    ensures |Subsets(q, m)| <= |Subsets(q, m')|
    ensures Subsets(q, m') [..|Subsets(q, m)|] == Subsets(q, m)
    decreases m' - m
  {
    if m < m' {
      PrefixOfSubsets(q, m, m' - 1);
      assert Subsets(q, m') == Subsets(q, m' - 1) + Combos(0, q, m');
      PrefixOfAppend(Subsets(q, m' - 1), Combos(0, q, m'), Subsets(q, m));
    }
  }

  lemma PrefixOfAppend<T>(a: seq<T>, b: seq<T>, c: seq<T>)
    requires |c| <= |a| && a[..|c|] == c
    ensures (a + b)[..|c|] == c
  {
    assert (a + b)[..|c|] == a[..|c|];
  }

  /** The last run is the overall centroid (1/q, ..., 1/q). */
  lemma CentroidEndsWithOverallCentroid(q: nat)
    requires q >= 1
    ensures |BuildSimplexCentroid(q)| >= 1
    ensures BuildSimplexCentroid(q)[|BuildSimplexCentroid(q)| - 1] == Uniform(q, 1.0 / q as real)
  {
    LastSubsetIsWhole(q);
    var t := |CentroidSubsets(q)| - 1;
    forall j | 0 <= j < q
      ensures BuildSimplexCentroid(q)[t][j] == 1.0 / q as real
    {
      CentroidRowEntries(q, t, j);
      assert Range(0, q)[j] == j;
    }
  }

  /** The last subset visited is the whole set of components. */
  lemma LastSubsetIsWhole(q: nat)
    requires q >= 1
    ensures |CentroidSubsets(q)| >= 1
    ensures CentroidSubsets(q)[|CentroidSubsets(q)| - 1] == Range(0, q)
  {
    FullCombo(0, q);
    assert CentroidSubsets(q) == Subsets(q, q - 1) + [Range(0, q)];
  }
}
