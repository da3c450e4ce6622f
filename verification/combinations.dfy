/** The two pieces of Python machinery the mixture builders rest on:
    `itertools.combinations(range(n), k)`, which lists the k-subsets of the
    components in lexicographic order, and the pandas assignment
    `factor_data.loc[row, combo] = vals`, which writes `vals` into the columns
    `combo` of an all-zero row. */
module Combinations {
  import opened Common
  import opened Eval

  predicate StrictlyIncreasing(c: seq<nat>)
  {
    forall a, b :: 0 <= a < b < |c| ==> c[a] < c[b]
  }

  /** A k-combination of the components lo, ..., n-1, listed in increasing
      order as `itertools.combinations` yields it. */
  predicate IsCombo(c: seq<nat>, lo: nat, n: nat, k: nat)
  {
    && |c| == k
    && StrictlyIncreasing(c)
    && forall t :: 0 <= t < |c| ==> lo <= c[t] < n
  }

  /** `itertools.combinations(range(lo, n), k)`: the combinations holding `lo`
      come first, followed by those that skip it. There are C(n-lo, k). */
  function Combos(lo: nat, n: nat, k: nat): (r: seq<seq<nat>>)
    requires lo <= n
    ensures |r| == Binom(n - lo, k)
    ensures forall t :: 0 <= t < |r| ==> IsCombo(r[t], lo, n, k)
    decreases n - lo
  {
    if k == 0 then [[]]
    else if lo == n then []
    else PrependAll(lo, Combos(lo + 1, n, k - 1)) + Combos(lo + 1, n, k)
  }

  /** Strict lexicographic order on index lists of equal length. */
  predicate LexLess(a: seq<nat>, b: seq<nat>)
  {
    |a| > 0 && |b| > 0 && (a[0] < b[0] || (a[0] == b[0] && LexLess(a[1..], b[1..])))
  }

  lemma {:induction false} LexLessIrreflexive(a: seq<nat>)
    ensures !LexLess(a, a)
  {
    if |a| > 0 {
      LexLessIrreflexive(a[1..]);
    }
  }

  /** The combinations come out in strictly increasing lexicographic order, so
      in particular no combination is listed twice. */
  lemma {:induction false} CombosSorted(lo: nat, n: nat, k: nat)
    requires lo <= n
    ensures forall i, j :: 0 <= i < j < |Combos(lo, n, k)| ==> LexLess(Combos(lo, n, k)[i], Combos(lo, n, k)[j])
    decreases n - lo
  {
    if k > 0 && lo < n {
      var with := Combos(lo + 1, n, k - 1);
      var without := Combos(lo + 1, n, k);
      var r := Combos(lo, n, k);
      assert r == PrependAll(lo, with) + without;
      CombosSorted(lo + 1, n, k - 1);
      CombosSorted(lo + 1, n, k);
      forall i, j | 0 <= i < j < |r|
        ensures LexLess(r[i], r[j])
      {
        if j < |with| {
          assert r[i] == [lo] + with[i] && r[j] == [lo] + with[j];
          assert r[i][1..] == with[i] && r[j][1..] == with[j];
        } else if i < |with| {
          assert r[i] == [lo] + with[i];
          assert r[j] == without[j - |with|];
          assert IsCombo(without[j - |with|], lo + 1, n, k);
        } else {
          assert r[i] == without[i - |with|] && r[j] == without[j - |with|];
        }
      }
    }
  }

  /** Every k-combination of lo, ..., n-1 is listed. */
  lemma {:induction false} CombosComplete(c: seq<nat>, lo: nat, n: nat, k: nat)
    requires lo <= n && IsCombo(c, lo, n, k)
    ensures c in Combos(lo, n, k)
    decreases n - lo
  {
    if k == 0 {
      assert c == [];
    } else {
      ComboSplit(c, lo, n, k);
      if c[0] == lo {
        CombosComplete(c[1..], lo + 1, n, k - 1);
        ListedAfterLo(c, lo, n, k);
      } else {
        CombosComplete(c, lo + 1, n, k);
        ListedWithoutLo(c, lo, n, k);
      }
    }
  }

  /** A combination starting at lo is listed when its tail is. */
  lemma ListedAfterLo(c: seq<nat>, lo: nat, n: nat, k: nat)
    requires lo < n && k > 0 && |c| > 0 && c[0] == lo
    requires c[1..] in Combos(lo + 1, n, k - 1)
    ensures c in Combos(lo, n, k)
  {
    var left := PrependAll(lo, Combos(lo + 1, n, k - 1));
    assert Combos(lo, n, k) == left + Combos(lo + 1, n, k);
    InPrependAll(lo, Combos(lo + 1, n, k - 1), c[1..]);
    assert c == [lo] + c[1..];
  }

  /** A combination avoiding lo is listed when it is listed among the later
      components. */
  lemma ListedWithoutLo(c: seq<nat>, lo: nat, n: nat, k: nat)
    requires lo < n && k > 0
    requires c in Combos(lo + 1, n, k)
    ensures c in Combos(lo, n, k)
  {
    assert Combos(lo, n, k) == PrependAll(lo, Combos(lo + 1, n, k - 1)) + Combos(lo + 1, n, k);
  }

  /** A non-empty combination either starts at lo, and its tail is a
      combination of the later components, or it avoids lo altogether. */
  lemma ComboSplit(c: seq<nat>, lo: nat, n: nat, k: nat)
    requires IsCombo(c, lo, n, k) && k > 0
    ensures lo < n
    ensures c[0] == lo ==> IsCombo(c[1..], lo + 1, n, k - 1)
    ensures c[0] != lo ==> IsCombo(c, lo + 1, n, k)
  {
    var rest := c[1..];
    forall t | 0 <= t < |rest|
      ensures c[0] < rest[t]
    {
      assert rest[t] == c[t + 1];
    }
  }

  lemma InPrependAll(x: nat, cs: seq<seq<nat>>, c: seq<nat>)
    requires c in cs
    ensures [x] + c in PrependAll(x, cs)
  {
    var i :| 0 <= i < |cs| && cs[i] == c;
    assert PrependAll(x, cs)[i] == [x] + c;
  }

  /** The singletons come out as [lo], [lo+1], ..., [n-1]. */
  lemma {:induction false} SingletonCombos(lo: nat, n: nat, t: nat)
    requires lo <= n && t < n - lo
    ensures |Combos(lo, n, 1)| == n - lo
    ensures Combos(lo, n, 1)[t] == [lo + t]
    decreases n - lo
  {
    SingletonsUnfold(lo, n);
    BinomOne(n - lo);
    if t > 0 {
      SingletonCombos(lo + 1, n, t - 1);
      assert Combos(lo, n, 1)[t] == Combos(lo + 1, n, 1)[t - 1];
    }
  }

  lemma SingletonsUnfold(lo: nat, n: nat)
    requires lo < n
    ensures Combos(lo, n, 1) == [[lo]] + Combos(lo + 1, n, 1)
  {
    assert Combos(lo + 1, n, 0) == [[]];
    assert [lo] + [] == [lo];
    assert PrependAll(lo, [[]]) == [[lo]];
  }

  /** There are m one-element subsets of an m-set. */
  lemma {:induction false} BinomOne(m: nat)
    ensures Binom(m, 1) == m
  {
    if m > 0 {
      BinomOne(m - 1);
    }
  }

  /** The components lo, ..., n-1 in order. */
  function Range(lo: nat, n: nat): (r: seq<nat>)
    requires lo <= n
    ensures |r| == n - lo
    ensures forall t :: 0 <= t < |r| ==> r[t] == lo + t
  {
    seq(n - lo, t => lo + t)
  }

  /** Choosing all of lo, ..., n-1 gives the single combination Range(lo, n). */
  lemma {:induction false} FullCombo(lo: nat, n: nat)
    requires lo <= n
    ensures Combos(lo, n, n - lo) == [Range(lo, n)]
    decreases n - lo
  {
    if lo < n {
      FullCombo(lo + 1, n);
      BinomAboveIsZero(n - lo - 1, n - lo);
      assert Combos(lo + 1, n, n - lo) == [];
      assert [lo] + Range(lo + 1, n) == Range(lo, n);
    }
  }

  /** Shortest first, then lexicographic: the order of the simplex-centroid
      subsets. */
  predicate ShortLexLess(a: seq<nat>, b: seq<nat>)
  {
    |a| < |b| || (|a| == |b| && LexLess(a, b))
  }

  /** All combinations of 1, 2, ..., m components out of n, grouped by size. */
  function Subsets(n: nat, m: nat): (r: seq<seq<nat>>)
    ensures forall t :: 0 <= t < |r| ==> 1 <= |r[t]| <= m && IsCombo(r[t], 0, n, |r[t]|)
  {
    if m == 0 then [] else Subsets(n, m - 1) + Combos(0, n, m)
  }

  /** The number of subsets of size 1..m is C(n,1) + ... + C(n,m). */
  lemma {:induction false} SubsetsCount(n: nat, m: nat)
    ensures |Subsets(n, m)| + 1 == SumBinom(n, m)
  {
    if m > 0 {
      SubsetsCount(n, m - 1);
    }
  }

  /** Subsets are listed by increasing size and lexicographically within a size. */
  lemma {:induction false} SubsetsSorted(n: nat, m: nat)
    ensures forall i, j :: 0 <= i < j < |Subsets(n, m)| ==> ShortLexLess(Subsets(n, m)[i], Subsets(n, m)[j])
  {
    if m > 0 {
      var before := Subsets(n, m - 1);
      var group := Combos(0, n, m);
      var r := Subsets(n, m);
      SubsetsSorted(n, m - 1);
      CombosSorted(0, n, m);
      forall i, j | 0 <= i < j < |r|
        ensures ShortLexLess(r[i], r[j])
      {
        if j < |before| {
          assert r[i] == before[i] && r[j] == before[j];
        } else if i < |before| {
          assert r[i] == before[i] && r[j] == group[j - |before|];
        } else {
          assert r[i] == group[i - |before|] && r[j] == group[j - |before|];
        }
      }
    }
  }

  /** Every non-empty combination of at most m components is listed. */
  lemma SubsetsComplete(c: seq<nat>, n: nat, m: nat)
    requires 1 <= |c| <= m && IsCombo(c, 0, n, |c|)
    ensures c in Subsets(n, m)
  {
    if |c| == m {
      CombosComplete(c, 0, n, m);
    } else {
      SubsetsComplete(c, n, m - 1);
    }
  }

  /** The value `factor_data.loc[row, combo] = vals` leaves in column j of a
      zero row: the value written last to column j, or 0 if none was. */
  function Lookup(combo: seq<nat>, vals: seq<real>, j: nat): real
    requires |combo| == |vals|
  {
    if |combo| == 0 then 0.0
    else if combo[|combo| - 1] == j then vals[|vals| - 1]
    else Lookup(combo[..|combo| - 1], vals[..|vals| - 1], j)
  }

  /** A zero row of q components after `loc[row, combo] = vals`. */
  function Blend(q: nat, combo: seq<nat>, vals: seq<real>): (row: seq<real>)
    requires |combo| == |vals|
    ensures |row| == q
  {
    seq(q, j requires 0 <= j < q => Lookup(combo, vals, j))
  }

  lemma {:induction false} LookupOutside(combo: seq<nat>, vals: seq<real>, j: nat)
    requires |combo| == |vals| && j !in combo
    ensures Lookup(combo, vals, j) == 0.0
  {
    if |combo| > 0 {
      LookupOutside(combo[..|combo| - 1], vals[..|vals| - 1], j);
    }
  }

  lemma {:induction false} LookupAt(combo: seq<nat>, vals: seq<real>, t: nat)
    requires |combo| == |vals| && StrictlyIncreasing(combo) && t < |combo|
    ensures Lookup(combo, vals, combo[t]) == vals[t]
  {
    var last := |combo| - 1;
    if t < last {
      var prefix := combo[..last];
      assert prefix[t] == combo[t];
      LookupAt(prefix, vals[..last], t);
    }
  }

  /** Column j of a blend holds the value written for j, or 0 when j is not
      among the chosen components. */
  lemma BlendAt(q: nat, combo: seq<nat>, vals: seq<real>, j: nat)
    requires |combo| == |vals| && StrictlyIncreasing(combo) && j < q
    ensures forall t :: 0 <= t < |combo| && combo[t] == j ==> Blend(q, combo, vals)[j] == vals[t]
    ensures j !in combo ==> Blend(q, combo, vals)[j] == 0.0
  {
    forall t | 0 <= t < |combo| && combo[t] == j
      ensures Blend(q, combo, vals)[j] == vals[t]
    {
      LookupAt(combo, vals, t);
    }
    if j !in combo {
      LookupOutside(combo, vals, j);
    }
  }

  /** Writing values into distinct columns of a zero row preserves their sum. */
  lemma {:induction false} BlendSum(q: nat, combo: seq<nat>, vals: seq<real>)
    requires |combo| == |vals| && IsCombo(combo, 0, q, |combo|)
    ensures Sum(Blend(q, combo, vals)) == Sum(vals)
  {
    if q == 0 {
      assert |combo| == 0;
    } else {
      var row := Blend(q, combo, vals);
      assert row[..q - 1] == Blend(q - 1, combo, vals);
      var last := |combo| - 1;
      if |combo| > 0 && combo[last] == q - 1 {
        var c', v' := combo[..last], vals[..last];
        assert Blend(q - 1, combo, vals) == Blend(q - 1, c', v');
        assert IsCombo(c', 0, q - 1, |c'|) by {
          forall t | 0 <= t < |c'|
            ensures c'[t] < q - 1
          {
            assert combo[t] < combo[last];
          }
        }
        BlendSum(q - 1, c', v');
        assert vals[..last] == v';
      } else {
        assert IsCombo(combo, 0, q - 1, |combo|) by {
          forall t | 0 <= t < |combo|
            ensures combo[t] < q - 1
          {
            assert combo[t] <= combo[last];
          }
        }
        LookupOutside(combo, vals, q - 1);
        BlendSum(q - 1, combo, vals);
      }
    }
  }

  lemma {:induction false} LookupInUnitInterval(combo: seq<nat>, vals: seq<real>, j: nat)
    requires |combo| == |vals|
    requires forall t :: 0 <= t < |vals| ==> 0.0 <= vals[t] <= 1.0
    ensures 0.0 <= Lookup(combo, vals, j) <= 1.0
  {
    if |combo| > 0 {
      LookupInUnitInterval(combo[..|combo| - 1], vals[..|vals| - 1], j);
    }
  }

  /** Proportions in [0, 1] that sum to 1, written into distinct columns of a
      zero row, make the row a mixture. */
  lemma BlendIsMixture(q: nat, combo: seq<nat>, vals: seq<real>)
    requires |combo| == |vals| && IsCombo(combo, 0, q, |combo|)
    requires forall t :: 0 <= t < |vals| ==> 0.0 <= vals[t] <= 1.0
    requires Sum(vals) == 1.0
    ensures IsMixture(Blend(q, combo, vals))
  {
    BlendSum(q, combo, vals);
    forall j | 0 <= j < q
      ensures 0.0 <= Blend(q, combo, vals)[j] <= 1.0
    {
      LookupInUnitInterval(combo, vals, j);
    }
  }

  /** Two increasing lists with the same members are the same list. */
  lemma {:induction false} SameMembersSameCombo(a: seq<nat>, b: seq<nat>)
    requires StrictlyIncreasing(a) && StrictlyIncreasing(b)
    requires forall x :: x in a <==> x in b
    ensures a == b
  {
    assert |a| > 0 ==> a[0] in b;
    assert |b| > 0 ==> b[0] in a;
    if |a| > 0 && |b| > 0 {
      assert a[0] == b[0];
      forall x
        ensures x in a[1..] <==> x in b[1..]
      {
        if x in a[1..] {
          assert x in a && x != a[0];
        }
        if x in b[1..] {
          assert x in b && x != b[0];
        }
      }
      SameMembersSameCombo(a[1..], b[1..]);
      assert a == [a[0]] + a[1..] && b == [b[0]] + b[1..];
    }
  }

  /** Rows that put a non-zero proportion on each chosen component are equal
      only when they choose the same components. */
  lemma UniformBlendInjective(q: nat, a: seq<nat>, b: seq<nat>, pa: real, pb: real)
    requires IsCombo(a, 0, q, |a|) && IsCombo(b, 0, q, |b|)
    requires pa != 0.0 && pb != 0.0
    requires Blend(q, a, Uniform(|a|, pa)) == Blend(q, b, Uniform(|b|, pb))
    ensures a == b
  {
    forall x
      ensures x in a <==> x in b
    {
      if x in a {
        BlendAt(q, a, Uniform(|a|, pa), x);
        BlendAt(q, b, Uniform(|b|, pb), x);
      }
      if x in b {
        BlendAt(q, a, Uniform(|a|, pa), x);
        BlendAt(q, b, Uniform(|b|, pb), x);
      }
    }
    SameMembersSameCombo(a, b);
  }

  /** The i-th unit vector of length q: the pure blend of component i. */
  function PureBlend(q: nat, i: nat): (row: seq<real>)
    ensures |row| == q
  {
    seq(q, j => if j == i then 1.0 else 0.0)
  }

  /** Writing 1 into the single column i gives the pure blend of component i. */
  lemma SingletonBlendIsPure(q: nat, i: nat)
    requires i < q
    ensures Blend(q, [i], [1.0]) == PureBlend(q, i)
  {
    forall j | 0 <= j < q
      ensures Blend(q, [i], [1.0])[j] == PureBlend(q, i)[j]
    {
      BlendAt(q, [i], [1.0], j);
    }
  }
}
