/** dexpy/factorial.py: the two-level full factorial. `build_factorial` lists
    every vector of k signs in `itertools.product([-1, 1], repeat=k)` order and
    wraps the list in a `Design`. */
module Factorial {
  import opened Common
  import opened Designs

  /** A run of a two-level design: k coded factor settings, each -1 or +1. */
  predicate IsSignVector(v: seq<int>, k: nat)
  {
    |v| == k && forall j :: 0 <= j < |v| ==> v[j] == -1 || v[j] == 1
  }

  /** `itertools.product([-1, 1], repeat=k)`: the first factor varies slowest,
      so the runs starting with -1 all come before those starting with +1. */
  function SignVectors(k: nat): (rows: seq<seq<int>>)
    ensures |rows| == Pow2(k)
    ensures forall r :: 0 <= r < |rows| ==> IsSignVector(rows[r], k)
  {
    if k == 0 then [[]]
    else
      var rest := SignVectors(k - 1);
      PrependAll(-1, rest) + PrependAll(1, rest)
  }

  /** Reads a sign vector as a binary numeral, most significant factor first,
      with -1 as digit 0 and +1 as digit 1. */
  function RunIndex(v: seq<int>): (r: nat)
    ensures r < Pow2(|v|)
  {
    if |v| == 0 then 0
    else (if v[0] == 1 then Pow2(|v| - 1) else 0) + RunIndex(v[1..])
  }

  /** The first half of the runs starts with -1, the second with +1, and
      each half lists the shorter runs in order. */
  lemma SignVectorHalves(k: nat, i: nat)
    requires k > 0 && i < Pow2(k - 1)
    ensures SignVectors(k)[i] == [-1] + SignVectors(k - 1)[i]
    ensures SignVectors(k)[Pow2(k - 1) + i] == [1] + SignVectors(k - 1)[i]
  {
    var rest := SignVectors(k - 1);
    assert SignVectors(k) == PrependAll(-1, rest) + PrependAll(1, rest);
  }

  /** Run r of the full factorial is r written in k binary digits, most
      significant first (-1 for 0, +1 for 1). */
  lemma {:induction false} RunIsBinaryNumeral(k: nat, r: nat)
    requires r < Pow2(k)
    ensures RunIndex(SignVectors(k)[r]) == r
  {
    if k > 0 {
      var half := Pow2(k - 1);
      var i := if r < half then r else r - half;
      SignVectorHalves(k, i);
      var row := SignVectors(k)[r];
      assert row[1..] == SignVectors(k - 1)[i];
      RunIsBinaryNumeral(k - 1, i);
    }
  }

  /** The leading sign is the most significant binary digit. */
  lemma LeadingDigit(v: seq<int>)
    requires |v| > 0
    ensures v[0] == 1 ==> RunIndex(v) == Pow2(|v| - 1) + RunIndex(v[1..])
    ensures v[0] != 1 ==> RunIndex(v) == RunIndex(v[1..])
  {
  }

  /** Every sign vector of length k is the run whose index is its numeral. */
  lemma {:induction false} SignVectorAtItsIndex(v: seq<int>, k: nat)
    requires IsSignVector(v, k)
    ensures SignVectors(k)[RunIndex(v)] == v
  {
    if k > 0 {
      var tail := v[1..];
      assert IsSignVector(tail, k - 1);
      SignVectorAtItsIndex(tail, k - 1);
      assert v[0] == -1 || v[0] == 1;
      PlaceByLeadingSign(v, k);
    }
  }

  /** A vector whose tail sits at its numeral among the shorter runs sits at
      its own numeral among the runs of its length. */
  lemma PlaceByLeadingSign(v: seq<int>, k: nat)
    requires k > 0 && |v| == k && (v[0] == -1 || v[0] == 1)
    requires SignVectors(k - 1)[RunIndex(v[1..])] == v[1..]
    ensures SignVectors(k)[RunIndex(v)] == v
  {
    var tail := v[1..];
    var i := RunIndex(tail);
    SignVectorHalves(k, i);
    LeadingDigit(v);
    if v[0] == 1 {
      assert RunIndex(v) == Pow2(k - 1) + i;
      assert v == [1] + tail;
    } else {
      assert RunIndex(v) == i;
      assert v == [-1] + tail;
    }
  }

  /** Every sign vector of length k occurs in the table exactly once. */
  lemma EverySignVectorExactlyOnce(v: seq<int>, k: nat)
    requires IsSignVector(v, k)
    ensures exists r :: 0 <= r < Pow2(k) && SignVectors(k)[r] == v
    ensures forall r, s :: 0 <= r < s < Pow2(k) ==> SignVectors(k)[r] != SignVectors(k)[s]
  {
    SignVectorAtItsIndex(v, k);
    forall r, s | 0 <= r < s < Pow2(k)
      ensures SignVectors(k)[r] != SignVectors(k)[s]
    {
      RunIsBinaryNumeral(k, r);
      RunIsBinaryNumeral(k, s);
    }
  }

  /** `build_factorial(factor_count, run_count)`: the full factorial when
      `run_count == 2**factor_count`; otherwise no runs are generated and the
      `Design` constructor raises on the empty run list. */
  function BuildFactorial(factorCount: nat, runCount: int): (r: Result<Design<int>>)
    ensures r.Ok? <==> runCount == Pow2(factorCount)
    ensures r.Ok? ==> Runs(r.value) == runCount
    ensures r.Ok? ==> forall i :: 0 <= i < Runs(r.value) ==> IsSignVector(r.value.factorData[i], factorCount)
    ensures r.Ok? ==> |r.value.factorNames| == factorCount
  {
    var factorData := if runCount == Pow2(factorCount) then SignVectors(factorCount) else [];
    MakeDesign(factorData)
  }

  /** The library's own example: 3 factors in 8 runs. */
  lemma BuildFactorialExample()
    ensures BuildFactorial(3, 8).Ok? && Runs(BuildFactorial(3, 8).value) == 8
    ensures BuildFactorial(3, 8).value.factorData[0] == [-1, -1, -1]
    ensures BuildFactorial(3, 8).value.factorData[7] == [1, 1, 1]
    ensures BuildFactorial(3, 8).value.factorNames == ["A", "B", "C"]
    ensures BuildFactorial(3, 7).Err?
  {
    assert Pow2(3) == 8;
    ThreeFactorRuns();
    ThreeFactorNames();
  }

  lemma ThreeFactorRuns()
    ensures SignVectors(3)[0] == [-1, -1, -1]
    ensures SignVectors(3)[7] == [1, 1, 1]
  {
    assert Pow2(0) == 1 && Pow2(1) == 2 && Pow2(2) == 4;
    assert SignVectors(0)[0] == [];
    SignVectorHalves(1, 0);
    SignVectorHalves(2, 0);
    SignVectorHalves(2, 1);
    SignVectorHalves(3, 0);
    SignVectorHalves(3, 3);
  }

  lemma ThreeFactorNames()
    ensures MakeDesign(SignVectors(3)).Ok?
    ensures MakeDesign(SignVectors(3)).value.factorNames == ["A", "B", "C"]
  {
    FirstThreeNames();
    assert MakeDesign(SignVectors(3)).value.factorNames == [GetVarName(0), GetVarName(1), GetVarName(2)];
  }

  lemma FirstThreeNames()
    ensures GetVarName(0) == "A" && GetVarName(1) == "B" && GetVarName(2) == "C"
  {
    SingleLetterName(0);
    SingleLetterName(1);
    SingleLetterName(2);
  }
}
