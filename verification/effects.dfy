/** dexpy/effects.py: the t-values behind the Pareto chart of effects, each
    coefficient divided by its standard error, in input order. */
module Effects {
  import opened Common

  /** Standard error i exists and is non-zero, so coefficient i can be divided
      by it. */
  predicate Divisible(ses: seq<real>, i: nat)
  {
    i < |ses| && ses[i] != 0.0
  }

  /** t is the ratio x / d: multiplied back by d it gives x. */
  predicate IsRatio(t: real, x: real, d: real)
  {
    d != 0.0 && t * d == x
  }

  /** `plot_pareto(coefficients, standard_errors)`. It walks the coefficients
      in order and fails at the first one whose standard error is missing
      (IndexError) or zero (ZeroDivisionError); extra standard errors are
      ignored. Each t-value times its standard error gives back the
      coefficient. */
  method PlotPareto(coefs: seq<real>, ses: seq<real>) returns (r: Result<seq<real>>)
    ensures r.Ok? <==> forall i :: 0 <= i < |coefs| ==> Divisible(ses, i)
    ensures r.Ok? ==> |r.value| == |coefs|
    ensures r.Ok? ==> forall i :: 0 <= i < |coefs| ==> Divisible(ses, i) && IsRatio(r.value[i], coefs[i], ses[i])
    ensures r.Err? ==>
      exists k ::
        && 0 <= k < |coefs| && !Divisible(ses, k)
        && (forall t :: 0 <= t < k ==> Divisible(ses, t))
        && r.error == (if k < |ses| then DivisionByZero else IndexOutOfRange)
  {
    var effects: seq<real> := [];
    var i := 0;
    while i < |coefs|
      invariant 0 <= i <= |coefs| && |effects| == i
      invariant forall t :: 0 <= t < i ==> Divisible(ses, t)
      invariant forall t :: 0 <= t < i ==> Divisible(ses, t) && IsRatio(effects[t], coefs[t], ses[t])
    {
      if i >= |ses| {
        assert !Divisible(ses, i);
        return Err(IndexOutOfRange);
      }
      if ses[i] == 0.0 {
        assert !Divisible(ses, i);
        return Err(DivisionByZero);
      }
      var ratio := coefs[i] / ses[i];
      DivisionUndone(coefs[i], ses[i]);
      effects := effects + [ratio];
      i := i + 1;
    }
    r := Ok(effects);
  }

  lemma DivisionUndone(x: real, d: real)
    requires d != 0.0
    ensures IsRatio(x / d, x, d)
  {
  }

  /** The t-values keep the order of the coefficients for series of any
      length: nothing is sorted, so entry i is coefficient i over error i. */
  method ParetoKeepsOrder(coefs: seq<real>, ses: seq<real>) returns (r: Result<seq<real>>)
    requires forall i :: 0 <= i < |coefs| ==> Divisible(ses, i)
    ensures r.Ok? && |r.value| == |coefs|
    ensures forall i :: 0 <= i < |coefs| ==> Divisible(ses, i) && r.value[i] == coefs[i] / ses[i]
  {
    r := PlotPareto(coefs, ses);
    forall i | 0 <= i < |coefs|
      ensures r.value[i] == coefs[i] / ses[i]
    {
      RecoverQuotient(r.value[i], coefs[i], ses[i]);
    }
  }

  lemma RecoverQuotient(t: real, x: real, d: real)
    requires IsRatio(t, x, d)
    ensures t == x / d
  {
  }
}
