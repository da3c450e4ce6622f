/** Shared vocabulary of the model: the failures the library raises, a
    failure-compatible result type, and the small arithmetic over real rows
    (sums, powers of two, mixtures) that several builders use. */
module Common {

  /** The Python exceptions the modelled code can raise, named by their cause. */
  datatype Error =
    | NegativeFactorial      // math.factorial of a negative number (ValueError)
    | EmptyTable             // factor_data[0] of an empty run list (IndexError)
    | IndexOutOfRange        // a list or array index past its end (IndexError)
    | DivisionByZero         // float division by zero (ZeroDivisionError)
    | SubstringNotFound      // str.index found no occurrence (ValueError)
    | NegativeSampleCount    // numpy.linspace asked for a negative count (ValueError)
    | TooManyValues          // a DataFrame row wider than its column list (ValueError)

  /** Either a value or the exception that replaced it. */
  datatype Result<+T> = Ok(value: T) | Err(error: Error) {
    predicate IsFailure() {
      Err?
    }

    function PropagateFailure<U>(): Result<U>
      requires Err?
    {
      Err(error)
    }

    function Extract(): T
      requires Ok?
    {
      value
    }
  }

  /** An optional argument (Python's `None` default). */
  datatype Option<+T> = None | Some(value: T)

  /** Puts `x` in front of every row, keeping the rows in order. */
  function PrependAll<T>(x: T, rows: seq<seq<T>>): (r: seq<seq<T>>)
    ensures |r| == |rows|
    ensures forall i :: 0 <= i < |rows| ==> r[i] == [x] + rows[i]
  {
    seq(|rows|, i requires 0 <= i < |rows| => [x] + rows[i])
  }

  function Pow2(n: nat): (r: nat)
    ensures r >= 1
  {
    if n == 0 then 1 else 2 * Pow2(n - 1)
  }

  /** Sum of a row, accumulated from the front as Python's sum would. */
  function Sum(s: seq<real>): real
  {
    if |s| == 0 then 0.0 else Sum(s[..|s| - 1]) + s[|s| - 1]
  }

  /** A row of component proportions: every entry in [0, 1], entries sum to 1. */
  predicate IsMixture(row: seq<real>)
  {
    && (forall j :: 0 <= j < |row| ==> 0.0 <= row[j] <= 1.0)
    && Sum(row) == 1.0
  }

  /** A row holding the value `p` in each of its `n` places. */
  function Uniform(n: nat, p: real): (row: seq<real>)
    ensures |row| == n
    ensures forall j :: 0 <= j < n ==> row[j] == p
  {
    seq(n, _ => p)
  }

  lemma {:induction false} SumUniform(n: nat, p: real)
    ensures Sum(Uniform(n, p)) == n as real * p
  {
    if n > 0 {
      assert Uniform(n, p)[..n - 1] == Uniform(n - 1, p);
      SumUniform(n - 1, p);
    }
  }

  /** A row whose entries are all non-negative has no entry, nor pair of
      entries, larger than its sum. */
  lemma {:induction false} PairBelowSum(s: seq<real>, i: nat, j: nat)
    requires i < |s| && j < |s| && i != j
    requires forall t :: 0 <= t < |s| ==> s[t] >= 0.0
    ensures s[i] + s[j] <= Sum(s)
  {
    var n := |s| - 1;
    var prefix := s[..n];
    assert forall t :: 0 <= t < |prefix| ==> prefix[t] == s[t];
    if i == n {
      EntryBelowSum(prefix, j);
    } else if j == n {
      EntryBelowSum(prefix, i);
    } else {
      PairBelowSum(prefix, i, j);
    }
  }

  lemma {:induction false} EntryBelowSum(s: seq<real>, i: nat)
    requires i < |s|
    requires forall t :: 0 <= t < |s| ==> s[t] >= 0.0
    ensures s[i] <= Sum(s)
  {
    var n := |s| - 1;
    var prefix := s[..n];
    assert forall t :: 0 <= t < |prefix| ==> prefix[t] == s[t];
    SumNonNegative(prefix);
    if i < n {
      EntryBelowSum(prefix, i);
    }
  }

  lemma {:induction false} SumNonNegative(s: seq<real>)
    requires forall t :: 0 <= t < |s| ==> s[t] >= 0.0
    ensures Sum(s) >= 0.0
  {
    if |s| > 0 {
      var prefix := s[..|s| - 1];
      assert forall t :: 0 <= t < |prefix| ==> prefix[t] == s[t];
      SumNonNegative(prefix);
    }
  }

  /** Non-negative entries summing to 1 are a mixture: no entry can exceed 1. */
  lemma NonNegativeUnitSumIsMixture(s: seq<real>)
    requires forall t :: 0 <= t < |s| ==> s[t] >= 0.0
    requires Sum(s) == 1.0
    ensures IsMixture(s)
  {
    forall t | 0 <= t < |s|
      ensures s[t] <= 1.0
    {
      EntryBelowSum(s, t);
    }
  }

  /** If every entry of t is k times the matching entry of s, so is the sum. */
  lemma {:induction false} SumScaled(s: seq<real>, t: seq<real>, k: real)
    requires |s| == |t|
    requires forall j :: 0 <= j < |s| ==> t[j] == k * s[j]
    ensures Sum(t) == k * Sum(s)
  {
    if |s| > 0 {
      var n := |s| - 1;
      var s', t' := s[..n], t[..n];
      forall j | 0 <= j < n
        ensures t'[j] == k * s'[j]
      {
        assert t'[j] == t[j] && s'[j] == s[j];
      }
      SumScaled(s', t', k);
      ScaledStep(Sum(t), Sum(t'), t[n], Sum(s), Sum(s'), s[n], k);
    }
  }

  /** One step of the induction above, over plain numbers. */
  lemma ScaledStep(total: real, prefix: real, last: real, total': real, prefix': real, last': real, k: real)
    requires total == prefix + last && total' == prefix' + last'
    requires prefix == k * prefix' && last == k * last'
    ensures total == k * total'
  {
  }

  /** If every entry of t other than entry c is k times the matching entry of
      s, the sums outside entry c are k times apart as well. */
  lemma {:induction false} SumScaledOutside(s: seq<real>, t: seq<real>, c: nat, k: real)
    requires |s| == |t| && c < |s|
    requires forall j :: 0 <= j < |s| && j != c ==> t[j] == k * s[j]
    ensures Sum(t) == t[c] + k * (Sum(s) - s[c])
  {
    var n := |s| - 1;
    var s', t' := s[..n], t[..n];
    if c == n {
      forall j | 0 <= j < n
        ensures t'[j] == k * s'[j]
      {
        assert t'[j] == t[j] && s'[j] == s[j];
      }
      SumScaled(s', t', k);
    } else {
      forall j | 0 <= j < n && j != c
        ensures t'[j] == k * s'[j]
      {
        assert t'[j] == t[j] && s'[j] == s[j];
      }
      SumScaledOutside(s', t', c, k);
      assert t'[c] == t[c] && s'[c] == s[c];
      OutsideStep(Sum(t), Sum(t'), t[n], t[c], Sum(s), Sum(s'), s[n], s[c], k);
    }
  }

  /** One step of the induction above, over plain numbers. */
  lemma OutsideStep(total: real, prefix: real, last: real, kept: real,
                    total': real, prefix': real, last': real, kept': real, k: real)
    requires total == prefix + last && total' == prefix' + last'
    requires prefix == kept + k * (prefix' - kept') && last == k * last'
    ensures total == kept + k * (total' - kept')
  {
  }

  /** If every entry of t other than entry c equals v, the entries outside c
      add up to v times their number. */
  lemma {:induction false} SumConstantOutside(t: seq<real>, c: nat, v: real)
    requires c < |t|
    requires forall j :: 0 <= j < |t| && j != c ==> t[j] == v
    ensures Sum(t) == t[c] + (|t| - 1) as real * v
  {
    var n := |t| - 1;
    var t' := t[..n];
    assert forall j :: 0 <= j < n ==> t'[j] == t[j];
    if c == n {
      SumOfConstant(t', v);
    } else {
      SumConstantOutside(t', c, v);
      OneMoreTimes(n - 1, v);
    }
  }

  lemma {:induction false} SumOfConstant(t: seq<real>, v: real)
    requires forall j :: 0 <= j < |t| ==> t[j] == v
    ensures Sum(t) == |t| as real * v
  {
    if |t| > 0 {
      var n := |t| - 1;
      var t' := t[..n];
      assert forall j :: 0 <= j < n ==> t'[j] == t[j];
      SumOfConstant(t', v);
      OneMoreTimes(n, v);
    }
  }

  lemma OneMoreTimes(m: nat, v: real)
    ensures m as real * v + v == (m + 1) as real * v
  {
  }
}
