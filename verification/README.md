# dexpy core in Dafny

A Dafny model of the combinatorial core of dexpy, a Python library for
designing experiments. It covers:

- the factor-naming scheme of `Design`: the 25-letter alphabet, `get_var_name`
  and `get_var_id`, the column names the constructor gives, and `runs`;
- the two-level full factorial `build_factorial`;
- the binomial count `count_n_choose_k`;
- the simplex-centroid and simplex-lattice mixture designs;
- the points along the Cox effect direction;
- the text of a full quadratic model formula;
- the box constraints of the optimal-design bootstrap;
- the non-centrality adjustment of the power module;
- the t-values behind the Pareto chart of effects.

Each source file is one module:

| file | module | source |
|---|---|---|
| common.dfy | `Common` | shared: exceptions as `Result`, sums of real rows, mixtures |
| eval.dfy | `Eval` | dexpy/eval.py |
| design.dfy | `Designs` | dexpy/design.py |
| factorial.dfy | `Factorial` | dexpy/factorial.py |
| combinations.dfy | `Combinations` | `itertools.combinations` and `DataFrame.loc[row, combo] = values` |
| simplex_centroid.dfy | `SimplexCentroid` | dexpy/simplex_centroid.py |
| simplex_lattice.dfy | `SimplexLattice` | dexpy/simplex_lattice.py |
| cox_effects.dfy | `CoxEffects` | dexpy/cox_effects.py |
| formula.dfy | `Formula` | dexpy/model.py |
| optimal.dfy | `Optimal` | dexpy/optimal.py |
| power.dfy | `Power` | dexpy/power.py |
| effects.dfy | `Effects` | dexpy/effects.py |

Modelling choices:

- Python exceptions become `Err` values of a `Result` type, one `Error` kind
  per cause. `math.factorial` of a negative number is `NegativeFactorial`. An
  index past the end is `IndexOutOfRange`. A zero divisor is
  `DivisionByZero`. `str.index` without a match is `SubstringNotFound`.
  `numpy.linspace` with a negative count is `NegativeSampleCount`.
- Floating-point values are exact `real`s, so 1/3, 2/3 and 1/i are exact and
  "sums to 1" is an equality.
- A design table is a `seq<seq<real>>` (or `seq<seq<int>>` for the factorial).
  Components and factors are column indices 0..q−1. `get_factor_names` is
  assumed to give q distinct column names, so `itertools.combinations` over
  names visits the same index subsets in the same order.
- The mixture builders first preallocate a zero table of `run_count` rows and
  then overwrite rows one by one. The model lists the written rows and proves
  their number equals the precomputed `run_count`. So every preallocated row
  is written, and no all-zero row is left over.
- `valid_vars` is the function `Designs.ValidVars`, built letter by letter
  from a formula. `Designs.ValidVarsIsAlphabetWithoutI` proves it equal to
  the string "ABCDEFGHJKLMNOPQRSTUVWXYZ" that the source writes out.
- `DataFrame.loc[row, combo] = values` is `Combinations.Blend`: a zero row with
  `values[t]` written at column `combo[t]`.

## Model

| member | source | states |
|---|---|---|
| Designs.ValidVarsIsAlphabetWithoutI | dexpy/design.py:13 | The alphabet, defined letter by letter, is exactly the string "ABCDEFGHJKLMNOPQRSTUVWXYZ": 25 letters, strictly increasing. A character belongs to it exactly when it is an upper-case Latin letter other than 'I'. |
| Designs.GetVarName | dexpy/design.py:22-29 | A name has one or two characters, and its letter is alphabet[id mod 25] with a non-negative modulus. It is a single letter exactly when id < 25. The suffix is `'` for ids 25 to 49 and `"` from 50 on. Negative ids wrap and get no suffix. |
| Designs.GetVarNameExamples | dexpy/design.py:22-29 | 0→A, 24→Z, 25→A', 35→L', 49→Z', 50→A", 52→C", 74→Z", −1→Z, 75→A". |
| Designs.GetVarNameInjectiveBelow75 | dexpy/design.py:24-29 | Ids 0 to 74 get pairwise different names. |
| Designs.GetVarNameWrapsFrom50 | dexpy/design.py:24-26 | From id 50 on, names repeat with period 25. |
| Designs.IndexOf | dexpy/design.py:34 | `str.index`: the result is a position where the needle occurs, and no earlier position from the start point has it. The error means it occurs nowhere. |
| Designs.GetVarId | dexpy/design.py:32-34 | A name is accepted exactly when it occurs as a substring of the alphabet, and its id is the first such position. |
| Designs.GetVarIdInvertsName | dexpy/design.py:22-34 | get_var_id(get_var_name(i)) = i for 0 ≤ i < 25. |
| Designs.GetVarIdRejectsForeignCharacters | dexpy/design.py:32-34 | A name containing any character outside the alphabet ('I', a prime, a digit) is rejected. |
| Designs.GetVarIdRejectsPrimedNames | dexpy/design.py:25-34 | The name of any id ≥ 25 is rejected by get_var_id. |
| Designs.GetVarIdAcceptsNonNames | dexpy/design.py:32-34 | The substring search accepts strings that are not names: "" gets id 0, "BC" gets 1, and the whole alphabet gets 0. |
| Designs.GetVarIdExact | dexpy/design.py:32-34 | The corrected lookup accepts exactly the one-letter strings of an alphabet letter, and returns that letter's position. |
| Designs.GetVarIdExactInvertsName | dexpy/design.py:22-34 | The corrected lookup inverts get_var_name on ids 0 to 24. |
| Designs.GetVarNameInvertsIdExact | dexpy/design.py:22-34 | get_var_name inverts the corrected lookup on every name it accepts. |
| Designs.MakeDesign | dexpy/design.py:15-17 | Construction fails exactly when there are no runs (IndexError) or a later run has more values than the first (ValueError). Otherwise the runs are kept, there is one column name per entry of the first run, and name i is get_var_name(i). |
| Designs.MakeDesignRaggedRuns | dexpy/design.py:15-17 | [[1],[1,2]] fails with ValueError, while [[1,2],[3]] is accepted. |
| Designs.Runs | dexpy/design.py:61-64 | `runs` is the number of rows of factor data; Designs.MakeDesignRunsAndNames states that for a constructed design it is the number of runs given. |
| Designs.MakeDesignRunsAndNames | dexpy/design.py:61-64 | `runs` equals the number of runs given. Column names are pairwise distinct for up to 75 factors. |
| Factorial.SignVectors | dexpy/factorial.py:20 | `itertools.product([-1, 1], repeat=k)` yields 2^k runs, each of k entries that are −1 or +1. |
| Factorial.RunIsBinaryNumeral | dexpy/factorial.py:20 | Run r, read as a k-digit binary numeral (most significant first, −1 as 0, +1 as 1), is r. |
| Factorial.SignVectorAtItsIndex | dexpy/factorial.py:20-21 | Every ±1 vector of length k is the run at the index its numeral names. |
| Factorial.EverySignVectorExactlyOnce | dexpy/factorial.py:20-21 | Every ±1 vector of length k occurs, and no two runs are equal. |
| Factorial.BuildFactorial | dexpy/factorial.py:7-22 | Succeeds exactly when run_count = 2^k. Then the design has run_count runs, every run is a sign vector of length k, and there are k factor names. |
| Factorial.BuildFactorialExample | dexpy/factorial.py:18-22 | With 3 factors and 8 runs, the first run is (−1,−1,−1), the last is (1,1,1), and the names are A, B, C. With 7 runs it fails. |
| Eval.CountNChooseK | dexpy/eval.py:19-23 | Over exact reals, succeeds exactly when 0 ≤ k ≤ n. The chained division is then exact and equals Pascal's count C(n,k), a natural number. |
| Eval.FactorialDivision | dexpy/eval.py:21-23 | n!/k!/(n−k)! equals C(n,k) as defined by Pascal's rule. |
| Eval.BinomTimesFactorials | dexpy/eval.py:21-23 | C(n,k)·k!·(n−k)! = n! for k ≤ n. |
| Eval.CountEdgesAndSymmetry | dexpy/eval.py:21-23 | C(n,0) = C(n,n) = 1 and C(n,k) = C(n,n−k). |
| Eval.BinomAboveIsZero | dexpy/eval.py:19-23 | There are no k-subsets of an n-set for k > n, where count_n_choose_k raises instead. |
| Eval.SumBinomRow | dexpy/simplex_centroid.py:31-33 | C(n,0) + … + C(n,n) = 2^n. |
| Combinations.Combos | dexpy/simplex_centroid.py:43 | `itertools.combinations` yields C(n−lo,k) lists, each a strictly increasing k-subset of lo..n−1. |
| Combinations.CombosSorted | dexpy/simplex_centroid.py:43 | The combinations come in strictly increasing lexicographic order. |
| Combinations.CombosComplete | dexpy/simplex_centroid.py:43 | Every strictly increasing k-subset of lo..n−1 is among the combinations. |
| Combinations.SingletonCombos | dexpy/simplex_lattice.py:45 | The 1-combinations are [lo], [lo+1], … in order. |
| Combinations.FullCombo | dexpy/simplex_centroid.py:41-43 | The only combination of all remaining items is the whole range. |
| Combinations.SubsetsCount | dexpy/simplex_centroid.py:31-43 | Visiting sizes 1..m yields C(n,1) + … + C(n,m) subsets. |
| Combinations.SubsetsSorted | dexpy/simplex_centroid.py:41-43 | Subsets come ordered by size, then lexicographically. |
| Combinations.SubsetsComplete | dexpy/simplex_centroid.py:41-43 | Every non-empty increasing subset of size ≤ m is visited. |
| Combinations.BlendAt | dexpy/simplex_centroid.py:44 | After `loc[row, combo] = values` on a zero row, entry j holds the value written at j's position in combo, and 0 when j is not in combo. |
| Combinations.BlendSum | dexpy/simplex_centroid.py:44 | The row's sum equals the sum of the written values. |
| Combinations.BlendIsMixture | dexpy/simplex_centroid.py:44 | Writing proportions in [0,1] that sum to 1 gives a mixture row. |
| Combinations.UniformBlendInjective | dexpy/simplex_centroid.py:42-44 | Two equal-weight blends are the same row only when they cover the same subset. |
| Combinations.SingletonBlendIsPure | dexpy/simplex_lattice.py:45-46 | Writing 1 into one column gives that component's unit vector. |
| SimplexCentroid.CentroidRunCount | dexpy/simplex_centroid.py:31-33 | The accumulated run_count after sizes 1..m is C(q,0) + … + C(q,m) minus one, that is C(q,1) + … + C(q,m). |
| SimplexCentroid.BuildSimplexCentroid | dexpy/simplex_centroid.py:9-48 | The design has one run per non-empty subset of components. Its meaning is carried by SimplexCentroid.CentroidRowEntries (1/i on an i-subset's components, 0 elsewhere), SimplexCentroid.CentroidRunCountMatches (2^q − 1 runs) and SimplexCentroid.CentroidOrderAndCoverage (size-major, lexicographic, every subset). |
| SimplexCentroid.CentroidRunCountMatches | dexpy/simplex_centroid.py:31-45 | The design has 2^q − 1 runs, exactly the preallocated run_count. |
| SimplexCentroid.CentroidRowEntries | dexpy/simplex_centroid.py:41-45 | The run of an i-subset holds 1/i on exactly its components and 0 elsewhere. |
| SimplexCentroid.CentroidRowsAreMixtures | dexpy/simplex_centroid.py:41-45 | Every run has q entries in [0,1] summing to 1. |
| SimplexCentroid.CentroidOrderAndCoverage | dexpy/simplex_centroid.py:41-43 | Runs are ordered by subset size, then lexicographically, and every non-empty subset of components has a run. |
| SimplexCentroid.CentroidRowsDistinct | dexpy/simplex_centroid.py:40-45 | No two runs are equal. |
| SimplexCentroid.CentroidStartsWithPureBlends | dexpy/simplex_centroid.py:41-45 | Runs 0..q−1 are the unit vectors in component order. |
| SimplexCentroid.CentroidEndsWithOverallCentroid | dexpy/simplex_centroid.py:41-45 | The last run is (1/q, …, 1/q). |
| SimplexLattice.LatticeRunCount | dexpy/simplex_lattice.py:30-37 | Succeeds exactly for linear order or q ≥ 2. The count is q for linear, q + C(q,2) for quadratic, and q + 2·C(q,2) + C(q,3) for cubic. |
| SimplexLattice.CubicGuardNeeded | dexpy/simplex_lattice.py:36-37 | A two-component cubic lattice has 4 runs. Counting its triples without the guard would raise. |
| SimplexLattice.BuildSimplexLattice | dexpy/simplex_lattice.py:10-67 | Fails exactly when the run count cannot be computed. Otherwise the number of rows written equals the preallocated run_count, and the rows are exactly the lattice rows that the row lemmas below describe. |
| SimplexLattice.LatticeRowCount | dexpy/simplex_lattice.py:30-65 | The row lists of every order have as many rows as run_count says. |
| SimplexLattice.LatticeStartsWithPureBlends | dexpy/simplex_lattice.py:43-47 | For every order, rows 0..q−1 are the unit vectors. |
| SimplexLattice.LinearLatticeIsIdentity | dexpy/simplex_lattice.py:43-47 | The linear lattice is exactly the q×q identity table. |
| SimplexLattice.QuadraticBinaryBlends | dexpy/simplex_lattice.py:49-53 | Quadratic row q+t holds 1/2 on the two components of the t-th pair and 0 elsewhere. |
| SimplexLattice.CubicBinaryBlends | dexpy/simplex_lattice.py:54-60 | Cubic rows q+2t and q+2t+1 put 2/3,1/3 and then 1/3,2/3 on the t-th pair, and 0 elsewhere. |
| SimplexLattice.CubicTernaryBlends | dexpy/simplex_lattice.py:61-65 | For q > 2, the cubic rows after the binary blends hold 1/3 on the t-th triple and 0 elsewhere. |
| SimplexLattice.LatticeRowsAreMixtures | dexpy/simplex_lattice.py:43-65 | Every row of every order has q entries in [0,1] summing to 1. |
| SimplexLattice.MixtureProportions | dexpy/simplex_lattice.py:46-64 | Each list of proportions the builder writes ([1], [1/2,1/2], [2/3,1/3], [1/3,2/3], [1/3,1/3,1/3]) sums to 1. |
| CoxEffects.Linspace | dexpy/cox_effects.py:17-18 | Fails exactly for a negative count. Otherwise it gives num values in [0,1]. The first is 0, and the last is 1 when num ≥ 2. |
| CoxEffects.LinspaceEquallySpaced | dexpy/cox_effects.py:18 | Consecutive samples differ by 1/(num−1). |
| CoxEffects.CoxRow | dexpy/cox_effects.py:22-36 | Each point has q components, and the chosen component sits at the new location. |
| CoxEffects.GenerateCoxPoints | dexpy/cox_effects.py:5-38 | With given locations: one point per location, each of q components, with the coordinate at the location. It fails only when there are locations and the coordinate is out of range. With default locations: a count below −1 fails; otherwise, if the coordinate is in range, there are n_points + 1 points (and with no points at all the result is empty). With given locations, point i is exactly the Cox row at location i. |
| CoxEffects.CoxKeepsRatios | dexpy/cox_effects.py:34-36 | From a non-pure point, every other component is scaled by the same factor (1 − nl)/(1 − x_c). |
| CoxEffects.CoxKeepsZeros | dexpy/cox_effects.py:34-36 | A component that is 0 in a non-pure point stays 0. |
| CoxEffects.CoxFromPureBlend | dexpy/cox_effects.py:32-33 | From a pure blend of the coordinate, every other component is (1 − nl)/(q − 1). |
| CoxEffects.CoxRowThroughPoint | dexpy/cox_effects.py:26-36 | Moving the coordinate to its current value reproduces the point: always for a non-pure point, and for a pure blend when the point is a mixture. |
| CoxEffects.CoxRowKeepsSum | dexpy/cox_effects.py:22-36 | For q ≥ 2, if the point sums to 1, every Cox point sums to 1. |
| CoxEffects.CoxRowIsMixture | dexpy/cox_effects.py:22-36 | From a mixture, every location in [0,1] gives a mixture. |
| CoxEffects.GivenCoxPointsAreMixtures | dexpy/cox_effects.py:5-38 | From a mixture of at least two components, every point generated at given locations in [0,1] is a mixture. |
| CoxEffects.DefaultCoxLocations | dexpy/cox_effects.py:17-24 | With default locations and n_points ≥ 1 there are n_points + 1 points. Point i puts the coordinate at i/n_points. |
| Formula.MakeQuadraticModel | dexpy/model.py:3-8 | The formula begins with the interaction part `(A+B+…)**2+` and ends with `, 2)`. Formula.QuadraticModelTerms states the whole term structure. |
| Formula.QuadraticModelTerms | dexpy/model.py:6-8 | For at least one name, the formula is the interaction part followed by one squared term per name, in name order, joined with "+". |
| Formula.SquareTermsJoin | dexpy/model.py:7 | Joining with ",2)+pow(" gives `pow(X,2)` for each name but the last, and `pow(X, 2)` for the last. |
| Formula.SplitJoinRoundTrip | dexpy/model.py:6 | Splitting the interaction part's name list at "+" recovers exactly the names, in order, when no name contains "+". |
| Formula.TwoFactorModel | dexpy/model.py:3-8 | [A,B] gives `(A+B)**2+pow(A,2)+pow(B, 2)`: only the last squared term has a space before its 2. |
| Formula.OneAndNoFactorModels | dexpy/model.py:3-8 | [A] gives `(A)**2+pow(A, 2)`, and [] still gives a formula, `()**2+pow(, 2)`. |
| Optimal.BoxConstraints | dexpy/optimal.py:36-46 | The matrix is 2f×f and the bounds have length 2f, all 1. Row 2i is −1 and row 2i+1 is +1 in column i, and every other entry is 0. |
| Optimal.BoxRowsOfFactor | dexpy/optimal.py:39-46 | Rows 2i and 2i+1 evaluate to −x_i and x_i. |
| Optimal.BoxFeasibleIffInCube | dexpy/optimal.py:35-46 | A·x ≤ b holds exactly when every coordinate of x lies in [−1, 1]. |
| Optimal.StartPointInsideBox | dexpy/optimal.py:34 | The fixed start point has the box's dimension exactly when f = 2, and then it satisfies the constraints. |
| Power.AlwaysPositive | dexpy/power.py:47-49 | True exactly when no entry is negative. Zero counts, and the empty column qualifies. |
| Power.AdjustNonCentrality | dexpy/power.py:41-45 | The result is 4·nc when no entry is negative, and nc when some entry is. |
| Power.SquaredColumnQuadrupled | dexpy/power.py:41-49 | A column of squares always gets 4·nc. |
| Power.AdjustNonCentralityEdges | dexpy/power.py:41-49 | A column containing −1 keeps nc, and the empty column gets 4·nc. |
| Effects.PlotPareto | dexpy/effects.py:2-7 | Succeeds exactly when every coefficient has a non-zero standard error. Then there is one t-value per coefficient, and each t-value times its error gives the coefficient back. Otherwise it fails at the first bad index: missing error means IndexError, zero error means ZeroDivisionError. |
| Effects.ParetoKeepsOrder | dexpy/effects.py:2-7 | For series of any length whose errors are all present and non-zero, the call succeeds with one t-value per coefficient, and entry i is coefficient i over error i: nothing is sorted. |

## Left out

- dexpy/alias.py, `det_xtxi` in dexpy/eval.py and `f_power` in dexpy/power.py:
  floating-point linear algebra and calls into numpy and scipy.
- The sampler `hit_and_run`, the patsy model and design matrix, and the search
  in dexpy/optimal.py: randomness and foreign calls. `build_optimal` only
  returns the bootstrap sample, and only its box-constraint loop is modelled.
- `Design.load` and `create_model_matrix` in dexpy/design.py: XML file I/O and
  patsy. The response-data columns of the constructor are not modelled either.
- dexpy/box_behnken.py (reads a CSV file), dexpy/ccd.py (wraps code that is not
  part of this model), dexpy/factor.py (wraps Python's `float` parsing).
- `get_factor_names` and `ModelOrder` are not part of this model.
  `get_factor_names` is taken to give q distinct column names, and
  `ModelOrder` becomes a three-valued datatype.
- pandas and numpy containers: a DataFrame is its table of rows, and column
  labels are indices.
- Floating-point rounding: all arithmetic is over exact reals. So, for
  instance, the cubic proportions sum to exactly 1, and `linspace` returns
  exact fractions.
- Eval.CountNChooseK: Python's true division raises OverflowError when n!/k!,
  or that quotient divided by (n−k)!, leaves the float range. This happens,
  for instance, for any k ≤ 1 with n ≥ 171, since 171! exceeds the range, but
  not for count_n_choose_k(171, 170), where 171!/170! is 171. So the centroid
  builder and the quadratic and cubic lattices raise for q ≥ 171. The linear
  lattice never counts combinations and does not raise. Over exact reals the
  model succeeds in all these cases.
- Designs.MakeDesign: pandas pads a run shorter than the first with NaN. The
  model keeps such a run as given, since a generic run has no NaN value. A run
  longer than the first is modelled as the ValueError it raises.
- Default arguments are not modelled: every parameter is explicit, so the
  default `model_order = ModelOrder.quadratic` of `build_simplex_lattice` and
  the defaults of `generate_cox_points` are passed by the caller.
- CoxEffects.GenerateCoxPoints: the coordinate is a natural number, because
  numpy's wrap-around for negative indices is not modelled.
- Optimal.StartPointInsideBox: only the dimension check and feasibility of the
  fixed two-dimensional start point are stated. What the sampler does with a
  start point of the wrong dimension is not modelled.
- The unit test of `plot_pareto` calls it with a third argument and expects
  bars sorted by size. The code takes two arguments and sorts nothing, and
  the model follows the code.

## Findings

| source | as written | input that shows it | evidently intended | confidence | as-written member | corrected member |
|---|---|---|---|---|---|---|
| dexpy/design.py:32-34 | `get_var_id` searches for the name as a substring of the alphabet string | `""` gets id 0; `"BC"` gets id 1; the whole alphabet gets id 0 | only a single alphabet letter is a factor name, and anything else is rejected | medium (the source marks primed names as unhandled, but not empty or multi-letter names); not executed | Designs.GetVarIdAcceptsNonNames | Designs.GetVarIdExact |
