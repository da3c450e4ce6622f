/** dexpy/model.py: the patsy formula text of a full quadratic model, built by
    joining the factor names. */
module Formula {

  /** Python's `sep.join(parts)`. */
  function Join(parts: seq<string>, sep: string): (s: string)
    ensures |parts| == 0 ==> s == ""
    ensures |parts| == 1 ==> s == parts[0]
  {
    if |parts| == 0 then ""
    else if |parts| == 1 then parts[0]
    else parts[0] + sep + Join(parts[1..], sep)
  }

  /** Splitting at every occurrence of the character d: the pieces between
      the separators, as Python's `s.split(d)` gives them. */
  function Split(s: string, d: char): (pieces: seq<string>)
    ensures |pieces| >= 1
  {
    if |s| == 0 then [""]
    else
      var rest := Split(s[1..], d);
      if s[0] == d then [""] + rest
      else [[s[0]] + rest[0]] + rest[1..]
  }

  /** `make_quadratic_model(factor_names)`: the two-factor interaction model
      `(A+B+...)**2` plus one `pow(X, 2)` term per factor, joined with
      `,2)+pow(` so that only the last term has a space before its 2. */
  function MakeQuadraticModel(names: seq<string>): (formula: string)
    ensures var interaction := "(" + Join(names, "+") + ")**2+";
      |formula| >= |interaction| + 4 && formula[..|interaction|] == interaction
    ensures |formula| >= 4 && formula[|formula| - 4..] == ", 2)"
  {
    "(" + Join(names, "+") + ")**2" + "+" + "pow(" + Join(names, ",2)+pow(") + ", 2)"
  }

  /** The squared term of factor `name`, in the spelling the formula gives it:
      `pow(X,2)` for every factor but the last, `pow(X, 2)` for the last. */
  function SquareTerm(name: string, last: bool): string
  {
    "pow(" + name + (if last then ", 2)" else ",2)")
  }

  function SquareTerms(names: seq<string>): (terms: seq<string>)
    ensures |terms| == |names|
  {
    seq(|names|, i requires 0 <= i < |names| => SquareTerm(names[i], i == |names| - 1))
  }

  /** For at least one factor the formula is the interaction part followed by
      one square term per factor, in factor order, joined with `+`. */
  lemma QuadraticModelTerms(names: seq<string>)
    requires |names| >= 1
    ensures MakeQuadraticModel(names) == "(" + Join(names, "+") + ")**2" + "+" + Join(SquareTerms(names), "+")
  {
    var interaction := "(" + Join(names, "+") + ")**2" + "+";
    var squares := Join(names, ",2)+pow(");
    SquareTermsJoin(names);
    ConcatAssociates(interaction, "pow(", squares, ", 2)");
  }

  lemma ConcatAssociates(a: string, b: string, c: string, d: string)
    ensures a + b + c + d == a + (b + c + d)
  {
  }

  lemma {:induction false} SquareTermsJoin(names: seq<string>)
    requires |names| >= 1
    ensures "pow(" + Join(names, ",2)+pow(") + ", 2)" == Join(SquareTerms(names), "+")
  {
    if |names| == 1 {
      assert SquareTerms(names) == [SquareTerm(names[0], true)];
    } else {
      var rest := names[1..];
      SquareTermsJoin(rest);
      assert SquareTerms(names) == [SquareTerm(names[0], false)] + SquareTerms(rest);
      assert SquareTerms(names)[1..] == SquareTerms(rest);
      calc {
        "pow(" + Join(names, ",2)+pow(") + ", 2)";
        "pow(" + (names[0] + ",2)+pow(" + Join(rest, ",2)+pow(")) + ", 2)";
        ("pow(" + names[0] + ",2)") + "+" + ("pow(" + Join(rest, ",2)+pow(") + ", 2)");
        SquareTerm(names[0], false) + "+" + Join(SquareTerms(rest), "+");
        Join(SquareTerms(names), "+");
      }
    }
  }

  /** Splitting a text without the separator gives the text back whole. */
  lemma {:induction false} SplitWithoutSeparator(s: string, d: char)
    requires d !in s
    ensures Split(s, d) == [s]
  {
    if |s| > 0 {
      SplitWithoutSeparator(s[1..], d);
      assert [s[0]] + s[1..] == s;
    }
  }

  /** Splitting at the first separator. */
  lemma {:induction false} SplitAtSeparator(a: string, d: char, b: string)
    requires d !in a
    ensures Split(a + [d] + b, d) == [a] + Split(b, d)
  {
    if |a| == 0 {
      assert a + [d] + b == [d] + b;
      assert ([d] + b)[1..] == b;
    } else {
      var s := a + [d] + b;
      assert s[1..] == a[1..] + [d] + b;
      SplitAtSeparator(a[1..], d, b);
      assert [a[0]] + a[1..] == a;
    }
  }

  /** The interaction part lists the factor names back: splitting it at `+`
      recovers exactly the names, provided none of them contains a `+`. */
  lemma {:induction false} SplitJoinRoundTrip(names: seq<string>)
    requires |names| >= 1
    requires forall i :: 0 <= i < |names| ==> '+' !in names[i]
    ensures Split(Join(names, "+"), '+') == names
  {
    if |names| == 1 {
      SplitWithoutSeparator(names[0], '+');
    } else {
      var rest := names[1..];
      SplitJoinRoundTrip(rest);
      assert Join(names, "+") == names[0] + ['+'] + Join(rest, "+");
      SplitAtSeparator(names[0], '+', Join(rest, "+"));
      assert [names[0]] + rest == names;
    }
  }

  /** The formula the code produces for two factors. */
  lemma TwoFactorModel()
    ensures MakeQuadraticModel(["A", "B"]) == "(A+B)**2+pow(A,2)+pow(B, 2)"
  {
    assert Join(["A", "B"], "+") == "A+B";
    assert Join(["A", "B"], ",2)+pow(") == "A,2)+pow(B";
    assert "(" + "A+B" + ")**2" + "+" + "pow(" == "(A+B)**2+pow(";
    assert "(A+B)**2+pow(" + "A,2)+pow(B" == "(A+B)**2+pow(A,2)+pow(B";
  }

  /** The formulas for one factor and for none: with no factors the text is
      still produced, with empty parentheses. */
  lemma OneAndNoFactorModels()
    ensures MakeQuadraticModel(["A"]) == "(A)**2+pow(A, 2)"
    ensures MakeQuadraticModel([]) == "()**2+pow(, 2)"
  {
    ConcatAssociates("(A)**2+", "pow(", "A", ", 2)");
    ConcatAssociates("()**2+", "pow(", "", ", 2)");
  }
}
