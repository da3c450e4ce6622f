/** dexpy/design.py: the factor-naming scheme of `Design` (`valid_vars`,
    `get_var_name`, `get_var_id`), the constructor's naming of factor columns
    and the run count `runs`. XML loading and model-matrix evaluation are not
    part of this model. */
module Designs {
  import opened Common

  /** The i-th upper-case Latin letter when 'I' is skipped. */
  function AlphabetLetter(i: nat): (c: char)
    requires i < 25
    ensures 'A' <= c <= 'Z' && c != 'I'
  {
    if i < 8 then ('A' as int + i) as char else ('A' as int + i + 1) as char
  }

  /** `valid_vars`: the upper-case Latin letters without 'I', written out in
      the lemma below. */
  function ValidVars(): (s: string)
    ensures |s| == 25
  {
    seq(25, i requires 0 <= i < 25 => AlphabetLetter(i))
  }

  /** The alphabet is the string "ABCDEFGHJKLMNOPQRSTUVWXYZ": it holds exactly
      the 25 upper-case letters other than 'I', each once and in alphabetical
      order. */
  lemma ValidVarsIsAlphabetWithoutI()
    ensures ValidVars() == "ABCDEFGHJKLMNOPQRSTUVWXYZ"
    ensures |ValidVars()| == 25
    ensures forall i, j :: 0 <= i < j < |ValidVars()| ==> ValidVars()[i] < ValidVars()[j]
    ensures forall c: char :: c in ValidVars() <==> 'A' <= c <= 'Z' && c != 'I'
  {
    forall c: char | 'A' <= c <= 'Z' && c != 'I'
      ensures c in ValidVars()
    {
      var i := if c < 'I' then c as int - 'A' as int else c as int - 'A' as int - 1;
      assert ValidVars()[i] == c;
    }
  }

  /** `get_var_name(var_id)`: the letter at `var_id mod 25` (Python's `%`,
      never negative for a positive divisor), followed by `"` from id 50 on
      and by `'` for ids 25 to 49; a negative id wraps and gets no suffix. */
  function GetVarName(varId: int): (name: string)
    ensures 1 <= |name| <= 2
    ensures name[0] in ValidVars()
    ensures name[0] == ValidVars()[varId % 25]
    ensures |name| == 1 <==> varId < 25
    ensures |name| == 2 ==> name[1] == (if varId >= 50 then '"' else '\'')
  {
    var letter := ValidVars()[varId % |ValidVars()|];
    if varId >= |ValidVars()| * 2 then [letter, '"']
    else if varId >= |ValidVars()| then [letter, '\'']
    else [letter]
  }

  /** The names the library's own examples give. */
  lemma GetVarNameExamples()
    ensures GetVarName(0) == "A" && GetVarName(24) == "Z"
    ensures GetVarName(25) == "A'" && GetVarName(35) == "L'" && GetVarName(49) == "Z'"
    ensures GetVarName(50) == "A\"" && GetVarName(52) == "C\"" && GetVarName(74) == "Z\""
    ensures GetVarName(-1) == "Z" && GetVarName(75) == "A\""
  {
  }

  /** Ids 0 to 74 get pairwise different names, so up to 75 factor columns are
      distinguishable; from 75 on the double-primed names repeat every 25. */
  lemma GetVarNameInjectiveBelow75(i: int, j: int)
    requires 0 <= i < 75 && 0 <= j < 75
    requires GetVarName(i) == GetVarName(j)
    ensures i == j
  {
    var a, b := GetVarName(i), GetVarName(j);
    LettersDistinct(i % 25, j % 25);
    assert (i < 25) == (j < 25) by {
      assert |a| == |b|;
    }
    if i >= 25 {
      assert (i >= 50) == (j >= 50) by {
        assert a[1] == b[1];
      }
    }
    SameLetterSameBlock(i, j);
  }

  lemma SameLetterSameBlock(i: int, j: int)
    requires 0 <= i < 75 && 0 <= j < 75 && i % 25 == j % 25
    requires (i < 25) == (j < 25) && (i >= 50) == (j >= 50)
    ensures i == j
  {
  }

  lemma GetVarNameWrapsFrom50(i: int)
    requires i >= 50
    ensures GetVarName(i + 25) == GetVarName(i)
  {
    assert (i + 25) % 25 == i % 25;
  }

  /** `needle` occurs in `hay` starting at position `p`. */
  predicate OccursAt(hay: string, needle: string, p: nat)
  {
    p + |needle| <= |hay| && hay[p..p + |needle|] == needle
  }

  /** Python's `str.index(sub)` searched from position `from`: the first
      position at which `needle` occurs as a substring of `hay`. */
  function IndexOf(hay: string, needle: string, from: nat): (r: Result<nat>)
    requires from <= |hay|
    ensures r.Ok? ==> from <= r.value && OccursAt(hay, needle, r.value)
    ensures r.Ok? ==> forall p :: from <= p < r.value ==> !OccursAt(hay, needle, p)
    ensures r.Err? ==> forall p :: from <= p ==> !OccursAt(hay, needle, p)
    decreases |hay| - from
  {
    if from + |needle| > |hay| then Err(SubstringNotFound)
    else if hay[from..from + |needle|] == needle then Ok(from)
    else IndexOf(hay, needle, from + 1)
  }

  /** `get_var_id(var_name)` = `valid_vars.index(var_name)`: a substring search,
      so a name is accepted exactly when it occurs inside the alphabet string,
      and the id is the first place it occurs. */
  function GetVarId(varName: string): (r: Result<nat>)
    ensures r.Ok? <==> exists p :: OccursAt(ValidVars(), varName, p)
    ensures r.Ok? ==> OccursAt(ValidVars(), varName, r.value)
    ensures r.Ok? ==> forall p :: 0 <= p < r.value ==> !OccursAt(ValidVars(), varName, p)
  {
    IndexOf(ValidVars(), varName, 0)
  }

  /** Round trip on the first block: the id of the name of id i is i. */
  lemma {:induction false} GetVarIdInvertsName(i: int)
    requires 0 <= i < 25
    ensures GetVarId(GetVarName(i)) == Ok(i)
  {
    var name := GetVarName(i);
    assert name == [ValidVars()[i]];
    SingleLetterOccurrence(ValidVars()[i], i);
    var p := GetVarId(name).value;
    SingleLetterOccurrence(ValidVars()[i], p);
    LettersDistinct(p, i);
  }

  lemma SingleLetterOccurrence(c: char, p: nat)
    ensures OccursAt(ValidVars(), [c], p) <==> p < |ValidVars()| && ValidVars()[p] == c
  {
    if p < |ValidVars()| {
      assert ValidVars()[p..p + 1] == [ValidVars()[p]];
    }
  }

  lemma LettersDistinct(p: nat, q: nat)
    requires p < |ValidVars()| && q < |ValidVars()| && ValidVars()[p] == ValidVars()[q]
    ensures p == q
  {
    AlphabetIncreasing();
  }

  lemma AlphabetIncreasing()
    ensures forall i, j :: 0 <= i < j < |ValidVars()| ==> ValidVars()[i] < ValidVars()[j]
  {
  }

  /** A name holding a character outside the alphabet ('I', a prime, a double
      prime, a digit, ...) is rejected, so every primed name is rejected. */
  lemma GetVarIdRejectsForeignCharacters(varName: string, k: nat)
    requires k < |varName| && varName[k] !in ValidVars()
    ensures GetVarId(varName).Err?
  {
  
  }

  lemma GetVarIdRejectsPrimedNames(i: int)
    requires i >= 25
    ensures GetVarId(GetVarName(i)).Err?
  {
    GetVarIdRejectsForeignCharacters(GetVarName(i), 1);
  }

  /** The substring search also accepts strings that are not factor names: the
      empty name and any run of consecutive alphabet letters. */
  lemma GetVarIdAcceptsNonNames()
    ensures GetVarId("") == Ok(0)
    ensures GetVarId("BC") == Ok(1)
    ensures GetVarId(ValidVars()) == Ok(0)
  {
    assert OccursAt(ValidVars(), "", 0);
    assert ValidVars()[1..3] == [ValidVars()[1], ValidVars()[2]];
    assert OccursAt(ValidVars(), "BC", 1);
    assert !OccursAt(ValidVars(), "BC", 0) by {
      assert ValidVars()[0..2] == [ValidVars()[0], ValidVars()[1]];
    }
    assert OccursAt(ValidVars(), ValidVars(), 0);
  }

  /** The lookup `get_var_id` evidently intends: exactly one alphabet letter
      maps to its position; anything else is rejected. */
  function GetVarIdExact(varName: string): (r: Result<nat>)
    ensures r.Ok? <==> |varName| == 1 && varName[0] in ValidVars()
    ensures r.Ok? ==> r.value < 25 && ValidVars()[r.value] == varName[0]
  {
    if |varName| == 1 then
      var c := varName[0];
      assert varName == [c];
      match IndexOf(ValidVars(), varName, 0)
      case Ok(p) =>
        SingleLetterOccurrence(c, p);
        Ok(p)
      case Err(e) =>
        assert c !in ValidVars() by {
          forall p | 0 <= p < |ValidVars()|
            ensures ValidVars()[p] != c
          {
            SingleLetterOccurrence(c, p);
          }
        }
        Err(e)
    else Err(SubstringNotFound)
  }

  /** The exact lookup and the naming scheme are inverse to each other on the
      first block of 25 ids, in both directions. */
  lemma GetVarIdExactInvertsName(i: int)
    requires 0 <= i < 25
    ensures GetVarIdExact(GetVarName(i)) == Ok(i)
  {
    assert GetVarName(i) == [ValidVars()[i]];
    var p := GetVarIdExact(GetVarName(i)).value;
    LettersDistinct(p, i);
  }

  lemma SingleLetterName(p: nat)
    requires p < 25
    ensures GetVarName(p) == [ValidVars()[p]]
  {
    assert p % 25 == p;
  }

  lemma GetVarNameInvertsIdExact(varName: string)
    requires GetVarIdExact(varName).Ok?
    ensures GetVarName(GetVarIdExact(varName).value) == varName
  {
    var p := GetVarIdExact(varName).value;
    assert p < 25 && ValidVars()[p] == varName[0];
    assert varName == [varName[0]];
    SingleLetterName(p);
  }

  /** A constructed design: its runs (rows of factor settings) and the names of
      its factor columns. */
  datatype Design<T> = Design(factorData: seq<seq<T>>, factorNames: seq<string>)

  /** Every run is at most as wide as the first one, which fixes the columns. */
  predicate FitsFirstRun<T>(factorData: seq<seq<T>>)
    requires |factorData| > 0
  {
    forall i :: 0 <= i < |factorData| ==> |factorData[i]| <= |factorData[0]|
  }

  /** `Design(factor_data, [])`: the column names are generated from the width
      of the first run, so an empty run list raises on `factor_data[0]`, and
      the DataFrame raises when a later run has more values than there are
      columns. */
  function MakeDesign<T>(factorData: seq<seq<T>>): (r: Result<Design<T>>)
    ensures r.Ok? <==> |factorData| > 0 && FitsFirstRun(factorData)
    ensures |factorData| == 0 ==> r == Err(EmptyTable)
    ensures (exists i :: 0 < i < |factorData| && |factorData[i]| > |factorData[0]|) ==> r == Err(TooManyValues)
    ensures r.Ok? ==> r.value.factorData == factorData
    ensures r.Ok? ==> |r.value.factorNames| == |factorData[0]|
    ensures r.Ok? ==> forall i :: 0 <= i < |factorData[0]| ==> r.value.factorNames[i] == GetVarName(i)
  {
    if |factorData| == 0 then Err(EmptyTable)
    else if !FitsFirstRun(factorData) then Err(TooManyValues)
    else Ok(Design(factorData, seq(|factorData[0]|, i => GetVarName(i))))
  }

  /** The width of the first run decides: a longer later run is rejected, a
      shorter one is accepted. */
  lemma MakeDesignRaggedRuns()
    ensures MakeDesign([[1], [1, 2]]) == Err(TooManyValues)
    ensures MakeDesign([[1, 2], [3]]).Ok?
  {
    assert |[[1], [1, 2]][1]| > |[[1], [1, 2]][0]|;
  }

  /** `runs`: the number of rows of factor data. */
  function Runs<T>(d: Design<T>): nat
  {
    |d.factorData|
  }

  /** The run count of a constructed design is the number of runs it was given,
      and its column names are pairwise distinct for up to 75 factors. */
  lemma MakeDesignRunsAndNames<T>(factorData: seq<seq<T>>)
    requires |factorData| > 0 && FitsFirstRun(factorData)
    ensures Runs(MakeDesign(factorData).value) == |factorData|
    ensures |factorData[0]| <= 75 ==>
      var names := MakeDesign(factorData).value.factorNames;
      forall i, j :: 0 <= i < j < |names| ==> names[i] != names[j]
  {
    var names := MakeDesign(factorData).value.factorNames;
    if |factorData[0]| <= 75 {
      forall i, j | 0 <= i < j < |names|
        ensures names[i] != names[j]
      {
        if names[i] == names[j] {
          GetVarNameInjectiveBelow75(i, j);
        }
      }
    }
  }
}
