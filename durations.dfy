/** The duration parser (logit/_time.py): "<digits><unit>" to seconds, with
    units d, w, m, y. Both the code as written and the code as evidently
    intended are modelled; the rest of the model uses the intended one. */
module Durations {
  import opened Errors
  import opened Units

  /** `_UNIT_MULTIPLIERS`: seconds per unit. */
  const UnitMultipliers: map<string, nat> :=
    map["d" := 24 * 60 * 60, "w" := 7 * 24 * 60 * 60, "m" := 30 * 24 * 60 * 60, "y" := 365 * 24 * 60 * 60]

  function InvalidMessage(text: string): string
  {
    "'" + text + "' is not a valid string literal for the time data."
  }

  /** `_check_valid_time_syntax`, counting the letters: accepts exactly the
      strings made of zero or more digits followed by one letter. */
  function CheckValidTimeSyntax(text: string): (ok: bool)
    ensures ok <==> |text| >= 1 && AllDigits(text[..|text| - 1]) && IsAlpha(text[|text| - 1])
  {
    ValidSyntaxShape(text, 1);
    ValidSyntax(text, 1)
  }

  /** `_split_time_data`, passing `text` on: the leading digits as a number,
      and the rest. */
  function SplitTimeData(text: string): (r: Result<(nat, string)>)
    ensures r.Err? <==> LeadingDigits(text) == 0
    ensures r.Err? ==> r.exception == ValueError(EmptyIntMessage)
    ensures r.Ok? ==> r.value.0 == DecimalValue(text[..LeadingDigits(text)])
    ensures r.Ok? ==> r.value.1 == text[LeadingDigits(text)..]
  {
    var (quantity, unit) := SplitDigits(text);
    match ParseInt(quantity)
    case Ok(n) => Ok((n, unit))
    case Err(e) => Err(e)
  }

  /** Splitting `str(n) + unit` gives back `n` and the unit. */
  lemma SplitTimeDataOfLiteral(n: nat, unit: string)
    requires |unit| >= 1 && AllLetters(unit)
    ensures SplitTimeData(NatToString(n) + unit) == Ok((n, unit))
  {
    NatToStringRoundTrip(n);
    SplitOfLiteral(n, unit);
  }

  /** `parse_time_data`: check, split, then look the unit up. */
  function ParseTimeData(text: string): (r: Result<nat>)
    ensures !CheckValidTimeSyntax(text) ==> r == Err(ValueError(InvalidMessage(text)))
  {
    if !CheckValidTimeSyntax(text) then Err(ValueError(InvalidMessage(text)))
    else
      match SplitTimeData(text)
      case Err(e) => Err(e)
      case Ok((quantity, unit)) =>
        if unit in UnitMultipliers then Ok(quantity * UnitMultipliers[unit])
        else Err(KeyError(unit))
  }

  /** What `parse_time_data` does with each well-formed literal: a bare unit
      fails in `int("")`, a unit outside the table fails at the lookup, and
      otherwise the quantity is multiplied by the unit's seconds. */
  lemma ParseTimeDataOutcomes(text: string)
    requires CheckValidTimeSyntax(text)
    ensures |text| == 1 ==> ParseTimeData(text) == Err(ValueError(EmptyIntMessage))
    ensures |text| >= 2 && text[|text| - 1..] !in UnitMultipliers ==>
      ParseTimeData(text) == Err(KeyError(text[|text| - 1..]))
    ensures |text| >= 2 && text[|text| - 1..] in UnitMultipliers ==>
      ParseTimeData(text) == Ok(DecimalValue(text[..|text| - 1]) * UnitMultipliers[text[|text| - 1..]])
  {
    var m := |text| - 1;
    assert !IsDigit(text[m]);
    LeadingDigitsUnique(text, m);
  }

  /** `parse_time_data(str(n) + u) == n * seconds(u)` for every unit `u` of
      the table. */
  lemma ParseTimeDataOfLiteral(n: nat, unit: string)
    requires unit in UnitMultipliers
    ensures ParseTimeData(NatToString(n) + unit) == Ok(n * UnitMultipliers[unit])
  {
    var text := NatToString(n) + unit;
    assert |unit| == 1 && AllLetters(unit);
    NatToStringRoundTrip(n);
    SplitOfLiteral(n, unit);
    assert text[..|text| - 1] == NatToString(n) && text[|text| - 1..] == unit;
    ParseTimeDataOutcomes(text);
  }

  lemma ParseTimeDataFiveDays()
    ensures ParseTimeData("5d") == Ok(432000)
  {
    ParseTimeDataOfLiteral(5, "d");
    assert NatToString(5) + "d" == "5d";
  }

  lemma ParseTimeDataThreeYears()
    ensures ParseTimeData("3y") == Ok(94608000)
  {
    ParseTimeDataOfLiteral(3, "y");
    assert NatToString(3) + "y" == "3y";
  }

  /** The examples of the docstring. Its "3y" example omits the factor 3;
      the code gives three years. */
  lemma ParseTimeDataDocExamples()
    ensures ParseTimeData("5d") == Ok(432000)
    ensures ParseTimeData("3y") == Ok(94608000) && 94608000 != 24 * 365 * 60 * 60
  {
    ParseTimeDataFiveDays();
    ParseTimeDataThreeYears();
  }

  /** A unit outside the table fails at the lookup with KeyError, not
      ValueError; a bare unit fails in `int("")`. */
  lemma ParseTimeDataUnknownUnit()
    ensures ParseTimeData("5x") == Err(KeyError("x"))
    ensures ParseTimeData("5D") == Err(KeyError("D"))
    ensures ParseTimeData("d") == Err(ValueError(EmptyIntMessage))
  {
    assert "5x"[1..] == "x" && "5D"[1..] == "D";
    ParseTimeDataOutcomes("5x");
    ParseTimeDataOutcomes("5D");
    ParseTimeDataOutcomes("d");
  }

  /** Two letters fail the syntax check with ValueError. */
  lemma ParseTimeDataTwoLetters()
    ensures ParseTimeData("5dd") == Err(ValueError(InvalidMessage("5dd")))
  {
    assert !IsDigit("5dd"[1]);
  }

  const GeneratorLenMessage: string := "object of type 'generator' has no len()"

  /** `_check_valid_time_syntax` as written: `len` of a generator raises
      TypeError before anything else is evaluated. */
  function CheckValidTimeSyntaxAsWritten(text: string): (r: Result<bool>)
    ensures r.Err? && r.exception.TypeError?
  {
    Err(TypeError(GeneratorLenMessage))
  }

  /** `_split_time_data` as written: `_premature_split_time_data()` is called
      without its argument. */
  function SplitTimeDataAsWritten(text: string): (r: Result<(nat, string)>)
    ensures r.Err? && r.exception.TypeError?
    ensures SplitTimeData(text).Ok? ==> r != SplitTimeData(text)
  {
    Err(TypeError("_premature_split_time_data() missing 1 required positional argument: 'text'"))
  }

  /** `parse_time_data` as written: the syntax check raises TypeError on
      every input, so even the docstring's "5d" yields no number. */
  function ParseTimeDataAsWritten(text: string): (r: Result<nat>)
    ensures r.Err? && r.exception.TypeError?
    ensures ParseTimeData(text).Ok? ==> r != ParseTimeData(text)
  {
    // The check raises, so the split and the lookup are never reached.
    Err(CheckValidTimeSyntaxAsWritten(text).exception)
  }

  /** The docstring's "5d" is rejected as written and converted as intended,
      and so is its split. */
  lemma AsWrittenRejectsDocExample()
    ensures ParseTimeDataAsWritten("5d").Err? && ParseTimeData("5d") == Ok(432000)
    ensures SplitTimeDataAsWritten("5d").Err? && SplitTimeData("5d") == Ok((5, "d"))
  {
    ParseTimeDataFiveDays();
    SplitTimeDataOfLiteral(5, "d");
    assert NatToString(5) + "d" == "5d";
  }
}
