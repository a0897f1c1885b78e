/** The size parser (logit/_space.py): "<digits><unit>" to kilobytes, with
    units kb, mb, gb, tb. Modelled three ways: as written (the letter count
    raises TypeError), literally with the letter count fixed (the one-letter
    check rejects every two-letter unit of the table), and as evidently
    intended (a two-letter unit). */
module Sizes {
  import opened Errors
  import opened Units

  /** `_UNIT_MULTIPLIERS`: kilobytes per unit. The source writes the last
      three as the floats 1e3, 1e6 and 1e9; here they are exact integers. */
  const UnitMultipliers: map<string, nat> :=
    map["kb" := 1, "mb" := 1000, "gb" := 1000000, "tb" := 1000000000]

  function InvalidMessage(text: string): string
  {
    "'" + text + "' is not a valid string literal for the space data."
  }

  /** `_check_valid_space_syntax`, counting the letters: accepts exactly the
      strings made of zero or more digits followed by ONE letter. */
  function CheckValidSpaceSyntax(text: string): (ok: bool)
    ensures ok <==> |text| >= 1 && AllDigits(text[..|text| - 1]) && IsAlpha(text[|text| - 1])
  {
    ValidSyntaxShape(text, 1);
    ValidSyntax(text, 1)
  }

  /** `_split_space_data`: the leading digits as a number, and the rest. */
  function SplitSpaceData(text: string): (r: Result<(nat, string)>)
    ensures r.Err? <==> LeadingDigits(text) == 0
    ensures r.Err? ==> r.exception == ValueError(EmptyIntMessage)
    ensures r.Ok? ==> r.value.0 == DecimalValue(text[..LeadingDigits(text)])
    ensures r.Ok? ==> r.value.1 == text[LeadingDigits(text)..]
  {
    var (quantity, unit) := SplitDigits(text);
    match ParseInt(quantity)
    case Ok(n) => Ok((n, unit))
    case Err(e) => Err(e)
  }

  /** The conversion step of `parse_space_data`, after the check: no leading
      digits fail in `int("")`, a unit outside the table fails at the lookup,
      and otherwise the quantity is scaled by the unit's kilobytes. */
  function ConvertSpaceData(text: string): (r: Result<nat>)
    ensures LeadingDigits(text) == 0 ==> r == Err(ValueError(EmptyIntMessage))
    ensures LeadingDigits(text) > 0 && text[LeadingDigits(text)..] !in UnitMultipliers ==>
      r == Err(KeyError(text[LeadingDigits(text)..]))
    ensures LeadingDigits(text) > 0 && text[LeadingDigits(text)..] in UnitMultipliers ==>
      r == Ok(DecimalValue(text[..LeadingDigits(text)]) * UnitMultipliers[text[LeadingDigits(text)..]])
  {
    match SplitSpaceData(text)
    case Err(e) => Err(e)
    case Ok((quantity, unit)) =>
      if unit in UnitMultipliers then Ok(quantity * UnitMultipliers[unit])
      else Err(KeyError(unit))
  }

  /** `parse_space_data` with the letters counted, otherwise as written. */
  function ParseSpaceData(text: string): (r: Result<nat>)
    ensures !CheckValidSpaceSyntax(text) ==> r == Err(ValueError(InvalidMessage(text)))
  {
    if !CheckValidSpaceSyntax(text) then Err(ValueError(InvalidMessage(text)))
    else ConvertSpaceData(text)
  }

  /** Every string the check accepts ends in a one-letter unit: a bare letter
      fails in `int("")`, anything longer at the lookup of that letter. */
  lemma ParseSpaceDataFailures(text: string)
    ensures CheckValidSpaceSyntax(text) && |text| == 1 ==>
      ParseSpaceData(text) == Err(ValueError(EmptyIntMessage))
    ensures CheckValidSpaceSyntax(text) && |text| >= 2 ==>
      ParseSpaceData(text) == Err(KeyError(text[|text| - 1..]))
  {
    if CheckValidSpaceSyntax(text) {
      var m := |text| - 1;
      assert !IsDigit(text[m]);
      LeadingDigitsUnique(text, m);
      assert |text[m..]| == 1;
    }
  }

  /** Every key of the table has two letters, so `parse_space_data` never
      returns a number. */
  lemma ParseSpaceDataNeverSucceeds(text: string)
    ensures ParseSpaceData(text).Err?
  {
    ParseSpaceDataFailures(text);
  }

  /** The docstring's own example is rejected by the check. */
  lemma ParseSpaceDataDocExample()
    ensures ParseSpaceData("5mb") == Err(ValueError(InvalidMessage("5mb")))
  {
    assert !IsDigit("5mb"[1]);
  }

  /** `_check_valid_space_syntax` as written: `len` of a generator raises
      TypeError before anything else is evaluated. */
  function CheckValidSpaceSyntaxAsWritten(text: string): (r: Result<bool>)
    ensures r.Err? && r.exception.TypeError?
  {
    Err(TypeError("object of type 'generator' has no len()"))
  }

  /** `parse_space_data` as written: the check raises on every input. */
  function ParseSpaceDataAsWritten(text: string): (r: Result<nat>)
    ensures r.Err? && r.exception.TypeError?
  {
    // The check raises, so the split and the lookup are never reached.
    Err(CheckValidSpaceSyntaxAsWritten(text).exception)
  }

  /** The check as evidently intended: digits followed by a two-letter unit. */
  function CheckValidSpaceSyntaxIntended(text: string): (ok: bool)
    ensures ok <==> |text| >= 2 && AllDigits(text[..|text| - 2]) && AllLetters(text[|text| - 2..])
  {
    ValidSyntaxShape(text, 2);
    ValidSyntax(text, 2)
  }

  /** `parse_space_data` with the intended check. */
  function ParseSpaceDataIntended(text: string): (r: Result<nat>)
    ensures !CheckValidSpaceSyntaxIntended(text) ==> r == Err(ValueError(InvalidMessage(text)))
  {
    if !CheckValidSpaceSyntaxIntended(text) then Err(ValueError(InvalidMessage(text)))
    else ConvertSpaceData(text)
  }

  /** With the intended check, `str(n) + u` converts to `n` times the unit's
      kilobytes for every unit of the table. */
  lemma ParseSpaceDataIntendedOfLiteral(n: nat, unit: string)
    requires unit in UnitMultipliers
    ensures ParseSpaceDataIntended(NatToString(n) + unit) == Ok(n * UnitMultipliers[unit])
  {
    var text := NatToString(n) + unit;
    assert |unit| == 2 && AllLetters(unit);
    NatToStringRoundTrip(n);
    SplitOfLiteral(n, unit);
    assert text[..|text| - 2] == NatToString(n) && text[|text| - 2..] == unit;
  }

  /** The docstring's example, with the intended check. */
  lemma ParseSpaceDataIntendedDocExample()
    ensures ParseSpaceDataIntended("5mb") == Ok(5000)
  {
    ParseSpaceDataIntendedOfLiteral(5, "mb");
    assert NatToString(5) + "mb" == "5mb";
  }

  /** The docstring's "5mb" raises TypeError as written and converts to 5000
      with the intended check. */
  lemma ParseSpaceDataAsWrittenRejectsDocExample()
    ensures ParseSpaceDataAsWritten("5mb").Err?
    ensures ParseSpaceDataIntended("5mb") == Ok(5000)
  {
    ParseSpaceDataIntendedDocExample();
  }
}
