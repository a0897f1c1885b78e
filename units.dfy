/** Lexing shared by the duration parser (logit/_time.py) and the size
    parser (logit/_space.py), which carry identical copies of it: the split at
    the end of the leading digits, the syntax check, and `int()` on a digit
    string. Only ASCII digits and letters are modelled. */
module Units {
  import opened Errors

  predicate IsDigit(c: char) { '0' <= c <= '9' }

  predicate IsAlpha(c: char) { 'a' <= c <= 'z' || 'A' <= c <= 'Z' }

  predicate AllDigits(s: string) { forall i :: 0 <= i < |s| ==> IsDigit(s[i]) }

  predicate AllLetters(s: string) { forall i :: 0 <= i < |s| ==> IsAlpha(s[i]) }

  predicate NoDigits(s: string) { forall i :: 0 <= i < |s| ==> !IsDigit(s[i]) }

  /** `str.isalnum`: false on the empty string, else every character is a
      letter or a digit. */
  predicate IsAlnum(s: string)
  {
    |s| > 0 && forall i :: 0 <= i < |s| ==> IsDigit(s[i]) || IsAlpha(s[i])
  }

  /** The length of the longest all-digit prefix. */
  function LeadingDigits(s: string): (n: nat)
    ensures n <= |s| && AllDigits(s[..n])
    ensures n < |s| ==> !IsDigit(s[n])
  {
    if s == [] || !IsDigit(s[0]) then 0 else 1 + LeadingDigits(s[1..])
  }

  /** Any prefix length with those two properties is the leading-digit count. */
  lemma {:induction false} LeadingDigitsUnique(s: string, k: nat)
    requires k <= |s| && AllDigits(s[..k])
    requires k < |s| ==> !IsDigit(s[k])
    ensures LeadingDigits(s) == k
  {
    if k > 0 {
      assert IsDigit(s[..k][0]);
      assert s[1..][..k - 1] == s[1..k];
      LeadingDigitsUnique(s[1..], k - 1);
    }
  }

  /** The quantity and unit `_premature_split_*_data` return: the parts
      rebuild the text, the quantity is all digits, and the unit is empty or
      starts with a non-digit. */
  function SplitDigits(s: string): (r: (string, string))
    ensures r.0 + r.1 == s
    ensures AllDigits(r.0)
    ensures r.1 == [] || !IsDigit(r.1[0])
  {
    var n := LeadingDigits(s);
    assert s[..n] + s[n..] == s;
    (s[..n], s[n..])
  }

  /** `_premature_split_time_data` / `_premature_split_space_data`: count the
      leading digits, stop at the first non-digit, and cut there. */
  method PrematureSplit(text: string) returns (quantity: string, unit: string)
    ensures quantity + unit == text
    ensures AllDigits(quantity)
    ensures unit == [] || !IsDigit(unit[0])
    ensures (quantity, unit) == SplitDigits(text)
  {
    var digitIndex := 0;
    while digitIndex < |text| && IsDigit(text[digitIndex])
      invariant 0 <= digitIndex <= |text|
      invariant AllDigits(text[..digitIndex])
    {
      assert text[..digitIndex + 1] == text[..digitIndex] + [text[digitIndex]];
      digitIndex := digitIndex + 1;
    }
    LeadingDigitsUnique(text, digitIndex);
    quantity, unit := text[..digitIndex], text[digitIndex..];
    assert quantity + unit == text;
  }

  /** The number of letters, which `len(c for c in text if c.isalpha())`
      was evidently meant to compute. */
  function CountAlpha(s: string): nat
  {
    if s == [] then 0 else (if IsAlpha(s[0]) then 1 else 0) + CountAlpha(s[1..])
  }

  lemma {:induction false} CountAlphaAppend(a: string, b: string)
    ensures CountAlpha(a + b) == CountAlpha(a) + CountAlpha(b)
  {
    if a != [] {
      assert (a + b)[1..] == a[1..] + b;
      CountAlphaAppend(a[1..], b);
    } else {
      assert a + b == b;
    }
  }

  lemma {:induction false} CountAlphaOfDigits(s: string)
    requires AllDigits(s)
    ensures CountAlpha(s) == 0
  {
    if s != [] {
      CountAlphaOfDigits(s[1..]);
    }
  }

  lemma {:induction false} CountAlphaOfLetters(s: string)
    requires AllLetters(s)
    ensures CountAlpha(s) == |s|
  {
    if s != [] {
      CountAlphaOfLetters(s[1..]);
    }
  }

  /** The check of `_check_valid_*_syntax`, with the letter count it was
      meant to have and the number of letters it demands as a parameter:
      exactly that many letters, alphanumeric, and no digit after the
      leading digits. */
  predicate ValidSyntax(text: string, letters: nat)
  {
    CountAlpha(text) == letters && IsAlnum(text) && NoDigits(SplitDigits(text).1)
  }

  /** Digits followed by letters: the shape the check accepts. */
  predicate DigitsThenLetters(text: string, letters: nat)
  {
    |text| >= letters && AllDigits(text[..|text| - letters]) && AllLetters(text[|text| - letters..])
  }

  /** Whatever the check accepts has that shape. */
  lemma ValidSyntaxHasShape(text: string, letters: nat)
    requires ValidSyntax(text, letters)
    ensures DigitsThenLetters(text, letters)
  {
    var n := LeadingDigits(text);
    var rest := text[n..];
    assert AllLetters(rest) by {
      forall i | 0 <= i < |rest| ensures IsAlpha(rest[i]) {
        assert rest[i] == text[n + i];
      }
    }
    assert text == text[..n] + rest;
    CountAlphaAppend(text[..n], rest);
    CountAlphaOfDigits(text[..n]);
    CountAlphaOfLetters(rest);
  }

  /** The check accepts every string of that shape. */
  lemma ShapeIsValidSyntax(text: string, letters: nat)
    requires letters >= 1 && DigitsThenLetters(text, letters)
    ensures ValidSyntax(text, letters)
  {
    var m := |text| - letters;
    assert IsAlpha(text[m..][0]);
    LeadingDigitsUnique(text, m);
    assert text == text[..m] + text[m..];
    CountAlphaAppend(text[..m], text[m..]);
    CountAlphaOfDigits(text[..m]);
    CountAlphaOfLetters(text[m..]);
    assert IsAlnum(text) by {
      forall i | 0 <= i < |text| ensures IsDigit(text[i]) || IsAlpha(text[i]) {
        if i < m {
          assert text[i] == text[..m][i];
        } else {
          assert text[i] == text[m..][i - m];
        }
      }
    }
  }

  /** The check accepts exactly the strings made of digits followed by the
      demanded number of letters. */
  lemma ValidSyntaxShape(text: string, letters: nat)
    requires letters >= 1
    ensures ValidSyntax(text, letters) <==>
      |text| >= letters && AllDigits(text[..|text| - letters]) && AllLetters(text[|text| - letters..])
  {
    if ValidSyntax(text, letters) {
      ValidSyntaxHasShape(text, letters);
    }
    if DigitsThenLetters(text, letters) {
      ShapeIsValidSyntax(text, letters);
    }
  }

  function DigitValue(c: char): nat
    requires IsDigit(c)
  {
    c as nat - '0' as nat
  }

  function DigitChar(d: nat): char
    requires d < 10
  {
    ('0' as nat + d) as char
  }

  /** The number a non-empty digit string denotes in base 10. */
  function DecimalValue(s: string): nat
    requires AllDigits(s)
  {
    if s == [] then 0 else 10 * DecimalValue(s[..|s| - 1]) + DigitValue(s[|s| - 1])
  }

  /** `str(n)` for a natural number. */
  function NatToString(n: nat): string
  {
    if n < 10 then [DigitChar(n)] else NatToString(n / 10) + [DigitChar(n % 10)]
  }

  /** `int(str(n)) == n`, and `str(n)` is a non-empty digit string. */
  lemma {:induction false} NatToStringRoundTrip(n: nat)
    ensures NatToString(n) != [] && AllDigits(NatToString(n))
    ensures DecimalValue(NatToString(n)) == n
  {
    if n >= 10 {
      NatToStringRoundTrip(n / 10);
      var s := NatToString(n);
      assert s[..|s| - 1] == NatToString(n / 10);
    }
  }

  const EmptyIntMessage: string := "invalid literal for int() with base 10: ''"

  /** `int(quantity)` on the digit prefix: ValueError when it is empty,
      otherwise the number the digits denote. */
  function ParseInt(q: string): (r: Result<nat>)
    requires AllDigits(q)
    ensures r.Err? <==> q == []
    ensures r.Err? ==> r.exception == ValueError(EmptyIntMessage)
    ensures r.Ok? ==> r.value == DecimalValue(q)
  {
    if q == [] then Err(ValueError(EmptyIntMessage)) else Ok(DecimalValue(q))
  }

  /** A literal `str(n) + unit`, with a unit made only of letters, splits back
      into `str(n)` and the unit. */
  lemma SplitOfLiteral(n: nat, unit: string)
    requires |unit| >= 1 && AllLetters(unit)
    ensures SplitDigits(NatToString(n) + unit) == (NatToString(n), unit)
  {
    var q := NatToString(n);
    NatToStringRoundTrip(n);
    var text := q + unit;
    assert text[..|q|] == q && text[|q|..] == unit;
    assert text[|q|] == unit[0];
    LeadingDigitsUnique(text, |q|);
  }
}
