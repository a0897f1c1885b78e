/** `escape_ansi` (logit/_helper.py): delete every match of the pattern
    (ESC [@-_] | [\x80-\x9F]) [0-?]* [ -/]* [@-~], scanning left to right and
    resuming after each match. Parameter, intermediate and final characters
    lie in disjoint ranges, so greedy matching never backtracks into a
    different match and the scanner below is exact. */
module Ansi {

  const Esc: char := '\U{1B}'

  /** Second character of a two-character introducer. */
  predicate IsFe(c: char) { '@' <= c <= '_' }

  /** A one-character (C1) introducer. */
  predicate IsC1(c: char) { '\U{80}' <= c <= '\U{9F}' }

  predicate IsParameter(c: char) { '0' <= c <= '?' }

  predicate IsIntermediate(c: char) { ' ' <= c <= '/' }

  predicate IsFinal(c: char) { '@' <= c <= '~' }

  /** The length of the introducer at the start of `s`, or 0 if none. */
  function IntroducerLength(s: string): (k: nat)
    ensures k <= 2 && k <= |s|
  {
    if |s| >= 2 && s[0] == Esc && IsFe(s[1]) then 2
    else if |s| >= 1 && IsC1(s[0]) then 1
    else 0
  }

  /** Which introducer is recognised: ESC followed by a character in
      `@`..`_` takes precedence over a C1 character. */
  lemma IntroducerLengthCases(s: string)
    ensures IntroducerLength(s) == 2 <==> |s| >= 2 && s[0] == Esc && IsFe(s[1])
    ensures IntroducerLength(s) == 1 <==>
      !(|s| >= 2 && s[0] == Esc && IsFe(s[1])) && |s| >= 1 && IsC1(s[0])
  {
  }

  /** The end of the longest run of characters in `lo`..`hi` starting at `i`. */
  function RunEnd(s: string, i: nat, lo: char, hi: char): (j: nat)
    requires i <= |s|
    ensures i <= j <= |s|
    decreases |s| - i
  {
    if i < |s| && lo <= s[i] <= hi then RunEnd(s, i + 1, lo, hi) else i
  }

  /** The run is all in range and stops at the first character outside it. */
  lemma {:induction false} RunEndStops(s: string, i: nat, lo: char, hi: char)
    requires i <= |s|
    ensures forall k :: i <= k < RunEnd(s, i, lo, hi) ==> lo <= s[k] <= hi
    ensures RunEnd(s, i, lo, hi) < |s| ==> !(lo <= s[RunEnd(s, i, lo, hi)] <= hi)
    decreases |s| - i
  {
    if i < |s| && lo <= s[i] <= hi {
      RunEndStops(s, i + 1, lo, hi);
    }
  }

  /** The length of the match of the pattern at the start of `s`, if any. */
  function MatchLength(s: string): (m: nat)
    ensures m <= |s|
  {
    var k := IntroducerLength(s);
    if k == 0 then 0
    else
      var p := RunEnd(s, k, '0', '?');
      var q := RunEnd(s, p, ' ', '/');
      if q < |s| && IsFinal(s[q]) then q + 1 else 0
  }

  /** `escape_ansi`: drop each match, keep each character at which no match
      starts. The result is never longer than the input. */
  function EscapeAnsi(s: string): (r: string)
    ensures |r| <= |s|
    decreases |s|
  {
    if s == [] then []
    else
      var m := MatchLength(s);
      if m > 0 then EscapeAnsi(s[m..]) else [s[0]] + EscapeAnsi(s[1..])
  }

  /** Independent description of one complete escape sequence: an
      introducer, then parameters, then intermediates, then a final char. */
  predicate IsEscapeSequence(t: string)
  {
    && |t| >= 2
    && IsFinal(t[|t| - 1])
    && var k := if IsC1(t[0]) then 1 else 2;
    && k < |t|
    && (k == 2 ==> t[0] == Esc && IsFe(t[1]))
    && ParametersThenIntermediates(t[k..|t| - 1])
  }

  predicate ParametersThenIntermediates(b: string)
  {
    && (forall i :: 0 <= i < |b| ==> IsParameter(b[i]) || IsIntermediate(b[i]))
    && (forall i, j :: 0 <= i < j < |b| && IsIntermediate(b[i]) ==> !IsParameter(b[j]))
  }

  /** What the scanner removes in one step is a complete escape sequence. */
  lemma MatchIsEscapeSequence(s: string)
    requires MatchLength(s) > 0
    ensures IsEscapeSequence(s[..MatchLength(s)])
  {
    var m := MatchLength(s);
    var t := s[..m];
    var k := IntroducerLength(s);
    var p := RunEnd(s, k, '0', '?');
    var q := RunEnd(s, p, ' ', '/');
    RunEndStops(s, k, '0', '?');
    RunEndStops(s, p, ' ', '/');
    assert m == q + 1;
    assert k == (if IsC1(t[0]) then 1 else 2);
    var b := t[k..m - 1];
    assert b == s[k..q];
    forall i, j | 0 <= i < j < |b| && IsIntermediate(b[i]) ensures !IsParameter(b[j]) {
      assert b[i] == s[k + i] && b[j] == s[k + j];
    }
    forall i | 0 <= i < |b| ensures IsParameter(b[i]) || IsIntermediate(b[i]) {
      assert b[i] == s[k + i];
    }
  }

  /** The introducer of an escape sequence is recognised whatever follows. */
  lemma IntroducerOfEscapeSequence(t: string, u: string)
    requires IsEscapeSequence(t)
    ensures IntroducerLength(t + u) == if IsC1(t[0]) then 1 else 2
  {
    var s := t + u;
    assert s[0] == t[0] && s[1] == t[1];
  }

  /** A complete escape sequence at the start of the text is matched whole,
      whatever follows it. */
  lemma EscapeSequenceMatches(t: string, u: string)
    requires IsEscapeSequence(t)
    ensures MatchLength(t + u) == |t|
  {
    var s := t + u;
    var k := if IsC1(t[0]) then 1 else 2;
    IntroducerOfEscapeSequence(t, u);
    var b := t[k..|t| - 1];
    var n := FirstIntermediate(b);
    forall i | k <= i < k + n ensures '0' <= s[i] <= '?' {
      assert s[i] == b[i - k];
    }
    forall i | k + n <= i < |t| - 1 ensures ' ' <= s[i] <= '/' {
      assert s[i] == b[i - k];
    }
    assert s[k + n] == t[k + n] && s[|t| - 1] == t[|t| - 1];
    RunEndExact(s, k, '0', '?', k + n);
    RunEndExact(s, k + n, ' ', '/', |t| - 1);
  }

  /** The position of the first intermediate in `b`, or `|b|`; everything
      before it is a parameter and everything from it on an intermediate. */
  function FirstIntermediate(b: string): (n: nat)
    requires ParametersThenIntermediates(b)
    ensures n <= |b|
    ensures forall i :: 0 <= i < n ==> IsParameter(b[i])
    ensures forall i :: n <= i < |b| ==> IsIntermediate(b[i])
  {
    if b == [] then 0
    else if IsIntermediate(b[0]) then
      assert forall j :: 0 < j < |b| ==> !IsParameter(b[j]);
      0
    else
      assert ParametersThenIntermediates(b[1..]) by {
        forall i, j | 0 <= i < j < |b[1..]| && IsIntermediate(b[1..][i]) ensures !IsParameter(b[1..][j]) {
          assert b[1..][i] == b[i + 1] && b[1..][j] == b[j + 1];
        }
      }
      1 + FirstIntermediate(b[1..])
  }

  lemma {:induction false} RunEndExact(s: string, i: nat, lo: char, hi: char, j: nat)
    requires i <= j <= |s|
    requires forall k :: i <= k < j ==> lo <= s[k] <= hi
    requires j < |s| ==> !(lo <= s[j] <= hi)
    ensures RunEnd(s, i, lo, hi) == j
    decreases j - i
  {
    if i < j {
      RunEndExact(s, i + 1, lo, hi, j);
    }
  }

  /** A complete escape sequence is removed entirely. */
  lemma RemovesEscapeSequence(t: string, u: string)
    requires IsEscapeSequence(t)
    ensures EscapeAnsi(t + u) == EscapeAnsi(u)
  {
    EscapeSequenceMatches(t, u);
    assert (t + u)[|t|..] == u;
  }

  /** `a` is obtained from `b` by deleting characters. */
  predicate IsSubsequence(a: string, b: string)
  {
    if a == [] then true
    else if b == [] then false
    else (a[0] == b[0] && IsSubsequence(a[1..], b[1..])) || IsSubsequence(a, b[1..])
  }

  lemma {:induction false} SubsequenceOfSuffix(a: string, b: string, k: nat)
    requires k <= |b| && IsSubsequence(a, b[k..])
    ensures IsSubsequence(a, b)
  {
    if k > 0 {
      assert b[1..][k - 1..] == b[k..];
      SubsequenceOfSuffix(a, b[1..], k - 1);
      if a != [] {
        assert IsSubsequence(a, b[1..]);
      }
    }
  }

  /** `escape_ansi` only deletes characters. */
  lemma {:induction false} EscapeAnsiIsSubsequence(s: string)
    ensures IsSubsequence(EscapeAnsi(s), s)
    decreases |s|
  {
    if s != [] {
      var m := MatchLength(s);
      if m > 0 {
        EscapeAnsiIsSubsequence(s[m..]);
        SubsequenceOfSuffix(EscapeAnsi(s), s, m);
      } else {
        EscapeAnsiIsSubsequence(s[1..]);
        var r := EscapeAnsi(s);
        assert r[0] == s[0] && r[1..] == EscapeAnsi(s[1..]);
      }
    }
  }

  /** Text in which no match can start: no ESC and no C1 character. */
  predicate NoIntroducer(s: string)
  {
    forall i :: 0 <= i < |s| ==> s[i] != Esc && !IsC1(s[i])
  }

  /** A character that starts no introducer is kept, and scanning goes on
      after it. */
  lemma PlainCharKept(c: char, x: string)
    requires c != Esc && !IsC1(c)
    ensures EscapeAnsi([c] + x) == [c] + EscapeAnsi(x)
  {
    var s := [c] + x;
    assert s[0] == c && s[1..] == x;
    assert IntroducerLength(s) == 0;
  }

  /** An ESC that is not followed by a character in `@`..`_` is kept. */
  lemma LoneEscKept(x: string)
    requires x != [] && !IsFe(x[0])
    ensures EscapeAnsi([Esc] + x) == [Esc] + EscapeAnsi(x)
  {
    var s := [Esc] + x;
    assert s[0] == Esc && s[1] == x[0] && s[1..] == x;
    assert IntroducerLength(s) == 0;
  }

  /** A character at which no complete escape sequence starts is kept,
      whatever it is: `re.sub` finds no match there and moves on by one. */
  lemma NoSequenceKept(s: string)
    requires s != []
    requires forall k :: 0 < k <= |s| ==> !IsEscapeSequence(s[..k])
    ensures EscapeAnsi(s) == [s[0]] + EscapeAnsi(s[1..])
  {
    if MatchLength(s) > 0 {
      MatchIsEscapeSequence(s);
    }
  }

  /** Text with no ESC and no C1 character is kept verbatim, whatever
      follows it. */
  lemma {:induction false} KeepsIntroducerFreePrefix(a: string, b: string)
    requires NoIntroducer(a)
    ensures EscapeAnsi(a + b) == a + EscapeAnsi(b)
    decreases |a|
  {
    if a == [] {
      assert a + b == b;
    } else {
      var c, tail := a[0], a[1..];
      NoIntroducerTail(a);
      var s := a + b;
      assert s[0] == c && s[1..] == tail + b;
      assert IntroducerLength(s) == 0;
      KeepsIntroducerFreePrefix(tail, b);
      ConsAppend(a, EscapeAnsi(b));
    }
  }

  lemma ConsAppend(a: string, y: string)
    requires a != []
    ensures [a[0]] + (a[1..] + y) == a + y
  {
    assert [a[0]] + a[1..] == a;
  }

  lemma NoIntroducerTail(a: string)
    requires a != [] && NoIntroducer(a)
    ensures a[0] != Esc && !IsC1(a[0]) && NoIntroducer(a[1..])
  {
    forall i | 0 <= i < |a| - 1 ensures a[1..][i] != Esc && !IsC1(a[1..][i]) {
      assert a[1..][i] == a[i + 1];
    }
  }

  /** Text with no ESC and no C1 character comes back unchanged. */
  lemma NoIntroducerUnchanged(s: string)
    requires NoIntroducer(s)
    ensures EscapeAnsi(s) == s
  {
    KeepsIntroducerFreePrefix(s, "");
    assert s + "" == s;
  }

  lemma ParametersOnly(b: string)
    requires forall i :: 0 <= i < |b| ==> IsParameter(b[i])
    ensures ParametersThenIntermediates(b)
  {
  }

  /** "ESC [ 3 1 m": set the foreground to red. */
  const SetRed: string := [Esc] + "[31m"

  /** "ESC [ 0 m": reset all attributes. */
  const Reset: string := [Esc] + "[0m"

  /** The C1 form of `SetRed`: CSI (U+009B), then "31m". */
  const SetRedC1: string := ['\U{9B}'] + "31m"

  lemma SetRedIsEscapeSequence()
    ensures IsEscapeSequence(SetRed)
  {
    assert SetRed[2..4] == "31";
    ParametersOnly("31");
  }

  /** A complete sequence on its own is removed entirely. */
  lemma RemovesWhole(t: string)
    requires IsEscapeSequence(t)
    ensures EscapeAnsi(t) == ""
  {
    RemovesEscapeSequence(t, "");
    assert t + "" == t;
  }

  /** A colour sequence and its C1 form are removed entirely. */
  lemma EscapeAnsiRemovesColour()
    ensures EscapeAnsi(SetRed) == ""
    ensures EscapeAnsi(SetRedC1) == ""
  {
    SetRedIsEscapeSequence();
    RemovesWhole(SetRed);
    assert IsEscapeSequence(SetRedC1) by {
      assert SetRedC1[1..3] == "31";
      ParametersOnly("31");
    }
    RemovesWhole(SetRedC1);
  }

  /** A word between a colour sequence and a reset sequence is all that is left. */
  lemma EscapeAnsiColouredWord()
    ensures EscapeAnsi(SetRed + "red" + Reset) == "red"
  {
    assert EscapeAnsi(Reset) == "" by {
      assert Reset[2..3] == "0";
      ParametersOnly("0");
      RemovesWhole(Reset);
    }
    var word := "red" + Reset;
    assert EscapeAnsi(word) == "red" by {
      assert NoIntroducer("red");
      KeepsIntroducerFreePrefix("red", Reset);
    }
    assert SetRed + "red" + Reset == SetRed + word;
    SetRedIsEscapeSequence();
    RemovesEscapeSequence(SetRed, word);
  }

  /** An introducer with no final character after it, "ESC[31", is kept. */
  lemma UnterminatedKept()
    ensures EscapeAnsi([Esc] + "[31") == [Esc] + "[31"
  {
    var s := [Esc] + "[31";
    assert MatchLength(s) == 0 by {
      RunEndExact(s, 2, '0', '?', 4);
    }
    assert s[1..] == "[31";
    assert NoIntroducer("[31");
    NoIntroducerUnchanged("[31");
  }

  /** `SetRed` in front of any text is deleted. */
  lemma SetRedRemoved(x: string)
    ensures EscapeAnsi(SetRed + x) == EscapeAnsi(x)
  {
    SetRedIsEscapeSequence();
    RemovesEscapeSequence(SetRed, x);
  }

  lemma BracketTextKept()
    ensures EscapeAnsi("[31m") == "[31m"
  {
    assert NoIntroducer("[31m");
    NoIntroducerUnchanged("[31m");
  }

  /** `SetRed` followed by plain text leaves the plain text. */
  lemma SetRedThenText()
    ensures EscapeAnsi(SetRed + "[31m") == "[31m"
  {
    SetRedRemoved("[31m");
    BracketTextKept();
  }

  /** Deleting a sequence can join its neighbours into a new one: one pass
      over "ESC" + `SetRed` + "[31m" keeps the first ESC, deletes `SetRed`,
      and leaves `SetRed`. */
  lemma FirstPassJoinsNeighbours()
    ensures EscapeAnsi([Esc] + (SetRed + "[31m")) == SetRed
  {
    SetRedThenText();
    assert (SetRed + "[31m")[0] == Esc;
    LoneEscKept(SetRed + "[31m");
  }

  /** So one pass does not remove every sequence from its own output. */
  lemma NotIdempotent()
    ensures EscapeAnsi([Esc] + (SetRed + "[31m")) != ""
    ensures EscapeAnsi(EscapeAnsi([Esc] + (SetRed + "[31m"))) == ""
  {
    FirstPassJoinsNeighbours();
    EscapeAnsiRemovesColour();
  }
}
