/** The severity levels of the logger (logit/_enums.py): a string enum whose
    value is the lower-case member name, a value-to-variant lookup, and a rank
    that is the variant's position in declaration order. */
module Levels {
  import opened Errors

  datatype Level = Clutter | Info | Debug | Warning | Error

  /** `tuple(Level)`: the variants in declaration order. */
  const Declared: seq<Level> := [Clutter, Info, Debug, Warning, Error]

  /** The member name as written in the enum body. */
  function Name(l: Level): string
  {
    match l
    case Clutter => "CLUTTER"
    case Info => "INFO"
    case Debug => "DEBUG"
    case Warning => "WARNING"
    case Error => "ERROR"
  }

  function LowerChar(c: char): char
  {
    if 'A' <= c <= 'Z' then (c as int + 32) as char else c
  }

  function ToLower(s: string): (r: string)
    ensures |r| == |s|
    ensures forall i :: 0 <= i < |s| ==> r[i] == LowerChar(s[i])
  {
    if s == [] then [] else [LowerChar(s[0])] + ToLower(s[1..])
  }

  /** The value of each variant. */
  function Value(l: Level): string
  {
    match l
    case Clutter => "clutter"
    case Info => "info"
    case Debug => "debug"
    case Warning => "warning"
    case Error => "error"
  }

  /** `auto()` in a `StrEnum` gives each variant its member name in lower case. */
  lemma {:induction false} ValueIsLowerName(l: Level)
    ensures Value(l) == ToLower(Name(l))
  {
    var r := ToLower(Name(l));
    match l
    case Clutter =>
      assert r[0] == 'c' && r[1] == 'l' && r[2] == 'u' && r[3] == 't' && r[4] == 't' && r[5] == 'e' && r[6] == 'r';
    case Info =>
      assert r[0] == 'i' && r[1] == 'n' && r[2] == 'f' && r[3] == 'o';
    case Debug =>
      assert r[0] == 'd' && r[1] == 'e' && r[2] == 'b' && r[3] == 'u' && r[4] == 'g';
    case Warning =>
      assert r[0] == 'w' && r[1] == 'a' && r[2] == 'r' && r[3] == 'n' && r[4] == 'i' && r[5] == 'n' && r[6] == 'g';
    case Error =>
      assert r[0] == 'e' && r[1] == 'r' && r[2] == 'r' && r[3] == 'o' && r[4] == 'r';
  }

  /** No two variants share a value. */
  lemma ValueInjective(a: Level, b: Level)
    ensures Value(a) == Value(b) <==> a == b
  {
    if a != b {
      assert Value(a)[0] != Value(b)[0];
    }
  }

  /** The dict comprehension over `Level` in declaration order: each
      variant's value is bound to the variant, a later binding replacing an
      earlier one with the same key. */
  function InverseOf(ls: seq<Level>): map<string, Level>
  {
    if ls == [] then map[]
    else InverseOf(ls[..|ls| - 1])[Value(ls[|ls| - 1]) := ls[|ls| - 1]]
  }

  /** The comprehension has at most one entry per listed variant. */
  lemma {:induction false} InverseOfSize(ls: seq<Level>)
    ensures |InverseOf(ls)| <= |ls|
  {
    if ls != [] {
      InverseOfSize(ls[..|ls| - 1]);
    }
  }

  lemma {:induction false} InverseOfBindsValues(ls: seq<Level>)
    ensures InverseOf(ls).Keys == set l | l in ls :: Value(l)
    ensures forall s :: s in InverseOf(ls) ==> Value(InverseOf(ls)[s]) == s && InverseOf(ls)[s] in ls
  {
    if ls != [] {
      var init := ls[..|ls| - 1];
      InverseOfBindsValues(init);
      assert ls == init + [ls[|ls| - 1]];
    }
  }

  lemma DeclaredValues()
    ensures (set l | l in Declared :: Value(l)) == {"clutter", "info", "debug", "warning", "error"}
    ensures |{"clutter", "info", "debug", "warning", "error"}| == 5
  {
    var vs := set l | l in Declared :: Value(l);
    assert Value(Declared[0]) in vs && Value(Declared[1]) in vs && Value(Declared[2]) in vs;
    assert Value(Declared[3]) in vs && Value(Declared[4]) in vs;
  }

  lemma InverseOfDeclared(l: Level)
    ensures Value(l) in InverseOf(Declared) && InverseOf(Declared)[Value(l)] == l
  {
    InverseOfBindsValues(Declared);
    AllDeclared(l);
    assert Value(l) in InverseOf(Declared).Keys;
    ValueInjective(InverseOf(Declared)[Value(l)], l);
  }

  /** `get_inversed_dict`: five keys, each mapped back to its own variant. */
  function InversedDict(): (d: map<string, Level>)
    ensures d.Keys == {"clutter", "info", "debug", "warning", "error"}
    ensures |d| == 5
    ensures forall l: Level :: Value(l) in d && d[Value(l)] == l
    ensures forall s :: s in d ==> Value(d[s]) == s
  {
    InverseOfBindsValues(Declared);
    DeclaredValues();
    forall l: Level ensures Value(l) in InverseOf(Declared) && InverseOf(Declared)[Value(l)] == l {
      InverseOfDeclared(l);
    }
    InverseOf(Declared)
  }

  /** `get_from_value` as intended: look the value up in the inverse dict and
      raise ValueError when no variant has it. */
  function FromValue(s: string): (r: Result<Level>)
    ensures r.Ok? <==> exists l: Level :: Value(l) == s
    ensures r.Ok? ==> Value(r.value) == s
    ensures r.Err? ==> r.exception == ValueError("'" + s + "' is not a valid value of any variant.")
  {
    var d := InversedDict();
    if s in d then Ok(d[s])
    else Err(ValueError("'" + s + "' is not a valid value of any variant."))
  }

  lemma FromValueRoundTrip(l: Level)
    ensures FromValue(Value(l)) == Ok(l)
  {
    ValueInjective(FromValue(Value(l)).value, l);
  }

  /** `get_from_value` as written: it calls `Level.get_inversed_dict()` on the
      class without an instance, so Python raises TypeError for every value. */
  function FromValueAsWritten(s: string): (r: Result<Level>)
    ensures r.Err? && r.exception.TypeError?
    ensures FromValue(s).Ok? ==> r != FromValue(s)
  {
    Err(TypeError("Level.get_inversed_dict() missing 1 required positional argument: 'self'"))
  }

  /** The as-written lookup fails even on a value the corrected one finds. */
  lemma FromValueAsWrittenRejectsDebug()
    ensures FromValueAsWritten("debug").Err?
    ensures FromValue("debug") == Ok(Debug)
  {
    FromValueRoundTrip(Debug);
  }

  /** `tuple(...).index(...)`: the first position of `l` in `ls`. */
  function IndexOf(ls: seq<Level>, l: Level): (i: nat)
    requires l in ls
    ensures i < |ls| && ls[i] == l
    ensures forall j :: 0 <= j < i ==> ls[j] != l
  {
    if ls[0] == l then 0 else 1 + IndexOf(ls[1..], l)
  }

  lemma AllDeclared(l: Level)
    ensures l in Declared
  {
    match l
    case Clutter => assert Declared[0] == l;
    case Info => assert Declared[1] == l;
    case Debug => assert Declared[2] == l;
    case Warning => assert Declared[3] == l;
    case Error => assert Declared[4] == l;
  }

  /** `get_level_value`: the 0-based declaration index. */
  function Rank(l: Level): (r: nat)
    ensures r < |Declared| && Declared[r] == l
  {
    AllDeclared(l);
    IndexOf(Declared, l)
  }

  lemma RankValues()
    ensures Rank(Clutter) == 0 && Rank(Info) == 1 && Rank(Debug) == 2
    ensures Rank(Warning) == 3 && Rank(Error) == 4
  {
  }

  lemma RankInjective(a: Level, b: Level)
    ensures Rank(a) == Rank(b) <==> a == b
  {
  }

  /** Comparing ranks is a strict total order on the five levels. */
  lemma RankIsStrictTotalOrder(a: Level, b: Level, c: Level)
    ensures !(Rank(a) < Rank(a))
    ensures a != b ==> Rank(a) < Rank(b) || Rank(b) < Rank(a)
    ensures Rank(a) < Rank(b) && Rank(b) < Rank(c) ==> Rank(a) < Rank(c)
  {
  }
}
