/** The line formatter (logit/output.py). Each prefix or suffix producer is
    modelled by the string it returns when called; the ambient level name
    that the `level` producer reads is passed in explicitly. */
module Output {

  const Separator: string := " | "

  /** `level()`: the ambient level name between square brackets. */
  function LevelField(current: string): (s: string)
    ensures |s| == |current| + 2
    ensures s[0] == '[' && s[|s| - 1] == ']'
    ensures s[1..|s| - 1] == current
  {
    "[" + current + "]"
  }

  /** What the first loop of `_output_builder` appends: each prefix followed
      by the separator, in list order, so each prefix adds its length plus
      three. */
  function Prefixes(ps: seq<string>): (r: string)
    ensures |r| == Width(ps)
  {
    if ps == [] then "" else Prefixes(ps[..|ps| - 1]) + ps[|ps| - 1] + Separator
  }

  /** What the second loop appends: the separator followed by each suffix,
      so each suffix adds its length plus three. */
  function Suffixes(ss: seq<string>): (r: string)
    ensures |r| == Width(ss)
  {
    if ss == [] then "" else Suffixes(ss[..|ss| - 1]) + Separator + ss[|ss| - 1]
  }

  /** The line built from the producers' strings and the message: its
      length, and the message sitting right after the prefixes. */
  function Line(ps: seq<string>, msg: string, ss: seq<string>): (line: string)
    ensures |line| == |msg| + Width(ps) + Width(ss)
    ensures line[Width(ps)..Width(ps) + |msg|] == msg
  {
    Prefixes(ps) + msg + Suffixes(ss)
  }

  /** Independent reference: the parts joined by a separator, as
      `sep.join(parts)` would. */
  function Join(parts: seq<string>, sep: string): string
  {
    if parts == [] then ""
    else if |parts| == 1 then parts[0]
    else parts[0] + sep + Join(parts[1..], sep)
  }

  /** The room the fields take: each field's length plus the separator's. */
  function Width(fields: seq<string>): nat
  {
    if fields == [] then 0 else Width(fields[..|fields| - 1]) + |fields[|fields| - 1]| + |Separator|
  }

  lemma {:induction false} JoinAppend(xs: seq<string>, s: string, sep: string)
    requires xs != []
    ensures Join(xs + [s], sep) == Join(xs, sep) + sep + s
  {
    if |xs| > 1 {
      assert (xs + [s])[1..] == xs[1..] + [s];
      JoinAppend(xs[1..], s, sep);
    }
  }

  lemma {:induction false} JoinPrefixes(ps: seq<string>, rest: seq<string>)
    requires rest != []
    ensures Join(ps + rest, Separator) == Prefixes(ps) + Join(rest, Separator)
  {
    if ps != [] {
      var init, p := ps[..|ps| - 1], ps[|ps| - 1];
      assert ps + rest == init + ([p] + rest);
      JoinPrefixes(init, [p] + rest);
      assert ([p] + rest)[1..] == rest;
      assert Prefixes(ps) == Prefixes(init) + p + Separator;
      assert Join([p] + rest, Separator) == p + Separator + Join(rest, Separator);
    } else {
      assert ps + rest == rest;
    }
  }

  lemma {:induction false} JoinSuffixes(msg: string, ss: seq<string>)
    ensures Join([msg] + ss, Separator) == msg + Suffixes(ss)
  {
    if ss != [] {
      var init, s := ss[..|ss| - 1], ss[|ss| - 1];
      assert [msg] + ss == ([msg] + init) + [s];
      JoinAppend([msg] + init, s, Separator);
      JoinSuffixes(msg, init);
    }
  }

  /** The line is the prefixes, the message and the suffixes, in that order,
      joined by " | ". */
  lemma LineIsJoin(ps: seq<string>, msg: string, ss: seq<string>)
    ensures Line(ps, msg, ss) == Join(ps + [msg] + ss, Separator)
  {
    assert ps + [msg] + ss == ps + ([msg] + ss);
    JoinPrefixes(ps, [msg] + ss);
    JoinSuffixes(msg, ss);
  }

  /** `_output_builder`: grow the line with `+=` over the prefixes, the
      message and the suffixes. */
  method OutputBuilder(prefixes: seq<string>, msg: string, suffixes: seq<string>) returns (output: string)
    ensures output == Line(prefixes, msg, suffixes)
    ensures prefixes == [] && suffixes == [] ==> output == msg
  {
    output := "";
    var i := 0;
    while i < |prefixes|
      invariant 0 <= i <= |prefixes|
      invariant output == Prefixes(prefixes[..i])
    {
      assert prefixes[..i + 1][..i] == prefixes[..i];
      output := output + prefixes[i] + Separator;
      i := i + 1;
    }
    assert prefixes[..i] == prefixes;
    output := output + msg;
    var j := 0;
    while j < |suffixes|
      invariant 0 <= j <= |suffixes|
      invariant output == Prefixes(prefixes) + msg + Suffixes(suffixes[..j])
    {
      assert suffixes[..j + 1][..j] == suffixes[..j];
      output := output + Separator + suffixes[j];
      j := j + 1;
    }
    assert suffixes[..j] == suffixes;
  }
}
