/** The placeholder substitution of component templates
    (`lifecycle/template.go`): the `${var}` and `{{var}}` dialects, the
    `/base64` and `/unbase64` encodings, and the aliases added for mustache
    templates. */
module Placeholders {
  import opened Strings
  import opened Util
  import opened Segments
  import Base64
  import Wrappers

  /** `curlyReplacement` (`${...}`) or `mustacheReplacement` (`{{...}}`). */
  datatype Dialect = Curly | Mustache

  function Opening(d: Dialect): string
  {
    match d
    case Curly => "${"
    case Mustache => "{{"
  }

  function Closing(d: Dialect): string
  {
    match d
    case Curly => "}"
    case Mustache => "}}"
  }

  /** The character class `[a-zA-Z0-9_.|:/-]` of both patterns. */
  predicate IsIdentChar(c: char)
  {
    || ('a' <= c <= 'z') || ('A' <= c <= 'Z') || ('0' <= c <= '9')
    || c == '_' || c == '.' || c == '|' || c == ':' || c == '/' || c == '-'
  }

  /** `t` is a whole match of the dialect's pattern: the opening, one or more
      class characters, the closing. */
  predicate IsMatch(d: Dialect, t: string)
  {
    && |t| > |Opening(d)| + |Closing(d)|
    && t[..|Opening(d)|] == Opening(d)
    && t[|t| - |Closing(d)|..] == Closing(d)
    && forall k :: |Opening(d)| <= k < |t| - |Closing(d)| ==> IsIdentChar(t[k])
  }

  /** Length of the run of class characters starting at `i`. */
  function IdentRun(s: string, i: nat): (n: nat)
    requires i <= |s|
    ensures i + n <= |s|
    ensures forall k :: i <= k < i + n ==> IsIdentChar(s[k])
    ensures i + n == |s| || !IsIdentChar(s[i + n])
    decreases |s| - i
  {
    if i < |s| && IsIdentChar(s[i]) then 1 + IdentRun(s, i + 1) else 0
  }

  /** End of the match that starts at `i`, or -1. The class excludes `}`, so
      the run before the closing is the longest one: the match at `i` is
      unique (`MatchEndComplete`), which makes this scan agree with the
      regular expression's leftmost-first search (`ScanLeftmost`). */
  function MatchEnd(d: Dialect, s: string, i: nat): (e: int)
    requires i <= |s|
    ensures e == -1 || i < e <= |s|
  {
    var open, close := Opening(d), Closing(d);
    if i + 2 <= |s| && s[i..i + 2] == open then
      var n := IdentRun(s, i + 2);
      var j := i + 2 + n;
      if n > 0 && j + |close| <= |s| && s[j..j + |close|] == close then j + |close| else -1
    else -1
  }

  /** What `MatchEnd` finds is a whole match. */
  lemma MatchEndIsMatch(d: Dialect, s: string, i: nat)
    requires i <= |s| && MatchEnd(d, s, i) > 0
    ensures IsMatch(d, s[i..MatchEnd(d, s, i)])
  {
    var e := MatchEnd(d, s, i);
    var close := Closing(d);
    var t := s[i..e];
    var j := e - |close|;
    assert t[..2] == s[i..i + 2];
    assert t[|t| - |close|..] == s[j..j + |close|];
    assert forall k :: 2 <= k < |t| - |close| ==> t[k] == s[i + k];
  }

  /** A run of class characters ended by a character outside the class has
      exactly that length. */
  lemma {:induction false} IdentRunExact(s: string, i: nat, j: nat)
    requires i <= j < |s|
    requires forall k :: i <= k < j ==> IsIdentChar(s[k])
    requires !IsIdentChar(s[j])
    ensures IdentRun(s, i) == j - i
    decreases j - i
  {
    if i < j {
      IdentRunExact(s, i + 1, j);
    }
  }

  /** Every whole match starting at `i` is the one `MatchEnd` finds. */
  lemma MatchEndComplete(d: Dialect, s: string, i: nat, e: nat)
    requires i < e <= |s| && IsMatch(d, s[i..e])
    ensures MatchEnd(d, s, i) == e
  {
    var t := s[i..e];
    var close := Closing(d);
    var j := e - |close|;
    assert s[i..i + 2] == t[..2];
    forall k | i + 2 <= k < j
      ensures IsIdentChar(s[k])
    {
      assert s[k] == t[k - i];
    }
    assert s[j..j + |close|] == t[|t| - |close|..];
    assert s[j] == close[0];
    IdentRunExact(s, i + 2, j);
  }

  /** No whole match starts at `i`. */
  predicate NoMatchAt(d: Dialect, s: string, i: nat)
    requires i <= |s|
  {
    forall e :: i < e <= |s| ==> !IsMatch(d, s[i..e])
  }

  /** `segs` cuts `s[i..]` as a leftmost-first replace-all pass does: where a
      whole match starts it is one hole, anywhere else one byte is copied. */
  ghost predicate LeftmostCuts(d: Dialect, s: string, i: nat, segs: seq<Segment>)
    requires i <= |s|
    decreases |s| - i
  {
    if i == |s| then segs == []
    else
      && |segs| > 0
      && match segs[0]
         case Hole(t) =>
           i + |t| <= |s| && t == s[i..i + |t|] && IsMatch(d, t) && LeftmostCuts(d, s, i + |t|, segs[1..])
         case Chr(c) =>
           c == s[i] && NoMatchAt(d, s, i) && LeftmostCuts(d, s, i + 1, segs[1..])
  }

  /** The scan is the one cut a leftmost-first replace-all pass makes: it finds
      every match, and copies only bytes where no match starts. */
  lemma {:induction false} ScanLeftmost(d: Dialect, s: string, i: nat, segs: seq<Segment>)
    requires i <= |s|
    ensures LeftmostCuts(d, s, i, segs) <==> segs == Scan(d, s, i)
    decreases |s| - i
  {
    if i < |s| {
      var x, next := CutsStep(d, s, i, segs);
      if |segs| > 0 {
        ScanLeftmost(d, s, next, segs[1..]);
      }
      ConsEquals(segs, x, Scan(d, s, next));
    }
  }

  /** One step of both: the scan and every leftmost cut begin with the same
      segment `x`, and go on from `next`. */
  lemma CutsStep(d: Dialect, s: string, i: nat, segs: seq<Segment>) returns (x: Segment, next: nat)
    requires i < |s|
    ensures i < next <= |s| && Scan(d, s, i) == [x] + Scan(d, s, next)
    ensures LeftmostCuts(d, s, i, segs) <==> |segs| > 0 && segs[0] == x && LeftmostCuts(d, s, next, segs[1..])
  {
    var e := MatchEnd(d, s, i);
    MatchUnique(d, s, i);
    if e > 0 {
      MatchEndIsMatch(d, s, i);
      CutsAtMatch(d, s, i, e, segs);
      x, next := Hole(s[i..e]), e;
    } else {
      CutsAtByte(d, s, i, segs);
      x, next := Chr(s[i]), i + 1;
    }
  }

  /** A match starting at `i` ends where `MatchEnd` says; with none found,
      none starts there. */
  lemma MatchUnique(d: Dialect, s: string, i: nat)
    requires i <= |s|
    ensures forall e :: i < e <= |s| && IsMatch(d, s[i..e]) ==> e == MatchEnd(d, s, i)
    ensures MatchEnd(d, s, i) < 0 ==> NoMatchAt(d, s, i)
  {
    forall e | i < e <= |s| && IsMatch(d, s[i..e])
      ensures e == MatchEnd(d, s, i)
    {
      MatchEndComplete(d, s, i, e);
    }
  }

  lemma ConsEquals(segs: seq<Segment>, x: Segment, rest: seq<Segment>)
    ensures segs == [x] + rest <==> |segs| > 0 && segs[0] == x && segs[1..] == rest
  {
    if |segs| > 0 && segs[0] == x && segs[1..] == rest {
      assert segs == [x] + rest;
    }
  }

  /** Where the only match starting at `i` ends at `e`, a leftmost cut takes
      exactly that match. */
  lemma CutsAtMatch(d: Dialect, s: string, i: nat, e: nat, segs: seq<Segment>)
    requires i < e <= |s| && IsMatch(d, s[i..e])
    requires forall e' :: i < e' <= |s| && IsMatch(d, s[i..e']) ==> e' == e
    ensures LeftmostCuts(d, s, i, segs)
            <==> |segs| > 0 && segs[0] == Hole(s[i..e]) && LeftmostCuts(d, s, e, segs[1..])
  {
    if LeftmostCuts(d, s, i, segs) && segs[0].Hole? {
      assert i + |segs[0].text| == e;
    }
  }

  /** Where no match starts, a leftmost cut copies the byte. */
  lemma CutsAtByte(d: Dialect, s: string, i: nat, segs: seq<Segment>)
    requires i < |s| && NoMatchAt(d, s, i)
    ensures LeftmostCuts(d, s, i, segs)
            <==> |segs| > 0 && segs[0] == Chr(s[i]) && LeftmostCuts(d, s, i + 1, segs[1..])
  {
  }

  /** The segments of `s[i..]` as a replace-all pass sees them. */
  function Scan(d: Dialect, s: string, i: nat): seq<Segment>
    requires i <= |s|
    decreases |s| - i
  {
    if i == |s| then []
    else
      var e := MatchEnd(d, s, i);
      if e > 0 then [Hole(s[i..e])] + Scan(d, s, e) else [Chr(s[i])] + Scan(d, s, i + 1)
  }

  /** The scan cuts the template without losing or adding anything. */
  lemma {:induction false} ScanFlatten(d: Dialect, s: string, i: nat)
    requires i <= |s|
    ensures Flatten(Scan(d, s, i)) == s[i..]
    decreases |s| - i
  {
    if i < |s| {
      var e := MatchEnd(d, s, i);
      if e > 0 {
        ScanFlatten(d, s, e);
        FlattenAppend([Hole(s[i..e])], Scan(d, s, e));
        assert Flatten([Hole(s[i..e])]) == s[i..e];
        SplitAt(s, i, e);
      } else {
        ScanFlatten(d, s, i + 1);
        FlattenAppend([Chr(s[i])], Scan(d, s, i + 1));
        assert Flatten([Chr(s[i])]) == [s[i]];
        SplitAt(s, i, i + 1);
        assert s[i..i + 1] == [s[i]];
      }
    }
  }

  /** Every string of `hs` is a whole match of the pattern. */
  predicate AllMatches(d: Dialect, hs: seq<string>)
  {
    forall k :: 0 <= k < |hs| ==> IsMatch(d, hs[k])
  }

  /** Every hole the scan finds is a whole match of the pattern. */
  lemma {:induction false} ScanHoles(d: Dialect, s: string, i: nat)
    requires i <= |s|
    ensures AllMatches(d, Holes(Scan(d, s, i)))
    decreases |s| - i
  {
    if i < |s| {
      var e := MatchEnd(d, s, i);
      if e > 0 {
        var rest := Scan(d, s, e);
        MatchEndIsMatch(d, s, i);
        ScanHoles(d, s, e);
        HolesCons(Hole(s[i..e]), rest);
        MatchesCons(d, s[i..e], Holes(rest));
      } else {
        var rest := Scan(d, s, i + 1);
        ScanHoles(d, s, i + 1);
        HolesCons(Chr(s[i]), rest);
      }
    }
  }

  lemma MatchesCons(d: Dialect, x: string, hs: seq<string>)
    requires IsMatch(d, x) && AllMatches(d, hs)
    ensures AllMatches(d, [x] + hs)
  {
    forall k | 0 <= k < |[x] + hs|
      ensures IsMatch(d, ([x] + hs)[k])
    {
      if k > 0 {
        assert ([x] + hs)[k] == hs[k - 1];
      }
    }
  }

  /** `stripCurly`: the variable of a `${...}` match. */
  function StripCurly(m: string): string
    requires |m| >= 3
  {
    m[2..|m| - 1]
  }

  /** `stripMustache`: the variable of a `{{...}}` match. */
  function StripMustache(m: string): string
    requires |m| >= 4
  {
    m[2..|m| - 2]
  }

  /** Stripping a match leaves its non-empty run of class characters. */
  lemma StripOfMatch(d: Dialect, m: string)
    requires IsMatch(d, m)
    ensures var r := Strip(d, m);
            && m == Opening(d) + r + Closing(d) && r != [] && forall c :: c in r ==> IsIdentChar(c)
  {
    var r := Strip(d, m);
    var close := Closing(d);
    assert r == m[2..|m| - |close|];
    assert m == m[..2] + r + m[|m| - |close|..];
    assert forall k :: 0 <= k < |r| ==> r[k] == m[k + 2];
  }

  /** The variable of a match of the dialect. Defined on every string; the
      scan only hands it whole matches (`ScanHoles`). */
  function Strip(d: Dialect, m: string): string
  {
    if |m| < |Opening(d)| + |Closing(d)| then m
    else
      match d
      case Curly => StripCurly(m)
      case Mustache => StripMustache(m)
  }

  /** `valueEncoding`: `name/encoding` split at the first `/`, provided it is
      neither the first nor the last character; otherwise no encoding. */
  function ValueEncoding(variable: string): (string, string)
  {
    var i := Find(variable, '/');
    if i <= 0 || i == |variable| - 1 then (variable, "") else (variable[..i], variable[i + 1..])
  }

  /** With an encoding, the variable is the name, a `/` and the encoding,
      and the name is non-empty and has no `/`; the encoding is empty
      exactly when there is no `/`, or the first one is at either end. */
  lemma ValueEncodingSplits(variable: string)
    ensures var r := ValueEncoding(variable);
            && (r.1 != "" ==> r.0 + "/" + r.1 == variable && r.0 != "" && '/' !in r.0)
            && (r.1 == "" ==> r.0 == variable)
            && (r.1 == "" <==> '/' !in variable || variable[0] == '/' || '/' !in variable[..|variable| - 1])
  {
    var i := Find(variable, '/');
    if i <= 0 || i == |variable| - 1 {
      assert 0 <= i == |variable| - 1 ==> variable[..|variable| - 1] == variable[..i];
    } else {
      assert variable == variable[..i] + "/" + variable[i + 1..];
      assert variable[..|variable| - 1][i] == '/';
    }
  }

  /** The text a substitution of an unknown variable produces. */
  const Unknown: string := "(unknown)"

  /** The value after its encoding is applied. */
  function Encoded(value: string, encoding: string): string
  {
    if encoding == "" then TrimSpace(value)
    else if encoding == "base64" then Base64.Encode(value)
    else if encoding == "unbase64" then
      match Base64.Decode(value)
      case Some(decoded) => decoded
      case None => value
    else value
  }

  /** `${v/base64}` of a value, fed back through `/unbase64`, is the value. */
  lemma EncodingRoundTrip(value: string)
    requires Base64.IsByteString(value)
    ensures Encoded(Encoded(value, "base64"), "unbase64") == value
  {
    Base64.DecodeEncode(value);
  }

  /** No encoding trims the value (` on ` becomes `on`); an unknown encoding
      leaves it as it is, untrimmed. */
  lemma EncodingTrims(value: string, encoding: string)
    ensures Encoded(value, "") == TrimSpace(value)
    ensures encoding !in {"", "base64", "unbase64"} ==> Encoded(value, encoding) == value
    ensures Encoded(" on ", "") == "on"
  {
    assert TrimLeft(" on ") == "on ";
    assert TrimRight("on ") == "on";
  }

  /** `base64` encodes the value. */
  lemma EncodingBase64()
    ensures Encoded("hello", "base64") == "aGVsbG8="
  {
    Base64.HelloEncodes();
  }

  /** `unbase64` decodes the value. */
  lemma EncodingUnbase64()
    ensures Encoded("aGVsbG8=", "unbase64") == "hello"
  {
    Base64.HelloDecodes();
    Unbase64Decodes("aGVsbG8=", "hello");
  }

  lemma Unbase64Decodes(value: string, decoded: string)
    requires Base64.Decode(value) == Wrappers.Some(decoded)
    ensures Encoded(value, "unbase64") == decoded
  {
  }

  /** `unbase64` leaves text that does not decode as it is (`a`, say). */
  lemma EncodingUndecodable(value: string)
    requires Base64.Decode(value).None?
    ensures Encoded(value, "unbase64") == value
    ensures Encoded("a", "unbase64") == "a"
  {
    assert Base64.StripNewlines("a") == "a";
  }

  /** The parameter lookup of a template: `parameters.FindValue` with the
      component, its dependencies and the key-value bindings. */
  datatype Lookup = Lookup(findValue: (string, string, seq<string>, map<string, string>) -> (string, bool),
                           componentName: string, componentDepends: seq<string>, kv: map<string, string>)

  function FindValue(l: Lookup, name: string): (string, bool)
  {
    l.findValue(name, l.componentName, l.componentDepends, l.kv)
  }

  /** The variable a match names, without its encoding. */
  function VariableOf(d: Dialect, m: string): string
  {
    ValueEncoding(Strip(d, m)).0
  }

  /** The replacement of one match. */
  function Substitute(l: Lookup, d: Dialect, m: string): string
  {
    var (name, encoding) := ValueEncoding(Strip(d, m));
    var (value, exist) := FindValue(l, name);
    Encoded(if exist then value else Unknown, encoding)
  }

  /** The replace-all callback. */
  function Substitutor(l: Lookup, d: Dialect): string -> string
  {
    m => Substitute(l, d, m)
  }

  /** The variables the matches name, in order. */
  function Variables(d: Dialect, holes: seq<string>): (r: seq<string>)
  {
    seq(|holes|, k requires 0 <= k < |holes| => VariableOf(d, holes[k]))
  }

  /** The names the lookup does not know, in order. */
  function UnknownAmong(l: Lookup, names: seq<string>): seq<string>
  {
    if |names| == 0 then []
    else
      var name := names[|names| - 1];
      UnknownAmong(l, names[..|names| - 1]) + (if !FindValue(l, name).1 then [name] else [])
  }

  /** The variables of `holes` that the lookup does not know, in order. */
  function UnknownVariables(l: Lookup, d: Dialect, holes: seq<string>): seq<string>
  {
    UnknownAmong(l, Variables(d, holes))
  }

  function UnknownError(filename: string, variable: string): string
  {
    "Template `" + filename + "` refer to unknown substitution `" + variable + "`"
  }

  /** One error per unknown variable, in order. */
  function UnknownErrors(filename: string, variables: seq<string>): (r: seq<string>)
    ensures |r| == |variables|
  {
    if |variables| == 0 then []
    else UnknownErrors(filename, variables[..|variables| - 1]) + [UnknownError(filename, variables[|variables| - 1])]
  }

  lemma {:induction false} UnknownErrorsAt(filename: string, variables: seq<string>)
    ensures forall i :: 0 <= i < |variables| ==> UnknownErrors(filename, variables)[i] == UnknownError(filename, variables[i])
    decreases |variables|
  {
    if |variables| > 0 {
      UnknownErrorsAt(filename, variables[..|variables| - 1]);
    }
  }

  /** The unknown names are those the lookup does not know, each occurrence
      counted once. */
  lemma {:induction false} UnknownAmongAt(l: Lookup, names: seq<string>, x: string)
    ensures |UnknownAmong(l, names)| <= |names|
    ensures x in UnknownAmong(l, names) <==> x in names && !FindValue(l, x).1
    ensures UnknownAmong(l, names) == [] <==> forall k :: 0 <= k < |names| ==> FindValue(l, names[k]).1
    decreases |names|
  {
    if |names| > 0 {
      var init := names[..|names| - 1];
      UnknownAmongAt(l, init, x);
      assert forall k :: 0 <= k < |init| ==> init[k] == names[k];
      assert x in names <==> x in init || x == names[|names| - 1];
    }
  }

  /** One error per unknown match: an error names `x` exactly when some
      match names the variable `x` and the lookup does not know it, and
      there are no errors exactly when every match is known. */
  lemma UnknownVariablesAt(l: Lookup, d: Dialect, holes: seq<string>, x: string)
    ensures |UnknownVariables(l, d, holes)| <= |holes|
    ensures x in UnknownVariables(l, d, holes)
            <==> exists k :: 0 <= k < |holes| && VariableOf(d, holes[k]) == x && !FindValue(l, x).1
    ensures UnknownVariables(l, d, holes) == [] <==> forall k :: 0 <= k < |holes| ==> FindValue(l, VariableOf(d, holes[k])).1
  {
    var names := Variables(d, holes);
    UnknownAmongAt(l, names, x);
    if x in names {
      var k :| 0 <= k < |names| && names[k] == x;
      assert VariableOf(d, holes[k]) == x;
    }
    forall k | 0 <= k < |holes|
      ensures names[k] == VariableOf(d, holes[k])
    {
    }
  }

  /** A template without a match comes out unchanged. */
  lemma NoMatchUnchanged(l: Lookup, d: Dialect, content: string)
    requires Holes(Scan(d, content, 0)) == []
    ensures Render(Scan(d, content, 0), Substitutor(l, d)) == content
  {
    ScanFlatten(d, content, 0);
    RenderWithoutHoles(Scan(d, content, 0), Substitutor(l, d));
  }

  /** The replacement of one match, with the variable it names and whether
      the lookup knows it. */
  method SubstituteMatch(l: Lookup, d: Dialect, m: string) returns (text: string, name: string, known: bool)
    ensures text == Substitute(l, d, m) && name == VariableOf(d, m) && known == FindValue(l, name).1
  {
    var variable := Strip(d, m);
    var encoding;
    name, encoding := ValueEncoding(variable).0, ValueEncoding(variable).1;
    var substitution;
    substitution, known := FindValue(l, name).0, FindValue(l, name).1;
    if !known {
      substitution := Unknown;
    }
    text := Encoded(substitution, encoding);
  }

  /** One more match: its variable is appended when the lookup does not know it. */
  lemma UnknownVariablesStep(l: Lookup, d: Dialect, seen: seq<string>, m: string)
    ensures var x := VariableOf(d, m);
            UnknownVariables(l, d, seen + [m])
            == UnknownVariables(l, d, seen) + (if !FindValue(l, x).1 then [x] else [])
  {
    var names := Variables(d, seen);
    assert Variables(d, seen + [m]) == names + [VariableOf(d, m)];
    assert (names + [VariableOf(d, m)])[..|names|] == names;
  }

  lemma UnknownErrorsStep(filename: string, variables: seq<string>, extra: seq<string>)
    requires |extra| <= 1
    ensures UnknownErrors(filename, variables + extra)
            == UnknownErrors(filename, variables) + (if extra == [] then [] else [UnknownError(filename, extra[0])])
  {
    if extra == [] {
      assert variables + extra == variables;
    } else {
      assert (variables + extra)[..|variables|] == variables;
    }
  }

  /** `processReplacement`: every match replaced by its substitution, one
      error per unknown variable, and whether anything was replaced. */
  method ProcessReplacement(content: string, filename: string, l: Lookup, d: Dialect)
    returns (outContent: string, errs: seq<string>, replaced: bool)
    ensures var segs := Scan(d, content, 0);
            && outContent == Render(segs, Substitutor(l, d))
            && errs == UnknownErrors(filename, UnknownVariables(l, d, Holes(segs)))
            && (replaced <==> Holes(segs) != [])
  {
    var segs := Scan(d, content, 0);
    ghost var seen: seq<string> := [];
    outContent, errs, replaced := "", [], false;
    var j := 0;
    while j < |segs|
      invariant 0 <= j <= |segs|
      invariant ReplacementState(l, d, filename, segs, j, outContent, errs, seen)
      invariant replaced <==> seen != []
    {
      if segs[j].Chr? {
        ReplacementStep(l, d, filename, segs, j, outContent, errs, seen);
        outContent := outContent + [segs[j].c];
      } else {
        var m := segs[j].text;
        var text, name, known := SubstituteMatch(l, d, m);
        ReplacementStep(l, d, filename, segs, j, outContent, errs, seen);
        seen := seen + [m];
        if !known {
          errs := errs + [UnknownError(filename, name)];
        }
        replaced := true;
        outContent := outContent + text;
      }
      j := j + 1;
    }
    assert segs[..j] == segs;
  }

  /** The replace-all pass after `segs[..j]`: the text so far, the matches
      seen and one error per unknown variable among them. */
  ghost predicate ReplacementState(l: Lookup, d: Dialect, filename: string, segs: seq<Segment>, j: nat,
                                   outContent: string, errs: seq<string>, seen: seq<string>)
  {
    && j <= |segs|
    && seen == Holes(segs[..j])
    && outContent == Render(segs[..j], Substitutor(l, d))
    && errs == UnknownErrors(filename, UnknownVariables(l, d, seen))
  }

  /** One segment more. */
  lemma ReplacementStep(l: Lookup, d: Dialect, filename: string, segs: seq<Segment>, j: nat,
                        outContent: string, errs: seq<string>, seen: seq<string>)
    requires j < |segs| && ReplacementState(l, d, filename, segs, j, outContent, errs, seen)
    ensures segs[j].Chr? ==> ReplacementState(l, d, filename, segs, j + 1, outContent + [segs[j].c], errs, seen)
    ensures segs[j].Hole? ==>
              var m := segs[j].text;
              var x := VariableOf(d, m);
              ReplacementState(l, d, filename, segs, j + 1, outContent + Substitute(l, d, m),
                               errs + (if FindValue(l, x).1 then [] else [UnknownError(filename, x)]), seen + [m])
  {
    RenderStep(segs, j, Substitutor(l, d));
    if segs[j].Hole? {
      var m := segs[j].text;
      var x := VariableOf(d, m);
      UnknownVariablesStep(l, d, seen, m);
      UnknownErrorsStep(filename, UnknownVariables(l, d, seen), if FindValue(l, x).1 then [] else [x]);
    }
  }

  // ------------------------------------------------------- mustache keys

  /** The mustache-compatible name of a key: every `.` replaced by `_`. */
  function Alias(k: string): (r: string)
    ensures '.' !in r && |r| == |k|
  {
    var r := ReplaceChar(k, '.', '_');
    assert forall i :: 0 <= i < |r| ==> r[i] != '.';
    r
  }

  /** The bindings after the aliases of the keys in `order` are added. */
  function WithAliases(kv: map<string, string>, order: seq<string>): map<string, string>
    requires forall k :: k in order ==> k in kv
  {
    if |order| == 0 then kv
    else
      var prev := WithAliases(kv, order[..|order| - 1]);
      var k := order[|order| - 1];
      if '.' in k then prev[Alias(k) := kv[k]] else prev
  }

  /** Some key with a `.` in `order` has the alias `x`. */
  predicate IsAliasIn(order: seq<string>, x: string)
  {
    exists i :: 0 <= i < |order| && '.' in order[i] && Alias(order[i]) == x
  }

  /** Every key is kept; a key with a `.` keeps its value; each alias is
      bound to the value of a key it is the alias of (the last one visited
      when two keys share an alias); nothing else changes. */
  lemma {:induction false} WithAliasesAt(kv: map<string, string>, order: seq<string>, x: string)
    requires forall k :: k in order ==> k in kv
    ensures var r := WithAliases(kv, order);
            && (x in r <==> x in kv || IsAliasIn(order, x))
            && ('.' in x && x in kv ==> r[x] == kv[x])
            && (x in kv && !IsAliasIn(order, x) ==> r[x] == kv[x])
            && (IsAliasIn(order, x) ==> exists i :: 0 <= i < |order| && '.' in order[i] && Alias(order[i]) == x
                                                   && r[x] == kv[order[i]])
    decreases |order|
  {
    if |order| > 0 {
      var init := order[..|order| - 1];
      var k := order[|order| - 1];
      WithAliasesAt(kv, init, x);
      assert forall i :: 0 <= i < |init| ==> init[i] == order[i];
      assert IsAliasIn(order, x) <==> IsAliasIn(init, x) || ('.' in k && Alias(k) == x);
      if '.' in k && Alias(k) == x {
        assert order[|order| - 1] == k;
      }
    }
  }

  /** `addMustacheCompatibleBindings`, visiting the keys in `order`. */
  method AddMustacheCompatibleBindings(kv: map<string, string>, order: seq<string>) returns (r: map<string, string>)
    requires Enumerates(order, kv)
    ensures r == WithAliases(kv, order)
  {
    r := kv;
    var i := 0;
    while i < |order|
      invariant 0 <= i <= |order|
      invariant r == WithAliases(kv, order[..i])
      invariant forall k :: k in kv && '.' in k ==> k in r && r[k] == kv[k]
    {
      var k := order[i];
      assert order[..i + 1][..i] == order[..i];
      if '.' in k {
        r := r[Alias(k) := r[k]];
      }
      i := i + 1;
    }
    assert order[..i] == order;
  }
}
