/** Captured outputs and the expansion of a stack's requested outputs
    (`parameters/output.go`). */
module Parameters {
  import opened Wrappers
  import opened Strings
  import opened Util
  import opened Segments

  /** An output a component produced after it ran. */
  datatype CapturedOutput = CapturedOutput(name: string, component: string, value: string, kind: string)

  /** One value of the locked parameter set. */
  datatype LockedParameter = LockedParameter(name: string, component: string, value: string)

  /** A stack output as the manifest declares it. */
  datatype RequestedOutput = RequestedOutput(name: string, value: string, kind: string, brief: string)

  /** A stack output ready for display. */
  datatype ExpandedOutput = ExpandedOutput(name: string, value: string, kind: string, brief: string)

  /** Captured outputs by qualified name. */
  type Outputs = map<string, CapturedOutput>

  /** Functions of the `parameters` package that are not part of this model,
      each taken as given: `CapturedOutput.QName`, `ParametersKV`, `OutputsKV`,
      `RequireExpansion`, the `CurlyReplacement` regular expression (as the
      split of a string into its matches and the bytes between them) and
      `StripCurly` (the variable and whether the match is a CEL expression). */
  datatype Helpers = Helpers(
    qName: CapturedOutput -> string,
    parametersKV: seq<LockedParameter> -> map<string, string>,
    outputsKV: Outputs -> map<string, string>,
    requireExpansion: string -> bool,
    curlyReplacement: string -> seq<Segment>,
    stripCurly: string -> (string, bool))

  /** Every output is stored under its own qualified name. */
  predicate WellKeyed(outputs: Outputs, qName: CapturedOutput -> string)
  {
    forall k :: k in outputs ==> qName(outputs[k]) == k
  }

  // ---------------------------------------------------------------- merging

  /** The condition under which `MergeOutput` logs that it overwrites a value
      (in verbose mode): the key exists with a different, non-empty value, and
      the write is not a plain value being re-marked as a secret. */
  predicate OverwriteWarned(outputs: Outputs, add: CapturedOutput, qName: CapturedOutput -> string)
  {
    var q := qName(add);
    && q in outputs
    && outputs[q].value != add.value
    && outputs[q].value != ""
    && !(outputs[q].kind == "" && HasPrefix(add.kind, "secret"))
  }

  /** `outputs` after `MergeOutput` of each of `adds`, in order. */
  function Merged(outputs: Outputs, adds: seq<CapturedOutput>, qName: CapturedOutput -> string): Outputs
    decreases |adds|
  {
    if |adds| == 0 then outputs
    else
      var last := adds[|adds| - 1];
      Merged(outputs, adds[..|adds| - 1], qName)[qName(last) := last]
  }

  /** Index of the last of `adds` whose qualified name is `k`, or -1. */
  function LastWith(adds: seq<CapturedOutput>, k: string, qName: CapturedOutput -> string): (i: int)
    ensures -1 <= i < |adds|
    ensures 0 <= i ==> qName(adds[i]) == k
    ensures forall j :: i < j < |adds| ==> qName(adds[j]) != k
  {
    if |adds| == 0 then -1
    else if qName(adds[|adds| - 1]) == k then |adds| - 1
    else LastWith(adds[..|adds| - 1], k, qName)
  }

  /** The last write wins: a key holds the last output merged under it, and a
      key no merged output names keeps what it had. */
  lemma {:induction false} LastWriteWins(outputs: Outputs, adds: seq<CapturedOutput>, qName: CapturedOutput -> string, k: string)
    ensures var r, i := Merged(outputs, adds, qName), LastWith(adds, k, qName);
            && (0 <= i ==> k in r && r[k] == adds[i])
            && (i == -1 ==> (k in r <==> k in outputs) && (k in outputs ==> r[k] == outputs[k]))
    decreases |adds|
  {
    if |adds| > 0 {
      LastWriteWins(outputs, adds[..|adds| - 1], qName, k);
    }
  }

  /** Merging keeps every output under its own qualified name. */
  lemma {:induction false} MergedStaysWellKeyed(outputs: Outputs, adds: seq<CapturedOutput>, qName: CapturedOutput -> string)
    requires WellKeyed(outputs, qName)
    ensures WellKeyed(Merged(outputs, adds, qName), qName)
    decreases |adds|
  {
    if |adds| > 0 {
      MergedStaysWellKeyed(outputs, adds[..|adds| - 1], qName);
    }
  }

  /** The values of `m` in the order a `range` visits its keys. */
  function InOrder(m: Outputs, order: seq<string>): (r: seq<CapturedOutput>)
    requires forall k :: k in order ==> k in m
    ensures |r| == |order| && forall i :: 0 <= i < |order| ==> r[i] == m[order[i]]
  {
    if |order| == 0 then [] else InOrder(m, order[..|order| - 1]) + [m[order[|order| - 1]]]
  }

  /** One key after merging a well-keyed map: a key of the map holds its
      value there, any other key what it had. */
  lemma MergeWellKeyedAt(outputs: Outputs, toMerge: Outputs, order: seq<string>, qName: CapturedOutput -> string, k: string)
    requires WellKeyed(toMerge, qName) && Enumerates(order, toMerge)
    ensures var r := Merged(outputs, InOrder(toMerge, order), qName);
            && (k in r <==> k in outputs || k in toMerge)
            && (k in toMerge ==> r[k] == toMerge[k])
            && (k !in toMerge && k in outputs ==> r[k] == outputs[k])
  {
    var adds := InOrder(toMerge, order);
    LastWriteWins(outputs, adds, qName, k);
    var i := LastWith(adds, k, qName);
    if 0 <= i {
      assert adds[i] == toMerge[order[i]];
      assert qName(toMerge[order[i]]) == order[i];
    }
    if k in toMerge {
      var j :| 0 <= j < |order| && order[j] == k;
      assert adds[j] == toMerge[k];
      assert qName(adds[j]) == k;
      assert 0 <= i && order[i] == k;
    }
  }

  /** Merging a well-keyed map overwrites exactly its keys, whatever the
      order the merge visits them in. */
  lemma MergeWellKeyedMap(outputs: Outputs, toMerge: Outputs, order: seq<string>, qName: CapturedOutput -> string)
    requires WellKeyed(toMerge, qName) && Enumerates(order, toMerge)
    ensures Merged(outputs, InOrder(toMerge, order), qName) == outputs + toMerge
  {
    var r := Merged(outputs, InOrder(toMerge, order), qName);
    var u := outputs + toMerge;
    forall k
      ensures (k in r <==> k in u) && (k in r ==> r[k] == u[k])
    {
      MergeWellKeyedAt(outputs, toMerge, order, qName, k);
      UnionAt(outputs, toMerge, k);
    }
    SameMaps(r, u);
  }

  lemma UnionAt(outputs: Outputs, toMerge: Outputs, k: string)
    ensures k in outputs + toMerge <==> k in outputs || k in toMerge
    ensures k in toMerge ==> (outputs + toMerge)[k] == toMerge[k]
    ensures k !in toMerge && k in outputs ==> (outputs + toMerge)[k] == outputs[k]
  {
  }

  lemma SameMaps(r: Outputs, u: Outputs)
    requires forall k :: (k in r <==> k in u) && (k in r ==> r[k] == u[k])
    ensures r == u
  {
    assert r.Keys == u.Keys;
  }

  /** The lists, one after the other. */
  function Concat(lists: seq<seq<CapturedOutput>>): seq<CapturedOutput>
  {
    if |lists| == 0 then [] else Concat(lists[..|lists| - 1]) + lists[|lists| - 1]
  }

  /** A map of captured outputs, updated in place. */
  class CapturedOutputs {
    var entries: Outputs
    const qName: CapturedOutput -> string

    constructor (qName: CapturedOutput -> string)
      ensures entries == map[] && this.qName == qName
    {
      entries := map[];
      this.qName := qName;
    }

    /** Insert or overwrite by qualified name; `warned` tells whether the
        overwrite message is logged (verbose mode). */
    method MergeOutput(add: CapturedOutput) returns (warned: bool)
      modifies this
      ensures entries == old(entries)[qName(add) := add]
      ensures warned == OverwriteWarned(old(entries), add, qName)
    {
      var q := qName(add);
      warned := false;
      if q in entries {
        var current := entries[q];
        warned := current.value != add.value && current.value != ""
                  && !(current.kind == "" && HasPrefix(add.kind, "secret"));
      }
      entries := entries[q := add];
    }

    /** Merge every output of `toMerge`, visiting its keys in `order`. */
    method MergeOutputs(toMerge: Outputs, order: seq<string>)
      requires Enumerates(order, toMerge)
      modifies this
      ensures entries == Merged(old(entries), InOrder(toMerge, order), qName)
    {
      var i := 0;
      while i < |order|
        invariant 0 <= i <= |order|
        invariant entries == Merged(old(entries), InOrder(toMerge, order[..i]), qName)
      {
        var _ := MergeOutput(toMerge[order[i]]);
        assert order[..i + 1][..i] == order[..i];
        i := i + 1;
      }
      assert order[..i] == order;
    }
  }

  lemma MergedSnoc(outputs: Outputs, adds: seq<CapturedOutput>, x: CapturedOutput, qName: CapturedOutput -> string)
    ensures Merged(outputs, adds + [x], qName) == Merged(outputs, adds, qName)[qName(x) := x]
  {
    assert (adds + [x])[..|adds|] == adds;
  }

  lemma ConcatStep(lists: seq<seq<CapturedOutput>>, i: nat)
    requires i < |lists|
    ensures Concat(lists[..i + 1]) == Concat(lists[..i]) + lists[i]
  {
    assert lists[..i + 1][..i] == lists[..i];
  }

  /** A fresh map holding the outputs of all lists, later writes winning. */
  method OutputsFromList(lists: seq<seq<CapturedOutput>>, qName: CapturedOutput -> string)
    returns (outputs: CapturedOutputs)
    ensures fresh(outputs) && outputs.qName == qName
    ensures outputs.entries == Merged(map[], Concat(lists), qName)
  {
    outputs := new CapturedOutputs(qName);
    var i := 0;
    while i < |lists|
      invariant 0 <= i <= |lists|
      invariant fresh(outputs) && outputs.qName == qName
      invariant outputs.entries == Merged(map[], Concat(lists[..i]), qName)
    {
      var list := lists[i];
      var j := 0;
      assert Concat(lists[..i]) + list[..0] == Concat(lists[..i]);
      while j < |list|
        invariant 0 <= j <= |list|
        invariant outputs.qName == qName
        invariant outputs.entries == Merged(map[], Concat(lists[..i]) + list[..j], qName)
      {
        ghost var before := Concat(lists[..i]) + list[..j];
        var _ := outputs.MergeOutput(list[j]);
        assert Concat(lists[..i]) + list[..j + 1] == before + [list[j]];
        MergedSnoc(map[], before, list[j], qName);
        j := j + 1;
      }
      ConcatStep(lists, i);
      assert list[..j] == list;
      i := i + 1;
    }
    assert lists[..i] == lists;
  }

  // ------------------------------------------------------- stack outputs

  /** What one `${...}` match of a requested output's value resolves to. */
  datatype Resolution = Unsupported | Missing | Found(value: string) | Unexpanded(value: string)

  function Classify(h: Helpers, value: string): Resolution
  {
    if h.requireExpansion(value) then Unexpanded(value) else Found(value)
  }

  /** A CEL match is unsupported; otherwise the variable is looked up in the
      outputs first and in the parameters second. */
  function ResolveMatch(h: Helpers, kvOutputs: map<string, string>, kvParameters: map<string, string>,
                        text: string): Resolution
  {
    var (variable, isCel) := h.stripCurly(text);
    if isCel then Unsupported
    else if variable in kvOutputs then Classify(h, kvOutputs[variable])
    else if variable in kvParameters then Classify(h, kvParameters[variable])
    else Missing
  }

  /** The text that replaces a match. */
  function SubstitutionText(r: Resolution): string
  {
    match r
    case Unsupported => "(unsupported)"
    case Missing => ""
    case Found(v) => v
    case Unexpanded(v) => v
  }

  function Substitutor(h: Helpers, kvOutputs: map<string, string>, kvParameters: map<string, string>): string -> string
  {
    text => SubstitutionText(ResolveMatch(h, kvOutputs, kvParameters, text))
  }

  /** How many of `holes` resolve to a value. */
  function FoundCount(h: Helpers, kvOutputs: map<string, string>, kvParameters: map<string, string>,
                      holes: seq<string>): (n: nat)
    ensures n <= |holes|
  {
    if |holes| == 0 then 0
    else FoundCount(h, kvOutputs, kvParameters, holes[..|holes| - 1])
         + (if ResolveMatch(h, kvOutputs, kvParameters, holes[|holes| - 1]).Found? then 1 else 0)
  }

  /** Every match was counted as found exactly when all of them resolved. */
  lemma {:induction false} FoundCountAll(h: Helpers, kvOutputs: map<string, string>, kvParameters: map<string, string>,
                                         holes: seq<string>)
    ensures FoundCount(h, kvOutputs, kvParameters, holes) == |holes|
            <==> AllFound(h, kvOutputs, kvParameters, holes)
    decreases |holes|
  {
    if |holes| > 0 {
      var init := holes[..|holes| - 1];
      FoundCountAll(h, kvOutputs, kvParameters, init);
      assert forall i :: 0 <= i < |init| ==> init[i] == holes[i];
    }
  }

  /** Segments of a prefix contribute matches that are matches of the whole. */
  lemma {:induction false} HolesOfPrefix(segs: seq<Segment>, j: nat)
    requires j <= |segs|
    ensures forall t :: t in Holes(segs[..j]) ==> t in Holes(segs)
    decreases |segs|
  {
    if j < |segs| {
      HolesOfPrefix(segs[..|segs| - 1], j);
      assert segs[..|segs| - 1][..j] == segs[..j];
    } else {
      assert segs[..j] == segs;
    }
  }

  /** Some match resolves to a value that still needs expansion. */
  predicate SomeUnexpanded(h: Helpers, kvOutputs: map<string, string>, kvParameters: map<string, string>,
                           holes: seq<string>)
  {
    exists i :: 0 <= i < |holes| && ResolveMatch(h, kvOutputs, kvParameters, holes[i]).Unexpanded?
  }

  /** Every match resolves to a value. */
  predicate AllFound(h: Helpers, kvOutputs: map<string, string>, kvParameters: map<string, string>,
                     holes: seq<string>)
  {
    forall i :: 0 <= i < |holes| ==> ResolveMatch(h, kvOutputs, kvParameters, holes[i]).Found?
  }

  /** The replace-all pass after `segs[..j]`: the value so far, the
      matches seen, how many resolved, and none unexpanded. */
  ghost predicate PassState(h: Helpers, kvOutputs: map<string, string>, kvParameters: map<string, string>,
                            segs: seq<Segment>, j: nat, value: string, seen: seq<string>, found: nat)
  {
    && j <= |segs|
    && seen == Holes(segs[..j])
    && value == Render(segs[..j], Substitutor(h, kvOutputs, kvParameters))
    && found == FoundCount(h, kvOutputs, kvParameters, seen)
    && !SomeUnexpanded(h, kvOutputs, kvParameters, seen)
  }

  /** One segment more, unless it is a match that aborts the pass. */
  lemma PassStep(h: Helpers, kvOutputs: map<string, string>, kvParameters: map<string, string>,
                 segs: seq<Segment>, j: nat, value: string, seen: seq<string>, found: nat)
    requires j < |segs| && PassState(h, kvOutputs, kvParameters, segs, j, value, seen, found)
    requires segs[j].Hole? ==> !ResolveMatch(h, kvOutputs, kvParameters, segs[j].text).Unexpanded?
    ensures segs[j].Chr? ==> PassState(h, kvOutputs, kvParameters, segs, j + 1, value + [segs[j].c], seen, found)
    ensures segs[j].Hole? ==>
              var res := ResolveMatch(h, kvOutputs, kvParameters, segs[j].text);
              PassState(h, kvOutputs, kvParameters, segs, j + 1, value + SubstitutionText(res),
                        seen + [segs[j].text], found + (if res.Found? then 1 else 0))
  {
    var f := Substitutor(h, kvOutputs, kvParameters);
    RenderStep(segs, j, f);
    if segs[j].Hole? {
      ResolvedStep(h, kvOutputs, kvParameters, seen, segs[j].text);
    }
  }

  /** One more match that does not abort the pass. */
  lemma ResolvedStep(h: Helpers, kvOutputs: map<string, string>, kvParameters: map<string, string>,
                     seen: seq<string>, t: string)
    requires !SomeUnexpanded(h, kvOutputs, kvParameters, seen)
    requires !ResolveMatch(h, kvOutputs, kvParameters, t).Unexpanded?
    ensures !SomeUnexpanded(h, kvOutputs, kvParameters, seen + [t])
    ensures FoundCount(h, kvOutputs, kvParameters, seen + [t])
            == FoundCount(h, kvOutputs, kvParameters, seen)
               + (if ResolveMatch(h, kvOutputs, kvParameters, t).Found? then 1 else 0)
  {
    assert (seen + [t])[..|seen|] == seen;
    forall i | 0 <= i < |seen + [t]|
      ensures !ResolveMatch(h, kvOutputs, kvParameters, (seen + [t])[i]).Unexpanded?
    {
      if i < |seen| {
        assert (seen + [t])[i] == seen[i];
      }
    }
  }

  /** A match that resolves to an unexpanded value aborts the whole pass. */
  lemma UnexpandedHole(h: Helpers, kvOutputs: map<string, string>, kvParameters: map<string, string>,
                       segs: seq<Segment>, j: nat)
    requires j < |segs| && segs[j].Hole?
    requires ResolveMatch(h, kvOutputs, kvParameters, segs[j].text).Unexpanded?
    ensures SomeUnexpanded(h, kvOutputs, kvParameters, Holes(segs))
  {
    HolesOfPrefix(segs, j + 1);
    RenderStep(segs, j, t => t);
    var hs := Holes(segs);
    assert segs[j].text in hs;
    var k :| 0 <= k < |hs| && hs[k] == segs[j].text;
    assert ResolveMatch(h, kvOutputs, kvParameters, hs[k]).Unexpanded?;
  }

  /** The first match that aborts the pass is the first unexpanded match of
      all the segments. */
  lemma FirstUnexpandedHole(h: Helpers, kvOutputs: map<string, string>, kvParameters: map<string, string>,
                            segs: seq<Segment>, j: nat, seen: seq<string>)
    requires j < |segs| && segs[j].Hole? && seen == Holes(segs[..j])
    requires !SomeUnexpanded(h, kvOutputs, kvParameters, seen)
    requires ResolveMatch(h, kvOutputs, kvParameters, segs[j].text).Unexpanded?
    ensures FirstUnexpanded(h, kvOutputs, kvParameters, Holes(segs)) == |seen|
    ensures Holes(segs)[|seen|] == segs[j].text
  {
    RenderStep(segs, j, t => t);
    HolesPrefix(segs, j + 1);
    var hs := Holes(segs);
    var n := |seen|;
    assert hs[..n + 1] == seen + [segs[j].text];
    assert hs[n] == hs[..n + 1][n];
    forall i | 0 <= i < n
      ensures !ResolveMatch(h, kvOutputs, kvParameters, hs[i]).Unexpanded?
    {
      assert hs[i] == hs[..n + 1][i];
    }
  }

  /** The value a requested output starts from: a name without `:` and with
      no value stands for `${name}`. */
  function RequestedValue(req: RequestedOutput): string
  {
    if ':' !in req.name && req.value == "" && req.name != "" then "${" + req.name + "}" else req.value
  }

  /** The captured-output kind a component-qualified request inherits: the
      first non-empty kind, in visiting order, of an output whose qualified
      name is the requested one. */
  function PropagatedKind(outputs: Outputs, order: seq<string>, name: string, qName: CapturedOutput -> string): string
  {
    if |order| == 0 then ""
    else
      var k := order[0];
      if k in outputs && qName(outputs[k]) == name && outputs[k].kind != "" then outputs[k].kind
      else PropagatedKind(outputs, order[1..], name, qName)
  }

  /** When outputs are stored under their own qualified names the inherited
      kind is that of the output stored under the requested name, whatever
      the visiting order; a captured secret stays a secret. */
  lemma {:induction false} PropagatedKindOfWellKeyed(outputs: Outputs, order: seq<string>, name: string,
                                                     qName: CapturedOutput -> string)
    requires WellKeyed(outputs, qName)
    requires forall k :: k in order ==> k in outputs
    ensures PropagatedKind(outputs, order, name, qName) == (if name in order then outputs[name].kind else "")
    decreases |order|
  {
    if |order| > 0 {
      PropagatedKindOfWellKeyed(outputs, order[1..], name, qName);
      assert name in order <==> name == order[0] || name in order[1..];
    }
  }

  /** The index of the first match, in order, that resolves to a value still
      needing expansion, or -1 when there is none. */
  function FirstUnexpanded(h: Helpers, kvOutputs: map<string, string>, kvParameters: map<string, string>,
                           holes: seq<string>): (k: int)
    ensures -1 <= k < |holes|
    ensures k < 0 <==> !SomeUnexpanded(h, kvOutputs, kvParameters, holes)
    ensures 0 <= k ==> ResolveMatch(h, kvOutputs, kvParameters, holes[k]).Unexpanded?
    ensures forall i :: 0 <= i < |holes| && (k < 0 || i < k) ==> !ResolveMatch(h, kvOutputs, kvParameters, holes[i]).Unexpanded?
  {
    FirstWhere(holes, t => ResolveMatch(h, kvOutputs, kvParameters, t).Unexpanded?)
  }

  /** The fatal error of a stack output whose match resolves to a value that
      still needs expansion: the output, its value, the variable and what
      the variable expands to. */
  function UnexpandedMessage(name: string, value: string, variable: string, substitution: string): string
  {
    "Stack output `" + name + " = " + value + "` refer to substitution `" + variable
    + "` that expands to `" + substitution + "`. This is surely a bug."
  }

  /** The pass aborts at the first unexpanded match, and its error names that
      match's variable and value. */
  function AbortMessage(h: Helpers, kvOutputs: map<string, string>, kvParameters: map<string, string>,
                        req: RequestedOutput, holes: seq<string>): string
    requires SomeUnexpanded(h, kvOutputs, kvParameters, holes)
  {
    var t := holes[FirstUnexpanded(h, kvOutputs, kvParameters, holes)];
    UnexpandedMessage(req.name, RequestedValue(req), h.stripCurly(t).0, ResolveMatch(h, kvOutputs, kvParameters, t).value)
  }

  /** One requested output: kept (`Some`), dropped (`None`), or the run
      aborted (`Err`). */
  function ExpandOne(h: Helpers, kvOutputs: map<string, string>, kvParameters: map<string, string>,
                     outputs: Outputs, order: seq<string>, req: RequestedOutput): (r: Result<Option<ExpandedOutput>>)
  {
    var value := RequestedValue(req);
    if ':' in req.name then
      if req.name in kvOutputs then
        var kind := if req.kind == "" then PropagatedKind(outputs, order, req.name, h.qName) else req.kind;
        Ok(Some(ExpandedOutput(req.name, kvOutputs[req.name], kind, req.brief)))
      else Ok(None)
    else if h.requireExpansion(value) then
      var segs := h.curlyReplacement(value);
      var holes := Holes(segs);
      if SomeUnexpanded(h, kvOutputs, kvParameters, holes) then
        Err(AbortMessage(h, kvOutputs, kvParameters, req, holes))
      else if AllFound(h, kvOutputs, kvParameters, holes) then
        Ok(Some(ExpandedOutput(req.name, Render(segs, Substitutor(h, kvOutputs, kvParameters)), req.kind, req.brief)))
      else Ok(None)
    else
      Ok(Some(ExpandedOutput(req.name, value, req.kind, req.brief)))
  }

  /** What `ExpandOne` does in each of its three modes. */
  lemma ExpandOneCases(h: Helpers, kvOutputs: map<string, string>, kvParameters: map<string, string>,
                       outputs: Outputs, order: seq<string>, req: RequestedOutput)
    // name and brief are copied; a declared kind is kept
    ensures var r := ExpandOne(h, kvOutputs, kvParameters, outputs, order, req);
            r.Ok? && r.value.Some? ==>
              && r.value.value.name == req.name && r.value.value.brief == req.brief
              && (req.kind != "" ==> r.value.value.kind == req.kind)
    // component-qualified: the captured value verbatim, kept iff it exists
    ensures var r := ExpandOne(h, kvOutputs, kvParameters, outputs, order, req);
            ':' in req.name ==>
              && r.Ok? && (r.value.Some? <==> req.name in kvOutputs)
              && (r.value.Some? ==> r.value.value.value == kvOutputs[req.name])
              && (r.value.Some? && req.kind == "" ==> r.value.value.kind == PropagatedKind(outputs, order, req.name, h.qName))
    // literal: passed through
    ensures var r := ExpandOne(h, kvOutputs, kvParameters, outputs, order, req);
            ':' !in req.name && !h.requireExpansion(RequestedValue(req)) ==>
              r == Ok(Some(ExpandedOutput(req.name, RequestedValue(req), req.kind, req.brief)))
    // placeholders: aborts iff a match resolves to an unexpanded value,
    // kept iff every match resolves
    ensures var r := ExpandOne(h, kvOutputs, kvParameters, outputs, order, req);
            ':' !in req.name && h.requireExpansion(RequestedValue(req)) ==>
              var holes := Holes(h.curlyReplacement(RequestedValue(req)));
              && (r.Err? <==> SomeUnexpanded(h, kvOutputs, kvParameters, holes))
              && (r.Err? ==> r.error == AbortMessage(h, kvOutputs, kvParameters, req, holes))
              && (r.Ok? ==> (r.value.Some? <==> AllFound(h, kvOutputs, kvParameters, holes)))
              && (r.Ok? && r.value.Some? ==>
                    r.value.value.value == Render(h.curlyReplacement(RequestedValue(req)), Substitutor(h, kvOutputs, kvParameters)))
  {
  }

  /** A pass over `xs` in order that keeps the `Some` results of `f` and
      stops at the first `Err`. */
  function Collect<A, B>(xs: seq<A>, f: A -> Result<Option<B>>): Result<seq<B>>
    decreases |xs|
  {
    if |xs| == 0 then Ok([])
    else
      match Collect(xs[..|xs| - 1], f)
      case Err(e) => Err(e)
      case Ok(ys) =>
        match f(xs[|xs| - 1])
        case Err(e) => Err(e)
        case Ok(o) => Ok(ys + (if o.Some? then [o.value] else []))
  }

  /** The pass fails exactly when `f` fails on some element. */
  lemma {:induction false} CollectFails<A, B>(xs: seq<A>, f: A -> Result<Option<B>>)
    ensures Collect(xs, f).Err? <==> exists i :: 0 <= i < |xs| && f(xs[i]).Err?
    decreases |xs|
  {
    if |xs| > 0 {
      var n := |xs| - 1;
      var init := xs[..n];
      CollectFails(init, f);
      if Collect(init, f).Err? {
        var i :| 0 <= i < |init| && f(init[i]).Err?;
        assert init[i] == xs[i];
      } else if f(xs[n]).Ok? {
        forall i | 0 <= i < |xs|
          ensures f(xs[i]).Ok?
        {
          if i < n {
            assert init[i] == xs[i];
          }
        }
      }
    }
  }

  /** `Picks(xs, f, ys, picked)`: `ys` are the `Some` results of `f` on `xs`,
      in order, and `picked` gives for each the index it came from. */
  ghost predicate Picks<A, B>(xs: seq<A>, f: A -> Result<Option<B>>, ys: seq<B>, picked: seq<nat>)
  {
    && |picked| == |ys|
    && (forall j :: 0 <= j < |picked| ==> picked[j] < |xs| && f(xs[picked[j]]) == Ok(Some(ys[j])))
    && (forall j, l :: 0 <= j < l < |picked| ==> picked[j] < picked[l])
    && (forall i :: 0 <= i < |xs| && i !in picked ==> f(xs[i]) == Ok(None))
  }

  /** A successful pass keeps exactly the `Some` results, in their order. */
  lemma {:induction false} CollectKeepsOrder<A, B>(xs: seq<A>, f: A -> Result<Option<B>>) returns (picked: seq<nat>)
    requires Collect(xs, f).Ok?
    ensures Picks(xs, f, Collect(xs, f).value, picked)
    decreases |xs|
  {
    if |xs| == 0 {
      picked := [];
    } else {
      var n := |xs| - 1;
      var init := xs[..n];
      var before := CollectKeepsOrder(init, f);
      PicksSnoc(xs, f, Collect(init, f).value, before);
      picked := if f(xs[n]).value.Some? then before + [n] else before;
    }
  }

  /** The step of `CollectKeepsOrder`: one element more at the end. */
  lemma PicksSnoc<A, B>(xs: seq<A>, f: A -> Result<Option<B>>, ys: seq<B>, before: seq<nat>)
    requires |xs| > 0 && f(xs[|xs| - 1]).Ok?
    requires Picks(xs[..|xs| - 1], f, ys, before)
    ensures var o := f(xs[|xs| - 1]).value;
            Picks(xs, f, ys + (if o.Some? then [o.value] else []), if o.Some? then before + [|xs| - 1] else before)
  {
    var n := |xs| - 1;
    var init := xs[..n];
    var o := f(xs[n]).value;
    var ys' := ys + (if o.Some? then [o.value] else []);
    var picked := if o.Some? then before + [n] else before;
    forall j | 0 <= j < |picked|
      ensures picked[j] < |xs| && f(xs[picked[j]]) == Ok(Some(ys'[j]))
    {
      if j < |before| {
        assert picked[j] == before[j] && xs[before[j]] == init[before[j]] && ys'[j] == ys[j];
      }
    }
    forall i | 0 <= i < |xs| && i !in picked
      ensures f(xs[i]) == Ok(None)
    {
      if i < n {
        assert i !in before && xs[i] == init[i];
      }
    }
  }

  /** One element more, when neither the earlier ones nor it fail. */
  lemma CollectStep<A, B>(xs: seq<A>, n: nat, f: A -> Result<Option<B>>)
    requires n < |xs|
    requires Collect(xs[..n], f).Ok?
    requires f(xs[n]).Ok?
    ensures var o := f(xs[n]).value;
            Collect(xs[..n + 1], f) == Ok(Collect(xs[..n], f).value + (if o.Some? then [o.value] else []))
  {
    assert xs[..n + 1][..n] == xs[..n];
  }

  /** Once the pass fails, the later elements do not matter. */
  lemma {:induction false} CollectStops<A, B>(xs: seq<A>, n: nat, f: A -> Result<Option<B>>)
    requires n < |xs|
    requires Collect(xs[..n + 1], f).Err?
    ensures Collect(xs, f) == Collect(xs[..n + 1], f)
    decreases |xs|
  {
    if n + 1 == |xs| {
      assert xs[..n + 1] == xs;
    } else {
      assert xs[..|xs| - 1][..n + 1] == xs[..n + 1];
      CollectStops(xs[..|xs| - 1], n, f);
    }
  }

  /** `ExpandOne` with everything but the request fixed. */
  function Expander(h: Helpers, kvOutputs: map<string, string>, kvParameters: map<string, string>,
                    outputs: Outputs, order: seq<string>): RequestedOutput -> Result<Option<ExpandedOutput>>
  {
    req => ExpandOne(h, kvOutputs, kvParameters, outputs, order, req)
  }

  /** All requested outputs, in order; the first abort stops the run. */
  function ExpandAll(h: Helpers, kvOutputs: map<string, string>, kvParameters: map<string, string>,
                     outputs: Outputs, order: seq<string>, reqs: seq<RequestedOutput>): Result<seq<ExpandedOutput>>
  {
    Collect(reqs, Expander(h, kvOutputs, kvParameters, outputs, order))
  }

  /** The run aborts exactly when one requested output does. */
  lemma ExpandAllFails(h: Helpers, kvOutputs: map<string, string>, kvParameters: map<string, string>,
                       outputs: Outputs, order: seq<string>, reqs: seq<RequestedOutput>)
    ensures ExpandAll(h, kvOutputs, kvParameters, outputs, order, reqs).Err?
            <==> exists i :: 0 <= i < |reqs| && ExpandOne(h, kvOutputs, kvParameters, outputs, order, reqs[i]).Err?
  {
    CollectFails(reqs, Expander(h, kvOutputs, kvParameters, outputs, order));
  }

  /** The expanded outputs are the kept requested outputs, in their order:
      `picked` gives, for each, the index of the request it came from. */
  lemma ExpandAllKeepsOrder(h: Helpers, kvOutputs: map<string, string>, kvParameters: map<string, string>,
                            outputs: Outputs, order: seq<string>, reqs: seq<RequestedOutput>)
    returns (picked: seq<nat>)
    requires ExpandAll(h, kvOutputs, kvParameters, outputs, order, reqs).Ok?
    ensures var xs := ExpandAll(h, kvOutputs, kvParameters, outputs, order, reqs).value;
            && |picked| == |xs|
            && (forall j :: 0 <= j < |picked| ==>
                  picked[j] < |reqs| && ExpandOne(h, kvOutputs, kvParameters, outputs, order, reqs[picked[j]]) == Ok(Some(xs[j])))
            && (forall j, l :: 0 <= j < l < |picked| ==> picked[j] < picked[l])
            && (forall i :: 0 <= i < |reqs| && i !in picked ==>
                  ExpandOne(h, kvOutputs, kvParameters, outputs, order, reqs[i]) == Ok(None))
  {
    picked := CollectKeepsOrder(reqs, Expander(h, kvOutputs, kvParameters, outputs, order));
  }

  /** The kind-propagation loop: the first non-empty kind of a captured
      output named `name`, visiting the keys in `order`. */
  method InheritKind(outputs: Outputs, order: seq<string>, name: string, qName: CapturedOutput -> string)
    returns (kind: string)
    requires forall k :: k in order ==> k in outputs
    ensures kind == PropagatedKind(outputs, order, name, qName)
  {
    kind := "";
    var i := 0;
    while i < |order|
      invariant 0 <= i <= |order|
      invariant PropagatedKind(outputs, order, name, qName) == PropagatedKind(outputs, order[i..], name, qName)
    {
      var o := outputs[order[i]];
      if qName(o) == name && o.kind != "" {
        kind := o.kind;
        return;
      }
      assert order[i..][1..] == order[i + 1..];
      i := i + 1;
    }
  }

  /** The replace-all pass over a requested output's value: the new value and
      whether every match resolved, or the abort on an unexpanded value. */
  method SubstitutePlaceholders(h: Helpers, kvOutputs: map<string, string>, kvParameters: map<string, string>,
                                segs: seq<Segment>, req: RequestedOutput)
    returns (r: Result<(string, bool)>)
    ensures r.Err? <==> SomeUnexpanded(h, kvOutputs, kvParameters, Holes(segs))
    ensures r.Err? ==> r.error == AbortMessage(h, kvOutputs, kvParameters, req, Holes(segs))
    ensures r.Ok? ==> r.value == (Render(segs, Substitutor(h, kvOutputs, kvParameters)),
                                  AllFound(h, kvOutputs, kvParameters, Holes(segs)))
  {
    ghost var seen: seq<string> := [];
    var value: string := "";
    var invoked := 0;
    var found := 0;
    var j := 0;
    while j < |segs|
      invariant 0 <= j <= |segs|
      invariant PassState(h, kvOutputs, kvParameters, segs, j, value, seen, found)
      invariant invoked == |seen|
    {
      var seg := segs[j];
      if seg.Chr? {
        PassStep(h, kvOutputs, kvParameters, segs, j, value, seen, found);
        value := value + [seg.c];
      } else {
        var t := seg.text;
        var resolution := ResolveMatch(h, kvOutputs, kvParameters, t);
        if resolution.Unexpanded? {
          FirstUnexpandedHole(h, kvOutputs, kvParameters, segs, j, seen);
          r := Err(UnexpandedMessage(req.name, RequestedValue(req), h.stripCurly(t).0, resolution.value));
          return;
        }
        PassStep(h, kvOutputs, kvParameters, segs, j, value, seen, found);
        seen := seen + [t];
        invoked := invoked + 1;
        if resolution.Found? {
          found := found + 1;
        }
        value := value + SubstitutionText(resolution);
      }
      j := j + 1;
    }
    assert segs[..j] == segs;
    FoundCountAll(h, kvOutputs, kvParameters, seen);
    r := Ok((value, invoked == found));
  }

  /** `ExpandRequestedOutputs`: the requested outputs resolved against the
      locked parameters and the captured outputs (`order` is the order in
      which a `range` over `outputs` visits its keys). `mustExist` only
      selects warnings. */
  method ExpandRequestedOutputs(h: Helpers, parameters: seq<LockedParameter>, outputs: Outputs, order: seq<string>,
                                requested: seq<RequestedOutput>, mustExist: bool)
    returns (r: Result<seq<ExpandedOutput>>)
    requires Enumerates(order, outputs)
    ensures r == ExpandAll(h, h.outputsKV(outputs), h.parametersKV(parameters), outputs, order, requested)
  {
    var kvParameters := h.parametersKV(parameters);
    var kvOutputs := h.outputsKV(outputs);
    var expanded: seq<ExpandedOutput> := [];
    var n := 0;
    while n < |requested|
      invariant 0 <= n <= |requested|
      invariant ExpandAll(h, kvOutputs, kvParameters, outputs, order, requested[..n]) == Ok(expanded)
    {
      var req := requested[n];
      assert requested[..n + 1][..n] == requested[..n];
      var value: string := "";
      var kind := req.kind;
      var valueExist := false;
      var requestedValue := req.value;
      if ':' !in req.name && requestedValue == "" && req.name != "" {
        requestedValue := "${" + req.name + "}";
      }
      if ':' in req.name {
        valueExist := req.name in kvOutputs;
        if valueExist {
          value := kvOutputs[req.name];
          if kind == "" {
            kind := InheritKind(outputs, order, req.name, h.qName);
          }
        }
      } else if h.requireExpansion(requestedValue) {
        var substituted := SubstitutePlaceholders(h, kvOutputs, kvParameters, h.curlyReplacement(requestedValue), req);
        if substituted.Err? {
          r := Err(substituted.error);
          CollectStops(requested, n, Expander(h, kvOutputs, kvParameters, outputs, order));
          return;
        }
        value, valueExist := substituted.value.0, substituted.value.1;
      } else {
        value := requestedValue;
        valueExist := true;
      }
      assert ExpandOne(h, kvOutputs, kvParameters, outputs, order, req)
          == Ok(if valueExist then Some(ExpandedOutput(req.name, value, kind, req.brief)) else None);
      CollectStep(requested, n, Expander(h, kvOutputs, kvParameters, outputs, order));
      assert expanded + [] == expanded;
      if valueExist {
        expanded := expanded + [ExpandedOutput(req.name, value, kind, req.brief)];
      }
      n := n + 1;
    }
    assert requested[..n] == requested;
    r := Ok(expanded);
  }
}
