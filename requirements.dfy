/** Requirement resolution (`lifecycle/requirement.go`): matching a
    component's `requires` against the provides map, the stack-level checks
    of the deployment environment with their process-wide memo, the
    optional-requirement tuning and the falsy optional parameters. */
module Requirements {
  import opened Wrappers
  import opened Util
  import Strings
  import Parameters

  /** The provider recorded for requirements the environment satisfies. */
  const ProvidedByEnv: string := "*environment*"
  /** The component name that makes an optional requirement optional for all. */
  const Wildcard: string := "*"

  /** Terms `checkRequire` knows how to verify. */
  const CheckedTerms: set<string> := {"azure", "aws", "gcp", "gcs", "kubectl", "kubernetes", "helm", "vault"}
  /** Requirements whose setup goes to the Kubernetes package. */
  const KubernetesSetups: set<string> := {"kubectl", "kubernetes"}
  /** Requirements whose setup is a `checkRequire`. */
  const CheckedSetups: set<string> := {"aws", "azure", "gcp", "gcs", "tiller", "helm", "vault", "ingress", "tls-ingress"}

  /** Capability to provider list. */
  type Provides = map<string, seq<string>>

  // ------------------------------------------------- the checkRequire memo

  /** The memo's contents: the terms verified, and the checks run so far in
      order. */
  datatype Memo = Memo(verified: set<string>, checksRun: seq<string>)

  /** What one `checkRequire` does to the memo: a memoised or unknown term
      changes nothing; a known one is checked, and memoised if it passes. */
  function MemoStep(checker: string -> bool, m: Memo, t: string): Memo
  {
    if t in m.verified || t !in CheckedTerms then m
    else Memo(if checker(t) then m.verified + {t} else m.verified, m.checksRun + [t])
  }

  /** The memo after `checkRequire` of each term, in order. */
  function MemoAfter(checker: string -> bool, m: Memo, ts: seq<string>): Memo
  {
    if |ts| == 0 then m else MemoStep(checker, MemoAfter(checker, m, ts[..|ts| - 1]), ts[|ts| - 1])
  }

  lemma MemoAfterSnoc(checker: string -> bool, m: Memo, ts: seq<string>, t: string)
    ensures MemoAfter(checker, m, ts + [t]) == MemoStep(checker, MemoAfter(checker, m, ts), t)
  {
    assert (ts + [t])[..|ts|] == ts;
  }

  /** A term whose check, if it has one, passes. */
  predicate Passes(checker: string -> bool, t: string)
  {
    t in CheckedTerms ==> checker(t)
  }

  /** `r` is the memo after checking `ts` from `m`, each external check
      running at most once: the checks appended to `m.checksRun` are the
      known terms of `ts` not verified before, each once; the terms that
      passed are memoised. */
  ghost predicate ChecksOnce(checker: string -> bool, m: Memo, ts: seq<string>, r: Memo)
  {
    && |m.checksRun| <= |r.checksRun| && r.checksRun[..|m.checksRun|] == m.checksRun
    && NoDuplicates(r.checksRun[|m.checksRun|..])
    && (forall t :: t in r.checksRun[|m.checksRun|..] <==> t in ts && t in CheckedTerms && t !in m.verified)
    && r.verified == m.verified + (set t | t in ts && t in CheckedTerms && checker(t))
  }

  /** Checking terms of which only the last may fail runs every check at most
      once. */
  lemma {:induction false} MemoAfterOnce(checker: string -> bool, m: Memo, ts: seq<string>)
    requires forall i :: 0 <= i < |ts| - 1 ==> Passes(checker, ts[i])
    ensures ChecksOnce(checker, m, ts, MemoAfter(checker, m, ts))
    decreases |ts|
  {
    if |ts| == 0 {
      assert m.checksRun[|m.checksRun|..] == [];
      assert (set t | t in ts && t in CheckedTerms && checker(t)) == {};
    } else {
      var n := |ts| - 1;
      var init, t := ts[..n], ts[n];
      forall i | 0 <= i < |init| - 1
        ensures Passes(checker, init[i])
      {
        assert init[i] == ts[i];
      }
      MemoAfterOnce(checker, m, init);
      forall x | x in init
        ensures Passes(checker, x)
      {
        var i :| 0 <= i < |init| && init[i] == x;
        assert ts[i] == x;
      }
      assert ts == init + [t];
      MemoAfterSnoc(checker, m, init, t);
      ChecksOnceStep(checker, m, init, MemoAfter(checker, m, init), t);
    }
  }

  /** One more term, after terms that all pass. */
  lemma ChecksOnceStep(checker: string -> bool, m: Memo, init: seq<string>, p: Memo, t: string)
    requires ChecksOnce(checker, m, init, p)
    requires forall x :: x in init ==> Passes(checker, x)
    ensures ChecksOnce(checker, m, init + [t], MemoStep(checker, p, t))
  {
    if t in p.verified || t !in CheckedTerms {
      ChecksOnceKept(checker, m, init, p, t);
    } else {
      ChecksOnceChecked(checker, m, init, p, t);
    }
  }

  /** A term memoised or unknown: nothing is checked. */
  lemma ChecksOnceKept(checker: string -> bool, m: Memo, init: seq<string>, p: Memo, t: string)
    requires ChecksOnce(checker, m, init, p)
    requires t in p.verified || t !in CheckedTerms
    ensures ChecksOnce(checker, m, init + [t], p)
  {
    var ts := init + [t];
    var added := p.checksRun[|m.checksRun|..];
    forall x
      ensures x in added <==> x in ts && x in CheckedTerms && x !in m.verified
    {
      assert x in ts <==> x in init || x == t;
    }
    var before := set x | x in init && x in CheckedTerms && checker(x);
    var after := set x | x in ts && x in CheckedTerms && checker(x);
    forall x
      ensures x in m.verified + after <==> x in m.verified + before
    {
      assert x in ts <==> x in init || x == t;
    }
    assert m.verified + after == m.verified + before;
  }

  /** A known term not memoised yet, after terms that all pass: it is checked
      for the first time. */
  lemma ChecksOnceChecked(checker: string -> bool, m: Memo, init: seq<string>, p: Memo, t: string)
    requires ChecksOnce(checker, m, init, p)
    requires forall x :: x in init ==> Passes(checker, x)
    requires t !in p.verified && t in CheckedTerms
    ensures ChecksOnce(checker, m, init + [t],
                       Memo(if checker(t) then p.verified + {t} else p.verified, p.checksRun + [t]))
  {
    var k := |m.checksRun|;
    var added := p.checksRun[k..];
    assert t !in init;
    assert (p.checksRun + [t])[k..] == added + [t] && (p.checksRun + [t])[..k] == m.checksRun;
    DistinctSnoc(added, t);
    AddedSnoc(added, m.verified, init, t);
    VerifiedSnoc(checker, m.verified, p.verified, init, t);
  }

  lemma DistinctSnoc(s: seq<string>, t: string)
    requires NoDuplicates(s) && t !in s
    ensures NoDuplicates(s + [t])
  {
  }

  lemma AddedSnoc(added: seq<string>, verified: set<string>, init: seq<string>, t: string)
    requires forall x :: x in added <==> x in init && x in CheckedTerms && x !in verified
    requires t in CheckedTerms && t !in verified
    ensures forall x :: x in added + [t] <==> x in init + [t] && x in CheckedTerms && x !in verified
  {
    forall x
      ensures x in added + [t] <==> x in init + [t] && x in CheckedTerms && x !in verified
    {
      assert x in init + [t] <==> x in init || x == t;
    }
  }

  lemma VerifiedSnoc(checker: string -> bool, verified: set<string>, pv: set<string>, init: seq<string>, t: string)
    requires pv == verified + (set x | x in init && x in CheckedTerms && checker(x))
    requires t in CheckedTerms
    ensures (if checker(t) then pv + {t} else pv)
            == verified + (set x | x in init + [t] && x in CheckedTerms && checker(x))
  {
    var before := set x | x in init && x in CheckedTerms && checker(x);
    var after := set x | x in init + [t] && x in CheckedTerms && checker(x);
    forall x
      ensures x in after <==> x in before || (x == t && checker(t))
    {
      assert x in init + [t] <==> x in init || x == t;
    }
    assert after == before + (if checker(t) then {t} else {});
  }

  /** The `requirementsVerified` memo. `checker` is the verdict of the
      external checks of a known term (binaries present, credentials set),
      which this model takes as given; `checksRun` records, in order, the
      terms for which those checks were executed. */
  class RequirementsMemo {
    const checker: string -> bool
    var verified: set<string>
    var checksRun: seq<string>

    /** Only known terms that passed their check are memoised. */
    predicate Valid()
      reads this
    {
      && verified <= CheckedTerms
      && (forall t :: t in verified ==> checker(t))
    }

    /** The memo's contents. */
    function State(): Memo
      reads this
    {
      Memo(verified, checksRun)
    }

    constructor (checker: string -> bool)
      ensures this.checker == checker && verified == {} && checksRun == []
      ensures Valid()
    {
      this.checker := checker;
      verified := {};
      checksRun := [];
    }

    /** `checkRequire`: whether the term is known, and whether its check
        failed. A memoised term is not checked again; a term is memoised only
        after it passed; an unknown term is neither checked nor memoised. */
    method CheckRequire(require: string) returns (wellKnown: bool, failed: bool)
      requires Valid()
      modifies this
      ensures Valid()
      ensures wellKnown <==> require in CheckedTerms
      ensures failed <==> require in CheckedTerms && !checker(require)
      ensures require in old(verified) || require !in CheckedTerms ==>
                verified == old(verified) && checksRun == old(checksRun)
      ensures require !in old(verified) && require in CheckedTerms ==>
                && checksRun == old(checksRun) + [require]
                && verified == (if checker(require) then old(verified) + {require} else old(verified))
      ensures State() == MemoStep(checker, old(State()), require)
    {
      if require in verified {
        return true, false;
      }
      if require !in CheckedTerms {
        return false, false;
      }
      checksRun := checksRun + [require];
      if !checker(require) {
        return true, true;
      }
      verified := verified + {require};
      return true, false;
    }

    /** `checkStackRequires`. */
    method CheckStackRequires(terms: seq<string>, maybeOptional: Provides) returns (r: Result<Provides>)
      requires Valid()
      modifies this
      ensures Valid() && old(verified) <= verified
      ensures r == StackRequires(checker, terms, maybeOptional)
      ensures State() == MemoAfter(checker, old(State()), StackVisited(checker, terms, maybeOptional))
    {
      var provided: Provides := map[];
      var i := 0;
      while i < |terms|
        invariant 0 <= i <= |terms|
        invariant Valid() && old(verified) <= verified
        invariant StackRequires(checker, terms[..i], maybeOptional) == Ok(provided)
        invariant forall k :: 0 <= k < i ==> !StackFatal(checker, maybeOptional, terms[k])
        invariant State() == MemoAfter(checker, old(State()), terms[..i])
      {
        var require := terms[i];
        assert terms[..i + 1][..i] == terms[..i];
        var skip := false;
        var wellKnown, failed := CheckRequire(require);
        if wellKnown {
          if failed {
            r := Err(CannotSatisfy(require));
            StackRequiresStops(checker, terms, maybeOptional, i);
            StackVisitedStops(checker, terms, maybeOptional, i);
            return;
          }
        } else {
          if require !in maybeOptional {
            r := Err(NoImplementation(require));
            StackRequiresStops(checker, terms, maybeOptional, i);
            StackVisitedStops(checker, terms, maybeOptional, i);
            return;
          }
          skip := true;
        }
        if !skip {
          provided := provided[require := [ProvidedByEnv]];
        }
        i := i + 1;
      }
      assert terms[..i] == terms;
      StackVisitedAll(checker, terms, maybeOptional);
      r := Ok(provided);
    }

    /** `prepareComponentRequires`: the unmet optional requirements, the
        error when a requirement is neither provided nor optional, and the
        setups that ran (`fatal` when the last of them failed its check and
        ended the process). */
    method PrepareComponentRequires(provided: Provides, componentName: string, terms: seq<string>,
                                    maybeOptional: Provides)
      returns (optionalNotProvided: seq<string>, err: Option<string>, performed: seq<Setup>, fatal: bool)
      requires Valid()
      modifies this
      ensures Valid() && old(verified) <= verified
      ensures var res := Resolve(provided, componentName, terms, maybeOptional);
              && optionalNotProvided == res.unmet
              && err == (if res.failure.Some? then Some(NotProvided(componentName, terms)) else None)
              && (if res.failure.None? && res.unmet == [] then (performed, fatal) == SetupRun(checker, res.setups)
                  else performed == [] && !fatal)
      ensures State() == MemoAfter(checker, old(State()), SetupTerms(performed))
      // when no setup runs, the memo is unchanged
      ensures performed == [] ==> verified == old(verified) && checksRun == old(checksRun)
    {
      var setups: seq<Setup> := [];
      optionalNotProvided := [];
      performed, fatal := [], false;
      var i := 0;
      while i < |terms|
        invariant 0 <= i <= |terms|
        invariant Resolve(provided, componentName, terms[..i], maybeOptional)
                  == Resolution(setups, optionalNotProvided, None)
        invariant State() == old(State())
      {
        var req := terms[i];
        assert terms[..i + 1][..i] == terms[..i];
        if req !in provided || |provided[req]| == 0 {
          if IsOptionalFor(maybeOptional, req, componentName) {
            optionalNotProvided := optionalNotProvided + [req];
            i := i + 1;
            continue;
          }
          err := Some(NotProvided(componentName, terms));
          ResolveStops(provided, componentName, terms, maybeOptional, i);
          return;
        }
        var who := provided[req];
        var provider := who[|who| - 1];
        setups := setups + [Setup(req, provider)];
        i := i + 1;
      }
      assert terms[..i] == terms;
      err := None;
      if |optionalNotProvided| == 0 {
        performed, fatal := RunSetups(setups);
      }
    }

    /** The setup loop: each setup in order until one fails fatally. */
    method RunSetups(setups: seq<Setup>) returns (performed: seq<Setup>, fatal: bool)
      requires Valid()
      modifies this
      ensures Valid() && old(verified) <= verified
      ensures (performed, fatal) == SetupRun(checker, setups)
      ensures State() == MemoAfter(checker, old(State()), SetupTerms(performed))
    {
      performed := [];
      var j := 0;
      while j < |setups|
        invariant 0 <= j <= |setups|
        invariant Valid() && old(verified) <= verified
        invariant performed == setups[..j]
        invariant forall i :: 0 <= i < j ==> !SetupFails(checker, setups[i])
        invariant State() == MemoAfter(checker, old(State()), SetupTerms(performed))
      {
        var setup := setups[j];
        ghost var terms := SetupTerms(performed);
        performed := performed + [setup];
        assert performed == setups[..j + 1];
        assert performed[..j] == setups[..j];
        assert SetupTerms(performed) == terms + (if setup.requirement in CheckedSetups then [setup.requirement] else []);
        if setup.requirement in CheckedSetups {
          MemoAfterSnoc(checker, old(State()), terms, setup.requirement);
          var wellKnown, failed := CheckRequire(setup.requirement);
          if wellKnown && failed {
            SetupRunStops(checker, setups, j);
            fatal := true;
            return;
          }
        } else {
          assert SetupTerms(performed) == terms;
        }
        j := j + 1;
      }
      assert setups[..j] == setups;
      fatal := false;
    }
  }

  /** The run ends at the first setup that fails. */
  lemma SetupRunStops(checker: string -> bool, setups: seq<Setup>, j: nat)
    requires j < |setups| && SetupFails(checker, setups[j])
    requires forall i :: 0 <= i < j ==> !SetupFails(checker, setups[i])
    ensures SetupRun(checker, setups) == (setups[..j + 1], true)
  {
  }

  function CannotSatisfy(require: string): string
  {
    "`" + require + "` requirement cannot be satisfied"
  }

  function NoImplementation(require: string): string
  {
    "Cannot check for `requires: " + require + "`: no implementation"
  }

  // --------------------------------------------------- stack requirements

  /** A stack-level requirement that ends the process: a known term that
      fails its check, or an unknown term that is not optional. */
  predicate StackFatal(checker: string -> bool, maybeOptional: Provides, require: string)
  {
    if require in CheckedTerms then !checker(require) else require !in maybeOptional
  }

  /** What `checkStackRequires` returns after visiting `requires`. */
  function StackRequires(checker: string -> bool, terms: seq<string>, maybeOptional: Provides): Result<Provides>
  {
    if |terms| == 0 then Ok(map[])
    else
      match StackRequires(checker, terms[..|terms| - 1], maybeOptional)
      case Err(e) => Err(e)
      case Ok(provided) =>
        var require := terms[|terms| - 1];
        if require in CheckedTerms then
          if !checker(require) then Err(CannotSatisfy(require)) else Ok(provided[require := [ProvidedByEnv]])
        else if require !in maybeOptional then Err(NoImplementation(require))
        else Ok(provided)
  }

  lemma StackRequiresStops(checker: string -> bool, terms: seq<string>, maybeOptional: Provides, i: nat)
    requires i < |terms|
    requires StackRequires(checker, terms[..i], maybeOptional).Ok?
    requires StackFatal(checker, maybeOptional, terms[i])
    ensures StackRequires(checker, terms, maybeOptional)
            == Err(if terms[i] in CheckedTerms then CannotSatisfy(terms[i]) else NoImplementation(terms[i]))
    decreases |terms|
  {
    assert terms[..i + 1][..i] == terms[..i];
    if i + 1 == |terms| {
      assert terms[..i + 1] == terms;
    } else {
      assert terms[..|terms| - 1][..i] == terms[..i];
      StackRequiresStops(checker, terms[..|terms| - 1], maybeOptional, i);
    }
  }

  /** Index of the first fatal term, or -1. */
  function FirstFatal(checker: string -> bool, maybeOptional: Provides, terms: seq<string>): (k: int)
    ensures -1 <= k < |terms|
    ensures 0 <= k ==> StackFatal(checker, maybeOptional, terms[k])
    ensures forall i :: 0 <= i < |terms| && (k < 0 || i < k) ==> !StackFatal(checker, maybeOptional, terms[i])
  {
    FirstWhere(terms, t => StackFatal(checker, maybeOptional, t))
  }

  /** The terms `checkStackRequires` visits before it returns or ends the
      process: all of them, or those up to the first fatal one. */
  function StackVisited(checker: string -> bool, terms: seq<string>, maybeOptional: Provides): seq<string>
  {
    var k := FirstFatal(checker, maybeOptional, terms);
    if k < 0 then terms else terms[..k + 1]
  }

  lemma StackVisitedStops(checker: string -> bool, terms: seq<string>, maybeOptional: Provides, i: nat)
    requires i < |terms| && StackFatal(checker, maybeOptional, terms[i])
    requires forall k :: 0 <= k < i ==> !StackFatal(checker, maybeOptional, terms[k])
    ensures StackVisited(checker, terms, maybeOptional) == terms[..i + 1]
  {
    var k := FirstFatal(checker, maybeOptional, terms);
    assert k == i;
  }

  lemma StackVisitedAll(checker: string -> bool, terms: seq<string>, maybeOptional: Provides)
    requires forall k :: 0 <= k < |terms| ==> !StackFatal(checker, maybeOptional, terms[k])
    ensures StackVisited(checker, terms, maybeOptional) == terms
  {
  }

  /** The stack check runs each external check at most once, and never for
      a term memoised before it. */
  lemma StackChecksOnce(checker: string -> bool, m: Memo, terms: seq<string>, maybeOptional: Provides)
    ensures var ts := StackVisited(checker, terms, maybeOptional);
            ChecksOnce(checker, m, ts, MemoAfter(checker, m, ts))
  {
    var ts := StackVisited(checker, terms, maybeOptional);
    forall i | 0 <= i < |ts| - 1
      ensures Passes(checker, ts[i])
    {
      assert ts[i] == terms[i];
      assert !StackFatal(checker, maybeOptional, terms[i]);
    }
    MemoAfterOnce(checker, m, ts);
  }

  /** The stack check fails exactly when some term is fatal; otherwise every
      known term is provided by the environment and the only terms left out
      are the unknown optional ones. */
  lemma {:induction false} StackRequiresAt(checker: string -> bool, terms: seq<string>, maybeOptional: Provides)
    ensures var r := StackRequires(checker, terms, maybeOptional);
            && (r.Err? <==> exists i :: 0 <= i < |terms| && StackFatal(checker, maybeOptional, terms[i]))
            && (r.Ok? ==> forall k ::
                  && (k in r.value <==> k in terms && k in CheckedTerms)
                  && (k in r.value ==> r.value[k] == [ProvidedByEnv])
                  && (k in terms && k !in r.value ==> k !in CheckedTerms && k in maybeOptional))
    decreases |terms|
  {
    if |terms| > 0 {
      var n := |terms| - 1;
      var init, req := terms[..n], terms[n];
      StackRequiresAt(checker, init, maybeOptional);
      var prev := StackRequires(checker, init, maybeOptional);
      if prev.Err? {
        var i :| 0 <= i < |init| && StackFatal(checker, maybeOptional, init[i]);
        assert init[i] == terms[i];
      } else if !StackFatal(checker, maybeOptional, req) {
        forall i | 0 <= i < |terms|
          ensures !StackFatal(checker, maybeOptional, terms[i])
        {
          if i < n {
            assert terms[i] == init[i];
          }
        }
        StackRequiresKeys(checker, terms, maybeOptional);
      }
    }
  }

  /** The keys after one more term that is not fatal. */
  lemma StackRequiresKeys(checker: string -> bool, terms: seq<string>, maybeOptional: Provides)
    requires |terms| > 0
    requires var prev := StackRequires(checker, terms[..|terms| - 1], maybeOptional);
             && prev.Ok?
             && forall k ::
                  && (k in prev.value <==> k in terms[..|terms| - 1] && k in CheckedTerms)
                  && (k in prev.value ==> prev.value[k] == [ProvidedByEnv])
                  && (k in terms[..|terms| - 1] && k !in prev.value ==> k !in CheckedTerms && k in maybeOptional)
    requires !StackFatal(checker, maybeOptional, terms[|terms| - 1])
    ensures var r := StackRequires(checker, terms, maybeOptional);
            && r.Ok?
            && forall k ::
                 && (k in r.value <==> k in terms && k in CheckedTerms)
                 && (k in r.value ==> r.value[k] == [ProvidedByEnv])
                 && (k in terms && k !in r.value ==> k !in CheckedTerms && k in maybeOptional)
  {
    var init, req := terms[..|terms| - 1], terms[|terms| - 1];
    var prev := StackRequires(checker, init, maybeOptional).value;
    var r := StackRequires(checker, terms, maybeOptional);
    assert r.value == if req in CheckedTerms then prev[req := [ProvidedByEnv]] else prev;
    assert terms == init + [req];
    forall k
      ensures && (k in r.value <==> k in terms && k in CheckedTerms)
              && (k in r.value ==> r.value[k] == [ProvidedByEnv])
              && (k in terms && k !in r.value ==> k !in CheckedTerms && k in maybeOptional)
    {
      assert k in terms <==> k in init || k == req;
    }
  }

  // ------------------------------------------------ component requirements

  /** A requirement and the component chosen to provide it. */
  datatype Setup = Setup(requirement: string, provider: string)

  /** The first loop of `prepareComponentRequires`: the setups to run, the
      optional requirements nobody provides, and the requirement that is
      neither provided nor optional, if any. */
  datatype Resolution = Resolution(setups: seq<Setup>, unmet: seq<string>, failure: Option<string>)

  /** Nobody provides the requirement (no entry, or an empty list). */
  predicate Unprovided(provided: Provides, req: string)
  {
    req !in provided || |provided[req]| == 0
  }

  /** The requirement is optional for the component, by name or for all. */
  predicate IsOptionalFor(maybeOptional: Provides, req: string, componentName: string)
  {
    req in maybeOptional && (componentName in maybeOptional[req] || Wildcard in maybeOptional[req])
  }

  /** The error of an unmet requirement; it names the component and all its
      requirements. */
  function NotProvided(componentName: string, terms: seq<string>): string
  {
    "Component `" + componentName + "` requires `" + Strings.Join(terms, ", ")
    + "` but only following provides are currently known:\n"
  }

  /** The resolution after visiting `requires`; the first requirement that
      is neither provided nor optional stops it. */
  function Resolve(provided: Provides, componentName: string, terms: seq<string>, maybeOptional: Provides): Resolution
  {
    if |terms| == 0 then Resolution([], [], None)
    else
      var prev := Resolve(provided, componentName, terms[..|terms| - 1], maybeOptional);
      var req := terms[|terms| - 1];
      if prev.failure.Some? then prev
      else if Unprovided(provided, req) then
        if IsOptionalFor(maybeOptional, req, componentName) then prev.(unmet := prev.unmet + [req])
        else prev.(failure := Some(req))
      else
        var who := provided[req];
        prev.(setups := prev.setups + [Setup(req, who[|who| - 1])])
  }

  lemma ResolveStops(provided: Provides, componentName: string, terms: seq<string>, maybeOptional: Provides, i: nat)
    requires i < |terms|
    requires Resolve(provided, componentName, terms[..i], maybeOptional).failure.None?
    requires Unprovided(provided, terms[i]) && !IsOptionalFor(maybeOptional, terms[i], componentName)
    ensures var r := Resolve(provided, componentName, terms, maybeOptional);
            && r.failure == Some(terms[i])
            && r.unmet == Resolve(provided, componentName, terms[..i], maybeOptional).unmet
    decreases |terms|
  {
    assert terms[..i + 1][..i] == terms[..i];
    if i + 1 == |terms| {
      assert terms[..i + 1] == terms;
    } else {
      assert terms[..|terms| - 1][..i] == terms[..i];
      ResolveStops(provided, componentName, terms[..|terms| - 1], maybeOptional, i);
    }
  }

  /** The requirements somebody provides, in order. */
  function ProvidedIn(provided: Provides, terms: seq<string>): (r: seq<string>)
    ensures forall x :: x in r <==> x in terms && !Unprovided(provided, x)
  {
    if |terms| == 0 then []
    else
      var init := terms[..|terms| - 1];
      var req := terms[|terms| - 1];
      assert forall x :: x in terms <==> x in init || x == req;
      ProvidedIn(provided, init) + (if Unprovided(provided, req) then [] else [req])
  }

  /** The requirements nobody provides, in order. */
  function UnprovidedIn(provided: Provides, terms: seq<string>): (r: seq<string>)
    ensures forall x :: x in r <==> x in terms && Unprovided(provided, x)
  {
    if |terms| == 0 then []
    else
      var init := terms[..|terms| - 1];
      var req := terms[|terms| - 1];
      assert forall x :: x in terms <==> x in init || x == req;
      UnprovidedIn(provided, init) + (if Unprovided(provided, req) then [req] else [])
  }

  /** A component's requirements resolve unless one is neither provided nor
      optional for it. */
  lemma {:induction false} ResolveFails(provided: Provides, componentName: string, terms: seq<string>, maybeOptional: Provides)
    ensures Resolve(provided, componentName, terms, maybeOptional).failure.Some?
            <==> exists i :: 0 <= i < |terms| && Unprovided(provided, terms[i])
                             && !IsOptionalFor(maybeOptional, terms[i], componentName)
    decreases |terms|
  {
    if |terms| > 0 {
      var init := terms[..|terms| - 1];
      ResolveFails(provided, componentName, init, maybeOptional);
      assert forall i :: 0 <= i < |init| ==> init[i] == terms[i];
    }
  }

  /** When they resolve, the unmet list is every unprovided requirement, in
      order. */
  lemma {:induction false} ResolveUnmet(provided: Provides, componentName: string, terms: seq<string>, maybeOptional: Provides)
    requires Resolve(provided, componentName, terms, maybeOptional).failure.None?
    ensures Resolve(provided, componentName, terms, maybeOptional).unmet == UnprovidedIn(provided, terms)
    decreases |terms|
  {
    if |terms| > 0 {
      ResolveUnmet(provided, componentName, terms[..|terms| - 1], maybeOptional);
    }
  }

  /** The provider a setup uses: the last of the provider list. */
  predicate ChosenFor(provided: Provides, req: string, s: Setup)
  {
    s.requirement == req && req in provided && |provided[req]| > 0 && s.provider == provided[req][|provided[req]| - 1]
  }

  /** When they resolve, there is a setup for every provided requirement, in
      order, and its provider is the last of that requirement's providers. */
  lemma {:induction false} ResolveSetups(provided: Provides, componentName: string, terms: seq<string>, maybeOptional: Provides)
    requires Resolve(provided, componentName, terms, maybeOptional).failure.None?
    ensures var r := Resolve(provided, componentName, terms, maybeOptional);
            && |r.setups| == |ProvidedIn(provided, terms)|
            && forall j :: 0 <= j < |r.setups| ==> ChosenFor(provided, ProvidedIn(provided, terms)[j], r.setups[j])
    decreases |terms|
  {
    if |terms| > 0 {
      var init := terms[..|terms| - 1];
      var req := terms[|terms| - 1];
      var before := Resolve(provided, componentName, init, maybeOptional);
      var r := Resolve(provided, componentName, terms, maybeOptional);
      assert before.failure.None?;
      ResolveSetups(provided, componentName, init, maybeOptional);
      var pb := ProvidedIn(provided, init);
      if Unprovided(provided, req) {
        assert r.setups == before.setups;
        assert ProvidedIn(provided, terms) == pb;
      } else {
        var who := provided[req];
        var s := Setup(req, who[|who| - 1]);
        assert r.setups == before.setups + [s];
        var p := ProvidedIn(provided, terms);
        assert p == pb + [req];
        forall j | 0 <= j < |r.setups|
          ensures ChosenFor(provided, p[j], r.setups[j])
        {
          if j < |before.setups| {
            assert p[j] == pb[j] && r.setups[j] == before.setups[j];
          }
        }
      }
    }
  }

  /** A setup that ends the process: its requirement is checked and fails. */
  predicate SetupFails(checker: string -> bool, s: Setup)
  {
    s.requirement in CheckedSetups && s.requirement in CheckedTerms && !checker(s.requirement)
  }

  /** Index of the first setup that fails, or -1. */
  function FirstFailure(checker: string -> bool, setups: seq<Setup>): (k: int)
    ensures -1 <= k < |setups|
    ensures 0 <= k ==> SetupFails(checker, setups[k])
    ensures forall i :: 0 <= i < |setups| && (k < 0 || i < k) ==> !SetupFails(checker, setups[i])
  {
    FirstWhere(setups, s => SetupFails(checker, s))
  }

  /** The setups that run, in order, and whether the last one ended the
      process. */
  function SetupRun(checker: string -> bool, setups: seq<Setup>): (seq<Setup>, bool)
  {
    var k := FirstFailure(checker, setups);
    if k < 0 then (setups, false) else (setups[..k + 1], true)
  }

  /** Setups run in order; the process ends exactly when one fails, right
      after it, so every setup that ran before it passed. */
  lemma SetupRunAt(checker: string -> bool, setups: seq<Setup>)
    ensures var r := SetupRun(checker, setups);
            && |r.0| <= |setups| && r.0 == setups[..|r.0|]
            && (r.1 <==> exists i :: 0 <= i < |setups| && SetupFails(checker, setups[i]))
            && (!r.1 ==> r.0 == setups)
            && (r.1 ==> |r.0| > 0 && SetupFails(checker, r.0[|r.0| - 1])
                        && forall i :: 0 <= i < |r.0| - 1 ==> !SetupFails(checker, setups[i]))
  {
    assert setups[..|setups|] == setups;
  }

  /** The terms the setups hand to `checkRequire`, in order. */
  function SetupTerms(setups: seq<Setup>): seq<string>
  {
    if |setups| == 0 then []
    else
      var s := setups[|setups| - 1];
      SetupTerms(setups[..|setups| - 1]) + (if s.requirement in CheckedSetups then [s.requirement] else [])
  }

  /** Setups that do not fail hand over only terms that pass. */
  lemma {:induction false} SetupTermsPass(checker: string -> bool, setups: seq<Setup>)
    requires forall i :: 0 <= i < |setups| ==> !SetupFails(checker, setups[i])
    ensures forall t :: t in SetupTerms(setups) ==> Passes(checker, t)
    decreases |setups|
  {
    if |setups| > 0 {
      var init := setups[..|setups| - 1];
      forall i | 0 <= i < |init|
        ensures !SetupFails(checker, init[i])
      {
        assert init[i] == setups[i];
      }
      SetupTermsPass(checker, init);
    }
  }

  /** The setup loop runs each external check at most once, and never for a
      term memoised before it. */
  lemma SetupChecksOnce(checker: string -> bool, m: Memo, setups: seq<Setup>)
    ensures var ts := SetupTerms(SetupRun(checker, setups).0);
            ChecksOnce(checker, m, ts, MemoAfter(checker, m, ts))
  {
    var performed := SetupRun(checker, setups).0;
    SetupRunAt(checker, setups);
    var ts := SetupTerms(performed);
    if |performed| > 0 {
      var init := performed[..|performed| - 1];
      forall i | 0 <= i < |init|
        ensures !SetupFails(checker, init[i])
      {
        assert init[i] == setups[i];
      }
      SetupTermsPass(checker, init);
      forall i | 0 <= i < |ts| - 1
        ensures Passes(checker, ts[i])
      {
        assert ts[i] in SetupTerms(init);
      }
    }
    MemoAfterOnce(checker, m, ts);
  }

  // ----------------------------------------- environment-provided entries

  /** `noEnvironmentProvides`, as a map: each list without the environment
      sentinel, and the capabilities left with nobody dropped. */
  function NoEnvironment(capabilities: Provides): Provides
  {
    map p | p in capabilities && Omit(capabilities[p], ProvidedByEnv) != [] :: Omit(capabilities[p], ProvidedByEnv)
  }

  /** No list of the result names the environment or is empty; a capability
      stays exactly when a component (not the environment) provides it, and
      keeps all such providers. */
  lemma NoEnvironmentClean(capabilities: Provides)
    ensures var r := NoEnvironment(capabilities);
            && (forall p :: p in r ==> ProvidedByEnv !in r[p] && r[p] != [])
            && (forall p :: p in r <==> p in capabilities && exists x :: x in capabilities[p] && x != ProvidedByEnv)
            && (forall p, x :: p in r ==> (x in r[p] <==> x in capabilities[p] && x != ProvidedByEnv))
  {
    var r := NoEnvironment(capabilities);
    forall p | p in capabilities
      ensures p in r <==> exists x :: x in capabilities[p] && x != ProvidedByEnv
    {
      var l := Omit(capabilities[p], ProvidedByEnv);
      if l != [] {
        assert l[0] in capabilities[p];
      }
    }
  }

  /** `noEnvironmentProvides`: visits the keys in some order; the result is
      the same whatever the order. */
  method NoEnvironmentProvides(capabilities: Provides) returns (filtered: Provides)
    ensures filtered == NoEnvironment(capabilities)
  {
    filtered := map[];
    var rest := capabilities.Keys;
    while rest != {}
      invariant rest <= capabilities.Keys
      invariant forall p :: p in filtered <==> p in capabilities && p !in rest && Omit(capabilities[p], ProvidedByEnv) != []
      invariant forall p :: p in filtered ==> filtered[p] == Omit(capabilities[p], ProvidedByEnv)
      decreases |rest|
    {
      var p :| p in rest;
      var who := capabilities[p];
      if ProvidedByEnv in who {
        who := Omit(who, ProvidedByEnv);
      }
      if |who| > 0 {
        filtered := filtered[p := who];
      }
      rest := rest - {p};
    }
    assert filtered.Keys == NoEnvironment(capabilities).Keys;
  }

  // ------------------------------------------------ optional requirements

  /** The requirement and component an optional declaration names:
      `req:component` with the colon strictly inside, or `req` alone for
      every component; a leading or trailing colon makes it ignored. */
  function Target(term: string): (r: Option<(string, string)>)
    ensures r.Some? ==>
              || (':' !in term && r.value == (term, Wildcard))
              || (term == r.value.0 + ":" + r.value.1 && r.value.0 != "" && r.value.1 != "" && ':' !in r.value.0)
    ensures r.None? <==> ':' in term && (term[0] == ':' || ':' !in term[..|term| - 1])
  {
    var i := Find(term, ':');
    if 0 < i < |term| - 1 then
      assert term == term[..i] + ":" + term[i + 1..];
      assert term[..|term| - 1][i] == ':';
      Some((term[..i], term[i + 1..]))
    else if i == -1 then Some((term, Wildcard))
    else
      assert i == 0 || term[..|term| - 1] == term[..i];
      None
  }

  /** What `parseRequiresTunning` builds from the declarations. */
  function Tuned(optional: seq<string>): Provides
  {
    if |optional| == 0 then map[]
    else
      var prev := Tuned(optional[..|optional| - 1]);
      match Target(optional[|optional| - 1])
      case None => prev
      case Some((req, component)) => AppendMapList(prev, req, component)
  }

  /** The components the declarations make `req` optional for, in order. */
  function TargetsFor(optional: seq<string>, req: string): seq<string>
  {
    if |optional| == 0 then []
    else
      var t := Target(optional[|optional| - 1]);
      TargetsFor(optional[..|optional| - 1], req) + (if t.Some? && t.value.0 == req then [t.value.1] else [])
  }

  /** A requirement is a key exactly when some declaration targets it, and
      its list is the declared components in order. */
  lemma {:induction false} TunedAt(optional: seq<string>, req: string)
    ensures req in Tuned(optional) <==> TargetsFor(optional, req) != []
    ensures ListAt(Tuned(optional), req) == TargetsFor(optional, req)
    decreases |optional|
  {
    if |optional| > 0 {
      TunedAt(optional[..|optional| - 1], req);
    }
  }

  /** `parseRequiresTunning`. */
  method ParseRequiresTuning(optional: seq<string>) returns (m: Provides)
    ensures m == Tuned(optional)
  {
    m := map[];
    var n := 0;
    while n < |optional|
      invariant 0 <= n <= |optional|
      invariant m == Tuned(optional[..n])
    {
      var req := optional[n];
      assert optional[..n + 1][..n] == optional[..n];
      var i := Find(req, ':');
      if i > 0 && i < |req| - 1 {
        var component := req[i + 1..];
        m := AppendMapList(m, req[..i], component);
      } else if i == -1 {
        m := AppendMapList(m, req, Wildcard);
      }
      n := n + 1;
    }
    assert optional[..n] == optional;
  }

  // ----------------------------------------- falsy optional parameters

  /** Parameter values that switch an optional parameter off. */
  const FalseParameterValues: seq<string> := ["", "false", "0", "no", "(unknown)"]

  /** The parameter is the term, for this component or for all. */
  predicate Matches(p: Parameters.LockedParameter, term: string, componentName: string)
  {
    p.name == term && (p.component == "" || p.component == componentName)
  }

  /** The qualified names of the matching parameters whose value is false. */
  function FalseMatches(componentName: string, term: string, params: seq<Parameters.LockedParameter>,
                        qName: Parameters.LockedParameter -> string): seq<string>
  {
    if |params| == 0 then []
    else
      var p := params[|params| - 1];
      FalseMatches(componentName, term, params[..|params| - 1], qName)
      + (if Matches(p, term, componentName) && p.value in FalseParameterValues then [qName(p)] else [])
  }

  predicate ParameterExists(componentName: string, term: string, params: seq<Parameters.LockedParameter>)
  {
    exists i :: 0 <= i < |params| && Matches(params[i], term, componentName)
  }

  /** What one entry of a term's optional-for list contributes. */
  function ForOptionalFor(componentName: string, term: string, optionalFor: string,
                          params: seq<Parameters.LockedParameter>, qName: Parameters.LockedParameter -> string): seq<string>
  {
    if optionalFor == Wildcard || optionalFor == componentName then
      FalseMatches(componentName, term, params, qName)
      + (if !ParameterExists(componentName, term, params) && optionalFor != Wildcard then [term] else [])
    else []
  }

  /** What one term contributes: only terms that look like parameters. */
  function ForTerm(componentName: string, term: string, optionalForList: seq<string>,
                   params: seq<Parameters.LockedParameter>, qName: Parameters.LockedParameter -> string): seq<string>
  {
    if '.' !in term || |optionalForList| == 0 then []
    else
      ForTerm(componentName, term, optionalForList[..|optionalForList| - 1], params, qName)
      + ForOptionalFor(componentName, term, optionalForList[|optionalForList| - 1], params, qName)
  }

  /** `calculateOptionalFalseParameters` with the terms visited in `order`. */
  function FalseParameters(componentName: string, params: seq<Parameters.LockedParameter>,
                           optionalRequires: Provides, order: seq<string>,
                           qName: Parameters.LockedParameter -> string): seq<string>
    requires forall k :: k in order ==> k in optionalRequires
  {
    if |order| == 0 then []
    else
      var term := order[|order| - 1];
      FalseParameters(componentName, params, optionalRequires, order[..|order| - 1], qName)
      + ForTerm(componentName, term, optionalRequires[term], params, qName)
  }

  /** A parameter's qualified name is reported for the term exactly when a
      matching parameter has a false value. */
  lemma {:induction false} FalseMatchesAt(componentName: string, term: string, params: seq<Parameters.LockedParameter>,
                                          qName: Parameters.LockedParameter -> string, x: string)
    ensures x in FalseMatches(componentName, term, params, qName)
            <==> exists i :: 0 <= i < |params| && Matches(params[i], term, componentName)
                             && params[i].value in FalseParameterValues && qName(params[i]) == x
    decreases |params|
  {
    if |params| > 0 {
      var init := params[..|params| - 1];
      FalseMatchesAt(componentName, term, init, qName, x);
      assert forall i :: 0 <= i < |init| ==> init[i] == params[i];
    }
  }

  /** What a term that looks like a parameter reports, for one of its
      optional-for entries. */
  predicate Reports(componentName: string, term: string, optionalFor: string,
                    params: seq<Parameters.LockedParameter>, qName: Parameters.LockedParameter -> string, x: string)
  {
    && '.' in term
    && (optionalFor == Wildcard || optionalFor == componentName)
    && ((exists i :: 0 <= i < |params| && Matches(params[i], term, componentName)
                     && params[i].value in FalseParameterValues && qName(params[i]) == x)
        || (x == term && optionalFor != Wildcard && !ParameterExists(componentName, term, params)))
  }

  /** Some entry of the term's optional-for list reports `x`. */
  predicate TermReports(componentName: string, term: string, optionalForList: seq<string>,
                        params: seq<Parameters.LockedParameter>, qName: Parameters.LockedParameter -> string, x: string)
  {
    exists j :: 0 <= j < |optionalForList| && Reports(componentName, term, optionalForList[j], params, qName, x)
  }

  lemma {:induction false} ForTermAt(componentName: string, term: string, optionalForList: seq<string>,
                                     params: seq<Parameters.LockedParameter>, qName: Parameters.LockedParameter -> string,
                                     x: string)
    ensures x in ForTerm(componentName, term, optionalForList, params, qName)
            <==> TermReports(componentName, term, optionalForList, params, qName, x)
    decreases |optionalForList|
  {
    if '.' in term && |optionalForList| > 0 {
      var init := optionalForList[..|optionalForList| - 1];
      var last := optionalForList[|optionalForList| - 1];
      ForTermAt(componentName, term, init, params, qName, x);
      FalseMatchesAt(componentName, term, params, qName, x);
      assert x in ForOptionalFor(componentName, term, last, params, qName)
             <==> Reports(componentName, term, last, params, qName, x);
      assert forall j :: 0 <= j < |init| ==> init[j] == optionalForList[j];
    }
  }

  /** The reported names are exactly: the qualified name of each parameter
      that looks like a parameter term, is scoped to the component or
      unscoped, is optional for the component, and has a false value; and
      each such term itself when it is optional for this component by name
      and no parameter matches it. The visiting order changes only the order
      of the list. */
  lemma {:induction false} FalseParametersAt(componentName: string, params: seq<Parameters.LockedParameter>,
                                             optionalRequires: Provides, order: seq<string>,
                                             qName: Parameters.LockedParameter -> string, x: string)
    requires forall k :: k in order ==> k in optionalRequires
    ensures x in FalseParameters(componentName, params, optionalRequires, order, qName)
            <==> exists i :: 0 <= i < |order|
                             && TermReports(componentName, order[i], optionalRequires[order[i]], params, qName, x)
    decreases |order|
  {
    if |order| > 0 {
      var init := order[..|order| - 1];
      var term := order[|order| - 1];
      FalseParametersAt(componentName, params, optionalRequires, init, qName, x);
      ForTermAt(componentName, term, optionalRequires[term], params, qName, x);
      assert forall i :: 0 <= i < |init| ==> init[i] == order[i];
    }
  }

  /** The innermost loop: the false matches, and whether any parameter
      matched. */
  method ScanParameters(componentName: string, term: string, params: seq<Parameters.LockedParameter>,
                        qName: Parameters.LockedParameter -> string)
    returns (falseParameters: seq<string>, parameterExists: bool)
    ensures falseParameters == FalseMatches(componentName, term, params, qName)
    ensures parameterExists == ParameterExists(componentName, term, params)
  {
    falseParameters := [];
    parameterExists := false;
    var k := 0;
    while k < |params|
      invariant 0 <= k <= |params|
      invariant falseParameters == FalseMatches(componentName, term, params[..k], qName)
      invariant parameterExists == ParameterExists(componentName, term, params[..k])
    {
      var p := params[k];
      assert params[..k + 1][..k] == params[..k];
      assert forall i :: 0 <= i < k ==> params[..k + 1][i] == params[..k][i];
      if p.name == term && (p.component == "" || p.component == componentName) {
        parameterExists := true;
        if p.value in FalseParameterValues {
          falseParameters := falseParameters + [qName(p)];
        }
      }
      assert params[..k + 1][k] == p;
      k := k + 1;
    }
    assert params[..k] == params;
  }

  /** The loop over one term's optional-for list. */
  method ScanOptionalFor(componentName: string, term: string, optionalForList: seq<string>,
                         params: seq<Parameters.LockedParameter>, qName: Parameters.LockedParameter -> string)
    returns (falseParameters: seq<string>)
    requires '.' in term
    ensures falseParameters == ForTerm(componentName, term, optionalForList, params, qName)
  {
    falseParameters := [];
    var j := 0;
    while j < |optionalForList|
      invariant 0 <= j <= |optionalForList|
      invariant falseParameters == ForTerm(componentName, term, optionalForList[..j], params, qName)
    {
      var optionalFor := optionalForList[j];
      assert optionalForList[..j + 1][..j] == optionalForList[..j];
      if optionalFor == Wildcard || optionalFor == componentName {
        var found, parameterExists := ScanParameters(componentName, term, params, qName);
        falseParameters := falseParameters + found;
        if !parameterExists && optionalFor != Wildcard {
          falseParameters := falseParameters + [term];
        }
      }
      j := j + 1;
    }
    assert optionalForList[..j] == optionalForList;
  }

  /** `calculateOptionalFalseParameters`; `order` is the order in which the
      `range` visits the terms. */
  method CalculateOptionalFalseParameters(componentName: string, params: seq<Parameters.LockedParameter>,
                                          optionalRequires: Provides, order: seq<string>,
                                          qName: Parameters.LockedParameter -> string)
    returns (falseParameters: seq<string>)
    requires Enumerates(order, optionalRequires)
    ensures falseParameters == FalseParameters(componentName, params, optionalRequires, order, qName)
  {
    falseParameters := [];
    var i := 0;
    while i < |order|
      invariant 0 <= i <= |order|
      invariant falseParameters == FalseParameters(componentName, params, optionalRequires, order[..i], qName)
    {
      var term := order[i];
      assert order[..i + 1][..i] == order[..i];
      if '.' in term {
        var found := ScanOptionalFor(componentName, term, optionalRequires[term], params, qName);
        falseParameters := falseParameters + found;
      }
      i := i + 1;
    }
    assert order[..i] == order;
  }
}
