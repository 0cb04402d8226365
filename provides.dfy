/** The provides map of a deployment (`lifecycle/provides.go`): for each
    capability, the components that provide it, in the order they were
    deployed. */
module Provides {
  import opened Util
  import Parameters

  /** The provider recorded for capabilities the platform stack supplies. */
  const Platform: string := "*platform*"
  /** The capability whose provider must also output a DNS domain. */
  const Kubernetes: string := "kubernetes"
  const DnsDomain: string := "dns.domain"

  /** Capability to provider list. */
  type Providers = map<string, seq<string>>

  // ------------------------------------------------------ platform provides

  /** The map after `mergePlatformProvides` has visited `caps`. */
  function PlatformMerged(m: Providers, caps: seq<string>): Providers
  {
    if |caps| == 0 then m
    else AppendMapList(PlatformMerged(m, caps[..|caps| - 1]), caps[|caps| - 1], Platform)
  }

  /** Each listed capability gets one platform sentinel per listing (no
      de-duplication), a missing key being created; unlisted capabilities are
      untouched. */
  lemma {:induction false} PlatformMergedAt(m: Providers, caps: seq<string>, k: string)
    ensures var r := PlatformMerged(m, caps);
            && (k in r <==> k in m || k in caps)
            && (k in r ==> r[k] == ListAt(m, k) + Repeat(Platform, Count(caps, k)))
            && (k !in caps ==> (k in r <==> k in m) && (k in m ==> r[k] == m[k]))
    decreases |caps|
  {
    CountPositive(caps, k);
    if |caps| > 0 {
      var init := caps[..|caps| - 1];
      var last := caps[|caps| - 1];
      PlatformMergedAt(m, init, k);
      CountPositive(init, k);
      assert caps == init + [last];
      PlatformStep(m, init, last, k);
    }
  }

  /** One more listed capability, seen from the capability `k`. */
  lemma PlatformStep(m: Providers, init: seq<string>, last: string, k: string)
    requires var p := PlatformMerged(m, init);
             && (k in p <==> k in m || Count(init, k) > 0)
             && (k in p ==> p[k] == ListAt(m, k) + Repeat(Platform, Count(init, k)))
    ensures var r := PlatformMerged(m, init + [last]);
            && (k in r <==> k in m || Count(init + [last], k) > 0)
            && (k in r ==> r[k] == ListAt(m, k) + Repeat(Platform, Count(init + [last], k)))
  {
    var caps := init + [last];
    assert caps[..|caps| - 1] == init;
    CountSnoc(init, last, k);
    if last == k {
      var c := Count(init, k);
      assert Repeat(Platform, c + 1) == Repeat(Platform, c) + [Platform];
    }
  }

  lemma CountSnoc(init: seq<string>, last: string, k: string)
    ensures Count(init + [last], k) == Count(init, k) + (if last == k then 1 else 0)
  {
    CountAppend(init, [last], k);
    assert [last][1..] == [];
  }

  // ----------------------------------------------------- component provides

  /** `name` added at the end of the providers of one capability unless
      already there (a re-deploy). */
  function AddProvider(who: seq<string>, name: string): (r: seq<string>)
    ensures name in r
    ensures r == who || (name !in who && r == who + [name])
    ensures NoDuplicates(who) ==> NoDuplicates(r)
  {
    if name in who then who else who + [name]
  }

  /** The map after one capability of a component is recorded. */
  function ProvideStep(m: Providers, name: string, prov: string): Providers
  {
    m[prov := AddProvider(ListAt(m, prov), name)]
  }

  /** The map after `mergeProvides` has recorded `caps` for `name`. */
  function ProvidesMerged(m: Providers, name: string, caps: seq<string>): Providers
  {
    if |caps| == 0 then m
    else ProvideStep(ProvidesMerged(m, name, caps[..|caps| - 1]), name, caps[|caps| - 1])
  }

  lemma ProvidesMergedSnoc(m: Providers, name: string, caps: seq<string>, i: nat)
    requires i < |caps|
    ensures ProvidesMerged(m, name, caps[..i + 1]) == ProvideStep(ProvidesMerged(m, name, caps[..i]), name, caps[i])
  {
    assert caps[..i + 1][..i] == caps[..i];
  }

  lemma AddProviderTwice(who: seq<string>, name: string)
    ensures AddProvider(AddProvider(who, name), name) == AddProvider(who, name)
  {
  }

  /** Each capability the component provides lists it once, after the
      providers it already had; other capabilities are untouched. */
  lemma {:induction false} ProvidesMergedAt(m: Providers, name: string, caps: seq<string>, k: string)
    ensures var r := ProvidesMerged(m, name, caps);
            && (k in caps ==> k in r && r[k] == AddProvider(ListAt(m, k), name))
            && (k !in caps ==> (k in r <==> k in m) && (k in m ==> r[k] == m[k]))
    decreases |caps|
  {
    if |caps| > 0 {
      var init := caps[..|caps| - 1];
      ProvidesMergedAt(m, name, init, k);
      assert k in caps <==> k in init || k == caps[|caps| - 1];
      AddProviderTwice(ListAt(m, k), name);
    }
  }

  /** After the merge the component is among the providers of everything it
      provides. */
  lemma ProvidesMergedRecords(m: Providers, name: string, caps: seq<string>)
    ensures var r := ProvidesMerged(m, name, caps);
            forall k :: k in caps ==> k in r && name in r[k]
  {
    forall k | k in caps
      ensures k in ProvidesMerged(m, name, caps) && name in ProvidesMerged(m, name, caps)[k]
    {
      ProvidesMergedAt(m, name, caps, k);
    }
  }

  /** Merging the same component twice is merging it once. */
  lemma ProvidesMergedIdempotent(m: Providers, name: string, caps: seq<string>)
    ensures ProvidesMerged(ProvidesMerged(m, name, caps), name, caps) == ProvidesMerged(m, name, caps)
  {
    var once := ProvidesMerged(m, name, caps);
    var twice := ProvidesMerged(once, name, caps);
    forall k
      ensures (k in twice <==> k in once) && (k in twice ==> twice[k] == once[k])
    {
      ProvidesMergedAt(m, name, caps, k);
      ProvidesMergedAt(once, name, caps, k);
      AddProviderTwice(ListAt(m, k), name);
    }
    assert twice.Keys == once.Keys;
  }

  /** No provider list ever holds a component twice. */
  lemma ProvidesMergedNoDuplicates(m: Providers, name: string, caps: seq<string>)
    requires forall k :: k in m ==> NoDuplicates(m[k])
    ensures var r := ProvidesMerged(m, name, caps);
            forall k :: k in r ==> NoDuplicates(r[k])
  {
    var r := ProvidesMerged(m, name, caps);
    forall k | k in r
      ensures NoDuplicates(r[k])
    {
      ProvidesMergedAt(m, name, caps, k);
      if k in caps {
        assert NoDuplicates(ListAt(m, k));
      }
    }
  }

  /** The provides map of a deployment, updated in place. */
  class ProvidesMap {
    var providers: Providers

    constructor (initial: Providers)
      ensures providers == initial
    {
      providers := initial;
    }

    /** `mergePlatformProvides`. */
    method MergePlatformProvides(platformProvides: seq<string>)
      modifies this
      ensures providers == PlatformMerged(old(providers), platformProvides)
    {
      var i := 0;
      while i < |platformProvides|
        invariant 0 <= i <= |platformProvides|
        invariant providers == PlatformMerged(old(providers), platformProvides[..i])
      {
        var provide := platformProvides[i];
        assert platformProvides[..i + 1][..i] == platformProvides[..i];
        ghost var before := providers;
        if provide in providers {
          providers := providers[provide := providers[provide] + [Platform]];
        } else {
          providers := providers[provide := [Platform]];
        }
        assert [] + [Platform] == [Platform];
        assert providers == AppendMapList(before, provide, Platform);
        i := i + 1;
      }
      assert platformProvides[..i] == platformProvides;
    }

    /** One capability of `mergeProvides`: the component is appended to its
        providers unless already there. */
    method Provide(componentName: string, prov: string)
      modifies this
      ensures providers == ProvideStep(old(providers), componentName, prov)
    {
      if prov in providers {
        var who := providers[prov];
        if componentName !in who {
          who := who + [componentName];
        }
        providers := providers[prov := who];
      } else {
        assert [] + [componentName] == [componentName];
        providers := providers[prov := [componentName]];
      }
    }

    /** `mergeProvides`: records `componentName` as a provider of each of
        `componentProvides`. A component that provides `kubernetes` must
        have output its DNS domain; when it has not, the process exits
        (`exited`) unless `force` is set, leaving the map as it was after the
        capabilities before that one. */
    method MergeProvides(componentName: string, componentProvides: seq<string>,
                         componentOutputs: Parameters.Outputs,
                         outputQualifiedName: (string, string) -> string, force: bool)
      returns (exited: bool)
      modifies this
      ensures exited <==> Kubernetes in componentProvides
                          && outputQualifiedName(DnsDomain, componentName) !in componentOutputs && !force
      ensures !exited ==> providers == ProvidesMerged(old(providers), componentName, componentProvides)
      ensures exited ==>
                providers == ProvidesMerged(old(providers), componentName,
                                            componentProvides[..Find(componentProvides, Kubernetes)])
    {
      var missing := outputQualifiedName(DnsDomain, componentName) !in componentOutputs;
      var i := 0;
      while i < |componentProvides|
        invariant 0 <= i <= |componentProvides|
        invariant providers == ProvidesMerged(old(providers), componentName, componentProvides[..i])
        invariant Kubernetes in componentProvides[..i] ==> !(missing && !force)
      {
        var prov := componentProvides[i];
        if prov == Kubernetes {
          var qName := outputQualifiedName(DnsDomain, componentName);
          if qName !in componentOutputs && !force {
            FindFirst(componentProvides, Kubernetes, i);
            exited := true;
            return;
          }
        }
        assert Kubernetes in componentProvides[..i + 1] <==> Kubernetes in componentProvides[..i] || prov == Kubernetes;
        Provide(componentName, prov);
        ProvidesMergedSnoc(old(providers), componentName, componentProvides, i);
        i := i + 1;
      }
      assert componentProvides[..i] == componentProvides;
      exited := false;
    }
  }
}
