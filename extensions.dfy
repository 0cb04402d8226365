/** The argument handling of the `hub extensions` commands
    (`cmd/extensions.go`). */
module Extensions {
  import opened Wrappers
  import opened Strings

  /** An argument that starts with `-` is a flag for the extension. */
  predicate IsFlag(arg: string)
  {
    HasPrefix(arg, "-")
  }

  /** `i` is the first argument that is not a flag. */
  predicate IsCommandAt(args: seq<string>, i: int)
  {
    0 <= i < |args| && !IsFlag(args[i]) && forall k :: 0 <= k < i ==> IsFlag(args[k])
  }

  /** The extension to call and the arguments passed on to it. */
  datatype Invocation = Invocation(what: string, args: seq<string>)

  const MissingExtension: string :=
    "Extensions command has at least one mandatory argument - the name of extension command to call"

  /** `arbitraryExtension`: the first argument that is not a flag names the
      extension; the others, in order, are passed on. With no such argument,
      or when it is empty, there is nothing to call. */
  method ArbitraryExtension(args: seq<string>) returns (r: Result<Invocation>)
    ensures r.Ok? <==> exists i :: IsCommandAt(args, i) && args[i] != ""
    ensures r.Err? ==> r.error == MissingExtension
    ensures r.Ok? ==> exists i :: IsCommandAt(args, i) && r.value.what == args[i]
                                  && r.value.args == args[..i] + args[i + 1..]
  {
    var finalArgs: seq<string> := [];
    var i := 0;
    while i < |args| && IsFlag(args[i])
      invariant 0 <= i <= |args|
      invariant finalArgs == args[..i]
      invariant forall k :: 0 <= k < i ==> IsFlag(args[k])
    {
      assert args[..i + 1] == args[..i] + [args[i]];
      finalArgs := finalArgs + [args[i]];
      i := i + 1;
    }
    var what := "";
    if i < |args| {
      what := args[i];
      finalArgs := finalArgs + args[i + 1..];
      CommandUnique(args, i);
    } else {
      NoCommand(args);
    }
    if what == "" {
      return Err(MissingExtension);
    }
    r := Ok(Invocation(what, finalArgs));
  }

  lemma CommandUnique(args: seq<string>, i: int)
    requires IsCommandAt(args, i)
    ensures forall j :: IsCommandAt(args, j) ==> j == i
  {
  }

  lemma NoCommand(args: seq<string>)
    requires forall k :: 0 <= k < |args| ==> IsFlag(args[k])
    ensures forall j :: !IsCommandAt(args, j)
  {
  }

  /** The passed-on arguments are the others, each exactly once. */
  lemma InvocationIsPermutation(args: seq<string>, i: nat)
    requires i < |args|
    ensures multiset(args[..i] + args[i + 1..]) + multiset{args[i]} == multiset(args)
  {
    assert args == args[..i] + [args[i]] + args[i + 1..];
  }

  /** The optional extensions folder of `install` and `update`. */
  function ExtensionsDir(args: seq<string>, usage: string): (r: Result<string>)
    ensures r.Err? <==> |args| > 1
    ensures r.Ok? && |args| == 1 ==> r.value == args[0]
    ensures r.Ok? && |args| == 0 ==> r.value == ""
    ensures r.Err? ==> r.error == usage
  {
    if |args| != 0 && |args| != 1 then
      Err(usage)
    else Ok(if |args| > 0 then args[0] else "")
  }

  /** `extensionsInstall`: at most one argument, the folder. */
  function ExtensionsInstall(args: seq<string>): (r: Result<string>)
    ensures r.Err? <==> |args| > 1
    ensures r.Ok? ==> r.value == (if |args| == 1 then args[0] else "")
    ensures r.Err? ==> r.error == "Extensions Install command has one optional argument - path to Hub CLI extensions folder"
  {
    ExtensionsDir(args, "Extensions Install command has one optional argument - path to Hub CLI extensions folder")
  }

  /** `extensionsUpdate`: at most one argument, the folder. */
  function ExtensionsUpdate(args: seq<string>): (r: Result<string>)
    ensures r.Err? <==> |args| > 1
    ensures r.Ok? ==> r.value == (if |args| == 1 then args[0] else "")
    ensures r.Err? ==> r.error == "Extensions Update command has one optional argument - path to Hub CLI extensions folder"
  {
    ExtensionsDir(args, "Extensions Update command has one optional argument - path to Hub CLI extensions folder")
  }
}
