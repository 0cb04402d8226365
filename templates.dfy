/** Component templates (`lifecycle/template.go`): the template setup with
    its placeholders expanded, the kinds, the entries found on disk and the
    processing of one template. The filesystem is an oracle. */
module Templates {
  import opened Wrappers
  import opened Strings
  import opened Util
  import opened Segments
  import opened Placeholders

  const TemplateSuffix: string := ".template"
  const CurlyKind: string := "curly"
  const MustacheKind: string := "mustache"
  const TrueMustacheKind: string := "_mustache"
  const GoKind: string := "go"

  /** The kinds a template setup may name. */
  const Kinds: seq<string> := [CurlyKind, MustacheKind, TrueMustacheKind, GoKind]

  /** One group of template entries of a component. */
  datatype TemplateTarget = TemplateTarget(kind: string, files: seq<string>, directories: seq<string>)

  /** The templates section of a component manifest. */
  datatype TemplateSetup = TemplateSetup(kind: string, files: seq<string>, directories: seq<string>,
                                         extra: seq<TemplateTarget>)

  /** A template found on disk, with the kind to process it as. */
  datatype TemplateRef = TemplateRef(filename: string, kind: string)

  // ------------------------------------------------------------------ kinds

  /** `isGlob`: the entry is a pattern. */
  predicate IsGlob(path: string)
  {
    '*' in path || '[' in path
  }

  /** `checkKind`: the kind to use, and whether an unrecognised kind is
      warned about. */
  function CheckKind(kind: string): (r: (string, bool))
    ensures r.0 != ""
    ensures kind != "" ==> r.0 == kind
    ensures r.1 <==> kind != "" && kind !in Kinds
  {
    if kind == "" then (CurlyKind, false) else (kind, kind !in Kinds)
  }

  // ----------------------------------------------- expansion of the setup

  /** `parameters.RequireExpansion`, `parameters.ExpandParameter` on the
      parameter `name` with value `value`, giving the expanded value and the
      errors, and `util.Errors` joining error texts. */
  datatype Expander = Expander(requireExpansion: string -> bool,
                               expandParameter: (string, string, map<string, string>) -> (string, seq<string>),
                               joinErrors: seq<string> -> string)

  /** `maybeExpandParametersInTemplateGlob`: a glob without placeholders is
      kept; otherwise it is expanded as the parameter
      `templates.<section>.<index>`. */
  function MaybeExpand(x: Expander, kv: map<string, string>, glob: string, section: string, index: nat): Result<string>
  {
    if !x.requireExpansion(glob) then Ok(glob)
    else
      var (value, errs) := x.expandParameter("templates." + section + "." + NatToString(index), glob, kv);
      if |errs| > 0 then Err("Failed to expand template globs:\n\t" + x.joinErrors(errs))
      else Ok(value)
  }

  /** A glob without placeholders is kept; otherwise it is the parameter
      `templates.<section>.<index>` expanded, and fails iff that expansion
      reports errors. */
  lemma MaybeExpandCases(x: Expander, kv: map<string, string>, glob: string, section: string, index: nat)
    ensures var r := MaybeExpand(x, kv, glob, section, index);
            && (!x.requireExpansion(glob) ==> r == Ok(glob))
            && (x.requireExpansion(glob) ==>
                  var (value, errs) := x.expandParameter("templates." + section + "." + NatToString(index), glob, kv);
                  (r.Err? <==> errs != []) && (r.Ok? ==> r.value == value))
  {
  }

  /** A list of globs expanded, stopping at the first failure. */
  function ExpandGlobs(x: Expander, kv: map<string, string>, globs: seq<string>, section: string): Result<seq<string>>
  {
    if |globs| == 0 then Ok([])
    else
      match ExpandGlobs(x, kv, globs[..|globs| - 1], section)
      case Err(e) => Err(e)
      case Ok(prev) =>
        match MaybeExpand(x, kv, globs[|globs| - 1], section, |globs| - 1)
        case Err(e) => Err(e)
        case Ok(v) => Ok(prev + [v])
  }

  /** `i` is the first glob whose expansion fails. */
  predicate FirstFailedGlob(x: Expander, kv: map<string, string>, globs: seq<string>, section: string, i: int)
  {
    && 0 <= i < |globs| && MaybeExpand(x, kv, globs[i], section, i).Err?
    && forall k :: 0 <= k < i ==> MaybeExpand(x, kv, globs[k], section, k).Ok?
  }

  /** Each glob is expanded at its own index, in order, and one without
      placeholders is kept; a failure is the failure of the first glob that
      fails. */
  lemma {:induction false} ExpandGlobsAt(x: Expander, kv: map<string, string>, globs: seq<string>, section: string)
    ensures var r := ExpandGlobs(x, kv, globs, section);
            && (r.Ok? <==> forall k :: 0 <= k < |globs| ==> MaybeExpand(x, kv, globs[k], section, k).Ok?)
            && (r.Ok? ==> |r.value| == |globs|
                          && forall k :: 0 <= k < |globs| ==> r.value[k] == MaybeExpand(x, kv, globs[k], section, k).value)
            && (r.Ok? ==> forall k :: 0 <= k < |globs| && !x.requireExpansion(globs[k]) ==> r.value[k] == globs[k])
            && (r.Err? ==> exists i :: FirstFailedGlob(x, kv, globs, section, i)
                                       && r.error == MaybeExpand(x, kv, globs[i], section, i).error)
  {
    ExpandGlobsValues(x, kv, globs, section);
    ExpandGlobsFirstFailure(x, kv, globs, section);
  }

  lemma {:induction false} ExpandGlobsValues(x: Expander, kv: map<string, string>, globs: seq<string>, section: string)
    ensures var r := ExpandGlobs(x, kv, globs, section);
            && (r.Ok? <==> forall k :: 0 <= k < |globs| ==> MaybeExpand(x, kv, globs[k], section, k).Ok?)
            && (r.Ok? ==> |r.value| == |globs|
                          && forall k :: 0 <= k < |globs| ==> r.value[k] == MaybeExpand(x, kv, globs[k], section, k).value)
    decreases |globs|
  {
    if |globs| > 0 {
      var n := |globs| - 1;
      var init := globs[..n];
      ExpandGlobsValues(x, kv, init, section);
      var prev := ExpandGlobs(x, kv, init, section);
      var last := MaybeExpand(x, kv, globs[n], section, n);
      var r := ExpandGlobs(x, kv, globs, section);
      if prev.Err? {
        var i :| 0 <= i < n && MaybeExpand(x, kv, init[i], section, i).Err?;
        assert init[i] == globs[i];
      } else if last.Ok? {
        assert r.value == prev.value + [last.value];
        forall k | 0 <= k < n
          ensures MaybeExpand(x, kv, globs[k], section, k) == MaybeExpand(x, kv, init[k], section, k)
          ensures r.value[k] == prev.value[k]
        {
          assert init[k] == globs[k];
        }
      }
    }
  }

  lemma {:induction false} ExpandGlobsFirstFailure(x: Expander, kv: map<string, string>, globs: seq<string>, section: string)
    ensures var r := ExpandGlobs(x, kv, globs, section);
            r.Err? ==> exists i :: FirstFailedGlob(x, kv, globs, section, i)
                                   && r.error == MaybeExpand(x, kv, globs[i], section, i).error
    decreases |globs|
  {
    if |globs| > 0 {
      var n := |globs| - 1;
      var init := globs[..n];
      ExpandGlobsFirstFailure(x, kv, init, section);
      var prev := ExpandGlobs(x, kv, init, section);
      if prev.Err? {
        var i :| FirstFailedGlob(x, kv, init, section, i) && prev.error == MaybeExpand(x, kv, init[i], section, i).error;
        assert init[i] == globs[i];
        forall k | 0 <= k < i
          ensures MaybeExpand(x, kv, globs[k], section, k).Ok?
        {
          assert init[k] == globs[k];
        }
        assert FirstFailedGlob(x, kv, globs, section, i);
      } else if MaybeExpand(x, kv, globs[n], section, n).Err? {
        ExpandGlobsValues(x, kv, init, section);
        forall k | 0 <= k < n
          ensures MaybeExpand(x, kv, globs[k], section, k).Ok?
        {
          assert init[k] == globs[k];
        }
        assert FirstFailedGlob(x, kv, globs, section, n);
      }
    }
  }

  /** One target's files and directories expanded under `prefix`. */
  function ExpandTarget(x: Expander, kv: map<string, string>, t: TemplateTarget, prefix: string): Result<TemplateTarget>
  {
    match ExpandGlobs(x, kv, t.files, prefix + ".files")
    case Err(e) => Err(e)
    case Ok(files) =>
      match ExpandGlobs(x, kv, t.directories, prefix + ".directories")
      case Err(e) => Err(e)
      case Ok(dirs) => Ok(TemplateTarget(t.kind, files, dirs))
  }

  /** The extra targets expanded, `extra.<j>` each, stopping at the first
      failure. */
  function ExpandExtras(x: Expander, kv: map<string, string>, extras: seq<TemplateTarget>): Result<seq<TemplateTarget>>
  {
    if |extras| == 0 then Ok([])
    else
      match ExpandExtras(x, kv, extras[..|extras| - 1])
      case Err(e) => Err(e)
      case Ok(prev) =>
        match ExpandTarget(x, kv, extras[|extras| - 1], "extra." + NatToString(|extras| - 1))
        case Err(e) => Err(e)
        case Ok(t) => Ok(prev + [t])
  }

  /** The setup of `expandParametersInTemplateSetup`: files, then
      directories, then the extras. */
  function ExpandedSetup(x: Expander, kv: map<string, string>, s: TemplateSetup): Result<TemplateSetup>
  {
    match ExpandGlobs(x, kv, s.files, "files")
    case Err(e) => Err(e)
    case Ok(files) =>
      match ExpandGlobs(x, kv, s.directories, "directories")
      case Err(e) => Err(e)
      case Ok(dirs) =>
        match ExpandExtras(x, kv, s.extra)
        case Err(e) => Err(e)
        case Ok(extra) => Ok(TemplateSetup(s.kind, files, dirs, extra))
  }

  /** Two targets of the same shape: the same kind and as many entries. */
  predicate SameShape(a: TemplateTarget, b: TemplateTarget)
  {
    a.kind == b.kind && |a.files| == |b.files| && |a.directories| == |b.directories|
  }

  lemma {:induction false} ExpandExtrasShape(x: Expander, kv: map<string, string>, extras: seq<TemplateTarget>)
    ensures var r := ExpandExtras(x, kv, extras);
            r.Ok? ==> |r.value| == |extras| && forall j :: 0 <= j < |extras| ==> SameShape(extras[j], r.value[j])
    decreases |extras|
  {
    if |extras| > 0 {
      var n := |extras| - 1;
      var init := extras[..n];
      ExpandExtrasShape(x, kv, init);
      var t := extras[n];
      var prefix := "extra." + NatToString(n);
      var r := ExpandExtras(x, kv, extras);
      if r.Ok? {
        var prev := ExpandExtras(x, kv, init);
        var e := ExpandTarget(x, kv, t, prefix);
        ExpandTargetShape(x, kv, t, prefix);
        assert r.value == prev.value + [e.value];
        forall j | 0 <= j < |extras|
          ensures SameShape(extras[j], r.value[j])
        {
          if j < n {
            assert extras[j] == init[j] && r.value[j] == prev.value[j];
          }
        }
      }
    }
  }

  lemma ExpandTargetShape(x: Expander, kv: map<string, string>, t: TemplateTarget, prefix: string)
    ensures var r := ExpandTarget(x, kv, t, prefix);
            r.Ok? ==> SameShape(t, r.value)
  {
    ExpandGlobsAt(x, kv, t.files, prefix + ".files");
    ExpandGlobsAt(x, kv, t.directories, prefix + ".directories");
  }

  /** An expanded setup keeps the kind, the number and order of the files,
      the directories and the extras (each with its kind and as many
      entries), and every glob that needs no expansion. */
  lemma ExpandedSetupShape(x: Expander, kv: map<string, string>, s: TemplateSetup)
    ensures var r := ExpandedSetup(x, kv, s);
            r.Ok? ==>
              && r.value.kind == s.kind
              && |r.value.files| == |s.files| && |r.value.directories| == |s.directories|
              && |r.value.extra| == |s.extra|
              && (forall j :: 0 <= j < |s.extra| ==> SameShape(s.extra[j], r.value.extra[j]))
              && (forall k :: 0 <= k < |s.files| && !x.requireExpansion(s.files[k]) ==> r.value.files[k] == s.files[k])
              && (forall k :: 0 <= k < |s.directories| && !x.requireExpansion(s.directories[k])
                    ==> r.value.directories[k] == s.directories[k])
  {
    ExpandGlobsAt(x, kv, s.files, "files");
    ExpandGlobsAt(x, kv, s.directories, "directories");
    ExpandExtrasShape(x, kv, s.extra);
  }

  /** A list of globs none of which holds a placeholder is returned as it is. */
  lemma {:induction false} ExpandGlobsUnchanged(x: Expander, kv: map<string, string>, globs: seq<string>, section: string)
    requires forall k :: 0 <= k < |globs| ==> !x.requireExpansion(globs[k])
    ensures ExpandGlobs(x, kv, globs, section) == Ok(globs)
    decreases |globs|
  {
    if |globs| > 0 {
      var n := |globs| - 1;
      ExpandGlobsUnchanged(x, kv, globs[..n], section);
      assert globs[..n] + [globs[n]] == globs;
    }
  }

  /** Expands one list of globs. */
  method ExpandGlobList(x: Expander, kv: map<string, string>, globs: seq<string>, section: string)
    returns (r: Result<seq<string>>)
    ensures r == ExpandGlobs(x, kv, globs, section)
  {
    var expanded: seq<string> := [];
    var i := 0;
    while i < |globs|
      invariant 0 <= i <= |globs|
      invariant ExpandGlobs(x, kv, globs[..i], section) == Ok(expanded)
    {
      assert globs[..i + 1][..i] == globs[..i];
      assert globs[..i + 1][i] == globs[i];
      var e := MaybeExpand(x, kv, globs[i], section, i);
      if e.Err? {
        ExpandGlobsStops(x, kv, globs, section, i + 1);
        return Err(e.error);
      }
      expanded := expanded + [e.value];
      i := i + 1;
    }
    assert globs[..i] == globs;
    r := Ok(expanded);
  }

  /** A failure stays the result when more globs follow. */
  lemma {:induction false} ExpandGlobsStops(x: Expander, kv: map<string, string>, globs: seq<string>, section: string, i: nat)
    requires i <= |globs| && ExpandGlobs(x, kv, globs[..i], section).Err?
    ensures ExpandGlobs(x, kv, globs, section) == ExpandGlobs(x, kv, globs[..i], section)
    decreases |globs| - i
  {
    if i < |globs| {
      assert globs[..i + 1][..i] == globs[..i];
      ExpandGlobsStops(x, kv, globs, section, i + 1);
    } else {
      assert globs[..i] == globs;
    }
  }

  /** `expandParametersInTemplateSetup`. */
  method ExpandParametersInTemplateSetup(x: Expander, kv: map<string, string>, s: TemplateSetup)
    returns (r: Result<TemplateSetup>)
    ensures r == ExpandedSetup(x, kv, s)
  {
    var files := ExpandGlobList(x, kv, s.files, "files");
    if files.Err? {
      return Err(files.error);
    }
    var dirs := ExpandGlobList(x, kv, s.directories, "directories");
    if dirs.Err? {
      return Err(dirs.error);
    }
    var extra: seq<TemplateTarget> := [];
    var j := 0;
    while j < |s.extra|
      invariant 0 <= j <= |s.extra|
      invariant ExpandExtras(x, kv, s.extra[..j]) == Ok(extra)
    {
      assert s.extra[..j + 1][..j] == s.extra[..j];
      var t := ExpandTargetList(x, kv, s.extra[j], "extra." + NatToString(j));
      if t.Err? {
        ExpandExtrasStops(x, kv, s.extra, j + 1);
        return Err(t.error);
      }
      extra := extra + [t.value];
      j := j + 1;
    }
    assert s.extra[..j] == s.extra;
    r := Ok(TemplateSetup(s.kind, files.value, dirs.value, extra));
  }

  /** One target of the extras loop. */
  method ExpandTargetList(x: Expander, kv: map<string, string>, t: TemplateTarget, prefix: string)
    returns (r: Result<TemplateTarget>)
    ensures r == ExpandTarget(x, kv, t, prefix)
  {
    var files := ExpandGlobList(x, kv, t.files, prefix + ".files");
    if files.Err? {
      return Err(files.error);
    }
    var dirs := ExpandGlobList(x, kv, t.directories, prefix + ".directories");
    if dirs.Err? {
      return Err(dirs.error);
    }
    r := Ok(TemplateTarget(t.kind, files.value, dirs.value));
  }

  lemma {:induction false} ExpandExtrasStops(x: Expander, kv: map<string, string>, extras: seq<TemplateTarget>, j: nat)
    requires j <= |extras| && ExpandExtras(x, kv, extras[..j]).Err?
    ensures ExpandExtras(x, kv, extras) == ExpandExtras(x, kv, extras[..j])
    decreases |extras| - j
  {
    if j < |extras| {
      assert extras[..j + 1][..j] == extras[..j];
      ExpandExtrasStops(x, kv, extras, j + 1);
    } else {
      assert extras[..j] == extras;
    }
  }

  // ------------------------------------------------------ entries on disk

  /** `path.Join` of two and of three parts, whether a path names a regular
      file (`os.Stat` succeeds and it is not a directory), and the matches
      of `filepath.Glob`. */
  datatype FileSystem = FileSystem(join2: (string, string) -> string,
                                   join3: (string, string, string) -> string,
                                   isFile: string -> bool,
                                   glob: string -> seq<string>)

  /** The template a plain entry names: with `.template` appended when the
      entry lacks it and that file exists. */
  function PlainPath(fs: FileSystem, baseDir: string, file: string): (r: string)
    ensures var p := fs.join2(baseDir, file);
            (r == p + TemplateSuffix <==> !HasSuffix(file, TemplateSuffix) && fs.isFile(p + TemplateSuffix))
            && (r != p + TemplateSuffix ==> r == p)
  {
    var p := fs.join2(baseDir, file);
    if !HasSuffix(file, TemplateSuffix) && fs.isFile(p + TemplateSuffix) then p + TemplateSuffix else p
  }

  /** The entries that are not globs, in order. */
  function NonGlobs(files: seq<string>): (r: seq<string>)
    ensures |r| <= |files|
    ensures forall f :: f in r <==> f in files && !IsGlob(f)
  {
    if |files| == 0 then []
    else NonGlobs(files[..|files| - 1]) + (if IsGlob(files[|files| - 1]) then [] else [files[|files| - 1]])
  }

  /** The references `appendPlainFiles` adds. */
  function PlainFiles(fs: FileSystem, baseDir: string, files: seq<string>, kind: string): seq<TemplateRef>
  {
    if |files| == 0 then []
    else
      var f := files[|files| - 1];
      PlainFiles(fs, baseDir, files[..|files| - 1], kind) + (if IsGlob(f) then [] else [TemplateRef(PlainPath(fs, baseDir, f), kind)])
  }

  /** Exactly the entries that are not globs are taken, one reference each,
      in order, with the given kind. */
  lemma {:induction false} PlainFilesAt(fs: FileSystem, baseDir: string, files: seq<string>, kind: string)
    ensures var r := PlainFiles(fs, baseDir, files, kind);
            var plain := NonGlobs(files);
            |r| == |plain| && forall k :: 0 <= k < |r| ==> r[k] == TemplateRef(PlainPath(fs, baseDir, plain[k]), kind)
    decreases |files|
  {
    if |files| > 0 {
      PlainFilesAt(fs, baseDir, files[..|files| - 1], kind);
    }
  }

  /** `appendPlainFiles`. */
  method AppendPlainFiles(acc: seq<TemplateRef>, fs: FileSystem, baseDir: string, files: seq<string>, kind: string)
    returns (r: seq<TemplateRef>)
    ensures r == acc + PlainFiles(fs, baseDir, files, kind)
  {
    r := acc;
    var i := 0;
    while i < |files|
      invariant 0 <= i <= |files|
      invariant r == acc + PlainFiles(fs, baseDir, files[..i], kind)
    {
      var file := files[i];
      assert files[..i + 1][..i] == files[..i];
      if !IsGlob(file) {
        var filePath := fs.join2(baseDir, file);
        if !HasSuffix(file, TemplateSuffix) {
          if fs.isFile(filePath + TemplateSuffix) {
            filePath := filePath + TemplateSuffix;
          }
        }
        r := r + [TemplateRef(filePath, kind)];
      } else {
        assert r + [] == r;
      }
      i := i + 1;
    }
    assert files[..i] == files;
  }

  /** The entries `scanDirectories` visits: `*` when there are directories
      but no files. */
  function ScanFiles(files: seq<string>, directories: seq<string>): seq<string>
  {
    if |files| == 0 && |directories| > 0 then ["*"] else files
  }

  /** The directories `scanDirectories` visits: the base directory itself
      when there are none. */
  function ScanDirs(directories: seq<string>): seq<string>
  {
    if |directories| == 0 then [""] else directories
  }

  function Refs(filenames: seq<string>, kind: string): (r: seq<TemplateRef>)
    ensures |r| == |filenames| && forall k :: 0 <= k < |r| ==> r[k] == TemplateRef(filenames[k], kind)
  {
    seq(|filenames|, k requires 0 <= k < |filenames| => TemplateRef(filenames[k], kind))
  }

  /** The matches of the glob entries of `files` under one directory. */
  function DirMatches(fs: FileSystem, baseDir: string, dir: string, files: seq<string>, kind: string): seq<TemplateRef>
  {
    if |files| == 0 then []
    else
      var f := files[|files| - 1];
      DirMatches(fs, baseDir, dir, files[..|files| - 1], kind)
      + (if IsGlob(f) then Refs(fs.glob(fs.join3(baseDir, dir, f)), kind) else [])
  }

  /** The matches of the glob entries under every directory, directory by
      directory. */
  function Scanned(fs: FileSystem, baseDir: string, dirs: seq<string>, files: seq<string>, kind: string): seq<TemplateRef>
  {
    if |dirs| == 0 then []
    else Scanned(fs, baseDir, dirs[..|dirs| - 1], files, kind) + DirMatches(fs, baseDir, dirs[|dirs| - 1], files, kind)
  }

  lemma ScannedStep(fs: FileSystem, baseDir: string, dirs: seq<string>, files: seq<string>, kind: string, i: nat)
    requires i < |dirs|
    ensures Scanned(fs, baseDir, dirs[..i + 1], files, kind)
            == Scanned(fs, baseDir, dirs[..i], files, kind) + DirMatches(fs, baseDir, dirs[i], files, kind)
  {
    assert dirs[..i + 1][..i] == dirs[..i];
  }

  /** `x` is a match of a glob entry of `files` under `dir`. */
  predicate MatchedIn(fs: FileSystem, baseDir: string, dir: string, files: seq<string>, x: string)
  {
    exists f :: f in files && IsGlob(f) && x in fs.glob(fs.join3(baseDir, dir, f))
  }

  /** Under one directory, exactly the matches of the glob entries are
      taken, with the given kind. */
  lemma {:induction false} DirMatchesAt(fs: FileSystem, baseDir: string, dir: string, files: seq<string>, kind: string, t: TemplateRef)
    ensures t in DirMatches(fs, baseDir, dir, files, kind) <==> t.kind == kind && MatchedIn(fs, baseDir, dir, files, t.filename)
    decreases |files|
  {
    if |files| > 0 {
      var init := files[..|files| - 1];
      var f := files[|files| - 1];
      DirMatchesAt(fs, baseDir, dir, init, kind, t);
      assert forall g :: g in files <==> g in init || g == f;
      var refs := Refs(fs.glob(fs.join3(baseDir, dir, f)), kind);
      assert t in refs <==> t.kind == kind && t.filename in fs.glob(fs.join3(baseDir, dir, f)) by {
        if t.kind == kind && t.filename in fs.glob(fs.join3(baseDir, dir, f)) {
          var k :| 0 <= k < |fs.glob(fs.join3(baseDir, dir, f))| && fs.glob(fs.join3(baseDir, dir, f))[k] == t.filename;
          assert refs[k] == t;
        }
      }
    }
  }

  /** Every directory is scanned with exactly the glob entries: a reference
      is found exactly when it is a match of a glob entry under one of the
      directories. */
  lemma {:induction false} ScannedAt(fs: FileSystem, baseDir: string, dirs: seq<string>, files: seq<string>, kind: string, t: TemplateRef)
    ensures t in Scanned(fs, baseDir, dirs, files, kind)
            <==> t.kind == kind && exists dir :: dir in dirs && MatchedIn(fs, baseDir, dir, files, t.filename)
    decreases |dirs|
  {
    if |dirs| > 0 {
      var init := dirs[..|dirs| - 1];
      var dir := dirs[|dirs| - 1];
      ScannedAt(fs, baseDir, init, files, kind, t);
      DirMatchesAt(fs, baseDir, dir, files, kind, t);
      assert forall e :: e in dirs <==> e in init || e == dir;
    }
  }

  /** The inner loop of `scanDirectories`: the glob entries under one
      directory. */
  method ScanDirectory(acc: seq<TemplateRef>, fs: FileSystem, baseDir: string, dir: string,
                       entries: seq<string>, kind: string)
    returns (r: seq<TemplateRef>)
    ensures r == acc + DirMatches(fs, baseDir, dir, entries, kind)
  {
    r := acc;
    var j := 0;
    while j < |entries|
      invariant 0 <= j <= |entries|
      invariant r == acc + DirMatches(fs, baseDir, dir, entries[..j], kind)
    {
      var file := entries[j];
      assert entries[..j + 1][..j] == entries[..j];
      if IsGlob(file) {
        var matches := fs.glob(fs.join3(baseDir, dir, file));
        r := r + Refs(matches, kind);
      } else {
        assert r + [] == r;
      }
      j := j + 1;
    }
    assert entries[..j] == entries;
  }

  /** `scanDirectories`. */
  method ScanDirectories(acc: seq<TemplateRef>, fs: FileSystem, baseDir: string, directories: seq<string>,
                         files: seq<string>, kind: string)
    returns (r: seq<TemplateRef>)
    ensures r == acc + Scanned(fs, baseDir, ScanDirs(directories), ScanFiles(files, directories), kind)
  {
    var entries := files;
    if |entries| == 0 && |directories| > 0 {
      entries := ["*"];
    }
    var dirs := directories;
    if |dirs| == 0 {
      dirs := [""];
    }
    r := ScanEach(acc, fs, baseDir, dirs, entries, kind);
  }

  /** The outer loop of `scanDirectories`: the entries under each directory. */
  method ScanEach(acc: seq<TemplateRef>, fs: FileSystem, baseDir: string, dirs: seq<string>,
                  entries: seq<string>, kind: string)
    returns (r: seq<TemplateRef>)
    ensures r == acc + Scanned(fs, baseDir, dirs, entries, kind)
  {
    r := acc;
    var i := 0;
    while i < |dirs|
      invariant 0 <= i <= |dirs|
      invariant r == acc + Scanned(fs, baseDir, dirs[..i], entries, kind)
    {
      ScannedStep(fs, baseDir, dirs, entries, kind, i);
      r := ScanDirectory(r, fs, baseDir, dirs[i], entries, kind);
      i := i + 1;
    }
    assert dirs[..i] == dirs;
  }

  /** The references of one target, checked kind first. */
  function TargetTemplates(fs: FileSystem, baseDir: string, kind: string, files: seq<string>, directories: seq<string>)
    : seq<TemplateRef>
  {
    var k := CheckKind(kind).0;
    PlainFiles(fs, baseDir, files, k) + Scanned(fs, baseDir, ScanDirs(directories), ScanFiles(files, directories), k)
  }

  function ExtraTemplates(fs: FileSystem, baseDir: string, extras: seq<TemplateTarget>): seq<TemplateRef>
  {
    if |extras| == 0 then []
    else
      var t := extras[|extras| - 1];
      ExtraTemplates(fs, baseDir, extras[..|extras| - 1]) + TargetTemplates(fs, baseDir, t.kind, t.files, t.directories)
  }

  /** The templates of a setup: its own entries, then each extra's. */
  function SetupTemplates(fs: FileSystem, baseDir: string, s: TemplateSetup): seq<TemplateRef>
  {
    TargetTemplates(fs, baseDir, s.kind, s.files, s.directories) + ExtraTemplates(fs, baseDir, s.extra)
  }

  /** Every reference found has a non-empty kind: the kind of its target,
      defaulted. */
  lemma {:induction false} ExtraTemplatesKinds(fs: FileSystem, baseDir: string, extras: seq<TemplateTarget>, t: TemplateRef)
    requires t in ExtraTemplates(fs, baseDir, extras)
    ensures exists j :: 0 <= j < |extras| && t.kind == CheckKind(extras[j].kind).0
    decreases |extras|
  {
    var n := |extras| - 1;
    var e := extras[n];
    if t in ExtraTemplates(fs, baseDir, extras[..n]) {
      ExtraTemplatesKinds(fs, baseDir, extras[..n], t);
      var j :| 0 <= j < n && t.kind == CheckKind(extras[..n][j].kind).0;
      assert extras[..n][j] == extras[j];
    } else {
      TargetTemplatesKind(fs, baseDir, e.kind, e.files, e.directories, t);
    }
  }

  lemma TargetTemplatesKind(fs: FileSystem, baseDir: string, kind: string, files: seq<string>, directories: seq<string>,
                            t: TemplateRef)
    requires t in TargetTemplates(fs, baseDir, kind, files, directories)
    ensures t.kind == CheckKind(kind).0
  {
    var k := CheckKind(kind).0;
    var plain := PlainFiles(fs, baseDir, files, k);
    if t in plain {
      PlainFilesAt(fs, baseDir, files, k);
      var i :| 0 <= i < |plain| && plain[i] == t;
    } else {
      ScannedAt(fs, baseDir, ScanDirs(directories), ScanFiles(files, directories), k, t);
    }
  }

  /** Every template of a setup has a non-empty kind. */
  lemma SetupTemplatesKinds(fs: FileSystem, baseDir: string, s: TemplateSetup)
    ensures forall t :: t in SetupTemplates(fs, baseDir, s) ==> t.kind != ""
  {
    forall t | t in SetupTemplates(fs, baseDir, s)
      ensures t.kind != ""
    {
      if t in TargetTemplates(fs, baseDir, s.kind, s.files, s.directories) {
        TargetTemplatesKind(fs, baseDir, s.kind, s.files, s.directories, t);
      } else {
        ExtraTemplatesKinds(fs, baseDir, s.extra, t);
      }
    }
  }

  /** The plain entries, then the globs, of one target. */
  method AppendTarget(acc: seq<TemplateRef>, fs: FileSystem, baseDir: string, kind: string,
                      files: seq<string>, directories: seq<string>)
    returns (r: seq<TemplateRef>)
    ensures r == acc + TargetTemplates(fs, baseDir, kind, files, directories)
  {
    var k := CheckKind(kind).0;
    r := AppendPlainFiles(acc, fs, baseDir, files, k);
    r := ScanDirectories(r, fs, baseDir, directories, files, k);
  }

  lemma ExtraTemplatesStep(fs: FileSystem, baseDir: string, extras: seq<TemplateTarget>, j: nat)
    requires j < |extras|
    ensures ExtraTemplates(fs, baseDir, extras[..j + 1])
            == ExtraTemplates(fs, baseDir, extras[..j])
               + TargetTemplates(fs, baseDir, extras[j].kind, extras[j].files, extras[j].directories)
  {
    assert extras[..j + 1][..j] == extras[..j];
  }

  /** The loop of `scanTemplates` over the extras. */
  method AppendExtras(acc: seq<TemplateRef>, fs: FileSystem, baseDir: string, extras: seq<TemplateTarget>)
    returns (r: seq<TemplateRef>)
    ensures r == acc + ExtraTemplates(fs, baseDir, extras)
  {
    r := acc;
    var j := 0;
    while j < |extras|
      invariant 0 <= j <= |extras|
      invariant r == acc + ExtraTemplates(fs, baseDir, extras[..j])
    {
      var extra := extras[j];
      ghost var before := ExtraTemplates(fs, baseDir, extras[..j]);
      ghost var more := TargetTemplates(fs, baseDir, extra.kind, extra.files, extra.directories);
      r := AppendTarget(r, fs, baseDir, extra.kind, extra.files, extra.directories);
      ExtraTemplatesStep(fs, baseDir, extras, j);
      Associative(acc, before, more);
      j := j + 1;
    }
    assert extras[..j] == extras;
  }

  /** `scanTemplates`: the plain entries and the globs of the setup, then
      of each extra. */
  method ScanTemplates(fs: FileSystem, baseDir: string, s: TemplateSetup) returns (r: seq<TemplateRef>)
    ensures r == SetupTemplates(fs, baseDir, s)
    ensures forall t :: t in r ==> t.kind != ""
  {
    ghost var own := TargetTemplates(fs, baseDir, s.kind, s.files, s.directories);
    ghost var extra := ExtraTemplates(fs, baseDir, s.extra);
    r := AppendTarget([], fs, baseDir, s.kind, s.files, s.directories);
    assert [] + own == own;
    r := AppendExtras(r, fs, baseDir, s.extra);
    assert r == own + extra;
    SetupTemplatesKinds(fs, baseDir, s);
  }

  // ------------------------------------------------------ one template

  /** `processTemplate`'s output path: one trailing `.template` removed. */
  function OutputPath(filename: string): (r: string)
    ensures HasSuffix(filename, TemplateSuffix) ==> r + TemplateSuffix == filename
    ensures !HasSuffix(filename, TemplateSuffix) ==> r == filename
  {
    if HasSuffix(filename, TemplateSuffix) then filename[..|filename| - |TemplateSuffix|] else filename
  }

  /** Only one suffix is removed. */
  lemma OutputPathStripsOnce()
    ensures OutputPath("values.yaml.template.template") == "values.yaml.template"
    ensures OutputPath("values.yaml") == "values.yaml"
  {
    assert HasSuffix("values.yaml.template.template", TemplateSuffix);
    assert !HasSuffix("values.yaml", TemplateSuffix) by {
      assert "values.yaml"[|"values.yaml"| - |TemplateSuffix|..] != TemplateSuffix by {
        assert "values.yaml"[2] != TemplateSuffix[0];
      }
    }
  }

  /** What a template is processed with. */
  datatype Processor = Replacement(d: Dialect) | TrueMustache | NoProcessor

  /** The `switch` on the kind: only `""`, `curly`, `mustache` and
      `_mustache` are handled. */
  function ProcessorOf(kind: string): (r: Processor)
    ensures r.NoProcessor? <==> kind !in {"", CurlyKind, MustacheKind, TrueMustacheKind}
  {
    if kind == "" || kind == CurlyKind then Replacement(Curly)
    else if kind == MustacheKind then Replacement(Mustache)
    else if kind == TrueMustacheKind then TrueMustache
    else NoProcessor
  }

  /** A kind `checkKind` lets through without defaulting it is still
      rejected at processing unless it is handled: `go` is listed among the
      kinds but has no processor. */
  lemma GoKindRejected()
    ensures GoKind in Kinds && !CheckKind(GoKind).1
    ensures ProcessorOf(CheckKind(GoKind).0) == NoProcessor
  {
  }

  /** The environment of one template: opening and reading it, creating its
      output, `processMustache`, and whether writing the output succeeds. */
  datatype TemplateIO = TemplateIO(opens: string -> bool,
                                   read: string -> Option<string>,
                                   canCreate: string -> bool,
                                   processMustache: (string, string, map<string, string>) -> (string, Option<string>),
                                   writes: (string, string) -> bool)

  /** The errors of one template and the output file it creates with the
      content written to it. */
  datatype Processed = Processed(errs: seq<string>, created: Option<string>, written: string)

  function OpenError(componentName: string, filename: string): string
  {
    "Unable to open `" + componentName + "` component template input `" + filename + "`"
  }

  function ReadError(componentName: string, filename: string): string
  {
    "Unable to read `" + componentName + "` component template content `" + filename + "`"
  }

  function CreateError(componentName: string, outPath: string): string
  {
    "Unable to open `" + componentName + "` component template output `" + outPath + "`"
  }

  function KindError(componentName: string, outPath: string, kind: string): string
  {
    "Error processing `" + componentName + "` component template `" + outPath + "`: unknown `" + kind + "` template kind"
  }

  function WriteError(componentName: string, outPath: string): string
  {
    "Error writting `" + componentName + "` component template output `" + outPath + "`"
  }

  /** The content of a template after substitution and its errors. */
  function Substituted(t: TemplateRef, content: string, l: Lookup, io: TemplateIO, p: Processor): (string, seq<string>)
    requires !p.NoProcessor?
  {
    match p
    case Replacement(d) =>
      var segs := Scan(d, content, 0);
      (Render(segs, Substitutor(l, d)), UnknownErrors(t.filename, UnknownVariables(l, d, Holes(segs))))
    case TrueMustache =>
      var (out, err) := io.processMustache(content, t.filename, l.kv);
      (out, if err.Some? then [err.value] else [])
  }

  /** `processTemplate` of one template. */
  function TemplateProcessed(t: TemplateRef, l: Lookup, io: TemplateIO): Processed
  {
    if !io.opens(t.filename) then Processed([OpenError(l.componentName, t.filename)], None, "")
    else
    match io.read(t.filename)
    case None => Processed([ReadError(l.componentName, t.filename)], None, "")
    case Some(content) =>
      var outPath := OutputPath(t.filename);
      if !io.canCreate(outPath) then Processed([CreateError(l.componentName, outPath)], None, "")
      else
        var p := ProcessorOf(t.kind);
        if p.NoProcessor? then Processed([KindError(l.componentName, outPath, t.kind)], Some(outPath), "")
        else
          var (out, errs) := Substituted(t, content, l, io, p);
          if |out| > 0 && !io.writes(outPath, out) then Processed(errs + [WriteError(l.componentName, outPath)], Some(outPath), out)
          else Processed(errs, Some(outPath), out)
  }

  /** A template of a kind without a processor yields exactly one error and
      an empty output file. */
  lemma UnknownKindOneError(t: TemplateRef, l: Lookup, io: TemplateIO)
    requires io.opens(t.filename) && io.read(t.filename).Some? && io.canCreate(OutputPath(t.filename))
    requires t.kind !in {"", CurlyKind, MustacheKind, TrueMustacheKind}
    ensures var r := TemplateProcessed(t, l, io);
            r.errs == [KindError(l.componentName, OutputPath(t.filename), t.kind)]
            && r.created == Some(OutputPath(t.filename)) && r.written == ""
  {
  }

  /** A curly or mustache template is written as the single replacement
      pass renders it, with one error per unknown variable (and one more if
      the write fails). */
  lemma ReplacementTemplate(t: TemplateRef, l: Lookup, io: TemplateIO, content: string)
    requires io.opens(t.filename) && io.read(t.filename) == Some(content) && io.canCreate(OutputPath(t.filename))
    requires ProcessorOf(t.kind).Replacement?
    ensures var d := ProcessorOf(t.kind).d;
            var segs := Scan(d, content, 0);
            var r := TemplateProcessed(t, l, io);
            var outPath := OutputPath(t.filename);
            && r.created == Some(outPath)
            && r.written == Render(segs, Substitutor(l, d))
            && r.errs == UnknownErrors(t.filename, UnknownVariables(l, d, Holes(segs)))
                         + (if |r.written| > 0 && !io.writes(outPath, r.written)
                            then [WriteError(l.componentName, outPath)] else [])
  {
  }

  /** The `switch` of `processTemplate` for a kind it handles. */
  method Substitution(t: TemplateRef, content: string, l: Lookup, io: TemplateIO, p: Processor)
    returns (outContent: string, errs: seq<string>)
    requires !p.NoProcessor?
    ensures (outContent, errs) == Substituted(t, content, l, io, p)
  {
    match p {
      case Replacement(d) =>
        var replaced;
        outContent, errs, replaced := ProcessReplacement(content, t.filename, l, d);
      case TrueMustache =>
        var res := io.processMustache(content, t.filename, l.kv);
        var err;
        outContent, err := res.0, res.1;
        errs := [];
        if err.Some? {
          errs := [err.value];
        }
    }
  }

  /** `processTemplate`, with the replacement pass run as
      `processReplacement`. */
  method ProcessTemplate(t: TemplateRef, l: Lookup, io: TemplateIO) returns (r: Processed)
    ensures r == TemplateProcessed(t, l, io)
  {
    if !io.opens(t.filename) {
      return Processed([OpenError(l.componentName, t.filename)], None, "");
    }
    var read := io.read(t.filename);
    if read.None? {
      return Processed([ReadError(l.componentName, t.filename)], None, "");
    }
    var content := read.value;
    var outPath := OutputPath(t.filename);
    if !io.canCreate(outPath) {
      return Processed([CreateError(l.componentName, outPath)], None, "");
    }
    var p := ProcessorOf(t.kind);
    if p.NoProcessor? {
      return Processed([KindError(l.componentName, outPath, t.kind)], Some(outPath), "");
    }
    var outContent, errs := Substitution(t, content, l, io, p);
    if |outContent| > 0 && !io.writes(outPath, outContent) {
      errs := errs + [WriteError(l.componentName, outPath)];
    }
    r := Processed(errs, Some(outPath), outContent);
  }
}
