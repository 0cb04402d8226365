# The resolution engine of the `hub` stack deployer, in Dafny

`hub` deploys a stack of components in order. This project models the bookkeeping done between components and proves properties of it:

- **The provides map.** A map from each capability to the components that provide it, plus the sentinels for the platform stack (`*platform*`) and the environment (`*environment*`).
- **Requirement resolution.** A component's `requires` are resolved against the provides map. The last provider wins, optional requirements are honoured, and setups run only when nothing optional is missing. This part also covers:
  - the stack-level `requires` checks and the process-wide memo of verified requirements;
  - the `lifecycle.requires.optional` declarations;
  - the parameters that switch an optional requirement off.
- **Captured outputs and requested stack outputs.**
  - Captured outputs are merged by qualified name, the last write winning.
  - Each requested output is resolved by one of three modes: a component-qualified lookup, `${...}` placeholder expansion, or a literal.
- **Component templates.**
  - Placeholders in the template globs are expanded.
  - Template kinds are defaulted.
  - Entries are split into plain files and globs, and `.template` suffixes are handled.
  - Each `${var}` / `{{var}}` placeholder is replaced in a single pass. The `/base64` and `/unbase64` encodings follow section 4 of RFC 4648 (standard alphabet, with padding), and unknown variables become `(unknown)`.
  - Mustache-compatible key aliases are added.
- **The argument splitter of `hub extensions`.**

Where the Go code updates state in place, the Dafny model is imperative.

- **Classes.** The provides map, the captured outputs and the `requirementsVerified` memo are classes whose methods change their fields.
- **Loops.** The loops are methods with invariants. Each method is proved equal to a specification function, a left fold over its input. Lemmas state what the source promises about those functions.
- **Recursive scanner.** The two placeholder regular expressions are a hand-written scanner (`Placeholders.Scan`) for `[a-zA-Z0-9_.|:/-]+` between `${`/`}` or `{{`/`}}`.

Modules:

- **`Wrappers`, `Util`, `Strings`:** `Option`/`Result`, and the few `util` and `strings` helpers the engine uses.
- **`Base64`:** encoding and decoding, with the round trip.
- **`Segments`:** a string as a replace-all pass sees it.
- **`Provides`:** `lifecycle/provides.go`.
- **`Requirements`:** `lifecycle/requirement.go`.
- **`Parameters`:** `parameters/output.go`.
- **`Placeholders`:** the substitution part of `lifecycle/template.go`.
- **`Templates`:** the setup, scanning and dispatch part of `lifecycle/template.go`.
- **`Extensions`:** `cmd/extensions.go`.

Functions that the engine calls but whose code is not part of this model are parameters of arrow type, so every result holds for any behaviour of theirs. They are:

- `QName`, `OutputQualifiedName`, `ParametersKV`, `OutputsKV`, `RequireExpansion`;
- `parameters.StripCurly`, `parameters.CurlyReplacement`, `parameters.FindValue`, `parameters.ExpandParameter`;
- `util.Errors`, the requirement checker, `path.Join`, `os.Stat`, `filepath.Glob`, file reading and writing, and `processMustache`.

`util.Omit`, `util.AppendMapList` and `util.Contains` are given their evident definitions. Go's map iteration order is unspecified. Where a result depends on it, the order is an explicit `order` parameter that lists each key exactly once (`Util.Enumerates`). `log.Fatalf` and `os.Exit` become error results or a `fatal`/`exited` flag.

## Model

| member | source | states |
|---|---|---|
| Provides.ProvidesMap.MergePlatformProvides | src/hub/lifecycle/provides.go:31-42 | the new map is `PlatformMerged` of the old map and the platform provides |
| Provides.PlatformMergedAt | src/hub/lifecycle/provides.go:31-42 | a capability is a key iff it was a key or is listed; its list is the old list followed by one `*platform*` per listing, with no de-duplication; an unlisted capability is unchanged |
| Provides.ProvidesMap.Provide | src/hub/lifecycle/provides.go:67-77 | one capability: the component is appended to its providers unless already there, and a missing key becomes a singleton list |
| Provides.ProvidesMap.MergeProvides | src/hub/lifecycle/provides.go:44-78 | the process exits iff `kubernetes` is provided, its `dns.domain` output is missing and force is off; otherwise every capability is merged; on exit only the capabilities before `kubernetes` have been merged |
| Provides.AddProvider | src/hub/lifecycle/provides.go:67-76 | the component ends up in the list; the old list is kept as it is, or, when the component was missing, it is appended at the end; no duplicate is introduced |
| Provides.ProvidesMergedAt | src/hub/lifecycle/provides.go:47-78 | a provided capability holds the old providers in order, with the component added once at the end; any other capability is unchanged |
| Provides.ProvidesMergedRecords | src/hub/lifecycle/provides.go:67-77 | after the merge, every provided capability lists the component |
| Provides.ProvidesMergedIdempotent | src/hub/lifecycle/provides.go:70-76 | merging the same component and capabilities twice equals merging once |
| Provides.ProvidesMergedNoDuplicates | src/hub/lifecycle/provides.go:70-76 | if no list held a component twice before the merge, none does after it |
| Provides.AddProviderTwice | src/hub/lifecycle/provides.go:70-76 | adding a component that is already listed changes nothing |
| Requirements.RequirementsMemo.constructor | src/hub/lifecycle/requirement.go:142 | the memo starts empty and valid |
| Requirements.RequirementsMemo.CheckRequire | src/hub/lifecycle/requirement.go:144-184 | known iff the term is in {azure, aws, gcp, gcs, kubectl, kubernetes, helm, vault}; a memoised or unknown term runs no check and leaves the memo as it was; otherwise the check runs once, and the term is memoised only when the check passes |
| Requirements.RequirementsMemo.CheckStackRequires | src/hub/lifecycle/requirement.go:116-140 | the result is `StackRequires` of the terms. The new memo is `checkRequire` applied to the terms visited, which are all of them or those up to the first fatal one. The memo stays valid and only grows |
| Requirements.MemoAfterOnce | src/hub/lifecycle/requirement.go:144-184 | when only the last of a list of terms may fail its check, the checks added to the log are the known terms of the list not memoised before, each run once. The terms memoised are the old ones plus the known terms whose check passes |
| Requirements.StackChecksOnce | src/hub/lifecycle/requirement.go:116-140 | the stack check runs each external check at most once, and never for a term memoised before it |
| Requirements.StackRequiresAt | src/hub/lifecycle/requirement.go:116-140 | the check fails iff some term is fatal, that is a known term failing its check or an unknown term that is not optional; otherwise the keys are exactly the terms that are not skipped, each mapped to `[*environment*]`, and a skipped term is unknown and optional |
| Requirements.StackRequiresStops | src/hub/lifecycle/requirement.go:121-128 | the first fatal term ends the check with its error |
| Requirements.RequirementsMemo.PrepareComponentRequires | src/hub/lifecycle/requirement.go:26-68 | the unmet list, the error and the setups performed are those of `Resolve`, and the error names the component and its requirements. Setups run only when there is no error and no unmet optional requirement, in order, stopping at the first fatal one. The new memo is `checkRequire` applied to the checked requirements of the setups performed; when none is performed, the memo is unchanged |
| Requirements.ResolveFails | src/hub/lifecycle/requirement.go:34-48 | resolution fails iff some requirement is unprovided (no entry or an empty list) and not optional for the component, by name or by `*` |
| Requirements.ResolveStops | src/hub/lifecycle/requirement.go:46-48 | the first such requirement ends resolution: it is the failure, and whatever follows it is ignored |
| Requirements.ResolveUnmet | src/hub/lifecycle/requirement.go:36-45 | when resolution succeeds, the unmet list is every unprovided requirement, in `requires` order |
| Requirements.ResolveSetups | src/hub/lifecycle/requirement.go:53-59 | when resolution succeeds, there is one setup per provided requirement, in order, and its provider is the last of the provider list |
| Requirements.ProvidedIn | src/hub/lifecycle/requirement.go:34-60 | the provided requirements, in order |
| Requirements.UnprovidedIn | src/hub/lifecycle/requirement.go:34-45 | the unprovided requirements, in order |
| Requirements.RequirementsMemo.RunSetups | src/hub/lifecycle/requirement.go:62-92 | the setups run in order, up to and including the first one whose check fails fatally. The new memo is `checkRequire` applied to the checked requirements of the setups run |
| Requirements.SetupChecksOnce | src/hub/lifecycle/requirement.go:62-92 | the setup loop runs each external check at most once, and never for a requirement memoised before it |
| Requirements.FirstFailure | src/hub/lifecycle/requirement.go:70-92 | the index of the first fatal setup; no setup before it is fatal |
| Requirements.SetupRunAt | src/hub/lifecycle/requirement.go:62-66 | the run is a prefix of the setups; it is fatal iff some setup fails, and then it ends at the first one that fails |
| Requirements.SetupRunStops | src/hub/lifecycle/requirement.go:78-82 | a failing setup with no failure before it is the last one to run |
| Requirements.NoEnvironmentClean | src/hub/lifecycle/requirement.go:297-308 | no list of the result holds `*environment*` or is empty; a capability is kept iff it had a provider other than the environment, with that list minus the environment |
| Requirements.NoEnvironmentProvides | src/hub/lifecycle/requirement.go:297-308 | whatever order the keys are visited in, the result is `NoEnvironment` of the input |
| Requirements.Target | src/hub/lifecycle/requirement.go:312-320 | a term without a colon targets `*`; `req:comp`, split at the first colon and with the colon strictly inside, targets `comp` under `req`; a term is ignored iff its first colon is at either end |
| Requirements.TunedAt | src/hub/lifecycle/requirement.go:310-323 | a requirement is a key iff some declaration targets it, and its list holds those targets in declaration order |
| Requirements.ParseRequiresTuning | src/hub/lifecycle/requirement.go:310-323 | the map built equals `Tuned` of the declarations |
| Requirements.FalseMatchesAt | src/hub/lifecycle/requirement.go:334-344 | a qualified name is reported iff some parameter named after the term, unscoped or scoped to the component, has that name and one of the values "", "false", "0", "no", "(unknown)" |
| Requirements.ForTermAt | src/hub/lifecycle/requirement.go:329-351 | a term with a `.` reports, for each entry of its list that is `*` or the component, the false matches, and also the bare term when no such parameter exists and the entry is not `*`; a term without a `.` reports nothing |
| Requirements.FalseParametersAt | src/hub/lifecycle/requirement.go:327-354 | a name is reported iff some visited term reports it, whatever the iteration order |
| Requirements.ScanParameters | src/hub/lifecycle/requirement.go:333-345 | the false matches of the term, and whether any matching parameter exists |
| Requirements.ScanOptionalFor | src/hub/lifecycle/requirement.go:331-350 | what one term reports, equal to `ForTerm` |
| Requirements.CalculateOptionalFalseParameters | src/hub/lifecycle/requirement.go:327-354 | with the terms visited in `order`, the result is `FalseParameters` |
| Parameters.CapturedOutputs.constructor | src/hub/parameters/output.go:20 | an empty map of captured outputs |
| Parameters.CapturedOutputs.MergeOutput | src/hub/parameters/output.go:29-41 | the output is stored under its qualified name, and no other key changes; the overwrite warning fires iff the key exists, the values differ, the current value is non-empty and it is not a plain value being overwritten by a `secret` kind |
| Parameters.CapturedOutputs.MergeOutputs | src/hub/parameters/output.go:13-17 | the map after merging the values of `toMerge` in iteration order |
| Parameters.OutputsFromList | src/hub/parameters/output.go:19-27 | a fresh map equal to merging all the lists, one after the other, into an empty map |
| Parameters.LastWriteWins | src/hub/parameters/output.go:13-41 | a key holds the last output merged under it; a key that no merged output has is unchanged |
| Parameters.MergedStaysWellKeyed | src/hub/parameters/output.go:29-41 | merging keeps every output under its own qualified name |
| Parameters.MergeWellKeyedMap | src/hub/parameters/output.go:13-17 | merging a well-keyed map, in any iteration order, gives the old map overridden by it |
| Parameters.InOrder | src/hub/parameters/output.go:14 | the values of the map, in the order the keys are visited |
| Parameters.ExpandOneCases | src/hub/parameters/output.go:52-127 | it works in one of three modes. A name with `:` takes its value verbatim from `OutputsKV`, and the output is kept iff the key exists; an empty kind is replaced by an inherited one. A value with placeholders is kept iff every match resolved, and aborts iff some match resolves to an unexpanded value, with the error naming the first such match. A literal is kept unchanged. A kept output copies `Name` and `Brief` |
| Parameters.PropagatedKindOfWellKeyed | src/hub/parameters/output.go:78-87 | the kind inherited by a component-qualified request is the kind of the captured output under that name, or empty |
| Parameters.InheritKind | src/hub/parameters/output.go:78-87 | the kind the propagation loop finds, equal to `PropagatedKind` |
| Parameters.FoundCount | src/hub/parameters/output.go:90-118 | the number of matches counted as found is at most the number of matches |
| Parameters.FoundCountAll | src/hub/parameters/output.go:118 | found equals invoked (the output is kept) iff every match resolved to a value |
| Parameters.UnexpandedHole | src/hub/parameters/output.go:110-112 | one match that resolves to a value still needing expansion aborts the whole pass |
| Parameters.FirstUnexpandedHole | src/hub/parameters/output.go:90-112 | the match at which the pass stops is the first match of the value, in order, that resolves to an unexpanded value |
| Parameters.SubstitutePlaceholders | src/hub/parameters/output.go:89-118 | it aborts iff some match resolves to an unexpanded value. The error is the source's text: the output's name, its value (`${name}` when it was empty), and the variable and expansion of the first such match, followed by "This is surely a bug.". Otherwise it returns the rendered value and whether every match was found. The lookup goes to outputs, then parameters, and a CEL match gives `(unsupported)` |
| Parameters.ExpandRequestedOutputs | src/hub/parameters/output.go:43-131 | the result equals `ExpandAll` of the requested outputs; `mustExist` does not enter the result |
| Parameters.ExpandAllFails | src/hub/parameters/output.go:111 | the run aborts iff some requested output does |
| Parameters.ExpandAllKeepsOrder | src/hub/parameters/output.go:124-127 | the expanded outputs are the kept requested outputs, taken as an increasing subsequence in their order; every request left out was dropped |
| Parameters.CollectFails | src/hub/parameters/output.go:111 | a pass over the requests that stops at the first abort fails iff one element aborts |
| Parameters.CollectKeepsOrder | src/hub/parameters/output.go:124-127 | such a pass, when it succeeds, keeps exactly the `Some` results, in order |
| Parameters.CollectStep | src/hub/parameters/output.go:124-127 | one more request that does not abort appends its kept output, if any |
| Parameters.CollectStops | src/hub/parameters/output.go:111 | once a request aborts, later requests do not change the result |
| Placeholders.MatchEndIsMatch | src/hub/lifecycle/template.go:333-334 | what the scanner finds at a position is a whole match: the opening, one or more class characters, the closing |
| Placeholders.ScanFlatten | src/hub/lifecycle/template.go:359 | the scanner's segments put back together are the template, with nothing lost and nothing added |
| Placeholders.ScanHoles | src/hub/lifecycle/template.go:333-334 | every hole the scanner finds is a match of the dialect's pattern |
| Placeholders.MatchEndComplete | src/hub/lifecycle/template.go:333-334 | any match that starts at a position is the one the scanner finds there, so a position starts at most one match |
| Placeholders.ScanLeftmost | src/hub/lifecycle/template.go:333-359 | a cutting of the template is the scanner's iff each hole is a match at its position and each single character sits where no match starts, which is the regular expression's leftmost-first search |
| Placeholders.StripOfMatch | src/hub/lifecycle/template.go:337-343 | stripping a match gives its non-empty variable: the match is the opening, the variable and the closing |
| Placeholders.ValueEncodingSplits | src/hub/lifecycle/template.go:345-351 | with an encoding, the name, a `/` and the encoding give back the variable, and the name is non-empty and has no `/`; without one, the name is the whole variable; the encoding is empty iff there is no `/` or the first `/` is at either end |
| Placeholders.EncodingRoundTrip | src/hub/lifecycle/template.go:377-386 | `/unbase64` of a `/base64` value gives back the value |
| Placeholders.EncodingTrims | src/hub/lifecycle/template.go:387-393 | for every value, no encoding trims it (` on ` becomes `on`), and an unknown encoding leaves it untrimmed |
| Placeholders.EncodingBase64 | src/hub/lifecycle/template.go:377-379 | `base64` encodes the value (`hello` becomes `aGVsbG8=`) |
| Placeholders.Unbase64Decodes | src/hub/lifecycle/template.go:380-386 | `unbase64` yields the decoding of any value that decodes |
| Placeholders.EncodingUnbase64 | src/hub/lifecycle/template.go:380-386 | `unbase64` takes `aGVsbG8=` back to `hello` |
| Placeholders.EncodingUndecodable | src/hub/lifecycle/template.go:380-386 | `unbase64` leaves every value that does not decode unchanged (`a`, for example) |
| Placeholders.UnknownVariablesAt | src/hub/lifecycle/template.go:363-367 | a variable is reported iff some match names it and the lookup does not know it; there are no errors iff every match is known; there are at most as many errors as matches |
| Placeholders.UnknownAmongAt | src/hub/lifecycle/template.go:363-367 | the names reported are exactly the unknown ones |
| Placeholders.UnknownErrorsAt | src/hub/lifecycle/template.go:365 | one error text per unknown variable, in order |
| Placeholders.NoMatchUnchanged | src/hub/lifecycle/template.go:359-397 | a template without a match comes out unchanged |
| Placeholders.SubstituteMatch | src/hub/lifecycle/template.go:360-394 | the replacement of one match, and the variable it names; an unknown variable is replaced by `(unknown)` under the match's encoding |
| Placeholders.ProcessReplacement | src/hub/lifecycle/template.go:353-401 | the output is the template with every match replaced, and the text between matches copied; there is exactly one error per unknown match, in order; something was replaced iff there was a match |
| Placeholders.Alias | src/hub/lifecycle/template.go:406 | the alias has no `.` and the same length as the key |
| Placeholders.WithAliasesAt | src/hub/lifecycle/template.go:403-410 | every key is kept; a key with a `.` keeps its value; each alias is bound to the value of a key it aliases; nothing else changes |
| Placeholders.AddMustacheCompatibleBindings | src/hub/lifecycle/template.go:403-410 | with the keys visited in `order`, the result equals `WithAliases` |
| Base64.DecodeEncode | src/hub/lifecycle/template.go:379-385 | decoding the standard encoding of a byte string gives the byte string |
| Base64.HelloEncodes | src/hub/lifecycle/template.go:379 | `hello` encodes to `aGVsbG8=` |
| Base64.HelloDecodes | src/hub/lifecycle/template.go:381-385 | `aGVsbG8=` decodes to `hello` |
| Templates.CheckKind | src/hub/lifecycle/template.go:239-248 | the kind is never empty: `""` becomes `curly` and any other kind is kept, even an unrecognised one; a warning is due iff the kind is non-empty and not among the listed kinds |
| Templates.ProcessorOf | src/hub/lifecycle/template.go:304-320 | a template has no processor iff its kind is not `""`, `curly`, `mustache` or `_mustache` |
| Templates.GoKindRejected | src/hub/lifecycle/template.go:31 | `go` is a listed kind that is not warned about, but it has no processor |
| Templates.MaybeExpandCases | src/hub/lifecycle/template.go:100-109 | a glob without placeholders is kept; otherwise it is expanded as the parameter `templates.<section>.<index>`, and fails iff that expansion reports errors |
| Templates.ExpandGlobsAt | src/hub/lifecycle/template.go:127-140 | the list expands iff every glob does, each at its own index; the lengths and order are kept, as is every glob without placeholders; a failure is that of the first glob that fails |
| Templates.ExpandExtrasShape | src/hub/lifecycle/template.go:141-168 | the extras keep their number, order and kinds, and each extra keeps the lengths of its lists |
| Templates.ExpandedSetupShape | src/hub/lifecycle/template.go:117-171 | an expanded setup keeps the kind; the lengths of the files, directories and extras; each extra's shape; and every glob that needs no expansion |
| Templates.ExpandGlobsUnchanged | src/hub/lifecycle/template.go:100-103 | globs without placeholders come back unchanged |
| Templates.ExpandGlobList | src/hub/lifecycle/template.go:127-133 | the loop over one list, equal to `ExpandGlobs` |
| Templates.ExpandGlobsStops | src/hub/lifecycle/template.go:128-131 | after the first failure, later globs do not change the result |
| Templates.ExpandTargetList | src/hub/lifecycle/template.go:142-166 | one extra: its files under `<prefix>.files`, then its directories under `<prefix>.directories`, returning on the first failure, equal to `ExpandTarget` |
| Templates.ExpandParametersInTemplateSetup | src/hub/lifecycle/template.go:117-171 | the result equals `ExpandedSetup`: files, then directories, then each extra's, returning on the first failure |
| Templates.ExpandExtrasStops | src/hub/lifecycle/template.go:152-163 | after the first failing extra, later extras do not change the result |
| Templates.PlainPath | src/hub/lifecycle/template.go:191-197 | `.template` is appended iff the entry lacks it and that file exists; otherwise the path is the joined path |
| Templates.NonGlobs | src/hub/lifecycle/template.go:190 | the entries that are not globs, that is without `*` or `[` |
| Templates.PlainFilesAt | src/hub/lifecycle/template.go:188-202 | exactly the entries that are not globs are taken, one reference each, in order, with the target's kind |
| Templates.AppendPlainFiles | src/hub/lifecycle/template.go:188-202 | the references appended equal `PlainFiles` |
| Templates.DirMatchesAt | src/hub/lifecycle/template.go:212-229 | under one directory, a reference is taken iff it is a match of a glob entry, with the target's kind |
| Templates.ScannedAt | src/hub/lifecycle/template.go:211-231 | a reference is found iff it is a match of a glob entry under one of the directories |
| Templates.ScanDirectory | src/hub/lifecycle/template.go:212-230 | the inner loop, equal to `DirMatches` |
| Templates.ScanEach | src/hub/lifecycle/template.go:211-231 | the outer loop, equal to `Scanned` of the directories in order |
| Templates.ScanDirectories | src/hub/lifecycle/template.go:204-233 | the result equals `Scanned` over the defaulted lists: `*` when there are directories but no files, and the base directory when there are no directories |
| Templates.TargetTemplatesKind | src/hub/lifecycle/template.go:176-183 | every reference of a target has the target's checked kind |
| Templates.ExtraTemplatesKinds | src/hub/lifecycle/template.go:180-184 | every reference of an extra has that extra's checked kind |
| Templates.SetupTemplatesKinds | src/hub/lifecycle/template.go:173-186 | no template found has an empty kind |
| Templates.AppendTarget | src/hub/lifecycle/template.go:176-178 | one target: its plain entries, then its globs |
| Templates.AppendExtras | src/hub/lifecycle/template.go:180-184 | the extras, in order |
| Templates.ScanTemplates | src/hub/lifecycle/template.go:173-186 | the result equals `SetupTemplates`, and every template found has a non-empty kind |
| Templates.OutputPath | src/hub/lifecycle/template.go:285-288 | one trailing `.template` is removed: the output path followed by the suffix is the template's name; a name without the suffix is kept |
| Templates.OutputPathStripsOnce | src/hub/lifecycle/template.go:285-288 | `values.yaml.template.template` becomes `values.yaml.template` |
| Templates.UnknownKindOneError | src/hub/lifecycle/template.go:268-319 | a template that opens and reads, whose output can be created, and of a kind with no processor yields exactly one error, and an output file that was created but not written |
| Templates.ReplacementTemplate | src/hub/lifecycle/template.go:268-327 | a curly or mustache template that opens and reads, and whose output can be created, is written as the replacement pass renders it. The errors are one per unknown variable, in order, followed by the write error exactly when there is content and writing it fails |
| Templates.Substitution | src/hub/lifecycle/template.go:304-315 | the `switch` for a kind with a processor: the replacement pass for the curly and mustache kinds; for the true mustache kind, the `processMustache` output with its error, if any, as the one error; equal to `Substituted` |
| Templates.ProcessTemplate | src/hub/lifecycle/template.go:266-330 | the errors, the created output and the content written equal `TemplateProcessed`. A failure to open, to read or to create the output ends with that failure's own single error |
| Extensions.ArbitraryExtension | src/hub/cmd/extensions.go:68-87 | it succeeds iff the first argument that is not a flag exists and is non-empty. On success that argument is the extension, and the arguments passed on are the others: the flags before it, then everything after it. Otherwise the error is the missing-extension message |
| Extensions.InvocationIsPermutation | src/hub/cmd/extensions.go:71-81 | removing the extension leaves every other argument exactly once |
| Extensions.ExtensionsDir | src/hub/cmd/extensions.go:90-96 | more than one argument is an error, with the caller's usage text; otherwise the folder is the argument or `""` |
| Extensions.ExtensionsInstall | src/hub/cmd/extensions.go:89-100 | more than one argument is an error, with the `Install` command's own text; otherwise the folder is the argument or `""` |
| Extensions.ExtensionsUpdate | src/hub/cmd/extensions.go:102-113 | more than one argument is an error, with the `Update` command's own text; otherwise the folder is the argument or `""` |

## Left out

- **I/O.** File reading and writing, `os.Stat`, `filepath.Glob`, `path.Join`, process execution and environment variables are oracles, given as parameters. `checkStat` and file modes (`Chmod`, with its `Stat`) are not modelled. The outcome of the external prerequisite check is a fixed oracle: it runs the same way each time.
- **Orchestration.** `processTemplates` is not modelled: it calls `expandParametersInTemplateSetup`, `scanTemplates` and `checkStat`, overlays the outputs on the parameters, and adds the mustache aliases when some template is of the `mustache` kind.
- **Libraries.** `processMustache` is an oracle, because it wraps an external mustache library. `kube.SetupKubernetes`, the `kubectl`/`kubernetes` setup, is a foreign call; that setup never fails in the model.
- **Diagnostics.** Logging, warnings and `WarnOnce` are left out. Error texts are the source's texts up to the data that is not modelled. They leave out the underlying Go error value (`: %v`) and, in the unprovided-requirement error, the list of known provides that `util.SprintDeps` prints.
- **Strings.** A Go string is a Dafny `string` in which each character stands for one byte. `strings.TrimSpace` trims ASCII white space only; the Unicode spaces that Go also trims are not modelled. The Base64 round trip is stated for strings whose characters are all bytes.
- **Regular expressions.** The Go regular-expression engine is replaced by the scanner for the two fixed patterns. Because `}` is outside the character class, a position starts at most one match. The scanner's cutting is proved to be the leftmost-first one (`Placeholders.ScanLeftmost`). `parameters.CurlyReplacement` is not part of this model; it is the segment oracle of `Parameters.Helpers`.
- **Placeholders.AddMustacheCompatibleBindings:** it returns the new map instead of updating the caller's map in place, so whether two holders share that map is not modelled.
- **Requirements.RequirementsMemo.CheckRequire:** the per-term behaviour of different checkers (binary checks, version warnings, the Azure and GCP credential checks) is reduced to one verdict per term.
- **Provides.ProvidesMap.MergeProvides:** `os.Exit` is the `exited` result. The state left at that point is stated, and nothing after it runs.
- **Parameters.ExpandRequestedOutputs:** `log.Fatalf` on a substitution that still needs expansion is the `Err` result. `mustExist` only selects warnings, so it does not enter the model's result.
- **Cobra wiring.** The cobra command wiring and the `ext.RunExtension`, `ext.Install` and `ext.Update` calls are left out. The model returns what would be passed to them.
- **Other files.** `api/environment.go` (an HTTP client) and `util/print.go` (logging helpers) are not part of this model.
