# artifact build pipeline, modelled in Dafny

`artifact` decides which entrypoints (Go `main` packages under a command prefix) of a
repository need to be rebuilt after a git change, and optionally rebuilds them. Its
builder runs six actions in order over a shared context:

1. **ChangesetIdentification**: runs `git diff-tree` over the configured range and stores the changed files under `"changes"`.
2. **EntrypointIdentification**: stores a list under `"entrypoints"`. With SkipNested the list holds the single path `Join(WorkingDirectory, Prefix)`. Otherwise it holds `Join(Prefix, name)` for every subdirectory `name` of that path; these entries do not include the working directory.
3. **EntrypointDependencyIdentification**: runs `go list` for every entrypoint and keeps the first-party packages, under `"dependencies"`.
4. **ModifiedDependencies**: reduces every change to its directory and selects the entrypoints that depend on one, under `"targets"`.
5. **OutputDependencies**: with `txt`, publishes the targets as `"rebuilds"`; with `json`, prints them and drops the context.
6. **RebuildTargets**: runs the build command template once per target, unless this is a dry run, and stores the outputs under `"build-logs"`.

The driver runs each action's precheck and then the action itself. It stops at the first
error, and at the end returns the `"rebuilds"` list.

The model is functional at its core and imperative where the Go code loops:

- Every action is a datatype holding its configuration. Its members `Precheck` and `Do` are functions and serve as the specification.
- Wherever the Go code loops, a method reproduces the loop (`Perform`, `CollectSubdirectories`, `FilterFirstParty`, `CollectDependencies`, `BuildChangeSet`, `CollectTargets`, `Builder.Run`). Each method is proved equal to its specification function, and the promised properties are lemmas about those functions.
- The outside world is a `World` value. It supplies the result of running a process (working directory plus argv), the outcome of opening, statting and listing a path, and the order in which Go's `range` visits the keys of a map. Lemmas about map iteration hold for every order that lists each key once.
- The context is `Nil | Live(values)`. `Nil` is Go's nil context, which the `json` output branch returns. A later `ctx.Value` on it is a nil-pointer panic, modelled as the error `NilContextPanic`. A later `context.WithValue` on it panics with "cannot create context from nil parent", modelled as `NilParentPanic`.

Modules: `Wrappers` (Option, Result), `Strings` (the `strings` functions used),
`Paths` (`path.Dir`, `filepath.Join`, `makeLocalPath`), `Env` (git range lookup),
`Pipeline` (context, errors, world), one module per stage, and `Driver`.

A note on the json branch: the natural reading is that a json run fails at the driver's
final `"rebuilds"` lookup. In the code, however, `OutputDependencies.Do` returns a nil
context, so the next action to touch the context panics. In the standard pipeline that is
`RebuildTargets.Do`, after its precheck has passed. The model follows the code:
`Driver.JsonRunFails` proves that a run with a `json` output stage never returns a
rebuild list, whichever of these failures ends it.

A note on working directories: `go list` and the build command both run inside
`WorkingDirectory`. `go list` receives its entrypoint as `./<entrypoint>`; the build
command receives it as `./<entrypoint>/`, since `makeLocalPath` adds a trailing
separator. A nested entrypoint `<prefix>/<name>` is relative to the working directory,
so `go list` resolves it to `<wd>/<prefix>/<name>`. The skip-nested entrypoint already
starts with the working directory, so `go list` resolves it to `<wd>/<wd>/<prefix>`:
the working directory is named twice. The two agree only when the working directory
names the current directory (such as "" or "."). The model keeps this behaviour as
written. `Driver.ListedPackageDirectory` states both resolutions for clean relative
paths.

## Model

| member | source | states |
|---|---|---|
| Env.FindValueFromEnv | builder/builder.go:31-38 | succeeds exactly when some listed variable has non-empty content; then returns the content of the first such variable; otherwise returns "" and false |
| Env.GetGitRangeVal | builder/builder.go:56-63 | a non-empty flag wins; otherwise the first non-empty listed variable; the result is "" exactly when the flag and every listed variable are empty |
| Driver.FromFlags | builder/builder.go:79-132 | the standard pipeline is exactly six actions in the order changeset, entrypoints, dependencies, modified, output, rebuild |
| Driver.Builder.Run | builder/builder.go:136-157 | the loop over the actions (precheck, then the action, stop at the first error, then the final "rebuilds" lookup) returns exactly the result of the fold `RunSpec` |
| Driver.ExecAppend | builder/builder.go:138-149 | running a+b is running a and then b from the context a left, or a's error |
| Driver.ErrorStopsRun | builder/builder.go:138-149 | after an error, no later action changes the outcome: the run ends with that error |
| Driver.ExecStep | builder/builder.go:138-149 | action i runs only after actions before it succeeded, its precheck first, and its body only when the precheck passed |
| Driver.FirstErrorIsReturned | builder/builder.go:138-149 | a failed run returns, unchanged, the error of the first action whose step failed, every earlier step having succeeded |
| Driver.RunOutcome | builder/builder.go:151-156 | the run succeeds iff all actions succeed and the final context is live and maps "rebuilds" to a string list, returning that list; otherwise it returns the failing action's error, "no valid targets to rebuild determined" when "rebuilds" is missing, or the nil-context panic when the final context is nil |
| Driver.StepFromNilFails | builder/builder.go:173-483 | no action's precheck-and-do succeeds on the nil context |
| Driver.NilContextEndsRun | builder/builder.go:138-149 | once the context is nil, the next action fails |
| Driver.JsonOutputLeavesNothing | builder/builder.go:406-412 | with a json output action in the list, a run either fails or ends with the nil context |
| Driver.JsonRunFails | builder/builder.go:406-412 | a pipeline with json output never returns a rebuild list |
| Driver.TxtRunReturnsTargets | builder/builder.go:414-421 | in the standard pipeline with txt output, a successful run returns exactly the "targets" list that the impact stage stored |
| Driver.UnsetGitRangeFailsFirst | builder/builder.go:93-97 | a git range start unset in both the flag and the environment makes the standard run fail with "invalid git range", whatever the world holds |
| Driver.ListedPackageDirectory | builder/builder.go:238-302 | in the standard pipeline, with a clean relative working directory and prefix: the skip-nested entrypoint is `<wd>/<prefix>`, and `go list`, run in `<wd>`, resolves it to `<wd>/<wd>/<prefix>`; a nested entrypoint `<prefix>/<name>` resolves to `<wd>/<prefix>/<name>` |
| Driver.NoChangesFoundUnreachableAfterDiff | builder/builder.go:212-219 | after a successful diff, the entrypoint precheck never reports "no changes were found" |
| ChangesetStage.ChangesetIdentification.Precheck | builder/builder.go:173-178 | fails, with "invalid git range", iff either end of the range is empty |
| ChangesetStage.DiffLinesBecomeChanges | builder/builder.go:180-202 | a successful diff adds only "changes": a non-empty list of newline-free lines whose newline join is the diff output |
| ChangesetStage.DiffFailureIsSurfaced | builder/builder.go:194-197 | a failing diff fails the stage with the process error unchanged |
| EntrypointStage.PrecheckAccepts | builder/builder.go:212-233 | the precheck passes iff "changes" is a non-empty list and the joined prefix opens and stats as a directory; otherwise it reports the first failed check: missing "changes" gives "failed to find identified changesets", an empty list gives "no changes were found", an open or stat error is passed on unchanged, a non-directory gives "provided prefix must point to  directory", and the nil context panics |
| EntrypointStage.EntrypointIdentification.Perform | builder/builder.go:235-270 | the imperative stage equals `Do`: the skip-nested single path, the open/readdir errors, or the subdirectory list under "entrypoints" |
| EntrypointStage.CollectSubdirectories | builder/builder.go:258-266 | the listing loop yields exactly `Subdirectories(prefix, entries)` |
| EntrypointStage.SubdirectoriesMembers | builder/builder.go:258-266 | an entrypoint is found iff some directory entry joined to the prefix gives it |
| EntrypointStage.SubdirectoriesAppend | builder/builder.go:258-266 | listing order is preserved across a split of the listing |
| EntrypointStage.SubdirectoriesLieInPrefix | builder/builder.go:263 | for a clean relative prefix and plain names, every entrypoint's Dir is the prefix |
| EntrypointStage.SkipNestedIgnoresListing | builder/builder.go:238-243 | with SkipNested the result is the single path Join(WorkingDirectory, Prefix), independent of the filesystem |
| DependencyStage.EntrypointDependencyIdentification.Perform | builder/builder.go:284-327 | the imperative stage equals `Do`: "no valid entrypoints ..." without entrypoints, the first `go list` error, or the map under "dependencies" |
| DependencyStage.EntrypointDependencyIdentification.CollectDependencies | builder/builder.go:294-324 | the entrypoint loop yields exactly `DependencyMap(entrypoints, w)` |
| DependencyStage.FilterFirstParty | builder/builder.go:309-319 | the line loop yields exactly `FirstParty(lines, basename)` |
| DependencyStage.FirstPartyMembers | builder/builder.go:311-319 | a dep is kept iff it is some line starting with the basename, with basename+"/" trimmed |
| DependencyStage.FirstPartyAppend | builder/builder.go:311-319 | the filter preserves input order |
| DependencyStage.FirstPartyKeepsBareBasename | builder/builder.go:312-316 | a line equal to the basename is kept untrimmed |
| DependencyStage.DependencyFailureIsFinal | builder/builder.go:304-307 | after a failing `go list`, later entrypoints change nothing |
| DependencyStage.DependencyMapContents | builder/builder.go:321-323 | on success the map holds exactly the entrypoints with a non-empty filtered output, each with that output |
| DependencyStage.DependencyMapFailure | builder/builder.go:304-307 | on failure the error is that of the first entrypoint whose `go list` failed |
| ImpactStage.ModifiedDependencies.Perform | builder/builder.go:335-375 | the imperative stage equals `Do` |
| ImpactStage.BuildChangeSet | builder/builder.go:342-345 | the change set is the set of directories of the changes |
| ImpactStage.CollectTargets | builder/builder.go:352-362 | the nested loop with `break` yields exactly `Impacted(order, dependencies, changeSet)` |
| ImpactStage.ImpactedMembers | builder/builder.go:352-362 | an entrypoint is selected iff it is visited, has recorded deps, and one of them is in the change set |
| ImpactStage.ImpactedNoDuplicates | builder/builder.go:355-360 | each entrypoint is selected at most once |
| ImpactStage.ImpactIgnoresIterationOrder | builder/builder.go:353 | any two iteration orders of the map give the same targets as a multiset |
| ImpactStage.SameDirectorySameChange | builder/builder.go:344 | two changed files in the same directory are the same change |
| ImpactStage.ImpactOutcome | builder/builder.go:335-375 | the three errors; failure iff no entrypoint is affected; on success only "targets" changes, without duplicates, holding exactly the entrypoints with a dep equal to Dir(c) for some change c |
| OutputStage.OutputDependencies.Precheck | builder/builder.go:390-395 | accepts exactly "txt" and "json" |
| OutputStage.TxtPublishesTargets | builder/builder.go:414-421 | with txt, "rebuilds" equals "targets" and every other key is unchanged |
| OutputStage.JsonDropsContext | builder/builder.go:406-412 | with json, the stage returns the nil context and no error |
| RebuildStage.RebuildTargets.Precheck | builder/builder.go:430-437 | rejects an empty command ("must provide build command") and one lacking {{entrypoint}}; accepts exactly the others |
| RebuildStage.RebuildTargets.Perform | builder/builder.go:443-483 | the imperative loop (dry-run `continue`, early return on failure) equals `Do` |
| RebuildStage.BuildFailureIsFinal | builder/builder.go:475-478 | after a failing build, later targets are never built |
| RebuildStage.DryRunSpawnsNothing | builder/builder.go:459-461 | a dry run does not depend on process results, and "build-logs" is the empty map |
| RebuildStage.BuildLogsContents | builder/builder.go:475-479 | a successful real run holds one log per target, the output of that target's command |
| RebuildStage.BuildLogsFailure | builder/builder.go:475-478 | a failed run is a real run reporting the first failing target's error |
| RebuildStage.CommandNamesTarget | builder/builder.go:451-468 | the command line contains "./target/", and the argv joined by spaces is that command line |
| Paths.LocalPathNamesTarget | builder/builder.go:439-442 | the local path of a clean relative target cleans back to the target |
| Paths.DirOfChild | builder/builder.go:344 | the Dir of a file in a clean relative directory is that directory |
| Paths.DirOfBareName | builder/builder.go:344 | a path without a separator, "" included, lies in "." |
| Paths.DirIgnoresFileName | builder/builder.go:344 | two files under the same directory text have the same Dir |
| Paths.CleanRelativeIsClean | builder/builder.go:238 | a clean relative path is unchanged by cleaning |
| Paths.JoinChild | builder/builder.go:263 | joining a clean relative prefix and a plain name appends "/name", and the result is clean relative |
| Paths.DirOfJoin | builder/builder.go:263 | Dir undoes Join |
| Strings.Split | builder/builder.go:198 | the split has at least one piece and no piece holds the separator |
| Strings.JoinSplit | builder/builder.go:198 | joining the pieces of a split with the separator gives back the input |
| Strings.SplitJoin | builder/builder.go:309 | splitting a join of separator-free pieces gives back the pieces |
| Strings.SplitAround | builder/builder.go:465 | splitting around one separator splits each side independently |
| Strings.TrimPrefix | builder/builder.go:316 | a present prefix is removed, leaving the rest; otherwise the text is unchanged |
| Strings.ReplaceAllAbsent | builder/builder.go:452-456 | a template without the pattern is unchanged |
| Strings.ReplaceAllInserts | builder/builder.go:452-456 | a template with the pattern contains the replacement afterwards |
| Strings.ReplaceAllFirstOccurrence | builder/builder.go:452-456 | the leftmost occurrence is replaced, the text before it is kept, and replacement continues on the rest after the occurrence, so every occurrence is replaced |
| Strings.ReplaceAllSkips | builder/builder.go:452-456 | text that does not contain the pattern's first character is copied unchanged |
| Strings.ReplaceAllTrailing | builder/builder.go:452-456 | text that does not contain the pattern's first character, followed by the pattern, becomes that text followed by the replacement |
| RebuildStage.CommandSubstitutesPlaceholder | builder/builder.go:451-456 | the first {{entrypoint}} becomes "./target/", the text before it is kept, and the rest is substituted the same way; with a single placeholder, the rest is kept unchanged |
| RebuildStage.BuildCommandFromWords | builder/builder.go:451-468 | a template of words free of spaces and of '{', followed by " {{entrypoint}}", with a target free of spaces, runs those words as the program and its arguments, followed by the argument "./target/" (a target containing a space would be split into several arguments) |
| RebuildStage.BuildCommandExample | builder/builder.go:451-468 | "go build -o out {{entrypoint}}" with target "cmd/foo" runs `go build -o out ./cmd/foo/` |
| Paths.JoinCleanRelative | builder/builder.go:238 | joining two clean relative paths puts one separator between them, and the result is clean relative |
| Paths.JoinDotRelative | builder/builder.go:300-302 | "./b" taken in directory a, for clean relative a and b, names a/b |

## Left out

- Running `git diff-tree`, `go list` and the build command: the result of each process is an input (`World.exec`), given the exact working directory and argv.
- `os.Open`, `Stat` and `Readdir`: their outcomes are an input (`World.fs`).
- Go's map iteration order: an input (`World.order`). Properties about it are stated for every order that lists each key once, and the order of "targets" is not fixed.
- Process output: modelled as text rather than raw bytes, and "build-logs" as a map of strings.
- Logging, terminal styling, and the printing of the json targets: these are presentation only. `json.Marshal` of a string list cannot fail, so its error branch is not modelled.
- Flag parsing in `NewBuilderFromCLI` and the command definitions in `cmd/`: only the wiring of the six actions and the git-range fallback are kept (`Driver.FromFlags`).
- Paths.Dir, Paths.Join: cleaning is modelled for paths without `..` segments, with `/` as the only separator. The lemmas about them assume clean relative paths.
- Strings.ReplaceAll: defined for a non-empty pattern only, which is the one the source uses (`{{entrypoint}}`).
- Go panics are modelled as errors rather than as an abort of the program: `NilContextPanic` for `ctx.Value` on the nil context, and `NilParentPanic` for `context.WithValue` on it.
- The filesystem and the process results are a single snapshot, because `World.fs` and `World.exec` are functions. Two opens of the same path (the precheck's and the action's) always agree, as do two runs of the same command in the same directory. Changes to the filesystem between the two are not modelled.
