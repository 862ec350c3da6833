/** What the stages of the build pipeline share: the loosely typed context threaded from
    stage to stage, the errors a stage can return, and the outside world a stage consults
    (processes, the filesystem, the iteration order of Go maps). */
module Pipeline {
  import opened Wrappers

  /** The three Go types the stages store in the context. */
  datatype Value =
    | StrList(list: seq<string>)                   // []string
    | DepMap(deps: map<string, seq<string>>)        // map[string][]string
    | Logs(logs: map<string, string>)               // map[string][]byte, as text

  /** A context.Context: Go's nil context, or a live one holding values by key. A later
      value for a key hides an earlier one, as context.WithValue does. */
  datatype Context = Nil | Live(values: map<string, Value>) {

    function With(key: string, v: Value): Context
      requires Live?
    {
      Live(values[key := v])
    }

    /** ctx.Value(key).([]string) */
    function StrListAt(key: string): Option<seq<string>>
      requires Live?
    {
      if key in values && values[key].StrList? then Some(values[key].list) else None
    }

    /** ctx.Value(key).(map[string][]string) */
    function DepMapAt(key: string): Option<map<string, seq<string>>>
      requires Live?
    {
      if key in values && values[key].DepMap? then Some(values[key].deps) else None
    }
  }

  /** context.TODO(): the empty context the driver starts from. */
  function Background(): Context {
    Live(map[])
  }

  const ChangesKey: string := "changes"
  const EntrypointsKey: string := "entrypoints"
  const DependenciesKey: string := "dependencies"
  const TargetsKey: string := "targets"
  const RebuildsKey: string := "rebuilds"
  const BuildLogsKey: string := "build-logs"

  datatype Error =
    | InvalidGitRange
    | ChangesetsNotFound
    | NoChangesFound
    | PrefixNotDirectory
    | NoValidEntrypoints
    | NoValidChanges
    | NoValidDependencies
    | NoTargetsToRebuild
    | InvalidOutputFormat
    | NoValidTargets
    | MissingBuildCommand
    | BuildCommandLacksPlaceholder
    | NoValidRebuildTargets
    | External(message: string)    // a process or filesystem error, passed on verbatim
    | NilContextPanic              // ctx.Value on the nil context: a Go runtime panic
    | NilParentPanic               // context.WithValue on the nil context: a panic as well

  /** The text each error carries: what `err.Error()` gives for it in the Go code. The
      model compares errors by kind, never by text, so nothing calls this. */
  function Message(e: Error): string {
    match e
    case InvalidGitRange => "invalid git range"
    case ChangesetsNotFound => "failed to find identified changesets"
    case NoChangesFound => "no changes were found"
    case PrefixNotDirectory => "provided prefix must point to  directory"
    case NoValidEntrypoints => "no valid entrypoints were provided from previous step"
    case NoValidChanges => "no valid changes were identified"
    case NoValidDependencies => "no valid dependencies were identified"
    case NoTargetsToRebuild => "no targets need to be rebuilt"
    case InvalidOutputFormat => "invalid output format"
    case NoValidTargets => "new valid targets identified"
    case MissingBuildCommand => "must provide build command"
    case BuildCommandLacksPlaceholder => "must provide build command that uses {{entrypoint}}"
    case NoValidRebuildTargets => "no valid targets to rebuild determined"
    case External(message) => message
    case NilContextPanic => "invalid memory address or nil pointer dereference"
    case NilParentPanic => "cannot create context from nil parent"
  }

  /** A child process: the directory it runs in ("" for the current one) and its argv. */
  datatype Cmd = Cmd(dir: string, argv: seq<string>)

  /** What cmd.Output() gives back: the captured standard output, or the error. */
  datatype ProcResult = Ran(output: string) | Failed(err: string)

  datatype DirEntry = DirEntry(name: string, isDir: bool)

  datatype StatResult = StatError(err: string) | Stat(isDir: bool)

  datatype ListResult = ReadError(err: string) | Entries(entries: seq<DirEntry>)

  /** What os.Open on a path gives, and what Stat and Readdir(-1) then give. */
  datatype FsEntry = OpenError(err: string) | Opened(stat: StatResult, listing: ListResult)

  /** The outside world: running a process, opening a path, and the order in which Go's
      `range` visits the keys of a map (unspecified by the language). */
  datatype World = World(
    exec: Cmd -> ProcResult,
    fs: string -> FsEntry,
    order: map<string, seq<string>> -> seq<string>)

  /** No element occurs twice. */
  predicate NoDuplicates(s: seq<string>) {
    forall i, j :: 0 <= i < j < |s| ==> s[i] != s[j]
  }

  /** `s` lists every element of `keys` exactly once: a possible iteration order of a map. */
  ghost predicate Enumerates(s: seq<string>, keys: set<string>) {
    NoDuplicates(s) && (forall x :: x in s <==> x in keys)
  }
}
