/** The build driver: an ordered list of actions run over a context that each action
    extends, stopping at the first error, and ending with the "rebuilds" list. */
module Driver {
  import opened Wrappers
  import opened Pipeline
  import Env
  import Paths
  import ChangesetStage
  import EntrypointStage
  import DependencyStage
  import ImpactStage
  import OutputStage
  import RebuildStage

  /** One step of the pipeline, with the configuration it was built with. */
  datatype Action =
    | Changeset(changeset: ChangesetStage.ChangesetIdentification)
    | Entrypoints(entrypoints: EntrypointStage.EntrypointIdentification)
    | Dependencies(dependencies: DependencyStage.EntrypointDependencyIdentification)
    | Modified(modified: ImpactStage.ModifiedDependencies)
    | Output(output: OutputStage.OutputDependencies)
    | Rebuild(rebuild: RebuildStage.RebuildTargets)

  /** Action.Precheck, dispatched on the kind of action. */
  function Precheck(a: Action, ctx: Context, w: World): Option<Error> {
    match a
    case Changeset(c) => c.Precheck()
    case Entrypoints(e) => e.Precheck(ctx, w)
    case Dependencies(d) => d.Precheck()
    case Modified(m) => m.Precheck()
    case Output(o) => o.Precheck()
    case Rebuild(r) => r.Precheck()
  }

  /** Action.Do, dispatched on the kind of action. */
  function Do(a: Action, ctx: Context, w: World): Result<Context, Error> {
    match a
    case Changeset(c) => c.Do(ctx, w)
    case Entrypoints(e) => e.Do(ctx, w)
    case Dependencies(d) => d.Do(ctx, w)
    case Modified(m) => m.Do(ctx, w)
    case Output(o) => o.Do(ctx)
    case Rebuild(r) => r.Do(ctx, w)
  }

  /** One turn of the driver loop: the precheck, and only if it passes, the action itself. */
  function Step(a: Action, ctx: Context, w: World): Result<Context, Error> {
    match Precheck(a, ctx, w)
    case Some(e) => Failure(e)
    case None => Do(a, ctx, w)
  }

  /** The actions run in order from `ctx`; the first error ends the run. */
  function Exec(actions: seq<Action>, ctx: Context, w: World): Result<Context, Error> {
    if actions == [] then Success(ctx)
    else match Step(actions[0], ctx, w)
      case Failure(e) => Failure(e)
      case Success(next) => Exec(actions[1..], next, w)
  }

  /** The driver's last look at the context: the "rebuilds" list, if it is one. */
  function Finish(ctx: Context): Result<seq<string>, Error> {
    if ctx.Nil? then Failure(NilContextPanic)
    else match ctx.StrListAt(RebuildsKey)
      case None => Failure(NoValidRebuildTargets)
      case Some(rebuilds) => Success(rebuilds)
  }

  /** The whole run, from the empty context. */
  function RunSpec(actions: seq<Action>, w: World): Result<seq<string>, Error> {
    match Exec(actions, Background(), w)
    case Failure(e) => Failure(e)
    case Success(ctx) => Finish(ctx)
  }

  /** Action.Do, running the looping actions through their imperative versions. */
  method PerformAction(a: Action, ctx: Context, w: World) returns (r: Result<Context, Error>)
    ensures r == Do(a, ctx, w)
  {
    match a {
      case Changeset(c) => r := c.Do(ctx, w);
      case Entrypoints(e) => r := e.Perform(ctx, w);
      case Dependencies(d) => r := d.Perform(ctx, w);
      case Modified(m) => r := m.Perform(ctx, w);
      case Output(o) => r := o.Do(ctx);
      case Rebuild(rb) => r := rb.Perform(ctx, w);
    }
  }

  datatype Builder = Builder(actions: seq<Action>)
  {
    /** Runs the actions in order, each precheck before its action, passing the context
        along; returns the first error, or else the final "rebuilds" list. */
    method Run(w: World) returns (r: Result<seq<string>, Error>)
      ensures r == RunSpec(actions, w)
    {
      var ctx := Background();
      var i := 0;
      while i < |actions|
        invariant 0 <= i <= |actions|
        invariant Exec(actions[i..], ctx, w) == Exec(actions, Background(), w)
      {
        var action := actions[i];
        assert actions[i..][0] == action && actions[i..][1..] == actions[i + 1..];
        var pre := Precheck(action, ctx, w);
        if pre.Some? {
          return Failure(pre.value);
        }
        var newCtx := PerformAction(action, ctx, w);
        if newCtx.Failure? {
          return Failure(newCtx.error);
        }
        ctx := newCtx.value;
        i := i + 1;
      }
      if ctx.Nil? {
        return Failure(NilContextPanic);
      }
      match ctx.StrListAt(RebuildsKey) {
        case None =>
          return Failure(NoValidRebuildTargets);
        case Some(rebuilds) =>
          return Success(rebuilds);
      }
    }
  }

  /** The command-line settings the standard pipeline is built from. */
  datatype Flags = Flags(
    dryRun: bool,
    workingDirectory: string,
    gitRangeStart: string,
    gitRangeEnd: string,
    cmdPrefix: string,
    skipNestedEntrypoints: bool,
    repoBasename: string,
    outFormat: string,
    buildCommand: string)

  /** The six standard actions, in order; each end of the git range falls back to the
      environment when its flag is empty. */
  function FromFlags(flags: Flags, env: map<string, string>): (b: Builder)
    ensures |b.actions| == 6
    ensures b.actions[0].Changeset? && b.actions[1].Entrypoints? && b.actions[2].Dependencies?
    ensures b.actions[3].Modified? && b.actions[4].Output? && b.actions[5].Rebuild?
  {
    Builder([
      Changeset(ChangesetStage.ChangesetIdentification(
        Env.GetGitRangeVal(flags.gitRangeStart, Env.GitRangeStartEnvvars, env),
        Env.GetGitRangeVal(flags.gitRangeEnd, Env.GitRangeEndEnvvars, env),
        flags.workingDirectory)),
      Entrypoints(EntrypointStage.EntrypointIdentification(
        flags.cmdPrefix, flags.skipNestedEntrypoints, flags.workingDirectory)),
      Dependencies(DependencyStage.EntrypointDependencyIdentification(
        flags.repoBasename, flags.workingDirectory)),
      Modified(ImpactStage.ModifiedDependencies),
      Output(OutputStage.OutputDependencies(flags.outFormat)),
      Rebuild(RebuildStage.RebuildTargets(
        flags.dryRun, flags.buildCommand, flags.workingDirectory))
    ])
  }

  /** Running two lists of actions one after the other is running their concatenation:
      the second list starts from the context the first one left. */
  lemma {:induction false} ExecAppend(a: seq<Action>, b: seq<Action>, ctx: Context, w: World)
    ensures Exec(a + b, ctx, w) ==
            match Exec(a, ctx, w)
            case Failure(e) => Failure(e)
            case Success(mid) => Exec(b, mid, w)
  {
    if a == [] {
      assert a + b == b;
    } else {
      assert (a + b)[0] == a[0] && (a + b)[1..] == a[1..] + b;
      match Step(a[0], ctx, w)
      case Failure(_) =>
      case Success(next) => ExecAppend(a[1..], b, next, w);
    }
  }

  /** Once an action has failed, no later action runs: whatever follows, the run ends with
      that error. */
  lemma ErrorStopsRun(a: seq<Action>, b: seq<Action>, ctx: Context, w: World)
    requires Exec(a, ctx, w).Failure?
    ensures Exec(a + b, ctx, w) == Exec(a, ctx, w)
  {
    ExecAppend(a, b, ctx, w);
  }

  /** Actions run strictly in order: the run through action i is the run before it
      followed by action i's precheck and then, if that passes, action i itself. */
  lemma ExecStep(actions: seq<Action>, i: nat, ctx: Context, w: World)
    requires i < |actions|
    ensures Exec(actions[..i + 1], ctx, w) ==
            match Exec(actions[..i], ctx, w)
            case Failure(e) => Failure(e)
            case Success(mid) =>
              if Precheck(actions[i], mid, w).Some? then Failure(Precheck(actions[i], mid, w).value)
              else Do(actions[i], mid, w)
  {
    assert actions[..i + 1] == actions[..i] + [actions[i]];
    ExecAppend(actions[..i], [actions[i]], ctx, w);
    match Exec(actions[..i], ctx, w)
    case Failure(_) =>
    case Success(mid) =>
      assert [actions[i]][1..] == [];
  }

  /** A failed run returns, unchanged, the error of the first action whose precheck or
      body failed; every action before it succeeded. */
  lemma {:induction false} FirstErrorIsReturned(actions: seq<Action>, ctx: Context, w: World)
    requires Exec(actions, ctx, w).Failure?
    ensures exists i :: 0 <= i < |actions| && Exec(actions[..i], ctx, w).Success? &&
              Step(actions[i], Exec(actions[..i], ctx, w).value, w) == Failure(Exec(actions, ctx, w).error)
  {
    assert actions != [];
    assert actions[..0] == [];
    match Step(actions[0], ctx, w)
    case Failure(_) =>
      assert Exec(actions[..0], ctx, w) == Success(ctx);
    case Success(next) =>
      FirstErrorIsReturned(actions[1..], next, w);
      var j :| 0 <= j < |actions[1..]| && Exec(actions[1..][..j], next, w).Success? &&
               Step(actions[1..][j], Exec(actions[1..][..j], next, w).value, w) ==
                 Failure(Exec(actions[1..], next, w).error);
      var p := actions[..j + 1];
      assert p[0] == actions[0] && p[1..] == actions[1..][..j];
      assert Exec(p, ctx, w) == Exec(actions[1..][..j], next, w);
      assert actions[1..][j] == actions[j + 1];
  }

  /** The run succeeds exactly when every action succeeds and the final context maps
      "rebuilds" to a string list, and then returns that list; when the actions succeed
      but "rebuilds" is missing, it fails with "no valid targets to rebuild determined". */
  lemma RunOutcome(actions: seq<Action>, w: World)
    ensures RunSpec(actions, w).Success? <==>
            Exec(actions, Background(), w).Success? && Exec(actions, Background(), w).value.Live? &&
            Exec(actions, Background(), w).value.StrListAt(RebuildsKey).Some?
    ensures RunSpec(actions, w).Success? ==>
            RunSpec(actions, w).value == Exec(actions, Background(), w).value.StrListAt(RebuildsKey).value
    ensures Exec(actions, Background(), w).Failure? ==>
            RunSpec(actions, w) == Failure(Exec(actions, Background(), w).error)
    ensures Exec(actions, Background(), w).Success? && Exec(actions, Background(), w).value.Live? &&
            Exec(actions, Background(), w).value.StrListAt(RebuildsKey).None? ==>
            RunSpec(actions, w) == Failure(NoValidRebuildTargets)
    ensures Exec(actions, Background(), w).Success? && Exec(actions, Background(), w).value.Nil? ==>
            RunSpec(actions, w) == Failure(NilContextPanic)
  {
  }

  /** No action succeeds on the nil context: each either fails its precheck, fails its
      process, or reads the context and panics. */
  lemma StepFromNilFails(a: Action, w: World)
    ensures Step(a, Nil, w).Failure?
  {
  }

  /** Once the context is nil, the run fails at its next action. */
  lemma NilContextEndsRun(actions: seq<Action>, w: World)
    requires actions != []
    ensures Exec(actions, Nil, w).Failure?
  {
  }

  /** With a `json` output stage anywhere in the list, the run never returns a rebuild
      list: the stage drops the context, so the next action or the final lookup fails. */
  lemma {:induction false} JsonOutputLeavesNothing(actions: seq<Action>, ctx: Context, w: World)
    requires exists i :: 0 <= i < |actions| && actions[i] == Output(OutputStage.OutputDependencies("json"))
    ensures Exec(actions, ctx, w).Failure? || Exec(actions, ctx, w) == Success(Nil)
  {
    var json := Output(OutputStage.OutputDependencies("json"));
    var i :| 0 <= i < |actions| && actions[i] == json;
    match Step(actions[0], ctx, w)
    case Failure(_) =>
    case Success(next) =>
      if actions[0] == json {
        assert next == Nil;
        if actions[1..] != [] {
          NilContextEndsRun(actions[1..], w);
        }
      } else {
        assert actions[1..][i - 1] == json;
        JsonOutputLeavesNothing(actions[1..], next, w);
      }
  }

  /** Hence a pipeline with `json` output always fails as a whole. */
  lemma JsonRunFails(actions: seq<Action>, w: World)
    requires exists i :: 0 <= i < |actions| && actions[i] == Output(OutputStage.OutputDependencies("json"))
    ensures RunSpec(actions, w).Failure?
  {
    JsonOutputLeavesNothing(actions, Background(), w);
  }

  /** In the standard pipeline with `txt` output, a successful run returns exactly the
      targets the impact stage stored: the entrypoints with a dependency equal to the
      directory of some changed file. */
  lemma TxtRunReturnsTargets(flags: Flags, env: map<string, string>, w: World)
    requires flags.outFormat == "txt"
    requires RunSpec(FromFlags(flags, env).actions, w).Success?
    ensures var actions := FromFlags(flags, env).actions;
            Exec(actions[..4], Background(), w).Success? &&
            Exec(actions[..4], Background(), w).value.Live? &&
            Exec(actions[..4], Background(), w).value.StrListAt(TargetsKey) ==
              Some(RunSpec(actions, w).value)
  {
    var actions := FromFlags(flags, env).actions;
    assert actions == actions[..4] + actions[4..];
    ExecAppend(actions[..4], actions[4..], Background(), w);
    var tail := actions[4..];
    assert tail[0] == actions[4] && tail[1..][0] == actions[5] && tail[1..][1..] == [];
    var ctx4 := Exec(actions[..4], Background(), w).value;
    assert Exec(tail, ctx4, w).Success?;
    var ctx5 := Step(actions[4], ctx4, w).value;
    assert Exec(tail, ctx4, w) == Exec(tail[1..], ctx5, w);
    var ctx6 := Step(actions[5], ctx5, w).value;
    assert Exec(tail[1..], ctx5, w) == Exec([], ctx6, w);
    assert Exec(tail, ctx4, w) == Success(ctx6);
    assert ctx4.Live? && ctx4.StrListAt(TargetsKey).Some?;
    assert ctx5 == ctx4.With(RebuildsKey, StrList(ctx4.StrListAt(TargetsKey).value));
    assert ctx6.values[RebuildsKey] == ctx5.values[RebuildsKey];
  }

  /** A git range left empty on the command line and in the environment stops the
      standard pipeline at its first precheck, before any process runs. */
  lemma UnsetGitRangeFailsFirst(flags: Flags, env: map<string, string>, w: World)
    requires flags.gitRangeStart == ""
    requires forall name :: name in Env.GitRangeStartEnvvars ==> Env.Getenv(env, name) == ""
    ensures RunSpec(FromFlags(flags, env).actions, w) == Failure(InvalidGitRange)
  {
  }

  /** `strings.Split` never returns an empty list, so right after a successful diff the
      entrypoint precheck cannot report "no changes were found"; an empty diff yields the
      single change "". */
  lemma NoChangesFoundUnreachableAfterDiff(
    c: ChangesetStage.ChangesetIdentification, e: EntrypointStage.EntrypointIdentification,
    ctx: Context, w: World)
    requires c.Do(ctx, w).Success?
    ensures e.Precheck(c.Do(ctx, w).value, w) != Some(NoChangesFound)
  {
  }

  /** The two kinds of entrypoint are named relative to different directories, but
      `go list` always runs in the working directory and is handed "./<entrypoint>". A
      nested entrypoint <prefix>/<name> therefore resolves to <wd>/<prefix>/<name>, while
      the skip-nested entrypoint, which already starts with the working directory,
      resolves to <wd>/<wd>/<prefix>: the working directory is named twice. */
  lemma ListedPackageDirectory(flags: Flags, env: map<string, string>, ctx: Context, w: World, name: string)
    requires ctx.Live?
    requires Paths.IsCleanRelative(flags.workingDirectory) && Paths.IsCleanRelative(flags.cmdPrefix)
    requires Paths.IsName(name)
    ensures var actions := FromFlags(flags, env).actions;
            var e, d := actions[1].entrypoints, actions[2].dependencies;
            var wd, prefix := flags.workingDirectory, flags.cmdPrefix;
            (e.skipNested ==>
              e.Do(ctx, w) == Success(ctx.With(EntrypointsKey, StrList([wd + "/" + prefix]))) &&
              Paths.Join(d.workingDirectory, d.ListCommand(wd + "/" + prefix).argv[4]) ==
                wd + "/" + wd + "/" + prefix) &&
            Paths.Join(prefix, name) == prefix + "/" + name &&
            Paths.Join(d.workingDirectory, d.ListCommand(Paths.Join(prefix, name)).argv[4]) ==
              wd + "/" + prefix + "/" + name
  {
    var actions := FromFlags(flags, env).actions;
    var e, d := actions[1].entrypoints, actions[2].dependencies;
    assert e.workingDirectory == d.workingDirectory == flags.workingDirectory;
    assert e.prefix == flags.cmdPrefix;
    if e.skipNested {
      SkipNestedPackage(e, d, ctx, w);
    }
    NestedPackage(e.prefix, d, name);
  }

  /** The skip-nested half of ListedPackageDirectory, for any entrypoint and dependency
      stages that share a working directory. */
  lemma SkipNestedPackage(
    e: EntrypointStage.EntrypointIdentification, d: DependencyStage.EntrypointDependencyIdentification,
    ctx: Context, w: World)
    requires ctx.Live? && e.skipNested && e.workingDirectory == d.workingDirectory
    requires Paths.IsCleanRelative(e.workingDirectory) && Paths.IsCleanRelative(e.prefix)
    ensures var wd, prefix := e.workingDirectory, e.prefix;
            e.Do(ctx, w) == Success(ctx.With(EntrypointsKey, StrList([wd + "/" + prefix]))) &&
            Paths.Join(d.workingDirectory, d.ListCommand(wd + "/" + prefix).argv[4]) ==
              wd + "/" + wd + "/" + prefix
  {
    var wd, prefix := e.workingDirectory, e.prefix;
    d.ListCommandPackage(wd + "/" + prefix);
    Paths.JoinCleanRelative(wd, prefix);
    Paths.JoinDotRelative(wd, wd + "/" + prefix);
  }

  /** The nested half of ListedPackageDirectory. */
  lemma NestedPackage(prefix: string, d: DependencyStage.EntrypointDependencyIdentification, name: string)
    requires Paths.IsCleanRelative(d.workingDirectory) && Paths.IsCleanRelative(prefix)
    requires Paths.IsName(name)
    ensures Paths.Join(prefix, name) == prefix + "/" + name
    ensures Paths.Join(d.workingDirectory, d.ListCommand(Paths.Join(prefix, name)).argv[4]) ==
            d.workingDirectory + "/" + prefix + "/" + name
  {
    d.ListCommandPackage(Paths.Join(prefix, name));
    Paths.JoinChild(prefix, name);
    Paths.JoinDotRelative(d.workingDirectory, prefix + "/" + name);
  }
}
