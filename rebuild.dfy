/** RebuildTargets: runs the build command once per target, with the target's local path
    in place of the placeholder, unless this is a dry run. */
module RebuildStage {
  import opened Wrappers
  import opened Strings
  import opened Pipeline
  import Paths

  const Placeholder: string := "{{entrypoint}}"

  datatype RebuildTargets = RebuildTargets(
    isDryRun: bool,
    buildCommand: string,
    workingDirectory: string)
  {
    /** The template must be non-empty and mention the placeholder. */
    function Precheck(): (r: Option<Error>)
      ensures r.None? <==> buildCommand != "" && Contains(buildCommand, Placeholder)
      ensures buildCommand == "" ==> r == Some(MissingBuildCommand)
      ensures buildCommand != "" && r.Some? ==> r == Some(BuildCommandLacksPlaceholder)
    {
      if |buildCommand| == 0 then Some(MissingBuildCommand)
      else if !Contains(buildCommand, Placeholder) then Some(BuildCommandLacksPlaceholder)
      else None
    }

    /** The command line for one target: every placeholder replaced by "./<target>/". */
    function CommandLine(target: string): string {
      ReplaceAll(buildCommand, Placeholder, Paths.MakeLocalPath(target))
    }

    /** The process for one target: the command line split at every single space. */
    function BuildCommandFor(target: string): Cmd {
      Cmd(workingDirectory, Split(CommandLine(target), ' '))
    }

    /** The captured output per target, in target order; the first failing build aborts.
        A dry run builds nothing and records nothing. */
    function BuildLogs(targets: seq<string>, w: World): Result<map<string, string>, Error> {
      if targets == [] then Success(map[])
      else
        var target := targets[|targets| - 1];
        match BuildLogs(targets[..|targets| - 1], w)
        case Failure(e) => Failure(e)
        case Success(m) =>
          if isDryRun then Success(m)
          else match w.exec(BuildCommandFor(target))
            case Failed(e) => Failure(External(e))
            case Ran(out) => Success(m[target := out])
    }

    function Do(ctx: Context, w: World): Result<Context, Error> {
      if ctx.Nil? then Failure(NilContextPanic)
      else match ctx.StrListAt(RebuildsKey)
        case None => Failure(NoValidRebuildTargets)
        case Some(rebuilds) =>
          match BuildLogs(rebuilds, w)
          case Failure(e) => Failure(e)
          case Success(m) => Success(ctx.With(BuildLogsKey, Logs(m)))
    }

    method Perform(ctx: Context, w: World) returns (r: Result<Context, Error>)
      ensures r == Do(ctx, w)
    {
      if ctx.Nil? {
        return Failure(NilContextPanic);
      }
      match ctx.StrListAt(RebuildsKey) {
        case None =>
          return Failure(NoValidRebuildTargets);
        case Some(rebuilds) =>
          var targetOutputs: map<string, string> := map[];
          var i := 0;
          while i < |rebuilds|
            invariant 0 <= i <= |rebuilds|
            invariant BuildLogs(rebuilds[..i], w) == Success(targetOutputs)
          {
            var target := rebuilds[i];
            assert rebuilds[..i + 1][..i] == rebuilds[..i];
            var cmdToRun := ReplaceAll(buildCommand, Placeholder, Paths.MakeLocalPath(target));
            if isDryRun {
              i := i + 1;
              continue;
            }
            var pieces := Split(cmdToRun, ' ');
            match w.exec(Cmd(workingDirectory, pieces)) {
              case Failed(e) =>
                BuildFailureIsFinal(this, rebuilds[..i + 1], rebuilds[i + 1..], w);
                assert rebuilds[..i + 1] + rebuilds[i + 1..] == rebuilds;
                return Failure(External(e));
              case Ran(out) =>
                targetOutputs := targetOutputs[target := out];
            }
            i := i + 1;
          }
          assert rebuilds[..i] == rebuilds;
          return Success(ctx.With(BuildLogsKey, Logs(targetOutputs)));
      }
    }
  }

  /** Once a build has failed, the targets after it are never built. */
  lemma {:induction false} BuildFailureIsFinal(t: RebuildTargets, a: seq<string>, b: seq<string>, w: World)
    requires t.BuildLogs(a, w).Failure?
    ensures t.BuildLogs(a + b, w) == t.BuildLogs(a, w)
  {
    if b == [] {
      assert a + b == a;
    } else {
      var init := b[..|b| - 1];
      BuildFailureIsFinal(t, a, init, w);
      assert (a + b)[..|a + b| - 1] == a + init;
    }
  }

  lemma {:induction false} DryRunLogsNothing(t: RebuildTargets, targets: seq<string>, w: World)
    requires t.isDryRun
    ensures t.BuildLogs(targets, w) == Success(map[])
  {
    if targets != [] {
      DryRunLogsNothing(t, targets[..|targets| - 1], w);
    }
  }

  /** A dry run spawns no process: the outcome is the same whatever the processes would
      do, and "build-logs" is the empty map. */
  lemma DryRunSpawnsNothing(t: RebuildTargets, ctx: Context, w: World, exec': Cmd -> ProcResult)
    requires t.isDryRun
    ensures t.Do(ctx, w) == t.Do(ctx, w.(exec := exec'))
    ensures ctx.Live? && ctx.StrListAt(RebuildsKey).Some? ==>
            t.Do(ctx, w) == Success(ctx.With(BuildLogsKey, Logs(map[])))
  {
    if ctx.Live? && ctx.StrListAt(RebuildsKey).Some? {
      DryRunLogsNothing(t, ctx.StrListAt(RebuildsKey).value, w);
      DryRunLogsNothing(t, ctx.StrListAt(RebuildsKey).value, w.(exec := exec'));
    }
  }

  /** A real run that succeeds holds one log per target: the output of that target's
      build command. */
  lemma {:induction false} BuildLogsContents(t: RebuildTargets, targets: seq<string>, w: World)
    requires !t.isDryRun && t.BuildLogs(targets, w).Success?
    ensures t.BuildLogs(targets, w).value.Keys == set target | target in targets
    ensures forall target :: target in targets ==>
              w.exec(t.BuildCommandFor(target)) == Ran(t.BuildLogs(targets, w).value[target])
  {
    if targets != [] {
      var init := targets[..|targets| - 1];
      BuildLogsContents(t, init, w);
      assert targets == init + [targets[|targets| - 1]];
    }
  }

  /** A real run that fails reports the error of the first target whose build failed;
      every target before it was built. */
  lemma {:induction false} BuildLogsFailure(t: RebuildTargets, targets: seq<string>, w: World)
    requires t.BuildLogs(targets, w).Failure?
    ensures !t.isDryRun
    ensures exists i :: 0 <= i < |targets| &&
              w.exec(t.BuildCommandFor(targets[i])).Failed? &&
              t.BuildLogs(targets, w).error == External(w.exec(t.BuildCommandFor(targets[i])).err) &&
              forall j :: 0 <= j < i ==> w.exec(t.BuildCommandFor(targets[j])).Ran?
  {
    var n := |targets| - 1;
    var init := targets[..n];
    if t.BuildLogs(init, w).Failure? {
      BuildLogsFailure(t, init, w);
      var i :| 0 <= i < |init| &&
              w.exec(t.BuildCommandFor(init[i])).Failed? &&
              t.BuildLogs(init, w).error == External(w.exec(t.BuildCommandFor(init[i])).err) &&
              forall j :: 0 <= j < i ==> w.exec(t.BuildCommandFor(init[j])).Ran?;
      assert init[i] == targets[i];
      assert forall j :: 0 <= j < i ==> init[j] == targets[j];
    } else {
      if t.isDryRun {
        DryRunLogsNothing(t, targets, w);
        assert false;
      }
      BuildLogsContents(t, init, w);
      assert forall j :: 0 <= j < n ==> targets[j] in init;
    }
  }

  /** Once the precheck has passed, each target's command line contains "./<target>/",
      and the argv handed to the process, joined by single spaces, is that command line. */
  lemma CommandNamesTarget(t: RebuildTargets, target: string)
    requires t.Precheck().None?
    ensures Contains(t.CommandLine(target), Paths.MakeLocalPath(target))
    ensures JoinWith(t.BuildCommandFor(target).argv, ' ') == t.CommandLine(target)
    ensures |t.BuildCommandFor(target).argv| >= 1
  {
    ReplaceAllInserts(t.buildCommand, Placeholder, Paths.MakeLocalPath(target));
    JoinSplit(t.CommandLine(target), ' ');
  }

  /** The first placeholder of the template becomes "./<target>/" and the rest of the
      template is substituted in the same way; a template with a single placeholder keeps
      everything around it. */
  lemma CommandSubstitutesPlaceholder(t: RebuildTargets, target: string, before: string, after: string)
    requires t.buildCommand == before + Placeholder + after
    requires !Contains(before + Placeholder[..|Placeholder| - 1], Placeholder)
    ensures t.CommandLine(target) ==
            before + Paths.MakeLocalPath(target) + ReplaceAll(after, Placeholder, Paths.MakeLocalPath(target))
    ensures !Contains(after, Placeholder) ==>
            t.CommandLine(target) == before + Paths.MakeLocalPath(target) + after
  {
    ReplaceAllFirstOccurrence(before, Placeholder, after, Paths.MakeLocalPath(target));
    if !Contains(after, Placeholder) {
      ReplaceAllAbsent(after, Placeholder, Paths.MakeLocalPath(target));
    }
  }

  /** A template made of space-separated words followed by the placeholder runs those
      words as the program and its first arguments, with "./<target>/" as the last
      argument: "go build -o out {{entrypoint}}" and "cmd/foo" give
      `go build -o out ./cmd/foo/`. */
  lemma BuildCommandFromWords(t: RebuildTargets, words: seq<string>, target: string)
    requires |words| >= 1
    requires forall k :: 0 <= k < |words| ==> ' ' !in words[k] && '{' !in words[k]
    requires t.buildCommand == JoinWith(words, ' ') + " " + Placeholder
    requires ' ' !in target
    ensures t.BuildCommandFor(target).argv == words + [Paths.MakeLocalPath(target)]
  {
    var local := Paths.MakeLocalPath(target);
    var joined := JoinWith(words, ' ');
    assert t.CommandLine(target) == joined + [' '] + local by {
      JoinWithAvoids(words, ' ', '{');
      PlaceholderStart();
      ReplaceAllTrailing(joined + " ", Placeholder, local);
    }
    Paths.LocalPathAvoids(target, ' ');
    SplitJoinThen(words, local, ' ');
  }

  lemma PlaceholderStart()
    ensures |Placeholder| > 0 && Placeholder[0] == '{'
  {
  }

  /** The worked example itself. */
  lemma BuildCommandExample(t: RebuildTargets)
    requires t.buildCommand == "go build -o out {{entrypoint}}"
    ensures t.BuildCommandFor("cmd/foo").argv == ["go", "build", "-o", "out", "./cmd/foo/"]
  {
    var words := ["go", "build", "-o", "out"];
    var target := "cmd/foo";
    ExampleTemplate(words);
    BuildCommandFromWords(t, words, target);
    ExampleLocalPath(target);
  }

  lemma ExampleLocalPath(target: string)
    requires target == "cmd/foo"
    ensures Paths.MakeLocalPath(target) == "./cmd/foo/"
  {
  }

  lemma ExampleTemplate(words: seq<string>)
    requires words == ["go", "build", "-o", "out"]
    ensures "go build -o out {{entrypoint}}" == JoinWith(words, ' ') + " " + Placeholder
  {
    assert JoinWith(words[3..], ' ') == "out";
    assert JoinWith(words[2..], ' ') == "-o out";
    assert JoinWith(words[1..], ' ') == "build -o out";
  }
}
