/** ChangesetIdentification: the files that differ between two git revisions. */
module ChangesetStage {
  import opened Wrappers
  import opened Strings
  import opened Pipeline

  datatype ChangesetIdentification = ChangesetIdentification(
    gitRangeStart: string,
    gitRangeEnd: string,
    workingDirectory: string)
  {
    /** The range is rejected exactly when either end is empty. */
    function Precheck(): (r: Option<Error>)
      ensures r.None? <==> gitRangeStart != "" && gitRangeEnd != ""
      ensures r.Some? ==> r.value == InvalidGitRange
    {
      if |gitRangeStart| == 0 || |gitRangeEnd| == 0 then Some(InvalidGitRange) else None
    }

    /** `git diff-tree --no-commit-id --name-only -r <end>..<start>` in the working directory. */
    function DiffCommand(): Cmd {
      Cmd(workingDirectory,
          ["git", "diff-tree", "--no-commit-id", "--name-only", "-r", gitRangeEnd + ".." + gitRangeStart])
    }

    /** Runs the diff and stores its output, split into lines, under "changes". */
    function Do(ctx: Context, w: World): Result<Context, Error> {
      match w.exec(DiffCommand())
      case Failed(e) => Failure(External(e))
      case Ran(out) =>
        if ctx.Nil? then Failure(NilParentPanic)
        else Success(ctx.With(ChangesKey, StrList(Split(out, '\n'))))
    }
  }

  /** A successful diff adds "changes" and nothing else: a non-empty list of lines, none
      holding a newline, that joined by newlines give back the diff output exactly. */
  lemma DiffLinesBecomeChanges(c: ChangesetIdentification, ctx: Context, w: World)
    requires ctx.Live? && w.exec(c.DiffCommand()).Ran?
    ensures c.Do(ctx, w).Success? && c.Do(ctx, w).value.Live?
    ensures var next := c.Do(ctx, w).value;
            ChangesKey in next.values && next.values[ChangesKey].StrList? &&
            next.values == ctx.values[ChangesKey := next.values[ChangesKey]]
    ensures var changes := c.Do(ctx, w).value.values[ChangesKey].list;
            |changes| >= 1 &&
            (forall k :: 0 <= k < |changes| ==> '\n' !in changes[k]) &&
            JoinWith(changes, '\n') == w.exec(c.DiffCommand()).output
  {
    JoinSplit(w.exec(c.DiffCommand()).output, '\n');
  }

  /** A failing diff aborts the stage with the process error, unchanged. */
  lemma DiffFailureIsSurfaced(c: ChangesetIdentification, ctx: Context, w: World)
    requires w.exec(c.DiffCommand()).Failed?
    ensures c.Do(ctx, w) == Failure(External(w.exec(c.DiffCommand()).err))
  {
  }
}
