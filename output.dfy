/** OutputDependencies: reports the targets and, for the `txt` format only, marks them as
    the final rebuild set. */
module OutputStage {
  import opened Wrappers
  import opened Pipeline

  const ValidOutputFormats: set<string> := {"txt", "json"}

  datatype OutputDependencies = OutputDependencies(format: string)
  {
    /** Exactly the formats `txt` and `json` are accepted. */
    function Precheck(): (r: Option<Error>)
      ensures r.None? <==> format == "txt" || format == "json"
      ensures r.Some? ==> r.value == InvalidOutputFormat
    {
      if format in ValidOutputFormats then None else Some(InvalidOutputFormat)
    }

    /** `json` prints the targets and hands back the nil context; any other format stores
        the targets under "rebuilds". */
    function Do(ctx: Context): Result<Context, Error> {
      if ctx.Nil? then Failure(NilContextPanic)
      else match ctx.StrListAt(TargetsKey)
        case None => Failure(NoValidTargets)
        case Some(targets) =>
          if format == "json" then Success(Nil)
          else Success(ctx.With(RebuildsKey, StrList(targets)))
    }
  }

  /** With `txt`, "rebuilds" becomes the target list and every other key keeps its value. */
  lemma TxtPublishesTargets(o: OutputDependencies, ctx: Context)
    requires o.format == "txt" && ctx.Live? && ctx.StrListAt(TargetsKey).Some?
    ensures o.Do(ctx).Success? && o.Do(ctx).value.Live?
    ensures o.Do(ctx).value.StrListAt(RebuildsKey) == ctx.StrListAt(TargetsKey)
    ensures forall k :: k != RebuildsKey ==>
              (k in o.Do(ctx).value.values <==> k in ctx.values) &&
              (k in ctx.values ==> o.Do(ctx).value.values[k] == ctx.values[k])
  {
  }

  /** With `json`, the stage succeeds but hands back no context at all, so "rebuilds" is
      never set. */
  lemma JsonDropsContext(o: OutputDependencies, ctx: Context)
    requires o.format == "json" && ctx.Live? && ctx.StrListAt(TargetsKey).Some?
    ensures o.Do(ctx) == Success(Nil)
  {
  }
}
