/** EntrypointDependencyIdentification: for every entrypoint, the first-party packages in
    its dependency closure as reported by `go list`. */
module DependencyStage {
  import opened Wrappers
  import opened Strings
  import opened Pipeline

  datatype EntrypointDependencyIdentification = EntrypointDependencyIdentification(
    repoBasename: string,
    workingDirectory: string)
  {
    /** Always passes: the basename is not validated. */
    function Precheck(): Option<Error> {
      None
    }

    /** `go list -f '{{ join .Deps "\n" }}' ./<entrypoint>` in the working directory. The
        format argument keeps its single quotes, since no shell is involved. */
    function ListCommand(entrypoint: string): Cmd {
      Cmd(workingDirectory, ["go", "list", "-f", "'{{ join .Deps \"\\n\" }}'", "./" + entrypoint])
    }

    /** The package argument of `go list` is the entrypoint with "./" in front, taken
        relative to the working directory the command runs in. */
    lemma ListCommandPackage(entrypoint: string)
      ensures ListCommand(entrypoint).dir == workingDirectory
      ensures |ListCommand(entrypoint).argv| == 5
      ensures ListCommand(entrypoint).argv[4] == "./" + entrypoint
    {
    }

    /** The first-party dependencies of each entrypoint, in entrypoint order; the first
        failing `go list` aborts, and entrypoints with none are left out of the map. */
    function DependencyMap(entrypoints: seq<string>, w: World): Result<map<string, seq<string>>, Error> {
      if entrypoints == [] then Success(map[])
      else
        var last := entrypoints[|entrypoints| - 1];
        match DependencyMap(entrypoints[..|entrypoints| - 1], w)
        case Failure(e) => Failure(e)
        case Success(m) =>
          match w.exec(ListCommand(last))
          case Failed(e) => Failure(External(e))
          case Ran(out) =>
            var deps := FirstParty(Split(out, '\n'), repoBasename);
            Success(if |deps| > 0 then m[last := deps] else m)
    }

    function Do(ctx: Context, w: World): Result<Context, Error> {
      if ctx.Nil? then Failure(NilContextPanic)
      else match ctx.StrListAt(EntrypointsKey)
        case None => Failure(NoValidEntrypoints)
        case Some(entrypoints) =>
          match DependencyMap(entrypoints, w)
          case Failure(e) => Failure(e)
          case Success(m) => Success(ctx.With(DependenciesKey, DepMap(m)))
    }

    method CollectDependencies(entrypoints: seq<string>, w: World)
      returns (r: Result<map<string, seq<string>>, Error>)
      ensures r == DependencyMap(entrypoints, w)
    {
      var entryMap: map<string, seq<string>> := map[];
      var i := 0;
      while i < |entrypoints|
        invariant 0 <= i <= |entrypoints|
        invariant DependencyMap(entrypoints[..i], w) == Success(entryMap)
      {
        var entrypoint := entrypoints[i];
        assert entrypoints[..i + 1][..i] == entrypoints[..i];
        match w.exec(ListCommand(entrypoint)) {
          case Failed(e) =>
            DependencyFailureIsFinal(this, entrypoints[..i + 1], entrypoints[i + 1..], w);
            assert entrypoints[..i + 1] + entrypoints[i + 1..] == entrypoints;
            return Failure(External(e));
          case Ran(out) =>
            var depsOfInterest := FilterFirstParty(Split(out, '\n'), repoBasename);
            if |depsOfInterest| > 0 {
              entryMap := entryMap[entrypoint := depsOfInterest];
            }
        }
        i := i + 1;
      }
      assert entrypoints[..i] == entrypoints;
      r := Success(entryMap);
    }

    method Perform(ctx: Context, w: World) returns (r: Result<Context, Error>)
      ensures r == Do(ctx, w)
    {
      if ctx.Nil? {
        return Failure(NilContextPanic);
      }
      match ctx.StrListAt(EntrypointsKey) {
        case None =>
          return Failure(NoValidEntrypoints);
        case Some(entrypoints) =>
          var m := CollectDependencies(entrypoints, w);
          match m {
            case Failure(e) =>
              return Failure(e);
            case Success(entryMap) =>
              return Success(ctx.With(DependenciesKey, DepMap(entryMap)));
          }
      }
    }
  }

  /** The lines that start with the basename, in input order, each with the basename and
      the slash after it removed. */
  function FirstParty(lines: seq<string>, basename: string): seq<string> {
    if lines == [] then []
    else
      var last := lines[|lines| - 1];
      FirstParty(lines[..|lines| - 1], basename)
        + (if HasPrefix(last, basename) then [TrimPrefix(last, basename + "/")] else [])
  }

  method FilterFirstParty(lines: seq<string>, basename: string) returns (kept: seq<string>)
    ensures kept == FirstParty(lines, basename)
  {
    kept := [];
    var i := 0;
    while i < |lines|
      invariant 0 <= i <= |lines|
      invariant kept == FirstParty(lines[..i], basename)
    {
      assert lines[..i + 1][..i] == lines[..i];
      if HasPrefix(lines[i], basename) {
        kept := kept + [TrimPrefix(lines[i], basename + "/")];
      }
      i := i + 1;
    }
    assert lines[..i] == lines;
  }

  /** Every recorded dependency comes from a line that starts with the basename, with
      "<basename>/" removed when present, and every such line is recorded. */
  lemma {:induction false} FirstPartyMembers(lines: seq<string>, basename: string, dep: string)
    ensures dep in FirstParty(lines, basename) <==>
            exists line :: line in lines && HasPrefix(line, basename) && dep == TrimPrefix(line, basename + "/")
  {
    if lines != [] {
      var init := lines[..|lines| - 1];
      FirstPartyMembers(init, basename, dep);
      assert lines == init + [lines[|lines| - 1]];
    }
  }

  /** The filter keeps input order: filtering two blocks of lines one after the other is
      filtering their concatenation. */
  lemma {:induction false} FirstPartyAppend(a: seq<string>, b: seq<string>, basename: string)
    ensures FirstParty(a + b, basename) == FirstParty(a, basename) + FirstParty(b, basename)
  {
    if b == [] {
      assert a + b == a;
    } else {
      var init := b[..|b| - 1];
      FirstPartyAppend(a, init, basename);
      assert (a + b)[..|a + b| - 1] == a + init;
      assert (a + b)[|a + b| - 1] == b[|b| - 1];
    }
  }

  /** A line that is exactly the basename is kept, untrimmed. */
  lemma FirstPartyKeepsBareBasename(lines: seq<string>, basename: string)
    requires basename in lines
    ensures basename in FirstParty(lines, basename)
  {
  }

  /** Once a `go list` has failed, the entrypoints after it change nothing. */
  lemma {:induction false} DependencyFailureIsFinal(
    d: EntrypointDependencyIdentification, a: seq<string>, b: seq<string>, w: World)
    requires d.DependencyMap(a, w).Failure?
    ensures d.DependencyMap(a + b, w) == d.DependencyMap(a, w)
  {
    if b == [] {
      assert a + b == a;
    } else {
      var init := b[..|b| - 1];
      DependencyFailureIsFinal(d, a, init, w);
      assert (a + b)[..|a + b| - 1] == a + init;
    }
  }

  /** On success, the map holds exactly the entrypoints whose `go list` output has a
      first-party line, each with the filtered lines of that output. */
  lemma {:induction false} DependencyMapContents(
    d: EntrypointDependencyIdentification, entrypoints: seq<string>, w: World)
    requires d.DependencyMap(entrypoints, w).Success?
    ensures forall ep :: ep in entrypoints ==> w.exec(d.ListCommand(ep)).Ran?
    ensures var m := d.DependencyMap(entrypoints, w).value;
            forall ep :: ep in m <==>
              ep in entrypoints && FirstParty(Split(w.exec(d.ListCommand(ep)).output, '\n'), d.repoBasename) != []
    ensures var m := d.DependencyMap(entrypoints, w).value;
            forall ep :: ep in m ==>
              m[ep] == FirstParty(Split(w.exec(d.ListCommand(ep)).output, '\n'), d.repoBasename)
  {
    if entrypoints != [] {
      var init := entrypoints[..|entrypoints| - 1];
      DependencyMapContents(d, init, w);
      assert entrypoints == init + [entrypoints[|entrypoints| - 1]];
    }
  }

  /** On failure, the error is that of the first entrypoint whose `go list` failed. */
  lemma {:induction false} DependencyMapFailure(
    d: EntrypointDependencyIdentification, entrypoints: seq<string>, w: World)
    requires d.DependencyMap(entrypoints, w).Failure?
    ensures exists i :: 0 <= i < |entrypoints| &&
              w.exec(d.ListCommand(entrypoints[i])).Failed? &&
              d.DependencyMap(entrypoints, w).error == External(w.exec(d.ListCommand(entrypoints[i])).err) &&
              forall j :: 0 <= j < i ==> w.exec(d.ListCommand(entrypoints[j])).Ran?
  {
    var init := entrypoints[..|entrypoints| - 1];
    var n := |entrypoints| - 1;
    if d.DependencyMap(init, w).Failure? {
      DependencyMapFailure(d, init, w);
      var i :| 0 <= i < |init| &&
              w.exec(d.ListCommand(init[i])).Failed? &&
              d.DependencyMap(init, w).error == External(w.exec(d.ListCommand(init[i])).err) &&
              forall j :: 0 <= j < i ==> w.exec(d.ListCommand(init[j])).Ran?;
      assert init[i] == entrypoints[i];
      assert forall j :: 0 <= j < i ==> init[j] == entrypoints[j];
    } else {
      DependencyMapContents(d, init, w);
      assert forall j :: 0 <= j < n ==> entrypoints[j] in init;
      assert entrypoints[n] == entrypoints[|entrypoints| - 1];
    }
  }
}
