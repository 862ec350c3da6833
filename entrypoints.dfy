/** EntrypointIdentification: the build units under the configured prefix. */
module EntrypointStage {
  import opened Wrappers
  import opened Pipeline
  import Paths

  datatype EntrypointIdentification = EntrypointIdentification(
    prefix: string,
    skipNested: bool,
    workingDirectory: string)
  {
    /** filepath.Join(WorkingDirectory, Prefix) */
    function PathOfInterest(): string {
      Paths.Join(workingDirectory, prefix)
    }

    /** "changes" must be a non-empty list, and the prefix must open as a directory. */
    function Precheck(ctx: Context, w: World): Option<Error> {
      if ctx.Nil? then Some(NilContextPanic)
      else match ctx.StrListAt(ChangesKey)
        case None => Some(ChangesetsNotFound)
        case Some(changes) =>
          if |changes| == 0 then Some(NoChangesFound)
          else match w.fs(PathOfInterest())
            case OpenError(e) => Some(External(e))
            case Opened(StatError(e), _) => Some(External(e))
            case Opened(Stat(isDir), _) => if isDir then None else Some(PrefixNotDirectory)
    }

    /** With SkipNested the joined path is the only entrypoint; otherwise every
        subdirectory of the prefix is one, in listing order. */
    function Do(ctx: Context, w: World): Result<Context, Error> {
      if skipNested then
        if ctx.Nil? then Failure(NilParentPanic)
        else Success(ctx.With(EntrypointsKey, StrList([PathOfInterest()])))
      else match w.fs(PathOfInterest())
        case OpenError(e) => Failure(External(e))
        case Opened(_, ReadError(e)) => Failure(External(e))
        case Opened(_, Entries(entries)) =>
          if ctx.Nil? then Failure(NilParentPanic)
          else Success(ctx.With(EntrypointsKey, StrList(Subdirectories(prefix, entries))))
    }

    method Perform(ctx: Context, w: World) returns (r: Result<Context, Error>)
      ensures r == Do(ctx, w)
    {
      var pathOfInterest := Paths.Join(workingDirectory, prefix);
      if skipNested {
        if ctx.Nil? {
          return Failure(NilParentPanic);
        }
        return Success(ctx.With(EntrypointsKey, StrList([pathOfInterest])));
      }
      match w.fs(pathOfInterest) {
        case OpenError(e) =>
          return Failure(External(e));
        case Opened(_, ReadError(e)) =>
          return Failure(External(e));
        case Opened(_, Entries(entries)) =>
          var entrypoints := CollectSubdirectories(prefix, entries);
          if ctx.Nil? {
            return Failure(NilParentPanic);
          }
          return Success(ctx.With(EntrypointsKey, StrList(entrypoints)));
      }
    }
  }

  /** Join(prefix, name) for every directory entry of the listing, in listing order. */
  function Subdirectories(prefix: string, entries: seq<DirEntry>): seq<string> {
    if entries == [] then []
    else
      var last := entries[|entries| - 1];
      Subdirectories(prefix, entries[..|entries| - 1])
        + (if last.isDir then [Paths.Join(prefix, last.name)] else [])
  }

  method CollectSubdirectories(prefix: string, entries: seq<DirEntry>) returns (entrypoints: seq<string>)
    ensures entrypoints == Subdirectories(prefix, entries)
  {
    entrypoints := [];
    var i := 0;
    while i < |entries|
      invariant 0 <= i <= |entries|
      invariant entrypoints == Subdirectories(prefix, entries[..i])
    {
      assert entries[..i + 1][..i] == entries[..i];
      if entries[i].isDir {
        entrypoints := entrypoints + [Paths.Join(prefix, entries[i].name)];
      }
      i := i + 1;
    }
    assert entries[..i] == entries;
  }

  /** An entrypoint is found exactly when some directory entry is named after it. */
  lemma {:induction false} SubdirectoriesMembers(prefix: string, entries: seq<DirEntry>, ep: string)
    ensures ep in Subdirectories(prefix, entries) <==>
            exists i :: 0 <= i < |entries| && entries[i].isDir && ep == Paths.Join(prefix, entries[i].name)
  {
    if entries != [] {
      var init := entries[..|entries| - 1];
      SubdirectoriesMembers(prefix, init, ep);
      assert forall i :: 0 <= i < |init| ==> init[i] == entries[i];
    }
  }

  /** The listing order is kept: the entrypoints of a listing split in two are those of
      the first part followed by those of the second. */
  lemma {:induction false} SubdirectoriesAppend(prefix: string, a: seq<DirEntry>, b: seq<DirEntry>)
    ensures Subdirectories(prefix, a + b) == Subdirectories(prefix, a) + Subdirectories(prefix, b)
  {
    if b == [] {
      assert a + b == a;
    } else {
      var init := b[..|b| - 1];
      SubdirectoriesAppend(prefix, a, init);
      assert (a + b)[..|a + b| - 1] == a + init;
      assert (a + b)[|a + b| - 1] == b[|b| - 1];
    }
  }

  /** Under a clean relative prefix, with plain entry names, every entrypoint found lies
      directly in the prefix directory. */
  lemma SubdirectoriesLieInPrefix(prefix: string, entries: seq<DirEntry>)
    requires Paths.IsCleanRelative(prefix)
    requires forall i :: 0 <= i < |entries| ==> Paths.IsName(entries[i].name)
    ensures forall ep :: ep in Subdirectories(prefix, entries) ==> Paths.Dir(ep) == prefix
  {
    forall ep | ep in Subdirectories(prefix, entries)
      ensures Paths.Dir(ep) == prefix
    {
      SubdirectoriesMembers(prefix, entries, ep);
      var i :| 0 <= i < |entries| && entries[i].isDir && ep == Paths.Join(prefix, entries[i].name);
      Paths.DirOfJoin(prefix, entries[i].name);
    }
  }

  /** The precheck passes exactly when "changes" holds a non-empty list and the joined
      prefix opens and stats as a directory; otherwise it reports the first check that
      failed: a missing "changes", an empty one, the open or stat error unchanged, or a
      prefix that is not a directory. */
  lemma PrecheckAccepts(e: EntrypointIdentification, ctx: Context, w: World)
    ensures e.Precheck(ctx, w).None? <==>
            ctx.Live? && ctx.StrListAt(ChangesKey).Some? && |ctx.StrListAt(ChangesKey).value| > 0 &&
            w.fs(e.PathOfInterest()).Opened? && w.fs(e.PathOfInterest()).stat == Stat(true)
    ensures ctx.Live? && ctx.StrListAt(ChangesKey).None? ==> e.Precheck(ctx, w) == Some(ChangesetsNotFound)
    ensures ctx.Live? && ctx.StrListAt(ChangesKey) == Some([]) ==> e.Precheck(ctx, w) == Some(NoChangesFound)
    ensures ctx.Live? && ctx.StrListAt(ChangesKey).Some? && |ctx.StrListAt(ChangesKey).value| > 0 ==>
            match w.fs(e.PathOfInterest())
            case OpenError(err) => e.Precheck(ctx, w) == Some(External(err))
            case Opened(StatError(err), _) => e.Precheck(ctx, w) == Some(External(err))
            case Opened(Stat(isDir), _) => !isDir ==> e.Precheck(ctx, w) == Some(PrefixNotDirectory)
    ensures ctx.Nil? ==> e.Precheck(ctx, w) == Some(NilContextPanic)
  {
  }

  /** With SkipNested the directory is never listed: the single entrypoint is the joined
      path, whatever the filesystem holds. */
  lemma SkipNestedIgnoresListing(e: EntrypointIdentification, ctx: Context, w: World, fs': string -> FsEntry)
    requires e.skipNested && ctx.Live?
    ensures e.Do(ctx, w) == e.Do(ctx, w.(fs := fs'))
    ensures e.Do(ctx, w).Success? &&
            e.Do(ctx, w).value.StrListAt(EntrypointsKey) == Some([Paths.Join(e.workingDirectory, e.prefix)])
  {
  }
}
