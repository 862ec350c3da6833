/** ModifiedDependencies: the impact computation. A changed file is coarsened to its
    directory; an entrypoint must be rebuilt when one of its first-party dependencies is
    such a directory. */
module ImpactStage {
  import opened Wrappers
  import opened Pipeline
  import Paths

  /** The set of directories holding a changed file. */
  function ChangedLocations(changes: seq<string>): set<string> {
    set c | c in changes :: Paths.Dir(c)
  }

  /** Some dependency of the entrypoint is a changed location. */
  predicate Affected(deps: seq<string>, changeSet: set<string>) {
    exists i :: 0 <= i < |deps| && deps[i] in changeSet
  }

  /** The affected entrypoints, in the order the map iteration visits them. */
  function Impacted(order: seq<string>, dependencies: map<string, seq<string>>, changeSet: set<string>): seq<string> {
    if order == [] then []
    else
      var ep := order[|order| - 1];
      Impacted(order[..|order| - 1], dependencies, changeSet)
        + (if ep in dependencies && Affected(dependencies[ep], changeSet) then [ep] else [])
  }

  datatype ModifiedDependencies = ModifiedDependencies
  {
    function Precheck(): Option<Error> {
      None
    }

    function Do(ctx: Context, w: World): Result<Context, Error> {
      if ctx.Nil? then Failure(NilContextPanic)
      else match ctx.StrListAt(ChangesKey)
        case None => Failure(NoValidChanges)
        case Some(changes) =>
          match ctx.DepMapAt(DependenciesKey)
          case None => Failure(NoValidDependencies)
          case Some(dependencies) =>
            var targets := Impacted(w.order(dependencies), dependencies, ChangedLocations(changes));
            if |targets| == 0 then Failure(NoTargetsToRebuild)
            else Success(ctx.With(TargetsKey, StrList(targets)))
    }

    method Perform(ctx: Context, w: World) returns (r: Result<Context, Error>)
      ensures r == Do(ctx, w)
    {
      if ctx.Nil? {
        return Failure(NilContextPanic);
      }
      match ctx.StrListAt(ChangesKey) {
        case None =>
          return Failure(NoValidChanges);
        case Some(changes) =>
          var changeSet := BuildChangeSet(changes);
          match ctx.DepMapAt(DependenciesKey) {
            case None =>
              return Failure(NoValidDependencies);
            case Some(dependencies) =>
              var toBeRebuilt := CollectTargets(w.order(dependencies), dependencies, changeSet);
              if |toBeRebuilt| == 0 {
                return Failure(NoTargetsToRebuild);
              }
              return Success(ctx.With(TargetsKey, StrList(toBeRebuilt)));
          }
      }
    }
  }

  method BuildChangeSet(changes: seq<string>) returns (changeSet: set<string>)
    ensures changeSet == ChangedLocations(changes)
  {
    changeSet := {};
    var i := 0;
    while i < |changes|
      invariant 0 <= i <= |changes|
      invariant changeSet == ChangedLocations(changes[..i])
    {
      assert changes[..i + 1] == changes[..i] + [changes[i]];
      changeSet := changeSet + {Paths.Dir(changes[i])};
      i := i + 1;
    }
    assert changes[..i] == changes;
  }

  /** The nested scan: for each entrypoint in iteration order, look through its
      dependencies and record it at the first one that is a changed location. */
  method CollectTargets(order: seq<string>, dependencies: map<string, seq<string>>, changeSet: set<string>)
    returns (toBeRebuilt: seq<string>)
    ensures toBeRebuilt == Impacted(order, dependencies, changeSet)
  {
    toBeRebuilt := [];
    var i := 0;
    while i < |order|
      invariant 0 <= i <= |order|
      invariant toBeRebuilt == Impacted(order[..i], dependencies, changeSet)
    {
      var entrypoint := order[i];
      assert order[..i + 1][..i] == order[..i];
      if entrypoint in dependencies {
        var deps := dependencies[entrypoint];
        var j := 0;
        while j < |deps|
          invariant 0 <= j <= |deps|
          invariant forall k :: 0 <= k < j ==> deps[k] !in changeSet
          invariant toBeRebuilt == Impacted(order[..i], dependencies, changeSet)
        {
          if deps[j] in changeSet {
            toBeRebuilt := toBeRebuilt + [entrypoint];
            break;
          }
          j := j + 1;
        }
      }
      i := i + 1;
    }
    assert order[..i] == order;
  }

  /** An entrypoint is a target exactly when iteration visits it, it has recorded
      dependencies, and one of them is a changed location. */
  lemma {:induction false} ImpactedMembers(
    order: seq<string>, dependencies: map<string, seq<string>>, changeSet: set<string>, ep: string)
    ensures ep in Impacted(order, dependencies, changeSet) <==>
            ep in order && ep in dependencies && Affected(dependencies[ep], changeSet)
  {
    if order != [] {
      var init := order[..|order| - 1];
      ImpactedMembers(init, dependencies, changeSet, ep);
      assert order == init + [order[|order| - 1]];
    }
  }

  /** Each entrypoint is recorded at most once, however many of its dependencies changed. */
  lemma {:induction false} ImpactedNoDuplicates(
    order: seq<string>, dependencies: map<string, seq<string>>, changeSet: set<string>)
    requires NoDuplicates(order)
    ensures NoDuplicates(Impacted(order, dependencies, changeSet))
  {
    if order != [] {
      var init := order[..|order| - 1];
      var last := order[|order| - 1];
      assert NoDuplicates(init);
      ImpactedNoDuplicates(init, dependencies, changeSet);
      assert last !in init;
      ImpactedMembers(init, dependencies, changeSet, last);
    }
  }

  lemma {:induction false} MultisetOfDistinct(s: seq<string>, x: string)
    requires NoDuplicates(s)
    ensures multiset(s)[x] == if x in s then 1 else 0
  {
    if s != [] {
      var init := s[..|s| - 1];
      assert s == init + [s[|s| - 1]];
      assert NoDuplicates(init);
      MultisetOfDistinct(init, x);
    }
  }

  /** The iteration order of the dependency map changes only the order of the targets:
      any two orders yield the same targets, each once. */
  lemma ImpactIgnoresIterationOrder(
    order1: seq<string>, order2: seq<string>, dependencies: map<string, seq<string>>, changeSet: set<string>)
    requires Enumerates(order1, dependencies.Keys) && Enumerates(order2, dependencies.Keys)
    ensures multiset(Impacted(order1, dependencies, changeSet)) == multiset(Impacted(order2, dependencies, changeSet))
  {
    var t1, t2 := Impacted(order1, dependencies, changeSet), Impacted(order2, dependencies, changeSet);
    ImpactedNoDuplicates(order1, dependencies, changeSet);
    ImpactedNoDuplicates(order2, dependencies, changeSet);
    forall x
      ensures multiset(t1)[x] == multiset(t2)[x]
    {
      ImpactedMembers(order1, dependencies, changeSet, x);
      ImpactedMembers(order2, dependencies, changeSet, x);
      MultisetOfDistinct(t1, x);
      MultisetOfDistinct(t2, x);
    }
  }

  /** A change is matched by its directory only: two files in the same directory are the
      same change. */
  lemma SameDirectorySameChange(changes: seq<string>, dir: string, file1: string, file2: string)
    requires Paths.Separator !in file1 && Paths.Separator !in file2
    ensures ChangedLocations(changes + [dir + [Paths.Separator] + file1])
         == ChangedLocations(changes + [dir + [Paths.Separator] + file2])
  {
    Paths.DirIgnoresFileName(dir, file1, file2);
    var c1, c2 := changes + [dir + [Paths.Separator] + file1], changes + [dir + [Paths.Separator] + file2];
    assert ChangedLocations(c1) == ChangedLocations(changes) + {Paths.Dir(dir + [Paths.Separator] + file1)};
    assert ChangedLocations(c2) == ChangedLocations(changes) + {Paths.Dir(dir + [Paths.Separator] + file2)};
  }

  /** The outcome of the stage on a live context, for any iteration order the Go runtime
      may pick: the three error cases, and on success the targets are exactly the
      entrypoints with a dependency equal to the directory of some changed file, each
      once, stored under "targets" with every other key left as it was. */
  lemma ImpactOutcome(m: ModifiedDependencies, ctx: Context, w: World)
    requires ctx.Live?
    requires ctx.DepMapAt(DependenciesKey).Some? ==>
             Enumerates(w.order(ctx.DepMapAt(DependenciesKey).value), ctx.DepMapAt(DependenciesKey).value.Keys)
    ensures ctx.StrListAt(ChangesKey).None? ==> m.Do(ctx, w) == Failure(NoValidChanges)
    ensures ctx.StrListAt(ChangesKey).Some? && ctx.DepMapAt(DependenciesKey).None? ==>
            m.Do(ctx, w) == Failure(NoValidDependencies)
    ensures ctx.StrListAt(ChangesKey).Some? && ctx.DepMapAt(DependenciesKey).Some? ==>
            var changes, deps := ctx.StrListAt(ChangesKey).value, ctx.DepMapAt(DependenciesKey).value;
            var r := m.Do(ctx, w);
            (r.Failure? <==> forall ep :: ep in deps ==> !Affected(deps[ep], ChangedLocations(changes))) &&
            (r.Failure? ==> r.error == NoTargetsToRebuild) &&
            (r.Success? ==>
              r.value.Live? && TargetsKey in r.value.values && r.value.values[TargetsKey].StrList? &&
              r.value.values == ctx.values[TargetsKey := r.value.values[TargetsKey]] &&
              NoDuplicates(r.value.values[TargetsKey].list) &&
              forall ep :: ep in r.value.values[TargetsKey].list <==>
                ep in deps && exists c :: c in changes && Paths.Dir(c) in deps[ep])
  {
    if ctx.StrListAt(ChangesKey).Some? && ctx.DepMapAt(DependenciesKey).Some? {
      var changes, deps := ctx.StrListAt(ChangesKey).value, ctx.DepMapAt(DependenciesKey).value;
      var cs := ChangedLocations(changes);
      var order := w.order(deps);
      var t := Impacted(order, deps, cs);
      ImpactedNoDuplicates(order, deps, cs);
      forall ep
        ensures ep in t <==> ep in deps && Affected(deps[ep], cs)
        ensures (ep in deps && Affected(deps[ep], cs)) <==>
                (ep in deps && exists c :: c in changes && Paths.Dir(c) in deps[ep])
      {
        ImpactedMembers(order, deps, cs, ep);
        if ep in deps && Affected(deps[ep], cs) {
          var i :| 0 <= i < |deps[ep]| && deps[ep][i] in cs;
          var c :| c in changes && Paths.Dir(c) == deps[ep][i];
        }
        if ep in deps && exists c :: c in changes && Paths.Dir(c) in deps[ep] {
          var c :| c in changes && Paths.Dir(c) in deps[ep];
          var i :| 0 <= i < |deps[ep]| && deps[ep][i] == Paths.Dir(c);
        }
      }
      if |t| == 0 {
        forall ep | ep in deps
          ensures !Affected(deps[ep], cs)
        {
        }
      } else {
        assert t[0] in t;
      }
    }
  }
}
