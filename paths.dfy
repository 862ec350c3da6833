/** Slash-separated paths: the parts of Go's `path` and `path/filepath` the pipeline uses,
    for paths that contain no `..` segment, with `/` as the separator. */
module Paths {
  import opened Strings

  const Separator: char := '/'

  /** A single path segment that cleaning keeps unchanged. */
  predicate IsName(seg: string) {
    seg != "" && seg != "." && seg != ".." && Separator !in seg
  }

  /** A clean relative path: non-empty, with every segment a plain name. */
  predicate IsCleanRelative(p: string) {
    forall seg :: seg in Split(p, Separator) ==> IsName(seg)
  }

  /** The segments that cleaning keeps: empty and `.` segments are dropped. */
  function KeptSegments(segs: seq<string>): seq<string> {
    if segs == [] then []
    else (if segs[0] == "" || segs[0] == "." then [] else [segs[0]]) + KeptSegments(segs[1..])
  }

  /** Go's Clean for paths without `..`: repeated separators, `.` segments and a trailing
      separator go away; a rooted path stays rooted; an empty result becomes ".". */
  function Clean(p: string): string {
    var body := JoinWith(KeptSegments(Split(p, Separator)), Separator);
    if |p| > 0 && p[0] == Separator then [Separator] + body
    else if body == "" then "."
    else body
  }

  /** The index of the last separator in p, or -1 when it has none. */
  function LastSeparator(p: string): (i: int)
    ensures -1 <= i < |p|
    ensures i >= 0 ==> p[i] == Separator
    ensures forall k :: i < k < |p| ==> p[k] != Separator
  {
    if p == [] then -1
    else if p[|p| - 1] == Separator then |p| - 1
    else LastSeparator(p[..|p| - 1])
  }

  /** path.Dir: everything up to the last separator, cleaned. */
  function Dir(p: string): string {
    Clean(p[..LastSeparator(p) + 1])
  }

  /** filepath.Join of two elements: empty elements are skipped, the rest joined by the
      separator and cleaned; two empty elements give "". */
  function Join(a: string, b: string): string {
    if a != "" then Clean(a + [Separator] + b)
    else if b != "" then Clean(b)
    else ""
  }

  /** makeLocalPath: "./<target>/". */
  function MakeLocalPath(target: string): string {
    "." + [Separator] + target + [Separator]
  }

  /** The local path holds no character that the target lacks, other than '.' and the
      separator. */
  lemma LocalPathAvoids(target: string, c: char)
    requires c != '.' && c != Separator && c !in target
    ensures c !in MakeLocalPath(target)
  {
    assert MakeLocalPath(target) == ['.', Separator] + target + [Separator];
  }

  lemma {:induction false} KeptSegmentsAppend(xs: seq<string>, ys: seq<string>)
    ensures KeptSegments(xs + ys) == KeptSegments(xs) + KeptSegments(ys)
  {
    if xs != [] {
      assert (xs + ys)[0] == xs[0];
      assert (xs + ys)[1..] == xs[1..] + ys;
      KeptSegmentsAppend(xs[1..], ys);
    } else {
      assert xs + ys == ys;
    }
  }

  /** The first piece of a split is empty exactly when the text is empty or starts with the separator. */
  lemma SplitHead(s: string, sep: char)
    ensures Split(s, sep)[0] == "" <==> s == [] || s[0] == sep
  {
  }

  lemma {:induction false} KeptSegmentsOfNames(segs: seq<string>)
    requires forall seg :: seg in segs ==> IsName(seg)
    ensures KeptSegments(segs) == segs
  {
    if segs != [] {
      assert segs[0] in segs;
      KeptSegmentsOfNames(segs[1..]);
    }
  }

  /** A clean relative path is its own cleaning. */
  lemma CleanRelativeIsClean(p: string)
    requires IsCleanRelative(p)
    ensures Clean(p) == p
    ensures p != "" && p[0] != Separator
  {
    var segs := Split(p, Separator);
    assert segs[0] in segs;
    SplitHead(p, Separator);
    KeptSegmentsOfNames(segs);
    JoinSplit(p, Separator);
  }

  /** Cleaning a clean relative path with a trailing separator removes the separator. */
  lemma CleanTrailingSeparator(p: string)
    requires IsCleanRelative(p)
    ensures Clean(p + [Separator]) == p
  {
    CleanRelativeIsClean(p);
    assert p + [Separator] == p + [Separator] + "";
    SplitAround(p, "", Separator);
    assert Split("", Separator) == [""];
    KeptSegmentsAppend(Split(p, Separator), [""]);
    assert KeptSegments([""]) == [];
    KeptSegmentsOfNames(Split(p, Separator));
    assert KeptSegments(Split(p + [Separator], Separator)) == Split(p, Separator);
    JoinSplit(p, Separator);
    assert (p + [Separator])[0] == p[0];
  }

  lemma LastSeparatorOfChild(d: string, f: string)
    requires Separator !in f
    ensures LastSeparator(d + [Separator] + f) == |d|
  {
    var p := d + [Separator] + f;
    var i := LastSeparator(p);
    assert p[|d|] == Separator;
    forall k | |d| < k < |p|
      ensures p[k] != Separator
    {
      assert p[k] == f[k - |d| - 1];
      assert f[k - |d| - 1] in f;
    }
    assert i >= |d|;
  }

  /** Two files in the same directory have the same Dir, whatever that directory is. */
  lemma DirIgnoresFileName(d: string, f1: string, f2: string)
    requires Separator !in f1 && Separator !in f2
    ensures Dir(d + [Separator] + f1) == Dir(d + [Separator] + f2)
  {
    LastSeparatorOfChild(d, f1);
    LastSeparatorOfChild(d, f2);
    assert (d + [Separator] + f1)[..|d| + 1] == d + [Separator];
    assert (d + [Separator] + f2)[..|d| + 1] == d + [Separator];
  }

  /** The Dir of a file inside a clean relative directory is that directory. */
  lemma DirOfChild(d: string, f: string)
    requires IsCleanRelative(d) && Separator !in f
    ensures Dir(d + [Separator] + f) == d
  {
    LastSeparatorOfChild(d, f);
    assert (d + [Separator] + f)[..|d| + 1] == d + [Separator];
    CleanTrailingSeparator(d);
  }

  /** A path without a separator (including "") lies in ".". */
  lemma DirOfBareName(f: string)
    requires Separator !in f
    ensures Dir(f) == "."
  {
    assert forall k :: 0 <= k < |f| ==> f[k] in f;
    assert LastSeparator(f) == -1;
    assert f[..0] == "";
    assert Split("", Separator) == [""];
    assert KeptSegments([""]) == [];
  }

  /** Joining a clean relative directory and a name appends the name after a separator. */
  lemma JoinChild(prefix: string, name: string)
    requires IsCleanRelative(prefix) && IsName(name)
    ensures Join(prefix, name) == prefix + [Separator] + name
    ensures IsCleanRelative(Join(prefix, name))
  {
    CleanRelativeIsClean(prefix);
    var p := prefix + [Separator] + name;
    SplitAround(prefix, name, Separator);
    SplitWithoutSeparator(name, Separator);
    assert Split(p, Separator) == Split(prefix, Separator) + [name];
    assert IsCleanRelative(p);
    CleanRelativeIsClean(p);
  }

  /** The local path of a clean relative target names that target: cleaning it drops the
      leading "./" and the trailing separator. */
  lemma LocalPathNamesTarget(target: string)
    requires IsCleanRelative(target)
    ensures Clean(MakeLocalPath(target)) == target
  {
    CleanRelativeIsClean(target);
    var p := MakeLocalPath(target);
    assert p == "." + [Separator] + (target + [Separator]);
    SplitAround(".", target + [Separator], Separator);
    assert target + [Separator] == target + [Separator] + "";
    SplitAround(target, "", Separator);
    SplitWithoutSeparator(".", Separator);
    assert Split("", Separator) == [""];
    var segs := Split(target, Separator);
    assert Split(p, Separator) == ["."] + (segs + [""]);
    KeptSegmentsAppend(["."], segs + [""]);
    KeptSegmentsAppend(segs, [""]);
    assert KeptSegments([""]) == [] && KeptSegments(["."]) == [];
    KeptSegmentsOfNames(segs);
    assert KeptSegments(Split(p, Separator)) == segs;
    JoinSplit(target, Separator);
    assert p[0] == '.';
  }

  /** Joining two clean relative paths puts a separator between them. */
  lemma JoinCleanRelative(a: string, b: string)
    requires IsCleanRelative(a) && IsCleanRelative(b)
    ensures Join(a, b) == a + [Separator] + b
    ensures IsCleanRelative(Join(a, b))
  {
    CleanRelativeIsClean(a);
    var p := a + [Separator] + b;
    SplitAround(a, b, Separator);
    assert IsCleanRelative(p);
    CleanRelativeIsClean(p);
  }

  /** A path given as "./<b>" and resolved in directory a names a/b: the "." segment
      goes away. */
  lemma JoinDotRelative(a: string, b: string)
    requires IsCleanRelative(a) && IsCleanRelative(b)
    ensures Join(a, "./" + b) == a + [Separator] + b
  {
    CleanRelativeIsClean(a);
    var target := a + [Separator] + b;
    var p := a + [Separator] + ("./" + b);
    DottedSegments(a, b);
    JoinSplit(target, Separator);
    assert p[0] == a[0];
  }

  /** Cleaning a/./b keeps the segments of a/b. */
  lemma DottedSegments(a: string, b: string)
    requires IsCleanRelative(a) && IsCleanRelative(b)
    ensures KeptSegments(Split(a + [Separator] + ("./" + b), Separator)) == Split(a + [Separator] + b, Separator)
  {
    SplitDotted(a, b);
    KeptSegmentsDropDot(Split(a, Separator), Split(b, Separator));
    SplitAround(a, b, Separator);
  }

  lemma SplitDotted(a: string, b: string)
    ensures Split(a + [Separator] + ("./" + b), Separator) == Split(a, Separator) + (["."] + Split(b, Separator))
  {
    var dotted := "." + [Separator] + b;
    assert "./" + b == dotted;
    SplitAround(a, dotted, Separator);
    SplitAround(".", b, Separator);
    SplitWithoutSeparator(".", Separator);
  }

  lemma KeptSegmentsDropDot(xs: seq<string>, ys: seq<string>)
    requires forall seg :: seg in xs ==> IsName(seg)
    requires forall seg :: seg in ys ==> IsName(seg)
    ensures KeptSegments(xs + (["."] + ys)) == xs + ys
  {
    KeptSegmentsAppend(xs, ["."] + ys);
    KeptSegmentsSkipDot(ys);
    KeptSegmentsOfNames(xs);
    KeptSegmentsOfNames(ys);
  }

  lemma KeptSegmentsSkipDot(ys: seq<string>)
    ensures KeptSegments(["."] + ys) == KeptSegments(ys)
  {
    assert (["."] + ys)[0] == "." && (["."] + ys)[1..] == ys;
  }

  /** Dir undoes Join: the directory of prefix/name is prefix. */
  lemma DirOfJoin(prefix: string, name: string)
    requires IsCleanRelative(prefix) && IsName(name)
    ensures Dir(Join(prefix, name)) == prefix
  {
    JoinChild(prefix, name);
    DirOfChild(prefix, name);
  }
}
