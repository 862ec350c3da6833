/** The parts of Go's `strings` package the build pipeline relies on. */
module Strings {

  /** strings.HasPrefix */
  predicate HasPrefix(s: string, prefix: string) {
    |prefix| <= |s| && s[..|prefix|] == prefix
  }

  /** strings.TrimPrefix: putting the prefix back in front restores the input. */
  function TrimPrefix(s: string, prefix: string): (r: string)
    ensures HasPrefix(s, prefix) ==> prefix + r == s
    ensures !HasPrefix(s, prefix) ==> r == s
  {
    if HasPrefix(s, prefix) then s[|prefix|..] else s
  }

  /** strings.Contains: `sub` occurs somewhere in `s`. */
  predicate Contains(s: string, sub: string) {
    HasPrefix(s, sub) || (|s| > 0 && Contains(s[1..], sub))
  }

  /** strings.ReplaceAll for a non-empty pattern: every leftmost, non-overlapping
      occurrence of `pattern` is replaced by `replacement`. */
  function ReplaceAll(s: string, pattern: string, replacement: string): string
    requires |pattern| > 0
    decreases |s|
  {
    if |s| < |pattern| then s
    else if s[..|pattern|] == pattern then replacement + ReplaceAll(s[|pattern|..], pattern, replacement)
    else [s[0]] + ReplaceAll(s[1..], pattern, replacement)
  }

  /** strings.Split with a one-character separator: one piece more than there are
      separators, none of them holding the separator. */
  function Split(s: string, sep: char): (parts: seq<string>)
    ensures |parts| >= 1
    ensures forall k :: 0 <= k < |parts| ==> sep !in parts[k]
  {
    if s == [] then [""]
    else
      var rest := Split(s[1..], sep);
      if s[0] == sep then [""] + rest
      else [[s[0]] + rest[0]] + rest[1..]
  }

  /** strings.Join with a one-character separator. */
  function JoinWith(parts: seq<string>, sep: char): string {
    if |parts| == 0 then ""
    else if |parts| == 1 then parts[0]
    else parts[0] + [sep] + JoinWith(parts[1..], sep)
  }

  lemma {:induction false} ContainsFits(s: string, sub: string)
    requires Contains(s, sub)
    ensures |sub| <= |s|
  {
    if !HasPrefix(s, sub) {
      ContainsFits(s[1..], sub);
    }
  }

  /** Replacing a pattern that does not occur leaves the text unchanged. */
  lemma {:induction false} ReplaceAllAbsent(s: string, pattern: string, replacement: string)
    requires |pattern| > 0
    requires !Contains(s, pattern)
    ensures ReplaceAll(s, pattern, replacement) == s
  {
    if |s| >= |pattern| {
      assert s[..|pattern|] != pattern;
      ReplaceAllAbsent(s[1..], pattern, replacement);
      assert s == [s[0]] + s[1..];
    }
  }

  /** When the pattern occurs, the replacement text appears in the result. */
  lemma {:induction false} ReplaceAllInserts(s: string, pattern: string, replacement: string)
    requires |pattern| > 0
    requires Contains(s, pattern)
    ensures Contains(ReplaceAll(s, pattern, replacement), replacement)
  {
    ContainsFits(s, pattern);
    var r := ReplaceAll(s, pattern, replacement);
    if s[..|pattern|] == pattern {
      var tail := ReplaceAll(s[|pattern|..], pattern, replacement);
      assert r == replacement + tail;
      assert r[..|replacement|] == replacement;
    } else {
      assert !HasPrefix(s, pattern);
      ReplaceAllInserts(s[1..], pattern, replacement);
      var tail := ReplaceAll(s[1..], pattern, replacement);
      assert r == [s[0]] + tail;
      assert r[1..] == tail;
    }
  }

  /** The leftmost occurrence is replaced and the scan resumes after it: with no earlier
      occurrence in `a`, nor one that starts in `a` and overlaps the pattern, the result is
      `a`, the replacement, and the replaced rest. */
  lemma {:induction false} ReplaceAllFirstOccurrence(a: string, pattern: string, b: string, replacement: string)
    requires |pattern| > 0
    requires !Contains(a + pattern[..|pattern| - 1], pattern)
    ensures ReplaceAll(a + pattern + b, pattern, replacement) == a + replacement + ReplaceAll(b, pattern, replacement)
  {
    if a == [] {
      ReplaceAllAtStart(pattern, b, replacement);
      assert a + pattern + b == pattern + b;
    } else {
      NoOccurrenceAtStart(a, pattern, b);
      ReplaceAllFirstOccurrence(a[1..], pattern, b, replacement);
      ReplaceAllCopiesFirst(a, pattern, b, replacement);
    }
  }

  lemma ReplaceAllAtStart(pattern: string, b: string, replacement: string)
    requires |pattern| > 0
    ensures ReplaceAll(pattern + b, pattern, replacement) == replacement + ReplaceAll(b, pattern, replacement)
  {
    var s := pattern + b;
    assert s[..|pattern|] == pattern && s[|pattern|..] == b;
  }

  lemma ReplaceAllCopiesFirst(a: string, pattern: string, b: string, replacement: string)
    requires |a| > 0 && |pattern| > 0
    requires (a + pattern + b)[..|pattern|] != pattern
    requires ReplaceAll(a[1..] + pattern + b, pattern, replacement) ==
             a[1..] + replacement + ReplaceAll(b, pattern, replacement)
    ensures ReplaceAll(a + pattern + b, pattern, replacement) ==
            a + replacement + ReplaceAll(b, pattern, replacement)
  {
    var s := a + pattern + b;
    ReplaceAllNoMatch(s, pattern, replacement);
    assert s[0] == a[0] && s[1..] == a[1..] + pattern + b;
    assert a == [a[0]] + a[1..];
  }

  /** With no occurrence in a, nor one overlapping its end, a + pattern + b does not start
      with the pattern, and a without its first character keeps that property. */
  lemma NoOccurrenceAtStart(a: string, pattern: string, b: string)
    requires |a| > 0 && |pattern| > 0
    requires !Contains(a + pattern[..|pattern| - 1], pattern)
    ensures (a + pattern + b)[..|pattern|] != pattern
    ensures !Contains(a[1..] + pattern[..|pattern| - 1], pattern)
  {
    var x := a + pattern[..|pattern| - 1];
    var s := a + pattern + b;
    assert x[..|pattern|] == s[..|pattern|] by {
      forall i | 0 <= i < |pattern|
        ensures x[i] == s[i]
      {
        if i >= |a| {
          assert x[i] == pattern[i - |a|] == s[i];
        }
      }
    }
    assert x[1..] == a[1..] + pattern[..|pattern| - 1];
  }

  /** A text that does not start with the pattern keeps its first character. */
  lemma ReplaceAllNoMatch(s: string, pattern: string, replacement: string)
    requires 0 < |pattern| <= |s| && s[..|pattern|] != pattern
    ensures ReplaceAll(s, pattern, replacement) == [s[0]] + ReplaceAll(s[1..], pattern, replacement)
  {
  }

  /** Text before the first character of the pattern can hold no occurrence: it is copied
      unchanged. */
  lemma {:induction false} ReplaceAllSkips(a: string, b: string, pattern: string, replacement: string)
    requires |pattern| > 0 && pattern[0] !in a
    ensures ReplaceAll(a + b, pattern, replacement) == a + ReplaceAll(b, pattern, replacement)
  {
    if a != [] {
      var s := a + b;
      assert s[0] == a[0];
      assert a[0] in a;
      assert pattern[0] !in a[1..];
      ReplaceAllSkips(a[1..], b, pattern, replacement);
      assert s[1..] == a[1..] + b;
      assert a == [a[0]] + a[1..];
    } else {
      assert a + b == b;
    }
  }

  /** A pattern after text that cannot start it is the only thing replaced. */
  lemma ReplaceAllTrailing(a: string, pattern: string, replacement: string)
    requires |pattern| > 0 && pattern[0] !in a
    ensures ReplaceAll(a + pattern, pattern, replacement) == a + replacement
  {
    ReplaceAllSkips(a, pattern, pattern, replacement);
    ReplaceAllWhole(pattern, replacement);
  }

  /** The pattern on its own is replaced entirely. */
  lemma ReplaceAllWhole(pattern: string, replacement: string)
    requires |pattern| > 0
    ensures ReplaceAll(pattern, pattern, replacement) == replacement
  {
    assert pattern[..|pattern|] == pattern && pattern[|pattern|..] == [];
  }

  /** A character that no piece holds, other than the separator, is not in the join. */
  lemma {:induction false} JoinWithAvoids(parts: seq<string>, sep: char, c: char)
    requires c != sep
    requires forall k :: 0 <= k < |parts| ==> c !in parts[k]
    ensures c !in JoinWith(parts, sep)
  {
    if |parts| > 1 {
      JoinWithAvoids(parts[1..], sep, c);
    }
  }

  lemma {:induction false} JoinWithCons(c: char, parts: seq<string>, sep: char)
    requires |parts| >= 1
    ensures JoinWith([[c] + parts[0]] + parts[1..], sep) == [c] + JoinWith(parts, sep)
  {
    var q := [[c] + parts[0]] + parts[1..];
    assert q[1..] == parts[1..];
  }

  /** Joining the pieces of a split with the same separator gives back the input. */
  lemma {:induction false} JoinSplit(s: string, sep: char)
    ensures JoinWith(Split(s, sep), sep) == s
  {
    if s != [] {
      JoinSplit(s[1..], sep);
      var rest := Split(s[1..], sep);
      if s[0] == sep {
        assert Split(s, sep) == [""] + rest;
        assert ([""] + rest)[1..] == rest;
      } else {
        JoinWithCons(s[0], rest, sep);
      }
      assert s == [s[0]] + s[1..];
    }
  }

  lemma {:induction false} SplitWithoutSeparator(s: string, sep: char)
    requires sep !in s
    ensures Split(s, sep) == [s]
  {
    if s != [] {
      assert sep !in s[1..];
      SplitWithoutSeparator(s[1..], sep);
      assert s == [s[0]] + s[1..];
    }
  }

  /** Split unfolded once, for a text given as its first character and the rest. */
  lemma SplitCons(c: char, t: string, sep: char)
    ensures Split([c] + t, sep) ==
            if c == sep then [""] + Split(t, sep)
            else [[c] + Split(t, sep)[0]] + Split(t, sep)[1..]
  {
    assert ([c] + t)[0] == c && ([c] + t)[1..] == t;
  }

  /** Splitting around one separator splits each side independently. */
  lemma {:induction false} SplitAround(x: string, y: string, sep: char)
    ensures Split(x + [sep] + y, sep) == Split(x, sep) + Split(y, sep)
  {
    if x == [] {
      assert x + [sep] + y == [sep] + y;
      SplitCons(sep, y, sep);
    } else {
      SplitAround(x[1..], y, sep);
      SplitAroundCons(x[0], x[1..], y, sep);
      assert x == [x[0]] + x[1..];
      assert x + [sep] + y == [x[0]] + (x[1..] + [sep] + y);
    }
  }

  /** The inductive step of SplitAround: one more character in front of the left side. */
  lemma SplitAroundCons(c: char, t: string, y: string, sep: char)
    requires Split(t + [sep] + y, sep) == Split(t, sep) + Split(y, sep)
    ensures Split([c] + (t + [sep] + y), sep) == Split([c] + t, sep) + Split(y, sep)
  {
    SplitCons(c, t + [sep] + y, sep);
    SplitCons(c, t, sep);
    ConsPieces(c, sep, Split(t + [sep] + y, sep), Split(t, sep), Split(y, sep));
  }

  /** Putting a character in front of a split, as SplitCons does, commutes with appending
      further pieces. */
  lemma ConsPieces(c: char, sep: char, whole: seq<string>, left: seq<string>, right: seq<string>)
    requires |left| >= 1 && whole == left + right
    ensures (if c == sep then [""] + whole else [[c] + whole[0]] + whole[1..]) ==
            (if c == sep then [""] + left else [[c] + left[0]] + left[1..]) + right
  {
    assert whole[0] == left[0] && whole[1..] == left[1..] + right;
  }

  /** Words joined by the separator, then one more separator-free piece: the split gives
      the words and that piece. */
  lemma SplitJoinThen(words: seq<string>, last: string, sep: char)
    requires |words| >= 1
    requires forall k :: 0 <= k < |words| ==> sep !in words[k]
    requires sep !in last
    ensures Split(JoinWith(words, sep) + [sep] + last, sep) == words + [last]
  {
    SplitAround(JoinWith(words, sep), last, sep);
    SplitJoin(words, sep);
    SplitWithoutSeparator(last, sep);
  }

  /** Splitting a join of separator-free pieces gives back the pieces. */
  lemma {:induction false} SplitJoin(parts: seq<string>, sep: char)
    requires |parts| >= 1
    requires forall k :: 0 <= k < |parts| ==> sep !in parts[k]
    ensures Split(JoinWith(parts, sep), sep) == parts
  {
    SplitWithoutSeparator(parts[0], sep);
    if |parts| > 1 {
      SplitJoin(parts[1..], sep);
      SplitAround(parts[0], JoinWith(parts[1..], sep), sep);
      assert parts == [parts[0]] + parts[1..];
    }
  }
}
