/**
 * The parts of Go's `strings` package that the key-path resolver uses:
 * `Index`, `HasSuffix` and `Split` with a non-empty separator.
 */
module GoStrings {

  /** `sub` occurs in `s` starting at position `i`. */
  predicate OccursAt(s: string, sub: string, i: int) {
    0 <= i && i + |sub| <= |s| && s[i..i + |sub|] == sub
  }

  /** `strings.Index`: the position of the first occurrence of `sub` in `s`, or -1. */
  function Index(s: string, sub: string): (i: int)
    ensures -1 <= i <= |s|
    ensures i >= 0 ==> OccursAt(s, sub, i)
    ensures forall j :: 0 <= j && (i < 0 || j < i) ==> !OccursAt(s, sub, j)
  {
    IndexFrom(s, sub, 0)
  }

  function IndexFrom(s: string, sub: string, from: nat): (i: int)
    requires from <= |s|
    ensures i == -1 || (from <= i <= |s| && OccursAt(s, sub, i))
    ensures forall j :: from <= j && (i < 0 || j < i) ==> !OccursAt(s, sub, j)
    decreases |s| - from
  {
    if from + |sub| > |s| then -1
    else if s[from..from + |sub|] == sub then from
    else IndexFrom(s, sub, from + 1)
  }

  /** `strings.HasSuffix`. */
  predicate HasSuffix(s: string, suffix: string)
    ensures HasSuffix(s, suffix) <==> |suffix| <= |s| && s == s[..|s| - |suffix|] + suffix
  {
    |suffix| <= |s| && s[|s| - |suffix|..] == suffix
  }

  /** The inverse of `Split`: the pieces glued together with `sep` between them. */
  function Join(parts: seq<string>, sep: string): string {
    if parts == [] then ""
    else if |parts| == 1 then parts[0]
    else parts[0] + sep + Join(parts[1..], sep)
  }

  /**
   * `strings.Split` with a non-empty separator: the pieces of `s` between
   * successive non-overlapping occurrences of `sep`, found left to right.
   * There is always at least one piece, and joining the pieces gives `s` back.
   */
  function Split(s: string, sep: string): (parts: seq<string>)
    requires sep != ""
    ensures |parts| >= 1
    ensures Join(parts, sep) == s
    decreases |s|
  {
    var i := Index(s, sep);
    if i < 0 then [s]
    else [s[..i]] + Split(s[i + |sep|..], sep)
  }

  /** A string without the separator's first character contains no separator. */
  lemma NoOccurrence(s: string, sep: string)
    requires sep != "" && sep[0] !in s
    ensures Index(s, sep) == -1
  {
    forall j | 0 <= j && j + |sep| <= |s|
      ensures !OccursAt(s, sep, j)
    {
      assert s[j..j + |sep|][0] == s[j] && s[j] in s;
    }
  }

  /** Splitting a string that holds no separator character gives that one piece. */
  lemma SplitWithoutSeparator(s: string, sep: string)
    requires sep != "" && sep[0] !in s
    ensures Split(s, sep) == [s]
  {
    NoOccurrence(s, sep);
  }

  /**
   * `Split` undoes `Join` when no piece contains the separator's first
   * character (so no occurrence can straddle a boundary).
   */
  lemma {:induction false} SplitOfJoin(parts: seq<string>, sep: string)
    requires sep != "" && |parts| >= 1
    requires forall k :: 0 <= k < |parts| ==> sep[0] !in parts[k]
    ensures Split(Join(parts, sep), sep) == parts
    decreases |parts|
  {
    if |parts| == 1 {
      SplitWithoutSeparator(parts[0], sep);
    } else {
      var p0, rest := parts[0], Join(parts[1..], sep);
      var s := p0 + sep + rest;
      assert OccursAt(s, sep, |p0|) by {
        assert s[|p0|..|p0| + |sep|] == sep;
      }
      forall j | 0 <= j < |p0|
        ensures !OccursAt(s, sep, j)
      {
        assert p0[j] in p0;
        if j + |sep| <= |s| {
          assert s[j..j + |sep|][0] == s[j] == p0[j];
        }
      }
      assert Index(s, sep) == |p0|;
      assert s[..|p0|] == p0;
      assert s[|p0| + |sep|..] == rest;
      SplitOfJoin(parts[1..], sep);
    }
  }
}
