/**
 * The two path utilities the converter relies on, `Path.Combine` and `Path.GetExtension`,
 * with the directory separators of the host: `/` everywhere, and also `\` on Windows.
 */
module Paths {
  import opened Wrappers
  import opened Strings
  import opened Platform

  predicate IsDirectorySeparator(os: OS, c: char) {
    c == '/' || (os == Windows && c == '\\')
  }

  /** The separator `Path.Combine` inserts. */
  function DirectorySeparator(os: OS): (c: char)
    ensures IsDirectorySeparator(os, c)
  {
    if os == Windows then '\\' else '/'
  }

  /**
   * `Path.Combine(first, second)` for a relative `second`: an empty part yields the other,
   * and a separator is inserted only when neither side already has one at the seam.
   */
  function Combine(os: OS, first: string, second: string): (r: string)
    ensures StartsWith(r, first) && EndsWith(r, second)
    ensures |r| <= |first| + |second| + 1
  {
    if first == "" then second
    else if second == "" then first
    else if IsDirectorySeparator(os, first[|first| - 1]) || IsDirectorySeparator(os, second[0]) then
      first + second
    else
      first + [DirectorySeparator(os)] + second
  }

  /**
   * The index of the last `.` in `path[..i]` that comes after the last directory separator
   * of `path[..i]`, when there is one.
   */
  function LastDot(os: OS, path: string, i: nat): (r: Option<nat>)
    requires i <= |path|
    ensures r.Some? ==> r.value < i && path[r.value] == '.'
    ensures r.Some? ==> forall k :: r.value < k < i ==> path[k] != '.' && !IsDirectorySeparator(os, path[k])
    decreases i
  {
    if i == 0 then None
    else if path[i - 1] == '.' then Some(i - 1)
    else if IsDirectorySeparator(os, path[i - 1]) then None
    else LastDot(os, path, i - 1)
  }

  /** `Path.GetExtension`: from the last `.` of the last segment, or empty when that `.` ends the path. */
  function Extension(os: OS, path: string): (r: string)
    ensures r == "" || (|r| >= 2 && r[0] == '.' && EndsWith(path, r))
    ensures forall k :: 1 <= k < |r| ==> r[k] != '.' && !IsDirectorySeparator(os, r[k])
  {
    match LastDot(os, path, |path|)
    case None => ""
    case Some(j) => if j == |path| - 1 then "" else path[j..]
  }

  /** An extension: a `.` followed by at least one character that is neither `.` nor a separator. */
  predicate IsExtensionShaped(os: OS, e: string) {
    |e| >= 2 && e[0] == '.' && forall k :: 1 <= k < |e| ==> e[k] != '.' && !IsDirectorySeparator(os, e[k])
  }

  lemma {:induction false} LastDotWithin(os: OS, stem: string, e: string, i: nat)
    requires IsExtensionShaped(os, e)
    requires |stem| < i <= |stem + e|
    ensures LastDot(os, stem + e, i) == Some(|stem|)
    decreases i
  {
    var p := stem + e;
    if i - 1 > |stem| {
      assert p[i - 1] == e[i - 1 - |stem|];
      LastDotWithin(os, stem, e, i - 1);
    } else {
      assert p[i - 1] == e[0];
    }
  }

  /** Whatever precedes it, a path that ends in an extension has exactly that extension. */
  lemma ExtensionOfAppended(os: OS, stem: string, e: string)
    requires IsExtensionShaped(os, e)
    ensures Extension(os, stem + e) == e
  {
    LastDotWithin(os, stem, e, |stem + e|);
    assert (stem + e)[|stem|..] == e;
  }

  /** Conversely, every non-empty extension is extension-shaped and is the tail of its path. */
  lemma ExtensionIsTail(os: OS, path: string)
    ensures var e := Extension(os, path);
      e == "" || (IsExtensionShaped(os, e) && path == path[..|path| - |e|] + e)
  {
  }
}
