/**
 * POSIX-style stand-ins for the `path` functions the plugins call: `isAbsolute`, `resolve`
 * against the working directory, and `basename`. `resolve` is simplified: it joins without
 * normalising `.` and `..` segments.
 */
module Paths {

  predicate IsAbsolute(p: string) {
    |p| > 0 && p[0] == '/'
  }

  /** `path.resolve(cwd, p)` for an absolute `cwd`, without segment normalisation. */
  function Resolve(cwd: string, p: string): (r: string)
    ensures IsAbsolute(p) ==> r == p
    ensures IsAbsolute(cwd) ==> IsAbsolute(r)
    ensures !IsAbsolute(p) ==> r == cwd + "/" + p
  {
    if IsAbsolute(p) then p else cwd + "/" + p
  }

  function StripTrailingSlashes(p: string): (r: string)
    ensures r <= p
    ensures |r| > 0 ==> r[|r| - 1] != '/'
  {
    if |p| > 0 && p[|p| - 1] == '/' then StripTrailingSlashes(p[..|p| - 1]) else p
  }

  /** The characters after the last `/` of `p`. */
  function LastSegment(p: string): (r: string)
    ensures |r| <= |p|
    ensures forall i :: 0 <= i < |r| ==> r[i] != '/'
  {
    if |p| == 0 || p[|p| - 1] == '/' then "" else LastSegment(p[..|p| - 1]) + [p[|p| - 1]]
  }

  /** The last segment ends `p` and, unless it is all of `p`, follows a `/`. */
  lemma {:induction false} LastSegmentIsSuffix(p: string)
    ensures var r := LastSegment(p);
            && r == p[|p| - |r|..]
            && (|r| < |p| ==> p[|p| - |r| - 1] == '/')
  {
    if |p| > 0 && p[|p| - 1] != '/' {
      var init := p[..|p| - 1];
      LastSegmentIsSuffix(init);
      var r := LastSegment(p);
      assert init[|init| - (|r| - 1)..] + [p[|p| - 1]] == p[|p| - |r|..];
    }
  }

  /** `path.basename(p)`: the last segment once trailing separators are dropped. */
  function Basename(p: string): (r: string)
    ensures forall i :: 0 <= i < |r| ==> r[i] != '/'
  {
    LastSegment(StripTrailingSlashes(p))
  }

  /** A file name under any directory has itself as basename. */
  lemma {:induction false} BasenameOfJoin(dir: string, name: string)
    requires |name| > 0 && forall i :: 0 <= i < |name| ==> name[i] != '/'
    ensures Basename(dir + "/" + name) == name
  {
    var p := dir + "/" + name;
    assert StripTrailingSlashes(p) == p;
    LastSegmentOfSuffix(dir + "/", name);
  }

  lemma {:induction false} LastSegmentOfSuffix(prefix: string, name: string)
    requires |prefix| > 0 && prefix[|prefix| - 1] == '/'
    requires forall i :: 0 <= i < |name| ==> name[i] != '/'
    ensures LastSegment(prefix + name) == name
  {
    if |name| == 0 {
      assert prefix + name == prefix;
    } else {
      var init := name[..|name| - 1];
      assert (prefix + name)[..|prefix + name| - 1] == prefix + init;
      LastSegmentOfSuffix(prefix, init);
      assert init + [name[|name| - 1]] == name;
    }
  }
}
