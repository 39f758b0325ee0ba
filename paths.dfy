/**
 * POSIX file paths as Node's `path` module treats them. A resolved path is
 * the list of its segments below the root ("/a/b" is ["a", "b"]); every
 * segment is non-empty, holds no "/" and is neither "." nor "..".
 */
module Paths {
  import opened Text

  predicate ValidSegment(seg: string) {
    seg != "" && seg != "." && seg != ".." && '/' !in seg
  }

  type Path = seq<string>

  /** A path as `path.resolve` returns it: only valid segments. */
  predicate Normal(p: Path) {
    forall i :: 0 <= i < |p| ==> ValidSegment(p[i])
  }

  /** The path as text: "/" for the root, "/a/b" otherwise. */
  function PathString(p: Path): string {
    "/" + Join(p, '/')
  }

  /** One segment of normalisation: "" and "." stay put, ".." climbs (never above the root), anything else descends. */
  function Step(p: Path, seg: string): Path {
    if seg == "" || seg == "." then p
    else if seg == ".." then (if |p| == 0 then p else p[..|p| - 1])
    else p + [seg]
  }

  function Walk(p: Path, segs: seq<string>): Path
    decreases |segs|
  {
    if |segs| == 0 then p else Walk(Step(p, segs[0]), segs[1..])
  }

  /** `path.resolve(base, rel)`: an absolute `rel` starts again from the root. */
  function Resolve(base: Path, rel: string): Path {
    Walk(if StartsWith(rel, "/") then [] else base, Split(rel, '/'))
  }

  /** `path.dirname` of a resolved path: the root is its own parent. */
  function Dirname(p: Path): (r: Path)
    ensures |p| > 0 ==> r + [p[|p| - 1]] == p
  {
    if |p| == 0 then [] else p[..|p| - 1]
  }

  /**
   * `path.basename(p, ext)`: the last segment, without `ext` when it ends
   * with `ext` and is longer than it (a file named exactly ".md" keeps its name).
   */
  function Basename(p: Path, ext: string): string {
    if |p| == 0 then ""
    else
      var last := p[|p| - 1];
      if |last| > |ext| && EndsWith(last, ext) then last[..|last| - |ext|] else last
  }

  /**
   * One segment of `path.normalize` on a relative path: "" and "." vanish,
   * ".." drops the segment before it, or is kept when there is none to drop
   * (or that one is itself "..").
   */
  function RelativeStep(acc: seq<string>, seg: string): seq<string> {
    if seg == "" || seg == "." then acc
    else if seg == ".." && |acc| > 0 && acc[|acc| - 1] != ".." then acc[..|acc| - 1]
    else acc + [seg]
  }

  function NormalizeRelative(acc: seq<string>, segs: seq<string>): seq<string>
    decreases |segs|
  {
    if |segs| == 0 then acc else NormalizeRelative(RelativeStep(acc, segs[0]), segs[1..])
  }

  /**
   * `path.join(dir, name)`: the non-empty parts joined by "/", then
   * normalised. A trailing "/" is kept, an empty relative result is ".", and
   * an absolute text is walked from the root.
   */
  function JoinPaths(dir: string, name: string): string {
    var text := if name == "" then dir else if dir == "" then name else dir + "/" + name;
    if text == "" then "."
    else
      var tail := if EndsWith(text, "/") then "/" else "";
      if StartsWith(text, "/") then
        var p := Walk([], Split(text, '/'));
        if |p| == 0 then "/" else PathString(p) + tail
      else
        var segs := NormalizeRelative([], Split(text, '/'));
        if |segs| == 0 then "." + tail else Join(segs, '/') + tail
  }

  /** `a[..k] == b[..k]` for the longest such `k`. */
  function CommonPrefix(a: Path, b: Path): (k: nat)
    ensures k <= |a| && k <= |b| && a[..k] == b[..k]
    ensures k < |a| && k < |b| ==> a[k] != b[k]
    decreases |a|
  {
    if |a| == 0 || |b| == 0 || a[0] != b[0] then 0
    else
      var k := CommonPrefix(a[1..], b[1..]);
      assert a[..k + 1] == [a[0]] + a[1..][..k];
      assert b[..k + 1] == [b[0]] + b[1..][..k];
      k + 1
  }

  /** `path.relative(from, to)` as a list of segments: climb out of `from` to the common prefix, then descend into `to`. */
  function Relative(from: Path, to: Path): seq<string> {
    var k := CommonPrefix(from, to);
    seq(|from| - k, _ => "..") + to[k..]
  }

  /** `p` lies strictly below `dir`. */
  predicate StrictlyInside(p: Path, dir: Path) {
    |p| > |dir| && p[..|dir|] == dir
  }

  /** Seen from a directory that contains it, a path is its remaining segments. */
  lemma RelativeFromAncestor(dir: Path, rest: seq<string>)
    ensures Relative(dir, dir + rest) == rest
  {
    var k := CommonPrefix(dir, dir + rest);
    assert (dir + rest)[..|dir|] == dir;
    assert (dir + rest)[k..] == rest;
  }

  lemma {:induction false} SplitPiecesSepFree(s: string, sep: char)
    ensures SepFree(Split(s, sep), sep)
    decreases |s|
  {
    if |s| > 0 {
      SplitPiecesSepFree(s[1..], sep);
    }
  }

  /** No segment of a resolved path holds a "/". */
  lemma NormalSepFree(p: Path)
    requires Normal(p)
    ensures SepFree(p, '/')
  {
    forall i | 0 <= i < |p| ensures '/' !in p[i] {
      assert ValidSegment(p[i]);
    }
  }

  lemma {:induction false} WalkKeepsNormal(p: Path, segs: seq<string>)
    requires Normal(p) && SepFree(segs, '/')
    ensures Normal(Walk(p, segs))
    decreases |segs|
  {
    if |segs| > 0 {
      WalkKeepsNormal(Step(p, segs[0]), segs[1..]);
    }
  }

  /** Whatever is resolved against a resolved path is itself resolved. */
  lemma ResolveNormal(base: Path, rel: string)
    requires Normal(base)
    ensures Normal(Resolve(base, rel))
  {
    SplitPiecesSepFree(rel, '/');
    WalkKeepsNormal(if StartsWith(rel, "/") then [] else base, Split(rel, '/'));
  }

  lemma {:induction false} WalkPlain(p: Path, segs: seq<string>)
    requires Normal(segs)
    ensures Walk(p, segs) == p + segs
    decreases |segs|
  {
    if |segs| > 0 {
      WalkPlain(p + [segs[0]], segs[1..]);
      assert p + [segs[0]] + segs[1..] == p + segs;
    }
  }

  /** Resolving a plain relative path appends its segments. */
  lemma ResolvePlain(base: Path, segs: seq<string>)
    requires Normal(segs) && |segs| >= 1
    ensures Resolve(base, Join(segs, '/')) == base + segs
  {
    var rel := Join(segs, '/');
    SplitJoin(segs, '/');
    if |segs| > 1 {
      assert rel == segs[0] + "/" + Join(segs[1..], '/');
      assert rel[..|segs[0]|] == segs[0];
    }
    assert rel[..|segs[0]|] == segs[0];
    assert rel[0] == segs[0][0];
    assert segs[0][0] != '/' by {
      assert ValidSegment(segs[0]);
    }
    WalkPlain(base, segs);
  }

  /** The text of a path below `dir` is the text of `dir`, a slash, and the rest joined by slashes. */
  lemma PathStringBelow(dir: Path, rest: seq<string>)
    requires |dir| >= 1 && |rest| >= 1
    ensures PathString(dir + rest) == PathString(dir) + "/" + Join(rest, '/')
  {
    JoinAppend(dir, rest, '/');
  }

  /**
   * The string test `pathString.startsWith(dirString + "/")` holds exactly
   * when the path lies strictly below the (non-root) directory.
   */
  lemma ContainmentCheck(p: Path, dir: Path)
    requires Normal(p) && Normal(dir) && |dir| >= 1
    ensures StartsWith(PathString(p), PathString(dir) + "/") <==> StrictlyInside(p, dir)
  {
    var ps, ds := PathString(p), PathString(dir) + "/";
    if StrictlyInside(p, dir) {
      var rest := p[|dir|..];
      assert p == dir + rest;
      PathStringBelow(dir, rest);
      assert ps == ds + Join(rest, '/');
      assert ps[..|ds|] == ds;
    }
    if StartsWith(ps, ds) {
      assert |Join(dir, '/')| >= |dir[0]| >= 1 by {
        if |dir| > 1 { assert Join(dir, '/') == dir[0] + "/" + Join(dir[1..], '/'); }
      }
      assert |p| >= 1;
      var w := ps[|ds|..];
      assert ps == ds + w;
      assert Join(p, '/') == Join(dir, '/') + "/" + w by {
        assert Join(p, '/') == ps[1..];
        assert ds + w == "/" + (Join(dir, '/') + "/" + w);
        assert (ds + w)[1..] == Join(dir, '/') + "/" + w;
      }
      SplitJoin(p, '/');
      SplitJoinThen(dir, '/', w);
      assert p == dir + Split(w, '/');
      assert p[..|dir|] == dir;
    }
  }

  /** Walking a concatenation walks the first part, then the second. */
  lemma {:induction false} WalkAppend(p: Path, a: seq<string>, b: seq<string>)
    ensures Walk(p, a + b) == Walk(Walk(p, a), b)
    decreases |a|
  {
    if |a| > 0 {
      assert (a + b)[1..] == a[1..] + b;
      WalkAppend(Step(p, a[0]), a[1..], b);
    } else {
      assert a + b == b;
    }
  }

  /** An absolute path text "/s1/.../sn" resolves, whatever the base, by walking its segments from the root. */
  lemma ResolveAbsolute(base: Path, segs: seq<string>)
    requires |segs| >= 1 && SepFree(segs, '/')
    ensures Resolve(base, "/" + Join(segs, '/')) == Walk([], segs)
  {
    var rel := "/" + Join(segs, '/');
    assert rel == "" + ['/'] + Join(segs, '/');
    SplitCons("", '/', Join(segs, '/'));
    SplitJoin(segs, '/');
    assert Split(rel, '/') == [""] + segs;
    assert ([""] + segs)[1..] == segs;
  }

  lemma {:induction false} NormalizePlain(acc: seq<string>, segs: seq<string>)
    requires Normal(segs)
    ensures NormalizeRelative(acc, segs) == acc + segs
    decreases |segs|
  {
    if |segs| > 0 {
      NormalizePlain(acc + [segs[0]], segs[1..]);
      assert acc + [segs[0]] + segs[1..] == acc + segs;
    }
  }

  /** A list joined by "/" whose last part is a valid segment does not end with "/". */
  lemma JoinPlainNoTrailingSlash(parts: seq<string>)
    requires |parts| >= 1 && ValidSegment(parts[|parts| - 1])
    ensures !EndsWith(Join(parts, '/'), "/")
  {
    var n := |parts|;
    var last := parts[n - 1];
    if n == 1 {
      assert Join(parts, '/') == "" + last;
      NoTrailingSlash("", last);
    } else {
      var init := parts[..n - 1];
      assert init + [last] == parts;
      JoinSnoc(init, last, '/');
      NoTrailingSlash(Join(init, '/') + ['/'], last);
    }
  }

  lemma NoTrailingSlash(x: string, last: string)
    requires last != "" && '/' !in last
    ensures !EndsWith(x + last, "/")
  {
    var t := x + last;
    assert t[|t| - 1] == last[|last| - 1];
    assert last[|last| - 1] in last;
  }

  /** Joining a relative directory and a plain relative path only puts a "/" between them. */
  lemma JoinPathsPlain(dir: string, segs: seq<string>)
    requires ValidSegment(dir) && Normal(segs) && |segs| >= 1
    ensures JoinPaths(dir, Join(segs, '/')) == dir + "/" + Join(segs, '/')
  {
    var name := Join(segs, '/');
    var parts := [dir] + segs;
    var text := dir + "/" + name;
    assert Normal(parts) by {
      forall i | 0 <= i < |parts| ensures ValidSegment(parts[i]) {
        if i > 0 { assert parts[i] == segs[i - 1]; }
      }
    }
    assert text == Join(parts, '/') by {
      JoinAppend([dir], segs, '/');
      assert Join([dir], '/') == dir;
    }
    assert name != "" by {
      assert ValidSegment(segs[0]);
      if |segs| > 1 {
        assert name == segs[0] + "/" + Join(segs[1..], '/');
      }
    }
    assert !StartsWith(text, "/") by {
      assert text[0] == dir[0] && dir[0] in dir;
    }
    assert NormalizeRelative([], Split(text, '/')) == parts by {
      SplitJoin(parts, '/');
      NormalizePlain([], parts);
    }
    assert ValidSegment(parts[|parts| - 1]);
    JoinPlainNoTrailingSlash(parts);
  }
}
