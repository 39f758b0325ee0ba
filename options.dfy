/**
 * Option resolution (packages/valaxy/node/options.ts): telling a theme given
 * as a path from a theme given as a package name, locating the theme's root,
 * and the sorted list of Markdown pages that keeps the bundler's input stable
 * across builds.
 */
module Options {
  import opened Wrappers
  import opened Text
  import opened Sorting
  import opened Paths

  // ---------------------------------------------------------------------
  // isPath

  predicate IsSlash(c: char) {
    c == '/' || c == '\\'
  }

  /** `name.startsWith('/') || /^\.\.?[\/\\]/.test(name)`: one or two dots, then a slash or a backslash. */
  predicate IsPath(name: string) {
    || StartsWith(name, "/")
    || (|name| >= 2 && name[0] == '.' && IsSlash(name[1]))
    || (|name| >= 3 && name[0] == '.' && name[1] == '.' && IsSlash(name[2]))
  }

  /** The prefixes that mark a theme name as a path. */
  const PathPrefixes: seq<string> := ["/", "./", "../", ".\\", "..\\"]

  /**
   * A name is a path exactly when it starts with "/", "./", "../", ".\" or
   * "..\": in particular a bare name such as "yun", and ".x" or "...x", are
   * package names.
   */
  lemma IsPathPrefixes(name: string)
    ensures IsPath(name) <==> exists i :: 0 <= i < |PathPrefixes| && StartsWith(name, PathPrefixes[i])
  {
    if StartsWith(name, "/") {
      assert StartsWith(name, PathPrefixes[0]);
    }
    if |name| >= 2 && name[0] == '.' && IsSlash(name[1]) {
      var i := if name[1] == '/' then 1 else 3;
      assert name[..2] == PathPrefixes[i];
    }
    if |name| >= 3 && name[0] == '.' && name[1] == '.' && IsSlash(name[2]) {
      var i := if name[2] == '/' then 2 else 4;
      assert name[..3] == PathPrefixes[i];
    }
    forall i | 0 <= i < |PathPrefixes| && StartsWith(name, PathPrefixes[i]) ensures IsPath(name) {
      var p := PathPrefixes[i];
      assert name[..|p|] == p;
      assert forall k :: 0 <= k < |p| ==> name[k] == p[k] by {
        forall k | 0 <= k < |p| ensures name[k] == p[k] {
          assert name[..|p|][k] == name[k];
        }
      }
      if i == 1 || i == 3 {
        assert name[0] == '.' && IsSlash(name[1]);
      } else if i == 2 || i == 4 {
        assert name[0] == '.' && name[1] == '.' && IsSlash(name[2]);
      }
    }
  }

  /** Bare names and names whose leading dots are not followed by a separator are not paths. */
  lemma PackageNames()
    ensures !IsPath("yun") && !IsPath(".x") && !IsPath("...x") && !IsPath("")
    ensures IsPath("/themes/yun") && IsPath("./yun") && IsPath("../yun") && IsPath(".\\yun") && IsPath("..\\yun")
  {
    assert "/themes/yun"[..1] == "/";
    assert "yun"[..1][0] == 'y' && ".x"[..1][0] == '.' && "...x"[..1][0] == '.';
    assert "...x"[1] == '.' && "...x"[2] == '.';
  }

  // ---------------------------------------------------------------------
  // getThemeRoot

  /**
   * `getThemeRoot(name, entry)`: "" for no theme; a path-like name is
   * resolved against the directory of `entry`; any other name is a package,
   * whose `package.json` is looked up by `resolveImport` (`None` when it
   * cannot be found) and whose root is that file's directory (`"."` when
   * nothing was found, as `dirname('')` gives).
   */
  function GetThemeRoot(name: string, entry: Path, resolveImport: string -> Option<Path>): (r: string)
    ensures r == "" <==> name == ""
    ensures IsPath(name) ==> StartsWith(r, "/")
    ensures IsPath(name) ==> r == PathString(Resolve(Dirname(entry), name))
    ensures name != "" && !IsPath(name) ==>
      r == match resolveImport("valaxy-theme-" + name + "/package.json")
        case None => "."
        case Some(file) => PathString(Dirname(file))
  {
    if name == "" then ""
    else if IsPath(name) then PathString(Resolve(Dirname(entry), name))
    else match resolveImport("valaxy-theme-" + name + "/package.json")
      case None => "."
      case Some(file) => PathString(Dirname(file))
  }

  /** A relative theme path `./s1/.../sn` is found below the directory of `entry`. */
  lemma ThemeRootRelative(entry: Path, segs: seq<string>, resolveImport: string -> Option<Path>)
    requires |segs| >= 1 && Normal(segs)
    ensures GetThemeRoot("./" + Join(segs, '/'), entry, resolveImport) == PathString(Dirname(entry) + segs)
  {
    var name := "./" + Join(segs, '/');
    var d := Dirname(entry);
    assert SepFree(segs, '/') by {
      forall i | 0 <= i < |segs| ensures '/' !in segs[i] {
        assert ValidSegment(segs[i]);
      }
    }
    assert IsPath(name) && !StartsWith(name, "/") by {
      assert name[0] == '.' && name[1] == '/';
    }
    calc {
      GetThemeRoot(name, entry, resolveImport);
      PathString(Resolve(d, name));
      PathString(Walk(d, Split(name, '/')));
      { SplitDotPath(segs); }
      PathString(Walk(d, ["."] + segs));
      { assert (["."] + segs)[1..] == segs; }
      PathString(Walk(d, segs));
      { WalkPlain(d, segs); }
      PathString(d + segs);
    }
  }

  lemma SplitDotPath(segs: seq<string>)
    requires |segs| >= 1 && SepFree(segs, '/')
    ensures Split("./" + Join(segs, '/'), '/') == ["."] + segs
  {
    var j := Join(segs, '/');
    assert '/' !in "." by {
      assert "."[0] == '.';
    }
    calc {
      Split("./" + j, '/');
      { assert "./" + j == "." + ['/'] + j; }
      Split("." + ['/'] + j, '/');
      { SplitCons(".", '/', j); }
      ["."] + Split(j, '/');
      { SplitJoin(segs, '/'); }
      ["."] + segs;
    }
  }

  /** An absolute theme path names the same directory whatever the entry. */
  lemma ThemeRootAbsolute(entry: Path, segs: seq<string>, resolveImport: string -> Option<Path>)
    requires |segs| >= 1 && Normal(segs)
    ensures GetThemeRoot("/" + Join(segs, '/'), entry, resolveImport) == PathString(segs)
  {
    var name := "/" + Join(segs, '/');
    assert SepFree(segs, '/') by {
      forall i | 0 <= i < |segs| ensures '/' !in segs[i] {
        assert ValidSegment(segs[i]);
      }
    }
    assert IsPath(name) by {
      assert name[..1] == "/";
    }
    calc {
      GetThemeRoot(name, entry, resolveImport);
      PathString(Resolve(Dirname(entry), name));
      { ResolveAbsolute(Dirname(entry), segs); }
      PathString(Walk([], segs));
      { WalkPlain([], segs); assert [] + segs == segs; }
      PathString(segs);
    }
  }

  /** A package theme's root does not depend on the entry at all. */
  lemma ThemeRootOfPackage(name: string, entry1: Path, entry2: Path, resolveImport: string -> Option<Path>)
    requires !IsPath(name)
    ensures GetThemeRoot(name, entry1, resolveImport) == GetThemeRoot(name, entry2, resolveImport)
  {
  }

  // ---------------------------------------------------------------------
  // resolveOptions: the sorted pages

  /** The default `Array.prototype.sort` order on strings: lexicographic by character. */
  predicate StrLe(a: string, b: string)
    decreases |a|
  {
    |a| == 0 || (|b| > 0 && (a[0] < b[0] || (a[0] == b[0] && StrLe(a[1..], b[1..]))))
  }

  lemma {:induction false} StrLeTotal(a: string, b: string)
    ensures StrLe(a, b) || StrLe(b, a)
    decreases |a|
  {
    if |a| > 0 && |b| > 0 && a[0] == b[0] {
      StrLeTotal(a[1..], b[1..]);
    }
  }

  lemma {:induction false} StrLeTransitive(a: string, b: string, c: string)
    requires StrLe(a, b) && StrLe(b, c)
    ensures StrLe(a, c)
    decreases |a|
  {
    if |a| > 0 && a[0] == b[0] && b[0] == c[0] {
      StrLeTransitive(a[1..], b[1..], c[1..]);
    }
  }

  lemma {:induction false} StrLeAntisymmetric(a: string, b: string)
    requires StrLe(a, b) && StrLe(b, a)
    ensures a == b
    decreases |a|
  {
    if |a| > 0 {
      StrLeAntisymmetric(a[1..], b[1..]);
      assert a == [a[0]] + a[1..] && b == [b[0]] + b[1..];
    }
  }

  /** String order is a total order: total, transitive and antisymmetric. */
  lemma StrLeIsTotalOrder()
    ensures TotalPreorder(StrLe) && Antisymmetric(StrLe)
  {
    forall a, b ensures StrLe(a, b) || StrLe(b, a) {
      StrLeTotal(a, b);
    }
    forall a, b, c | StrLe(a, b) && StrLe(b, c) ensures StrLe(a, c) {
      StrLeTransitive(a, b, c);
    }
    forall a, b | StrLe(a, b) && StrLe(b, a) ensures a == b {
      StrLeAntisymmetric(a, b);
    }
  }

  /** `(await fg(...)).sort()`: the globbed page paths, sorted in place. */
  method SortPages(globbed: seq<string>) returns (pages: seq<string>)
    ensures pages == InsertionSort(globbed, StrLe)
  {
    var a := new string[|globbed|](i requires 0 <= i < |globbed| => globbed[i]);
    assert a[..] == globbed;
    SortInPlace(a, StrLe);
    pages := a[..];
  }

  /**
   * The page list is sorted, holds exactly the globbed paths, and is the same
   * whatever order the glob returned them in, which is what keeps the build's
   * input (and so its chunk hashes) stable.
   */
  lemma PagesStable(globbed1: seq<string>, globbed2: seq<string>)
    ensures var pages := InsertionSort(globbed1, StrLe);
      && (forall i, j :: 0 <= i < j < |pages| ==> StrLe(pages[i], pages[j]))
      && multiset(pages) == multiset(globbed1)
      && (multiset(globbed1) == multiset(globbed2) ==> pages == InsertionSort(globbed2, StrLe))
  {
    StrLeIsTotalOrder();
    SortSorts(globbed1, StrLe);
    SortPermutes(globbed1, StrLe);
    if multiset(globbed1) == multiset(globbed2) {
      SortCanonical(globbed1, globbed2, StrLe);
    }
  }

  /** The resolved options this model keeps track of. */
  datatype ResolvedOptions = ResolvedOptions(userRoot: Path, themeRoot: string, theme: string, configFile: string, pages: seq<string>)

  /**
   * `resolveOptions`: the user root is the given one resolved against the
   * working directory (the working directory itself when none is given), the
   * theme root is found from the user root, and the pages are sorted.
   * Loading the config is outside this model: its theme name and config file
   * are inputs ("" for none).
   */
  method ResolveOptions(userRootOption: string, cwd: Path, theme: string, configFile: string,
                        globbed: seq<string>, resolveImport: string -> Option<Path>)
    returns (r: ResolvedOptions)
    ensures r.userRoot == Resolve(cwd, if userRootOption != "" then userRootOption else PathString(cwd))
    ensures r.themeRoot == GetThemeRoot(theme, r.userRoot, resolveImport)
    ensures r.pages == InsertionSort(globbed, StrLe)
    ensures r.configFile == configFile && r.theme == theme
  {
    var userRoot := Resolve(cwd, if userRootOption != "" then userRootOption else PathString(cwd));
    var themeRoot := GetThemeRoot(theme, userRoot, resolveImport);
    var pages := SortPages(globbed);
    r := ResolvedOptions(userRoot, themeRoot, theme, configFile, pages);
  }
}
