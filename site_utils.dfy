/**
 * Helpers shared by the llms.txt generator and its development server
 * (packages/valaxy/node/modules/utils.ts): which posts are public, the URL
 * path of a post file, and the tidied site URL.
 */
module SiteUtils {
  import opened Text
  import opened Seqs
  import opened Frontmatter
  import opened Paths

  /** One Markdown post as read from disk: parsed frontmatter, body, optional excerpt ("" when absent) and absolute path. */
  datatype RawPost = RawPost(data: Data, content: string, excerpt: string, filePath: Path)

  predicate Visible(post: RawPost) {
    IsPublic(post.data)
  }

  /**
   * `filterPublicPosts`: keeps exactly the posts without a truthy
   * `password`, `draft` or `hide`, in their original order.
   */
  function FilterPublicPosts(posts: seq<RawPost>): (r: seq<RawPost>)
    ensures IsSubsequence(r, posts)
    ensures forall i :: 0 <= i < |r| ==> r[i] in posts && IsPublic(r[i].data)
    ensures forall i :: 0 <= i < |posts| && IsPublic(posts[i].data) ==> posts[i] in r
  {
    Filter(posts, Visible)
  }

  /**
   * `filePathToUrlPath`: the file's path below `<userRoot>/pages`, with a
   * leading "/", backslashes turned into slashes, and either a final
   * "/index.md" or a final ".md" removed.
   */
  function FilePathToUrlPath(filePath: Path, userRoot: Path): (r: string)
    ensures '\\' !in r
    ensures r == "" || r[0] == '/'
  {
    UrlPathOfRelative(Join(Relative(userRoot + ["pages"], filePath), '/'))
  }

  /** The string steps of `filePathToUrlPath` after `path.relative`. */
  function UrlPathOfRelative(rel: string): (r: string)
    ensures '\\' !in r
    ensures r == "" || r[0] == '/'
  {
    var normalized := "/" + Slashify(rel);
    assert '\\' !in normalized by {
      forall i | 0 <= i < |normalized| ensures normalized[i] != '\\' {
        if i > 0 { assert normalized[i] == Slashify(rel)[i - 1]; }
      }
    }
    if EndsWith(normalized, "/index.md") then
      normalized[..|normalized| - |"/index.md"|]
    else
      StripMdSuffix(normalized)
  }

  predicate NoBackslash(parts: seq<string>) {
    forall i :: 0 <= i < |parts| ==> '\\' !in parts[i]
  }

  lemma {:induction false} JoinNoBackslash(parts: seq<string>)
    requires NoBackslash(parts)
    ensures '\\' !in Join(parts, '/')
    decreases |parts|
  {
    if |parts| > 1 {
      JoinNoBackslash(parts[1..]);
    }
  }

  /** Text that ends in "/" and a segment other than "index.md" does not end in "/index.md". */
  lemma NotIndexSuffix(x: string, last: string)
    requires '/' !in last && last != "index.md"
    ensures !EndsWith(x + "/" + last, "/index.md")
  {
    var s := x + "/" + last;
    var n := |s|;
    if |last| >= 9 {
      assert s[n - 9] == last[|last| - 9];
      assert s[n - 9] != '/';
    } else if |last| == 8 {
      assert s[n - 9..] == "/" + last;
      assert ("/" + last)[1..] == last && "/index.md"[1..] == "index.md";
    } else {
      assert s[n - 1 - |last|] == '/';
      assert "/index.md"[8 - |last|] != '/';
    }
  }

  /** The string steps map "<rel>" with a last segment other than "index.md" to "/<rel>" without its final ".md". */
  lemma UrlPathOfPlainFile(rel: seq<string>)
    requires Normal(rel) && NoBackslash(rel) && |rel| >= 1
    requires EndsWith(rel[|rel| - 1], ".md") && rel[|rel| - 1] != "index.md"
    ensures var full := "/" + Join(rel, '/');
      UrlPathOfRelative(Join(rel, '/')) == full[..|full| - 3]
  {
    var text := Join(rel, '/');
    var full := "/" + text;
    PlainFileSuffixes(rel);
    calc {
      UrlPathOfRelative(text);
      { JoinNoBackslash(rel); SlashifyPlain(text); }
      StripMdSuffix(full);
      full[..|full| - 3];
    }
  }

  /** "/<rel>" ends in ".md" and not in "/index.md" when its last segment is such a file name. */
  lemma PlainFileSuffixes(rel: seq<string>)
    requires Normal(rel) && |rel| >= 1
    requires EndsWith(rel[|rel| - 1], ".md") && rel[|rel| - 1] != "index.md"
    ensures var full := "/" + Join(rel, '/');
      EndsWith(full, ".md") && !EndsWith(full, "/index.md")
  {
    var full := "/" + Join(rel, '/');
    var last := rel[|rel| - 1];
    var x := LastSegmentSplit(rel);
    assert '/' !in last by {
      assert ValidSegment(rel[|rel| - 1]);
    }
    NotIndexSuffix(x, last);
    assert full[|full| - 3..] == last[|last| - 3..];
  }

  /** "/<rel>" is the text before its last segment, a "/", and that segment. */
  lemma LastSegmentSplit(rel: seq<string>) returns (x: string)
    requires |rel| >= 1
    ensures "/" + Join(rel, '/') == x + "/" + rel[|rel| - 1]
  {
    var last := rel[|rel| - 1];
    if |rel| == 1 {
      x := "";
    } else {
      x := "/" + Join(rel[..|rel| - 1], '/');
      assert rel == rel[..|rel| - 1] + [last];
      JoinSnoc(rel[..|rel| - 1], last, '/');
    }
  }

  /**
   * A post `<userRoot>/pages/<rel>` whose last segment ends in ".md" and is
   * not "index.md" gets the URL path "/<rel>" without its final ".md".
   */
  lemma UrlPathOfPost(userRoot: Path, rel: seq<string>)
    requires Normal(rel) && NoBackslash(rel) && |rel| >= 1
    requires EndsWith(rel[|rel| - 1], ".md") && rel[|rel| - 1] != "index.md"
    ensures var full := "/" + Join(rel, '/');
      FilePathToUrlPath(userRoot + ["pages"] + rel, userRoot) == full[..|full| - 3]
  {
    UrlPathBelowPages(userRoot, rel);
    UrlPathOfPlainFile(rel);
  }

  /** Below `<userRoot>/pages`, the URL path depends only on the segments under it. */
  lemma UrlPathBelowPages(userRoot: Path, rel: seq<string>)
    ensures FilePathToUrlPath(userRoot + ["pages"] + rel, userRoot) == UrlPathOfRelative(Join(rel, '/'))
  {
    RelativeFromAncestor(userRoot + ["pages"], rel);
  }

  lemma UrlPathBelowPagesSnoc(userRoot: Path, dirs: seq<string>, last: string)
    ensures FilePathToUrlPath(userRoot + ["pages"] + dirs + [last], userRoot) == UrlPathOfRelative(Join(dirs + [last], '/'))
  {
    var pages := userRoot + ["pages"];
    assert pages + dirs + [last] == pages + (dirs + [last]);
    RelativeFromAncestor(pages, dirs + [last]);
  }

  /** Text without backslashes passes the backslash rewrite unchanged. */
  lemma SlashifyPlain(s: string)
    requires '\\' !in s
    ensures Slashify(s) == s
  {
    forall i | 0 <= i < |s| ensures Slashify(s)[i] == s[i] {
      assert s[i] != '\\';
    }
  }

  /** The string steps map "<text>/index.md" to "/<text>". */
  lemma UrlPathOfIndexText(text: string)
    requires '\\' !in text
    ensures UrlPathOfRelative(text + "/index.md") == "/" + text
  {
    var rel := text + "/index.md";
    SlashifyPlain(rel);
    var normalized := "/" + rel;
    assert normalized == "/" + text + "/index.md";
    assert normalized[|normalized| - 9..] == "/index.md";
    assert normalized[..|normalized| - 9] == "/" + text;
  }

  /** The index page of the pages directory itself gets the empty URL path. */
  lemma UrlPathOfRootIndex()
    ensures UrlPathOfRelative("index.md") == ""
  {
    var rel := "index.md";
    SlashifyPlain(rel);
    var normalized := "/" + rel;
    assert |normalized| == 9;
    assert normalized[0..] == "/index.md";
  }

  lemma IndexSuffix(text: string)
    ensures text + ['/'] + "index.md" == text + "/index.md"
  {
    assert ['/'] + "index.md" == "/index.md";
  }

  /** The string steps map "<dirs>/index.md" to "/<dirs>", and a lone "index.md" to "". */
  lemma UrlPathOfIndexFile(dirs: seq<string>)
    requires NoBackslash(dirs)
    ensures UrlPathOfRelative(Join(dirs + ["index.md"], '/')) == if |dirs| == 0 then "" else "/" + Join(dirs, '/')
  {
    if |dirs| == 0 {
      assert dirs + ["index.md"] == ["index.md"];
      assert Join(["index.md"], '/') == "index.md";
      UrlPathOfRootIndex();
    } else {
      var text := Join(dirs, '/');
      JoinSnoc(dirs, "index.md", '/');
      IndexSuffix(text);
      JoinNoBackslash(dirs);
      UrlPathOfIndexText(text);
    }
  }

  /** A post `<userRoot>/pages/<dirs>/index.md` gets the URL path of its directory ("" for the pages root itself). */
  lemma UrlPathOfIndexPost(userRoot: Path, dirs: seq<string>)
    requires NoBackslash(dirs)
    ensures FilePathToUrlPath(userRoot + ["pages"] + dirs + ["index.md"], userRoot)
         == if |dirs| == 0 then "" else "/" + Join(dirs, '/')
  {
    UrlPathBelowPagesSnoc(userRoot, dirs, "index.md");
    UrlPathOfIndexFile(dirs);
  }

  lemma IndexPostAt(userRoot: Path, dirs: seq<string>, path: Path)
    requires NoBackslash(dirs) && |dirs| >= 1 && path == userRoot + ["pages"] + dirs + ["index.md"]
    ensures FilePathToUrlPath(path, userRoot) == "/" + Join(dirs, '/')
  {
    UrlPathOfIndexPost(userRoot, dirs);
  }

  /** `removeTrailingSlash`: drops exactly one final "/", except from the root URL "/". */
  function RemoveTrailingSlash(url: string): (r: string)
    ensures url == "/" ==> r == "/"
    ensures url != "/" && EndsWith(url, "/") ==> r + "/" == url
    ensures !EndsWith(url, "/") ==> r == url
  {
    if url != "/" && EndsWith(url, "/") then url[..|url| - 1] else url
  }

  /**
   * `getSiteUrl`: "" when the configured URL is unset or "/", otherwise the
   * URL without one trailing slash (so never "").
   */
  function GetSiteUrl(url: string): (r: string)
    ensures r == "" <==> url == "" || url == "/"
    ensures r != "" ==> StartsWith(url, r) && |url| - |r| <= 1
    ensures !EndsWith(url, "/") ==> r == url
    ensures url != "/" && EndsWith(url, "/") ==> r + "/" == url
  {
    if url == "" || url == "/" then "" else RemoveTrailingSlash(url)
  }

  /** The shared-utility test's expectation for a plain post file, under any project root (the test's is "/project"). */
  lemma UrlPathExamplePost(userRoot: Path)
    ensures FilePathToUrlPath(userRoot + ["pages", "posts", "hello.md"], userRoot) == "/posts/hello"
  {
    var rel := ["posts", "hello.md"];
    assert userRoot + ["pages", "posts", "hello.md"] == userRoot + ["pages"] + rel by {
      assert ["pages", "posts", "hello.md"] == ["pages"] + rel;
      ConcatAssoc(userRoot, ["pages"], rel);
    }
    PostSegments();
    UrlPathOfPost(userRoot, rel);
    PostText();
    var full := "/posts/hello.md";
    assert full[..|full| - 3] == "/posts/hello";
  }

  lemma PostSegments()
    ensures var rel := ["posts", "hello.md"];
      && Normal(rel) && NoBackslash(rel)
      && EndsWith(rel[1], ".md") && rel[1] != "index.md"
  {
    var rel := ["posts", "hello.md"];
    assert ValidSegment(rel[0]) && ValidSegment(rel[1]);
    assert rel[1][5..] == ".md" && rel[1][0] != "index.md"[0];
  }

  lemma PostText()
    ensures "/" + Join(["posts", "hello.md"], '/') == "/posts/hello.md"
  {
    var rel := ["posts", "hello.md"];
    assert rel[1..] == ["hello.md"];
  }

  /** The shared-utility test's expectation for a post in a nested folder. */
  lemma UrlPathExampleNestedPost(userRoot: Path)
    ensures FilePathToUrlPath(userRoot + ["pages", "posts", "nested", "deep.md"], userRoot) == "/posts/nested/deep"
  {
    var rel := ["posts", "nested", "deep.md"];
    assert userRoot + ["pages", "posts", "nested", "deep.md"] == userRoot + ["pages"] + rel by {
      assert ["pages", "posts", "nested", "deep.md"] == ["pages"] + rel;
      ConcatAssoc(userRoot, ["pages"], rel);
    }
    NestedPostSegments();
    UrlPathOfPost(userRoot, rel);
    NestedPostText();
    var full := "/posts/nested/deep.md";
    assert full[..|full| - 3] == "/posts/nested/deep";
  }

  lemma NestedPostSegments()
    ensures var rel := ["posts", "nested", "deep.md"];
      && Normal(rel) && NoBackslash(rel)
      && EndsWith(rel[2], ".md") && rel[2] != "index.md"
  {
    var rel := ["posts", "nested", "deep.md"];
    assert ValidSegment(rel[0]) && ValidSegment(rel[1]) && ValidSegment(rel[2]);
    assert rel[2][4..] == ".md" && |rel[2]| != |"index.md"|;
  }

  lemma NestedPostText()
    ensures "/" + Join(["posts", "nested", "deep.md"], '/') == "/posts/nested/deep.md"
  {
    var rel := ["posts", "nested", "deep.md"];
    assert rel[1..][1..] == ["deep.md"];
    assert Join(rel[1..], '/') == "nested/deep.md";
  }

  /** The shared-utility test's expectation for a folder's index page. */
  lemma UrlPathExampleIndex(userRoot: Path)
    ensures FilePathToUrlPath(userRoot + ["pages", "posts", "foo", "index.md"], userRoot) == "/posts/foo"
  {
    var dirs := ["posts", "foo"];
    var path := userRoot + ["pages", "posts", "foo", "index.md"];
    assert path == userRoot + ["pages"] + dirs + ["index.md"] by {
      assert ["pages", "posts", "foo", "index.md"] == ["pages"] + dirs + ["index.md"];
      ConcatAssoc(userRoot, ["pages"], dirs + ["index.md"]);
    }
    IndexDirs();
    IndexPostAt(userRoot, dirs, path);
  }

  lemma IndexDirs()
    ensures NoBackslash(["posts", "foo"]) && "/" + Join(["posts", "foo"], '/') == "/posts/foo"
  {
    var dirs := ["posts", "foo"];
    assert '\\' !in dirs[0] && '\\' !in dirs[1];
    assert dirs[1..] == ["foo"];
  }

  /** The shared-utility test's expectation for an index page two folders down. */
  lemma UrlPathExampleNestedIndex(userRoot: Path)
    ensures FilePathToUrlPath(userRoot + ["pages", "posts", "2024", "01", "index.md"], userRoot) == "/posts/2024/01"
  {
    var dirs := ["posts", "2024", "01"];
    var path := userRoot + ["pages", "posts", "2024", "01", "index.md"];
    assert path == userRoot + ["pages"] + dirs + ["index.md"] by {
      assert ["pages", "posts", "2024", "01", "index.md"] == ["pages"] + dirs + ["index.md"];
      ConcatAssoc(userRoot, ["pages"], dirs + ["index.md"]);
    }
    NestedIndexDirs();
    IndexPostAt(userRoot, dirs, path);
  }

  lemma NestedIndexDirs()
    ensures NoBackslash(["posts", "2024", "01"]) && "/" + Join(["posts", "2024", "01"], '/') == "/posts/2024/01"
  {
    var dirs := ["posts", "2024", "01"];
    assert '\\' !in dirs[0] && '\\' !in dirs[1] && '\\' !in dirs[2];
    assert dirs[1..][1..] == ["01"];
    assert Join(dirs[1..], '/') == "2024/01";
  }

  /** The expectation of the shared-utility test for `filterPublicPosts`: `hide: 'index'` hides a post too. */
  lemma FilterExample(pub: RawPost, draft: RawPost, encrypted: RawPost, hidden: RawPost, hideIndex: RawPost)
    requires pub.data == map["title" := Str("Public")]
    requires draft.data == map["title" := Str("Draft"), "draft" := Bool(true)]
    requires encrypted.data == map["title" := Str("Encrypted"), "password" := Str("x")]
    requires hidden.data == map["title" := Str("Hidden"), "hide" := Bool(true)]
    requires hideIndex.data == map["title" := Str("HideIndex"), "hide" := Str("index")]
    ensures FilterPublicPosts([pub, draft, encrypted, hidden, hideIndex]) == [pub]
  {
    var s := [pub, draft, encrypted, hidden, hideIndex];
    assert Visible(pub);
    assert !Visible(draft) && !Visible(encrypted) && !Visible(hidden) && !Visible(hideIndex);
    assert s[1..] == [draft, encrypted, hidden, hideIndex];
    assert s[1..][1..] == [encrypted, hidden, hideIndex];
    assert s[1..][1..][1..] == [hidden, hideIndex];
    assert s[1..][1..][1..][1..] == [hideIndex];
  }
}
