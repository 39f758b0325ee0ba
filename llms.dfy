/**
 * The llms.txt build step (packages/valaxy/node/modules/llms/utils.ts): the
 * projection of public posts to `LlmsPost` records, the newest-first sort, the
 * two text serialisers `generateLlmsTxt` and `generateLlmsFullTxt`, and the
 * files that `build` writes into `dist/`. The serialisers follow the llms.txt
 * proposal (https://llmstxt.org): an H1 title, an optional blockquote, then a
 * list of links or the inlined posts.
 */
module Llms {
  import opened Text
  import opened Seqs
  import opened Sorting
  import opened Frontmatter
  import opened Paths
  import opened SiteUtils

  /** One post as the serialisers see it; `date` is a timestamp in milliseconds. */
  datatype LlmsPost = LlmsPost(title: string, description: string, date: int, urlPath: string, content: string)

  /** Marks a config text as a key into the locale files. */
  const LocalePrefix: string := "$locale:"

  /**
   * The i18n helpers the build calls but whose code is not part of this model:
   * `nodeT` looks a `$locale:` key up in the loaded locale files, `tObject`
   * picks the entry for a language out of a per-language record (or returns a
   * plain string as it is).
   */
  datatype I18n = I18n(nodeT: (string, string) -> string, tObject: (Value, string) -> string)

  /** `resolveText`: locale keys go to `nodeT`, everything else to `tObject`. */
  function ResolveText(value: Value, lang: string, i18n: I18n): string {
    if value.Str? && StartsWith(value.s, LocalePrefix) then i18n.nodeT(value.s, lang)
    else i18n.tObject(value, lang)
  }

  /**
   * The projection in `build`: the title falls back to the file name without
   * ".md", a missing or falsy date becomes the epoch, and the URL path comes
   * from `filePathToUrlPath`.
   */
  function ToLlmsPost(post: RawPost, userRoot: Path, lang: string, i18n: I18n, parseDate: string -> int): (r: LlmsPost)
    ensures ResolveText(Get(post.data, "title"), lang, i18n) != "" ==> r.title == ResolveText(Get(post.data, "title"), lang, i18n)
    ensures ResolveText(Get(post.data, "title"), lang, i18n) == "" ==> r.title == Basename(post.filePath, ".md")
    ensures |post.filePath| > 0 && post.filePath[|post.filePath| - 1] != "" ==> r.title != ""
    ensures r.description == ResolveText(Get(post.data, "description"), lang, i18n)
    ensures Truthy(Get(post.data, "date")) ==> r.date == Timestamp(Get(post.data, "date"), parseDate)
    ensures !Truthy(Get(post.data, "date")) ==> r.date == 0
    ensures r.urlPath == FilePathToUrlPath(post.filePath, userRoot)
    ensures r.urlPath == "" || r.urlPath[0] == '/'
    ensures r.content == post.content
  {
    var title := ResolveText(Get(post.data, "title"), lang, i18n);
    var date := Get(post.data, "date");
    LlmsPost(
      if title != "" then title else Basename(post.filePath, ".md"),
      ResolveText(Get(post.data, "description"), lang, i18n),
      if Truthy(date) then Timestamp(date, parseDate) else 0,
      FilePathToUrlPath(post.filePath, userRoot),
      post.content)
  }

  /** The comparator `(a, b) => +b.date - +a.date` lets `a` stay before `b` when `a` is at least as new. */
  function NewerFirst(a: LlmsPost, b: LlmsPost): bool {
    a.date >= b.date
  }

  lemma NewerFirstIsTotalPreorder()
    ensures TotalPreorder(NewerFirst)
  {
  }

  // ---------------------------------------------------------------------
  // The serialisers, line by line

  /** The optional blockquote: the description, a bare ">" between the two when both are set, the prompt, and one blank line. */
  function Blockquote(description: string, prompt: string): seq<string> {
    if description == "" && prompt == "" then []
    else
      (if description != "" then ["> " + description] else [])
      + (if prompt != "" then (if description != "" then [">"] else []) + ["> " + prompt] else [])
      + [""]
  }

  /** The lines both files start with: the H1 title, a blank line and the blockquote. */
  function Preamble(title: string, description: string, prompt: string): seq<string> {
    ["# " + title, ""] + Blockquote(description, prompt)
  }

  /** Where a post's raw Markdown is served: absolute when the site URL is known, site-relative otherwise. */
  function MdUrl(post: LlmsPost, siteUrl: string): string {
    (if siteUrl != "" then siteUrl + post.urlPath else post.urlPath) + ".md"
  }

  /** One entry of the post list: `- [title](url)`, then `: description` when there is one. */
  function PostLine(post: LlmsPost, siteUrl: string): string {
    "- [" + post.title + "](" + MdUrl(post, siteUrl) + ")"
    + (if post.description != "" then ": " + post.description else "")
  }

  function PostLines(posts: seq<LlmsPost>, siteUrl: string): seq<string> {
    seq(|posts|, i requires 0 <= i < |posts| => PostLine(posts[i], siteUrl))
  }

  lemma PostLinesSnoc(posts: seq<LlmsPost>, i: nat, siteUrl: string)
    requires i < |posts|
    ensures PostLines(posts[..i + 1], siteUrl) == PostLines(posts[..i], siteUrl) + [PostLine(posts[i], siteUrl)]
  {
  }

  /** The lines of llms.txt. */
  function LlmsTxtLines(title: string, description: string, prompt: string, posts: seq<LlmsPost>, siteUrl: string): seq<string> {
    Preamble(title, description, prompt) + ["## Posts", ""] + PostLines(posts, siteUrl) + [""]
  }

  /** One inlined post of llms-full.txt: an H2 title, the description paragraph if any, and the trimmed body. */
  function PostBlock(post: LlmsPost): seq<string> {
    ["## " + post.title, ""]
    + (if post.description != "" then [post.description, ""] else [])
    + [Trim(post.content), ""]
  }

  function PostBlocks(posts: seq<LlmsPost>): seq<string>
    decreases |posts|
  {
    if |posts| == 0 then [] else PostBlocks(posts[..|posts| - 1]) + PostBlock(posts[|posts| - 1])
  }

  lemma PostBlocksSnoc(posts: seq<LlmsPost>, i: nat)
    requires i < |posts|
    ensures PostBlocks(posts[..i + 1]) == PostBlocks(posts[..i]) + PostBlock(posts[i])
  {
    assert posts[..i + 1][..i] == posts[..i];
  }

  /** The lines of llms-full.txt. */
  function LlmsFullTxtLines(title: string, description: string, prompt: string, posts: seq<LlmsPost>): seq<string> {
    Preamble(title, description, prompt) + PostBlocks(posts)
  }

  /** Pushes the title and the blockquote, as both serialisers do first. */
  method PushPreamble(title: string, description: string, prompt: string) returns (lines: seq<string>)
    ensures lines == Preamble(title, description, prompt)
  {
    lines := [];
    lines := lines + ["# " + title];
    lines := lines + [""];
    if description != "" || prompt != "" {
      if description != "" {
        lines := lines + ["> " + description];
      }
      if prompt != "" {
        if description != "" {
          lines := lines + [">"];
        }
        lines := lines + ["> " + prompt];
      }
      lines := lines + [""];
    }
  }

  /** `generateLlmsTxt`: pushes the lines one by one and joins them with newlines. */
  method GenerateLlmsTxt(title: string, description: string, prompt: string, posts: seq<LlmsPost>, siteUrl: string)
    returns (text: string)
    ensures text == Join(LlmsTxtLines(title, description, prompt, posts, siteUrl), '\n')
  {
    var lines := PushPreamble(title, description, prompt);
    lines := lines + ["## Posts"];
    lines := lines + [""];
    assert lines == lines + PostLines(posts[..0], siteUrl);
    for i := 0 to |posts|
      invariant lines == Preamble(title, description, prompt) + ["## Posts", ""] + PostLines(posts[..i], siteUrl)
    {
      var post := posts[i];
      var mdUrl := if siteUrl != "" then siteUrl + post.urlPath + ".md" else post.urlPath + ".md";
      var desc := if post.description != "" then ": " + post.description else "";
      assert mdUrl == MdUrl(post, siteUrl);
      lines := lines + ["- [" + post.title + "](" + mdUrl + ")" + desc];
      PostLinesSnoc(posts, i, siteUrl);
    }
    assert posts[..|posts|] == posts;
    lines := lines + [""];
    text := Join(lines, '\n');
  }

  /** `generateLlmsFullTxt`: the same preamble, then every post inlined in order. */
  method GenerateLlmsFullTxt(title: string, description: string, prompt: string, posts: seq<LlmsPost>)
    returns (text: string)
    ensures text == Join(LlmsFullTxtLines(title, description, prompt, posts), '\n')
  {
    var lines := PushPreamble(title, description, prompt);
    assert lines == lines + PostBlocks(posts[..0]);
    for i := 0 to |posts|
      invariant lines == Preamble(title, description, prompt) + PostBlocks(posts[..i])
    {
      PostBlocksSnoc(posts, i);
      lines := PushPostBlock(lines, posts[i]);
    }
    assert posts[..|posts|] == posts;
    text := Join(lines, '\n');
  }

  /** One pass of the loop of `generateLlmsFullTxt`: pushes the post's H2, its description paragraph if any, and its trimmed body. */
  method PushPostBlock(lines: seq<string>, post: LlmsPost) returns (r: seq<string>)
    ensures r == lines + PostBlock(post)
  {
    r := lines + ["## " + post.title];
    r := r + [""];
    if post.description != "" {
      r := r + [post.description];
      r := r + [""];
    }
    r := r + [Trim(post.content)];
    r := r + [""];
  }

  // ---------------------------------------------------------------------
  // What the serialised files promise

  /**
   * The blockquote is there exactly when a description or a prompt is set; a
   * bare ">" line appears exactly when both are; it opens with the
   * description, its last text line is the prompt, and a blank line closes it.
   */
  lemma BlockquoteShape(description: string, prompt: string)
    ensures var b := Blockquote(description, prompt);
      && (|b| == 0 <==> description == "" && prompt == "")
      && ((">" in b) <==> description != "" && prompt != "")
      && (|b| > 0 ==> b[|b| - 1] == "")
      && (description != "" ==> b[0] == "> " + description)
      && (prompt != "" ==> b[|b| - 2] == "> " + prompt)
  {
    var b := Blockquote(description, prompt);
    if description != "" {
      assert |"> " + description| > 1;
    }
    if prompt != "" {
      assert |"> " + prompt| > 1;
    }
  }

  /** llms.txt starts with the H1 title and a blank line, and ends with a newline. */
  lemma LlmsTxtFrame(title: string, description: string, prompt: string, posts: seq<LlmsPost>, siteUrl: string)
    ensures var text := Join(LlmsTxtLines(title, description, prompt, posts, siteUrl), '\n');
      StartsWith(text, "# " + title + "\n\n") && EndsWith(text, "\n")
  {
    var lines := LlmsTxtLines(title, description, prompt, posts, siteUrl);
    assert lines[0] == "# " + title && lines[1] == "";
    JoinStartsWithBlankLine(lines, '\n');
    assert "# " + title + ['\n'] + ['\n'] == "# " + title + "\n\n";
    JoinEndsWithSep(lines, '\n');
  }

  /** llms-full.txt starts with the H1 title line and ends with a newline. */
  lemma LlmsFullTxtFrame(title: string, description: string, prompt: string, posts: seq<LlmsPost>)
    ensures var text := Join(LlmsFullTxtLines(title, description, prompt, posts), '\n');
      StartsWith(text, "# " + title + "\n") && EndsWith(text, "\n")
  {
    var lines := LlmsFullTxtLines(title, description, prompt, posts);
    var n := |posts|;
    assert lines[0] == "# " + title && lines[1] == "";
    assert Join(lines, '\n') == lines[0] + ['\n'] + Join(lines[1..], '\n');
    assert "# " + title + ['\n'] == "# " + title + "\n";
    if n > 0 {
      assert lines == Preamble(title, description, prompt) + PostBlocks(posts[..n - 1]) + PostBlock(posts[n - 1]);
    }
    assert lines[|lines| - 1] == "";
    JoinEndsWithSep(lines, '\n');
  }

  predicate OneLine(s: string) {
    '\n' !in s
  }

  predicate PostsOneLine(posts: seq<LlmsPost>) {
    forall i :: 0 <= i < |posts| ==> OneLine(posts[i].title) && OneLine(posts[i].description) && OneLine(posts[i].urlPath)
  }

  lemma PreambleOneLine(title: string, description: string, prompt: string)
    requires OneLine(title) && OneLine(description) && OneLine(prompt)
    ensures SepFree(Preamble(title, description, prompt), '\n')
  {
  }

  lemma PostLinesOneLine(posts: seq<LlmsPost>, siteUrl: string)
    requires PostsOneLine(posts) && OneLine(siteUrl)
    ensures SepFree(PostLines(posts, siteUrl), '\n')
  {
    forall i | 0 <= i < |posts| ensures OneLine(PostLine(posts[i], siteUrl)) {
      assert OneLine(posts[i].title) && OneLine(posts[i].description) && OneLine(posts[i].urlPath);
    }
  }

  /**
   * When no title, description, prompt, site URL or URL path holds a line
   * break, llms.txt reads back line by line as: the preamble, "## Posts", a
   * blank line, exactly one link line per post in the given order, and a
   * final empty line.
   */
  lemma LlmsTxtLayout(title: string, description: string, prompt: string, posts: seq<LlmsPost>, siteUrl: string)
    requires OneLine(title) && OneLine(description) && OneLine(prompt) && OneLine(siteUrl) && PostsOneLine(posts)
    ensures var lines := Split(Join(LlmsTxtLines(title, description, prompt, posts, siteUrl), '\n'), '\n');
      var k := |Preamble(title, description, prompt)|;
      && |lines| == k + |posts| + 3
      && lines[..k] == Preamble(title, description, prompt)
      && lines[k] == "## Posts" && lines[k + 1] == ""
      && lines[k + 2..k + 2 + |posts|] == PostLines(posts, siteUrl)
      && lines[|lines| - 1] == ""
  {
    var lines := LlmsTxtLines(title, description, prompt, posts, siteUrl);
    LlmsTxtLinesOneLine(title, description, prompt, posts, siteUrl);
    SplitJoin(lines, '\n');
    LlmsTxtLinesAt(title, description, prompt, posts, siteUrl);
  }

  lemma LlmsTxtLinesOneLine(title: string, description: string, prompt: string, posts: seq<LlmsPost>, siteUrl: string)
    requires OneLine(title) && OneLine(description) && OneLine(prompt) && OneLine(siteUrl) && PostsOneLine(posts)
    ensures SepFree(LlmsTxtLines(title, description, prompt, posts, siteUrl), '\n')
  {
    var pre := Preamble(title, description, prompt);
    var mid: seq<string> := ["## Posts", ""];
    var list := PostLines(posts, siteUrl);
    PreambleOneLine(title, description, prompt);
    PostLinesOneLine(posts, siteUrl);
    assert SepFree(mid, '\n') by {
      assert forall c :: c in "## Posts" ==> c != '\n';
    }
    assert SepFree([""], '\n');
    SepFreeAppend(pre, mid, '\n');
    SepFreeAppend(pre + mid, list, '\n');
    SepFreeAppend(pre + mid + list, [""], '\n');
  }

  lemma LlmsTxtLinesAt(title: string, description: string, prompt: string, posts: seq<LlmsPost>, siteUrl: string)
    ensures var lines := LlmsTxtLines(title, description, prompt, posts, siteUrl);
      var k := |Preamble(title, description, prompt)|;
      && |lines| == k + |posts| + 3
      && lines[..k] == Preamble(title, description, prompt)
      && lines[k] == "## Posts" && lines[k + 1] == ""
      && lines[k + 2..k + 2 + |posts|] == PostLines(posts, siteUrl)
      && lines[|lines| - 1] == ""
  {
    LayoutParts(LlmsTxtLines(title, description, prompt, posts, siteUrl), Preamble(title, description, prompt),
                "## Posts", PostLines(posts, siteUrl), "");
  }

  lemma LayoutParts(lines: seq<string>, pre: seq<string>, heading: string, list: seq<string>, last: string)
    requires lines == pre + [heading, ""] + list + [last]
    ensures |lines| == |pre| + |list| + 3
    ensures lines[..|pre|] == pre
    ensures lines[|pre|] == heading && lines[|pre| + 1] == ""
    ensures lines[|pre| + 2..|pre| + 2 + |list|] == list
    ensures lines[|lines| - 1] == last
  {
    assert lines[..|pre|] == pre;
  }

  /** A post's list entry opens with its title as link text and closes with its description, when it has one. */
  lemma PostLineShape(post: LlmsPost, siteUrl: string)
    ensures StartsWith(PostLine(post, siteUrl), "- [" + post.title + "](" + MdUrl(post, siteUrl) + ")")
    ensures post.description != "" ==> EndsWith(PostLine(post, siteUrl), ": " + post.description)
    ensures post.description == "" ==> EndsWith(PostLine(post, siteUrl), ".md)")
    ensures EndsWith(MdUrl(post, siteUrl), ".md")
    ensures siteUrl != "" ==> StartsWith(MdUrl(post, siteUrl), siteUrl)
  {
    var link := "- [" + post.title + "](" + MdUrl(post, siteUrl) + ")";
    var line := PostLine(post, siteUrl);
    assert line[..|link|] == link;
    if post.description == "" {
      assert line == link;
    }
  }

  /** The lines of llms-full.txt that open a section. */
  predicate IsHeading(line: string) {
    StartsWith(line, "## ")
  }

  lemma PostBlockHeadings(post: LlmsPost)
    requires !IsHeading(post.description) && !IsHeading(Trim(post.content))
    ensures Filter(PostBlock(post), IsHeading) == ["## " + post.title]
  {
    var head := ["## " + post.title, ""];
    var desc := if post.description != "" then [post.description, ""] else [];
    var body := [Trim(post.content), ""];
    assert IsHeading("## " + post.title);
    assert !IsHeading("");
    FilterAppend(head + desc, body, IsHeading);
    FilterAppend(head, desc, IsHeading);
    assert head[1..] == [""];
    assert Filter(head, IsHeading) == ["## " + post.title];
    assert Filter(desc, IsHeading) == [] by {
      if post.description != "" {
        assert desc[1..] == [""];
      }
    }
    assert body[1..] == [""];
    assert Filter(body, IsHeading) == [];
  }

  /**
   * When no description or trimmed body looks like a section heading, the
   * section headings of llms-full.txt's post part are the posts' titles, one
   * per post, in the given order.
   */
  lemma {:induction false} PostBlocksHeadings(posts: seq<LlmsPost>)
    requires forall i :: 0 <= i < |posts| ==> !IsHeading(posts[i].description) && !IsHeading(Trim(posts[i].content))
    ensures Filter(PostBlocks(posts), IsHeading) == seq(|posts|, i requires 0 <= i < |posts| => "## " + posts[i].title)
    decreases |posts|
  {
    if |posts| > 0 {
      var init, last := posts[..|posts| - 1], posts[|posts| - 1];
      PostBlocksHeadings(init);
      FilterAppend(PostBlocks(init), PostBlock(last), IsHeading);
      PostBlockHeadings(last);
    }
  }

  /** No preamble line is a section heading. */
  lemma PreambleHasNoHeading(title: string, description: string, prompt: string)
    ensures forall i :: 0 <= i < |Preamble(title, description, prompt)| ==> !IsHeading(Preamble(title, description, prompt)[i])
  {
    var pre := Preamble(title, description, prompt);
    forall i | 0 <= i < |pre| ensures !IsHeading(pre[i]) {
      if |pre[i]| >= 3 {
        assert pre[i][0] == '>' || pre[i][1] == ' ';
      }
    }
  }

  /**
   * llms-full.txt has no "## Posts" line (it inlines the posts instead of
   * listing them), unless a post is itself titled "Posts" or a description or
   * trimmed body looks like a heading.
   */
  lemma LlmsFullTxtHasNoPostList(title: string, description: string, prompt: string, posts: seq<LlmsPost>)
    requires forall i :: 0 <= i < |posts| ==> !IsHeading(posts[i].description) && !IsHeading(Trim(posts[i].content))
    requires forall i :: 0 <= i < |posts| ==> posts[i].title != "Posts"
    ensures "## Posts" !in LlmsFullTxtLines(title, description, prompt, posts)
  {
    var pre := Preamble(title, description, prompt);
    var blocks := PostBlocks(posts);
    var lines := pre + blocks;
    PreambleHasNoHeading(title, description, prompt);
    PostBlocksHeadings(posts);
    assert IsHeading("## Posts");
    forall j | 0 <= j < |lines| ensures lines[j] != "## Posts" {
      if j >= |pre| {
        var line := blocks[j - |pre|];
        assert lines[j] == line;
        if IsHeading(line) {
          var heads := Filter(blocks, IsHeading);
          assert line in heads;
          var k :| 0 <= k < |heads| && heads[k] == line;
          NotPostsHeading(posts[k].title);
        }
      }
    }
  }

  lemma NotPostsHeading(title: string)
    requires title != "Posts"
    ensures "## " + title != "## Posts"
  {
    assert ("## " + title)[3..] == title;
  }

  // ---------------------------------------------------------------------
  // build

  /** The `llms` block of the site config. */
  datatype LlmsConfig = LlmsConfig(enable: bool, fullText: bool, files: bool, prompt: string)

  /** The parts of the site config the build reads; `title` and `description` may be locale keys or per-language records. */
  datatype SiteConfig = SiteConfig(url: string, lang: string, title: Value, description: Value, llms: LlmsConfig)

  /** One `fs.writeFile` of the build. */
  datatype FileWrite = FileWrite(path: Path, text: string)

  function Lang(site: SiteConfig): string {
    if site.lang != "" then site.lang else "en"
  }

  /** The site title, with the default used when it resolves to "". */
  function SiteTitle(site: SiteConfig, i18n: I18n): (r: string)
    ensures r != ""
    ensures ResolveText(site.title, Lang(site), i18n) != "" ==> r == ResolveText(site.title, Lang(site), i18n)
    ensures ResolveText(site.title, Lang(site), i18n) == "" ==> r == "Valaxy Blog"
  {
    var t := ResolveText(site.title, Lang(site), i18n);
    if t != "" then t else "Valaxy Blog"
  }

  function SiteDescription(site: SiteConfig, i18n: I18n): string {
    ResolveText(site.description, Lang(site), i18n)
  }

  /** The public posts, projected. */
  function Projected(rawPosts: seq<RawPost>, userRoot: Path, lang: string, i18n: I18n, parseDate: string -> int): seq<LlmsPost> {
    var pub := FilterPublicPosts(rawPosts);
    seq(|pub|, i requires 0 <= i < |pub| => ToLlmsPost(pub[i], userRoot, lang, i18n, parseDate))
  }

  /** The posts as `build` hands them to the serialisers: projected, then sorted newest first. */
  function LlmsPosts(rawPosts: seq<RawPost>, userRoot: Path, lang: string, i18n: I18n, parseDate: string -> int): seq<LlmsPost> {
    InsertionSort(Projected(rawPosts, userRoot, lang, i18n, parseDate), NewerFirst)
  }

  /** Where `build` mirrors a post's raw Markdown: `dist/<urlPath without its leading "/">.md`. */
  function MirrorPath(dist: Path, urlPath: string): Path {
    Resolve(dist, (if |urlPath| == 0 then "" else urlPath[1..]) + ".md")
  }

  /**
   * The posts of llms.txt are exactly the projections of the public posts,
   * newest first, with posts of the same date in their input order.
   */
  lemma LlmsPostsOrder(rawPosts: seq<RawPost>, userRoot: Path, lang: string, i18n: I18n, parseDate: string -> int, y: LlmsPost)
    ensures var posts := LlmsPosts(rawPosts, userRoot, lang, i18n, parseDate);
      var projected := Projected(rawPosts, userRoot, lang, i18n, parseDate);
      && (forall i, j :: 0 <= i < j < |posts| ==> posts[i].date >= posts[j].date)
      && multiset(posts) == multiset(projected)
      && Filter(posts, RankedWith(y, NewerFirst)) == Filter(projected, RankedWith(y, NewerFirst))
  {
    var projected := Projected(rawPosts, userRoot, lang, i18n, parseDate);
    NewerFirstIsTotalPreorder();
    SortSorts(projected, NewerFirst);
    SortPermutes(projected, NewerFirst);
    SortStable(projected, y, NewerFirst);
  }

  /** Every post of llms.txt comes from a public post. */
  lemma LlmsPostsArePublic(rawPosts: seq<RawPost>, userRoot: Path, lang: string, i18n: I18n, parseDate: string -> int)
    ensures var posts := LlmsPosts(rawPosts, userRoot, lang, i18n, parseDate);
      forall i :: 0 <= i < |posts| ==>
        exists j :: 0 <= j < |rawPosts| && IsPublic(rawPosts[j].data) && posts[i] == ToLlmsPost(rawPosts[j], userRoot, lang, i18n, parseDate)
  {
    var posts := LlmsPosts(rawPosts, userRoot, lang, i18n, parseDate);
    var projected := Projected(rawPosts, userRoot, lang, i18n, parseDate);
    var pub := FilterPublicPosts(rawPosts);
    forall i | 0 <= i < |posts|
      ensures exists j :: 0 <= j < |rawPosts| && IsPublic(rawPosts[j].data) && posts[i] == ToLlmsPost(rawPosts[j], userRoot, lang, i18n, parseDate)
    {
      var k := SortOrigin(projected, NewerFirst, i);
      assert pub[k] in rawPosts && IsPublic(pub[k].data);
      var j :| 0 <= j < |rawPosts| && rawPosts[j] == pub[k];
    }
  }

  /**
   * `build`: filters, projects and sorts the posts, then writes llms.txt,
   * llms-full.txt only when `fullText` is set, and one raw Markdown mirror per
   * post only when `files` is set. Scanning and reading the post files happen
   * before; `rawPosts` is what they produced.
   */
  method Build(userRoot: Path, site: SiteConfig, rawPosts: seq<RawPost>, i18n: I18n, parseDate: string -> int)
    returns (writes: seq<FileWrite>)
    ensures var posts := LlmsPosts(rawPosts, userRoot, Lang(site), i18n, parseDate);
      var dist := userRoot + ["dist"];
      var title, description := SiteTitle(site, i18n), SiteDescription(site, i18n);
      var mirrors := if site.llms.files then |posts| else 0;
      && |writes| == 1 + (if site.llms.fullText then 1 else 0) + mirrors
      && writes[0] == FileWrite(dist + ["llms.txt"],
           Join(LlmsTxtLines(title, description, site.llms.prompt, posts, GetSiteUrl(site.url)), '\n'))
      && (site.llms.fullText ==> writes[1] == FileWrite(dist + ["llms-full.txt"],
           Join(LlmsFullTxtLines(title, description, site.llms.prompt, posts), '\n')))
      && Mirrors(dist, posts[..mirrors], writes[|writes| - mirrors..])
  {
    var lang := Lang(site);
    var siteUrl := GetSiteUrl(site.url);
    var posts := SortPosts(Projected(rawPosts, userRoot, lang, i18n, parseDate));
    var dist := userRoot + ["dist"];
    var title := SiteTitle(site, i18n);
    var description := SiteDescription(site, i18n);
    writes := WriteOutputs(dist, title, description, site.llms.prompt, siteUrl, posts, site.llms.fullText, site.llms.files);
  }

  /** The writes of `build` once the posts are sorted: llms.txt, then llms-full.txt if asked for, then the mirrors if asked for. */
  method WriteOutputs(dist: Path, title: string, description: string, prompt: string, siteUrl: string,
                      posts: seq<LlmsPost>, fullText: bool, files: bool)
    returns (writes: seq<FileWrite>)
    ensures var mirrors := if files then |posts| else 0;
      && |writes| == 1 + (if fullText then 1 else 0) + mirrors
      && writes[0] == FileWrite(dist + ["llms.txt"], Join(LlmsTxtLines(title, description, prompt, posts, siteUrl), '\n'))
      && (fullText ==> writes[1] == FileWrite(dist + ["llms-full.txt"], Join(LlmsFullTxtLines(title, description, prompt, posts), '\n')))
      && Mirrors(dist, posts[..mirrors], writes[|writes| - mirrors..])
  {
    var llmsTxt := GenerateLlmsTxt(title, description, prompt, posts, siteUrl);
    var head := [FileWrite(dist + ["llms.txt"], llmsTxt)];
    if fullText {
      var llmsFullTxt := GenerateLlmsFullTxt(title, description, prompt, posts);
      head := head + [FileWrite(dist + ["llms-full.txt"], llmsFullTxt)];
    }
    var mirrors: seq<FileWrite> := [];
    if files {
      mirrors := MirrorWrites(dist, posts);
    }
    writes := head + mirrors;
    assert writes[|head|..] == mirrors;
    assert posts[..|mirrors|] == if files then posts else [];
  }

  /** `resolve(userRoot, 'dist')` and `resolve(dist, name)` for the two index files: one more segment each. */
  lemma OutputPaths(userRoot: Path, dist: Path)
    ensures Resolve(userRoot, "dist") == userRoot + ["dist"]
    ensures Resolve(dist, "llms.txt") == dist + ["llms.txt"]
    ensures Resolve(dist, "llms-full.txt") == dist + ["llms-full.txt"]
  {
    ResolvePlain(userRoot, ["dist"]);
    ResolvePlain(dist, ["llms.txt"]);
    ResolvePlain(dist, ["llms-full.txt"]);
  }

  /** `posts.sort(...)` on the projected posts: an in-place stable sort, newest first. */
  method SortPosts(projected: seq<LlmsPost>) returns (posts: seq<LlmsPost>)
    ensures posts == InsertionSort(projected, NewerFirst)
  {
    var a := new LlmsPost[|projected|](i requires 0 <= i < |projected| => projected[i]);
    assert a[..] == projected;
    SortInPlace(a, NewerFirst);
    posts := a[..];
  }

  /** `writes` mirrors each post in order: its content, at its mirror path below `dist`. */
  predicate Mirrors(dist: Path, posts: seq<LlmsPost>, writes: seq<FileWrite>) {
    && |writes| == |posts|
    && forall i :: 0 <= i < |posts| ==> writes[i] == FileWrite(MirrorPath(dist, posts[i].urlPath), posts[i].content)
  }

  /** The raw Markdown mirrors, one write per post in order. */
  method MirrorWrites(dist: Path, posts: seq<LlmsPost>) returns (writes: seq<FileWrite>)
    ensures Mirrors(dist, posts, writes)
  {
    writes := [];
    for i := 0 to |posts|
      invariant |writes| == i
      invariant forall k :: 0 <= k < i ==> writes[k] == FileWrite(MirrorPath(dist, posts[k].urlPath), posts[k].content)
    {
      var post := posts[i];
      var mdPath := Resolve(dist, (if |post.urlPath| == 0 then "" else post.urlPath[1..]) + ".md");
      writes := writes + [FileWrite(mdPath, post.content)];
    }
  }

  /** A post `pages/<rel>` is mirrored at `dist/<rel>`: the raw file keeps its place below the site root. */
  lemma MirrorOfPost(userRoot: Path, dist: Path, rel: seq<string>)
    requires Normal(rel) && NoBackslash(rel) && |rel| >= 1
    requires EndsWith(rel[|rel| - 1], ".md") && rel[|rel| - 1] != "index.md"
    ensures MirrorPath(dist, FilePathToUrlPath(userRoot + ["pages"] + rel, userRoot)) == dist + rel
  {
    var text := Join(rel, '/');
    var full := "/" + text;
    UrlPathOfPost(userRoot, rel);
    var url := full[..|full| - 3];
    assert |text| >= 3 by {
      JoinHasLast(rel);
    }
    assert url[1..] + ".md" == text by {
      assert text[|text| - 3..] == ".md" by {
        JoinEndsWithLast(rel);
      }
      assert url[1..] == text[..|text| - 3];
    }
    ResolvePlain(dist, rel);
  }

  /** The joined text is at least as long as its last part. */
  lemma JoinHasLast(parts: seq<string>)
    requires |parts| >= 1
    ensures |Join(parts, '/')| >= |parts[|parts| - 1]|
  {
    JoinEndsWithLast(parts);
  }

  /** The joined text ends with its last part. */
  lemma {:induction false} JoinEndsWithLast(parts: seq<string>)
    requires |parts| >= 1
    ensures EndsWith(Join(parts, '/'), parts[|parts| - 1])
    decreases |parts|
  {
    var last := parts[|parts| - 1];
    if |parts| == 1 {
      assert Join(parts, '/') == last;
      assert last[|last| - |last|..] == last;
    } else {
      var rest := parts[1..];
      JoinEndsWithLast(rest);
      assert rest[|rest| - 1] == last;
      var j := Join(rest, '/');
      var pre := parts[0] + ['/'];
      assert Join(parts, '/') == pre + j;
      assert (pre + j)[|pre + j| - |last|..] == j[|j| - |last|..];
    }
  }

  /**
   * The index page `pages/<dirs>/index.md` is mirrored at `dist/<dirs>.md`:
   * its last folder name plus ".md", never a file named "index.md" unless that
   * folder is itself named "index".
   */
  lemma MirrorOfIndexPost(userRoot: Path, dist: Path, dirs: seq<string>)
    requires Normal(dirs) && NoBackslash(dirs) && |dirs| >= 1
    ensures var n := |dirs|;
      MirrorPath(dist, FilePathToUrlPath(userRoot + ["pages"] + dirs + ["index.md"], userRoot))
        == dist + dirs[..n - 1] + [dirs[n - 1] + ".md"]
  {
    var n := |dirs|;
    var segs := dirs[..n - 1] + [dirs[n - 1] + ".md"];
    var url := "/" + Join(dirs, '/');
    calc {
      MirrorPath(dist, FilePathToUrlPath(userRoot + ["pages"] + dirs + ["index.md"], userRoot));
      { UrlPathOfIndexPost(userRoot, dirs); }
      MirrorPath(dist, url);
      { assert url[1..] == Join(dirs, '/'); }
      Resolve(dist, Join(dirs, '/') + ".md");
      { LastFolderMirror(dirs); }
      Resolve(dist, Join(segs, '/'));
      { ResolvePlain(dist, segs); }
      dist + segs;
      { ConcatAssoc(dist, dirs[..n - 1], [dirs[n - 1] + ".md"]); }
      dist + dirs[..n - 1] + [dirs[n - 1] + ".md"];
    }
  }

  /** Appending ".md" to the joined folders appends it to the last folder name, which stays a valid segment. */
  lemma LastFolderMirror(dirs: seq<string>)
    requires Normal(dirs) && |dirs| >= 1
    ensures var n := |dirs|; var segs := dirs[..n - 1] + [dirs[n - 1] + ".md"];
      Join(dirs, '/') + ".md" == Join(segs, '/') && Normal(segs)
  {
    var n := |dirs|;
    var last := dirs[n - 1];
    var segs := dirs[..n - 1] + [last + ".md"];
    if n == 1 {
      assert segs == [last + ".md"];
    } else {
      assert dirs == dirs[..n - 1] + [last];
      JoinSnoc(dirs[..n - 1], last, '/');
      JoinSnoc(dirs[..n - 1], last + ".md", '/');
    }
    assert ValidSegment(last);
    assert ValidSegment(last + ".md") by {
      assert '/' !in ".md";
      assert |last + ".md"| > 2;
    }
    assert forall i :: 0 <= i < n - 1 ==> segs[i] == dirs[i];
  }
}
