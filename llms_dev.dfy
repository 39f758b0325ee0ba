/**
 * The development-server side of llms.txt (packages/valaxy/node/plugins/llms.ts):
 * a middleware that answers `/llms.txt`, `/llms-full.txt` and raw
 * Markdown requests under `/posts/` from the current posts, without writing anything.
 */
module LlmsDev {
  import opened Wrappers
  import opened Text
  import opened Sorting
  import opened Frontmatter
  import opened Paths
  import opened SiteUtils
  import opened Llms
  import Seqs

  /** The plugin record `createLlmsPlugin` returns. */
  datatype Plugin = Plugin(name: string, apply: string, llms: LlmsConfig)

  /** `createLlmsPlugin`: no plugin at all unless llms output is enabled; the plugin only applies to `vite serve`. */
  function CreateLlmsPlugin(llms: LlmsConfig): (r: Option<Plugin>)
    ensures r.None? <==> !llms.enable
    ensures r.Some? ==> r.value.apply == "serve" && r.value.llms == llms
  {
    if !llms.enable then None else Some(Plugin("valaxy:llms-dev", "serve", llms))
  }

  /** What the middleware does with a request URL ("" stands for a missing URL). */
  datatype Route = PassOn | ServeLlmsTxt | ServeLlmsFullTxt | ServeRawMd

  function RouteOf(url: string, llms: LlmsConfig): Route {
    if url == "" then PassOn
    else if url == "/llms.txt" then ServeLlmsTxt
    else if url == "/llms-full.txt" && llms.fullText then ServeLlmsFullTxt
    else if llms.files && StartsWith(url, "/posts/") && EndsWith(url, ".md") then ServeRawMd
    else PassOn
  }

  /**
   * `/llms.txt` is always answered; `/llms-full.txt` exactly when `fullText`
   * is set; raw Markdown is looked up exactly for `/posts/...md` URLs when
   * `files` is set; everything else goes to the next middleware.
   */
  lemma Routing(url: string, llms: LlmsConfig)
    ensures RouteOf(url, llms) == ServeLlmsTxt <==> url == "/llms.txt"
    ensures RouteOf(url, llms) == ServeLlmsFullTxt <==> url == "/llms-full.txt" && llms.fullText
    ensures RouteOf(url, llms) == ServeRawMd <==> llms.files && StartsWith(url, "/posts/") && EndsWith(url, ".md")
  {
    assert !StartsWith("/llms.txt", "/posts/") by {
      assert "/llms.txt"[1] != "/posts/"[1];
    }
    assert !StartsWith("/llms-full.txt", "/posts/") by {
      assert "/llms-full.txt"[1] != "/posts/"[1];
    }
  }

  // ---------------------------------------------------------------------
  // resolveRawMd

  /** A Markdown file as gray-matter parses it: frontmatter and body. */
  datatype MdFile = MdFile(data: Data, content: string)

  /** The post files that exist on disk, by path. */
  type Files = map<Path, MdFile>

  function PagesDir(userRoot: Path): Path {
    Resolve(userRoot, "pages")
  }

  /** `path.resolve(pagesDir, url.slice(1))`. */
  function SafePath(url: string, userRoot: Path): Path {
    Resolve(PagesDir(userRoot), if |url| == 0 then "" else url[1..])
  }

  /** The string test `p.startsWith(pagesDir + path.sep)`. */
  predicate InsidePages(p: Path, pagesDir: Path) {
    StartsWith(PathString(p), PathString(pagesDir) + "/")
  }

  /** `s.slice(0, -3)`. */
  function DropLast3(s: string): string {
    if |s| >= 3 then s[..|s| - 3] else ""
  }

  /** `path.join(safePath.slice(0, -'.md'.length), 'index.md')`: the folder form of the requested post. */
  function IndexCandidate(safe: Path): Path {
    Resolve([], DropLast3(PathString(safe)) + "/index.md")
  }

  /** A public post's body, `null` for a post with a truthy `password`, `draft` or `hide`. */
  function Published(file: MdFile): Option<string> {
    if IsPublic(file.data) then Some(file.content) else None
  }

  /** `resolveRawMd` as written: only the direct candidate passes the containment test. */
  function RawMdAsWritten(url: string, userRoot: Path, files: Files): Option<string> {
    var pagesDir := PagesDir(userRoot);
    var safe := SafePath(url, userRoot);
    var index := IndexCandidate(safe);
    if !InsidePages(safe, pagesDir) then None
    else if safe in files then Published(files[safe])
    else if index in files then Published(files[index])
    else None
  }

  /** `resolveRawMd` with the containment test applied to the index candidate too. */
  function RawMd(url: string, userRoot: Path, files: Files): Option<string> {
    var pagesDir := PagesDir(userRoot);
    var safe := SafePath(url, userRoot);
    var index := IndexCandidate(safe);
    if !InsidePages(safe, pagesDir) then None
    else if safe in files then Published(files[safe])
    else if InsidePages(index, pagesDir) && index in files then Published(files[index])
    else None
  }

  /** `resolveRawMd`, choosing the file step by step: the direct file first, then the folder's index. */
  method ResolveRawMd(url: string, userRoot: Path, files: Files) returns (content: Option<string>)
    ensures content == RawMd(url, userRoot, files)
  {
    var pagesDir := PagesDir(userRoot);
    var safePath := SafePath(url, userRoot);
    if !InsidePages(safePath, pagesDir) {
      return None;
    }
    var directPath := safePath;
    var indexPath := IndexCandidate(safePath);
    var filePath: Option<Path> := None;
    if directPath in files {
      filePath := Some(directPath);
    } else if InsidePages(indexPath, pagesDir) && indexPath in files {
      filePath := Some(indexPath);
    }
    if filePath.None? {
      return None;
    }
    var file := files[filePath.value];
    if Truthy(Get(file.data, "password")) || Truthy(Get(file.data, "draft")) || Truthy(Get(file.data, "hide")) {
      return None;
    }
    content := Some(file.content);
  }

  lemma PagesDirOf(userRoot: Path)
    ensures PagesDir(userRoot) == userRoot + ["pages"]
  {
    assert Join(["pages"], '/') == "pages";
    ResolvePlain(userRoot, ["pages"]);
  }

  /**
   * Whatever the URL, the served Markdown is the body of a public post file
   * that lies strictly inside `pages`.
   */
  lemma RawMdContained(url: string, userRoot: Path, files: Files)
    requires Normal(userRoot)
    ensures var r := RawMd(url, userRoot, files);
      r.Some? ==> exists p :: p in files && StrictlyInside(p, PagesDir(userRoot)) && IsPublic(files[p].data) && files[p].content == r.value
  {
    var pagesDir := PagesDir(userRoot);
    PagesDirOf(userRoot);
    assert Normal(pagesDir) by {
      assert ValidSegment("pages");
    }
    var safe := SafePath(url, userRoot);
    var index := IndexCandidate(safe);
    ResolveNormal(pagesDir, if |url| == 0 then "" else url[1..]);
    ResolveNormal([], DropLast3(PathString(safe)) + "/index.md");
    ContainmentCheck(safe, pagesDir);
    ContainmentCheck(index, pagesDir);
  }

  /** Cutting three characters off a longer tail cuts them off the tail. */
  lemma DropLast3Tail(head: string, tail: string)
    requires |tail| >= 3
    ensures DropLast3(head + tail) == head + tail[..|tail| - 3]
  {
  }

  /** The text of `<dir>/<stem>/index.md`. */
  lemma IndexTextOf(dir: Path, stem: string)
    requires |dir| >= 1
    ensures PathString(dir) + "/" + stem + "/index.md" == "/" + Join(dir + [stem, "index.md"], '/')
  {
    var d := PathString(dir);
    calc {
      "/" + Join(dir + [stem, "index.md"], '/');
      PathString(dir + [stem, "index.md"]);
      { PathStringBelow(dir, [stem, "index.md"]); }
      d + "/" + Join([stem, "index.md"], '/');
      { JoinStemIndex(stem); }
      d + "/" + (stem + "/index.md");
      { Seqs.ConcatAssoc(d + "/", stem, "/index.md"); }
      d + "/" + stem + "/index.md";
    }
  }

  lemma JoinStemIndex(stem: string)
    ensures Join([stem, "index.md"], '/') == stem + "/index.md"
  {
    assert [stem, "index.md"][1..] == ["index.md"];
    IndexSuffix(stem);
  }

  /** The text the folder candidate of `<dir>/<name>` is resolved from. */
  lemma CandidateText(dir: Path, name: string)
    requires |dir| >= 1 && |name| >= 3
    ensures DropLast3(PathString(dir + [name])) + "/index.md" == "/" + Join(dir + [name[..|name| - 3], "index.md"], '/')
  {
    assert Join([name], '/') == name;
    PathStringBelow(dir, [name]);
    DropLast3Tail(PathString(dir) + "/", name);
    IndexTextOf(dir, name[..|name| - 3]);
  }

  /**
   * The folder candidate of `<dir>/<name>` is found by cutting the last three
   * characters off the name and walking `<that>/index.md` from `dir`.
   */
  lemma IndexCandidateOf(dir: Path, name: string)
    requires Normal(dir) && |dir| >= 1 && '/' !in name && |name| >= 3
    ensures IndexCandidate(dir + [name]) == Walk(dir, [name[..|name| - 3], "index.md"])
  {
    var stem := name[..|name| - 3];
    var segs := dir + [stem, "index.md"];
    assert SepFree(segs, '/') by {
      assert '/' !in "index.md";
      assert forall c :: c in stem ==> c in name;
    }
    calc {
      IndexCandidate(dir + [name]);
      { CandidateText(dir, name); }
      Resolve([], "/" + Join(segs, '/'));
      { ResolveAbsolute([], segs); }
      Walk([], segs);
      { WalkAppend([], dir, [stem, "index.md"]); }
      Walk(Walk([], dir), [stem, "index.md"]);
      { WalkPlain([], dir); assert [] + dir == dir; }
      Walk(dir, [stem, "index.md"]);
    }
  }

  /** The last segment of a path, less its final three characters, is an ordinary name. */
  predicate OrdinaryStem(p: Path) {
    |p| >= 1 && |p[|p| - 1]| >= 3 && ValidSegment(p[|p| - 1][..|p[|p| - 1]| - 3])
  }

  /** A path inside `pages` with an ordinary stem has its folder candidate inside `pages` too. */
  lemma OrdinaryIndexInside(safe: Path, pagesDir: Path)
    requires Normal(safe) && |pagesDir| >= 1 && StrictlyInside(safe, pagesDir) && OrdinaryStem(safe)
    ensures StrictlyInside(IndexCandidate(safe), pagesDir)
  {
    var n := |safe|;
    var dir, name := safe[..n - 1], safe[n - 1];
    assert safe == dir + [name];
    assert ValidSegment(name);
    assert Normal(dir);
    IndexCandidateOf(dir, name);
    var stem := name[..|name| - 3];
    var index := dir + [stem, "index.md"];
    assert Walk(dir, [stem, "index.md"]) == index by {
      WalkPlain(dir, [stem, "index.md"]);
    }
    assert index[..|pagesDir|] == dir[..|pagesDir|] == pagesDir;
  }

  /**
   * For a request whose last segment, less its final three characters, is an
   * ordinary name (the usual `/posts/<name>.md`), the folder candidate lies
   * inside `pages` whenever the direct one does, so the extra containment test
   * changes nothing.
   */
  lemma RawMdAgreesOnOrdinaryUrls(url: string, userRoot: Path, files: Files)
    requires Normal(userRoot) && OrdinaryStem(SafePath(url, userRoot))
    ensures RawMd(url, userRoot, files) == RawMdAsWritten(url, userRoot, files)
  {
    var pagesDir := PagesDir(userRoot);
    PagesDirOf(userRoot);
    assert Normal(pagesDir) by {
      assert ValidSegment("pages");
    }
    var safe := SafePath(url, userRoot);
    ResolveNormal(pagesDir, if |url| == 0 then "" else url[1..]);
    if InsidePages(safe, pagesDir) {
      ContainmentCheck(safe, pagesDir);
      OrdinaryIndexInside(safe, pagesDir);
      var index := IndexCandidate(safe);
      ResolveNormal([], DropLast3(PathString(safe)) + "/index.md");
      ContainmentCheck(index, pagesDir);
    }
  }

  lemma SplitEscapeText()
    ensures Split("posts/../...md", '/') == ["posts", "..", "...md"]
  {
    var parts := ["posts", "..", "...md"];
    assert Join(parts, '/') == "posts/../...md" by {
      assert Join(parts[1..], '/') == "../...md";
    }
    assert SepFree(parts, '/');
    SplitJoin(parts, '/');
  }

  /** `/posts/../...md` resolves to `pages/...md`. */
  lemma SafePathOfEscape(userRoot: Path)
    ensures SafePath("/posts/../...md", userRoot) == userRoot + ["pages", "...md"]
  {
    var pagesDir := PagesDir(userRoot);
    var segs := ["posts", "..", "...md"];
    calc {
      SafePath("/posts/../...md", userRoot);
      { assert "/posts/../...md"[1..] == "posts/../...md"; }
      Resolve(pagesDir, "posts/../...md");
      { assert !StartsWith("posts/../...md", "/"); SplitEscapeText(); }
      Walk(pagesDir, segs);
      Walk(pagesDir + ["posts"], segs[1..]);
      { assert segs[1..] == ["..", "...md"]; }
      Walk(pagesDir, ["...md"]);
      pagesDir + ["...md"];
      { PagesDirOf(userRoot); }
      userRoot + ["pages", "...md"];
    }
  }

  /**
   * The request `/posts/../...md` passes the containment test (its direct
   * candidate is `pages/...md`), but its folder candidate is `index.md` in the
   * site root, outside `pages`.
   */
  lemma IndexCandidateEscapes(userRoot: Path)
    requires Normal(userRoot)
    ensures var safe := SafePath("/posts/../...md", userRoot);
      && safe == userRoot + ["pages", "...md"]
      && InsidePages(safe, PagesDir(userRoot))
      && IndexCandidate(safe) == userRoot + ["index.md"]
      && !StrictlyInside(IndexCandidate(safe), PagesDir(userRoot))
  {
    var pagesDir := userRoot + ["pages"];
    PagesDirOf(userRoot);
    SafePathOfEscape(userRoot);
    var safe := pagesDir + ["...md"];
    assert userRoot + ["pages", "...md"] == safe by {
      Seqs.ConcatAssoc(userRoot, ["pages"], ["...md"]);
    }
    EscapeInside(pagesDir, safe);
    EscapeCandidate(userRoot, pagesDir);
  }

  lemma EscapeInside(pagesDir: Path, safe: Path)
    requires Normal(pagesDir) && |pagesDir| >= 1 && safe == pagesDir + ["...md"]
    ensures InsidePages(safe, pagesDir)
  {
    assert Normal(safe) by {
      assert ValidSegment("...md");
    }
    ContainmentCheck(safe, pagesDir);
  }

  lemma EscapeCandidate(userRoot: Path, pagesDir: Path)
    requires Normal(userRoot) && pagesDir == userRoot + ["pages"]
    ensures IndexCandidate(pagesDir + ["...md"]) == userRoot + ["index.md"]
  {
    assert Normal(pagesDir) by {
      assert ValidSegment("pages");
    }
    IndexCandidateOf(pagesDir, "...md");
    assert "...md"[..2] == "..";
    assert ["..", "index.md"][1..] == ["index.md"];
    assert pagesDir[..|pagesDir| - 1] == userRoot;
  }

  /**
   * As written, a public `index.md` in the site root is served for
   * `/posts/../...md`; with the containment test on both candidates it is not.
   */
  lemma RawMdAsWrittenLeaks(userRoot: Path, secret: string)
    requires Normal(userRoot)
    ensures var files := map[userRoot + ["index.md"] := MdFile(map[], secret)];
      && RawMdAsWritten("/posts/../...md", userRoot, files) == Some(secret)
      && RawMd("/posts/../...md", userRoot, files) == None
  {
    var url := "/posts/../...md";
    var files := map[userRoot + ["index.md"] := MdFile(map[], secret)];
    var pagesDir := PagesDir(userRoot);
    IndexCandidateEscapes(userRoot);
    var safe := SafePath(url, userRoot);
    assert safe != userRoot + ["index.md"] by {
      assert |safe| != |userRoot + ["index.md"]|;
    }
    assert safe !in files;
    var index := IndexCandidate(safe);
    assert Normal(index) by {
      assert ValidSegment("index.md");
    }
    PagesDirOf(userRoot);
    assert Normal(pagesDir) by {
      assert ValidSegment("pages");
    }
    ContainmentCheck(index, pagesDir);
    assert IsPublic(map[]);
  }

  // ---------------------------------------------------------------------
  // sendText and the middleware

  /** A header value: `setHeader` is given a string for the type and a number for the length. */
  datatype HeaderValue = HeaderText(text: string) | HeaderNumber(n: nat)

  const TextPlain: string := "text/plain; charset=utf-8"

  /** What `sendText` adds to a response: the status, the two headers and the body it ends with. */
  datatype Reply = Reply(status: int, contentType: HeaderValue, contentLength: HeaderValue, body: string)

  function TextReply(content: string, headOnly: bool): Reply {
    Reply(200, HeaderText(TextPlain), HeaderNumber(Utf8Length(content)), if headOnly then "" else content)
  }

  /**
   * A HEAD request gets the same status and headers as the GET of the same
   * resource and no body; the announced length is the UTF-8 size of the GET
   * body, which is at least its character count and equals it exactly for
   * ASCII text.
   */
  lemma HeadAgreesWithGet(content: string)
    ensures var head, get := TextReply(content, true), TextReply(content, false);
      && head.status == get.status == 200
      && head.contentType == get.contentType
      && head.contentLength == get.contentLength
      && head.body == "" && get.body == content
      && get.contentLength.n >= |get.body|
      && (get.contentLength.n == |get.body| <==> IsAscii(get.body))
  {
    Utf8LengthBounds(content);
  }

  /** The parts of a Node `ServerResponse` the middleware touches. */
  class ServerResponse {
    var statusCode: int
    var headers: map<string, HeaderValue>
    var body: string
    var ended: bool

    /** A fresh response: status 200, no headers, nothing sent. */
    constructor ()
      ensures statusCode == 200 && headers == map[] && body == "" && !ended
    {
      statusCode := 200;
      headers := map[];
      body := "";
      ended := false;
    }

    /** The reply is what this response now carries on top of the given earlier headers and body. */
    predicate Carries(reply: Reply, oldHeaders: map<string, HeaderValue>, oldBody: string)
      reads this
    {
      && statusCode == reply.status
      && headers == oldHeaders["Content-Type" := reply.contentType]["Content-Length" := reply.contentLength]
      && body == oldBody + reply.body
      && ended
    }
  }

  /** `sendText`: plain-text headers with the UTF-8 length, status 200, and the content unless the request was HEAD. */
  method SendText(res: ServerResponse, content: string, headOnly: bool)
    modifies res
    ensures res.Carries(TextReply(content, headOnly), old(res.headers), old(res.body))
  {
    res.headers := res.headers["Content-Type" := HeaderText(TextPlain)];
    res.headers := res.headers["Content-Length" := HeaderNumber(Utf8Length(content))];
    res.statusCode := 200;
    if headOnly {
      res.ended := true;
    } else {
      res.body := res.body + content;
      res.ended := true;
    }
  }

  /** An incoming request: its URL ("" when missing) and its HTTP method. */
  datatype Request = Request(url: string, verb: string)

  /** What the middleware sees: the site, its posts as scanned and read, and the post files on disk. */
  datatype DevEnv = DevEnv(userRoot: Path, site: SiteConfig, rawPosts: seq<RawPost>, files: Files, i18n: I18n, parseDate: string -> int)

  function DevPosts(env: DevEnv): seq<LlmsPost> {
    LlmsPosts(env.rawPosts, env.userRoot, Lang(env.site), env.i18n, env.parseDate)
  }

  /** `buildLlmsTxt`: the same text the build writes to `llms.txt`. */
  function DevLlmsTxt(env: DevEnv): string {
    Join(LlmsTxtLines(SiteTitle(env.site, env.i18n), SiteDescription(env.site, env.i18n), env.site.llms.prompt,
      DevPosts(env), GetSiteUrl(env.site.url)), '\n')
  }

  /** `buildLlmsFullTxt`: the same text the build writes to `llms-full.txt`. */
  function DevLlmsFullTxt(env: DevEnv): string {
    Join(LlmsFullTxtLines(SiteTitle(env.site, env.i18n), SiteDescription(env.site, env.i18n), env.site.llms.prompt,
      DevPosts(env)), '\n')
  }

  /** The text the middleware answers a URL with, or `None` when it calls `next()`. */
  function Served(env: DevEnv, url: string): Option<string> {
    match RouteOf(url, env.site.llms)
    case PassOn => None
    case ServeLlmsTxt => Some(DevLlmsTxt(env))
    case ServeLlmsFullTxt => Some(DevLlmsFullTxt(env))
    case ServeRawMd => RawMd(url, env.userRoot, env.files)
  }

  /** `collectPosts`: the public posts, projected and sorted newest first, as the build does it. */
  method CollectPosts(env: DevEnv) returns (posts: seq<LlmsPost>)
    ensures posts == DevPosts(env)
    ensures forall i, j :: 0 <= i < j < |posts| ==> posts[i].date >= posts[j].date
  {
    posts := SortPosts(Projected(env.rawPosts, env.userRoot, Lang(env.site), env.i18n, env.parseDate));
    LlmsPostsOrder(env.rawPosts, env.userRoot, Lang(env.site), env.i18n, env.parseDate, LlmsPost("", "", 0, "", ""));
  }

  method BuildLlmsTxt(env: DevEnv) returns (text: string)
    ensures text == DevLlmsTxt(env)
  {
    var posts := CollectPosts(env);
    text := GenerateLlmsTxt(SiteTitle(env.site, env.i18n), SiteDescription(env.site, env.i18n), env.site.llms.prompt,
      posts, GetSiteUrl(env.site.url));
  }

  method BuildLlmsFullTxt(env: DevEnv) returns (text: string)
    ensures text == DevLlmsFullTxt(env)
  {
    var posts := CollectPosts(env);
    text := GenerateLlmsFullTxt(SiteTitle(env.site, env.i18n), SiteDescription(env.site, env.i18n), env.site.llms.prompt, posts);
  }

  /**
   * The middleware: answers with `sendText` when the URL is served, HEAD
   * requests without a body, and otherwise leaves the response alone and
   * calls `next()`. It exists only when llms output is enabled.
   */
  method Middleware(env: DevEnv, req: Request, res: ServerResponse) returns (nextCalled: bool)
    requires env.site.llms.enable
    modifies res
    ensures var served := Served(env, req.url);
      && nextCalled == served.None?
      && (served.None? ==> unchanged(res))
      && (served.Some? ==> res.Carries(TextReply(served.value, req.verb == "HEAD"), old(res.headers), old(res.body)))
  {
    var url := req.url;
    var llms := env.site.llms;
    if url == "" {
      return true;
    }
    if url == "/llms.txt" {
      var content := BuildLlmsTxt(env);
      SendText(res, content, req.verb == "HEAD");
      return false;
    }
    if url == "/llms-full.txt" && llms.fullText {
      var content := BuildLlmsFullTxt(env);
      SendText(res, content, req.verb == "HEAD");
      return false;
    }
    if llms.files && StartsWith(url, "/posts/") && EndsWith(url, ".md") {
      var content := ResolveRawMd(url, env.userRoot, env.files);
      if content.Some? {
        SendText(res, content.value, req.verb == "HEAD");
        return false;
      }
    }
    return true;
  }

  /**
   * Everything the middleware serves is the build's llms.txt, the build's
   * llms-full.txt (only when `fullText` is set), or the body of a public post
   * file strictly inside `pages`.
   */
  lemma ServedContent(env: DevEnv, url: string)
    requires Normal(env.userRoot)
    ensures var r := Served(env, url);
      r.Some? ==>
        || (url == "/llms.txt" && r.value == DevLlmsTxt(env))
        || (url == "/llms-full.txt" && env.site.llms.fullText && r.value == DevLlmsFullTxt(env))
        || (exists p :: p in env.files && StrictlyInside(p, PagesDir(env.userRoot)) && IsPublic(env.files[p].data) && env.files[p].content == r.value)
  {
    Routing(url, env.site.llms);
    RawMdContained(url, env.userRoot, env.files);
  }

  /** A draft, hidden or encrypted file is never served, whatever URL names it. */
  lemma PrivateNeverServed(env: DevEnv, url: string, p: Path)
    requires Normal(env.userRoot)
    requires p in env.files && !IsPublic(env.files[p].data)
    requires forall q :: q in env.files && q != p ==> env.files[q].content != env.files[p].content
    requires env.files[p].content != DevLlmsTxt(env) && env.files[p].content != DevLlmsFullTxt(env)
    ensures Served(env, url) != Some(env.files[p].content)
  {
    ServedContent(env, url);
  }
}
