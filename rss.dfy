/**
 * RSS preparation (packages/valaxy/node/modules/rss/utils.ts): the site-URL
 * guard, the feed file names and licence version, the post filter that also
 * collects drafts, the projection of a post to a feed item (content choice,
 * link, image prefix, dates), the newest-first sort, and the `.gitignore`
 * update that `writeFeed` performs once per feed type.
 */
module Rss {
  import opened Wrappers
  import opened Text
  import opened Seqs
  import opened Sorting
  import opened Frontmatter
  import opened Paths

  // ---------------------------------------------------------------------
  // build: guard, names, licence, DOMAIN

  /** The parts of the site config the RSS build reads ("" stands for an unset `feed.name`). */
  datatype RssSite = RssSite(url: string, lang: string, licenseType: Option<string>, feedName: string)

  /** `feedNameMap`: the file name of each feed type. */
  datatype FeedNames = FeedNames(atom: string, json: string, rss: string)

  function FeedNameMap(name: string): FeedNames {
    FeedNames(
      if name != "" then name + ".atom" else "atom.xml",
      (if name != "" then name else "feed") + ".json",
      (if name != "" then name else "feed") + ".xml")
  }

  /**
   * Each feed file name ends with the extension of its format (the atom feed
   * falls back to `atom.xml`), a set name is their common stem, and the three
   * names are pairwise different, so no feed overwrites another.
   */
  lemma FeedNamesShape(name: string)
    ensures var r := FeedNameMap(name);
      && (EndsWith(r.atom, ".atom") || r.atom == "atom.xml")
      && EndsWith(r.json, ".json") && EndsWith(r.rss, ".xml")
      && (name != "" ==> StartsWith(r.atom, name) && StartsWith(r.json, name) && StartsWith(r.rss, name))
      && (name == "" ==> r.atom == "atom.xml" && r.json == "feed.json" && r.rss == "feed.xml")
      && r.atom != r.json && r.json != r.rss && r.atom != r.rss
  {
    var r := FeedNameMap(name);
    var stem := if name != "" then name else "feed";
    assert r.json[|r.json| - 5..] == ".json";
    assert r.rss[|r.rss| - 4..] == ".xml";
    assert r.json[|r.json| - 1] == 'n' && r.rss[|r.rss| - 1] == 'l';
    if name != "" {
      assert r.atom[|r.atom| - 1] == 'm';
      assert r.atom[|r.atom| - 5..] == ".atom";
      assert r.json[..|name|] == name && r.rss[..|name|] == name && r.atom[..|name|] == name;
    } else {
      assert r.atom[0] == 'a' && r.rss[0] == 'f';
      assert r.atom[|r.atom| - 1] == 'l';
    }
  }

  /** The Creative Commons version in the copyright line: 1.0 for CC0, 4.0 for every other licence. */
  function CcVersion(licenseType: Option<string>): (r: string)
    ensures r == "1.0" || r == "4.0"
    ensures r == "1.0" <==> licenseType == Some("zero")
  {
    if licenseType == Some("zero") then "1.0" else "4.0"
  }

  /** `DOMAIN`: the site URL without its last character (the URL is expected to end in "/"). */
  function Domain(url: string): (r: string)
    ensures |url| >= 1 ==> |r| == |url| - 1 && r + [url[|url| - 1]] == url
    ensures EndsWith(url, "/") ==> r + "/" == url
  {
    if |url| >= 1 then url[..|url| - 1] else ""
  }

  /** What `build` sets up before reading posts. */
  datatype FeedSetup = FeedSetup(names: FeedNames, ccVersion: string, domain: string)

  /** `build` stops at once, producing nothing, when the site URL is unset or just "/". */
  function Setup(site: RssSite): (r: Option<FeedSetup>)
    ensures r.None? <==> site.url == "" || site.url == "/"
    ensures r.Some? ==> r.value.domain + [site.url[|site.url| - 1]] == site.url
    ensures r.Some? && |site.url| >= 2 ==> r.value.domain != ""
  {
    if site.url == "" || site.url == "/" then None
    else Some(FeedSetup(FeedNameMap(site.feedName), CcVersion(site.licenseType), Domain(site.url)))
  }

  // ---------------------------------------------------------------------
  // getPosts: the filter

  /** A Markdown file under `pages/posts` as gray-matter parses it, with its globbed path. */
  datatype RssRawPost = RssRawPost(data: Data, content: string, excerpt: string, path: string)

  /** The filter callback's verdict: no `password`, no `draft`, no `hide`. */
  predicate KeepsPost(p: RssRawPost) {
    IsPublic(p.data)
  }

  /** The callback records a post as a draft only when it gets past the `password` test and fails the `draft` test. */
  predicate RecordedDraft(p: RssRawPost) {
    !Truthy(Get(p.data, "password")) && Truthy(Get(p.data, "draft"))
  }

  /** `rawPosts.filter(...)`, whose callback pushes into `draftPosts` as it goes. */
  method FilterPosts(rawPosts: seq<RssRawPost>) returns (kept: seq<RssRawPost>, drafts: seq<RssRawPost>)
    ensures kept == Filter(rawPosts, KeepsPost)
    ensures drafts == Filter(rawPosts, RecordedDraft)
  {
    kept, drafts := [], [];
    for i := 0 to |rawPosts|
      invariant kept == Filter(rawPosts[..i], KeepsPost)
      invariant drafts == Filter(rawPosts[..i], RecordedDraft)
    {
      var p := rawPosts[i];
      FilterStep(rawPosts, i, KeepsPost);
      FilterStep(rawPosts, i, RecordedDraft);
      if Truthy(Get(p.data, "password")) {
        // an encrypted post is skipped, and not recorded even when it is a draft
      } else if Truthy(Get(p.data, "draft")) {
        drafts := drafts + [p];
      } else if Truthy(Get(p.data, "hide")) {
      } else {
        kept := kept + [p];
      }
    }
    assert rawPosts[..|rawPosts|] == rawPosts;
  }

  /**
   * The kept posts and the recorded drafts never share a post and together
   * fit in the input; an encrypted post ends up in neither list, even when it
   * is also a draft.
   */
  lemma FilterSeparates(rawPosts: seq<RssRawPost>)
    ensures var kept, drafts := Filter(rawPosts, KeepsPost), Filter(rawPosts, RecordedDraft);
      && |kept| + |drafts| <= |rawPosts|
      && (forall p :: p in kept ==> p !in drafts)
      && (forall p :: p in rawPosts && Truthy(Get(p.data, "password")) ==> p !in kept && p !in drafts)
      && (forall p :: p in rawPosts && !Truthy(Get(p.data, "password")) && Truthy(Get(p.data, "draft")) ==> p in drafts)
  {
    DisjointFiltersFit(rawPosts, KeepsPost, RecordedDraft);
    var kept, drafts := Filter(rawPosts, KeepsPost), Filter(rawPosts, RecordedDraft);
    forall p | p in kept ensures p !in drafts {
      assert KeepsPost(p) && !RecordedDraft(p);
    }
    forall p | p in rawPosts && Truthy(Get(p.data, "password")) ensures p !in kept && p !in drafts {
      assert !KeepsPost(p) && !RecordedDraft(p);
    }
    forall p | p in rawPosts && RecordedDraft(p) ensures p in drafts {
      var i :| 0 <= i < |rawPosts| && rawPosts[i] == p;
    }
  }

  // ---------------------------------------------------------------------
  // getPosts: one feed item per kept post

  /** A feed item: the post's frontmatter (spread first) and the fields set after it. */
  datatype Item = Item(data: Data, title: string, description: string, date: int, published: int,
                       content: string, id: Value, link: string)

  /**
   * What `getPosts` takes from its surroundings: the site root as text, the
   * language, the two flags, `DOMAIN`, and the foreign pieces as functions
   * (`tObject`, markdown-it's `render`, git's creation and update times, and
   * the runtime's date parsing).
   */
  datatype RssEnv = RssEnv(
    userRoot: string, lang: string, fullText: bool, lastUpdated: bool, domain: string,
    tObject: (Value, string) -> string, render: string -> string,
    createdTime: string -> int, updatedTime: string -> int, parseDate: string -> int)

  function Min(a: int, b: int): int {
    if a <= b then a else b
  }

  /** The text rendered into the item: the whole post, or its excerpt, or else its first 100 characters. */
  function RssContent(fullText: bool, content: string, excerpt: string): (r: string)
    ensures fullText ==> r == content
    ensures !fullText && excerpt != "" ==> r == excerpt
    ensures !fullText && excerpt == "" ==> StartsWith(content, r) && |r| == Min(100, |content|)
  {
    if fullText then content
    else if excerpt != "" then excerpt
    else content[..Min(100, |content|)]
  }

  /** `DOMAIN + path.replace(userRoot + '/pages', '').replace(/\.md$/, '')`. */
  function Link(domain: string, userRoot: string, path: string): string {
    domain + StripMdSuffix(ReplaceFirst(path, userRoot + "/pages", ""))
  }

  /** The link of `<userRoot>/pages/<rest>.md` is `DOMAIN` followed by `/<rest>`-style text without the `.md`. */
  lemma LinkOfPost(domain: string, userRoot: string, rest: string)
    ensures Link(domain, userRoot, userRoot + "/pages" + rest + ".md") == domain + rest
  {
    var prefix := userRoot + "/pages";
    var path := prefix + rest + ".md";
    assert StartsWith(path, prefix) by {
      assert path[..|prefix|] == prefix;
    }
    assert IndexOf(path, prefix) == 0;
    assert ReplaceFirst(path, prefix, "") == rest + ".md" by {
      assert path[|prefix|..] == rest + ".md";
    }
    assert (rest + ".md")[|rest|..] == ".md";
    assert (rest + ".md")[..|rest|] == rest;
  }

  /**
   * The frontmatter after `getPosts` has filled it in: a missing date becomes
   * the file's creation time, a missing `updated` becomes its update time
   * when `lastUpdated` is set, and a site-relative image gets `DOMAIN`.
   */
  function FilledData(p: RssRawPost, env: RssEnv): Data {
    var d1 := if !Truthy(Get(p.data, "date")) then p.data["date" := Num(env.createdTime(p.path))] else p.data;
    var d2 := if env.lastUpdated && !Truthy(Get(d1, "updated")) then d1["updated" := Num(env.updatedTime(p.path))] else d1;
    var image := Get(d2, "image");
    if image.Str? && StartsWith(image.s, "/") then d2["image" := Str(env.domain + image.s)] else d2
  }

  /** The paragraph appended to each item, in Chinese for `zh-CN` and in English otherwise. */
  function Tip(lang: string, link: string, fullText: bool): string {
    TipLead(lang) + link + TipTail(lang, link, fullText)
  }

  /** The tip up to the `href` value. */
  function TipLead(lang: string): string {
    if lang == "zh-CN" then "<br/><p>访问 <a href=\"" else "<br/><p>Visit <a href=\""
  }

  /** The tip after the `href` value: the link text again and the closing words. */
  function TipTail(lang: string, link: string, fullText: bool): string {
    var rest := "\" target=\"_blank\">" + link + "</a>";
    if lang == "zh-CN" then rest + " " + (if fullText then "查看原文" else "阅读全文") + "。</p>"
    else rest + " to " + (if fullText then "view original article" else "read more") + ".</p>"
  }

  /** The item for one kept post. */
  function ToItem(p: RssRawPost, env: RssEnv): (r: Item)
    ensures r.link == Link(env.domain, env.userRoot, p.path)
    ensures var image := Get(p.data, "image");
      && (image.Str? && StartsWith(image.s, "/") ==> Get(r.data, "image") == Str(env.domain + image.s))
      && (!(image.Str? && StartsWith(image.s, "/")) ==> Get(r.data, "image") == image)
    ensures r.content == ReplaceFirst(env.render(RssContent(env.fullText, p.content, p.excerpt)), "src=\"/", "src=\"" + env.domain + "/")
                         + Tip(env.lang, r.link, env.fullText)
  {
    var data := FilledData(p, env);
    var link := Link(env.domain, env.userRoot, p.path);
    var html := ReplaceFirst(env.render(RssContent(env.fullText, p.content, p.excerpt)), "src=\"/", "src=\"" + env.domain + "/");
    var id := Get(data, "id");
    Item(
      data,
      env.tObject(Get(data, "title"), env.lang),
      env.tObject(Get(data, "description"), env.lang),
      Timestamp(Get(data, "date"), env.parseDate),
      Timestamp(if Truthy(Get(data, "updated")) then Get(data, "updated") else Get(data, "date"), env.parseDate),
      html + Tip(env.lang, link, env.fullText),
      if Truthy(id) then id else Str(link),
      link)
  }

  /**
   * The item's dates: an undated post is dated by its creation time;
   * `published` is the post's own `updated` when it has one, else the update
   * time from history when `lastUpdated` is set (unless that time is 0,
   * which is falsy), else the date.
   */
  lemma ItemDates(p: RssRawPost, env: RssEnv)
    ensures var r := ToItem(p, env);
      var date, updated := Get(p.data, "date"), Get(p.data, "updated");
      && r.date == (if Truthy(date) then Timestamp(date, env.parseDate) else env.createdTime(p.path))
      && (Truthy(updated) ==> r.published == Timestamp(updated, env.parseDate))
      && (!Truthy(updated) && env.lastUpdated ==> r.published == (if env.updatedTime(p.path) != 0 then env.updatedTime(p.path) else r.date))
      && (!Truthy(updated) && !env.lastUpdated ==> r.published == r.date)
  {
  }

  /** The tip holds the link, right after its lead. */
  lemma TipLinks(html: string, lang: string, link: string, fullText: bool)
    ensures EndsWith(html + Tip(lang, link, fullText), Tip(lang, link, fullText))
    ensures Contains(html + Tip(lang, link, fullText), link)
  {
    var lead, tail := TipLead(lang), TipTail(lang, link, fullText);
    var s := html + Tip(lang, link, fullText);
    assert s == html + lead + link + tail;
    assert s[|html| + |lead|..|html| + |lead| + |link|] == link;
    ContainsAt(s, link, |html| + |lead|);
  }

  /**
   * Every item has a usable id: its own `id` when that is truthy, and the link
   * otherwise. Its content ends with the paragraph that links the post.
   */
  lemma ItemIdAndTip(p: RssRawPost, env: RssEnv)
    requires env.domain != ""
    ensures var r := ToItem(p, env);
      && Truthy(r.id)
      && (Truthy(Get(p.data, "id")) ==> r.id == Get(p.data, "id"))
      && (!Truthy(Get(p.data, "id")) ==> r.id == Str(r.link))
      && EndsWith(r.content, Tip(env.lang, r.link, env.fullText))
      && Contains(r.content, r.link)
  {
    var r := ToItem(p, env);
    assert Get(FilledData(p, env), "id") == Get(p.data, "id");
    TipLinks(r.content[..|r.content| - |Tip(env.lang, r.link, env.fullText)|], env.lang, r.link, env.fullText);
    assert r.content == r.content[..|r.content| - |Tip(env.lang, r.link, env.fullText)|] + Tip(env.lang, r.link, env.fullText);
  }

  /** The comparator `+(b.published || b.date) - +(a.published || a.date)`: `published` is always set, so newer publication first. */
  function PublishedFirst(a: Item, b: Item): bool {
    a.published >= b.published
  }

  lemma PublishedFirstIsTotalPreorder()
    ensures TotalPreorder(PublishedFirst)
  {
  }

  function Items(kept: seq<RssRawPost>, env: RssEnv): seq<Item> {
    seq(|kept|, i requires 0 <= i < |kept| => ToItem(kept[i], env))
  }

  /** The feed's items: the kept posts projected, then stably sorted newest publication first. */
  function FeedItems(rawPosts: seq<RssRawPost>, env: RssEnv): seq<Item> {
    InsertionSort(Items(Filter(rawPosts, KeepsPost), env), PublishedFirst)
  }

  /** `getPosts`: filter, one item pushed per kept post, then an in-place sort. */
  method GetPosts(rawPosts: seq<RssRawPost>, env: RssEnv) returns (posts: seq<Item>)
    ensures posts == FeedItems(rawPosts, env)
  {
    var kept, drafts := FilterPosts(rawPosts);
    var items := ProjectItems(kept, env);
    posts := SortItems(items);
  }

  /** The loop that pushes one item per kept post. */
  method ProjectItems(kept: seq<RssRawPost>, env: RssEnv) returns (items: seq<Item>)
    ensures items == Items(kept, env)
  {
    items := [];
    for i := 0 to |kept|
      invariant items == Items(kept[..i], env)
    {
      items := items + [ToItem(kept[i], env)];
    }
    assert kept[..|kept|] == kept;
  }

  /** `posts.sort(...)`: an in-place stable sort, newest publication first. */
  method SortItems(items: seq<Item>) returns (posts: seq<Item>)
    ensures posts == InsertionSort(items, PublishedFirst)
  {
    var a := new Item[|items|](i requires 0 <= i < |items| => items[i]);
    assert a[..] == items;
    SortInPlace(a, PublishedFirst);
    posts := a[..];
  }

  /**
   * The feed lists exactly the items of the kept posts, newest publication
   * first, with items published at the same time in their input order.
   */
  lemma FeedItemsOrder(rawPosts: seq<RssRawPost>, env: RssEnv, y: Item)
    ensures var posts, items := FeedItems(rawPosts, env), Items(Filter(rawPosts, KeepsPost), env);
      && (forall i, j :: 0 <= i < j < |posts| ==> posts[i].published >= posts[j].published)
      && multiset(posts) == multiset(items)
      && Filter(posts, RankedWith(y, PublishedFirst)) == Filter(items, RankedWith(y, PublishedFirst))
  {
    var items := Items(Filter(rawPosts, KeepsPost), env);
    PublishedFirstIsTotalPreorder();
    SortSorts(items, PublishedFirst);
    SortPermutes(items, PublishedFirst);
    SortStable(items, y, PublishedFirst);
  }

  /** Every feed item comes from a public post. */
  lemma FeedItemsArePublic(rawPosts: seq<RssRawPost>, env: RssEnv)
    ensures var posts := FeedItems(rawPosts, env);
      forall i :: 0 <= i < |posts| ==>
        exists j :: 0 <= j < |rawPosts| && IsPublic(rawPosts[j].data) && posts[i] == ToItem(rawPosts[j], env)
  {
    var posts := FeedItems(rawPosts, env);
    var items := Items(Filter(rawPosts, KeepsPost), env);
    forall i | 0 <= i < |posts|
      ensures exists j :: 0 <= j < |rawPosts| && IsPublic(rawPosts[j].data) && posts[i] == ToItem(rawPosts[j], env)
    {
      var k := SortOrigin(items, PublishedFirst, i);
      KeptItemOrigin(rawPosts, env, k);
    }
  }

  /** The k-th projected item is the item of some public post. */
  lemma KeptItemOrigin(rawPosts: seq<RssRawPost>, env: RssEnv, k: nat)
    requires k < |Filter(rawPosts, KeepsPost)|
    ensures exists j :: 0 <= j < |rawPosts| && IsPublic(rawPosts[j].data) && Items(Filter(rawPosts, KeepsPost), env)[k] == ToItem(rawPosts[j], env)
  {
    var kept := Filter(rawPosts, KeepsPost);
    assert kept[k] in rawPosts && KeepsPost(kept[k]);
    var j :| 0 <= j < |rawPosts| && rawPosts[j] == kept[k];
  }

  // ---------------------------------------------------------------------
  // writeFeed: the files and the .gitignore

  /** The entry `writeFeed` makes sure `.gitignore` has: `join('public', name)` with forward slashes. */
  function IgnorePath(name: string): string {
    Slashify(JoinPaths("public", name))
  }

  /** The `.gitignore` after one feed: unchanged when it already mentions the path, else the path appended under a marker comment. */
  function AppendIgnore(gitignore: string, ignorePath: string): string {
    if Contains(gitignore, ignorePath) then gitignore
    else gitignore + "\n# valaxy rss\n" + ignorePath + "\n"
  }

  /** Afterwards the file mentions the path, everything it held before is still at its start, and a second run changes nothing. */
  lemma AppendIgnoreProperties(gitignore: string, ignorePath: string)
    ensures var r := AppendIgnore(gitignore, ignorePath);
      && Contains(r, ignorePath)
      && StartsWith(r, gitignore)
      && AppendIgnore(r, ignorePath) == r
      && (Contains(gitignore, ignorePath) <==> r == gitignore)
  {
    var r := AppendIgnore(gitignore, ignorePath);
    if !Contains(gitignore, ignorePath) {
      var head := gitignore + "\n# valaxy rss\n";
      assert r == head + ignorePath + "\n";
      assert r[|head|..|head| + |ignorePath|] == ignorePath;
      ContainsAt(r, ignorePath, |head|);
      assert r[..|gitignore|] == gitignore;
    }
  }

  /** `.gitignore` after the feeds of `names`, one after another. */
  function AppendAll(gitignore: string, paths: seq<string>): string
    decreases |paths|
  {
    if |paths| == 0 then gitignore else AppendAll(AppendIgnore(gitignore, paths[0]), paths[1..])
  }

  lemma {:induction false} AppendAllKeeps(gitignore: string, paths: seq<string>, q: string)
    requires Contains(gitignore, q)
    ensures Contains(AppendAll(gitignore, paths), q)
    decreases |paths|
  {
    if |paths| > 0 {
      var next := AppendIgnore(gitignore, paths[0]);
      if !Contains(gitignore, paths[0]) {
        ContainsExtend(gitignore, "\n# valaxy rss\n" + paths[0] + "\n", q);
        assert next == gitignore + ("\n# valaxy rss\n" + paths[0] + "\n");
      }
      AppendAllKeeps(next, paths[1..], q);
    }
  }

  /** After all the appends the file mentions every path. */
  lemma {:induction false} AppendAllContains(gitignore: string, paths: seq<string>)
    ensures forall i :: 0 <= i < |paths| ==> Contains(AppendAll(gitignore, paths), paths[i])
    decreases |paths|
  {
    if |paths| > 0 {
      var next := AppendIgnore(gitignore, paths[0]);
      AppendIgnoreProperties(gitignore, paths[0]);
      AppendAllContains(next, paths[1..]);
      AppendAllKeeps(next, paths[1..], paths[0]);
      forall i | 1 <= i < |paths| ensures Contains(AppendAll(gitignore, paths), paths[i]) {
        assert paths[i] == paths[1..][i - 1];
      }
    }
  }

  /** A file that already mentions every path is left alone. */
  lemma {:induction false} AppendAllNoop(gitignore: string, paths: seq<string>)
    requires forall i :: 0 <= i < |paths| ==> Contains(gitignore, paths[i])
    ensures AppendAll(gitignore, paths) == gitignore
    decreases |paths|
  {
    if |paths| > 0 {
      AppendAllNoop(gitignore, paths[1..]);
    }
  }

  /** Running the build again leaves `.gitignore` as the first run left it. */
  lemma AppendAllIdempotent(gitignore: string, paths: seq<string>)
    ensures AppendAll(AppendAll(gitignore, paths), paths) == AppendAll(gitignore, paths)
  {
    AppendAllContains(gitignore, paths);
    AppendAllNoop(AppendAll(gitignore, paths), paths);
  }

  /** One `fs.writeFile` of `writeFeed`. */
  datatype FeedWrite = FeedWrite(path: Path, text: string)

  /** The serialised feeds, `feed.rss2()`, `feed.atom1()` and `feed.json1()`, which the `feed` package produces. */
  datatype FeedTexts = FeedTexts(rss: string, atom: string, json: string)

  const FeedTypes: seq<string> := ["rss", "atom", "json"]

  function NameOf(names: FeedNames, feedType: string): string {
    if feedType == "rss" then names.rss else if feedType == "atom" then names.atom else names.json
  }

  function TextOf(texts: FeedTexts, feedType: string): string {
    if feedType == "rss" then texts.rss else if feedType == "atom" then texts.atom else texts.json
  }

  function IgnorePaths(names: FeedNames): seq<string> {
    [IgnorePath(names.rss), IgnorePath(names.atom), IgnorePath(names.json)]
  }

  /**
   * The `dist` file of a feed, named by the text `${dist}/${name}`: that
   * text is absolute, and the file it names is the text resolved.
   */
  function DistFeedPath(dist: Path, name: string): Path {
    Resolve([], PathString(dist) + "/" + name)
  }

  /**
   * The concatenated text walks the feed name's segments from `dist`, even
   * when the name starts with "/"; for any other name it is
   * `path.resolve(dist, name)`.
   */
  lemma DistFeedPathWalks(dist: Path, name: string)
    requires Normal(dist) && |dist| >= 1
    ensures DistFeedPath(dist, name) == Walk(dist, Split(name, '/'))
    ensures !StartsWith(name, "/") ==> DistFeedPath(dist, name) == Resolve(dist, name)
  {
    var text := PathString(dist) + "/" + name;
    var segs := Split(name, '/');
    SplitDistText(dist, name);
    assert StartsWith(text, "/") by {
      assert text[0] == '/';
    }
    assert DistFeedPath(dist, name) == Walk([], ([""] + dist) + segs);
    WalkAppend([], [""] + dist, segs);
    assert Walk([], [""] + dist) == dist by {
      assert ([""] + dist)[1..] == dist;
      WalkPlain([], dist);
    }
  }

  lemma SplitDistText(dist: Path, name: string)
    requires Normal(dist) && |dist| >= 1
    ensures Split(PathString(dist) + "/" + name, '/') == ([""] + dist) + Split(name, '/')
  {
    NormalSepFree(dist);
    var rest := Join(dist, '/') + ['/'] + name;
    assert PathString(dist) + "/" + name == "" + ['/'] + rest;
    SplitCons("", '/', rest);
    SplitJoinThen(dist, '/', name);
    assert [""] + (dist + Split(name, '/')) == ([""] + dist) + Split(name, '/');
  }

  /**
   * A feed name written with a leading "/" still lands inside `dist`, where
   * `path.resolve` would have left it at the root, and its `.gitignore` entry
   * loses the doubled "/".
   */
  lemma LeadingSlashFeedName(dist: Path, seg: string)
    requires Normal(dist) && |dist| >= 1 && ValidSegment(seg)
    ensures DistFeedPath(dist, "/" + seg) == dist + [seg]
    ensures Resolve(dist, "/" + seg) == [seg]
    ensures JoinPaths("public", "/" + seg) == "public/" + seg
  {
    SplitLeadingSlash(seg);
    assert Normal([seg]);
    DistFeedPathWalks(dist, "/" + seg);
    assert Walk(dist, ["", seg]) == Walk(dist, [seg]) by {
      assert ["", seg][1..] == [seg];
    }
    WalkPlain(dist, [seg]);
    assert Walk([], ["", seg]) == Walk([], [seg]) by {
      assert ["", seg][1..] == [seg];
    }
    WalkPlain([], [seg]);
    PublicLeadingSlash(seg);
  }

  lemma SplitLeadingSlash(seg: string)
    requires ValidSegment(seg)
    ensures Split("/" + seg, '/') == ["", seg]
  {
    SplitSingle(seg, '/');
    assert "/" + seg == "" + ['/'] + seg;
    SplitCons("", '/', seg);
  }

  lemma PublicLeadingSlash(seg: string)
    requires ValidSegment(seg)
    ensures JoinPaths("public", "/" + seg) == "public/" + seg
  {
    var text := "public" + "/" + ("/" + seg);
    assert Split(text, '/') == ["public", "", seg] by {
      assert text == "public" + ['/'] + ("/" + seg);
      SplitCons("public", '/', "/" + seg);
      SplitLeadingSlash(seg);
    }
    assert NormalizeRelative([], ["public", "", seg]) == ["public", seg] by {
      assert ["public", "", seg][1..] == ["", seg];
      assert ["", seg][1..] == [seg];
      assert RelativeStep([], "public") == ["public"];
      assert NormalizeRelative([], ["public", "", seg]) == NormalizeRelative(["public"], ["", seg]);
      assert NormalizeRelative(["public"], ["", seg]) == NormalizeRelative(["public"], [seg]);
      assert Normal([seg]);
      NormalizePlain(["public"], [seg]);
    }
    assert Join(["public", seg], '/') == "public/" + seg;
    assert text[0] == 'p';
    assert text[|text| - 1] == seg[|seg| - 1] && seg[|seg| - 1] in seg;
  }

  /** The two writes of one feed type: into `dist`, then into `public`. */
  function TypeWrites(dist: Path, publicFolder: Path, names: FeedNames, texts: FeedTexts, feedType: string): seq<FeedWrite> {
    var name, data := NameOf(names, feedType), TextOf(texts, feedType);
    [FeedWrite(DistFeedPath(dist, name), data), FeedWrite(Resolve(publicFolder, name), data)]
  }

  /** The writes of the given feed types, in order. */
  function AllWrites(dist: Path, publicFolder: Path, names: FeedNames, texts: FeedTexts, types: seq<string>): (r: seq<FeedWrite>)
    ensures |r| == 2 * |types|
    decreases |types|
  {
    if |types| == 0 then []
    else AllWrites(dist, publicFolder, names, texts, types[..|types| - 1]) + TypeWrites(dist, publicFolder, names, texts, types[|types| - 1])
  }

  /** Feed type `k` is written to `dist` at position `2k` and to `public` right after it. */
  lemma {:induction false} AllWritesAt(dist: Path, publicFolder: Path, names: FeedNames, texts: FeedTexts, types: seq<string>, k: nat)
    requires k < |types|
    ensures var w := AllWrites(dist, publicFolder, names, texts, types);
      && w[2 * k] == FeedWrite(DistFeedPath(dist, NameOf(names, types[k])), TextOf(texts, types[k]))
      && w[2 * k + 1] == FeedWrite(Resolve(publicFolder, NameOf(names, types[k])), TextOf(texts, types[k]))
    decreases |types|
  {
    var n := |types|;
    var prefix := AllWrites(dist, publicFolder, names, texts, types[..n - 1]);
    var last := TypeWrites(dist, publicFolder, names, texts, types[n - 1]);
    assert AllWrites(dist, publicFolder, names, texts, types) == prefix + last;
    if k < n - 1 {
      AllWritesAt(dist, publicFolder, names, texts, types[..n - 1], k);
      assert types[..n - 1][k] == types[k];
      assert (prefix + last)[2 * k] == prefix[2 * k] && (prefix + last)[2 * k + 1] == prefix[2 * k + 1];
    } else {
      assert (prefix + last)[2 * k] == last[0] && (prefix + last)[2 * k + 1] == last[1];
    }
  }

  /**
   * `writeFeed`: for rss, atom and json in turn, writes the feed to `dist`
   * and to `public`, then updates `.gitignore` when it can be read (`None`
   * when it cannot: the error is swallowed and nothing is created).
   */
  method WriteFeed(userRoot: Path, names: FeedNames, texts: FeedTexts, gitignore: Option<string>)
    returns (writes: seq<FeedWrite>, gitignoreAfter: Option<string>)
    ensures writes == AllWrites(Resolve(userRoot, "./dist"), Resolve(userRoot, "public"), names, texts, FeedTypes)
    ensures gitignoreAfter == (if gitignore.Some? then Some(AppendAll(gitignore.value, IgnorePaths(names))) else None)
  {
    var dist := Resolve(userRoot, "./dist");
    var publicFolder := Resolve(userRoot, "public");
    var types := FeedTypes;
    var paths := IgnorePaths(names);
    writes := [];
    gitignoreAfter := gitignore;
    for k := 0 to 3
      invariant writes == AllWrites(dist, publicFolder, names, texts, types[..k])
      invariant gitignoreAfter == (if gitignore.Some? then Some(AppendAll(gitignore.value, paths[..k])) else None)
    {
      var feedType := types[k];
      var name := NameOf(names, feedType);
      var data := TextOf(texts, feedType);
      WritesStep(dist, publicFolder, names, texts, types, k);
      writes := writes + [FeedWrite(DistFeedPath(dist, name), data), FeedWrite(Resolve(publicFolder, name), data)];
      if gitignoreAfter.Some? {
        GitignoreStep(gitignore.value, names, k);
        gitignoreAfter := Some(AppendIgnore(gitignoreAfter.value, IgnorePath(name)));
      }
    }
    assert types[..3] == types;
    assert paths[..3] == paths;
  }

  lemma WritesStep(dist: Path, publicFolder: Path, names: FeedNames, texts: FeedTexts, types: seq<string>, k: nat)
    requires k < |types|
    ensures AllWrites(dist, publicFolder, names, texts, types[..k + 1])
      == AllWrites(dist, publicFolder, names, texts, types[..k]) + TypeWrites(dist, publicFolder, names, texts, types[k])
  {
    assert types[..k + 1][..k] == types[..k];
  }

  lemma GitignoreStep(gitignore: string, names: FeedNames, k: nat)
    requires k < |FeedTypes|
    ensures AppendAll(gitignore, IgnorePaths(names)[..k + 1])
      == AppendIgnore(AppendAll(gitignore, IgnorePaths(names)[..k]), IgnorePath(NameOf(names, FeedTypes[k])))
  {
    var paths := IgnorePaths(names);
    AppendAllSnoc(gitignore, paths[..k], paths[k]);
    assert paths[..k + 1] == paths[..k] + [paths[k]];
  }

  lemma {:induction false} AppendAllSnoc(gitignore: string, paths: seq<string>, p: string)
    ensures AppendAll(gitignore, paths + [p]) == AppendIgnore(AppendAll(gitignore, paths), p)
    decreases |paths|
  {
    if |paths| > 0 {
      assert (paths + [p])[1..] == paths[1..] + [p];
      AppendAllSnoc(AppendIgnore(gitignore, paths[0]), paths[1..], p);
    } else {
      assert paths + [p] == [p];
    }
  }
}
