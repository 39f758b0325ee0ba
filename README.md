# Valaxy: llms.txt, RSS preparation, options and the copy-Markdown composable

Valaxy is a static blog framework. This project models the deterministic
layer between its file I/O and its writes.

- **Post visibility and URLs** (`node/modules/utils.ts`, module `SiteUtils`):
  - which posts are public;
  - how a post file becomes a site URL;
  - how the site URL loses its trailing slash.
- **The llms.txt build** (`node/modules/llms/utils.ts`, module `Llms`):
  - the two generators, which push lines into an array and join them with `"\n"`;
  - the projection of a post to an `LlmsPost`;
  - the newest-first sort;
  - the files the build writes, including the raw Markdown mirrors.
- **The development server plugin** (`node/plugins/llms.ts`, module `LlmsDev`):
  - the request router;
  - the raw Markdown lookup and its containment check;
  - `sendText`, which updates a response object;
  - the middleware as a whole.
- **RSS preparation** (`node/modules/rss/utils.ts`, module `Rss`):
  - the site URL guard, feed file names, licence version and `DOMAIN`;
  - the post filter that also collects drafts;
  - the projection of a post to a feed item;
  - the sort by `published`;
  - the `.gitignore` update `writeFeed` makes for each feed type.
- **Option resolution** (`node/options.ts`, module `Options`):
  - `isPath`;
  - `getThemeRoot`;
  - the sorted page list.
- **The client composable `useCopyMarkdown`**
  (`client/composables/features/copy-markdown.ts`, module `CopyMarkdown`):
  - `mdUrl`;
  - the `copied`, `loading` and `available` refs, as a class whose methods
    are the events that change them.

Shared modules:

- `Text`: the JavaScript string operations used, namely `startsWith`,
  `endsWith`, `includes`, a first-occurrence `replace`, `trim`, join and split
  of lines, and UTF-8 byte length.
- `Seqs`: `Array.prototype.filter` as an order-keeping subsequence.
- `Sorting`: the stable sort the runtime guarantees, as an insertion sort on
  values, plus an in-place array version proved equal to it.
- `Frontmatter`: parsed frontmatter as a map of JavaScript-like values with
  JavaScript truthiness.
- `Paths`: resolved POSIX paths as lists of segments, with `path.resolve`,
  `join`, `dirname`, `basename` and `relative`.

Foreign pieces are parameters of the model:

- i18n lookup;
- Markdown rendering;
- date parsing;
- git creation and update times;
- `resolveImportPath`;
- the post files on disk.

Each source file is cited by its path below `packages/valaxy/` or the
repository root.

## Model

| member | source | states |
|---|---|---|
| Text.Slashify | packages/valaxy/node/modules/utils.ts:59 | every backslash becomes "/" and every other character is kept, at the same length |
| Text.IndexOf | packages/valaxy/node/modules/rss/utils.ts:166 | the result is the first position where the pattern occurs, or -1 when it occurs nowhere |
| Text.TrimIsCore | packages/valaxy/node/modules/llms/utils.ts:192 | `trim()` removes only whitespace, from the two ends, and what remains neither starts nor ends with whitespace |
| Text.TrimIdempotent | packages/valaxy/node/modules/llms/utils.ts:192 | trimming a trimmed string changes nothing |
| Text.SplitJoin | packages/valaxy/node/modules/llms/utils.ts:152 | lines without a newline, joined with "\n", split back into the same lines |
| Text.JoinStartsWithBlankLine | packages/valaxy/node/modules/llms/utils.ts:125-126 | a heading pushed before an empty line makes the text start with the heading and two newlines |
| Text.JoinEndsWithSep | packages/valaxy/node/modules/llms/utils.ts:150-152 | a final empty line makes the joined text end with "\n" |
| Text.Utf8LengthBounds | packages/valaxy/node/plugins/llms.ts:174 | the UTF-8 byte length lies between the character count and four times it, and equals the count exactly for ASCII text |
| Seqs.Filter | packages/valaxy/node/modules/utils.ts:44 | the filter keeps an order-preserving subsequence, holding exactly the elements that pass the test |
| Seqs.DisjointFiltersFit | packages/valaxy/node/modules/rss/utils.ts:131-146 | two filters that never keep the same element together keep no more elements than the input has |
| Sorting.SortPermutes | packages/valaxy/node/modules/llms/utils.ts:65 | sorting is a permutation |
| Sorting.SortSorts | packages/valaxy/node/modules/llms/utils.ts:65 | the result is sorted for any total preorder |
| Sorting.SortStable | packages/valaxy/node/options.ts:91-92 | elements that tie keep their input order, the stability the runtime's sort guarantees |
| Sorting.SortCanonical | packages/valaxy/node/options.ts:87-92 | for an antisymmetric order, inputs with the same elements sort to the same list |
| Sorting.SortInPlace | packages/valaxy/node/modules/llms/utils.ts:65 | the in-place array sort leaves the array equal to the stable sort of its old contents |
| Paths.Dirname | packages/valaxy/node/options.ts:74 | the parent plus the last segment is the path again |
| Paths.ResolveNormal | packages/valaxy/node/plugins/llms.ts:139 | whatever is resolved against a resolved path is itself resolved |
| Paths.ResolvePlain | packages/valaxy/node/modules/llms/utils.ts:99 | resolving a plain relative path appends its segments |
| Paths.ResolveAbsolute | packages/valaxy/node/options.ts:74 | an absolute path text resolves from the root, whatever the base |
| Paths.RelativeFromAncestor | packages/valaxy/node/modules/utils.ts:58 | seen from a directory that contains it, a path is its remaining segments |
| Paths.ContainmentCheck | packages/valaxy/node/plugins/llms.ts:141 | the text test `p.startsWith(dir + "/")` holds exactly when `p` lies strictly below the non-root directory `dir` |
| SiteUtils.FilterPublicPosts | packages/valaxy/node/modules/utils.ts:43-45 | an order-preserving subsequence that keeps a post exactly when `password`, `draft` and `hide` are all falsy |
| SiteUtils.FilterExample | test/llms.test.ts:299-311 | of the test's five posts only the public one survives, and `hide: 'index'` counts as hidden |
| SiteUtils.FilePathToUrlPath | packages/valaxy/node/modules/utils.ts:57-65 | the URL path has no backslash and is either "" or starts with "/" |
| SiteUtils.UrlPathOfRelative | packages/valaxy/node/modules/utils.ts:59-64 | the same two facts, for the text relative to `pages` |
| SiteUtils.NotIndexSuffix | packages/valaxy/node/modules/utils.ts:61 | a path whose last segment is not `index.md` never passes the `/index.md` test |
| SiteUtils.UrlPathOfPlainFile | packages/valaxy/node/modules/utils.ts:59-64 | a relative `rel.md` that is not an index file becomes "/" + rel, with only the final ".md" removed |
| SiteUtils.UrlPathOfPost | packages/valaxy/node/modules/utils.ts:57-64 | `<root>/pages/<rel>.md` becomes "/" + rel, with only the final ".md" removed |
| SiteUtils.UrlPathOfIndexFile | packages/valaxy/node/modules/utils.ts:59-62 | `<dirs>/index.md` becomes "/" + dirs, and `index.md` directly in `pages` becomes "" |
| SiteUtils.UrlPathOfIndexText | packages/valaxy/node/modules/utils.ts:61-62 | a relative text ending in "/index.md" maps to its directory |
| SiteUtils.UrlPathOfRootIndex | packages/valaxy/node/modules/utils.ts:59-62 | `pages/index.md` maps to "" |
| SiteUtils.UrlPathOfIndexPost | packages/valaxy/node/modules/utils.ts:57-62 | `<root>/pages/<dirs>/index.md` maps to the directory path |
| SiteUtils.UrlPathExamplePost | test/llms.test.ts:264-267 | `<root>/pages/posts/hello.md` maps to `/posts/hello`, for any project root (the test's is `/project`) |
| SiteUtils.UrlPathExampleIndex | test/llms.test.ts:269-272 | `<root>/pages/posts/foo/index.md` maps to `/posts/foo`, for any project root |
| SiteUtils.UrlPathExampleNestedIndex | test/llms.test.ts:274-277 | `<root>/pages/posts/2024/01/index.md` maps to `/posts/2024/01`, for any project root |
| SiteUtils.UrlPathExampleNestedPost | test/llms.test.ts:279-282 | `<root>/pages/posts/nested/deep.md` maps to `/posts/nested/deep`, for any project root |
| SiteUtils.RemoveTrailingSlash | packages/valaxy/node/modules/utils.ts:70-72 | "/" stays "/"; otherwise exactly one trailing "/" is removed, and text without one is unchanged |
| SiteUtils.GetSiteUrl | packages/valaxy/node/modules/utils.ts:77-82 | "" exactly for an empty or "/" url; a url without a trailing "/" is kept as it is; otherwise exactly its one trailing "/" is removed |
| Llms.ToLlmsPost | packages/valaxy/node/modules/llms/utils.ts:56-62 | the title is the resolved frontmatter title when non-empty and otherwise the basename without ".md" (so never empty for a named file); the description is the resolved frontmatter description; a truthy date gives its timestamp and a falsy one 0; the URL path is `filePathToUrlPath` of the file, "" or starting with "/"; the content is kept |
| Llms.NewerFirstIsTotalPreorder | packages/valaxy/node/modules/llms/utils.ts:65 | the newest-first comparator is a total preorder |
| Llms.PushPreamble | packages/valaxy/node/modules/llms/utils.ts:124-138 | the pushes produce the H1, the empty line and the blockquote |
| Llms.GenerateLlmsTxt | packages/valaxy/node/modules/llms/utils.ts:113-153 | the loop's text is the llms.txt line list joined with "\n" |
| Llms.GenerateLlmsFullTxt | packages/valaxy/node/modules/llms/utils.ts:158-197 | the loop's text is the llms-full.txt line list joined with "\n" |
| Llms.PushPostBlock | packages/valaxy/node/modules/llms/utils.ts:185-194 | one loop iteration appends the post's block: `## <title>`, an empty line, the description and an empty line when there is one, the trimmed body, an empty line |
| Llms.BlockquoteShape | packages/valaxy/node/modules/llms/utils.ts:128-138 | a blockquote appears exactly when description or prompt is set; the bare ">" appears exactly when both are; it ends with one empty line |
| Llms.LlmsTxtFrame | packages/valaxy/node/modules/llms/utils.ts:122-152 | llms.txt starts with `# <title>` and an empty line, and ends with "\n" |
| Llms.LlmsFullTxtFrame | packages/valaxy/node/modules/llms/utils.ts:166-196 | llms-full.txt starts with `# <title>` and ends with "\n" |
| Llms.LlmsTxtLayout | packages/valaxy/node/modules/llms/utils.ts:122-152 | the lines read back are the preamble, `## Posts`, an empty line, the post lines (one link line per post, in input order), and a final empty line |
| Llms.PostLineShape | packages/valaxy/node/modules/llms/utils.ts:143-148 | a post line is `- [title](url)`; the url ends in ".md" and starts with the site URL when set; `: description` ends the line exactly when there is a description |
| Llms.PostBlockHeadings | packages/valaxy/node/modules/llms/utils.ts:185-194 | the only heading of a post's block is `## <title>` |
| Llms.PostBlocksHeadings | packages/valaxy/node/modules/llms/utils.ts:184-194 | the headings of the inlined posts are their titles, in input order |
| Llms.PreambleHasNoHeading | packages/valaxy/node/modules/llms/utils.ts:168-182 | the preamble holds no `## ` heading |
| Llms.LlmsFullTxtHasNoPostList | packages/valaxy/node/modules/llms/utils.ts:158-197 | llms-full.txt has no `## Posts` line |
| Llms.SiteTitle | packages/valaxy/node/modules/llms/utils.ts:70 | the resolved site title when it is non-empty, and "Valaxy Blog" otherwise, so never empty |
| Llms.LlmsPostsOrder | packages/valaxy/node/modules/llms/utils.ts:52-65 | the posts are newest first, a permutation of the projected public posts, and posts of the same date keep their input order |
| Llms.LlmsPostsArePublic | packages/valaxy/node/modules/llms/utils.ts:52-62 | every post is the projection of some public raw post |
| Llms.Build | packages/valaxy/node/modules/llms/utils.ts:35-107 | the writes are `dist/llms.txt` with the llms.txt text, then `dist/llms-full.txt` only when `fullText` is set, then one mirror per post, in the sorted order, only when `files` is set |
| Llms.WriteOutputs | packages/valaxy/node/modules/llms/utils.ts:73-104 | the same writes, from the generated texts and the sorted posts |
| Llms.OutputPaths | packages/valaxy/node/modules/llms/utils.ts:67-92 | `path.resolve` of `dist`, `llms.txt` and `llms-full.txt` appends that one segment, so the paths the writes use are the resolved ones |
| Llms.SortPosts | packages/valaxy/node/modules/llms/utils.ts:65 | the in-place sort gives the newest-first stable order |
| Llms.MirrorWrites | packages/valaxy/node/modules/llms/utils.ts:97-102 | one write per post, in order, of its content, at `dist/<urlPath>.md` |
| Llms.MirrorOfPost | packages/valaxy/node/modules/llms/utils.ts:99 | the mirror of `pages/<rel>.md` is `dist/<rel>.md` |
| Llms.MirrorOfIndexPost | packages/valaxy/node/modules/llms/utils.ts:99 | the mirror of `pages/<dirs>/index.md` is `dist/<dirs>.md`, never an `index.md` |
| LlmsDev.CreateLlmsPlugin | packages/valaxy/node/plugins/llms.ts:20-31 | there is no plugin exactly when `enable` is off; the plugin applies to `serve` |
| LlmsDev.Routing | packages/valaxy/node/plugins/llms.ts:35-58 | `/llms.txt` is always answered; `/llms-full.txt` exactly when `fullText` is set; raw Markdown is looked up exactly for URLs that start with `/posts/` and end with `.md`, when `files` is set |
| LlmsDev.PagesDirOf | packages/valaxy/node/plugins/llms.ts:137 | the pages directory is the user root plus `pages` |
| LlmsDev.ResolveRawMd | packages/valaxy/node/plugins/llms.ts:136-167 | the step-by-step lookup returns the corrected raw Markdown result |
| LlmsDev.RawMdContained | packages/valaxy/node/plugins/llms.ts:136-167 | any content returned is that of a public file strictly inside `pages` |
| LlmsDev.IndexCandidateOf | packages/valaxy/node/plugins/llms.ts:147-148 | the index candidate of `<dir>/<name>` is the directory walked into the name without ".md", then `index.md` |
| LlmsDev.OrdinaryIndexInside | packages/valaxy/node/plugins/llms.ts:147-148 | when the stem is an ordinary segment, the index candidate of a path inside `pages` is inside too |
| LlmsDev.RawMdAgreesOnOrdinaryUrls | packages/valaxy/node/plugins/llms.ts:141-157 | for ordinary stems the corrected lookup and the lookup as written agree |
| LlmsDev.IndexCandidateEscapes | packages/valaxy/node/plugins/llms.ts:139-148 | `/posts/../...md` passes the containment check, yet its index candidate is `<root>/index.md`, outside `pages` |
| LlmsDev.RawMdAsWrittenLeaks | packages/valaxy/node/plugins/llms.ts:136-167 | with only `<root>/index.md` on disk, the lookup as written returns its content, while the corrected lookup returns nothing |
| LlmsDev.HeadAgreesWithGet | packages/valaxy/node/plugins/llms.ts:172-183 | HEAD and GET get the same status 200, type and length; HEAD has an empty body; the length counts UTF-8 bytes, which equals the character count exactly for ASCII |
| LlmsDev.SendText | packages/valaxy/node/plugins/llms.ts:172-183 | the response carries the reply: both headers added, status 200, ended with the body or, for HEAD, with none |
| LlmsDev.CollectPosts | packages/valaxy/node/plugins/llms.ts:113-128 | the posts are the public ones, projected and sorted newest first |
| LlmsDev.BuildLlmsTxt | packages/valaxy/node/plugins/llms.ts:71-88 | the dev llms.txt is the generator applied to the collected posts |
| LlmsDev.BuildLlmsFullTxt | packages/valaxy/node/plugins/llms.ts:93-108 | the dev llms-full.txt is the generator applied to the collected posts |
| LlmsDev.Middleware | packages/valaxy/node/plugins/llms.ts:33-63 | `next()` is called exactly when the URL is not served, and then the response is untouched; otherwise the response carries the served text |
| LlmsDev.ServedContent | packages/valaxy/node/plugins/llms.ts:35-58 | anything served is llms.txt, llms-full.txt with `fullText` set, or the content of a public file inside `pages` |
| LlmsDev.PrivateNeverServed | packages/valaxy/node/plugins/llms.ts:160-164 | the distinct content of a draft, hidden or encrypted file is never served |
| Rss.FeedNamesShape | packages/valaxy/node/modules/rss/utils.ts:57-61 | atom is `<name>.atom` or `atom.xml`; json is `<name or feed>.json`; rss is `<name or feed>.xml`; the three always differ |
| Rss.CcVersion | packages/valaxy/node/modules/rss/utils.ts:56 | "1.0" exactly for the `zero` licence, "4.0" otherwise |
| Rss.Domain | packages/valaxy/node/modules/rss/utils.ts:78 | `DOMAIN` is the url without its last character |
| Rss.Setup | packages/valaxy/node/modules/rss/utils.ts:42-78 | nothing is built exactly when the url is empty or "/"; otherwise `DOMAIN` plus the last character is the url |
| Rss.FilterPosts | packages/valaxy/node/modules/rss/utils.ts:123-146 | the loop keeps the public posts and records as drafts exactly the unencrypted drafts, each in input order |
| Rss.FilterSeparates | packages/valaxy/node/modules/rss/utils.ts:131-146 | no post is both kept and recorded; encrypted posts are in neither list; every unencrypted draft is recorded |
| Rss.RssContent | packages/valaxy/node/modules/rss/utils.ts:163-164 | the full text with `fullText`; else the excerpt when there is one; else the first 100 characters of the content |
| Rss.LinkOfPost | packages/valaxy/node/modules/rss/utils.ts:171 | the link of `<root>/pages<rest>.md` is `DOMAIN` + rest |
| Rss.ToItem | packages/valaxy/node/modules/rss/utils.ts:150-188 | the item's link is derived from the path; its content is the rendered text, with the first `src="/` given the domain, then the tip; a string image starting with "/" gets `DOMAIN` in front, and any other image is kept |
| Rss.ItemDates | packages/valaxy/node/modules/rss/utils.ts:152-183 | date is the frontmatter date or else the creation time; published is `updated`, else the update time when `lastUpdated` is set and that time is known, else the date |
| Rss.TipLinks | packages/valaxy/node/modules/rss/utils.ts:172-176 | the content ends with the tip and contains the link |
| Rss.ItemIdAndTip | packages/valaxy/node/modules/rss/utils.ts:171-186 | the id is the frontmatter `id` when truthy and the link otherwise, so always truthy; the content ends with the tip and contains the link |
| Rss.PublishedFirstIsTotalPreorder | packages/valaxy/node/modules/rss/utils.ts:192 | the newest-published-first comparator is a total preorder |
| Rss.GetPosts | packages/valaxy/node/modules/rss/utils.ts:106-194 | `getPosts` returns the feed items: the kept posts projected, then sorted |
| Rss.ProjectItems | packages/valaxy/node/modules/rss/utils.ts:149-189 | the loop pushes one item per kept post, in order |
| Rss.SortItems | packages/valaxy/node/modules/rss/utils.ts:191-192 | the in-place sort gives the stable newest-published-first order |
| Rss.FeedItemsOrder | packages/valaxy/node/modules/rss/utils.ts:131-193 | items are newest published first, a permutation of the projected kept posts, with ties in input order |
| Rss.FeedItemsArePublic | packages/valaxy/node/modules/rss/utils.ts:131-189 | every item is the projection of some public post |
| Rss.AppendIgnoreProperties | packages/valaxy/node/modules/rss/utils.ts:240-243 | afterwards the file contains the ignore path and starts with the old text; a second append changes nothing; the file is unchanged exactly when it already contained the path |
| Rss.AppendAllKeeps | packages/valaxy/node/modules/rss/utils.ts:216-247 | anything the `.gitignore` contained it still contains |
| Rss.AppendAllContains | packages/valaxy/node/modules/rss/utils.ts:216-247 | afterwards the `.gitignore` contains every feed's ignore path |
| Rss.AppendAllNoop | packages/valaxy/node/modules/rss/utils.ts:216-247 | a `.gitignore` that already lists every path is left as it is |
| Rss.AppendAllIdempotent | packages/valaxy/node/modules/rss/utils.ts:216-247 | running the update twice is running it once |
| Rss.AllWrites | packages/valaxy/node/modules/rss/utils.ts:216-235 | two writes per feed type |
| Rss.AllWritesAt | packages/valaxy/node/modules/rss/utils.ts:216-235 | for the k-th type, write 2k goes to the file named by the text `${dist}/${name}` and write 2k+1 to `resolve(public, name)`, both with that type's text |
| Rss.DistFeedPathWalks | packages/valaxy/node/modules/rss/utils.ts:219 | the concatenated `${dist}/${name}` walks the name's segments from `dist` (a leading "/" included), and is `resolve(dist, name)` for a name that does not start with "/" |
| Rss.LeadingSlashFeedName | packages/valaxy/node/modules/rss/utils.ts:219-232 | a feed name "/x" is written to `dist/x` but to `/x` at the root for `public`, and its `.gitignore` entry is `public/x` |
| Paths.JoinPathsPlain | packages/valaxy/node/modules/rss/utils.ts:232 | `join(dir, name)` of a plain directory and a plain relative name is the two with one "/" between |
| Rss.WriteFeed | packages/valaxy/node/modules/rss/utils.ts:199-247 | the loop over rss, atom and json makes exactly those writes and leaves the `.gitignore` with every ignore path appended once; a missing `.gitignore` stays missing |
| Options.IsPathPrefixes | packages/valaxy/node/options.ts:59-61 | a name is a path exactly when it starts with "/", "./", "../", ".\" or "..\" |
| Options.PackageNames | packages/valaxy/node/options.ts:59-61 | `yun`, `.x`, `...x` and "" are package names; the five path forms are paths |
| Options.GetThemeRoot | packages/valaxy/node/options.ts:69-77 | the root is "" exactly for no theme name; a path-like name is resolved against the directory of `entry` (so the root is absolute); any other name gives the directory of the resolved `valaxy-theme-<name>/package.json`, or "." when that cannot be found |
| Options.ThemeRootRelative | packages/valaxy/node/options.ts:73-74 | `./s1/…/sn` is found below the directory of the entry |
| Options.ThemeRootAbsolute | packages/valaxy/node/options.ts:73-74 | an absolute theme path names the same directory whatever the entry |
| Options.ThemeRootOfPackage | packages/valaxy/node/options.ts:75-76 | a package theme's root does not depend on the entry |
| Options.StrLeIsTotalOrder | packages/valaxy/node/options.ts:93-98 | the default string order is total, transitive and antisymmetric |
| Options.SortPages | packages/valaxy/node/options.ts:93-98 | the in-place sort of the globbed pages gives the sorted list |
| Options.PagesStable | packages/valaxy/node/options.ts:87-98 | the page list is sorted, holds exactly the globbed paths, and is the same whatever order the glob returned them in |
| Options.ResolveOptions | packages/valaxy/node/options.ts:80-113 | the user root is resolved against the working directory, the theme root is found from the user root, and the pages are sorted |
| CopyMarkdown.MdUrl | packages/valaxy/client/composables/features/copy-markdown.ts:33-38 | the URL is the route path plus ".md", after removing one trailing "/" from any route other than the root "/" |
| CopyMarkdown.MdUrlTrailingSlash | packages/valaxy/client/composables/features/copy-markdown.ts:33-38 | a page and the same page with a trailing "/" fetch the same file; the root fetches `/.md` |
| CopyMarkdown.MdUrlIsServed | packages/valaxy/client/composables/features/copy-markdown.ts:33-38 | a post page's Markdown URL is one the dev server looks up, except for the `/posts/` index |
| CopyMarkdown.MdUrlFindsMirror | packages/valaxy/client/composables/features/copy-markdown.ts:33-38 | a post's Markdown URL names the mirror the build writes for it |
| CopyMarkdown.StepFacts | packages/valaxy/client/composables/features/copy-markdown.ts:42-73 | a click during a copy changes nothing; a settled copy clears `loading`; only a successful copy turns `copied` on; only an ok probe turns `available` on; a new probe turns it off |
| CopyMarkdown.CopiedNeedsSuccess | packages/valaxy/client/composables/features/copy-markdown.ts:54-69 | over any run of events, `copied` is on only after a successful copy |
| CopyMarkdown.AvailableNeedsOkProbe | packages/valaxy/client/composables/features/copy-markdown.ts:42-46 | over any run, `available` is on only after an ok probe, and is off right after a probe starts |
| CopyMarkdown.CopyMarkdownState.constructor | packages/valaxy/client/composables/features/copy-markdown.ts:28-30 | the three refs start false |
| CopyMarkdown.CopyMarkdownState.StartProbe | packages/valaxy/client/composables/features/copy-markdown.ts:43-44 | `available` goes false and the HEAD request goes to `mdUrl` |
| CopyMarkdown.CopyMarkdownState.FinishProbe | packages/valaxy/client/composables/features/copy-markdown.ts:45-46 | `available` becomes `res.ok`, or false when the request failed |
| CopyMarkdown.CopyMarkdownState.BeginCopy | packages/valaxy/client/composables/features/copy-markdown.ts:50-56 | nothing happens while loading; otherwise `loading` goes on and `mdUrl` is fetched |
| CopyMarkdown.CopyMarkdownState.FinishCopy | packages/valaxy/client/composables/features/copy-markdown.ts:56-72 | `copied` goes on after a successful fetch and clipboard write; `loading` goes off in every case |
| CopyMarkdown.CopyMarkdownState.Navigate | packages/valaxy/client/composables/features/copy-markdown.ts:27-47 | a route change sets the route; a new probe (`available` off, HEAD to the new `mdUrl`) starts exactly when `mdUrl` changes, and otherwise nothing else changes |
| CopyMarkdown.CopyMarkdownState.ExpireCopied | packages/valaxy/client/composables/features/copy-markdown.ts:63-65 | the timer turns `copied` off |

## Left out

- **File-system I/O.** Globbing, reading, `ensureDir`, `pathExists`, `writeFile` and `appendFile` are left out.
  - The post files are a map from path to parsed file.
  - The writes are returned as a list.
  - The `.gitignore` is a string, or `None` when it cannot be read.
  - A directory that `fs.pathExists` would accept in place of a file is not modelled.
  - `scanPostFiles` and the files the dev server looks up are separate inputs. Their agreement is not modelled.
- **Errors from I/O.** A read error in the middleware (`next(err)`) and a failing write are not modelled, because they come from the file system.
- **Frontmatter parsing and Markdown rendering.** gray-matter parsing is left out: frontmatter is an already parsed map. markdown-it rendering is a function parameter.
- **Feed serialisation.** `feed.rss2()`, `atom1()` and `json1()` are foreign code, so the three feed texts are inputs. For the same reason, the model also leaves out these feed options:
  - `copyright`, which also reads the clock;
  - `feedLinks`;
  - `image`;
  - `favicon`.
- **i18n and theme lookup.** `tObject`, `nodeT`, `loadLocalesYml` and `resolveImportPath` are function parameters, because their code is not part of this model.
- **Dates.** A date is an integer timestamp produced by a parsing function.
  - `new Date(x)` giving NaN for an unparsable date is not modelled.
  - git creation and update times are function parameters.
- **Console output.** The spinners, the log output and the console table of `writeFeed` are left out.
- **Paths.** Paths are POSIX only.
  - `path.sep` is "/".
  - Windows drive letters and separators are not modelled, apart from the explicit backslash replacement.
- Rss.RssContent: It counts the first 100 characters in code points. `String.prototype.slice` counts UTF-16 units, which differ for characters outside the Basic Multilingual Plane.
- Options.StrLe: It compares code points. The default array sort compares UTF-16 units, which order characters outside the Basic Multilingual Plane differently.
- **resolveOptions.** `clientRoot`, `mode` and config loading (`resolveConfig`) are left out. The config's theme name and config file are inputs.
- Rss.ToItem: An `image` that is neither a string nor null or undefined (a number, boolean, date, array or object) makes `data.image?.startsWith('/')` throw a TypeError, which aborts `getPosts`. This error path is not modelled: such an image is kept unchanged and the item is still built.
- Rss.ToItem: It replaces only the first `src="/`, as `String.prototype.replace` with a string pattern does. Later images in the same post keep their site-relative URLs, as in the source.
- **Concurrency.** Fan-out with `Promise.all` is modelled as ordered lists.
- **CopyMarkdown.CopyMarkdownState.**
  - An out-of-order answer from an older probe is left out. The model has no request identity, so it applies probe results in the order they arrive, which is what the source does too.
  - Whether `fetch` fails, the response is not ok, or the clipboard write fails are all one `success` flag.
  - `isClient` is left out: off the client no probe runs.
  - Vue runs the `watchEffect` after its scheduler flush. `Navigate` starts the new probe at once.
- LlmsDev.Middleware: It requires `enable`, because without it there is no plugin to call (`createLlmsPlugin` returns `null`).
- **packages/valaxy/client/define/collection.ts.** It is an identity function over a type and has no behaviour to model.

## Findings

| source | as written | input that shows it | evidently intended | confidence | as-written member | corrected member |
|---|---|---|---|---|---|---|
| packages/valaxy/node/plugins/llms.ts:141-154 | only `safePath` is checked to lie strictly inside `pages`; the `index.md` candidate derived from it (`safePath` without its last three characters, joined with `index.md`) is read without a check | URL `/posts/../...md` resolves to `<root>/pages/...md`, which passes the check; its stem is `<root>/pages/..`, so when `pages/...md` does not exist the server reads and serves `<root>/index.md`, outside `pages` | every file read lies strictly inside `pages`, for the index candidate as for the direct path | not executed; follows from the code, and needs a client that sends the URL without normalising it | LlmsDev.RawMdAsWritten, LlmsDev.IndexCandidateEscapes, LlmsDev.RawMdAsWrittenLeaks | LlmsDev.RawMd, LlmsDev.ResolveRawMd, LlmsDev.RawMdContained |

Where the stem is an ordinary segment, the two lookups agree
(`LlmsDev.RawMdAgreesOnOrdinaryUrls`). The rest of the model, including
`LlmsDev.Served` and `LlmsDev.Middleware`, uses the corrected lookup.

`filePathToUrlPath` of `pages/index.md` is "", which does not start with "/".
The code does this because "/index.md" ends with "/index.md". The model states
it as written (`SiteUtils.UrlPathOfRootIndex`). Posts only come from
`pages/posts`, so it does not affect any post.
