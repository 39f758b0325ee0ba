/**
 * The client composable `useCopyMarkdown`
 * (packages/valaxy/client/composables/features/copy-markdown.ts): the URL of
 * the current page's raw Markdown, and the `copied`, `loading` and
 * `available` flags that the availability probe and `copy()` update. The
 * network, the clipboard and the timer are events from outside; their
 * outcomes are the events' parameters.
 */
module CopyMarkdown {
  import opened Wrappers
  import opened Text
  import Paths
  import Llms
  import LlmsDev

  // ---------------------------------------------------------------------
  // mdUrl

  /** `mdUrl`: the route path without one trailing "/" (the root keeps its "/"), then ".md". */
  function MdUrl(routePath: string): (r: string)
    ensures EndsWith(r, ".md")
    ensures |r| == |routePath| + 3 || |r| == |routePath| + 2
    ensures routePath == "/" || !EndsWith(routePath, "/") ==> r == routePath + ".md"
    ensures routePath != "/" && EndsWith(routePath, "/") ==> r == routePath[..|routePath| - 1] + ".md"
  {
    var p := if routePath != "/" && EndsWith(routePath, "/") then routePath[..|routePath| - 1] else routePath;
    assert (p + ".md")[|p + ".md"| - 3..] == ".md";
    p + ".md"
  }

  /** A page and the same page with a trailing slash fetch the same Markdown; the root fetches "/.md". */
  lemma MdUrlTrailingSlash(path: string)
    requires path != ""
    ensures MdUrl(path + "/") == MdUrl(path) || EndsWith(path, "/")
    ensures MdUrl("/") == "/.md"
  {
    var q := path + "/";
    assert q != "/" by {
      assert |q| >= 2;
    }
    assert EndsWith(q, "/") by {
      assert q[|q| - 1..] == "/";
    }
    assert q[..|q| - 1] == path;
    assert !EndsWith("/", "/") || "/" == "/";
  }

  /**
   * The Markdown URL of a post page (a route below "/posts/") is one the
   * development server answers from the post files when `files` is set. The
   * posts index "/posts/" itself becomes "/posts.md", which it passes on.
   */
  lemma MdUrlIsServed(routePath: string, llms: Llms.LlmsConfig)
    requires StartsWith(routePath, "/posts/") && llms.files
    ensures LlmsDev.RouteOf(MdUrl(routePath), llms) == LlmsDev.ServeRawMd <==> routePath != "/posts/"
  {
    var r := MdUrl(routePath);
    var p := if routePath != "/" && EndsWith(routePath, "/") then routePath[..|routePath| - 1] else routePath;
    assert r == p + ".md";
    LlmsDev.Routing(r, llms);
    if routePath == "/posts/" {
      assert EndsWith(routePath, "/");
      assert p == "/posts";
      assert r[6] == '.';
    } else {
      assert |p| >= 7 && p[..7] == routePath[..7];
      assert r[..7] == p[..7];
    }
  }

  /**
   * After a build with `files`, a post's Markdown URL names its mirror: a
   * static server that maps `/x` to `dist/x` finds at `MdUrl(urlPath)` the
   * file the build wrote for that post.
   */
  lemma MdUrlFindsMirror(dist: Paths.Path, urlPath: string)
    requires |urlPath| >= 1 && urlPath[0] == '/' && !EndsWith(urlPath, "/")
    ensures var u := MdUrl(urlPath); Paths.Resolve(dist, u[1..]) == Llms.MirrorPath(dist, urlPath)
  {
    var u := MdUrl(urlPath);
    assert u == urlPath + ".md";
    assert u[1..] == urlPath[1..] + ".md";
  }

  // ---------------------------------------------------------------------
  // the flags

  /** The three refs the composable returns. */
  datatype Flags = Flags(copied: bool, loading: bool, available: bool)

  const Initial: Flags := Flags(false, false, false)

  /** What can happen to the composable. */
  datatype Event =
    | ProbeStarted                  // `watchEffect` runs: resets `available` and sends a HEAD request
    | ProbeDone(ok: Option<bool>)   // the HEAD request settled: `res.ok`, or `None` when it failed
    | CopyClicked                   // `copy()` is called
    | CopyDone(success: bool)       // the fetch and clipboard write of a started copy settled
    | CopiedExpired                 // the 2000 ms timer fired

  /** The effect of one event on the flags. */
  function Step(s: Flags, e: Event): Flags {
    match e
    case ProbeStarted => s.(available := false)
    case ProbeDone(ok) => s.(available := ok == Some(true))
    case CopyClicked => if s.loading then s else s.(loading := true)
    case CopyDone(success) => s.(loading := false, copied := s.copied || success)
    case CopiedExpired => s.(copied := false)
  }

  /**
   * A click while a copy is in flight changes nothing; every settled copy
   * clears `loading`, on success and on failure; `copied` only turns on
   * through a successful copy, and `available` only through a probe answered
   * with an ok response.
   */
  lemma StepFacts(s: Flags, e: Event)
    ensures s.loading && e == CopyClicked ==> Step(s, e) == s
    ensures !s.loading && e == CopyClicked ==> Step(s, e).loading
    ensures e.CopyDone? ==> !Step(s, e).loading
    ensures e.CopyDone? && !e.success ==> Step(s, e).copied == s.copied
    ensures Step(s, e).copied && !s.copied ==> e == CopyDone(true)
    ensures Step(s, e).available && !s.available ==> e == ProbeDone(Some(true))
    ensures e == ProbeStarted ==> !Step(s, e).available
  {
  }

  /** The flags after a sequence of events. */
  function Run(s: Flags, events: seq<Event>): Flags
    decreases |events|
  {
    if |events| == 0 then s else Run(Step(s, events[0]), events[1..])
  }

  /** From the initial flags, `copied` can only be on after some successful copy. */
  lemma {:induction false} CopiedNeedsSuccess(s: Flags, events: seq<Event>)
    requires !s.copied
    ensures Run(s, events).copied ==> CopyDone(true) in events
    decreases |events|
  {
    if |events| > 0 {
      var next := Step(s, events[0]);
      StepFacts(s, events[0]);
      if next.copied {
        assert events[0] == CopyDone(true);
      } else {
        CopiedNeedsSuccess(next, events[1..]);
        assert CopyDone(true) in events[1..] ==> CopyDone(true) in events;
      }
    }
  }

  /** The copy button only appears after some probe was answered ok, and only until the next probe starts. */
  lemma {:induction false} AvailableNeedsOkProbe(s: Flags, events: seq<Event>)
    requires !s.available
    ensures Run(s, events).available ==> ProbeDone(Some(true)) in events
    ensures |events| > 0 && events[|events| - 1] == ProbeStarted ==> !Run(s, events).available
    decreases |events|
  {
    if |events| > 0 {
      var next := Step(s, events[0]);
      StepFacts(s, events[0]);
      if next.available {
        assert events[0] == ProbeDone(Some(true));
        RunEndsWithProbeStarted(next, events[1..]);
      } else {
        AvailableNeedsOkProbe(next, events[1..]);
        assert ProbeDone(Some(true)) in events[1..] ==> ProbeDone(Some(true)) in events;
      }
    }
  }

  lemma {:induction false} RunEndsWithProbeStarted(s: Flags, events: seq<Event>)
    ensures |events| > 0 && events[|events| - 1] == ProbeStarted ==> !Run(s, events).available
    decreases |events|
  {
    if |events| > 1 {
      RunEndsWithProbeStarted(Step(s, events[0]), events[1..]);
    }
  }

  /** The composable's state: the route it belongs to and its three refs. */
  class CopyMarkdownState {
    var routePath: string
    var copied: bool
    var loading: bool
    var available: bool

    function Current(): Flags
      reads this
    {
      Flags(copied, loading, available)
    }

    /** `useCopyMarkdown()`: all three refs start false. */
    constructor (routePath: string)
      ensures this.routePath == routePath && Current() == Initial
    {
      this.routePath := routePath;
      copied, loading, available := false, false, false;
    }

    /** The probe's start: `available` goes false and the HEAD request goes to `mdUrl`. */
    method StartProbe() returns (url: string)
      modifies this
      ensures url == MdUrl(routePath) && routePath == old(routePath)
      ensures Current() == Step(old(Current()), ProbeStarted)
    {
      available := false;
      url := MdUrl(routePath);
    }

    /** The probe settled: `available` is `res.ok`, and false when the request failed. */
    method FinishProbe(ok: Option<bool>)
      modifies this
      ensures routePath == old(routePath)
      ensures Current() == Step(old(Current()), ProbeDone(ok))
    {
      match ok {
        case Some(b) => available := b;
        case None => available := false;
      }
    }

    /** `copy()` up to its fetch: nothing happens while a copy is loading; otherwise `loading` goes on and `mdUrl` is fetched. */
    method BeginCopy() returns (fetchUrl: Option<string>)
      modifies this
      ensures routePath == old(routePath)
      ensures Current() == Step(old(Current()), CopyClicked)
      ensures fetchUrl == if old(loading) then None else Some(MdUrl(routePath))
    {
      if loading {
        return None;
      }
      loading := true;
      fetchUrl := Some(MdUrl(routePath));
    }

    /** The rest of `copy()`: `copied` on after a successful fetch and clipboard write, and `loading` off in every case. */
    method FinishCopy(success: bool)
      modifies this
      ensures routePath == old(routePath)
      ensures Current() == Step(old(Current()), CopyDone(success))
    {
      if success {
        copied := true;
      }
      loading := false;
    }

    /**
     * A route change. `mdUrl` is computed from `route.path`, and the probe's
     * `watchEffect` reads `mdUrl`, so a new probe starts exactly when the
     * computed URL changes ("/a" and "/a/" share one URL and start none).
     */
    method Navigate(path: string) returns (probeUrl: Option<string>)
      modifies this
      ensures routePath == path
      ensures MdUrl(path) == MdUrl(old(routePath)) ==> probeUrl == None && Current() == old(Current())
      ensures MdUrl(path) != MdUrl(old(routePath)) ==>
        probeUrl == Some(MdUrl(path)) && Current() == Step(old(Current()), ProbeStarted)
    {
      var before := MdUrl(routePath);
      routePath := path;
      if MdUrl(path) == before {
        return None;
      }
      var url := StartProbe();
      probeUrl := Some(url);
    }

    /** The timer two seconds after a successful copy. */
    method ExpireCopied()
      modifies this
      ensures routePath == old(routePath)
      ensures Current() == Step(old(Current()), CopiedExpired)
    {
      copied := false;
    }
  }
}
