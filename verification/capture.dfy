/** `capture_url` as a trace: the browser calls it makes for one URL, in
    order, and the outcome it reports. The browser, the clock and the disk
    are outside the model; what they do on one capture is given as an
    `Attempt`. */
module Capture {
  import opened Slug

  /** `--scale`: argparse only admits `device` and `retina`. */
  datatype Scale = Device | Retina

  /** The capture options `run` passes on from the command line. */
  datatype Options = Options(outdir: string, prefix: string, wait: int, timeout: int, scale: Scale)

  /** Which browser call raises on this capture, if any, and with what text. */
  datatype Fault =
    | NoFault
    | ContextFails(err: string)
    | PageFails(err: string)
    | GotoFails(err: string)
    | WaitFails(err: string)
    | ShotFails(err: string)

  /** What the outside world does on one capture: the fault, and the UTC
      timestamp text `strftime("%Y%m%dT%H%M%SZ")` produces. */
  datatype Attempt = Attempt(fault: Fault, timestamp: string)

  /** The observable calls, in the order they are made. `Navigate`, `Pause`
      and `Shoot` are recorded whether or not the call raises; `Shoot` is the
      call to `page.screenshot`, which writes the file when it does not raise.
      `OpenContext` and `OpenPage` record only opens that succeed: a
      `new_context` or `new_page` that raises leaves no event. */
  datatype Event =
    | LaunchBrowser
    | OpenContext(scaleFactor: int)
    | OpenPage
    | SetTimeout(ms: int)
    | Navigate(url: string)
    | Pause(ms: int)
    | Shoot(path: string)
    | CloseContext
    | CloseBrowser

  /** What the console reports for a capture: `Saved: path` or
      `Failed: url -> error`. */
  datatype Outcome = Saved(path: string) | Failed(url: string, reason: string)

  /** A capture either ends normally, whatever the page did, or lets an
      exception out of `capture_url`. */
  datatype Visit =
    | Absorbed(outcome: Outcome, events: seq<Event>)
    | Escaped(error: string, events: seq<Event>)

  /** `device_scale_factor=1 if scale=="device" else 2`. */
  function ScaleFactor(s: Scale): int {
    match s
    case Device => 1
    case Retina => 2
  }

  /** The f-string `{prefix}{slug}_{ts}.png`. */
  function FileName(prefix: string, slug: string, ts: string): (name: string)
    ensures |name| == |prefix| + |slug| + |ts| + 5
    ensures name[..|prefix|] == prefix
    ensures name[|name| - 4..] == ".png"
  {
    prefix + slug + "_" + ts + ".png"
  }

  /** With the prefix and the timestamp length known, the file name gives back
      its slug and timestamp: distinct slugs, or distinct timestamps of one
      length, never share a name. Distinct URLs can still share a slug
      (`Slug.QueryPathCollision`), and then a name. */
  lemma FileNameInjective(prefix: string, s1: string, t1: string, s2: string, t2: string)
    requires |t1| == |t2|
    requires FileName(prefix, s1, t1) == FileName(prefix, s2, t2)
    ensures s1 == s2 && t1 == t2
  {
    var n := FileName(prefix, s1, t1);
    assert |s1| == |s2|;
    assert s1 == n[|prefix|..|prefix| + |s1|];
    assert s2 == n[|prefix|..|prefix| + |s2|];
    assert t1 == n[|prefix| + |s1| + 1..|prefix| + |s1| + 1 + |t1|];
    assert t2 == n[|prefix| + |s2| + 1..|prefix| + |s2| + 1 + |t2|];
  }

  /** `os.path.join(dir, name)` on a POSIX system: an absolute `name`
      replaces `dir`; otherwise one `'/'` separates them unless `dir` is
      empty or already ends with one. */
  function PosixJoin(dir: string, name: string): string {
    if |name| > 0 && name[0] == '/' then name
    else if |dir| == 0 || dir[|dir| - 1] == '/' then dir + name
    else dir + "/" + name
  }

  /** The joined path always ends with the name; a relative name keeps the
      directory in front of it, with exactly one `'/'` added when the
      directory does not already end with one. */
  lemma PosixJoinShape(dir: string, name: string)
    ensures var path := PosixJoin(dir, name);
      && |name| <= |path| && path[|path| - |name|..] == name
      && (|name| > 0 && name[0] == '/' ==> path == name)
      && (!(|name| > 0 && name[0] == '/') ==> |dir| <= |path| && path[..|dir|] == dir)
      && (!(|name| > 0 && name[0] == '/') && |dir| > 0 && dir[|dir| - 1] != '/' ==>
            path == dir + "/" + name)
      && (!(|name| > 0 && name[0] == '/') && (|dir| == 0 || dir[|dir| - 1] == '/') ==>
            path == dir + name)
  {
  }

  /** The path the screenshot of `url` is written to. */
  function ShotPath(url: string, opts: Options, urlparse: string -> UrlParts, ts: string): string {
    PosixJoin(opts.outdir, FileName(opts.prefix, Slugify(urlparse(url)), ts))
  }

  /** The fault escapes `capture_url`: `new_context` and `new_page` are
      called before the `try`. */
  predicate Escapes(f: Fault) {
    f.ContextFails? || f.PageFails?
  }

  /** The fault is raised inside the `try` and turned into a failure; a
      fault in `wait_for_timeout` only counts when there is a wait. */
  predicate FailsCapture(f: Fault, wait: int) {
    f.GotoFails? || f.ShotFails? || (f.WaitFails? && wait > 0)
  }

  /** The `Navigate` calls of a trace, in order. */
  function Navigations(events: seq<Event>): seq<string> {
    if |events| == 0 then []
    else (if events[0].Navigate? then [events[0].url] else []) + Navigations(events[1..])
  }

  lemma {:induction false} NavigationsConcat(a: seq<Event>, b: seq<Event>)
    ensures Navigations(a + b) == Navigations(a) + Navigations(b)
  {
    if |a| > 0 {
      assert (a + b)[1..] == a[1..] + b;
      NavigationsConcat(a[1..], b);
    } else {
      assert a + b == b;
    }
  }

  /** Number of `e` events in a trace. */
  function Count(events: seq<Event>, e: Event): nat {
    if |events| == 0 then 0 else (if events[0] == e then 1 else 0) + Count(events[1..], e)
  }

  lemma {:induction false} CountConcat(a: seq<Event>, b: seq<Event>, e: Event)
    ensures Count(a + b, e) == Count(a, e) + Count(b, e)
  {
    if |a| > 0 {
      assert (a + b)[1..] == a[1..] + b;
      CountConcat(a[1..], b, e);
    } else {
      assert a + b == b;
    }
  }

  /** Opened contexts minus closed ones. */
  function OpenContexts(events: seq<Event>): int {
    if |events| == 0 then 0
    else (if events[0].OpenContext? then 1 else if events[0] == CloseContext then -1 else 0)
         + OpenContexts(events[1..])
  }

  lemma {:induction false} OpenContextsConcat(a: seq<Event>, b: seq<Event>)
    ensures OpenContexts(a + b) == OpenContexts(a) + OpenContexts(b)
  {
    if |a| > 0 {
      assert (a + b)[1..] == a[1..] + b;
      OpenContextsConcat(a[1..], b);
    } else {
      assert a + b == b;
    }
  }

  /** The calls up to and including navigation. */
  function Loaded(url: string, opts: Options): seq<Event> {
    [OpenContext(ScaleFactor(opts.scale)), OpenPage, SetTimeout(opts.timeout), Navigate(url)]
  }

  /** The calls up to and including the optional `wait_for_timeout(wait*1000)`. */
  function Waited(url: string, opts: Options): seq<Event> {
    Loaded(url, opts) + (if opts.wait > 0 then [Pause(1000 * opts.wait)] else [])
  }

  /** `capture_url(browser, url, ...)`, the screenshot going to `path`. */
  function CaptureTo(url: string, opts: Options, path: string, a: Attempt): (c: Visit)
    ensures c.Escaped? <==> Escapes(a.fault)
    ensures c.Escaped? ==> c.error == a.fault.err && |c.events| <= 1
    ensures c.Absorbed? ==> (c.outcome.Saved? <==> !FailsCapture(a.fault, opts.wait))
    ensures c.Absorbed? && c.outcome.Failed? ==> c.outcome == Failed(url, a.fault.err)
    ensures c.Absorbed? && c.outcome.Saved? ==> c.outcome.path == path && Shoot(path) in c.events
  {
    var shot := Waited(url, opts) + [Shoot(path)];
    match a.fault
    case ContextFails(e) => Escaped(e, [])
    case PageFails(e) => Escaped(e, [OpenContext(ScaleFactor(opts.scale))])
    case GotoFails(e) => Absorbed(Failed(url, e), Loaded(url, opts) + [CloseContext])
    case WaitFails(e) =>
      if opts.wait > 0 then Absorbed(Failed(url, e), Waited(url, opts) + [CloseContext])
      else Absorbed(Saved(path), shot + [CloseContext])
    case ShotFails(e) => Absorbed(Failed(url, e), shot + [CloseContext])
    case NoFault => Absorbed(Saved(path), shot + [CloseContext])
  }

  /** `capture_url(browser, url, ...)`: the file name is built from the
      prefix, the URL's slug and the attempt's timestamp. */
  function CaptureUrl(url: string, opts: Options, urlparse: string -> UrlParts, a: Attempt): Visit {
    CaptureTo(url, opts, ShotPath(url, opts, urlparse, a.timestamp), a)
  }

  /** Calls after navigation: only a pause and the screenshot. */
  predicate AfterNavigation(e: Event) {
    e.Pause? || e.Shoot?
  }

  /** A trace after navigation that ends by closing the context closes it
      once, opens nothing and navigates nowhere. */
  lemma {:induction false} ClosingTail(tail: seq<Event>)
    requires forall k :: 0 <= k < |tail| ==> AfterNavigation(tail[k])
    ensures Count(tail + [CloseContext], CloseContext) == 1
    ensures OpenContexts(tail + [CloseContext]) == -1
    ensures Navigations(tail + [CloseContext]) == []
  {
    if |tail| > 0 {
      assert (tail + [CloseContext])[1..] == tail[1..] + [CloseContext];
      ClosingTail(tail[1..]);
    } else {
      assert tail + [CloseContext] == [CloseContext];
    }
  }

  /** The trace shape every absorbed capture has. */
  lemma AbsorbedShape(url: string, opts: Options, tail: seq<Event>)
    requires forall k :: 0 <= k < |tail| ==> AfterNavigation(tail[k])
    ensures var ev := Loaded(url, opts) + tail + [CloseContext];
      && Count(ev, CloseContext) == 1
      && OpenContexts(ev) == 0
      && Navigations(ev) == [url]
  {
    var rest := tail + [CloseContext];
    ClosingTail(tail);
    var l := Loaded(url, opts);
    assert l + tail + [CloseContext] == l + rest;
    CountConcat(l, rest, CloseContext);
    OpenContextsConcat(l, rest);
    NavigationsConcat(l, rest);
    LoadedCounts(url, opts);
  }

  /** The calls up to navigation open one context and navigate once. */
  lemma LoadedCounts(url: string, opts: Options)
    ensures Count(Loaded(url, opts), CloseContext) == 0
    ensures OpenContexts(Loaded(url, opts)) == 1
    ensures Navigations(Loaded(url, opts)) == [url]
  {
    var l := Loaded(url, opts);
    var l1 := [OpenPage, SetTimeout(opts.timeout), Navigate(url)];
    var l2 := [SetTimeout(opts.timeout), Navigate(url)];
    var l3 := [Navigate(url)];
    assert l[1..] == l1 && l1[1..] == l2 && l2[1..] == l3 && l3[1..] == [];
    assert Count(l3, CloseContext) == 0 && OpenContexts(l3) == 0 && Navigations(l3) == [url];
    assert Count(l2, CloseContext) == 0 && OpenContexts(l2) == 0 && Navigations(l2) == [url];
    assert Count(l1, CloseContext) == 0 && OpenContexts(l1) == 0 && Navigations(l1) == [url];
  }

  /** The `finally` of `capture_url`: a capture that ends normally opens one
      context first, closes it as its very last call and only then, navigates
      to its URL exactly once, and leaves no context open. */
  lemma CaptureClosesContext(url: string, opts: Options, path: string, a: Attempt)
    requires !Escapes(a.fault)
    ensures var ev := CaptureTo(url, opts, path, a).events;
      && |ev| >= 2
      && ev[0] == OpenContext(ScaleFactor(opts.scale))
      && ev[|ev| - 1] == CloseContext
      && Count(ev, CloseContext) == 1
      && OpenContexts(ev) == 0
      && Navigations(ev) == [url]
  {
    var pause := if opts.wait > 0 then [Pause(1000 * opts.wait)] else [];
    assert Waited(url, opts) + [Shoot(path)] == Loaded(url, opts) + (pause + [Shoot(path)]);
    if a.fault.GotoFails? {
      AbsorbedShape(url, opts, []);
      assert Loaded(url, opts) + [] == Loaded(url, opts);
    } else if a.fault.WaitFails? && opts.wait > 0 {
      AbsorbedShape(url, opts, pause);
    } else {
      AbsorbedShape(url, opts, pause + [Shoot(path)]);
    }
  }

  /** A capture that ended normally with the calls `capture_url` promises:
      one navigation to its URL, one context closed, none left open. */
  ghost predicate ClosedCapture(c: Visit, url: string) {
    && c.Absorbed?
    && Navigations(c.events) == [url]
    && Count(c.events, CloseContext) == 1
    && OpenContexts(c.events) == 0
  }

  /** A capture that let its exception out: no navigation, nothing closed,
      and one context left open exactly when `new_page` failed. */
  ghost predicate EscapedCapture(c: Visit, f: Fault) {
    && c.Escaped?
    && Navigations(c.events) == []
    && Count(c.events, CloseContext) == 0
    && OpenContexts(c.events) == (if f.PageFails? then 1 else 0)
  }

  /** Every capture is one of the two. */
  lemma CaptureUrlShape(url: string, opts: Options, urlparse: string -> UrlParts, a: Attempt)
    ensures !Escapes(a.fault) ==> ClosedCapture(CaptureUrl(url, opts, urlparse, a), url)
    ensures Escapes(a.fault) ==> EscapedCapture(CaptureUrl(url, opts, urlparse, a), a.fault)
  {
    var path := ShotPath(url, opts, urlparse, a.timestamp);
    var c := CaptureTo(url, opts, path, a);
    if !Escapes(a.fault) {
      CaptureClosesContext(url, opts, path, a);
    } else if a.fault.PageFails? {
      assert c.events == [OpenContext(ScaleFactor(opts.scale))];
      assert c.events[1..] == [];
    } else {
      assert c.events == [];
    }
  }

  /** What `capture_url` promises about one capture, in terms of what the
      world did on it: a fault before the `try` escapes with its error and
      the calls made so far; otherwise the context is closed and the outcome
      is a save exactly when nothing inside the `try` failed, and names the
      URL and the error when something did. */
  ghost predicate Behaves(c: Visit, url: string, opts: Options, a: Attempt) {
    && (!Escapes(a.fault) ==>
          && ClosedCapture(c, url)
          && (c.outcome.Saved? <==> !FailsCapture(a.fault, opts.wait))
          && (c.outcome.Failed? ==> c.outcome == Failed(url, a.fault.err)))
    && (Escapes(a.fault) ==> EscapedCapture(c, a.fault) && c.error == a.fault.err)
  }

  lemma CaptureUrlBehaves(url: string, opts: Options, urlparse: string -> UrlParts, a: Attempt)
    ensures Behaves(CaptureUrl(url, opts, urlparse, a), url, opts, a)
  {
    CaptureUrlShape(url, opts, urlparse, a);
  }

  /** A failing `new_page` lets its exception out after the context was
      opened, and that context is never closed by `capture_url`. */
  lemma PageFailureLeaksContext(url: string, opts: Options, urlparse: string -> UrlParts, a: Attempt)
    requires a.fault.PageFails?
    ensures OpenContexts(CaptureUrl(url, opts, urlparse, a).events) == 1
  {
    var ev := CaptureUrl(url, opts, urlparse, a).events;
    assert ev[1..] == [];
  }

  /** When every browser call succeeds, the screenshot lands in a `.png`
      file whose name starts with the prefix and the URL's slug; inside the
      output directory unless the prefix makes the name absolute. */
  lemma SavedPathShape(url: string, opts: Options, urlparse: string -> UrlParts, a: Attempt)
    requires !Escapes(a.fault) && !FailsCapture(a.fault, opts.wait)
    ensures var path := CaptureUrl(url, opts, urlparse, a).outcome.path;
      var name := FileName(opts.prefix, Slugify(urlparse(url)), a.timestamp);
      && path[|path| - |name|..] == name
      && path[|path| - 4..] == ".png"
      && (!(|opts.prefix| > 0 && opts.prefix[0] == '/') ==> path[..|opts.outdir|] == opts.outdir)
  {
    var slug := Slugify(urlparse(url));
    SavedToPath(url, opts, ShotPath(url, opts, urlparse, a.timestamp), a);
    assert IsSlugChar(SlugText(Joined(urlparse(url)))[0]);
    JoinedNameShape(opts.outdir, opts.prefix, slug, a.timestamp);
  }

  /** A capture in which nothing fails saves to the path it was given. */
  lemma SavedToPath(url: string, opts: Options, path: string, a: Attempt)
    requires !Escapes(a.fault) && !FailsCapture(a.fault, opts.wait)
    ensures CaptureTo(url, opts, path, a) == Absorbed(Saved(path), CaptureTo(url, opts, path, a).events)
  {
  }

  /** The path of a file name whose slug does not begin with `/`: it ends in
      the name, and begins with the directory unless the prefix begins with
      `/`. */
  lemma JoinedNameShape(outdir: string, prefix: string, slug: string, ts: string)
    requires |slug| > 0 && slug[0] != '/'
    ensures var name := FileName(prefix, slug, ts);
      var path := PosixJoin(outdir, name);
      && |name| <= |path|
      && path[|path| - |name|..] == name
      && path[|path| - 4..] == ".png"
      && (!(|prefix| > 0 && prefix[0] == '/') ==> |outdir| <= |path| && path[..|outdir|] == outdir)
  {
    var name := FileName(prefix, slug, ts);
    PosixJoinShape(outdir, name);
    assert |name| > 0 && name[0] == '/' <==> |prefix| > 0 && prefix[0] == '/' by {
      if |prefix| > 0 { assert name[0] == prefix[0]; }
      else { assert name[0] == slug[0]; }
    }
  }
}
