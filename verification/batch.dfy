/** The loop of `run`: every resolved URL goes through `capture_url` in list
    order, with the browser launched before and closed after. */
module Batch {
  import opened Results
  import opened Slug
  import opened Resolvers
  import opened Capture

  /** The loop over the URL list: it either reaches the end, or stops because
      an exception escaped a capture. `outcomes` holds one entry per capture
      that ended normally; `events` every browser call made. */
  datatype Run =
    | Finished(outcomes: seq<Outcome>, events: seq<Event>)
    | Aborted(error: string, outcomes: seq<Outcome>, events: seq<Event>)

  /** Earlier captures in front of the rest of a loop. */
  function Extend(outs: seq<Outcome>, evs: seq<Event>, r: Run): (r': Run)
    ensures r'.Finished? == r.Finished?
    ensures r'.outcomes == outs + r.outcomes && r'.events == evs + r.events
    ensures r'.Aborted? ==> r'.error == r.error
  {
    match r
    case Finished(os, es) => Finished(outs + os, evs + es)
    case Aborted(e, os, es) => Aborted(e, outs + os, evs + es)
  }

  /** How many captures a loop started: one per outcome, plus the one whose
      exception stopped it. */
  function Attempted(r: Run): nat {
    |r.outcomes| + if r.Aborted? then 1 else 0
  }

  /** The browser calls of the `i`-th to `j - 1`-th captures, in order. */
  function StepEvents(urls: seq<string>, i: nat, j: nat, step: (nat, string) -> Visit): seq<Event>
    requires i <= j <= |urls|
    decreases j - i
  {
    if i == j then [] else step(i, urls[i]).events + StepEvents(urls, i + 1, j, step)
  }

  /** `outs` are the outcomes of the captures of the URLs from the `i`-th on,
      each of which ended normally. */
  ghost predicate OutcomesFrom(urls: seq<string>, i: nat, step: (nat, string) -> Visit, outs: seq<Outcome>) {
    && i + |outs| <= |urls|
    && forall k :: 0 <= k < |outs| ==> OutcomeAt(urls, i + k, step, outs[k])
  }

  /** `o` is the outcome of the `j`-th capture, which ended normally. */
  ghost predicate OutcomeAt(urls: seq<string>, j: nat, step: (nat, string) -> Visit, o: Outcome) {
    j < |urls| && step(j, urls[j]).Absorbed? && o == step(j, urls[j]).outcome
  }

  /** The loop from the `i`-th URL on; `step(k, url)` is the `k`-th call of
      `capture_url`. */
  function BatchFrom(urls: seq<string>, i: nat, step: (nat, string) -> Visit): (r: Run)
    requires i <= |urls|
    ensures r.Finished? <==> forall k :: i <= k < |urls| ==> step(k, urls[k]).Absorbed?
    ensures i + Attempted(r) <= |urls|
    ensures r.Finished? ==> i + |r.outcomes| == |urls|
    ensures r.Aborted? ==> step(i + |r.outcomes|, urls[i + |r.outcomes|]) == Escaped(r.error, step(i + |r.outcomes|, urls[i + |r.outcomes|]).events)
    ensures OutcomesFrom(urls, i, step, r.outcomes)
    ensures r.events == StepEvents(urls, i, i + Attempted(r), step)
    decreases |urls| - i
  {
    if i == |urls| then Finished([], [])
    else
      match step(i, urls[i])
      case Escaped(e, ev) =>
        assert StepEvents(urls, i + 1, i + 1, step) == [];
        Aborted(e, [], ev)
      case Absorbed(o, ev) =>
        var rest := BatchFrom(urls, i + 1, step);
        OutcomesFromCons(urls, i, step, rest.outcomes);
        Extend([o], ev, rest)
  }

  /** The outcome of the `i`-th capture, when it ended normally, in front of
      the outcomes of the ones after it. */
  lemma OutcomesFromCons(urls: seq<string>, i: nat, step: (nat, string) -> Visit, outs: seq<Outcome>)
    requires i < |urls| && step(i, urls[i]).Absorbed?
    requires OutcomesFrom(urls, i + 1, step, outs)
    ensures OutcomesFrom(urls, i, step, [step(i, urls[i]).outcome] + outs)
  {
    var all := [step(i, urls[i]).outcome] + outs;
    forall k | 0 <= k < |all|
      ensures OutcomeAt(urls, i + k, step, all[k])
    {
      if k > 0 {
        assert all[k] == outs[k - 1];
        assert OutcomeAt(urls, i + 1 + (k - 1), step, outs[k - 1]);
      }
    }
  }

  /** The step the script's loop takes: the `k`-th URL is captured with what
      the world does on the `k`-th capture. */
  function ScriptStep(opts: Options, urlparse: string -> UrlParts, world: nat -> Attempt): (nat, string) -> Visit {
    (k: nat, url: string) => CaptureUrl(url, opts, urlparse, world(k))
  }

  /** The whole loop `for url in urls: await capture_url(...)`. */
  function RunBatch(urls: seq<string>, opts: Options, urlparse: string -> UrlParts,
                    world: nat -> Attempt): Run {
    BatchFrom(urls, 0, ScriptStep(opts, urlparse, world))
  }

  /** Captures that all end normally navigate to their URLs in order, once
      each, close one context each and leave none open. */
  lemma {:induction false} StepEventsClosed(urls: seq<string>, i: nat, j: nat, step: (nat, string) -> Visit)
    requires i <= j <= |urls|
    requires forall k :: i <= k < j ==> ClosedCapture(step(k, urls[k]), urls[k])
    ensures var ev := StepEvents(urls, i, j, step);
      && Navigations(ev) == urls[i..j]
      && Count(ev, CloseContext) == j - i
      && OpenContexts(ev) == 0
    decreases j - i
  {
    if i < j {
      var head := step(i, urls[i]).events;
      var tail := StepEvents(urls, i + 1, j, step);
      StepEventsClosed(urls, i + 1, j, step);
      assert ClosedCapture(step(i, urls[i]), urls[i]);
      NavigationsConcat(head, tail);
      CountConcat(head, tail, CloseContext);
      OpenContextsConcat(head, tail);
      assert urls[i..j] == [urls[i]] + urls[i + 1..j];
    }
  }

  /** Every capture of the list keeps the promises of `capture_url`. */
  ghost predicate StepsBehave(urls: seq<string>, step: (nat, string) -> Visit, opts: Options,
                              world: nat -> Attempt) {
    forall k :: 0 <= k < |urls| ==> Behaves(step(k, urls[k]), urls[k], opts, world(k))
  }

  /** The script's step is `capture_url` on every URL. */
  lemma ScriptStepBehaves(urls: seq<string>, opts: Options, urlparse: string -> UrlParts,
                          world: nat -> Attempt)
    ensures StepsBehave(urls, ScriptStep(opts, urlparse, world), opts, world)
  {
    forall k | 0 <= k < |urls|
      ensures Behaves(ScriptStep(opts, urlparse, world)(k, urls[k]), urls[k], opts, world(k))
    {
      CaptureUrlBehaves(urls[k], opts, urlparse, world(k));
    }
  }

  /** `BatchCapturesEveryUrl` for any loop whose captures keep the promises
      of `capture_url`. */
  lemma EveryUrlCaptured(urls: seq<string>, step: (nat, string) -> Visit, opts: Options,
                         world: nat -> Attempt)
    requires StepsBehave(urls, step, opts, world)
    requires forall k :: 0 <= k < |urls| ==> !Escapes(world(k).fault)
    ensures var r := BatchFrom(urls, 0, step);
      && r.Finished?
      && |r.outcomes| == |urls|
      && (forall k :: 0 <= k < |urls| ==>
            (r.outcomes[k].Saved? <==> !FailsCapture(world(k).fault, opts.wait)))
      && (forall k :: 0 <= k < |urls| && r.outcomes[k].Failed? ==>
            r.outcomes[k] == Failed(urls[k], world(k).fault.err))
      && Navigations(r.events) == urls
      && Count(r.events, CloseContext) == |urls|
      && OpenContexts(r.events) == 0
  {
    var r := BatchFrom(urls, 0, step);
    forall k | 0 <= k < |urls|
      ensures ClosedCapture(step(k, urls[k]), urls[k])
    {
      assert Behaves(step(k, urls[k]), urls[k], opts, world(k));
    }
    assert r.Finished? && |r.outcomes| == |urls|;
    assert Navigations(r.events) == urls && Count(r.events, CloseContext) == |urls|
        && OpenContexts(r.events) == 0 by {
      StepEventsClosed(urls, 0, |urls|, step);
      assert urls[0..|urls|] == urls;
    }
    forall k | 0 <= k < |urls|
      ensures r.outcomes[k].Saved? <==> !FailsCapture(world(k).fault, opts.wait)
      ensures r.outcomes[k].Failed? ==> r.outcomes[k] == Failed(urls[k], world(k).fault.err)
    {
      assert OutcomeAt(urls, 0 + k, step, r.outcomes[k]);
      assert Behaves(step(k, urls[k]), urls[k], opts, world(k));
    }
  }

  /** The batch isolates failures: when no exception escapes a capture, every
      URL is captured exactly once, in list order, whatever the pages do; the
      `k`-th outcome is a save exactly when nothing failed inside the `k`-th
      capture's `try`, and otherwise names the `k`-th URL and its error. Every
      context opened is closed. */
  lemma BatchCapturesEveryUrl(urls: seq<string>, opts: Options, urlparse: string -> UrlParts,
                              world: nat -> Attempt)
    requires forall k :: 0 <= k < |urls| ==> !Escapes(world(k).fault)
    ensures var r := RunBatch(urls, opts, urlparse, world);
      && r.Finished?
      && |r.outcomes| == |urls|
      && (forall k :: 0 <= k < |urls| ==>
            (r.outcomes[k].Saved? <==> !FailsCapture(world(k).fault, opts.wait)))
      && (forall k :: 0 <= k < |urls| && r.outcomes[k].Failed? ==>
            r.outcomes[k] == Failed(urls[k], world(k).fault.err))
      && Navigations(r.events) == urls
      && Count(r.events, CloseContext) == |urls|
      && OpenContexts(r.events) == 0
  {
    ScriptStepBehaves(urls, opts, urlparse, world);
    EveryUrlCaptured(urls, ScriptStep(opts, urlparse, world), opts, world);
  }

  /** A loop stopped by an exception made the captures before it, each ending
      normally, and then the one that raised. */
  lemma AbortedAt(urls: seq<string>, step: (nat, string) -> Visit)
    requires BatchFrom(urls, 0, step).Aborted?
    ensures var r := BatchFrom(urls, 0, step);
      var n := |r.outcomes|;
      && n < |urls|
      && (forall k :: 0 <= k < n ==> step(k, urls[k]).Absorbed?)
      && step(n, urls[n]).Escaped?
      && r.events == StepEvents(urls, 0, n, step) + step(n, urls[n]).events
  {
    var r := BatchFrom(urls, 0, step);
    var n := |r.outcomes|;
    assert OutcomesFrom(urls, 0, step, r.outcomes);
    forall k | 0 <= k < n
      ensures step(k, urls[k]).Absorbed?
    {
      assert step(0 + k, urls[0 + k]).Absorbed? && r.outcomes[k] == step(0 + k, urls[0 + k]).outcome;
    }
    StepEventsSnoc(urls, 0, n, step);
  }

  /** `BatchStopsAtEscape` for any loop whose captures keep the promises of
      `capture_url`. */
  lemma StopsAtEscape(urls: seq<string>, step: (nat, string) -> Visit, opts: Options,
                      world: nat -> Attempt)
    requires StepsBehave(urls, step, opts, world)
    requires BatchFrom(urls, 0, step).Aborted?
    ensures var r := BatchFrom(urls, 0, step);
      var n := |r.outcomes|;
      && n < |urls|
      && Escapes(world(n).fault)
      && r.error == world(n).fault.err
      && (forall k :: 0 <= k < n ==> !Escapes(world(k).fault))
      && Navigations(r.events) == urls[..n]
  {
    var r := BatchFrom(urls, 0, step);
    var n := |r.outcomes|;
    AbortedAt(urls, step);
    forall k | 0 <= k < n
      ensures !Escapes(world(k).fault)
      ensures ClosedCapture(step(k, urls[k]), urls[k])
    {
      assert Behaves(step(k, urls[k]), urls[k], opts, world(k));
    }
    assert Behaves(step(n, urls[n]), urls[n], opts, world(n));
    StepEventsClosed(urls, 0, n, step);
    NavigationsConcat(StepEvents(urls, 0, n, step), step(n, urls[n]).events);
    assert urls[0..n] == urls[..n];
  }

  /** An exception escaping the `n`-th capture ends the loop there: the URLs
      before it were each captured once, in order, and none after it was
      attempted. */
  lemma BatchStopsAtEscape(urls: seq<string>, opts: Options, urlparse: string -> UrlParts,
                           world: nat -> Attempt)
    requires RunBatch(urls, opts, urlparse, world).Aborted?
    ensures var r := RunBatch(urls, opts, urlparse, world);
      var n := |r.outcomes|;
      && n < |urls|
      && Escapes(world(n).fault)
      && r.error == world(n).fault.err
      && (forall k :: 0 <= k < n ==> !Escapes(world(k).fault))
      && Navigations(r.events) == urls[..n]
  {
    ScriptStepBehaves(urls, opts, urlparse, world);
    StopsAtEscape(urls, ScriptStep(opts, urlparse, world), opts, world);
  }

  /** One more capture at the end of a stretch appends its calls. */
  lemma {:induction false} StepEventsSnoc(urls: seq<string>, i: nat, j: nat, step: (nat, string) -> Visit)
    requires i <= j < |urls|
    ensures StepEvents(urls, i, j + 1, step) == StepEvents(urls, i, j, step) + step(j, urls[j]).events
    decreases j - i
  {
    if i < j {
      StepEventsSnoc(urls, i + 1, j, step);
    } else {
      assert StepEvents(urls, j + 1, j + 1, step) == [];
    }
  }

  /** One iteration of the loop. */
  lemma BatchUnfold(urls: seq<string>, i: nat, step: (nat, string) -> Visit)
    requires i < |urls|
    ensures var c := step(i, urls[i]);
      c.Escaped? ==> BatchFrom(urls, i, step) == Aborted(c.error, [], c.events)
    ensures var c := step(i, urls[i]);
      c.Absorbed? ==> BatchFrom(urls, i, step) == Extend([c.outcome], c.events, BatchFrom(urls, i + 1, step))
  {
  }

  /** Extending in two goes is extending once by both. */
  lemma ExtendTwice(outs: seq<Outcome>, evs: seq<Event>, outs': seq<Outcome>, evs': seq<Event>, r: Run)
    ensures Extend(outs, evs, Extend(outs', evs', r)) == Extend(outs + outs', evs + evs', r)
  {
    assert outs + (outs' + r.outcomes) == outs + outs' + r.outcomes;
    assert evs + (evs' + r.events) == evs + evs' + r.events;
  }

  /** The loop as `run` writes it, one `capture_url` call per iteration; an
      escaping exception leaves the loop at once. */
  method CaptureAll(urls: seq<string>, step: (nat, string) -> Visit) returns (r: Run)
    ensures r == BatchFrom(urls, 0, step)
  {
    var outs: seq<Outcome> := [];
    var evs: seq<Event> := [];
    var i := 0;
    while i < |urls|
      invariant 0 <= i <= |urls|
      invariant BatchFrom(urls, 0, step) == Extend(outs, evs, BatchFrom(urls, i, step))
    {
      var c := step(i, urls[i]);
      BatchUnfold(urls, i, step);
      if c.Escaped? {
        return Extend(outs, evs, Aborted(c.error, [], c.events));
      }
      ExtendTwice(outs, evs, [c.outcome], c.events, BatchFrom(urls, i + 1, step));
      outs := outs + [c.outcome];
      evs := evs + c.events;
      i := i + 1;
    }
    assert outs + [] == outs && evs + [] == evs;
    r := Finished(outs, evs);
  }

  /** A finished process: its exit status, the outcomes reported and the
      browser calls made. */
  datatype Session = Session(exitCode: int, outcomes: seq<Outcome>, events: seq<Event>)

  /** What the script does end to end once its arguments are parsed: the
      browser is launched, the URL list resolved, the loop run, and the
      browser closed by the `finally`, whatever happened. An exception that
      reaches the top ends the process with status 1. */
  function RunScript(source: Source, opts: Options, format: (string, int) -> string,
                     urlparse: string -> UrlParts, world: nat -> Attempt): (s: Session)
    ensures |s.events| >= 2 && s.events[0] == LaunchBrowser && s.events[|s.events| - 1] == CloseBrowser
    ensures s.exitCode == 0 || s.exitCode == 1
    ensures s.exitCode == 0 <==>
      Resolve(source, format).Ok? && RunBatch(Resolve(source, format).value, opts, urlparse, world).Finished?
    ensures Resolve(source, format).Err? ==> s.outcomes == [] && s.events == [LaunchBrowser, CloseBrowser]
  {
    match Resolve(source, format)
    case Err(e) => Session(1, [], [LaunchBrowser, CloseBrowser])
    case Ok(urls) =>
      var r := RunBatch(urls, opts, urlparse, world);
      Session(if r.Finished? then 0 else 1, r.outcomes, [LaunchBrowser] + r.events + [CloseBrowser])
  }

  /** Page failures never change the exit status: when no exception escapes
      a capture, the run ends with status 0 after one outcome per URL, in
      order, however many of them are failures: every URL whose `try` raised
      nothing is saved, and every other one is reported with its error. */
  lemma FailuresKeepExitZero(source: Source, opts: Options, format: (string, int) -> string,
                             urlparse: string -> UrlParts, world: nat -> Attempt)
    requires Resolve(source, format).Ok?
    requires forall k :: 0 <= k < |Resolve(source, format).value| ==> !Escapes(world(k).fault)
    ensures var s := RunScript(source, opts, format, urlparse, world);
      var urls := Resolve(source, format).value;
      && s.exitCode == 0
      && |s.outcomes| == |urls|
      && (forall k :: 0 <= k < |urls| ==>
            (s.outcomes[k].Saved? <==> !FailsCapture(world(k).fault, opts.wait)))
      && (forall k :: 0 <= k < |urls| && s.outcomes[k].Failed? ==>
            s.outcomes[k] == Failed(urls[k], world(k).fault.err))
      && Navigations(s.events) == urls
  {
    var urls := Resolve(source, format).value;
    var r := RunBatch(urls, opts, urlparse, world);
    BatchCapturesEveryUrl(urls, opts, urlparse, world);
    NavigationsConcat([LaunchBrowser] + r.events, [CloseBrowser]);
    NavigationsConcat([LaunchBrowser], r.events);
  }
}
