# Screenshotter, modelled in Dafny

`screenshotter.py` is a command-line tool that takes full-page screenshots of a
batch of web pages with a headless Chromium browser. The batch comes from one of
three sources:

- a numeric range substituted into a URL template;
- the `<loc>` entries of a sitemap;
- a text file with one URL per line.

Each page is saved as a `.png` in an output directory. The file name is built
from an optional prefix, a slug of the URL and a UTC timestamp.

This project models the deterministic core of that tool and proves properties
about it:

- **`slugify`** (`slug.dfy`, module `Slug`). The URL's host, path and query
  are joined with a `?`. Every character outside `[A-Za-z0-9._-]` becomes
  `_`. Leading and trailing underscores are stripped, and an empty result
  falls back to `page`. `urlparse` is a parameter of type
  `string -> UrlParts`. The scheme is not part of `UrlParts`, because the
  slug never looks at it: `http://a/x` and `https://a/x` share a slug.
- **Python text primitives** (`text.dfy`, module `Text`):
  - `str.strip` with any set of characters;
  - `str.isspace` as a list of code points;
  - universal-newline translation (`\r\n` and `\r` become `\n`) done by a
    text-mode `open`;
  - the way iterating a file splits it into lines that keep their `\n`.
- **URL-list resolution** (`resolvers.dfy`, module `Resolvers`):
  - `range(start, end + 1)` mapped through `template.format(n=…)`, where the
    formatter is a parameter;
  - the sitemap's `<loc>` texts, given as a fetch-and-parse result;
  - a file's non-blank lines, stripped;
  - the `if max_urls: urls = urls[:max_urls]` cap, with Python slice
    semantics for negative values.
- **`capture_url`** (`capture.dfy`, module `Capture`). The browser is
  modelled as a trace of events: open context, open page, set timeout,
  navigate, pause, shoot, close context. Each capture draws an `Attempt`
  from the environment. The `Attempt` says which browser call fails, if any,
  and what timestamp the clock shows. The model follows which calls sit
  inside the `try` and which do not:
  - failures in `goto`, `wait_for_timeout` and `screenshot` are caught and
    reported as `Failed(url, error)`, and the context is closed;
  - failures in `new_context` and `new_page` happen before the `try`, so
    they escape, and a failing `new_page` leaves its context without a
    `ctx.close()`.
- **`run`** (`batch.dfy`, module `Batch`):
  - the browser is launched;
  - the URL list is resolved;
  - `capture_url` runs once per URL, in order, stopping at the first
    escaping exception;
  - the browser is closed in the `finally`;
  - the process exits with status 1 if anything escaped and 0 otherwise.

  `CaptureAll` is the loop written as an imperative method. It is proved
  equal to the recursive definition.

`results.dfy` holds the `Result` type shared by the modules.

Two behaviours of the code that a reader might not expect. The model
follows the code in both:

- `capture_url` catches failures in `goto`, `wait_for_timeout` and
  `screenshot` (lines 17-27). `new_context` and `new_page` (lines 14-15) are
  called before the `try`. When either raises, the exception leaves
  `capture_url` and the loop in `run`. The `finally` on line 58 closes the
  browser, and the exception ends the process with status 1. When `new_page`
  raises, the context opened on line 14 is never closed by `capture_url`; it
  stays open until `browser.close()` on line 59 closes the whole browser
  (`Capture.PageFailureLeaksContext`, `Batch.BatchStopsAtEscape`).
- `if args.max_urls:` (lines 47 and 54) is true for every nonzero value. So
  a negative `--max-urls` also slices: `urls[:-k]` drops the last `k` URLs
  (`Resolvers.CapNegativeDropsTail`).

## Model

| member | source | states |
|---|---|---|
| Text.IsPySpace | screenshotter.py:53 | The characters `str.strip()` and `str.isspace` treat as whitespace: the code points 0x09-0x0D, 0x1C-0x20, 0x85, 0xA0, 0x1680, 0x2000-0x200A, 0x2028, 0x2029, 0x202F, 0x205F and 0x3000. It is a definition; `Resolvers.ListEntriesTrimmed` states what stripping with it guarantees. |
| Text.Strip | screenshotter.py:11 | The result is what remains after removing a maximal run of stripped characters from each end. It is empty exactly when every character is stripped. Otherwise neither end character is a stripped one. Every character comes from the input. |
| Text.StripIsStrippedAt | screenshotter.py:11 | Any slice with stripped characters on both sides and kept characters at both ends is the strip result, so strip is uniquely determined by that description. |
| Text.StripIdempotent | screenshotter.py:11 | Stripping twice is the same as stripping once. |
| Text.TranslateNewlines | screenshotter.py:52 | Reading a file in text mode leaves no `\r` in the text and never lengthens it. |
| Text.TranslateNewlinesPlain | screenshotter.py:52 | Text without `\r` is read back unchanged. |
| Text.TranslateNewlinesConcat | screenshotter.py:52 | Two stretches of text read one after the other give the two translations in a row, unless a `\r\n` pair is cut between them. |
| Text.TranslateNewlinesEnds | screenshotter.py:52 | `\r\n`, a lone `\r` and `\n` each read as one `\n`. Any other character reads as itself. |
| Text.TranslateNewlinesStep | screenshotter.py:52 | Read one step at a time: `\r\n` gives one `\n`, a `\r` not followed by `\n` gives one `\n`, and any other character is kept, whatever text follows. |
| Text.SplitLines | screenshotter.py:52-53 | Iterating a text file yields its lines, each with its `\n`, the last one possibly without. It is a definition; `Text.SplitLinesRoundTrip` and `Text.SplitLinesWellFormed` state its properties. |
| Text.SplitLinesRoundTrip | screenshotter.py:52-53 | Concatenating the lines a file iterates over gives back the whole text. |
| Text.SplitLinesWellFormed | screenshotter.py:52-53 | Every line is nonempty, every line except the last ends in `\n`, and no line has an inner `\n`. |
| Slug.Joined | screenshotter.py:10 | The text the slug is cut from: host and path, followed by `?` and the query only when the query is nonempty. It is a definition; `Slug.QueryMarkSanitized` states what it becomes. |
| Slug.Sanitize | screenshotter.py:10 | The regex substitution keeps the length. Each position keeps its character if it is in `[A-Za-z0-9._-]` and becomes `_` otherwise, and only slug characters remain. |
| Slug.SanitizeConcat | screenshotter.py:10 | The substitution works one character at a time, so it distributes over concatenation. |
| Slug.SanitizeIdempotent | screenshotter.py:10 | Substituting an already substituted string changes nothing. |
| Slug.SanitizeMarked | screenshotter.py:10 | A leading `?` and a leading `_` both become `_`. |
| Slug.SlugText | screenshotter.py:10-11 | The slug of a joined text is never empty, consists only of `[A-Za-z0-9._-]`, and neither begins nor ends with `_`. |
| Slug.SlugTextCases | screenshotter.py:11 | If every character becomes `_`, the slug is `page`. Otherwise the slug is the substituted string with its outer underscores stripped. |
| Slug.SlugTextIdempotent | screenshotter.py:10-11 | Slugifying a slug gives the same slug. |
| Slug.SameSanitizedSameSlug | screenshotter.py:10-11 | Texts with the same substitution get the same slug. |
| Slug.QueryMarkSanitized | screenshotter.py:10 | With a query present, the slug text is host, path and query each substituted, joined by the `_` that replaces the `?`. Without one, it is host and path substituted. |
| Slug.Slugify | screenshotter.py:8-11 | Every URL, however parsed, has a nonempty slug. |
| Slug.QueryPathCollision | screenshotter.py:8-11 | `slugify` is not one-to-one. A URL with query `q` and the URL whose path ends in `_q` and has no query get the same slug. Two such pages shot in the same second are written to the same file, and the second overwrites the first. |
| Slug.EmptyUrlSlug | screenshotter.py:9-11 | A URL with empty host, path and query gets the slug `page`. |
| Resolvers.RangeUrls | screenshotter.py:37-38 | Range mode yields `end - start + 1` URLs, or none when `start > end`. URL `i` is the template formatted with `start + i`. |
| Resolvers.RangeUrlsSplit | screenshotter.py:37 | The range list splits at any midpoint into the two sub-ranges. |
| Resolvers.ListEntries | screenshotter.py:53 | The list keeps no more entries than there are lines, and every entry is nonempty. |
| Resolvers.ListEntriesTrimmed | screenshotter.py:53 | No entry is empty, and none begins or ends with whitespace. |
| Resolvers.ListEntriesMembers | screenshotter.py:53 | A string is an entry if and only if it is the strip of some line whose strip is nonempty. |
| Resolvers.ListEntriesConcat | screenshotter.py:53 | Entries of concatenated line lists are the concatenated entries, so file order is kept. |
| Resolvers.SliceStop | screenshotter.py:47 | It is a definition of the stop index Python uses for `urls[:m]`; `Resolvers.Cap` and `Resolvers.CapNegativeDropsTail` state what slicing with it keeps. Beyond the definition, its contract says the stop never exceeds the length and that a negative `m` drops `min(-m, n)` URLs from the end. |
| Resolvers.Cap | screenshotter.py:54 | The `urls[:max_urls]` cap of lines 47 and 54 is always a prefix of the list. A zero cap leaves it whole. A positive cap `m` keeps `min(m, n)` URLs. A negative cap `m` keeps `max(0, n + m)`. |
| Resolvers.CapIdempotent | screenshotter.py:47 | A positive cap applied twice equals the cap applied once. |
| Resolvers.CapNegativeDropsTail | screenshotter.py:54 | A negative cap `-k`, on a list of at least `k` URLs, keeps exactly the list without its last `k` URLs. |
| Resolvers.FileUrls | screenshotter.py:52-53 | Every URL read from a list file is nonempty. |
| Resolvers.FileUrlsExample | screenshotter.py:52-53 | For any non-whitespace characters `a`, `b`, `c`, a file `a\n\nb \n  \nc` lists exactly `a`, `b`, `c`: blank lines are dropped and the others trimmed. |
| Resolvers.FileUrlsCarriageReturns | screenshotter.py:52-53 | For any non-whitespace characters `a`, `b`, `c`, a file `a\r\nb\rc` lists exactly `a`, `b`, `c`: a `\r\n` and a lone `\r` each end a line, and neither is left in a URL. |
| Resolvers.Resolve | screenshotter.py:36-54 | Resolution fails exactly when the sitemap fetch or the file read fails. Range mode yields `end - start + 1` URLs, URL `i` being the template formatted with `start + i`. Sitemap and file modes yield what the cap leaves of the `<loc>` list or of the file's entries: a prefix, all of it for a zero cap, `min(m, n)` URLs for a positive cap `m`, and `max(0, n + m)` for a negative one. |
| Capture.ScaleFactor | screenshotter.py:14 | `device` gives a device scale factor of 1 and `retina` gives 2. It is a definition, used by the trace `Capture.CaptureTo` records. |
| Capture.FileName | screenshotter.py:22 | The name begins with the prefix and ends in `.png`. Its length is that of prefix, slug and timestamp plus five, for the `_` and the `.png`. |
| Capture.FileNameInjective | screenshotter.py:21-22 | Under one prefix, two names with equal-length timestamps are equal only if their slugs and their timestamps are equal. This does not make file names unique per URL: `slugify` itself can map two URLs to one slug (`Slug.QueryPathCollision`). |
| Capture.PosixJoin | screenshotter.py:23 | POSIX `os.path.join` of two parts: an absolute name replaces the directory, and otherwise one `/` is put between them unless the directory is empty or already ends with `/`. It is a definition; `Capture.PosixJoinShape` states its properties. |
| Capture.PosixJoinShape | screenshotter.py:23 | `os.path.join` ends in the file name. It starts with the directory unless the name is absolute, in which case it is the name alone. |
| Capture.ShotPath | screenshotter.py:21-23 | The path a capture writes to: the output directory joined with prefix, slug, `_`, timestamp and `.png`. It is a definition; `Capture.SavedPathShape` states its shape. |
| Capture.CaptureTo | screenshotter.py:13-29 | A capture lets an exception out exactly when `new_context` or `new_page` fails, and then it carries that error. Otherwise it saves exactly when `goto`, the wait (when `wait > 0`) and `screenshot` all succeed, and the saved path is the one screenshotted. It fails with the URL and the error otherwise. |
| Capture.CaptureUrl | screenshotter.py:13-29 | `capture_url` with its path built from the URL's slug and the attempt's timestamp. It is a definition; `Capture.CaptureUrlBehaves` and `Capture.CaptureUrlShape` state what it does. |
| Capture.CaptureClosesContext | screenshotter.py:17-29 | When nothing escapes, the trace opens one context first and closes it last, exactly once, leaves no context open, and navigates to the URL once. |
| Capture.CaptureUrlShape | screenshotter.py:14-29 | Every capture either returns normally, navigates once and closes its one context, or escapes. An escaped capture navigates nowhere, closes nothing, and leaves one context open exactly when `new_page` failed. |
| Capture.CaptureUrlBehaves | screenshotter.py:13-29 | A fault before the `try` escapes with its error. Otherwise the context is closed, the outcome is a save exactly when nothing in the `try` failed, and a failure names the URL and the error. |
| Capture.PageFailureLeaksContext | screenshotter.py:14-15 | A failing `new_page` leaves one context that `capture_url` never closes with `ctx.close()`; only `browser.close()` on line 59 ends it. |
| Capture.SavedToPath | screenshotter.py:17-25 | A capture in which no browser call fails saves to the path it was given. |
| Capture.JoinedNameShape | screenshotter.py:21-23 | A path built from a file name whose slug does not begin with `/` ends in that name and `.png`, and begins with the directory's text unless the prefix begins with `/`. |
| Capture.SavedPathShape | screenshotter.py:21-24 | When every browser call succeeds, the saved path ends in the prefixed slug file name and `.png`. Unless the prefix starts with `/`, the path's text begins with the output directory's text. This is a statement about strings: a prefix such as `../` still leads outside the directory once the path is resolved. |
| Batch.BatchFrom | screenshotter.py:48-50 | The loop finishes exactly when no capture escapes. It records one outcome per attempted URL, each the outcome of that URL's capture. When it aborts, the next capture is the one that escaped, and the trace is the attempted captures' traces in order. |
| Batch.RunBatch | screenshotter.py:55-57 | The loop `for url in urls: await capture_url(...)`, the `k`-th call seeing what the world does on the `k`-th capture. It is a definition; `Batch.BatchCapturesEveryUrl` and `Batch.BatchStopsAtEscape` state what it does. |
| Batch.EveryUrlCaptured | screenshotter.py:48-50 | For any loop whose captures each behave like `capture_url`: without escapes, every URL is captured once, in order, with the outcome its `try` decided, and every context is closed. |
| Batch.BatchCapturesEveryUrl | screenshotter.py:55-57 | Without escapes, every URL is captured once, in order. Outcome `k` is a save exactly when its `try` raised nothing, and otherwise names URL `k` and its error. One context is closed per URL and none stays open. |
| Batch.StopsAtEscape | screenshotter.py:48-50 | For any loop whose captures each behave like `capture_url`: the first escaping capture ends the loop with its error, after the earlier URLs were navigated to in order. |
| Batch.BatchStopsAtEscape | screenshotter.py:35-59 | The first escaping capture ends the loop. Every earlier URL was captured in order and no later URL was visited. |
| Batch.CaptureAll | screenshotter.py:55-57 | The imperative loop computes the same run as the recursive definition. |
| Batch.RunScript | screenshotter.py:31-59 | The browser is launched first and closed last. The exit status is 0 exactly when resolution succeeds and no capture escapes, and 1 otherwise. A failed resolution captures nothing. |
| Batch.FailuresKeepExitZero | screenshotter.py:26-27 | Page failures caught by `capture_url` never change the exit status: the run exits 0 with one outcome per URL, navigating the URLs in order. Outcome `k` is a save exactly when URL `k`'s `try` raised nothing, and otherwise names URL `k` and its error, so the URLs after a failing one are still saved. |

## Left out

- Lines 93-110: the second definition of `capture_url` is indented inside the `if __name__ == "__main__":` block, and its body (line 94) sits at the same indentation as its `def` (line 93). CPython rejects such a file with `IndentationError` when compiling it, so the file as given does not start at all. The model describes the file without lines 93-110; the `capture_url` it models is the one on lines 13-29.
- Browser, network and file system: Playwright, `requests`, `open` and `os.makedirs` are not modelled. Each browser call's success or failure and each fetch or read result is an input to the model.
- `print` is assumed not to raise. On a console that cannot encode `✔`, the `print` on line 25 raises `UnicodeEncodeError` after the file was written. The handler's `print` on line 27 then raises the same error, which escapes `capture_url` and ends the run with status 1. The model has no such path.
- `urlparse` is a total parameter. In the code it raises `ValueError` on some URLs (an unbalanced `[` in the host, for one). That happens inside the `try`, so the capture reports `Failed` after navigating and without a screenshot. The model has no such outcome.
- `str.format` is a parameter too. The model builds the whole range list before the loop; the code formats each URL just before capturing it. The two agree because `format` is assumed not to raise; an exception from a bad template is not modelled.
- Sitemap parsing: the XML parse and the `<loc>` lookup are modelled as a given `Result` holding the list of strings. An empty `<loc/>`, which yields `None` in the code, is not represented.
- Encoding: UTF-8 decoding of the list file is not modelled. A decoding error ends the run before any capture, the same as a failed read.
- The UTC timestamp is an opaque string drawn from the environment for each capture. The strftime format is not modelled.
- `asyncio.sleep(delay)` between captures has no effect in the model. Console messages are not modelled; the outcome carries the path or the URL and error that would be printed.
- Exceptions from `ctx.close()`, `browser.close()`, `chromium.launch` and `set_default_timeout` are not modelled.
- Argument parsing in the `if __name__ == "__main__":` block (lines 61-91) is not modelled, and neither are its usage errors.
- Paths use POSIX `os.path.join`. Windows drive and separator rules are not modelled. Paths are strings: `..` is not resolved.
- Batch.RunScript: states that the browser is launched first and closed last. It does not state that no other launch or close happens in between.
