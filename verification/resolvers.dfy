/** The three ways `run` derives its list of URLs: a numbered template range,
    the `<loc>` entries of a sitemap, and the lines of a text file; the last
    two are cut to `--max-urls`. */
module Resolvers {
  import opened Results
  import opened Text

  /** Where the URLs come from. The sitemap download and XML parse and the
      file read are I/O: they arrive as their result, the `<loc>` texts in
      document order or the decoded file contents, or the error they raised. */
  datatype Source =
    | RangeSource(template: string, start: int, end: int)
    | SitemapSource(locs: Result<seq<string>>, maxUrls: int)
    | ListSource(contents: Result<string>, maxUrls: int)

  /** Range mode: `template.format(n=n)` for `n` in `range(start, end + 1)`.
      `format` stands for `str.format`. */
  function RangeUrls(template: string, start: int, end: int,
                     format: (string, int) -> string): (urls: seq<string>)
    ensures |urls| == if start <= end then end - start + 1 else 0
    ensures forall i :: 0 <= i < |urls| ==> urls[i] == format(template, start + i)
    decreases end - start
  {
    if start > end then [] else [format(template, start)] + RangeUrls(template, start + 1, end, format)
  }

  /** Splitting the range at any point splits the URL list at the same
      point: the numbers are visited in ascending order, each once. */
  lemma {:induction false} RangeUrlsSplit(template: string, start: int, mid: int, end: int,
                                         format: (string, int) -> string)
    requires start <= mid <= end + 1
    ensures RangeUrls(template, start, end, format)
         == RangeUrls(template, start, mid - 1, format) + RangeUrls(template, mid, end, format)
    decreases mid - start
  {
    if start < mid {
      RangeUrlsSplit(template, start + 1, mid, end, format);
    }
  }

  /** The list comprehension `[ln.strip() for ln in f if ln.strip()]`. */
  function ListEntries(lines: seq<string>): (urls: seq<string>)
    ensures |urls| <= |lines|
    ensures forall i :: 0 <= i < |urls| ==> |urls[i]| > 0
  {
    if |lines| == 0 then []
    else
      var t := Strip(lines[0], IsPySpace);
      var rest := ListEntries(lines[1..]);
      if |t| > 0 then [t] + rest else rest
  }

  /** Every string of `us` is nonempty and has no whitespace at either end. */
  ghost predicate AllTrimmed(us: seq<string>) {
    forall i :: 0 <= i < |us| ==> |us[i]| > 0 && !IsPySpace(us[i][0]) && !IsPySpace(us[i][|us[i]| - 1])
  }

  /** No entry is empty or starts or ends with whitespace. */
  lemma {:induction false} ListEntriesTrimmed(lines: seq<string>)
    ensures AllTrimmed(ListEntries(lines))
  {
    if |lines| > 0 {
      var t := Strip(lines[0], IsPySpace);
      var rest := ListEntries(lines[1..]);
      ListEntriesTrimmed(lines[1..]);
      if |t| > 0 {
        assert ListEntries(lines) == [t] + rest;
        TrimmedCons(t, rest);
      } else {
        assert ListEntries(lines) == rest;
      }
    }
  }

  lemma TrimmedCons(t: string, rest: seq<string>)
    requires |t| > 0 && !IsPySpace(t[0]) && !IsPySpace(t[|t| - 1])
    requires AllTrimmed(rest)
    ensures AllTrimmed([t] + rest)
  {
    var all := [t] + rest;
    forall i | 0 < i < |all|
      ensures |all[i]| > 0 && !IsPySpace(all[i][0]) && !IsPySpace(all[i][|all[i]| - 1])
    {
      assert all[i] == rest[i - 1];
    }
  }

  /** An entry is exactly a non-empty stripped line of the file. */
  lemma {:induction false} ListEntriesMembers(lines: seq<string>)
    ensures forall x :: x in ListEntries(lines) <==>
              (x != "" && exists ln :: ln in lines && Strip(ln, IsPySpace) == x)
  {
    if |lines| > 0 {
      ListEntriesMembers(lines[1..]);
      assert forall ln :: ln in lines <==> ln == lines[0] || ln in lines[1..];
    }
  }

  /** The comprehension keeps file order: the entries of two stretches of
      lines are the entries of the first followed by those of the second. */
  lemma {:induction false} ListEntriesConcat(a: seq<string>, b: seq<string>)
    ensures ListEntries(a + b) == ListEntries(a) + ListEntries(b)
  {
    if |a| > 0 {
      var t := Strip(a[0], IsPySpace);
      var ea, eb := ListEntries(a[1..]), ListEntries(b);
      var head := if |t| > 0 then [t] else [];
      ListEntriesHead(a);
      DropFirstAppend(a, b);
      ListEntriesHead(a + b);
      ListEntriesConcat(a[1..], b);
      AppendAssoc(head, ea, eb);
    } else {
      assert a + b == b;
    }
  }

  /** The comprehension on its first line. */
  lemma ListEntriesHead(lines: seq<string>)
    requires |lines| > 0
    ensures var t := Strip(lines[0], IsPySpace);
      ListEntries(lines) == (if |t| > 0 then [t] else []) + ListEntries(lines[1..])
  {
  }

  /** Python's normalised stop index for `xs[:m]` on a sequence of length `len`. */
  function SliceStop(len: nat, m: int): (stop: nat)
    ensures stop <= len
    ensures m >= 0 ==> stop == if m < len then m else len
    ensures m < 0 ==> stop == if len + m > 0 then len + m else 0
    ensures m < 0 ==> len - stop == if -m < len then -m else len
  {
    if m >= 0 then (if m < len then m else len)
    else if len + m > 0 then len + m else 0
  }

  /** `if m: urls = urls[:m]`: zero leaves the list alone, anything else is a
      Python slice. The result is always a prefix: all of the list for 0, the
      first `min(m, |urls|)` entries for a positive `m`, and all but the last
      `-m` entries for a negative one. */
  function Cap<T>(urls: seq<T>, m: int): (r: seq<T>)
    ensures |r| <= |urls| && r == urls[..|r|]
    ensures m == 0 ==> r == urls
    ensures m > 0 ==> |r| == (if m < |urls| then m else |urls|)
    ensures m < 0 ==> |r| == (if |urls| + m > 0 then |urls| + m else 0)
  {
    if m == 0 then urls else urls[..SliceStop(|urls|, m)]
  }

  /** A positive cap applied twice is applied once. */
  lemma CapIdempotent<T>(urls: seq<T>, m: int)
    requires m > 0
    ensures Cap(Cap(urls, m), m) == Cap(urls, m)
  {
  }

  /** A negative cap leaves off exactly the last `-m` entries. */
  lemma CapNegativeDropsTail<T>(urls: seq<T>, m: int)
    requires m < 0 && |urls| + m >= 0
    ensures Cap(urls, m) + urls[|urls| + m..] == urls
  {
  }

  /** The list-mode URLs of a file's decoded contents. */
  function FileUrls(contents: string): (urls: seq<string>)
    ensures forall i :: 0 <= i < |urls| ==> |urls[i]| > 0
  {
    ListEntries(SplitLines(TranslateNewlines(contents)))
  }

  /** A file holding `"a\n\nb \n  \nc"` (for any three non-blank characters
      in place of `a`, `b`, `c`) lists `a`, `b` and `c`: blank and
      whitespace-only lines are dropped and the others trimmed. */
  lemma FileUrlsExample(a: char, b: char, c: char)
    requires !IsPySpace(a) && !IsPySpace(b) && !IsPySpace(c)
    ensures FileUrls([a, '\n', '\n', b, ' ', '\n', ' ', ' ', '\n', c]) == [[a], [b], [c]]
  {
    var t := [a, '\n', '\n', b, ' ', '\n', ' ', ' ', '\n', c];
    assert forall k :: 0 <= k < |t| ==> t[k] != '\r';
    TranslateNewlinesPlain(t);
    ExampleLines(a, b, c);
    ExampleEntries(a, b, c);
  }

  lemma ExampleLines(a: char, b: char, c: char)
    requires a != '\n' && b != '\n' && c != '\n'
    ensures SplitLines([a, '\n', '\n', b, ' ', '\n', ' ', ' ', '\n', c])
         == [[a, '\n'], ['\n'], [b, ' ', '\n'], [' ', ' ', '\n'], [c]]
  {
    var l1, l2, l3, l4, l5 := [a, '\n'], ['\n'], [b, ' ', '\n'], [' ', ' ', '\n'], [c];
    assert [a, '\n', '\n', b, ' ', '\n', ' ', ' ', '\n', c] == l1 + (l2 + (l3 + (l4 + l5)));
    FiveLines(l1, l2, l3, l4, l5);
  }

  lemma ExampleEntries(a: char, b: char, c: char)
    requires !IsPySpace(a) && !IsPySpace(b) && !IsPySpace(c)
    ensures ListEntries([[a, '\n'], ['\n'], [b, ' ', '\n'], [' ', ' ', '\n'], [c]]) == [[a], [b], [c]]
  {
    var l1, l2, l3, l4, l5 := [a, '\n'], ['\n'], [b, ' ', '\n'], [' ', ' ', '\n'], [c];
    TrimmedLine(l1);
    TrimmedLine(l3);
    TrimmedLine(l5);
    BlankLine(l2);
    BlankLine(l4);
    SkipBlanks(l1, l2, l3, l4, l5);
    ThreeEntries(l1, l3, l5);
    assert l1[..1] == [a] && l3[..1] == [b] && l5[..1] == [c];
  }

  /** Windows and old Mac line ends: a file holding `"a\r\nb\rc"` lists `a`,
      `b` and `c`, so `"\r\n"` ends one line and a lone `'\r'` ends one too. */
  lemma FileUrlsCarriageReturns(a: char, b: char, c: char)
    requires !IsPySpace(a) && !IsPySpace(b) && !IsPySpace(c)
    ensures FileUrls([a, '\r', '\n', b, '\r', c]) == [[a], [b], [c]]
  {
    CrText(a, b, c);
    CrLines(a, b, c);
    CrEntries(a, b, c);
  }

  lemma CrText(a: char, b: char, c: char)
    requires a != '\r' && b != '\r' && c != '\r' && c != '\n'
    ensures TranslateNewlines([a, '\r', '\n', b, '\r', c]) == [a, '\n', b, '\n', c]
  {
    CrPieces(a, b, c);
    TranslateNewlinesEnds(a);
    TranslateNewlinesEnds(b);
    TranslateNewlinesEnds(c);
    TranslatePieces([a], [b], [c]);
  }

  lemma CrPieces(a: char, b: char, c: char)
    ensures [a, '\r', '\n', b, '\r', c] == [a] + ("\r\n" + ([b] + ("\r" + [c])))
    ensures [a, '\n', b, '\n', c] == [a] + ("\n" + ([b] + ("\n" + [c])))
  {
  }

  /** `x\r\ny\rz` reads as `x\ny\nz` when the three pieces read as
      themselves and `z` does not begin with `'\n'`. */
  lemma TranslatePieces(x: string, y: string, z: string)
    requires TranslateNewlines(x) == x && TranslateNewlines(y) == y && TranslateNewlines(z) == z
    requires |z| == 0 || z[0] != '\n'
    ensures TranslateNewlines(x + ("\r\n" + (y + ("\r" + z)))) == x + ("\n" + (y + ("\n" + z)))
  {
    var t4 := "\r" + z;
    assert TranslateNewlines(t4) == "\n" + z by {
      TranslateNewlinesConcat("\r", z);
      TranslateNewlinesEnds('\n');
    }
    var t3 := y + t4;
    assert TranslateNewlines(t3) == y + ("\n" + z) by {
      TranslateNewlinesConcat(y, t4);
    }
    var t2 := "\r\n" + t3;
    assert TranslateNewlines(t2) == "\n" + (y + ("\n" + z)) by {
      TranslateNewlinesConcat("\r\n", t3);
      TranslateNewlinesEnds('\n');
    }
    TranslateNewlinesConcat(x, t2);
  }

  lemma CrLines(a: char, b: char, c: char)
    requires a != '\n' && b != '\n' && c != '\n'
    ensures SplitLines([a, '\n', b, '\n', c]) == [[a, '\n'], [b, '\n'], [c]]
  {
    var l1, l2, l3 := [a, '\n'], [b, '\n'], [c];
    assert [a, '\n', b, '\n', c] == l1 + (l2 + l3);
    ThreeLines(l1, l2, l3);
  }

  lemma CrEntries(a: char, b: char, c: char)
    requires !IsPySpace(a) && !IsPySpace(b) && !IsPySpace(c)
    ensures ListEntries([[a, '\n'], [b, '\n'], [c]]) == [[a], [b], [c]]
  {
    var l1, l2, l3 := [a, '\n'], [b, '\n'], [c];
    TrimmedLine(l1);
    TrimmedLine(l2);
    TrimmedLine(l3);
    ThreeEntries(l1, l2, l3);
    assert l1[..1] == [a] && l2[..1] == [b] && l3[..1] == [c];
  }

  /** Three lines that each hold one non-blank character followed by
      blanks list those three characters. */
  lemma ThreeEntries(l1: string, l2: string, l3: string)
    requires |l1| > 0 && |l2| > 0 && |l3| > 0
    requires Strip(l1, IsPySpace) == l1[..1]
    requires Strip(l2, IsPySpace) == l2[..1]
    requires Strip(l3, IsPySpace) == l3[..1]
    ensures ListEntries([l1, l2, l3]) == [l1[..1], l2[..1], l3[..1]]
  {
    assert ListEntries([l3]) == [l3[..1]] by {
      assert [l3][1..] == [];
      assert ListEntries([]) == [];
    }
    assert ListEntries([l2, l3]) == [l2[..1], l3[..1]] by {
      assert [l2, l3][1..] == [l3];
    }
    assert [l1, l2, l3][1..] == [l2, l3];
  }

  lemma TrimmedLine(ln: string)
    requires |ln| > 0 && !IsPySpace(ln[0])
    requires forall k :: 1 <= k < |ln| ==> ln[k] == ' ' || ln[k] == '\n'
    ensures Strip(ln, IsPySpace) == ln[..1]
  {
    assert ln[0..1] == ln[..1];
    StripIsStrippedAt(ln, IsPySpace, 0, ln[..1]);
  }

  /** Lines whose strip is empty leave no entry. */
  lemma SkipBlanks(l1: string, l2: string, l3: string, l4: string, l5: string)
    requires Strip(l2, IsPySpace) == [] && Strip(l4, IsPySpace) == []
    ensures ListEntries([l1, l2, l3, l4, l5]) == ListEntries([l1, l3, l5])
  {
    assert ListEntries([l4, l5]) == ListEntries([l5]) by {
      assert [l4, l5][1..] == [l5];
    }
    assert ListEntries([l3, l4, l5]) == ListEntries([l3, l5]) by {
      assert [l3, l4, l5][1..] == [l4, l5];
      assert [l3, l5][1..] == [l5];
    }
    assert ListEntries([l2, l3, l4, l5]) == ListEntries([l3, l5]) by {
      assert [l2, l3, l4, l5][1..] == [l3, l4, l5];
    }
    assert [l1, l2, l3, l4, l5][1..] == [l2, l3, l4, l5];
    assert [l1, l3, l5][1..] == [l3, l5];
  }

  lemma BlankLine(ln: string)
    requires forall k :: 0 <= k < |ln| ==> ln[k] == ' ' || ln[k] == '\n'
    ensures Strip(ln, IsPySpace) == []
  {
  }

  /** `l` is a complete line: it ends in its only `'\n'`. */
  predicate EndedLine(l: string) {
    |l| > 0 && l[|l| - 1] == '\n' && forall k :: 0 <= k < |l| - 1 ==> l[k] != '\n'
  }

  /** `l` is a last line without a `'\n'`. */
  predicate OpenLine(l: string) {
    |l| > 0 && forall k :: 0 <= k < |l| ==> l[k] != '\n'
  }

  /** Four complete lines and a last one split back into those five. */
  lemma FiveLines(l1: string, l2: string, l3: string, l4: string, l5: string)
    requires EndedLine(l1) && EndedLine(l2) && EndedLine(l3) && EndedLine(l4) && OpenLine(l5)
    ensures SplitLines(l1 + (l2 + (l3 + (l4 + l5)))) == [l1, l2, l3, l4, l5]
  {
    var t3 := l3 + (l4 + l5);
    ThreeLines(l3, l4, l5);
    LineThen(l2, t3);
    LineThen(l1, l2 + t3);
  }

  /** Two complete lines and a last one split back into those three. */
  lemma ThreeLines(l1: string, l2: string, l3: string)
    requires EndedLine(l1) && EndedLine(l2) && OpenLine(l3)
    ensures SplitLines(l1 + (l2 + l3)) == [l1, l2, l3]
  {
    TwoLines(l2, l3);
    LineThen(l1, l2 + l3);
  }

  /** A line ending in its only `'\n'` followed by a last line. */
  lemma TwoLines(l1: string, l2: string)
    requires EndedLine(l1) && OpenLine(l2)
    ensures SplitLines(l1 + l2) == [l1, l2]
  {
    LineThen(l1, l2);
    LastLine(l2);
  }

  /** A line ending in its only `'\n'` is the first line of whatever follows. */
  lemma LineThen(l: string, rest: string)
    requires EndedLine(l)
    ensures SplitLines(l + rest) == [l] + SplitLines(rest)
  {
    var u := l + rest;
    FirstLine(u, |l|);
    assert u[..|l|] == l && u[|l|..] == rest;
  }

  /** Text without a `'\n'` is a single line. */
  lemma LastLine(l: string)
    requires OpenLine(l)
    ensures SplitLines(l) == [l]
  {
    FirstLine(l, |l|);
    assert l[..|l|] == l && l[|l|..] == [];
    assert SplitLines([]) == [];
  }

  /** The first line ends at the first `'\n'`, or at the end of the text. */
  lemma FirstLine(u: string, n: nat)
    requires 0 < n <= |u|
    requires forall k :: 0 <= k < n - 1 ==> u[k] != '\n'
    requires n < |u| ==> u[n - 1] == '\n'
    ensures SplitLines(u) == [u[..n]] + SplitLines(u[n..])
  {
    LineLengthUnique(u, n);
  }

  lemma {:induction false} LineLengthUnique(u: string, n: nat)
    requires 0 < n <= |u|
    requires forall k :: 0 <= k < n - 1 ==> u[k] != '\n'
    requires n < |u| ==> u[n - 1] == '\n'
    ensures LineLength(u) == n
  {
    if u[0] != '\n' && |u| > 1 {
      LineLengthUnique(u[1..], n - 1);
    }
  }

  /** `r` is what `if m: urls = urls[:m]` leaves of `all`: a prefix, all of
      it for 0, the first `min(m, |all|)` entries for a positive `m`, and all
      but the last `-m` entries for a negative one. */
  ghost predicate CappedFrom<T>(r: seq<T>, all: seq<T>, m: int) {
    && |r| <= |all| && r == all[..|r|]
    && (m == 0 ==> r == all)
    && (m > 0 ==> |r| == (if m < |all| then m else |all|))
    && (m < 0 ==> |r| == (if |all| + m > 0 then |all| + m else 0))
  }

  /** The URL list `run` loops over, or the error that ends the run before
      the loop (the failed download, parse or file open). */
  function Resolve(source: Source, format: (string, int) -> string): (r: Result<seq<string>>)
    ensures r.Err? <==> (source.SitemapSource? && source.locs.Err?) || (source.ListSource? && source.contents.Err?)
    ensures r.Ok? && source.RangeSource? ==>
              && |r.value| == (if source.start <= source.end then source.end - source.start + 1 else 0)
              && forall i :: 0 <= i < |r.value| ==> r.value[i] == format(source.template, source.start + i)
    ensures r.Ok? && source.SitemapSource? ==> CappedFrom(r.value, source.locs.value, source.maxUrls)
    ensures r.Ok? && source.ListSource? ==> CappedFrom(r.value, FileUrls(source.contents.value), source.maxUrls)
  {
    match source
    case RangeSource(template, start, end) => Ok(RangeUrls(template, start, end, format))
    case SitemapSource(locs, m) =>
      if locs.Err? then Err(locs.error) else Ok(Cap(locs.value, m))
    case ListSource(contents, m) =>
      if contents.Err? then Err(contents.error) else Ok(Cap(FileUrls(contents.value), m))
  }
}
