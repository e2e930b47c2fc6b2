/** String helpers the script borrows from Python: `str.strip`, `str.isspace`,
    and the way a text-mode file is cut into lines. */
module Text {

  /** Python's `str.isspace` on one character: the ASCII controls TAB..CR and
      FS..US, SPACE, NEL, NO-BREAK SPACE and the Unicode space separators and
      line/paragraph separators. `str.strip()` with no argument strips these. */
  predicate IsPySpace(c: char) {
    var n := c as int;
    || 0x09 <= n <= 0x0D
    || 0x1C <= n <= 0x20
    || n == 0x85 || n == 0xA0 || n == 0x1680
    || 0x2000 <= n <= 0x200A
    || n == 0x2028 || n == 0x2029 || n == 0x202F || n == 0x205F || n == 0x3000
  }

  /** Number of leading characters of `s` that satisfy `p`. */
  function LeadLength(s: string, p: char -> bool): (n: nat)
    ensures n <= |s|
    ensures forall k :: 0 <= k < n ==> p(s[k])
    ensures n < |s| ==> !p(s[n])
  {
    if |s| == 0 || !p(s[0]) then 0 else 1 + LeadLength(s[1..], p)
  }

  /** Number of trailing characters of `s` that satisfy `p`. */
  function TrailLength(s: string, p: char -> bool): (n: nat)
    ensures n <= |s|
    ensures forall k :: |s| - n <= k < |s| ==> p(s[k])
    ensures n < |s| ==> !p(s[|s| - 1 - n])
  {
    if |s| == 0 || !p(s[|s| - 1]) then 0 else 1 + TrailLength(s[..|s| - 1], p)
  }

  /** `r` is what is left of `s`, starting at index `i`, once every leading and
      trailing character satisfying `p` is removed: everything before and after
      `r` satisfies `p`, and `r` neither starts nor ends with such a character. */
  ghost predicate StrippedAt(s: string, p: char -> bool, i: int, r: string) {
    && 0 <= i && i + |r| <= |s|
    && r == s[i..i + |r|]
    && (forall k :: 0 <= k < i ==> p(s[k]))
    && (forall k :: i + |r| <= k < |s| ==> p(s[k]))
    && (|r| > 0 ==> !p(r[0]) && !p(r[|r| - 1]))
  }

  /** Python's `s.strip(chars)`, with the stripped characters given as `p`. */
  function Strip(s: string, p: char -> bool): (r: string)
    ensures exists i :: StrippedAt(s, p, i, r)
    ensures |r| == 0 <==> forall k :: 0 <= k < |s| ==> p(s[k])
    ensures forall k :: 0 <= k < |r| ==> r[k] in s
    ensures |r| > 0 ==> !p(r[0]) && !p(r[|r| - 1])
  {
    var i := LeadLength(s, p);
    var t := s[i..];
    StripCut(s, p);
    t[..|t| - TrailLength(t, p)]
  }

  /** The cut `Strip` makes: after the leading run and before the trailing
      run of `t = s[i..]`. */
  lemma StripCut(s: string, p: char -> bool)
    ensures var i := LeadLength(s, p);
      var t := s[i..];
      var r := t[..|t| - TrailLength(t, p)];
      && StrippedAt(s, p, i, r)
      && (|r| == 0 <==> forall k :: 0 <= k < |s| ==> p(s[k]))
      && (forall k :: 0 <= k < |r| ==> r[k] == s[i + k])
  {
    StripCutAt(s, p);
    StripCutEmpty(s, p);
  }

  lemma StripCutAt(s: string, p: char -> bool)
    ensures var i := LeadLength(s, p);
      var t := s[i..];
      var r := t[..|t| - TrailLength(t, p)];
      && StrippedAt(s, p, i, r)
      && (forall k :: 0 <= k < |r| ==> r[k] == s[i + k])
  {
    StripCutSlice(s, p);
    StripCutTail(s, p);
    StripCutEdges(s, p);
  }

  /** The cut is a slice of `s` starting at the leading run's length. */
  lemma StripCutSlice(s: string, p: char -> bool)
    ensures var i := LeadLength(s, p);
      var t := s[i..];
      var r := t[..|t| - TrailLength(t, p)];
      && i + |r| <= |s|
      && r == s[i..i + |r|]
      && (forall k :: 0 <= k < |r| ==> r[k] == s[i + k])
  {
  }

  /** Everything after the cut satisfies `p`. */
  lemma StripCutTail(s: string, p: char -> bool)
    ensures var i := LeadLength(s, p);
      var t := s[i..];
      forall k :: i + |t| - TrailLength(t, p) <= k < |s| ==> p(s[k])
  {
    var i := LeadLength(s, p);
    var t := s[i..];
    var n := TrailLength(t, p);
    forall k | i + |t| - n <= k < |s|
      ensures p(s[k])
    {
      assert s[k] == t[k - i];
    }
  }

  /** What the cut keeps neither starts nor ends with a character
      satisfying `p`. */
  lemma StripCutEdges(s: string, p: char -> bool)
    ensures var i := LeadLength(s, p);
      var t := s[i..];
      var r := t[..|t| - TrailLength(t, p)];
      |r| > 0 ==> !p(r[0]) && !p(r[|r| - 1])
  {
    var i := LeadLength(s, p);
    var t := s[i..];
    var n := TrailLength(t, p);
    var r := t[..|t| - n];
    if |r| > 0 {
      assert !p(r[0]) by {
        assert r[0] == t[0] == s[i];
      }
      assert !p(r[|r| - 1]) by {
        assert |r| - 1 == |t| - 1 - n;
        assert r[|r| - 1] == t[|t| - 1 - n];
      }
    }
  }

  lemma StripCutEmpty(s: string, p: char -> bool)
    ensures var i := LeadLength(s, p);
      var t := s[i..];
      |t| - TrailLength(t, p) == 0 <==> forall k :: 0 <= k < |s| ==> p(s[k])
  {
    var i := LeadLength(s, p);
    var t := s[i..];
    var n := TrailLength(t, p);
    if i < |s| {
      assert n < |t|;
      assert !p(s[i]);
    } else {
      assert |t| == 0;
    }
  }

  /** The stripped form is unique: whichever cut satisfies `StrippedAt`, it
      leaves the same string. */
  lemma StrippedUnique(s: string, p: char -> bool, i: int, r: string, j: int, q: string)
    requires StrippedAt(s, p, i, r)
    requires StrippedAt(s, p, j, q)
    ensures r == q
  {
    assert |r| > 0 ==> s[i] == r[0] && s[i + |r| - 1] == r[|r| - 1];
    assert |q| > 0 ==> s[j] == q[0] && s[j + |q| - 1] == q[|q| - 1];
    assert |r| > 0 <==> |q| > 0;
    assert |r| > 0 ==> i == j && |r| == |q|;
  }

  /** `Strip` is the one function meeting the `StrippedAt` description. */
  lemma StripIsStrippedAt(s: string, p: char -> bool, i: int, r: string)
    requires StrippedAt(s, p, i, r)
    ensures Strip(s, p) == r
  {
    var q := Strip(s, p);
    var j :| StrippedAt(s, p, j, q);
    StrippedUnique(s, p, i, r, j, q);
  }

  /** A string with no `p` character at either end is its own stripped form. */
  lemma StripKeepsTrimmed(s: string, p: char -> bool)
    requires |s| > 0 ==> !p(s[0]) && !p(s[|s| - 1])
    ensures Strip(s, p) == s
  {
    assert s[0..|s|] == s;
    StripIsStrippedAt(s, p, 0, s);
  }

  /** Stripping twice is stripping once. */
  lemma StripIdempotent(s: string, p: char -> bool)
    ensures Strip(Strip(s, p), p) == Strip(s, p)
  {
    var r := Strip(s, p);
    var i :| StrippedAt(s, p, i, r);
    StripKeepsTrimmed(r, p);
  }

  /** What the character at the front of `t` is read as in text mode: a
      `'\r'` right before a `'\n'` disappears, the `'\n'` standing for the
      pair; a lone `'\r'` becomes `'\n'`; anything else is itself. */
  function ReadHead(t: string): string
    requires |t| > 0
  {
    if t[0] != '\r' then [t[0]] else if |t| > 1 && t[1] == '\n' then [] else "\n"
  }

  /** Python's universal-newline translation on reading a text file: every
      `"\r\n"` and every lone `"\r"` becomes `"\n"`. */
  function TranslateNewlines(t: string): (u: string)
    ensures forall k :: 0 <= k < |u| ==> u[k] != '\r'
    ensures |u| <= |t|
  {
    if |t| == 0 then [] else ReadHead(t) + TranslateNewlines(t[1..])
  }

  /** Text without a carriage return is read back unchanged. */
  lemma {:induction false} TranslateNewlinesPlain(t: string)
    requires forall k :: 0 <= k < |t| ==> t[k] != '\r'
    ensures TranslateNewlines(t) == t
  {
    if |t| > 0 {
      TranslateNewlinesPlain(t[1..]);
      assert [t[0]] + t[1..] == t;
    }
  }

  /** The translation works piece by piece: reading two stretches of text
      one after the other gives the two translations in a row, except when
      a `"\r\n"` pair is cut in the middle. */
  lemma {:induction false} TranslateNewlinesConcat(x: string, y: string)
    requires !(|x| > 0 && x[|x| - 1] == '\r' && |y| > 0 && y[0] == '\n')
    ensures TranslateNewlines(x + y) == TranslateNewlines(x) + TranslateNewlines(y)
    decreases |x|
  {
    if |x| == 0 {
      assert x + y == y;
    } else {
      var xy := x + y;
      assert xy[1..] == x[1..] + y;
      assert ReadHead(xy) == ReadHead(x);
      TranslateNewlinesConcat(x[1..], y);
    }
  }

  /** The translation read one step at a time: `"\r\n"` gives one `'\n'`, so
      does a `'\r'` that is not followed by `'\n'`, and any other character
      is read as itself. */
  lemma TranslateNewlinesStep(c: char, rest: string)
    ensures c != '\r' ==> TranslateNewlines([c] + rest) == [c] + TranslateNewlines(rest)
    ensures TranslateNewlines("\r\n" + rest) == "\n" + TranslateNewlines(rest)
    ensures (|rest| == 0 || rest[0] != '\n') ==> TranslateNewlines("\r" + rest) == "\n" + TranslateNewlines(rest)
  {
    TranslateNewlinesEnds(c);
    TranslateNewlinesConcat("\r\n", rest);
    if c != '\r' {
      TranslateNewlinesConcat([c], rest);
    }
    if |rest| == 0 || rest[0] != '\n' {
      TranslateNewlinesConcat("\r", rest);
    }
  }

  /** The three line ends a text-mode read recognises all come out as
      `"\n"`; any other character is read as itself. */
  lemma TranslateNewlinesEnds(c: char)
    ensures TranslateNewlines("\r\n") == "\n"
    ensures TranslateNewlines("\r") == "\n"
    ensures TranslateNewlines("\n") == "\n"
    ensures c != '\r' ==> TranslateNewlines([c]) == [c]
  {
    assert "\r\n"[2..] == [];
    assert "\r"[1..] == [];
    assert "\n"[1..] == [];
    assert [c][1..] == [];
  }

  /** Length of the first line of `u`, its `'\n'` included when it has one. */
  function LineLength(u: string): (n: nat)
    requires |u| > 0
    ensures 0 < n <= |u|
    ensures forall k :: 0 <= k < n - 1 ==> u[k] != '\n'
    ensures n < |u| ==> u[n - 1] == '\n'
  {
    if u[0] == '\n' || |u| == 1 then 1 else 1 + LineLength(u[1..])
  }

  /** The lines a text-mode file iteration yields: each keeps its `'\n'`, and
      a last line without one is yielded as it is. */
  function SplitLines(u: string): (lines: seq<string>)
    decreases |u|
  {
    if |u| == 0 then [] else
      var n := LineLength(u);
      [u[..n]] + SplitLines(u[n..])
  }

  /** Concatenation of a sequence of strings. */
  function Concat(lines: seq<string>): string {
    if |lines| == 0 then "" else lines[0] + Concat(lines[1..])
  }

  /** Well-formed lines: none empty, `'\n'` only as the last character of a
      line, and every line but the last ends with it. */
  ghost predicate WellFormedLines(lines: seq<string>) {
    && (forall i :: 0 <= i < |lines| ==> |lines[i]| > 0)
    && (forall i, k :: 0 <= i < |lines| && 0 <= k < |lines[i]| - 1 ==> lines[i][k] != '\n')
    && (forall i :: 0 <= i < |lines| - 1 ==> lines[i][|lines[i]| - 1] == '\n')
  }

  /** Putting a well-formed first line in front of well-formed lines keeps
      them well formed. */
  lemma WellFormedCons(line: string, rest: seq<string>)
    requires |line| > 0
    requires forall k :: 0 <= k < |line| - 1 ==> line[k] != '\n'
    requires |rest| > 0 ==> line[|line| - 1] == '\n'
    requires WellFormedLines(rest)
    ensures WellFormedLines([line] + rest)
  {
    var lines := [line] + rest;
    forall i | 1 <= i < |lines|
      ensures lines[i] == rest[i - 1]
    {
    }
  }

  /** Splitting loses nothing: the lines put back together are the text. */
  lemma {:induction false} SplitLinesRoundTrip(u: string)
    ensures Concat(SplitLines(u)) == u
    decreases |u|
  {
    if |u| > 0 {
      var n := LineLength(u);
      var rest := SplitLines(u[n..]);
      SplitLinesRoundTrip(u[n..]);
      assert SplitLines(u) == [u[..n]] + rest;
      assert ([u[..n]] + rest)[1..] == rest;
      assert u[..n] + u[n..] == u;
    }
  }

  /** Splitting cuts exactly after each `'\n'`: no line is empty, none holds
      a `'\n'` before its end, and every line but the last ends with one. */
  lemma {:induction false} SplitLinesWellFormed(u: string)
    ensures WellFormedLines(SplitLines(u))
    decreases |u|
  {
    if |u| > 0 {
      var n := LineLength(u);
      var rest := SplitLines(u[n..]);
      SplitLinesWellFormed(u[n..]);
      assert SplitLines(u) == [u[..n]] + rest;
      assert |rest| > 0 ==> n < |u|;
      WellFormedCons(u[..n], rest);
    }
  }

  /** Two sequence facts the solver finds costly inside larger proofs. */
  lemma DropFirstAppend<T>(a: seq<T>, b: seq<T>)
    requires |a| > 0
    ensures (a + b)[0] == a[0] && (a + b)[1..] == a[1..] + b
  {
  }

  lemma AppendAssoc<T>(x: seq<T>, y: seq<T>, z: seq<T>)
    ensures x + y + z == x + (y + z)
  {
  }
}
