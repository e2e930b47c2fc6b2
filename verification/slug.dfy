/** `slugify`: the filesystem-safe name fragment derived from a URL. */
module Slug {
  import opened Text

  /** The components `urlparse` splits a URL into that the slug uses. The
      split itself is library code and arrives here already made. */
  datatype UrlParts = UrlParts(netloc: string, path: string, query: string)

  /** The characters the regular expression `[^a-zA-Z0-9\-._]` does NOT match. */
  predicate IsSlugChar(c: char) {
    || 'a' <= c <= 'z'
    || 'A' <= c <= 'Z'
    || '0' <= c <= '9'
    || c == '-' || c == '.' || c == '_'
  }

  predicate IsUnderscore(c: char) {
    c == '_'
  }

  /** A character that comes out of sanitising as `'_'`. */
  predicate Blank(c: char) {
    !IsSlugChar(c) || c == '_'
  }

  /** The text the slug is cut from: host, path and, when the query is not
      empty, `'?'` followed by the query. */
  function Joined(u: UrlParts): string {
    u.netloc + u.path + (if |u.query| > 0 then "?" + u.query else "")
  }

  /** The `re.sub` step: each character outside the class becomes one `'_'`. */
  function Sanitize(s: string): (r: string)
    ensures |r| == |s|
    ensures forall k :: 0 <= k < |s| ==> (IsSlugChar(s[k]) ==> r[k] == s[k])
    ensures forall k :: 0 <= k < |s| ==> (!IsSlugChar(s[k]) ==> r[k] == '_')
    ensures forall c :: c in r ==> IsSlugChar(c)
  {
    if |s| == 0 then [] else [if IsSlugChar(s[0]) then s[0] else '_'] + Sanitize(s[1..])
  }

  /** Sanitising works character by character, so it distributes over `+`. */
  lemma SanitizeConcat(a: string, b: string)
    ensures Sanitize(a + b) == Sanitize(a) + Sanitize(b)
  {
  }

  /** Sanitised text only holds slug characters, and a string of slug
      characters is left alone. */
  lemma SanitizeFixesSlugText(s: string)
    ensures forall k :: 0 <= k < |s| ==> IsSlugChar(Sanitize(s)[k])
    ensures (forall k :: 0 <= k < |s| ==> IsSlugChar(s[k])) ==> Sanitize(s) == s
  {
  }

  /** Sanitising twice is sanitising once. */
  lemma SanitizeIdempotent(s: string)
    ensures Sanitize(Sanitize(s)) == Sanitize(s)
  {
    SanitizeFixesSlugText(s);
    SanitizeFixesSlugText(Sanitize(s));
  }

  /** `s.strip('_') or 'page'` applied to the sanitised text. */
  function SlugText(s: string): (r: string)
    ensures |r| > 0
    ensures r[0] != '_' && r[|r| - 1] != '_'
    ensures forall k :: 0 <= k < |r| ==> IsSlugChar(r[k])
  {
    StrippedSlugChars(s);
    var t := Strip(Sanitize(s), IsUnderscore);
    if |t| == 0 then "page" else t
  }

  /** Stripping underscores off sanitised text leaves slug characters only. */
  lemma StrippedSlugChars(s: string)
    ensures var t := Strip(Sanitize(s), IsUnderscore);
      forall k :: 0 <= k < |t| ==> IsSlugChar(t[k])
  {
    var u := Sanitize(s);
    var t := Strip(u, IsUnderscore);
    forall k | 0 <= k < |t|
      ensures IsSlugChar(t[k])
    {
      assert t[k] in u;
    }
  }

  /** The slug of a parsed URL, as `slugify` computes it. */
  function Slugify(u: UrlParts): (r: string)
    ensures |r| > 0
  {
    SlugText(Joined(u))
  }

  /** The fallback is taken exactly when every character sanitises to `'_'`;
      otherwise the slug is the sanitised text with its `'_'` edges removed. */
  lemma SlugTextCases(s: string)
    ensures (forall k :: 0 <= k < |s| ==> Blank(s[k])) ==> SlugText(s) == "page"
    ensures (exists k :: 0 <= k < |s| && !Blank(s[k])) ==>
              exists i :: StrippedAt(Sanitize(s), IsUnderscore, i, SlugText(s))
  {
    var z := Sanitize(s);
    var t := Strip(z, IsUnderscore);
    var i :| StrippedAt(z, IsUnderscore, i, t);
    if exists k :: 0 <= k < |s| && !Blank(s[k]) {
      var k :| 0 <= k < |s| && !Blank(s[k]);
      assert !IsUnderscore(z[k]);
      assert |t| > 0;
      assert SlugText(s) == t;
    } else {
      assert forall k :: 0 <= k < |z| ==> IsUnderscore(z[k]);
      assert |t| == 0;
    }
  }

  /** Slugifying a slug gives it back. */
  lemma SlugTextIdempotent(s: string)
    ensures SlugText(SlugText(s)) == SlugText(s)
  {
    var r := SlugText(s);
    SanitizeFixesSlugText(r);
    StripKeepsTrimmed(r, IsUnderscore);
  }

  /** A `'?'` or a `'_'` in front of some text sanitises to a `'_'` in front
      of the sanitised text. */
  lemma SanitizeMarked(q: string)
    ensures Sanitize("?" + q) == "_" + Sanitize(q)
    ensures Sanitize("_" + q) == "_" + Sanitize(q)
  {
    assert ("?" + q)[1..] == q;
    assert ("_" + q)[1..] == q;
  }

  /** The `'?'` put before a non-empty query is always one of the characters
      the sanitiser replaces, at the position just after host and path. */
  lemma QueryMarkSanitized(u: UrlParts)
    ensures |u.query| > 0 ==>
      Sanitize(Joined(u)) == Sanitize(u.netloc) + Sanitize(u.path) + ("_" + Sanitize(u.query))
    ensures |u.query| == 0 ==>
      Sanitize(Joined(u)) == Sanitize(u.netloc) + Sanitize(u.path)
  {
    var host := u.netloc + u.path;
    SanitizeConcat(u.netloc, u.path);
    if |u.query| > 0 {
      var tail := "?" + u.query;
      assert Joined(u) == host + tail;
      SanitizeConcat(host, tail);
      SanitizeMarked(u.query);
    } else {
      assert Joined(u) == host;
    }
  }

  /** `slugify` is not one-to-one: a query, and the same text added to the
      path after a `'_'`, give one slug. Two such URLs captured within the
      same second are written to the same file, the second overwriting the
      first. */
  lemma QueryPathCollision(u: UrlParts)
    requires |u.query| > 0
    ensures Slugify(u) == Slugify(UrlParts(u.netloc, u.path + ("_" + u.query), ""))
  {
    var v := UrlParts(u.netloc, u.path + ("_" + u.query), "");
    var n, p, q := Sanitize(u.netloc), Sanitize(u.path), Sanitize(u.query);
    assert Sanitize(Joined(u)) == n + p + ("_" + q) by {
      QueryMarkSanitized(u);
    }
    assert Sanitize(Joined(v)) == n + Sanitize(v.path) by {
      QueryMarkSanitized(v);
    }
    assert Sanitize(v.path) == p + ("_" + q) by {
      SanitizeConcat(u.path, "_" + u.query);
      SanitizeMarked(u.query);
    }
    assert n + p + ("_" + q) == n + (p + ("_" + q)) by {
      AppendAssoc(n, p, "_" + q);
    }
    SameSanitizedSameSlug(Joined(u), Joined(v));
  }

  /** The slug only depends on the sanitised text. */
  lemma SameSanitizedSameSlug(s1: string, s2: string)
    requires Sanitize(s1) == Sanitize(s2)
    ensures SlugText(s1) == SlugText(s2)
  {
  }

  /** A URL with an empty host, path and query, such as `http://`, gets the
      fallback slug. */
  lemma EmptyUrlSlug()
    ensures Slugify(UrlParts("", "", "")) == "page"
  {
    assert Joined(UrlParts("", "", "")) == "";
  }
}
