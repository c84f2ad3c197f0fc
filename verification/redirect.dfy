/** `getSafeRedirect` of `lib/auth/redirect.ts`: the `redirect` query
    parameter of the login and signup pages is followed only when its path
    is one of five pages of the site. */
module Redirect {
  import opened Wrappers
  import opened Strings

  /** `ALLOWED_REDIRECT_PATHS`. */
  const ALLOWED: set<string> := {"/", "/game", "/leaderboard", "/stats", "/how-to-play"}

  const FALLBACK: string := "/game"

  /** `trimmed.split("?")[0].split("#")[0]`. */
  function Pathname(trimmed: string): (path: string)
    ensures StartsWith(trimmed, path)
    ensures '?' !in path && '#' !in path
  {
    var beforeQuery := BeforeFirst(trimmed, '?');
    var path := BeforeFirst(beforeQuery, '#');
    assert '?' !in path by {
      forall k | 0 <= k < |path| ensures path[k] != '?' {
        assert path[k] == beforeQuery[k];
      }
    }
    assert trimmed[..|path|] == beforeQuery[..|path|];
    path
  }

  /** The trimmed text is a path on this site: it starts with one slash,
      not two. */
  predicate IsLocalPath(trimmed: string) {
    StartsWith(trimmed, "/") && !StartsWith(trimmed, "//")
  }

  /** `getSafeRedirect(redirect)`; `None` is `null`. */
  function GetSafeRedirect(redirect: Option<string>): (r: string)
    ensures r in ALLOWED
    ensures redirect.None? || redirect == Some("") ==> r == FALLBACK
    ensures redirect.Some? && redirect.value != "" ==>
              var trimmed := Trim(redirect.value);
              r == if IsLocalPath(trimmed) && Pathname(trimmed) in ALLOWED then Pathname(trimmed) else FALLBACK
  {
    if redirect.None? || redirect.value == "" then FALLBACK
    else
      var trimmed := Trim(redirect.value);
      if !IsLocalPath(trimmed) then FALLBACK
      else
        var path := Pathname(trimmed);
        if path in ALLOWED then path else FALLBACK
  }

  /** A path without surrounding whitespace, query or fragment. */
  predicate PlainPath(path: string) {
    && path != [] && !IsWhitespace(path[0]) && !IsWhitespace(path[|path| - 1])
    && '?' !in path && '#' !in path
  }

  /** One leading slash, not two. */
  lemma LocalPath(path: string)
    requires path != [] && path[0] == '/' && (|path| == 1 || path[1] != '/')
    ensures IsLocalPath(path)
  {
    assert path[..1] == "/";
  }

  lemma NotLocalPath(path: string)
    requires path == [] || path[0] != '/' || (|path| >= 2 && path[1] == '/')
    ensures !IsLocalPath(path)
  {
    if |path| >= 2 && path[0] == '/' && path[1] == '/' {
      assert path[..2] == "//";
    }
  }

  /** Input without surrounding whitespace is checked as it stands. */
  lemma Untrimmed(text: string)
    requires text != [] && !IsWhitespace(text[0]) && !IsWhitespace(text[|text| - 1])
    ensures GetSafeRedirect(Some(text))
            == if IsLocalPath(text) && Pathname(text) in ALLOWED then Pathname(text) else FALLBACK
  {
  }

  /** A plain local path is kept exactly when it is allowed. */
  lemma PlainPathChecked(path: string)
    requires PlainPath(path) && IsLocalPath(path)
    ensures GetSafeRedirect(Some(path)) == if path in ALLOWED then path else FALLBACK
  {
    Untrimmed(path);
    BeforeFirstAbsent(path, '?');
    BeforeFirstAbsent(path, '#');
  }

  /** Every allowed path is returned unchanged. */
  lemma AllowedPathsKept(path: string)
    requires path in ALLOWED
    ensures GetSafeRedirect(Some(path)) == path
  {
    assert PlainPath(path) by {
      if path == "/" {
      } else if path == "/game" {
      } else if path == "/leaderboard" {
      } else if path == "/stats" {
      } else {
        assert path == "/how-to-play";
      }
    }
    LocalPath(path);
    PlainPathChecked(path);
  }

  lemma {:induction false} BeforeFirstAbsent(s: string, sep: char)
    requires sep !in s
    ensures BeforeFirst(s, sep) == s
  {
    if s != [] {
      BeforeFirstAbsent(s[1..], sep);
      assert s == [s[0]] + s[1..];
    }
  }

  /** Applying the function to its own result changes nothing. */
  lemma GetSafeRedirectIdempotent(redirect: Option<string>)
    ensures GetSafeRedirect(Some(GetSafeRedirect(redirect))) == GetSafeRedirect(redirect)
  {
    AllowedPathsKept(GetSafeRedirect(redirect));
  }

  /** A result other than the fallback is the path of the input: the trimmed
      input starts with it and goes on, if at all, with `?` or `#`. */
  lemma RedirectComesFromInput(redirect: Option<string>)
    requires GetSafeRedirect(redirect) != FALLBACK
    ensures redirect.Some?
    ensures var trimmed := Trim(redirect.value);
            var r := GetSafeRedirect(redirect);
            && IsLocalPath(trimmed) && StartsWith(trimmed, r)
            && (|r| < |trimmed| ==> trimmed[|r|] == '?' || trimmed[|r|] == '#')
  {
    var trimmed := Trim(redirect.value);
    var beforeQuery := BeforeFirst(trimmed, '?');
    var path := BeforeFirst(beforeQuery, '#');
    if |path| < |trimmed| && |path| == |beforeQuery| {
      assert trimmed[|path|] == '?';
    }
    if |path| < |beforeQuery| {
      assert beforeQuery[|path|] == trimmed[|path|];
    }
  }

  /** A protocol-relative URL is refused. */
  lemma ProtocolRelativeRefused()
    ensures GetSafeRedirect(Some("//evil.com")) == "/game"
  {
    var e := "//evil.com";
    assert !IsWhitespace(e[0]) && !IsWhitespace(e[|e| - 1]);
    Untrimmed(e);
    NotLocalPath(e);
  }

  /** A URL of another host is refused. */
  lemma OtherHostRefused()
    ensures GetSafeRedirect(Some("https://evil.com")) == "/game"
  {
    var h := "https://evil.com";
    assert !IsWhitespace(h[0]) && !IsWhitespace(h[|h| - 1]);
    Untrimmed(h);
    NotLocalPath(h);
  }

  /** A path that only starts like an allowed one is refused. */
  lemma LookalikeRefused(input: string)
    requires input == "/game//evil.com"
    ensures GetSafeRedirect(Some(input)) == "/game"
  {
    assert PlainPath(input) && IsLocalPath(input) by {
      assert !IsWhitespace(input[0]) && !IsWhitespace(input[|input| - 1]);
      LocalPath(input);
    }
    assert input !in ALLOWED by {
      assert |input| == 15;
    }
    PlainPathChecked(input);
  }

  /** A path off the list is refused. */
  lemma UnlistedRefused(input: string)
    requires input == "/admin"
    ensures GetSafeRedirect(Some(input)) == "/game"
  {
    assert PlainPath(input) && IsLocalPath(input) by {
      assert !IsWhitespace(input[0]) && !IsWhitespace(input[|input| - 1]);
      LocalPath(input);
    }
    assert input !in ALLOWED by {
      assert |input| == 6;
    }
    PlainPathChecked(input);
  }

  /** Nothing, or the empty string, gives the fallback. */
  lemma MissingRedirect()
    ensures GetSafeRedirect(None) == "/game" && GetSafeRedirect(Some("")) == "/game"
  {
  }

  lemma {:induction false} BeforeFirstAfter(a: string, b: string, sep: char)
    requires sep !in a
    ensures BeforeFirst(a + b, sep) == a + BeforeFirst(b, sep)
  {
    if a != [] {
      BeforeFirstAfter(a[1..], b, sep);
      assert a[0] in a;
      assert (a + b)[1..] == a[1..] + b;
      assert a == [a[0]] + a[1..];
    } else {
      assert a + b == b;
    }
  }

  /** A query or fragment after a plain path does not change the verdict:
      only the path is checked. */
  lemma SuffixIgnored(path: string, suffix: string)
    requires PlainPath(path) && IsLocalPath(path)
    requires suffix != [] && (suffix[0] == '?' || suffix[0] == '#') && !IsWhitespace(suffix[|suffix| - 1])
    ensures GetSafeRedirect(Some(path + suffix)) == if path in ALLOWED then path else FALLBACK
  {
    var input := path + suffix;
    assert input[0] == path[0] && input[|input| - 1] == suffix[|suffix| - 1];
    Untrimmed(input);
    assert path[..1] == "/";
    assert |path| >= 2 ==> path[1] != '/';
    assert |path| == 1 ==> input[1] == suffix[0];
    LocalPath(input);
    BeforeFirstAfter(path, suffix, '?');
    var rest := BeforeFirst(suffix, '?');
    if suffix[0] == '#' {
      assert rest != [] && rest[0] == '#';
      BeforeFirstAfter(path, rest, '#');
    } else {
      BeforeFirstAbsent(path, '#');
    }
  }

  /** The input of the function's tests with a fragment. */
  lemma FragmentExample()
    ensures GetSafeRedirect(Some("/stats" + "#section")) == "/stats"
  {
    LocalPath("/stats");
    SuffixIgnored("/stats", "#section");
  }

  /** The input of the function's tests with a query. */
  lemma QueryExample()
    ensures GetSafeRedirect(Some("/game" + "?demo=1")) == "/game"
  {
    LocalPath("/game");
    SuffixIgnored("/game", "?demo=1");
  }
}
