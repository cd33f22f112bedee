/** The string helpers of the audiobook pipeline (epub2audiobook.py): the file-name
    sanitiser, fragment removal on hrefs, the text cleanup of `clearify_html` and the TOC
    choice of `get_toc`. */
module AudioText {
  import opened Wrappers
  import opened Text
  import opened Patterns

  // ---------------------------------------------------------------------------
  // replace_invalid_characters

  /** The class `[\/:*?"<>|]`: `\/` is an escaped slash, so backslash is not in it. */
  predicate IsInvalid(c: char) {
    c == '/' || c == ':' || c == '*' || c == '?' || c == '"' || c == '<' || c == '>' || c == '|'
  }

  /** `re.sub(r'[\/:*?"<>|]', '_', s)`. */
  function ReplaceInvalidCharacters(s: string): (r: string)
    ensures |r| == |s|
    ensures forall i :: 0 <= i < |s| ==> r[i] == if IsInvalid(s[i]) then '_' else s[i]
  {
    if |s| == 0 then "" else [if IsInvalid(s[0]) then '_' else s[0]] + ReplaceInvalidCharacters(s[1..])
  }

  /** No character of the class is left. */
  lemma SanitizedIsValid(s: string)
    ensures forall i :: 0 <= i < |s| ==> !IsInvalid(ReplaceInvalidCharacters(s)[i])
  {
  }

  /** Sanitising twice is sanitising once. */
  lemma SanitizeIdempotent(s: string)
    ensures ReplaceInvalidCharacters(ReplaceInvalidCharacters(s)) == ReplaceInvalidCharacters(s)
  {
    var r := ReplaceInvalidCharacters(s);
    assert forall i :: 0 <= i < |r| ==> ReplaceInvalidCharacters(r)[i] == r[i];
  }

  /** A backslash survives: `a\b` stays `a\b`. */
  lemma SanitizeKeepsBackslash()
    ensures ReplaceInvalidCharacters("a\\b") == "a\\b"
    ensures ReplaceInvalidCharacters("a/b") == "a_b"
  {
    assert ReplaceInvalidCharacters("a\\b")[1] == '\\';
    assert ReplaceInvalidCharacters("a/b")[1] == '_';
  }

  /** A sanitised non-empty name joined to a directory stays one component below it: it
      has no `/`, so `os.path.join` neither restarts at the root nor splits it. */
  lemma SanitizedJoin(dir: string, name: string)
    requires |name| > 0 && |dir| > 0 && dir[|dir| - 1] != '/'
    ensures PathJoin(dir, ReplaceInvalidCharacters(name)) == dir + "/" + ReplaceInvalidCharacters(name)
    ensures '/' !in ReplaceInvalidCharacters(name)
  {
    var r := ReplaceInvalidCharacters(name);
    assert r[0] != '/';
    forall i | 0 <= i < |r| ensures r[i] != '/' {
    }
  }

  // ---------------------------------------------------------------------------
  // remove_url_fragment

  /** `s.split(c, 1)[0]`: the text before the first `c`, or all of `s` when it has none. */
  function Before(s: string, c: char): (r: string)
    ensures r <= s && c !in r
    ensures c in s <==> |r| < |s|
    ensures c in s ==> s[|r|] == c
  {
    if c in s then s[..FirstIndex(s, c)] else s
  }

  /** `s.split(c, 1)[1]`: the text after the first `c`, or "" when there is none. */
  function After(s: string, c: char): (r: string)
    ensures c in s ==> s == Before(s, c) + [c] + r
    ensures c !in s ==> r == ""
  {
    if c in s then s[FirstIndex(s, c) + 1..] else ""
  }

  /** The parts `urlparse` gives a relative href (one with neither a scheme nor a `//`
      network location): the fragment is cut off at the first `#`, then the query at the
      first `?` of what is left. */
  datatype Url = Url(path: string, query: string, fragment: string)

  function UrlParse(url: string): (u: Url)
    ensures '?' !in u.path && '#' !in u.path && '#' !in u.query
  {
    var rest := Before(url, '#');
    var u := Url(Before(rest, '?'), After(rest, '?'), After(url, '#'));
    assert '#' !in u.query by {
      if '?' in rest {
        assert rest == u.path + "?" + u.query;
      }
    }
    u
  }

  /** The parts put back together, with the `?` and `#` that were found, give the href. */
  lemma UrlParseJoin(url: string)
    ensures var u := UrlParse(url);
      url == u.path + (if '?' in Before(url, '#') then "?" + u.query else "")
             + (if '#' in url then "#" + u.fragment else "")
  {
    var u := UrlParse(url);
    var rest := Before(url, '#');
    var q := if '?' in rest then "?" + u.query else "";
    var f := if '#' in url then "#" + u.fragment else "";
    RestSplits(rest);
    SplitsAt(url, '#');
    assert url == (u.path + q) + f;
  }

  /** The text before the `#` is the path and, after a `?`, the query. */
  lemma RestSplits(rest: string)
    ensures rest == Before(rest, '?') + (if '?' in rest then "?" + After(rest, '?') else "")
  {
    if '?' in rest {
      assert rest == Before(rest, '?') + ['?'] + After(rest, '?');
    }
  }

  /** A string is the text before its first `c` and, after a `c`, the text following it. */
  lemma SplitsAt(s: string, c: char)
    ensures s == Before(s, c) + (if c in s then [c] + After(s, c) else "")
  {
    if c in s {
      assert s == Before(s, c) + [c] + After(s, c);
    }
  }

  /** `urlunparse` for a relative href: the path, then `?query` and `#fragment` when those
      are non-empty (a non-empty `;params` part is put back between path and query, so it
      stays in the path here). */
  function UrlUnparse(u: Url): string
  {
    u.path + (if u.query != "" then "?" + u.query else "") + (if u.fragment != "" then "#" + u.fragment else "")
  }

  /** `remove_url_fragment` as written: `urlunparse((scheme, netloc, path, params, '', query))`
      passes `''` in the query slot and the query in the fragment slot, so the fragment is
      dropped and a query comes back as the fragment. */
  function RemoveUrlFragment(url: string): (r: string)
    ensures '?' !in url && '#' !in url ==> r == url
    ensures '?' !in Before(url, '#') ==> r == Before(url, '#')
    ensures '#' in r ==> '?' in Before(url, '#')
  {
    var u := UrlParse(url);
    assert '?' !in Before(url, '#') ==> u.path == Before(url, '#') && u.query == "";
    UrlUnparse(Url(u.path, "", u.query))
  }

  /** Splitting at the first `c` of `a + c + rest`, with no `c` in `a`, gives `a` and `rest`. */
  lemma BeforeAfterAt(a: string, c: char, rest: string)
    requires c !in a
    ensures Before(a + [c] + rest, c) == a && After(a + [c] + rest, c) == rest
  {
    var s := a + [c] + rest;
    assert s[..|a|] == a && s[|a|] == c && s[|a| + 1..] == rest;
    FirstIndexAt(s, c, |a|);
  }

  /** A path with a fragment: the fragment goes. */
  lemma RemoveUrlFragmentOfFragment(path: string, fragment: string)
    requires '?' !in path && '#' !in path
    ensures RemoveUrlFragment(path + "#" + fragment) == path
  {
    BeforeAfterAt(path, '#', fragment);
  }

  /** A path with a query: the `?` goes and a non-empty query becomes the fragment. */
  lemma RemoveUrlFragmentOfQuery(path: string, query: string)
    requires '?' !in path && '#' !in path && '#' !in query
    ensures RemoveUrlFragment(path + "?" + query) == path + (if query == "" then "" else "#" + query)
  {
    var b := path + "?" + query;
    assert '#' !in b by {
      assert b == path + ['?'] + query;
    }
    BeforeAfterAt(path, '?', query);
  }

  /** A path with a query and a fragment: the fragment goes, and the query becomes the
      fragment. */
  lemma RemoveUrlFragmentOfBoth(path: string, query: string, fragment: string)
    requires '?' !in path && '#' !in path && '#' !in query
    ensures RemoveUrlFragment(path + "?" + query + "#" + fragment) == path + (if query == "" then "" else "#" + query)
  {
    var b := path + ['?'] + query;
    assert '#' !in b;
    var url := b + ['#'] + fragment;
    assert url == path + "?" + query + "#" + fragment;
    BeforeAfterAt(b, '#', fragment);
    BeforeAfterAt(path, '?', query);
    var u := UrlParse(url);
    assert u.path == path && u.query == query;
  }

  /** The href a relative link was meant to resolve to: every character before the first
      `#`, the query included. */
  function WithoutFragment(url: string): (r: string)
    ensures r <= url && '#' !in r
    ensures '#' in url ==> url[|r|] == '#'
    ensures '#' !in url ==> r == url
  {
    Before(url, '#')
  }

  /** `path#fragment` gives back `path`, a `?query` in it included. */
  lemma WithoutFragmentOf(path: string, fragment: string)
    requires '#' !in path
    ensures WithoutFragment(path + "#" + fragment) == path
  {
    var url := path + "#" + fragment;
    assert url[..|path|] == path && url[|path|] == '#';
    FirstIndexAt(url, '#', |path|);
  }

  /** Removing the fragment twice is removing it once. */
  lemma WithoutFragmentIdempotent(url: string)
    ensures WithoutFragment(WithoutFragment(url)) == WithoutFragment(url)
  {
  }

  /** The code as written agrees with the intended fragment removal exactly when the href
      has no query. */
  lemma RemoveUrlFragmentAsIntended(url: string)
    ensures RemoveUrlFragment(url) == WithoutFragment(url) <==> '?' !in WithoutFragment(url)
  {
  }

  /** A relative href with a non-empty query and no fragment comes back with the query as
      its fragment, where the href itself was meant; a second removal drops the query. */
  lemma RemoveUrlFragmentMovesQuery(path: string, query: string)
    requires '?' !in path && '#' !in path && '#' !in query && query != ""
    ensures RemoveUrlFragment(path + "?" + query) == path + "#" + query
    ensures RemoveUrlFragment(RemoveUrlFragment(path + "?" + query)) == path
    ensures WithoutFragment(path + "?" + query) == path + "?" + query
  {
    var url := path + "?" + query;
    assert '#' !in url by {
      assert url == path + ['?'] + query;
    }
    RemoveUrlFragmentOfQuery(path, query);
    var once := RemoveUrlFragment(url);
    assert once == path + "#" + query;
    RemoveUrlFragmentOfFragment(path, query);
  }

  /** `a.xhtml?q` gives `a.xhtml#q`. */
  lemma RemoveUrlFragmentQueryExample()
    ensures RemoveUrlFragment("a.xhtml?q") == "a.xhtml#q"
    ensures WithoutFragment("a.xhtml?q") == "a.xhtml?q"
  {
    var p: string, q: string := "a.xhtml", "q";
    assert p + "?" + q == "a.xhtml?q" && p + "#" + q == "a.xhtml#q";
    assert '?' !in p && '#' !in p && '#' !in q;
    RemoveUrlFragmentMovesQuery(p, q);
  }

  // ---------------------------------------------------------------------------
  // clearify_html

  /** The two line-break replacements: `\r\n`, then every remaining `\n`, becomes a space. */
  function Unwrap(raw: string): string
  {
    ReplaceAll(ReplaceAll(raw, "\r\n", " "), "\n", " ")
  }

  /** The cleanup applied to `soup.get_text()`: line breaks become spaces, then empty-text
      image links, then empty-text links, are deleted. The two bare `strip()` calls discard
      their results and the final utf-8 encode/decode round trip is the identity on
      strings of Unicode scalar values, so neither appears. */
  function CleanupText(raw: string): string
  {
    RemoveLinks(RemoveLinks(Unwrap(raw), ImageLink), PlainLink)
  }

  /** The cleaned text is one line: it contains no `\n`. */
  lemma CleanupHasNoNewline(raw: string)
    ensures '\n' !in CleanupText(raw)
  {
    var u := Unwrap(raw);
    ReplaceCharRemoves(ReplaceAll(raw, "\r\n", " "), '\n', " ");
    assert "\n" == ['\n'];
    if '\n' in CleanupText(raw) {
      RemoveLinksChars(RemoveLinks(u, ImageLink), PlainLink, '\n');
      RemoveLinksChars(u, ImageLink, '\n');
    }
  }

  /** A `\r\n` line end becomes one space, not two. */
  lemma UnwrapCrLf(a: string, b: string)
    requires '\r' !in a && '\n' !in a
    ensures Unwrap(a + "\r\n" + b) == a + " " + Unwrap(b)
  {
    var s := "\r\n" + b;
    assert a + "\r\n" + b == a + s;
    ReplacePlain(a, s, "\r\n", " ");
    assert "\r\n" <= s && s[2..] == b;
    assert ReplaceAll(s, "\r\n", " ") == " " + ReplaceAll(b, "\r\n", " ");
    var t := ReplaceAll(b, "\r\n", " ");
    assert ReplaceAll(a + s, "\r\n", " ") == (a + " ") + t;
    assert '\n' !in a + " ";
    ReplacePlain(a + " ", t, "\n", " ");
  }

  /** A bare `\n` line end becomes one space too. */
  lemma UnwrapLf(a: string, b: string)
    requires '\r' !in a && '\n' !in a
    ensures Unwrap(a + "\n" + b) == a + " " + Unwrap(b)
  {
    var s := "\n" + b;
    assert a + "\n" + b == a + s;
    ReplacePlain(a, s, "\r\n", " ");
    assert !("\r\n" <= s);
    assert s[1..] == b;
    assert ReplaceAll(s, "\r\n", " ") == "\n" + ReplaceAll(b, "\r\n", " ");
    var t := ReplaceAll(b, "\r\n", " ");
    ReplacePlain(a, "\n" + t, "\n", " ");
    assert ("\n" + t)[1..] == t;
    assert ReplaceAll("\n" + t, "\n", " ") == " " + ReplaceAll(t, "\n", " ");
  }

  /** What `BeautifulSoup` yields for a document: the string of its `<title>` (None when
      there is no title element or its `.string` is None) and `get_text()`. */
  datatype Soup = Soup(title: Option<string>, text: string)

  /** `clearify_html(content)` on the decoded document: ruby annotations are removed before
      parsing, and the title and the cleaned text come back. Where `soup.title.string` is
      None the model gives "", which its one caller treats the same way: both are falsy. */
  function ClearifyHtml(content: string, parse: string -> Soup): (r: (string, string))
    ensures '\n' !in r.1
  {
    var soup := parse(RemoveRuby(content));
    CleanupHasNoNewline(soup.text);
    (if soup.title.Some? then soup.title.value else "", CleanupText(soup.text))
  }

  // ---------------------------------------------------------------------------
  // get_toc

  /** The legacy (NCX) table of contents is used exactly when it is strictly longer than the
      navigation-document one; on a tie the navigation document wins. */
  function ChooseToc<T>(legacy: seq<T>, nav: seq<T>): (toc: seq<T>)
    ensures |toc| >= |legacy| && |toc| >= |nav|
    ensures toc == legacy || toc == nav
    ensures |legacy| <= |nav| ==> toc == nav
  {
    if |legacy| > |nav| then legacy else nav
  }
}
