/** The parts of Python's `urllib.parse` the downloader relies on: the
    scheme/netloc split of `urlsplit` and the cases of `urljoin` that occur
    for links found on a page. */
module Urls {
  import opened Wrappers
  import opened Strings

  predicate IsAsciiLetter(c: char) {
    'a' <= c <= 'z' || 'A' <= c <= 'Z'
  }

  /** Characters allowed in a URL scheme. */
  predicate IsSchemeChar(c: char) {
    IsAsciiLetter(c) || IsDigit(c) || c == '+' || c == '-' || c == '.'
  }

  /** `urlsplit`'s scheme detection: a non-empty run of scheme characters,
      starting with a letter, before the first ':'. Returns the lower-cased
      scheme and the text after the ':'. */
  function SplitScheme(url: string): (r: Option<(string, string)>)
    ensures r.Some? ==> |r.value.0| > 0 && |r.value.0| + 1 + |r.value.1| == |url|
    ensures r.Some? ==> url[|r.value.0|] == ':' && r.value.1 == url[|r.value.0| + 1..]
    ensures r.Some? ==> r.value.0 == Lower(url[..|r.value.0|])
    ensures r.Some? ==> forall j :: 0 <= j < |r.value.0| ==> IsSchemeChar(url[j])
  {
    match IndexOf(url, ":")
    case None => None
    case Some(i) =>
      assert url[i..i + 1] == ":";
      if i > 0 && IsAsciiLetter(url[0]) && forall j :: 0 <= j < i ==> IsSchemeChar(url[j])
      then Some((Lower(url[..i]), url[i + 1..]))
      else None
  }

  /** Everything before the first character of `stops`. */
  function CutAt(s: string, stops: set<char>): (r: string)
    ensures StartsWith(s, r)
    ensures forall i :: 0 <= i < |r| ==> r[i] !in stops
    ensures |r| < |s| ==> s[|r|] in stops
  {
    if |s| == 0 || s[0] in stops then ""
    else [s[0]] + CutAt(s[1..], stops)
  }

  /** The text after the scheme, or the whole URL when it has none. */
  function AfterScheme(url: string): string {
    match SplitScheme(url)
    case Some((_, rest)) => rest
    case None => url
  }

  /** `urlsplit(url).netloc`: after the scheme, the text between a leading
      `//` and the next `/`, `?` or `#`; empty without a leading `//`. */
  function Netloc(url: string): (r: string)
    ensures !StartsWith(AfterScheme(url), "//") ==> r == ""
    ensures StartsWith(AfterScheme(url), "//") ==> StartsWith(AfterScheme(url)[2..], r)
    ensures forall i :: 0 <= i < |r| ==> r[i] != '/' && r[i] != '?' && r[i] != '#'
  {
    var rest := AfterScheme(url);
    if StartsWith(rest, "//") then CutAt(rest[2..], {'/', '?', '#'}) else ""
  }

  /** `urlsplit(url).scheme`. */
  function Scheme(url: string): string {
    match SplitScheme(url)
    case Some((scheme, _)) => scheme
    case None => ""
  }

  /** `urljoin(base, href)` for a base with a scheme, a host and a path. A
      link with a scheme is kept, a protocol-relative link takes the base's
      scheme, an absolute path takes the base's scheme and host, an empty
      link gives the base, a query-only link replaces the base's query, a
      fragment-only link its fragment, and any other link replaces the last
      segment of the base's path. */
  function UrlJoin(base: string, href: string): (r: string)
    ensures SplitScheme(href).Some? ==> r == href
    ensures href == "" ==> r == base
    ensures href != "" ==> EndsWith(r, href)
    ensures SplitScheme(href).None? && (StartsWith(href, "?") || StartsWith(href, "#")) ==>
      StartsWith(base, r[..|r| - |href|])
    ensures SplitScheme(href).None? && href != "" && href[0] !in {'/', '?', '#'} ==>
      StartsWith(base, r[..|r| - |href|]) && (r[..|r| - |href|] == "" || EndsWith(r[..|r| - |href|], "/"))
  {
    if SplitScheme(href).Some? then href
    else if href == "" then base
    else if StartsWith(href, "//") then Scheme(base) + ":" + href
    else if StartsWith(href, "/") then Scheme(base) + "://" + Netloc(base) + href
    else if StartsWith(href, "?") then CutAt(base, {'?', '#'}) + href
    else if StartsWith(href, "#") then CutAt(base, {'#'}) + href
    else
      var dir := Directory(CutAt(base, {'?', '#'}));
      PrefixOfPrefix(base, CutAt(base, {'?', '#'}), dir);
      dir + href
  }

  lemma PrefixOfPrefix(a: string, b: string, c: string)
    requires StartsWith(a, b) && StartsWith(b, c)
    ensures StartsWith(a, c)
  {
    assert a[..|c|] == a[..|b|][..|c|];
  }

  /** The base URL up to and including the last '/' (the whole base when it
      has none). */
  function Directory(base: string): (r: string)
    ensures StartsWith(base, r)
    ensures r == "" || EndsWith(r, "/")
    decreases |base|
  {
    if |base| == 0 then ""
    else if base[|base| - 1] == '/' then base
    else Directory(base[..|base| - 1])
  }
}
