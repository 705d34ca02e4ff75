/** Z-Library mirror support (`sites/zlib.py`): recognising its hosts and
    building the file URL from a parsed book page. */
module ZLib {
  import opened Wrappers
  import opened Strings
  import opened Seqs
  import Urls

  const ZlibDomains: seq<string> := ["z-lib.fm", "z-lib.org", "z-lib.is", "singlelogin.re", "singlelogin.se"]

  /** A host belongs to Z-Library when it is a listed domain or a subdomain of one. */
  predicate HostIsZlib(host: string) {
    exists k :: 0 <= k < |ZlibDomains| && (host == ZlibDomains[k] || EndsWith(host, "." + ZlibDomains[k]))
  }

  /** `is_zlib_domain`: the host of the lower-cased URL. */
  predicate IsZlibDomain(url: string) {
    HostIsZlib(Urls.Netloc(Lower(url)))
  }

  /** A matching host is a listed domain, or ends with one right after a dot:
      a bare suffix match such as `xz-lib.fm` does not count. */
  lemma ZlibHostOnLabelBoundary(host: string)
    requires HostIsZlib(host)
    ensures exists k :: (0 <= k < |ZlibDomains| && EndsWith(host, ZlibDomains[k])
      && (host == ZlibDomains[k] || host[|host| - |ZlibDomains[k]| - 1] == '.'))
  {
    var k :| 0 <= k < |ZlibDomains| && (host == ZlibDomains[k] || EndsWith(host, "." + ZlibDomains[k]));
    var d := ZlibDomains[k];
    if host != d {
      var n := |host|;
      assert host[n - |d| - 1..] == "." + d;
      assert host[n - |d|..] == ("." + d)[1..];
      assert host[n - |d| - 1] == ("." + d)[0];
    }
  }

  lemma SuffixWithoutDotRejected()
    ensures !HostIsZlib("xz-lib.fm")
    ensures HostIsZlib("ru.z-lib.fm")
  {
    assert EndsWith("ru.z-lib.fm", "." + ZlibDomains[0]);
    forall k | 0 <= k < |ZlibDomains|
      ensures "xz-lib.fm" != ZlibDomains[k] && !EndsWith("xz-lib.fm", "." + ZlibDomains[k])
    {
      var t := "." + ZlibDomains[k];
      assert |t| >= 9;
      if |t| == 9 {
        assert "xz-lib.fm"[0] != t[0];
        assert "xz-lib.fm"[0..] == "xz-lib.fm";
      }
    }
  }

  /** An anchor of a Z-Library book page: its `href` if present, whether it
      has the `addDownloadedBook` class, and its `data-book_id` if present. */
  datatype ZAnchor = ZAnchor(href: Option<string>, addDownloadedBook: bool, bookId: Option<string>)

  /** `scheme://netloc` of the mirror URL. */
  function BaseDomain(mirrorUrl: string): string {
    Urls.Scheme(mirrorUrl) + "://" + Urls.Netloc(mirrorUrl)
  }

  /** `urljoin(base, href)` for a base without a path and an href starting with '/':
      a protocol-relative href keeps only the base's scheme. */
  function JoinPath(mirrorUrl: string, href: string): (r: string)
    requires StartsWith(href, "/")
    ensures !StartsWith(href, "//") ==> r == BaseDomain(mirrorUrl) + href
    ensures EndsWith(r, href)
  {
    if StartsWith(href, "//") then Urls.Scheme(mirrorUrl) + ":" + href else BaseDomain(mirrorUrl) + href
  }

  predicate IsMainButton(a: ZAnchor) {
    a.addDownloadedBook && a.href.Some?
  }

  /** The main download button: the first `addDownloadedBook` anchor with an `href`. */
  function MainButton(anchors: seq<ZAnchor>): (r: Option<ZAnchor>)
    ensures r.Some? ==> r.value in anchors && IsMainButton(r.value)
    ensures r.None? ==> forall i :: 0 <= i < |anchors| ==> !IsMainButton(anchors[i])
  {
    match FirstIndex(anchors, IsMainButton)
    case None => None
    case Some(i) => Some(anchors[i])
  }

  /** The last '/'-separated segment of `s` (Python's `s.split('/')[-1]`). */
  function LastSegment(s: string): string {
    var parts := Split(s, "/");
    parts[|parts| - 1]
  }

  predicate HasBookId(a: ZAnchor) {
    a.addDownloadedBook && a.bookId.Some? && a.bookId.value != ""
  }

  predicate Method3Accepts(a: ZAnchor) {
    a.href.Some? && Contains(a.href.value, "/dl/") && StartsWith(a.href.value, "/")
  }

  function Method1(mirrorUrl: string, anchors: seq<ZAnchor>): (r: Option<string>)
    ensures r.Some? <==> MainButton(anchors).Some? && StartsWith(MainButton(anchors).value.href.value, "/dl/")
    ensures r.Some? ==> r.value == BaseDomain(mirrorUrl) + MainButton(anchors).value.href.value
  {
    match MainButton(anchors)
    case Some(a) =>
      if StartsWith(a.href.value, "/dl/") then
        assert a.href.value[1] == "/dl/"[1];
        Some(JoinPath(mirrorUrl, a.href.value))
      else None
    case None => None
  }

  /** The alternative-format URL: the first anchor's book id with the main
      button's code, when the main button's href is a `/dl/` link. */
  function Method2(mirrorUrl: string, anchors: seq<ZAnchor>): (r: Option<string>)
    ensures r.Some? <==>
      && MainButton(anchors).Some? && Contains(MainButton(anchors).value.href.value, "/dl/")
      && exists i :: 0 <= i < |anchors| && HasBookId(anchors[i])
    ensures r.Some? ==> exists i :: (0 <= i < |anchors| && HasBookId(anchors[i])
      && r.value == BaseDomain(mirrorUrl) + ("/dl/" + anchors[i].bookId.value + "/" + LastSegment(MainButton(anchors).value.href.value))
      && forall j :: 0 <= j < i ==> !HasBookId(anchors[j]))
  {
    match FirstIndex(anchors, HasBookId)
    case None => None
    case Some(i) =>
      match MainButton(anchors)
      case None => None
      case Some(m) =>
        var href := m.href.value;
        if href != "" && Contains(href, "/dl/") then
          DlLinkHasThreeParts(href);
          if |Split(href, "/")| >= 3 then
            Some(BaseDomain(mirrorUrl) + ("/dl/" + anchors[i].bookId.value + "/" + LastSegment(href)))
          else None
        else None
  }

  function Method3(mirrorUrl: string, anchors: seq<ZAnchor>): (r: Option<string>)
    ensures r.Some? <==> exists i :: 0 <= i < |anchors| && Method3Accepts(anchors[i])
    ensures r.Some? ==> exists i :: (0 <= i < |anchors| && Method3Accepts(anchors[i])
      && r.value == JoinPath(mirrorUrl, anchors[i].href.value) && forall j :: 0 <= j < i ==> !Method3Accepts(anchors[j]))
  {
    match FirstIndex(anchors, Method3Accepts)
    case None => None
    case Some(i) => Some(JoinPath(mirrorUrl, anchors[i].href.value))
  }

  /** `parse_zlib_download_link`: the three methods in order. */
  function ParseZlibDownloadLink(mirrorUrl: string, anchors: seq<ZAnchor>): (r: Option<string>)
    ensures Method1(mirrorUrl, anchors).Some? ==> r == Method1(mirrorUrl, anchors)
    ensures Method1(mirrorUrl, anchors).None? && Method2(mirrorUrl, anchors).Some? ==> r == Method2(mirrorUrl, anchors)
    ensures Method1(mirrorUrl, anchors).None? && Method2(mirrorUrl, anchors).None? ==> r == Method3(mirrorUrl, anchors)
    ensures r.None? ==> forall i :: 0 <= i < |anchors| ==> !Method3Accepts(anchors[i])
  {
    if Method1(mirrorUrl, anchors).Some? then Method1(mirrorUrl, anchors)
    else if Method2(mirrorUrl, anchors).Some? then Method2(mirrorUrl, anchors)
    else Method3(mirrorUrl, anchors)
  }

  /** Unless the page offers a protocol-relative `//…/dl/` link, every URL
      found is on the mirror's own scheme and host. */
  lemma ResultOnMirrorHost(mirrorUrl: string, anchors: seq<ZAnchor>)
    requires ParseZlibDownloadLink(mirrorUrl, anchors).Some?
    requires forall i :: 0 <= i < |anchors| && anchors[i].href.Some? ==> !StartsWith(anchors[i].href.value, "//")
    ensures StartsWith(ParseZlibDownloadLink(mirrorUrl, anchors).value, BaseDomain(mirrorUrl))
  {
    if Method1(mirrorUrl, anchors).Some? {
      PrefixOfConcat(BaseDomain(mirrorUrl), MainButton(anchors).value.href.value);
    } else if Method2(mirrorUrl, anchors).Some? {
      Method2OnHost(mirrorUrl, anchors);
    } else {
      Method3OnHost(mirrorUrl, anchors);
    }
  }

  lemma Method2OnHost(mirrorUrl: string, anchors: seq<ZAnchor>)
    requires Method2(mirrorUrl, anchors).Some?
    ensures StartsWith(Method2(mirrorUrl, anchors).value, BaseDomain(mirrorUrl))
  {
    var base := BaseDomain(mirrorUrl);
    var r := Method2(mirrorUrl, anchors).value;
    var m := MainButton(anchors).value.href.value;
    var i :| 0 <= i < |anchors| && HasBookId(anchors[i])
      && r == base + ("/dl/" + anchors[i].bookId.value + "/" + LastSegment(m));
    PrefixOfConcat(base, "/dl/" + anchors[i].bookId.value + "/" + LastSegment(m));
  }

  lemma Method3OnHost(mirrorUrl: string, anchors: seq<ZAnchor>)
    requires Method3(mirrorUrl, anchors).Some?
    requires forall i :: 0 <= i < |anchors| && anchors[i].href.Some? ==> !StartsWith(anchors[i].href.value, "//")
    ensures StartsWith(Method3(mirrorUrl, anchors).value, BaseDomain(mirrorUrl))
  {
    var r := Method3(mirrorUrl, anchors).value;
    var i :| 0 <= i < |anchors| && Method3Accepts(anchors[i]) && r == JoinPath(mirrorUrl, anchors[i].href.value);
    PrefixOfConcat(BaseDomain(mirrorUrl), anchors[i].href.value);
  }

  lemma PrefixOfConcat(a: string, b: string)
    ensures StartsWith(a + b, a)
  {
    assert (a + b)[..|a|] == a;
  }

  /** A string with one occurrence of the separator splits into at least two pieces. */
  lemma {:induction false} SplitAtOccurrence(s: string, sep: string, i: nat)
    requires |sep| > 0 && OccursAt(s, sep, i)
    ensures |Split(s, sep)| >= 2
  {
    var k := IndexOf(s, sep).value;
    assert Split(s, sep) == [s[..k]] + Split(s[k + |sep|..], sep);
  }

  /** Two separate occurrences give at least three pieces. */
  lemma {:induction false} SplitAtTwoOccurrences(s: string, sep: string, i: nat, j: nat)
    requires |sep| > 0 && OccursAt(s, sep, i) && OccursAt(s, sep, j) && i + |sep| <= j
    ensures |Split(s, sep)| >= 3
  {
    var idx := IndexOf(s, sep);
    assert idx.Some?;
    var k := idx.value;
    assert k <= i;
    OccursAfter(s, sep, k + |sep|, j);
    assert Split(s, sep) == [s[..k]] + Split(s[k + |sep|..], sep);
    SplitAtOccurrence(s[k + |sep|..], sep, j - k - |sep|);
  }

  /** An occurrence at or after `from` is one in the rest of the string. */
  lemma OccursAfter(s: string, sep: string, from: nat, j: nat)
    requires OccursAt(s, sep, j) && from <= j
    ensures OccursAt(s[from..], sep, j - from)
  {
    assert s[from..][j - from..j - from + |sep|] == s[j..j + |sep|];
  }

  /** A `/dl/` link always splits into at least three '/'-separated parts,
      so the length test of the second method never fails on its own. */
  lemma DlLinkHasThreeParts(href: string)
    requires Contains(href, "/dl/")
    ensures |Split(href, "/")| >= 3
  {
    var i := ContainsWitness(href, "/dl/");
    assert href[i..i + 4] == "/dl/";
    assert href[i] == '/' && href[i + 3] == '/';
    assert href[i..i + 1] == "/";
    assert href[i + 3..i + 4] == "/";
    SplitAtTwoOccurrences(href, "/", i, i + 3);
  }
}
