/** Link extraction from Anna's Archive pages (`html.py`). A parsed page is
    given as the sequences of elements BeautifulSoup would return, in
    document order; element texts are taken already stripped. */
module HtmlLinks {
  import opened Wrappers
  import opened Strings
  import opened Seqs
  import Urls

  /** An `<a>` carrying an `href`, with its text. */
  datatype Anchor = Anchor(href: string, text: string)

  /** A mirror page: its anchors with an `href`, the `onclick` values of its
      buttons, and the stripped texts of its spans. */
  datatype MirrorPage = MirrorPage(anchors: seq<Anchor>, onclicks: seq<string>, spans: seq<string>)

  /** Link hosts that are never the file itself. */
  const SkipDomains: seq<string> := [
    "jdownloader.org", "telegram.org", "t.me", "discord.gg",
    "reddit.com", "twitter.com", "facebook.com", "instagram.com",
    "patreon.com", "ko-fi.com", "buymeacoffee.com",
    "annas-archive.org/account", "annas-archive.org/search",
    "annas-archive.org/md5", "annas-archive.org/donate"
  ]

  const FileExtensions: seq<string> := [".epub", ".pdf", ".mobi", ".azw3", ".cbr", ".cbz", ".djvu"]

  /** The prefix of the md5 that appears in file URLs. */
  function Md5Prefix(md5: string): string {
    Take(md5, 12)
  }

  predicate ContainsAny(s: string, needles: seq<string>) {
    exists k :: 0 <= k < |needles| && Contains(s, needles[k])
  }

  predicate Skipped(href: string) {
    ContainsAny(Lower(href), SkipDomains)
  }

  /** Method 1: an absolute, non-navigation, non-`slow_download` link whose
      lower-cased form contains the md5 prefix (the prefix itself is not
      lower-cased). */
  predicate Method1Accepts(a: Anchor, md5: string) {
    StartsWith(a.href, "http") && !Skipped(a.href)
    && !Contains(Lower(a.href), "slow_download")
    && Contains(Lower(a.href), Md5Prefix(md5))
  }

  /** Method 2: an absolute, non-navigation link whose text says "download"
      or "get" and whose URL names a book file or a `get.php`/`main.php` script. */
  predicate Method2Accepts(a: Anchor) {
    StartsWith(a.href, "http") && !Skipped(a.href)
    && (Contains(Lower(a.text), "download") || Contains(Lower(a.text), "get"))
    && (ContainsAny(Lower(a.href), FileExtensions)
        || Contains(Lower(a.href), "get.php") || Contains(Lower(a.href), "main.php"))
  }

  const WriteTextOpen: string := "writeText('"

  /** The match of `writeText\('([^']+)'` anchored at position `i`. */
  function ClipboardAt(s: string, i: nat): (r: Option<string>)
    requires i <= |s|
    ensures r.Some? ==> |r.value| > 0 && forall k :: 0 <= k < |r.value| ==> r.value[k] != '\''
    ensures r.Some? ==> OccursAt(s, WriteTextOpen + r.value + "'", i)
  {
    if OccursAt(s, WriteTextOpen, i) then
      var rest := s[i + |WriteTextOpen|..];
      match IndexOf(rest, "'")
      case None => None
      case Some(j) =>
        if j == 0 then None
        else
          assert forall k :: 0 <= k < j ==> rest[k..k + 1] == [rest[k]] && !OccursAt(rest, "'", k);
          assert rest[j..j + 1] == "'";
          assert s[i..i + |WriteTextOpen| + j + 1] == WriteTextOpen + rest[..j] + "'";
          Some(rest[..j])
    else None
  }

  /** `re.search(r"writeText\('([^']+)'", s)`: the leftmost match's group. */
  function ClipboardFrom(s: string, i: nat): (r: Option<string>)
    requires i <= |s|
    ensures r.Some? ==> |r.value| > 0 && forall k :: 0 <= k < |r.value| ==> r.value[k] != '\''
    ensures r.None? ==> forall j :: i <= j <= |s| ==> ClipboardAt(s, j).None?
    decreases |s| - i
  {
    match ClipboardAt(s, i)
    case Some(u) => Some(u)
    case None => if i == |s| then None else ClipboardFrom(s, i + 1)
  }

  function ClipboardUrl(onclick: string): Option<string> {
    ClipboardFrom(onclick, 0)
  }

  /** Method 3: a button whose clipboard URL contains the md5 prefix. */
  predicate Method3Accepts(onclick: string, md5: string) {
    ClipboardUrl(onclick).Some? && Contains(ClipboardUrl(onclick).value, Md5Prefix(md5))
  }

  /** Method 4: a span whose text is an absolute URL containing the md5 prefix. */
  predicate Method4Accepts(text: string, md5: string) {
    StartsWith(text, "http") && Contains(text, Md5Prefix(md5))
  }

  /** The four extraction methods, each returning the first element its rule accepts. */
  function Method1(p: MirrorPage, md5: string): (r: Option<string>)
    ensures r.Some? <==> exists i :: 0 <= i < |p.anchors| && Method1Accepts(p.anchors[i], md5)
    ensures r.Some? ==> exists i :: (0 <= i < |p.anchors| && Method1Accepts(p.anchors[i], md5)
      && r.value == p.anchors[i].href && forall j :: 0 <= j < i ==> !Method1Accepts(p.anchors[j], md5))
  {
    match FirstIndex(p.anchors, a => Method1Accepts(a, md5))
    case None => None
    case Some(i) => Some(p.anchors[i].href)
  }

  function Method2(p: MirrorPage): (r: Option<string>)
    ensures r.Some? <==> exists i :: 0 <= i < |p.anchors| && Method2Accepts(p.anchors[i])
    ensures r.Some? ==> exists i :: (0 <= i < |p.anchors| && Method2Accepts(p.anchors[i])
      && r.value == p.anchors[i].href && forall j :: 0 <= j < i ==> !Method2Accepts(p.anchors[j]))
  {
    match FirstIndex(p.anchors, Method2Accepts)
    case None => None
    case Some(i) => Some(p.anchors[i].href)
  }

  /** Methods 3 and 4 cut the accepted URL before its first '~'. */
  function Method3(p: MirrorPage, md5: string): (r: Option<string>)
    ensures r.Some? <==> exists i :: 0 <= i < |p.onclicks| && Method3Accepts(p.onclicks[i], md5)
    ensures r.Some? ==> exists i :: (0 <= i < |p.onclicks| && Method3Accepts(p.onclicks[i], md5)
      && r.value == BeforeFirst(ClipboardUrl(p.onclicks[i]).value, '~')
      && forall j :: 0 <= j < i ==> !Method3Accepts(p.onclicks[j], md5))
  {
    match FirstIndex(p.onclicks, o => Method3Accepts(o, md5))
    case None => None
    case Some(i) => Some(BeforeFirst(ClipboardUrl(p.onclicks[i]).value, '~'))
  }

  function Method4(p: MirrorPage, md5: string): (r: Option<string>)
    ensures r.Some? <==> exists i :: 0 <= i < |p.spans| && Method4Accepts(p.spans[i], md5)
    ensures r.Some? ==> exists i :: (0 <= i < |p.spans| && Method4Accepts(p.spans[i], md5)
      && r.value == BeforeFirst(p.spans[i], '~') && forall j :: 0 <= j < i ==> !Method4Accepts(p.spans[j], md5))
  {
    match FirstIndex(p.spans, t => Method4Accepts(t, md5))
    case None => None
    case Some(i) => Some(BeforeFirst(p.spans[i], '~'))
  }

  /** `parse_download_link_from_html`: the methods in order, first match wins. */
  function ParseDownloadLink(p: MirrorPage, md5: string): (r: Option<string>)
    ensures r.None? <==>
      (forall i :: 0 <= i < |p.anchors| ==> !Method1Accepts(p.anchors[i], md5) && !Method2Accepts(p.anchors[i]))
      && (forall i :: 0 <= i < |p.onclicks| ==> !Method3Accepts(p.onclicks[i], md5))
      && (forall i :: 0 <= i < |p.spans| ==> !Method4Accepts(p.spans[i], md5))
    ensures Method1(p, md5).Some? ==> r == Method1(p, md5)
    ensures Method1(p, md5).None? && Method2(p).Some? ==> r == Method2(p)
    ensures Method1(p, md5).None? && Method2(p).None? && Method3(p, md5).Some? ==> r == Method3(p, md5)
    ensures Method1(p, md5).None? && Method2(p).None? && Method3(p, md5).None? ==> r == Method4(p, md5)
  {
    if Method1(p, md5).Some? then Method1(p, md5)
    else if Method2(p).Some? then Method2(p)
    else if Method3(p, md5).Some? then Method3(p, md5)
    else Method4(p, md5)
  }

  /** A link found by the first method is absolute, off the skip list, not a
      `slow_download` page, and carries the md5 prefix. */
  lemma Method1Result(p: MirrorPage, md5: string)
    requires Method1(p, md5).Some?
    ensures var href := ParseDownloadLink(p, md5).value;
      StartsWith(href, "http") && !Skipped(href) && !Contains(Lower(href), "slow_download")
      && Contains(Lower(href), Md5Prefix(md5))
  {
  }

  /** A link found by the clipboard or span methods is a '~'-free prefix of
      the accepted URL. */
  lemma LaterMethodsCutAtTilde(p: MirrorPage, md5: string)
    requires Method1(p, md5).None? && Method2(p).None?
    requires ParseDownloadLink(p, md5).Some?
    ensures var r := ParseDownloadLink(p, md5).value;
      forall k :: 0 <= k < |r| ==> r[k] != '~'
  {
  }

  // ---- get_download_links ----

  /** A `li.list-disc` of the downloads panel: its first anchor with an
      `href`, if any, and its stripped text. */
  datatype ListItem = ListItem(anchor: Option<Anchor>, text: string)

  /** The downloads panel: its list items and, when present, the hrefs of
      the anchors under `ul.js-show-external`. */
  datatype Panel = Panel(items: seq<ListItem>, external: Option<seq<string>>)

  /** The md5 detail page as fetched: a request that raised, or the parsed
      page with its optional `h1` text and optional downloads panel. */
  datatype DetailPage = RequestRaised | Detail(h1: Option<string>, panel: Option<Panel>)

  datatype LinkType = SlowDownload | ExternalMirror

  datatype Link = Link(url: string, domain: string, text: string, kind: LinkType)

  function DetailUrl(md5: string): string {
    "https://annas-archive.org/md5/" + md5
  }

  /** A slow-download entry is kept when its link is not a fast download,
      is a slow download, and its text announces no waitlist. */
  predicate SlowAccepted(li: ListItem) {
    li.anchor.Some?
    && !Contains(li.anchor.value.href, "/fast_download/")
    && Contains(li.anchor.value.href, "/slow_download/")
    && !Contains(Lower(li.text), "slightly faster but with waitlist")
    && Contains(Lower(li.text), "no waitlist")
  }

  function SlowLink(md5: string, li: ListItem): Link
    requires li.anchor.Some?
  {
    var a := li.anchor.value;
    Link(Urls.UrlJoin(DetailUrl(md5), a.href), "annas-archive.org",
         if a.text != "" then a.text else "Slow Partner Server", SlowDownload)
  }

  /** External mirrors are absolute links with a host. */
  predicate ExternalAccepted(href: string) {
    StartsWith(href, "http") && Urls.Netloc(href) != ""
  }

  function ExternalLink(href: string): Link {
    Link(href, Urls.Netloc(href), Urls.Netloc(href), ExternalMirror)
  }

  function SlowEntry(md5: string, li: ListItem): Option<Link> {
    if SlowAccepted(li) then Some(SlowLink(md5, li)) else None
  }

  function SlowLinks(md5: string, items: seq<ListItem>): (r: seq<Link>)
    ensures |r| <= |items|
    ensures forall k :: 0 <= k < |r| ==> r[k].kind == SlowDownload && r[k].domain == "annas-archive.org"
    ensures forall i :: 0 <= i < |items| && SlowAccepted(items[i]) ==> SlowLink(md5, items[i]) in r
  {
    var f := li => SlowEntry(md5, li);
    var r := FilterMap(items, f);
    forall k | 0 <= k < |r|
      ensures r[k].kind == SlowDownload && r[k].domain == "annas-archive.org"
    {
      var i := FilterMapSource(items, f, k);
    }
    r
  }

  /** Every slow link comes from an accepted entry; `i` is that entry. */
  lemma SlowLinkSource(md5: string, items: seq<ListItem>, k: nat) returns (i: nat)
    requires k < |SlowLinks(md5, items)|
    ensures i < |items| && SlowAccepted(items[i]) && SlowLinks(md5, items)[k] == SlowLink(md5, items[i])
  {
    i := FilterMapSource(items, li => SlowEntry(md5, li), k);
  }

  function ExternalLinks(hrefs: seq<string>): (r: seq<Link>)
    ensures forall k :: 0 <= k < |r| ==> (r[k].kind == ExternalMirror && r[k].domain != ""
      && r[k].domain == r[k].text && StartsWith(r[k].url, "http") && r[k].domain == Urls.Netloc(r[k].url))
    ensures forall k :: 0 <= k < |r| ==> r[k].url in hrefs
    ensures forall i :: 0 <= i < |hrefs| && ExternalAccepted(hrefs[i]) ==> ExternalLink(hrefs[i]) in r
  {
    Map(Filter(hrefs, ExternalAccepted), ExternalLink)
  }

  /** External links follow the page: the links of a list are those of its
      parts in order, and a single href yields its link exactly when it is
      accepted. */
  lemma {:induction false} ExternalLinksInPageOrder(a: seq<string>, b: seq<string>, href: string)
    ensures ExternalLinks(a + b) == ExternalLinks(a) + ExternalLinks(b)
    ensures ExternalLinks([href]) == if ExternalAccepted(href) then [ExternalLink(href)] else []
  {
    FilterConcat(a, b, ExternalAccepted);
    MapConcat(Filter(a, ExternalAccepted), Filter(b, ExternalAccepted), ExternalLink);
    assert Filter([href], ExternalAccepted) == if ExternalAccepted(href) then [href] else [];
  }

  /** `get_download_links`: the title and the candidate links, slow ones first. */
  function GetDownloadLinks(md5: string, page: DetailPage): (r: (string, seq<Link>))
    ensures page.RequestRaised? ==> r == ("Unknown", [])
    ensures page.Detail? ==> r.0 == page.h1.GetOr("Unknown")
    ensures page.Detail? && page.panel.None? ==> r.1 == []
    ensures page.Detail? && page.panel.Some? ==>
      var slow := SlowLinks(md5, page.panel.value.items);
      |slow| <= |r.1| && r.1[..|slow|] == slow
      && forall k :: |slow| <= k < |r.1| ==> r.1[k].kind == ExternalMirror
    ensures page.Detail? && page.panel.Some? ==>
      r.1[|SlowLinks(md5, page.panel.value.items)|..] ==
        (if page.panel.value.external.Some? then ExternalLinks(page.panel.value.external.value) else [])
  {
    match page
    case RequestRaised => ("Unknown", [])
    case Detail(h1, panel) =>
      var title := h1.GetOr("Unknown");
      match panel
      case None => (title, [])
      case Some(pn) =>
        var ext := match pn.external case None => [] case Some(hrefs) => ExternalLinks(hrefs);
        (title, SlowLinks(md5, pn.items) + ext)
  }

  /** Every slow link comes from an entry whose href is a slow download and
      not a fast download, so fast-download links never appear. */
  lemma NoFastDownloadLinks(md5: string, page: DetailPage, k: nat)
    requires page.Detail? && page.panel.Some?
    requires k < |GetDownloadLinks(md5, page).1|
    requires GetDownloadLinks(md5, page).1[k].kind == SlowDownload
    ensures exists i :: (0 <= i < |page.panel.value.items| && SlowAccepted(page.panel.value.items[i])
      && GetDownloadLinks(md5, page).1[k] == SlowLink(md5, page.panel.value.items[i]))
  {
    var slow := SlowLinks(md5, page.panel.value.items);
    var links := GetDownloadLinks(md5, page).1;
    assert k < |slow|;
    assert links[k] == slow[k];
    var i := SlowLinkSource(md5, page.panel.value.items, k);
  }
}
