/** Mirror resolution (`mirrors.py`): from a slow-download or external
    mirror page to the file, through the challenge solver and a cookie
    pre-warm when the mirror refuses. The page requests, the solver, the
    pre-warm, the link parser and the transfer are inputs; the result comes
    with the trace of calls made. */
module Mirrors {
  import opened Wrappers
  import opened HtmlLinks
  import Cookies

  /** A GET of the mirror URL: raised, or a status and the page text. */
  datatype Response = GetRaised | Response(status: int, text: string)

  /** The mirror's behaviour: its answers to the first and the retried GET,
      the solver's answer for the mirror URL, whether a pre-warm succeeds,
      the link parser for this md5 and mirror, and the transfer. */
  datatype Services = Services(
    solverConfigured: bool,
    firstGet: Response,
    retryGet: Response,
    solve: Cookies.Solved,
    prewarm: bool,
    parse: string -> Option<string>,
    downloadDirect: (string, string) -> Option<string>)

  datatype Event = LoadCookies | Get | Solve | Prewarm | Parse(page: string) | Direct(link: string, md5: string)

  /** `raise_for_status`: client and server errors raise. */
  predicate IsError(status: int) {
    400 <= status < 600
  }

  /** The events of a kind in a trace. */
  function CountSolves(trace: seq<Event>): nat {
    if |trace| == 0 then 0 else (if trace[0].Solve? then 1 else 0) + CountSolves(trace[1..])
  }

  function CountGets(trace: seq<Event>): nat {
    if |trace| == 0 then 0 else (if trace[0].Get? then 1 else 0) + CountGets(trace[1..])
  }

  lemma {:induction false} CountConcat(a: seq<Event>, b: seq<Event>)
    ensures CountSolves(a + b) == CountSolves(a) + CountSolves(b)
    ensures CountGets(a + b) == CountGets(a) + CountGets(b)
    decreases |a|
  {
    if |a| == 0 {
      assert a + b == b;
    } else {
      assert (a + b)[1..] == a[1..] + b;
      CountConcat(a[1..], b);
    }
  }

  /** The transfer is called only with a non-empty parsed link and the md5,
      and a file comes only from the last call, the transfer. */
  predicate WellFormed(r: (Option<string>, seq<Event>), md5: string) {
    && (forall i :: 0 <= i < |r.1| && r.1[i].Direct? ==> r.1[i].md5 == md5 && r.1[i].link != "" && i == |r.1| - 1)
    && (r.0.Some? ==> |r.1| > 0 && r.1[|r.1| - 1].Direct?)
  }

  /** Parses a page and, when a link is found, downloads it. */
  function ParseAndDownload(page: string, md5: string, s: Services): (r: (Option<string>, seq<Event>))
    ensures WellFormed(r, md5)
    ensures |r.1| > 0 && r.1[0] == Parse(page) && CountSolves(r.1) == 0 && CountGets(r.1) == 0
    ensures r.0.Some? ==> s.parse(page).Some? && r.0 == s.downloadDirect(s.parse(page).value, md5)
    ensures s.parse(page).None? || s.parse(page) == Some("") ==> r == (None, [Parse(page)])
    ensures s.parse(page).Some? && s.parse(page).value != "" ==>
      r == (s.downloadDirect(s.parse(page).value, md5), [Parse(page), Direct(s.parse(page).value, md5)])
  {
    match s.parse(page)
    case Some(link) =>
      if link != "" then
        assert CountSolves([Direct(link, md5)]) == 0 && CountGets([Direct(link, md5)]) == 0;
        assert [Parse(page), Direct(link, md5)][1..] == [Direct(link, md5)];
        (s.downloadDirect(link, md5), [Parse(page), Direct(link, md5)])
      else (None, [Parse(page)])
    case None => (None, [Parse(page)])
  }

  /** Prefixes `events` to a trace. */
  function After(events: seq<Event>, r: (Option<string>, seq<Event>)): (Option<string>, seq<Event>) {
    (r.0, events + r.1)
  }

  lemma AfterWellFormed(events: seq<Event>, r: (Option<string>, seq<Event>), md5: string)
    requires WellFormed(r, md5)
    requires forall i :: 0 <= i < |events| ==> !events[i].Direct?
    ensures WellFormed(After(events, r), md5)
    ensures CountSolves(After(events, r).1) == CountSolves(events) + CountSolves(r.1)
    ensures CountGets(After(events, r).1) == CountGets(events) + CountGets(r.1)
  {
    CountConcat(events, r.1);
  }

  /** A slow-download page: fetched with the cached cookies; a challenge
      (403 or 503) is solved for this URL when a solver is configured. */
  function FromSlowPage(md5: string, s: Services): (r: (Option<string>, seq<Event>))
    ensures WellFormed(r, md5)
    ensures s.firstGet.Response? && (s.firstGet.status == 403 || s.firstGet.status == 503) ==>
      (!s.solverConfigured ==> r == (None, [LoadCookies, Get]))
      && (s.solverConfigured ==> CountSolves(r.1) == 1 && (!s.solve.success ==> r.0.None?))
      && (s.solverConfigured && s.solve.success ==> r == After([LoadCookies, Get, Solve], ParseAndDownload(s.solve.html, md5, s)))
    ensures !(s.firstGet.Response? && (s.firstGet.status == 403 || s.firstGet.status == 503)) ==> CountSolves(r.1) == 0
    ensures s.firstGet.Response? && !(s.firstGet.status == 403 || s.firstGet.status == 503) && !IsError(s.firstGet.status) ==>
      r == After([LoadCookies, Get], ParseAndDownload(s.firstGet.text, md5, s))
  {
    var pre := [LoadCookies, Get];
    match s.firstGet
    case GetRaised => (None, pre)
    case Response(status, text) =>
      if status == 403 || status == 503 then
        if !s.solverConfigured then (None, pre)
        else
          var solved := [LoadCookies, Get, Solve];
          assert CountSolves(solved) == 1;
          if !s.solve.success then (None, solved)
          else
            AfterWellFormed(solved, ParseAndDownload(s.solve.html, md5, s), md5);
            After(solved, ParseAndDownload(s.solve.html, md5, s))
      else if IsError(status) then (None, pre)
      else
        AfterWellFormed(pre, ParseAndDownload(text, md5, s), md5);
        After(pre, ParseAndDownload(text, md5, s))
  }

  /** The full solve of the mirror URL, used when cookies did not help. */
  function FullSolve(md5: string, s: Services): (r: (Option<string>, seq<Event>))
    ensures WellFormed(r, md5) && |r.1| > 0 && r.1[0] == Solve && CountSolves(r.1) == 1 && CountGets(r.1) == 0
    ensures s.solve.success ==> r == After([Solve], ParseAndDownload(s.solve.html, md5, s))
    ensures !s.solve.success ==> r == (None, [Solve])
  {
    if s.solve.success then
      AfterWellFormed([Solve], ParseAndDownload(s.solve.html, md5, s), md5);
      After([Solve], ParseAndDownload(s.solve.html, md5, s))
    else (None, [Solve])
  }

  /** An external mirror: fetched with its cached cookies; a 403 with a
      solver configured goes to the challenge handling below. */
  function FromExternalPage(md5: string, s: Services): (r: (Option<string>, seq<Event>))
    ensures WellFormed(r, md5)
    ensures s.firstGet.Response? && s.firstGet.status == 403 && !s.solverConfigured ==> r == (None, [LoadCookies, Get])
    ensures s.firstGet.Response? && s.firstGet.status == 403 && s.solverConfigured ==>
      && (s.prewarm ==> CountGets(r.1) == 2)
      && (!s.prewarm ==> CountGets(r.1) == 1 && CountSolves(r.1) == 1)
      && (s.prewarm && s.retryGet.Response? && s.retryGet.status == 403 ==> CountSolves(r.1) == 1)
      && (s.prewarm && s.retryGet.Response? && s.retryGet.status != 403 && !IsError(s.retryGet.status) ==>
            r == After([LoadCookies, Get, Prewarm, Get], ParseAndDownload(s.retryGet.text, md5, s)))
    ensures !(s.firstGet.Response? && s.firstGet.status == 403) ==> CountSolves(r.1) == 0 && CountGets(r.1) == 1
    ensures s.firstGet.Response? && s.firstGet.status == 403 && s.solverConfigured ==> r == ExternalChallenge(md5, s)
    ensures s.firstGet.Response? && s.firstGet.status != 403 && !IsError(s.firstGet.status) ==>
      r == After([LoadCookies, Get], ParseAndDownload(s.firstGet.text, md5, s))
  {
    var pre := [LoadCookies, Get];
    assert CountGets(pre) == 1 && CountSolves(pre) == 0;
    match s.firstGet
    case GetRaised => (None, pre)
    case Response(status, text) =>
      if status == 403 then
        if !s.solverConfigured then (None, pre)
        else ExternalChallenge(md5, s)
      else if IsError(status) then (None, pre)
      else
        AfterWellFormed(pre, ParseAndDownload(text, md5, s), md5);
        After(pre, ParseAndDownload(text, md5, s))
  }

  /** A 403 from an external mirror with a solver configured: the cookies
      are pre-warmed and the page asked again once; a failed pre-warm or a
      second 403 falls back to a full solve. */
  function ExternalChallenge(md5: string, s: Services): (r: (Option<string>, seq<Event>))
    ensures WellFormed(r, md5)
    ensures s.prewarm ==> CountGets(r.1) == 2
    ensures !s.prewarm ==> CountGets(r.1) == 1 && CountSolves(r.1) == 1
    ensures s.prewarm && s.retryGet.Response? && s.retryGet.status == 403 ==> CountSolves(r.1) == 1
    ensures s.prewarm && s.retryGet.Response? && s.retryGet.status != 403 && !IsError(s.retryGet.status) ==>
      r == After([LoadCookies, Get, Prewarm, Get], ParseAndDownload(s.retryGet.text, md5, s))
    ensures s.prewarm && s.retryGet.Response? && s.retryGet.status == 403 ==>
      r == After([LoadCookies, Get, Prewarm, Get], FullSolve(md5, s))
    ensures !s.prewarm ==> r == After([LoadCookies, Get, Prewarm], FullSolve(md5, s))
  {
    if s.prewarm then
      var retried := [LoadCookies, Get, Prewarm, Get];
      assert CountGets(retried) == 2 && CountSolves(retried) == 0;
      match s.retryGet
      case GetRaised => (None, retried)
      case Response(status2, text2) =>
        if status2 == 403 then
          AfterWellFormed(retried, FullSolve(md5, s), md5);
          After(retried, FullSolve(md5, s))
        else if IsError(status2) then (None, retried)
        else
          AfterWellFormed(retried, ParseAndDownload(text2, md5, s), md5);
          After(retried, ParseAndDownload(text2, md5, s))
    else
      var warmed := [LoadCookies, Get, Prewarm];
      assert CountGets(warmed) == 1 && CountSolves(warmed) == 0;
      AfterWellFormed(warmed, FullSolve(md5, s), md5);
      After(warmed, FullSolve(md5, s))
  }

  /** `download_from_mirror`: dispatch on the link type. */
  function DownloadFromMirror(kind: LinkType, md5: string, s: Services): (r: (Option<string>, seq<Event>))
    ensures WellFormed(r, md5)
    ensures kind == SlowDownload ==> r == FromSlowPage(md5, s)
    ensures kind == ExternalMirror ==> r == FromExternalPage(md5, s)
  {
    match kind
    case SlowDownload => FromSlowPage(md5, s)
    case ExternalMirror => FromExternalPage(md5, s)
  }

  /** The page whose link is used, if the mirror hands one out: a slow
      page answered normally, or after a challenge the solved page; an
      external page answered normally, or after a 403 the page retried with
      pre-warmed cookies, or the solved page when the pre-warm fails or the
      retry is refused again. */
  function PageReached(kind: LinkType, s: Services): Option<string> {
    match s.firstGet
    case GetRaised => None
    case Response(status, text) =>
      var solved := if s.solve.success then Some(s.solve.html) else None;
      match kind
      case SlowDownload =>
        if status == 403 || status == 503 then (if s.solverConfigured then solved else None)
        else if IsError(status) then None
        else Some(text)
      case ExternalMirror =>
        if status != 403 then (if IsError(status) then None else Some(text))
        else if !s.solverConfigured then None
        else if !s.prewarm then solved
        else match s.retryGet
          case GetRaised => None
          case Response(status2, text2) =>
            if status2 == 403 then solved
            else if IsError(status2) then None
            else Some(text2)
  }

  /** Predicate: the trace `t` ends with `u`. */
  predicate EndsWithTrace(t: seq<Event>, u: seq<Event>) {
    |u| <= |t| && t[|t| - |u|..] == u
  }

  /** The parse-and-transfer step placed after other events ends the trace. */
  lemma AfterEndsWith(events: seq<Event>, t: (Option<string>, seq<Event>))
    ensures After(events, t).0 == t.0 && EndsWithTrace(After(events, t).1, t.1)
  {
    assert (events + t.1)[|events|..] == t.1;
  }

  /** The mirror attempt is the parse-and-transfer of the page it reaches:
      its file is that step's and its trace ends with that step's; when no
      page is reached nothing is transferred. */
  lemma MirrorParsesReachedPage(kind: LinkType, md5: string, s: Services)
    ensures var r := DownloadFromMirror(kind, md5, s);
      match PageReached(kind, s)
      case None => r.0.None? && forall i :: 0 <= i < |r.1| ==> !r.1[i].Direct?
      case Some(page) => r.0 == ParseAndDownload(page, md5, s).0 && EndsWithTrace(r.1, ParseAndDownload(page, md5, s).1)
  {
    if s.firstGet.Response? {
      var status := s.firstGet.status;
      if kind == SlowDownload {
        if status == 403 || status == 503 {
          if s.solverConfigured && s.solve.success {
            AfterEndsWith([LoadCookies, Get, Solve], ParseAndDownload(s.solve.html, md5, s));
          }
        } else if !IsError(status) {
          AfterEndsWith([LoadCookies, Get], ParseAndDownload(s.firstGet.text, md5, s));
        }
      } else if status != 403 {
        if !IsError(status) {
          AfterEndsWith([LoadCookies, Get], ParseAndDownload(s.firstGet.text, md5, s));
        }
      } else if s.solverConfigured {
        ExternalReached(md5, s);
      }
    }
  }

  /** Events placed before a trace keep how it ends. */
  lemma AfterKeepsEnd(events: seq<Event>, r: (Option<string>, seq<Event>), u: seq<Event>)
    requires EndsWithTrace(r.1, u)
    ensures After(events, r).0 == r.0 && EndsWithTrace(After(events, r).1, u)
  {
    assert (events + r.1)[|events| + |r.1| - |u|..] == r.1[|r.1| - |u|..];
  }

  /** The challenge handling of an external mirror reaches the retried page
      or the solved one. */
  lemma ExternalReached(md5: string, s: Services)
    requires s.firstGet.Response? && s.firstGet.status == 403 && s.solverConfigured
    ensures var r := ExternalChallenge(md5, s);
      match PageReached(ExternalMirror, s)
      case None => r.0.None? && forall i :: 0 <= i < |r.1| ==> !r.1[i].Direct?
      case Some(page) => r.0 == ParseAndDownload(page, md5, s).0 && EndsWithTrace(r.1, ParseAndDownload(page, md5, s).1)
  {
    var full := FullSolve(md5, s);
    var t := ParseAndDownload(s.solve.html, md5, s);
    if s.solve.success {
      AfterEndsWith([Solve], t);
    }
    if !s.prewarm {
      if s.solve.success {
        AfterKeepsEnd([LoadCookies, Get, Prewarm], full, t.1);
      }
    } else if s.retryGet.Response? {
      var retried := [LoadCookies, Get, Prewarm, Get];
      if s.retryGet.status == 403 {
        if s.solve.success {
          AfterKeepsEnd(retried, full, t.1);
        }
      } else if !IsError(s.retryGet.status) {
        AfterEndsWith(retried, ParseAndDownload(s.retryGet.text, md5, s));
      }
    }
  }

  /** Whatever the mirror does, a file is returned only by a transfer of a
      parsed link, and every transfer is given the md5. */
  lemma NoLinkNoTransfer(kind: LinkType, md5: string, s: Services)
    requires forall page :: s.parse(page).None?
    ensures DownloadFromMirror(kind, md5, s).0.None?
    ensures forall i :: 0 <= i < |DownloadFromMirror(kind, md5, s).1| ==> !DownloadFromMirror(kind, md5, s).1[i].Direct?
  {
  }
}
