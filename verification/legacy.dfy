/** The parts unique to the older single-class downloader (`downloader.py`):
    collecting every resolvable file URL for a multi-source transfer, the
    pure parts of that transfer's set-up, the mirror resolution where a
    slow download always goes through the solver, and the `download` entry
    point with its multi-source gate. The same entry point is kept in
    `direct.py` as the older `orchestrate_download`. */
module Legacy {
  import opened Wrappers
  import opened Strings
  import opened Seqs
  import opened HtmlLinks
  import Cookies
  import Mirrors
  import Direct
  import Orchestrator

  // ---- collecting URLs ----

  /** What resolving one link involves: the solver (configured or not, and
      its answer per URL), a GET per URL, and the two-argument link parser. */
  datatype Resolver = Resolver(
    solverConfigured: bool,
    solve: string -> Cookies.Solved,
    get: string -> Mirrors.Response,
    parse: string -> Option<string>)

  /** The parsed link when it is non-empty. */
  function Parsed(r: Resolver, page: string): Option<string> {
    if r.parse(page).Some? && r.parse(page).value != "" then r.parse(page) else None
  }

  /** Resolving one link: the URL found, if any, and the URLs handed to the solver. */
  function ResolveLink(l: Link, r: Resolver): (res: (Option<string>, seq<string>))
    ensures |res.1| <= 1 && (res.1 != [] ==> res.1 == [l.url])
    ensures !r.solverConfigured ==> res.1 == []
    ensures l.kind == SlowDownload && !r.solverConfigured ==> res == (None, [])
  {
    match l.kind
    case SlowDownload =>
      if !r.solverConfigured then (None, [])
      else
        var solved := r.solve(l.url);
        (if solved.success then Parsed(r, solved.html) else None, [l.url])
    case ExternalMirror =>
      match r.get(l.url)
      case GetRaised => (None, [])
      case Response(status, text) =>
        if status == 403 && r.solverConfigured then
          var solved := r.solve(l.url);
          (if solved.success then Parsed(r, solved.html) else None, [l.url])
        else (Parsed(r, text), [])
  }

  /** The URLs the links resolve to, in link order, with no cap. */
  function Found(links: seq<Link>, r: Resolver): seq<string> {
    if |links| == 0 then []
    else (match ResolveLink(links[0], r).0 case Some(u) => [u] case None => []) + Found(links[1..], r)
  }

  /** The URLs handed to the solver when every link is resolved. */
  function Solved(links: seq<Link>, r: Resolver): seq<string> {
    if |links| == 0 then [] else ResolveLink(links[0], r).1 + Solved(links[1..], r)
  }

  function Min(a: int, b: int): int {
    if a < b then a else b
  }

  /** The loop of `get_all_download_urls` from link `links[0]` on, with the
      URLs collected so far: it stops before a link once `maxUrls` (when
      positive) URLs are collected. Returns the URLs and the solver calls. */
  function Collect(links: seq<Link>, maxUrls: int, r: Resolver, acc: seq<string>): (res: (seq<string>, seq<string>))
    ensures |acc| <= |res.0| <= |acc| + |links|
    ensures res.0[..|acc|] == acc
    ensures maxUrls > 0 && |acc| <= maxUrls ==> |res.0| <= maxUrls
    ensures !r.solverConfigured ==> res.1 == []
    ensures forall i :: 0 <= i < |res.1| ==> exists j :: 0 <= j < |links| && links[j].url == res.1[i]
    decreases |links|
  {
    if |links| == 0 || (maxUrls > 0 && |acc| >= maxUrls) then (acc, [])
    else
      var (found, solved) := ResolveLink(links[0], r);
      var acc' := if found.Some? then acc + [found.value] else acc;
      var rest := Collect(links[1..], maxUrls, r, acc');
      assert rest.0[..|acc|] == acc' [..|acc|];
      assert forall i :: 0 <= i < |rest.1| ==> exists j :: 1 <= j < |links| && links[j].url == rest.1[i] by {
        forall i | 0 <= i < |rest.1|
          ensures exists j :: 1 <= j < |links| && links[j].url == rest.1[i]
        {
          var j :| 0 <= j < |links[1..]| && links[1..][j].url == rest.1[i];
          assert links[j + 1].url == rest.1[i];
        }
      }
      (rest.0, solved + rest.1)
  }

  /** One step of the loop: the first link's URL, if any, joins the
      collected ones and its solver calls come first. */
  lemma CollectStep(links: seq<Link>, maxUrls: int, r: Resolver, acc: seq<string>)
    requires |links| > 0 && !(maxUrls > 0 && |acc| >= maxUrls)
    ensures var f0 := match ResolveLink(links[0], r).0 case Some(u) => [u] case None => [];
      var rest := Collect(links[1..], maxUrls, r, acc + f0);
      && Collect(links, maxUrls, r, acc) == (rest.0, ResolveLink(links[0], r).1 + rest.1)
      && Found(links, r) == f0 + Found(links[1..], r)
      && Solved(links, r) == ResolveLink(links[0], r).1 + Solved(links[1..], r)
  {
    var found := ResolveLink(links[0], r).0;
    var f0 := match found case Some(u) => [u] case None => [];
    assert acc + f0 == if found.Some? then acc + [found.value] else acc;
  }

  lemma ConcatAssoc<T>(a: seq<T>, b: seq<T>, c: seq<T>)
    ensures a + (b + c) == (a + b) + c
  {
  }

  /** Without a cap the loop collects every URL the links resolve to, in
      link order, and makes every solver call. */
  lemma {:induction false} CollectUncapped(links: seq<Link>, maxUrls: int, r: Resolver, acc: seq<string>)
    requires maxUrls <= 0
    ensures Collect(links, maxUrls, r, acc) == (acc + Found(links, r), Solved(links, r))
    decreases |links|
  {
    if |links| == 0 {
      assert acc + Found(links, r) == acc;
    } else {
      CollectStep(links, maxUrls, r, acc);
      var f0 := match ResolveLink(links[0], r).0 case Some(u) => [u] case None => [];
      var fr := Found(links[1..], r);
      CollectUncapped(links[1..], maxUrls, r, acc + f0);
      ConcatAssoc(acc, f0, fr);
    }
  }

  /** With a positive cap the loop collects the URLs the links resolve to,
      in link order, up to the cap. */
  lemma {:induction false} CollectCapped(links: seq<Link>, maxUrls: int, r: Resolver, acc: seq<string>)
    requires 0 < maxUrls && |acc| <= maxUrls
    ensures Collect(links, maxUrls, r, acc).0 == (acc + Found(links, r))[..Min(maxUrls, |acc| + |Found(links, r)|)]
    decreases |links|
  {
    var all := acc + Found(links, r);
    if |links| == 0 {
      assert all == acc;
    } else if |acc| >= maxUrls {
      assert all[..|acc|] == acc;
    } else {
      CollectStep(links, maxUrls, r, acc);
      var f0 := match ResolveLink(links[0], r).0 case Some(u) => [u] case None => [];
      var fr := Found(links[1..], r);
      CollectCapped(links[1..], maxUrls, r, acc + f0);
      CappedShift(acc, f0, fr, maxUrls);
    }
  }

  /** Moving a block from the rest to the collected ones leaves the capped
      whole unchanged. */
  lemma CappedShift<T>(acc: seq<T>, f0: seq<T>, fr: seq<T>, maxUrls: int)
    requires 0 <= maxUrls
    ensures var all := acc + (f0 + fr);
      ((acc + f0) + fr)[..Min(maxUrls, |acc + f0| + |fr|)] == all[..Min(maxUrls, |all|)]
  {
    ConcatAssoc(acc, f0, fr);
  }

  /** The solver calls made are those of the links resolved before the cut:
      a prefix of the calls of resolving every link. */
  lemma {:induction false} CollectCalls(links: seq<Link>, maxUrls: int, r: Resolver, acc: seq<string>)
    ensures var calls := Collect(links, maxUrls, r, acc).1;
      |calls| <= |Solved(links, r)| && calls == Solved(links, r)[..|calls|]
    decreases |links|
  {
    if |links| > 0 && !(maxUrls > 0 && |acc| >= maxUrls) {
      CollectStep(links, maxUrls, r, acc);
      var f0 := match ResolveLink(links[0], r).0 case Some(u) => [u] case None => [];
      CollectCalls(links[1..], maxUrls, r, acc + f0);
    }
  }

  /** `get_all_download_urls`: the collected URLs without repetitions,
      shuffled by the given draws. */
  function GetAllDownloadUrls(links: seq<Link>, maxUrls: int, r: Resolver, draws: seq<nat>): (res: seq<string>)
    ensures Distinct(res)
    ensures multiset(res) == multiset(Dedup(Collect(links, maxUrls, r, []).0))
    ensures forall i :: 0 <= i < |res| ==> res[i] in Collect(links, maxUrls, r, []).0
    ensures forall i :: 0 <= i < |Collect(links, maxUrls, r, []).0| ==> Collect(links, maxUrls, r, []).0[i] in res
    ensures maxUrls > 0 ==> |res| <= maxUrls
  {
    var collected := Collect(links, maxUrls, r, []).0;
    var unique := Dedup(collected);
    var res := Shuffle(unique, draws);
    ShuffleKeepsDistinct(unique, res);
    forall i | 0 <= i < |res|
      ensures res[i] in collected
    {
      assert res[i] in multiset(unique);
    }
    forall i | 0 <= i < |collected|
      ensures collected[i] in res
    {
      assert collected[i] in multiset(res);
    }
    res
  }

  /** Every URL returned is one a link resolves to; without a cap every
      URL a link resolves to is returned. */
  lemma AllUrlsAreResolved(links: seq<Link>, maxUrls: int, r: Resolver, draws: seq<nat>)
    ensures var res := GetAllDownloadUrls(links, maxUrls, r, draws);
      forall i :: 0 <= i < |res| ==> res[i] in Found(links, r)
    ensures maxUrls <= 0 ==> forall u :: u in Found(links, r) ==> u in GetAllDownloadUrls(links, maxUrls, r, draws)
  {
    var collected := Collect(links, maxUrls, r, []).0;
    var found := Found(links, r);
    assert [] + found == found;
    if maxUrls <= 0 {
      CollectUncapped(links, maxUrls, r, []);
      assert collected == found;
    } else {
      CollectCapped(links, maxUrls, r, []);
      assert collected == found[..Min(maxUrls, |found|)];
    }
    assert forall i :: 0 <= i < |collected| ==> collected[i] in found;
  }

  /** A permutation of a sequence without repetitions has none either. */
  lemma ShuffleKeepsDistinct<T>(xs: seq<T>, ys: seq<T>)
    requires Distinct(xs) && multiset(ys) == multiset(xs)
    ensures Distinct(ys)
  {
    DistinctIffCountsOne(xs);
    forall i, j | 0 <= i < j < |ys|
      ensures ys[i] != ys[j]
    {
      if ys[i] == ys[j] {
        CountAtLeastTwo(ys, i, j);
        assert false;
      }
    }
  }

  lemma {:induction false} DistinctIffCountsOne<T>(xs: seq<T>)
    requires Distinct(xs)
    ensures forall x :: x in multiset(xs) ==> multiset(xs)[x] == 1
    decreases |xs|
  {
    if |xs| > 0 {
      var init := xs[..|xs| - 1];
      assert Distinct(init);
      DistinctIffCountsOne(init);
      assert xs == init + [xs[|xs| - 1]];
      assert xs[|xs| - 1] !in multiset(init);
    }
  }

  lemma CountAtLeastTwo<T>(ys: seq<T>, i: nat, j: nat)
    requires i < j < |ys| && ys[i] == ys[j]
    ensures multiset(ys)[ys[i]] >= 2
  {
    assert ys == ys[..i] + [ys[i]] + ys[i + 1..j] + [ys[j]] + ys[j + 1..];
  }

  /** Without a solver no URL is ever handed to it and slow-download links
      add nothing. */
  lemma {:induction false} CollectNothing(links: seq<Link>, maxUrls: int, r: Resolver)
    requires !r.solverConfigured
    requires forall i :: 0 <= i < |links| ==> links[i].kind == SlowDownload
    ensures Collect(links, maxUrls, r, []) == ([], [])
    decreases |links|
  {
    if |links| > 0 {
      CollectNothing(links[1..], maxUrls, r);
    }
  }

  // ---- multi-source transfer set-up ----

  /** A URL that names one of the known formats. */
  predicate NamesFormat(url: string) {
    var u := Lower(url);
    Contains(u, ".pdf") || Contains(u, ".mobi") || Contains(u, ".azw") || Contains(u, ".cbr") || Contains(u, ".cbz")
  }

  /** The extension for a multi-source transfer: that of the first URL naming a format, else `.epub`. */
  function Aria2Extension(urls: seq<string>): (e: string)
    ensures e == ".pdf" || e == ".mobi" || e == ".cbz" || e == ".epub"
  {
    var k := FirstIndex(urls, NamesFormat);
    if k.Some? then Direct.Extension(urls[k.value]) else ".epub"
  }

  /** Without a URL naming a format the extension is `.epub`. */
  lemma Aria2ExtensionDefault(urls: seq<string>)
    requires forall i :: 0 <= i < |urls| ==> !NamesFormat(urls[i])
    ensures Aria2Extension(urls) == ".epub"
  {
  }

  /** The first URL naming a format decides the extension, by the priority
      of the single-source transfer. */
  lemma Aria2ExtensionFromFirst(urls: seq<string>, i: nat)
    requires i < |urls| && NamesFormat(urls[i])
    requires forall j :: 0 <= j < i ==> !NamesFormat(urls[j])
    ensures Aria2Extension(urls) == Direct.Extension(urls[i])
  {
    var k := FirstIndex(urls, NamesFormat);
    if k.value < i {
      assert false;
    }
    if k.value > i {
      assert false;
    }
  }

  /** The pure parts of the transfer command: the output name, the number
      of connections and the attempt count. */
  datatype Aria2Plan = Aria2Plan(fileName: string, split: nat, maxTries: nat)

  const MaxSplit: nat := 16

  /** `download_with_aria2` up to starting the transfer: nothing without
      the tool or without URLs. `urlName` is the decoded last path segment of
      the first URL. */
  function PlanAria2(hasAria2: bool, urls: seq<string>, title: Option<string>, urlName: string, resumeAttempts: nat)
    : (r: Option<Aria2Plan>)
    ensures r.None? <==> !hasAria2 || |urls| == 0
    ensures r.Some? ==> 1 <= r.value.split <= MaxSplit && r.value.split <= |urls|
    ensures r.Some? ==> (r.value.split == MaxSplit || r.value.split == |urls|)
    ensures r.Some? ==> Direct.Clean(r.value.fileName) && '.' in r.value.fileName
    ensures r.Some? ==> r.value.maxTries == resumeAttempts
  {
    if !hasAria2 || |urls| == 0 then None
    else
      var name := Direct.BaseName(title, urlName);
      var withExt := if '.' in name then name else name + Aria2Extension(urls);
      assert '.' in withExt by {
        if '.' !in name {
          assert withExt[|name|] == '.';
        }
      }
      Direct.SanitizeClean(withExt);
      Direct.SanitizeKeepsDot(withExt);
      Some(Aria2Plan(Direct.Sanitize(withExt), if |urls| < MaxSplit then |urls| else MaxSplit, resumeAttempts))
  }

  // ---- mirror resolution of this revision ----

  /** `download_from_mirror` of this revision: a slow download is never
      fetched directly, only through the solver; an external mirror's 403 is
      retried after a pre-warm and solved only when the retry is refused again. */
  function DownloadFromMirror(kind: LinkType, md5: string, s: Mirrors.Services): (r: (Option<string>, seq<Mirrors.Event>))
    ensures Mirrors.WellFormed(r, md5)
    ensures kind == SlowDownload ==> Mirrors.CountGets(r.1) == 0
    ensures kind == SlowDownload && !s.solverConfigured ==> r == (None, [])
    ensures kind == ExternalMirror && s.firstGet.Response? && s.firstGet.status == 403 && s.solverConfigured && !s.prewarm ==>
      r.0.None? && Mirrors.CountSolves(r.1) == 0
    ensures kind == SlowDownload && s.solverConfigured && s.solve.success ==>
      r == Mirrors.After([Mirrors.Solve], Mirrors.ParseAndDownload(s.solve.html, md5, s))
    ensures (&& kind == ExternalMirror && s.firstGet.Response? && s.firstGet.status != 403
             && !Mirrors.IsError(s.firstGet.status)) ==>
      r == Mirrors.After([Mirrors.Get], Mirrors.ParseAndDownload(s.firstGet.text, md5, s))
    ensures (&& kind == ExternalMirror && s.firstGet.Response? && s.firstGet.status == 403
             && s.solverConfigured && s.prewarm && s.retryGet.Response?) ==>
      (s.retryGet.status == 403 ==>
         r == Mirrors.After([Mirrors.Get, Mirrors.Prewarm, Mirrors.Get], Mirrors.FullSolve(md5, s))) &&
      (s.retryGet.status != 403 && !Mirrors.IsError(s.retryGet.status) ==>
         r == Mirrors.After([Mirrors.Get, Mirrors.Prewarm, Mirrors.Get], Mirrors.ParseAndDownload(s.retryGet.text, md5, s)))
  {
    match kind
    case SlowDownload =>
      if !s.solverConfigured then (None, [])
      else if !s.solve.success then (None, [Mirrors.Solve])
      else
        Mirrors.AfterWellFormed([Mirrors.Solve], Mirrors.ParseAndDownload(s.solve.html, md5, s), md5);
        Mirrors.After([Mirrors.Solve], Mirrors.ParseAndDownload(s.solve.html, md5, s))
    case ExternalMirror =>
      var pre := [Mirrors.Get];
      match s.firstGet
      case GetRaised => (None, pre)
      case Response(status, text) =>
        if status == 403 then
          if !s.solverConfigured then (None, pre)
          else if !s.prewarm then
            // the refused page falls through to `raise_for_status`
            assert Mirrors.CountSolves([Mirrors.Get, Mirrors.Prewarm]) == 0;
            (None, [Mirrors.Get, Mirrors.Prewarm])
          else
            var retried := [Mirrors.Get, Mirrors.Prewarm, Mirrors.Get];
            match s.retryGet
            case GetRaised => (None, retried)
            case Response(status2, text2) =>
              if status2 == 403 then
                Mirrors.AfterWellFormed(retried, Mirrors.FullSolve(md5, s), md5);
                Mirrors.After(retried, Mirrors.FullSolve(md5, s))
              else if Mirrors.IsError(status2) then (None, retried)
              else
                Mirrors.AfterWellFormed(retried, Mirrors.ParseAndDownload(text2, md5, s), md5);
                Mirrors.After(retried, Mirrors.ParseAndDownload(text2, md5, s))
        else if Mirrors.IsError(status) then (None, pre)
        else
          Mirrors.AfterWellFormed(pre, Mirrors.ParseAndDownload(text, md5, s), md5);
          Mirrors.After(pre, Mirrors.ParseAndDownload(text, md5, s))
  }

  /** The page whose links this revision's mirror attempt follows, if any: the
      solved page for a slow download; for an external mirror the first page,
      or after a refusal and a pre-warm the retried page, or the solved page
      when the retry is refused again. */
  function PageReached(kind: LinkType, s: Mirrors.Services): Option<string> {
    var solved := if s.solverConfigured && s.solve.success then Some(s.solve.html) else None;
    match kind
    case SlowDownload => solved
    case ExternalMirror =>
      match s.firstGet
      case GetRaised => None
      case Response(status, text) =>
        if status != 403 then (if Mirrors.IsError(status) then None else Some(text))
        else if !s.solverConfigured || !s.prewarm then None
        else match s.retryGet
          case GetRaised => None
          case Response(status2, text2) =>
            if status2 == 403 then solved
            else if Mirrors.IsError(status2) then None
            else Some(text2)
  }

  /** This revision's mirror attempt is the parse-and-transfer of the page it
      reaches; when no page is reached nothing is transferred. */
  lemma MirrorParsesReachedPage(kind: LinkType, md5: string, s: Mirrors.Services)
    ensures var r := DownloadFromMirror(kind, md5, s);
      match PageReached(kind, s)
      case None => r.0.None? && forall i :: 0 <= i < |r.1| ==> !r.1[i].Direct?
      case Some(page) =>
        r.0 == Mirrors.ParseAndDownload(page, md5, s).0 &&
        Mirrors.EndsWithTrace(r.1, Mirrors.ParseAndDownload(page, md5, s).1)
  {
    var t := Mirrors.ParseAndDownload(s.solve.html, md5, s);
    if s.solverConfigured && s.solve.success {
      Mirrors.AfterEndsWith([Mirrors.Solve], t);
    }
    if kind == ExternalMirror && s.firstGet.Response? {
      var status := s.firstGet.status;
      if status != 403 {
        if !Mirrors.IsError(status) {
          Mirrors.AfterEndsWith([Mirrors.Get], Mirrors.ParseAndDownload(s.firstGet.text, md5, s));
        }
      } else if s.solverConfigured && s.prewarm && s.retryGet.Response? {
        var retried := [Mirrors.Get, Mirrors.Prewarm, Mirrors.Get];
        if s.retryGet.status == 403 {
          if s.solve.success {
            Mirrors.AfterKeepsEnd(retried, Mirrors.FullSolve(md5, s), t.1);
          }
        } else if !Mirrors.IsError(s.retryGet.status) {
          Mirrors.AfterEndsWith(retried, Mirrors.ParseAndDownload(s.retryGet.text, md5, s));
        }
      }
    }
  }

  // ---- the entry point ----

  /** The collaborators of `download`. */
  datatype Services = Services(
    extractMd5: string -> Option<string>,
    getDownloadLinks: string -> (string, seq<Link>),
    fastEnabled: bool,
    fastKey: string,
    tryFastDownload: string -> (bool, string),
    downloadDirect: (string, string) -> Option<string>,
    enableAria2: bool,
    getAllDownloadUrls: string -> seq<string>,
    downloadWithAria2: (seq<string>, string) -> Option<string>,
    downloadFromMirror: (Link, string, string) -> Option<string>)

  /** The result pair `(success, used_fast_download)`, and what was called:
      whether the multi-source URLs were collected and whether a
      multi-source transfer ran, with the mirrors tried. */
  datatype Report = Report(success: bool, usedFast: bool, collected: bool, aria2Ran: bool, mirrorsTried: seq<Link>)

  /** The md5 found in the input, if any (an empty one counts as none). */
  function Md5Of(input: string, s: Services): Option<string> {
    var m := s.extractMd5(input);
    if m.Some? && m.value != "" then m else None
  }

  /** The title used: a non-empty override, else the fetched one. */
  function TitleFor(md5: string, titleOverride: Option<string>, s: Services): string {
    if titleOverride.Some? && titleOverride.value != "" then titleOverride.value else s.getDownloadLinks(md5).0
  }

  /** The fast path is configured, hands out a URL, and its transfer yields a file. */
  predicate FastSucceeds(md5: string, title: string, s: Services) {
    s.fastEnabled && s.fastKey != "" && s.tryFastDownload(md5).0
    && Orchestrator.IsFile(s.downloadDirect(s.tryFastDownload(md5).1, title))
  }

  /** The multi-source transfer is started: enabled, more than one link, and at least two URLs collected. */
  predicate Aria2Runs(md5: string, s: Services) {
    s.enableAria2 && |s.getDownloadLinks(md5).1| > 1 && |s.getAllDownloadUrls(md5)| >= 2
  }

  predicate Aria2Succeeds(md5: string, title: string, s: Services) {
    Aria2Runs(md5, s) && Orchestrator.IsFile(s.downloadWithAria2(s.getAllDownloadUrls(md5), title))
  }

  /** `download` (and the older `orchestrate_download` of `direct.py`): the
      fast path when it yields a file, else the multi-source transfer when it
      runs and yields one, else the mirrors in order until one yields a file. */
  function Download(input: string, prefer: Option<string>, titleOverride: Option<string>, s: Services, draws: seq<nat>)
    : (r: Report)
    ensures Md5Of(input, s).None? ==> r == Report(false, false, false, false, [])
    ensures r.usedFast <==> (Md5Of(input, s).Some? && FastSucceeds(Md5Of(input, s).value, TitleFor(Md5Of(input, s).value, titleOverride, s), s))
    ensures r.usedFast ==> r.success && !r.collected && r.mirrorsTried == []
    ensures Md5Of(input, s).Some? && !r.usedFast ==>
      var m := Md5Of(input, s).value;
      var title := TitleFor(m, titleOverride, s);
      && (r.collected <==> s.enableAria2 && |s.getDownloadLinks(m).1| > 1)
      && (r.aria2Ran <==> Aria2Runs(m, s))
      && (Aria2Succeeds(m, title, s) ==> r.success && r.mirrorsTried == [])
      && (!Aria2Succeeds(m, title, s) ==>
            var phase := Orchestrator.MirrorPhase(s.getDownloadLinks(m).1, prefer, draws, l => s.downloadFromMirror(l, m, title));
            r.success == phase.0.Some? && r.mirrorsTried == phase.1)
  {
    match Md5Of(input, s)
    case None => Report(false, false, false, false, [])
    case Some(m) =>
      var (fetchedTitle, links) := s.getDownloadLinks(m);
      var title := TitleFor(m, titleOverride, s);
      var fastOn := s.fastEnabled && s.fastKey != "";
      var fast := if fastOn then s.tryFastDownload(m) else (false, "");
      var fastFile := if fastOn && fast.0 then s.downloadDirect(fast.1, title) else None;
      if Orchestrator.IsFile(fastFile) then Report(true, true, false, false, [])
      else
        var collect := s.enableAria2 && |links| > 1;
        var urls := if collect then s.getAllDownloadUrls(m) else [];
        var runAria2 := collect && |urls| >= 2;
        var aria2File := if runAria2 then s.downloadWithAria2(urls, title) else None;
        if Orchestrator.IsFile(aria2File) then Report(true, false, collect, runAria2, [])
        else
          var (file, tried) := Orchestrator.MirrorPhase(links, prefer, draws, l => s.downloadFromMirror(l, m, title));
          Report(file.Some?, false, collect, runAria2, tried)
  }

  /** The multi-source transfer is attempted only with more than one link
      and at least two collected URLs; when it fails the mirrors are tried
      as if it had not run. */
  lemma Aria2FailureFallsBack(input: string, prefer: Option<string>, s: Services, draws: seq<nat>)
    requires s.extractMd5(input).Some? && s.extractMd5(input).value != ""
    requires !(s.fastEnabled && s.fastKey != "")
    requires var m := s.extractMd5(input).value;
      s.enableAria2 && |s.getDownloadLinks(m).1| > 1 && |s.getAllDownloadUrls(m)| >= 2
      && s.downloadWithAria2(s.getAllDownloadUrls(m), s.getDownloadLinks(m).0).None?
    ensures var r := Download(input, prefer, None, s, draws);
      var m := s.extractMd5(input).value;
      var t := s.getDownloadLinks(m).0;
      r.collected && r.aria2Ran
      && (r.success, r.mirrorsTried) == (Orchestrator.MirrorPhase(s.getDownloadLinks(m).1, prefer, draws,
                                           l => s.downloadFromMirror(l, m, t)).0.Some?,
                                         Orchestrator.MirrorPhase(s.getDownloadLinks(m).1, prefer, draws,
                                           l => s.downloadFromMirror(l, m, t)).1)
  {
  }
}
