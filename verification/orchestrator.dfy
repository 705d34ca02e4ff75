/** The download orchestration (`orchestrator.py`): extract the md5, fetch
    the links when they were not given, try the fast path, then try the
    mirrors one at a time in preferred-first or shuffled order. The
    downloader's collaborators are oracles. */
module Orchestrator {
  import opened Wrappers
  import opened Strings
  import opened Seqs
  import opened HtmlLinks

  /** The collaborators: md5 extraction, link fetching, the fast-download
      gate and API, and the two transfer entry points, each called with the
      md5 and the title. */
  datatype Services = Services(
    extractMd5: string -> Option<string>,
    getDownloadLinks: string -> (string, seq<Link>),
    fastEnabled: bool,
    fastKey: string,
    tryFastDownload: string -> (bool, string),
    downloadDirect: (string, Option<string>, string) -> Option<string>,
    downloadFromMirror: (Link, string, Option<string>) -> Option<string>)

  /** The result triple `(success, used_fast_download, filepath)` and what
      was called on the way: whether links were fetched, whether the fast API
      was asked, whether a fast URL was downloaded, and the mirrors tried in
      order. */
  datatype Report = Report(success: bool, usedFast: bool, filepath: Option<string>,
                           fetched: bool, fastTried: bool, fastDownloaded: bool, mirrorsTried: seq<Link>)

  const NoMd5: Report := Report(false, false, None, false, false, false, [])

  /** A link whose domain contains the preferred mirror name, ignoring case. */
  predicate Prefers(pref: string, l: Link) {
    Contains(Lower(l.domain), Lower(pref))
  }

  /** Preferred links first, then the others. */
  function Partition(links: seq<Link>, pref: string): (r: seq<Link>)
    ensures multiset(r) == multiset(links) && |r| == |links|
    ensures forall i :: 0 <= i < |r| ==> (Prefers(pref, r[i]) <==> i < |Filter(links, l => Prefers(pref, l))|)
  {
    var p := l => Prefers(pref, l);
    KeptThenDropped(links, p);
    Filter(links, p) + Filter(links, Not(p))
  }

  /** The partition is stable: the preferred links, and the others, each
      keep their original relative order; partitioning again changes nothing. */
  lemma PartitionStable(links: seq<Link>, pref: string)
    ensures var p := l => Prefers(pref, l);
      Filter(Partition(links, pref), p) == Filter(links, p)
      && Filter(Partition(links, pref), Not(p)) == Filter(links, Not(p))
    ensures Partition(Partition(links, pref), pref) == Partition(links, pref)
  {
    var p := l => Prefers(pref, l);
    var a := Filter(links, p);
    var b := Filter(links, Not(p));
    FilterConcat(a, b, p);
    FilterConcat(a, b, Not(p));
    FilterIdempotent(links, p);
    FilterIdempotent(links, Not(p));
    FilterComplementEmpty(links, p);
    assert Filter(a + b, p) == a;
    assert Filter(a + b, Not(p)) == b;
  }

  /** The order mirrors are tried in: a non-empty preference partitions, no
      preference shuffles. */
  function MirrorOrder(links: seq<Link>, prefer: Option<string>, draws: seq<nat>): (r: seq<Link>)
    ensures multiset(r) == multiset(links) && |r| == |links|
  {
    if prefer.Some? && prefer.value != "" then Partition(links, prefer.value) else Shuffle(links, draws)
  }

  /** A transfer result the source treats as a file: a path that is present
      and non-empty (`if filepath:`). */
  predicate IsFile(f: Option<string>) {
    f.Some? && f.value != ""
  }

  /** Tries the mirrors in order until one yields a file; returns it and how
      many mirrors were tried. */
  function TryMirrors(links: seq<Link>, attempt: Link -> Option<string>): (r: (Option<string>, nat))
    ensures 0 < r.1 <= |links| || (r.1 == 0 && |links| == 0)
    ensures forall j :: 0 <= j < r.1 - 1 ==> !IsFile(attempt(links[j]))
    ensures r.0.Some? ==> r.1 > 0 && IsFile(r.0) && r.0 == attempt(links[r.1 - 1])
    ensures r.0.None? <==> forall j :: 0 <= j < |links| ==> !IsFile(attempt(links[j]))
    ensures r.0.None? ==> r.1 == |links|
    decreases |links|
  {
    if |links| == 0 then (None, 0)
    else if IsFile(attempt(links[0])) then (attempt(links[0]), 1)
    else
      var rest := TryMirrors(links[1..], attempt);
      assert forall j :: 1 <= j < |links| ==> links[j] == links[1..][j - 1];
      (rest.0, rest.1 + 1)
  }

  /** The mirrors phase: the file found, if any, and the mirrors tried, a
      prefix of the chosen order. */
  function MirrorPhase(links: seq<Link>, prefer: Option<string>, draws: seq<nat>, attempt: Link -> Option<string>)
    : (r: (Option<string>, seq<Link>))
    ensures |r.1| <= |links| && r.1 == MirrorOrder(links, prefer, draws)[..|r.1|]
    ensures forall j :: 0 <= j < |r.1| - 1 ==> !IsFile(attempt(r.1[j]))
    ensures r.0.Some? ==> |r.1| > 0 && IsFile(r.0) && r.0 == attempt(r.1[|r.1| - 1])
    ensures r.0.None? ==> |r.1| == |links|
  {
    var order := MirrorOrder(links, prefer, draws);
    var (file, n) := TryMirrors(order, attempt);
    var tried := order[..n];
    assert forall j :: 0 <= j < n ==> tried[j] == order[j];
    (file, tried)
  }

  /** The title and links the mirrors phase works with: fetched when either was not given. */
  function Resolve(md5: string, filename: Option<string>, links: Option<seq<Link>>, s: Services): (r: (Option<string>, seq<Link>))
    ensures filename.Some? && links.Some? ==> r == (filename, links.value)
    ensures filename.None? || links.None? ==> r.0 == Some(s.getDownloadLinks(md5).0) && r.1 == s.getDownloadLinks(md5).1
  {
    if filename.None? || links.None? then (Some(s.getDownloadLinks(md5).0), s.getDownloadLinks(md5).1)
    else (filename, links.value)
  }

  predicate FastConfigured(s: Services) {
    s.fastEnabled && s.fastKey != ""
  }

  /** The md5 found in the input, if any (an empty one counts as none). */
  function Md5Of(input: string, s: Services): (r: Option<string>)
    ensures r.Some? <==> s.extractMd5(input).Some? && s.extractMd5(input).value != ""
    ensures r.Some? ==> r == s.extractMd5(input)
  {
    var m := s.extractMd5(input);
    if m.Some? && m.value != "" then m else None
  }

  /** The fast path succeeds: it is configured, the API hands out a URL, and
      the transfer of that URL yields a file. */
  predicate FastSucceeds(md5: string, title: Option<string>, s: Services) {
    FastConfigured(s) && s.tryFastDownload(md5).0 && IsFile(s.downloadDirect(s.tryFastDownload(md5).1, title, md5))
  }

  /** `orchestrate_download`. */
  function Orchestrate(input: string, prefer: Option<string>, filename: Option<string>, links: Option<seq<Link>>,
                       s: Services, draws: seq<nat>): (r: Report)
    ensures Md5Of(input, s).None? ==> r == NoMd5
    ensures r.success <==> r.filepath.Some?
    ensures r.success ==> IsFile(r.filepath)
    ensures r.usedFast <==>
      (Md5Of(input, s).Some? && FastSucceeds(Md5Of(input, s).value, Resolve(Md5Of(input, s).value, filename, links, s).0, s))
    ensures r.fetched <==> Md5Of(input, s).Some? && (filename.None? || links.None?)
    ensures r.fastTried <==> Md5Of(input, s).Some? && FastConfigured(s)
    ensures r.fastDownloaded ==> r.fastTried && s.tryFastDownload(Md5Of(input, s).value).0
    ensures r.usedFast ==> r.fastDownloaded && r.success && r.mirrorsTried == []
    ensures r.usedFast ==> r.filepath == s.downloadDirect(s.tryFastDownload(Md5Of(input, s).value).1,
                                                         Resolve(Md5Of(input, s).value, filename, links, s).0,
                                                         Md5Of(input, s).value)
    ensures Md5Of(input, s).Some? && !r.usedFast ==>
      var md5 := Md5Of(input, s).value;
      var (title, ls) := Resolve(md5, filename, links, s);
      (r.filepath, r.mirrorsTried) == MirrorPhase(ls, prefer, draws, l => s.downloadFromMirror(l, md5, title))
  {
    match Md5Of(input, s)
    case None => NoMd5
    case Some(m) =>
      var fetch := filename.None? || links.None?;
      var (title, ls) := Resolve(m, filename, links, s);
      var fastOn := FastConfigured(s);
      var fast := if fastOn then s.tryFastDownload(m) else (false, "");
      var fastFile := if fastOn && fast.0 then s.downloadDirect(fast.1, title, m) else None;
      if IsFile(fastFile) then Report(true, true, fastFile, fetch, fastOn, true, [])
      else
        var (file, tried) := MirrorPhase(ls, prefer, draws, l => s.downloadFromMirror(l, m, title));
        Report(file.Some?, false, file, fetch, fastOn, fastOn && fast.0, tried)
  }

  /** A fast URL whose transfer fails falls through to the mirrors: the first
      mirror that yields a file gives `(True, False, file)`. */
  lemma FastFailureFallsThrough(input: string, filename: string, links: seq<Link>, s: Services, pref: string, file: string)
    requires Md5Of(input, s).Some?
    requires FastConfigured(s)
    requires var md5 := Md5Of(input, s).value;
      s.tryFastDownload(md5).0 && s.downloadDirect(s.tryFastDownload(md5).1, Some(filename), md5).None?
    requires pref != "" && |links| > 0
    requires file != ""
    requires s.downloadFromMirror(Partition(links, pref)[0], Md5Of(input, s).value, Some(filename)) == Some(file)
    ensures var r := Orchestrate(input, Some(pref), Some(filename), Some(links), s, []);
      r.success && !r.usedFast && r.filepath == Some(file) && !r.fetched && r.fastDownloaded
      && r.mirrorsTried == [Partition(links, pref)[0]]
  {
    var r := Orchestrate(input, Some(pref), Some(filename), Some(links), s, []);
    assert |Partition(links, pref)| == |links|;
  }

  /** Without links the mirrors phase reports failure; a given title and
      link list are never re-fetched. */
  lemma NoLinksFails(input: string, filename: string, s: Services, prefer: Option<string>, draws: seq<nat>)
    requires Md5Of(input, s).Some?
    requires !FastConfigured(s)
    ensures var r := Orchestrate(input, prefer, Some(filename), Some([]), s, draws);
      !r.success && !r.fetched && !r.fastTried && r.mirrorsTried == []
  {
  }
}
