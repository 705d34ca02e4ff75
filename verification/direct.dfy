/** The transfer engine (`download_direct` in `direct.py`): the output file
    name, the `.part` staging file and its resume offset, the `Range` request
    of section 14.2 of RFC 9110, the total size of a 206 Partial Content reply
    (section 15.3.7 of RFC 9110), the HTML sniff, the 1 KiB floor and the
    bounded retries.

    Bytes are modelled as characters, the staging file as its contents
    (`None` when absent), and the server as an oracle answering each attempt's
    request. */
module Direct {
  import opened Wrappers
  import opened Strings
  import UniqueName

  // ---- file name ----

  /** Characters not allowed in a file name; each becomes '_'. */
  predicate IsForbidden(c: char) {
    c == '<' || c == '>' || c == ':' || c == '"' || c == '/' || c == '\\' || c == '|' || c == '?' || c == '*'
  }

  function Sanitize(s: string): (r: string)
    ensures |r| == |s|
    ensures forall i :: 0 <= i < |s| ==> r[i] == (if IsForbidden(s[i]) then '_' else s[i])
  {
    seq(|s|, i requires 0 <= i < |s| => if IsForbidden(s[i]) then '_' else s[i])
  }

  /** No character of `s` is forbidden. */
  predicate Clean(s: string) {
    forall i :: 0 <= i < |s| ==> !IsForbidden(s[i])
  }

  /** A sanitised name is clean, and a clean name is left as it is. */
  lemma SanitizeClean(s: string)
    ensures Clean(Sanitize(s))
    ensures Clean(s) ==> Sanitize(s) == s
  {
  }

  /** Sanitising works character by character. */
  lemma SanitizeConcat(a: string, b: string)
    ensures Sanitize(a + b) == Sanitize(a) + Sanitize(b)
  {
  }

  lemma SanitizeKeepsDot(s: string)
    ensures '.' in Sanitize(s) <==> '.' in s
  {
    if '.' in s {
      var j :| 0 <= j < |s| && s[j] == '.';
      assert Sanitize(s)[j] == '.';
    }
    if '.' in Sanitize(s) {
      var j :| 0 <= j < |s| && Sanitize(s)[j] == '.';
      assert s[j] == '.';
    }
  }

  /** The extension guessed from the URL: `.pdf`, then `.mobi` for
      `.mobi`/`.azw`, then `.cbz` for `.cbr`/`.cbz`, else `.epub`. */
  function Extension(url: string): (e: string)
    ensures e == ".pdf" || e == ".mobi" || e == ".cbz" || e == ".epub"
    ensures e == ".pdf" <==> Contains(Lower(url), ".pdf")
    ensures e[0] == '.' && Clean(e)
  {
    var u := Lower(url);
    ExtensionsDiffer();
    if Contains(u, ".pdf") then ".pdf"
    else if Contains(u, ".mobi") || Contains(u, ".azw") then ".mobi"
    else if Contains(u, ".cbr") || Contains(u, ".cbz") then ".cbz"
    else ".epub"
  }

  /** The four extensions are clean, start with a dot, and differ from `.pdf`. */
  lemma ExtensionsDiffer()
    ensures ".mobi" != ".pdf" && ".cbz" != ".pdf" && ".epub" != ".pdf"
    ensures Clean(".pdf") && Clean(".mobi") && Clean(".cbz") && Clean(".epub")
  {
    assert ".mobi"[1] != ".pdf"[1] && ".cbz"[1] != ".pdf"[1] && ".epub"[1] != ".pdf"[1];
  }

  /** The name before the extension check: the sanitised title, else the
      URL's decoded last path segment, else `download`. */
  function BaseName(title: Option<string>, urlName: string): string {
    if title.Some? && title.value != "" then Sanitize(title.value)
    else if urlName != "" then urlName
    else "download"
  }

  /** The base name, with the URL's extension appended when it has no dot. */
  function WithExtension(name: string, url: string): (r: string)
    ensures '.' in r
  {
    if '.' in name then name
    else
      assert (name + Extension(url))[|name|] == '.';
      name + Extension(url)
  }

  /** The output file name: the base name with its extension, sanitised. */
  function FileName(title: Option<string>, url: string, urlName: string): (r: string)
    ensures Clean(r) && '.' in r
  {
    var withExt := WithExtension(BaseName(title, urlName), url);
    SanitizeClean(withExt);
    SanitizeKeepsDot(withExt);
    Sanitize(withExt)
  }

  /** A non-empty title names the file: as it is, sanitised, when it has a
      dot, with the URL's extension otherwise; and no title and no name in
      the URL give `download` with the URL's extension. */
  lemma FileNameCases(title: Option<string>, url: string, urlName: string)
    ensures title.Some? && title.value != "" && '.' in title.value ==> FileName(title, url, urlName) == Sanitize(title.value)
    ensures title.Some? && title.value != "" && '.' !in title.value ==> FileName(title, url, urlName) == Sanitize(title.value) + Extension(url)
    ensures (title.None? || title.value == "") && urlName == "" ==> FileName(title, url, urlName) == "download" + Extension(url)
  {
    var ext := Extension(url);
    SanitizeClean(ext);
    if title.Some? && title.value != "" {
      var t := Sanitize(title.value);
      SanitizeClean(title.value);
      SanitizeClean(t);
      SanitizeKeepsDot(title.value);
      SanitizeConcat(t, ext);
    } else if urlName == "" {
      assert !('.' in "download") by {
        assert forall i :: 0 <= i < 8 ==> "download"[i] != '.';
      }
      assert Clean("download" + ext);
      SanitizeClean("download" + ext);
    }
  }

  /** The staging file: the final name plus `.part`, in the incomplete folder. */
  function StagingPath(incompleteDir: string, finalPath: UniqueName.Path): (r: UniqueName.Path)
    ensures r.parent == incompleteDir && EndsWith(r.name, ".part")
    ensures r.name[..|r.name| - 5] == finalPath.name
  {
    UniqueName.Path(incompleteDir, finalPath.name + ".part")
  }

  // ---- one attempt ----

  /** A reply: status, `Content-Type`, parsed `Content-Length`, the bytes
      delivered, and whether the stream broke after them. A request that
      raises before any byte arrives is an interrupted empty reply; it leaves
      an empty staging file where the code leaves none, which no later
      decision can tell apart, since both resume from offset 0. */
  datatype Reply = Reply(status: int, contentType: string, contentLength: Option<nat>, body: string, interrupted: bool)

  /** The reply to the attempt's request, and the reply to the fresh request
      made when a resumed request is refused. */
  datatype Attempt = Attempt(reply: Reply, freshReply: Reply)

  /** The transfer state carried from attempt to attempt. */
  datatype Progress = Progress(part: Option<string>, downloaded: nat, totalSize: Option<nat>)

  datatype AttemptResult = Saved(content: string) | GaveUp(partLeft: Option<string>) | Raised(next: Progress)

  /** The `Range: bytes=N-` offset sent, if any. */
  function RangeHeader(p: Progress, supportsResume: bool): (r: Option<nat>)
    ensures r.Some? <==> p.downloaded > 0 && supportsResume
    ensures r.Some? ==> r.value == p.downloaded
  {
    if p.downloaded > 0 && supportsResume then Some(p.downloaded) else None
  }

  /** What writing `x` does: append when something was downloaded, else truncate. */
  function Write(p: Progress, x: string): string {
    if p.downloaded > 0 then p.part.GetOr("") + x else x
  }

  predicate SniffsHtml(chunk: string) {
    Contains(Lower(chunk), "<html") || Contains(Lower(chunk), "<!doctype")
  }

  const MinimumSize: nat := 1024
  const SniffSize: nat := 1024

  /** A `text/html` reply whose first KiB looks like a page. */
  predicate HtmlRejected(reply: Reply) {
    Contains(Lower(reply.contentType), "text/html") && Take(reply.body, SniffSize) != ""
    && SniffsHtml(Take(reply.body, SniffSize))
  }

  /** The total size known after a reply: the one known before, else the
      reply's `Content-Length`, offset by the bytes held before the body for
      a 206 reply. As written that offset includes a sniffed first KiB; when
      `corrected` it is the offset the request asked for. */
  function TotalAfter(p: Progress, reply: Reply, corrected: bool): Option<nat> {
    var sniffed := if Contains(Lower(reply.contentType), "text/html") then |Take(reply.body, SniffSize)| else 0;
    if p.totalSize.Some? || reply.contentLength.None? then p.totalSize
    else if reply.status != 206 then reply.contentLength
    else Some((if corrected then p.downloaded else p.downloaded + sniffed) + reply.contentLength.value)
  }

  /** Fewer bytes held than a known, non-zero total. */
  predicate Incomplete(p: Progress, reply: Reply, corrected: bool) {
    var total := TotalAfter(p, reply, corrected);
    total.Some? && total.value > 0 && p.downloaded + |reply.body| < total.value
  }

  /** Receiving one reply into the staging file from the state `p`. With
      `corrected` false this is the code as written; with `corrected` true the
      total of a 206 reply is taken from the offset the request asked for,
      before the sniffed first KiB is counted. */
  function Receive(p: Progress, reply: Reply, corrected: bool): (r: AttemptResult)
    ensures r.Raised? && p.totalSize.Some? ==> r.next.totalSize == p.totalSize
    ensures r.Saved? ==> |r.content| >= MinimumSize && !reply.interrupted
    ensures r.Raised? ==> r.next.part.Some? && r.next.downloaded == p.downloaded + |reply.body|
  {
    var html := Contains(Lower(reply.contentType), "text/html");
    var first := if html then Take(reply.body, SniffSize) else "";
    if first != "" && SniffsHtml(first) then GaveUp(p.part)
    else
      var p2 := if first != "" then Progress(Some(Write(p, first)), p.downloaded + |first|, p.totalSize) else p;
      var offset := if corrected then p.downloaded else p2.downloaded;
      var total :=
        if p.totalSize.None? && reply.contentLength.Some? then
          Some(if reply.status == 206 then offset + reply.contentLength.value else reply.contentLength.value)
        else p.totalSize;
      var rest := reply.body[|first|..];
      var p3 := Progress(Some(Write(p2, rest)), p2.downloaded + |rest|, total);
      if reply.interrupted then Raised(p3)
      else if total.Some? && total.value > 0 && p3.downloaded < total.value then Raised(p3)
      else if |p3.part.value| < MinimumSize then GaveUp(None)
      else Saved(p3.part.value)
  }

  /** What one reply leaves: a page sniffed as HTML gives up and keeps the
      staging file; a broken stream or fewer bytes than the total raises with
      the staged bytes followed by the body; a complete transfer under 1 KiB
      is deleted; otherwise the staged bytes followed by the body are saved. */
  lemma ReceiveCases(p: Progress, reply: Reply, corrected: bool)
    ensures HtmlRejected(reply) ==> Receive(p, reply, corrected) == GaveUp(p.part)
    ensures !HtmlRejected(reply) && (reply.interrupted || Incomplete(p, reply, corrected)) ==>
      Receive(p, reply, corrected) ==
        Raised(Progress(Some(Write(p, reply.body)), p.downloaded + |reply.body|, TotalAfter(p, reply, corrected)))
    ensures !HtmlRejected(reply) && !reply.interrupted && !Incomplete(p, reply, corrected) ==>
      Receive(p, reply, corrected) ==
        if |Write(p, reply.body)| < MinimumSize then GaveUp(None) else Saved(Write(p, reply.body))
  {
    if !HtmlRejected(reply) {
      var html := Contains(Lower(reply.contentType), "text/html");
      var first := if html then Take(reply.body, SniffSize) else "";
      var rest := reply.body[|first|..];
      WriteInTwo(p, first, rest, reply.body);
    }
  }

  /** Writing a non-empty chunk and then the rest is writing both at once. */
  lemma WriteInTwo(p: Progress, first: string, rest: string, body: string)
    requires first + rest == body
    ensures var p2 := if first != "" then Progress(Some(Write(p, first)), p.downloaded + |first|, p.totalSize) else p;
      Write(p2, rest) == Write(p, body)
  {
    if first != "" {
      assert Write(p, first) + rest == Write(p, body);
    }
  }

  /** Whether the attempt starts over: a resumed request refused (neither 200
      nor 206), or, when `corrected`, answered with the whole resource (200). */
  predicate Restarts(p: Progress, a: Attempt, corrected: bool) {
    p.downloaded > 0 && (if corrected then a.reply.status != 206 else a.reply.status != 200 && a.reply.status != 206)
  }

  /** One pass of the attempt loop: a refused resume deletes the staging
      file and asks again without `Range`; the reply is then received. */
  function RunAttempt(p: Progress, a: Attempt, corrected: bool): (r: AttemptResult)
    ensures r.Raised? && p.totalSize.Some? ==> r.next.totalSize == p.totalSize
    ensures r.Saved? ==> |r.content| >= MinimumSize
    ensures p.downloaded > 0 && a.reply.status != 200 && a.reply.status != 206 ==>
      r == Receive(Progress(None, 0, p.totalSize), a.freshReply, corrected)
    ensures p.downloaded == 0 || a.reply.status == 206 ==> r == Receive(p, a.reply, corrected)
  {
    var refused := p.downloaded > 0 && a.reply.status != 200 && a.reply.status != 206;
    var p1 := if Restarts(p, a, corrected) then Progress(None, 0, p.totalSize) else p;
    Receive(p1, if refused then a.freshReply else a.reply, corrected)
  }

  /** HTML content whose first KiB looks like a page is given up at once. */
  lemma HtmlPageGivesUp(p: Progress, a: Attempt, corrected: bool)
    requires p.downloaded == 0
    requires Contains(Lower(a.reply.contentType), "text/html")
    requires SniffsHtml(Take(a.reply.body, SniffSize)) && a.reply.body != ""
    ensures RunAttempt(p, a, corrected).GaveUp?
  {
  }

  /** The total of a 206 reply is the resume offset plus `Content-Length`,
      of any other reply just `Content-Length`, and only when no total was known. */
  lemma TotalSizeRule(p: Progress, a: Attempt, corrected: bool)
    requires p.totalSize.None? && a.reply.contentLength.Some?
    requires a.reply.status == 200 || a.reply.status == 206
    requires !Contains(Lower(a.reply.contentType), "text/html")
    requires RunAttempt(p, a, corrected).Raised?
    ensures a.reply.status == 206 ==> RunAttempt(p, a, corrected).next.totalSize == Some(p.downloaded + a.reply.contentLength.value)
    ensures a.reply.status == 200 ==> RunAttempt(p, a, corrected).next.totalSize == Some(a.reply.contentLength.value)
  {
  }

  // ---- the attempt loop ----

  function Pow2(k: nat): (r: nat)
    ensures r >= 1
  {
    if k == 0 then 1 else 2 * Pow2(k - 1)
  }

  /** The result of the loop: the saved contents if any, the staging file
      left behind, the `Range` offset of each attempt's request, and the
      back-off delays slept between attempts. */
  datatype Outcome = Outcome(saved: Option<string>, partLeft: Option<string>, ranges: seq<Option<nat>>, backoffs: seq<nat>)

  /** The server: the replies to attempt `k` when its request carries the given `Range` offset. */
  type Server = (nat, Option<nat>) -> Attempt

  /** Attempts `k` to `n - 1` of `for attempt in range(resume_attempts)`. */
  function Attempts(k: nat, n: nat, p: Progress, server: Server, supportsResume: bool, corrected: bool): (r: Outcome)
    ensures |r.ranges| == 0 <==> k >= n
    ensures k < n ==> k + |r.ranges| <= n
    ensures |r.ranges| > 0 ==> |r.backoffs| == |r.ranges| - 1
    ensures forall i :: 0 <= i < |r.backoffs| ==> r.backoffs[i] == Pow2(k + i)
    ensures !supportsResume ==> |r.ranges| <= 1 && forall i :: 0 <= i < |r.ranges| ==> r.ranges[i].None?
    ensures r.saved.Some? ==> |r.saved.value| >= MinimumSize && r.partLeft.None?
    decreases n - k
  {
    if k >= n then Outcome(None, p.part, [], [])
    else
      var range := RangeHeader(p, supportsResume);
      var result := RunAttempt(p, server(k, range), corrected);
      match result
      case Saved(c) => Outcome(Some(c), None, [range], [])
      case GaveUp(left) => Outcome(None, left, [range], [])
      case Raised(p') =>
        if k < n - 1 && supportsResume then
          var rest := Attempts(k + 1, n, p', server, supportsResume, corrected);
          Outcome(rest.saved, rest.partLeft, [range] + rest.ranges, [Pow2(k)] + rest.backoffs)
        else Outcome(None, p'.part, [range], [])
  }

  /** What the loop does after attempt `k`: a save ends it with that
      content, giving up ends it, and a raised attempt is retried from the
      progress it left, after a back-off of 2^k seconds, while attempts remain
      and resuming is supported; otherwise the loop ends with nothing saved. */
  lemma AttemptsStep(k: nat, n: nat, p: Progress, server: Server, supportsResume: bool, corrected: bool)
    requires k < n
    decreases n - k
    ensures var r := Attempts(k, n, p, server, supportsResume, corrected);
      var a := RunAttempt(p, server(k, RangeHeader(p, supportsResume)), corrected);
      && r.ranges[0] == RangeHeader(p, supportsResume)
      && (a.Saved? ==> r.saved == Some(a.content) && |r.ranges| == 1)
      && (a.GaveUp? ==> r.saved.None? && r.partLeft == a.partLeft && |r.ranges| == 1)
      && (a.Raised? && k < n - 1 && supportsResume ==>
            |r.ranges| >= 2 && r.ranges[1] == RangeHeader(a.next, supportsResume) && r.backoffs[0] == Pow2(k))
      && (a.Raised? && !(k < n - 1 && supportsResume) ==> r.saved.None? && r.partLeft == a.next.part && |r.ranges| == 1)
  {
    var a := RunAttempt(p, server(k, RangeHeader(p, supportsResume)), corrected);
    if a.Raised? && k < n - 1 && supportsResume {
      var rest := Attempts(k + 1, n, a.next, server, supportsResume, corrected);
      assert rest.ranges[0] == RangeHeader(a.next, supportsResume) by {
        AttemptsStep(k + 1, n, a.next, server, supportsResume, corrected);
      }
    }
  }

  /** The state before the first attempt: a staging file is resumed only
      when the caller allows resuming. */
  function InitialProgress(part: Option<string>, totalSize: Option<nat>, supportsResume: bool): (p: Progress)
    ensures p.downloaded > 0 ==> supportsResume && p.part.Some? && p.downloaded == |p.part.value|
    ensures supportsResume && part.Some? ==> p.downloaded == |part.value|
  {
    Progress(part, if part.Some? && supportsResume then |part.value| else 0, totalSize)
  }

  /** The state before the first attempt at the final path `finalPath`: its
      staging file, if any, is the one resumed. */
  function StartProgress(finalPath: UniqueName.Path, incompleteDir: string, staged: map<UniqueName.Path, string>,
                         totalSize: Option<nat>, supportsResume: bool): Progress
  {
    var staging := StagingPath(incompleteDir, finalPath);
    InitialProgress(if staging in staged then Some(staged[staging]) else None, totalSize, supportsResume)
  }

  /** A reply the first attempt completes with: the stream did not break,
      it is not `text/html`, it delivers at least its `Content-Length` and at
      least 1 KiB. */
  predicate CompleteReply(reply: Reply) {
    !reply.interrupted && !Contains(Lower(reply.contentType), "text/html")
    && (reply.contentLength.None? || reply.contentLength.value <= |reply.body|)
    && |reply.body| >= MinimumSize
  }

  /** A fresh first attempt answered by a complete reply saves its body. */
  lemma FirstCompleteReplySaves(p: Progress, a: Attempt, corrected: bool)
    requires p.downloaded == 0 && p.totalSize.None? && CompleteReply(a.reply)
    ensures RunAttempt(p, a, corrected) == Saved(a.reply.body)
  {
    ReceiveCases(p, a.reply, corrected);
    assert !HtmlRejected(a.reply);
    assert !Incomplete(p, a.reply, corrected);
  }

  /** `download_direct` as written: picks the free final path and its staging
      file, runs the attempts, and returns the final path when contents were
      saved. */
  method DownloadDirect(title: Option<string>, url: string, urlName: string,
                        outputDir: string, incompleteDir: string,
                        existing: set<UniqueName.Path>, staged: map<UniqueName.Path, string>,
                        totalSize: Option<nat>, supportsResume: bool, resumeAttempts: nat, server: Server)
    returns (r: Option<UniqueName.Path>, finalPath: UniqueName.Path, out: Outcome)
    ensures finalPath !in existing && finalPath.parent == outputDir
    ensures UniqueName.Path(outputDir, FileName(title, url, urlName)) !in existing ==> finalPath.name == FileName(title, url, urlName)
    ensures UniqueName.Path(outputDir, FileName(title, url, urlName)) in existing ==>
      exists k :: k >= 1 && finalPath == UniqueName.Candidate(UniqueName.Path(outputDir, FileName(title, url, urlName)), k)
        && forall j :: 1 <= j < k ==> UniqueName.Candidate(UniqueName.Path(outputDir, FileName(title, url, urlName)), j) in existing
    ensures out == Attempts(0, resumeAttempts, StartProgress(finalPath, incompleteDir, staged, totalSize, supportsResume),
                            server, supportsResume, false)
    ensures r.Some? <==> out.saved.Some?
    ensures r.Some? ==> r.value == finalPath
    ensures |out.ranges| <= resumeAttempts
    ensures (&& resumeAttempts > 0 && totalSize.None?
             && StartProgress(finalPath, incompleteDir, staged, totalSize, supportsResume).downloaded == 0
             && CompleteReply(server(0, None).reply))
      ==> r == Some(finalPath) && out.saved == Some(server(0, None).reply.body)
  {
    var name := FileName(title, url, urlName);
    finalPath := UniqueName.GetUniqueFilename(UniqueName.Path(outputDir, name), existing);
    var p := StartProgress(finalPath, incompleteDir, staged, totalSize, supportsResume);
    out := Attempts(0, resumeAttempts, p, server, supportsResume, false);
    r := if out.saved.Some? then Some(finalPath) else None;
    if resumeAttempts > 0 && totalSize.None? && p.downloaded == 0 && CompleteReply(server(0, None).reply) {
      FirstCompleteReplySaves(p, server(0, None), false);
      AttemptsStep(0, resumeAttempts, p, server, supportsResume, false);
    }
  }

  /** `download_direct` with the corrected attempt: the same path choice,
      against an honest server whose resource the staging file starts every
      saved file is exactly the resource, and a complete first reply is saved. */
  method DownloadDirectCorrected(title: Option<string>, url: string, urlName: string,
                                 outputDir: string, incompleteDir: string,
                                 existing: set<UniqueName.Path>, staged: map<UniqueName.Path, string>,
                                 totalSize: Option<nat>, supportsResume: bool, resumeAttempts: nat, server: Server)
    returns (r: Option<UniqueName.Path>, finalPath: UniqueName.Path, out: Outcome)
    ensures finalPath !in existing && finalPath.parent == outputDir
    ensures UniqueName.Path(outputDir, FileName(title, url, urlName)) !in existing ==> finalPath.name == FileName(title, url, urlName)
    ensures UniqueName.Path(outputDir, FileName(title, url, urlName)) in existing ==>
      exists k :: k >= 1 && finalPath == UniqueName.Candidate(UniqueName.Path(outputDir, FileName(title, url, urlName)), k)
        && forall j :: 1 <= j < k ==> UniqueName.Candidate(UniqueName.Path(outputDir, FileName(title, url, urlName)), j) in existing
    ensures out == Attempts(0, resumeAttempts, StartProgress(finalPath, incompleteDir, staged, totalSize, supportsResume),
                            server, supportsResume, true)
    ensures r.Some? <==> out.saved.Some?
    ensures r.Some? ==> r.value == finalPath
    ensures |out.ranges| <= resumeAttempts
    ensures forall resource :: (HonestServer(resource, server)
      && Consistent(resource, StartProgress(finalPath, incompleteDir, staged, totalSize, supportsResume))
      ==> (out.saved.Some? ==> out.saved == Some(resource)))
    ensures (&& resumeAttempts > 0 && totalSize.None?
             && StartProgress(finalPath, incompleteDir, staged, totalSize, supportsResume).downloaded == 0
             && CompleteReply(server(0, None).reply))
      ==> r == Some(finalPath) && out.saved == Some(server(0, None).reply.body)
  {
    var name := FileName(title, url, urlName);
    finalPath := UniqueName.GetUniqueFilename(UniqueName.Path(outputDir, name), existing);
    var p := StartProgress(finalPath, incompleteDir, staged, totalSize, supportsResume);
    out := Attempts(0, resumeAttempts, p, server, supportsResume, true);
    r := if out.saved.Some? then Some(finalPath) else None;
    forall resource | HonestServer(resource, server) && Consistent(resource, p)
      ensures out.saved.Some? ==> out.saved.value == resource
    {
      CorrectedResumeSavesResource(resource, 0, resumeAttempts, p, server, supportsResume);
    }
    if resumeAttempts > 0 && totalSize.None? && p.downloaded == 0 && CompleteReply(server(0, None).reply) {
      FirstCompleteReplySaves(p, server(0, None), true);
      AttemptsStep(0, resumeAttempts, p, server, supportsResume, true);
    }
  }

  // ---- resuming against an honest server ----

  predicate IsPrefix(a: string, b: string) {
    |a| <= |b| && b[..|a|] == a
  }

  /** A reply a server holding `resource` may give to a request with the given
      `Range` offset: the whole resource with 200, or, for a satisfiable range,
      the rest of it with 206; an interrupted stream delivers a prefix. */
  predicate HonestReply(resource: string, range: Option<nat>, r: Reply) {
    || (r.status == 200 && (r.contentLength.None? || r.contentLength == Some(|resource|))
        && IsPrefix(r.body, resource) && (!r.interrupted ==> r.body == resource))
    || (range.Some? && range.value <= |resource| && r.status == 206
        && (r.contentLength.None? || r.contentLength == Some(|resource| - range.value))
        && IsPrefix(r.body, resource[range.value..]) && (!r.interrupted ==> r.body == resource[range.value..]))
  }

  ghost predicate HonestServer(resource: string, server: Server) {
    forall k: nat, range: Option<nat> ::
      HonestReply(resource, range, server(k, range).reply) && HonestReply(resource, None, server(k, range).freshReply)
  }

  /** The staging file holds exactly the first `downloaded` bytes of the
      resource, and any known total is the resource's size. */
  predicate Consistent(resource: string, p: Progress) {
    p.downloaded <= |resource|
    && (p.downloaded > 0 ==> p.part == Some(resource[..p.downloaded]))
    && (p.totalSize.Some? ==> p.totalSize.value == |resource|)
  }

  /** The as-written attempt: a staging file of P bytes, resumed, answered
      with 200 and the whole resource, is saved as the P bytes followed by the
      whole resource. */
  lemma AsWrittenAppendsFullBodyOnResume(resource: string, pre: nat)
    requires 0 < pre < |resource| && |resource| >= MinimumSize
    ensures var p := Progress(Some(resource[..pre]), pre, None);
      var reply := Reply(200, "", Some(|resource|), resource, false);
      HonestReply(resource, Some(pre), reply)
      && RunAttempt(p, Attempt(reply, reply), false) == Saved(resource[..pre] + resource)
      && resource[..pre] + resource != resource
  {
    var reply := Reply(200, "", Some(|resource|), resource, false);
    assert !Contains(Lower(""), "text/html");
    assert resource[0..] == resource;
  }

  /** The as-written attempt: a resumed request answered with 206 as
      `text/html` counts the first KiB twice in the total, so a complete,
      honest transfer is reported incomplete. */
  lemma AsWrittenHtml206Overcounts(resource: string, pre: nat)
    requires 0 < pre && pre + SniffSize < |resource|
    requires !SniffsHtml(resource[pre..pre + SniffSize])
    ensures var p := Progress(Some(resource[..pre]), pre, None);
      var reply := Reply(206, "text/html", Some(|resource| - pre), resource[pre..], false);
      HonestReply(resource, Some(pre), reply)
      && RunAttempt(p, Attempt(reply, reply), false).Raised?
      && RunAttempt(p, Attempt(reply, reply), false).next.totalSize == Some(|resource| + SniffSize)
  {
    var reply := Reply(206, "text/html", Some(|resource| - pre), resource[pre..], false);
    assert Contains(Lower("text/html"), "text/html") by {
      assert Lower("text/html") == "text/html";
      assert OccursAt("text/html", "text/html", 0);
    }
    assert Take(reply.body, SniffSize) == resource[pre..pre + SniffSize];
  }

  /** Writing a chunk and then the rest of a body onto a staging file that
      holds the resource's first `off` bytes gives the first `off + |body|`. */
  lemma WriteChunks(resource: string, p: Progress, first: string, rest: string)
    requires Consistent(resource, p)
    requires IsPrefix(first + rest, resource[p.downloaded..])
    ensures var p2 := if first != "" then Progress(Some(Write(p, first)), p.downloaded + |first|, p.totalSize) else p;
      Write(p2, rest) == resource[..p.downloaded + |first| + |rest|]
  {
    var off := p.downloaded;
    var body := first + rest;
    assert resource[off..][..|body|] == body;
    assert resource[..off] + body == resource[..off + |body|];
    var p2 := if first != "" then Progress(Some(Write(p, first)), p.downloaded + |first|, p.totalSize) else p;
    if off > 0 {
      assert p.part == Some(resource[..off]);
      assert Write(p2, rest) == resource[..off] + first + rest;
    } else if first != "" {
      assert Write(p2, rest) == first + rest;
    }
  }

  /** The corrected receive step, from a consistent state and given the
      resource's bytes from the state's offset, keeps the state consistent
      and saves only the resource. */
  lemma ReceiveSound(resource: string, p: Progress, reply: Reply)
    requires Consistent(resource, p)
    requires IsPrefix(reply.body, resource[p.downloaded..])
    requires !reply.interrupted ==> reply.body == resource[p.downloaded..]
    requires reply.contentLength.Some? ==>
      reply.contentLength.value == (if reply.status == 206 then |resource| - p.downloaded else |resource|)
    ensures Receive(p, reply, true).Saved? ==> Receive(p, reply, true).content == resource
    ensures Receive(p, reply, true).Raised? ==> Consistent(resource, Receive(p, reply, true).next)
  {
    ReceiveCases(p, reply, true);
    assert "" + reply.body == reply.body;
    WriteChunks(resource, p, "", reply.body);
    if !reply.interrupted {
      assert resource[..p.downloaded + |reply.body|] == resource;
    }
  }

  /** The corrected attempt keeps the staging file consistent with the
      resource, and whatever it saves is the resource. */
  lemma CorrectedAttemptSound(resource: string, p: Progress, a: Attempt, supportsResume: bool)
    requires Consistent(resource, p)
    requires HonestReply(resource, RangeHeader(p, supportsResume), a.reply)
    requires HonestReply(resource, None, a.freshReply)
    ensures RunAttempt(p, a, true).Saved? ==> RunAttempt(p, a, true).content == resource
    ensures RunAttempt(p, a, true).Raised? ==> Consistent(resource, RunAttempt(p, a, true).next)
  {
    var refused := p.downloaded > 0 && a.reply.status != 200 && a.reply.status != 206;
    var p1 := if Restarts(p, a, true) then Progress(None, 0, p.totalSize) else p;
    var reply := if refused then a.freshReply else a.reply;
    assert RunAttempt(p, a, true) == Receive(p1, reply, true);
    assert reply.status == 206 ==> p1 == p && RangeHeader(p, supportsResume) == Some(p.downloaded);
    assert reply.status != 206 ==> p1.downloaded == 0;
    assert resource[0..] == resource;
    ReceiveSound(resource, p1, reply);
  }

  /** Against an honest server, every file the corrected loop saves is exactly the resource. */
  lemma {:induction false} CorrectedResumeSavesResource(resource: string, k: nat, n: nat, p: Progress,
                                                        server: Server, supportsResume: bool)
    requires Consistent(resource, p)
    requires HonestServer(resource, server)
    ensures var out := Attempts(k, n, p, server, supportsResume, true);
      out.saved.Some? ==> out.saved.value == resource
    decreases n - k
  {
    if k < n {
      var range := RangeHeader(p, supportsResume);
      var a := server(k, range);
      CorrectedAttemptSound(resource, p, a, supportsResume);
      match RunAttempt(p, a, true)
      case Saved(c) =>
      case GaveUp(_) =>
      case Raised(p') =>
        if k < n - 1 && supportsResume {
          CorrectedResumeSavesResource(resource, k + 1, n, p', server, supportsResume);
        }
    }
  }

  /** The corrected attempt completes a resumed honest 206 transfer even when
      it is labelled `text/html`. */
  lemma CorrectedCompletesHtml206(resource: string, pre: nat)
    requires 0 < pre && pre + SniffSize < |resource| && |resource| >= MinimumSize
    requires !SniffsHtml(resource[pre..pre + SniffSize])
    ensures var p := Progress(Some(resource[..pre]), pre, None);
      var reply := Reply(206, "text/html", Some(|resource| - pre), resource[pre..], false);
      RunAttempt(p, Attempt(reply, reply), true) == Saved(resource)
  {
    var reply := Reply(206, "text/html", Some(|resource| - pre), resource[pre..], false);
    assert Contains(Lower("text/html"), "text/html") by {
      assert Lower("text/html") == "text/html";
      assert OccursAt("text/html", "text/html", 0);
    }
    var p := Progress(Some(resource[..pre]), pre, None);
    assert Take(reply.body, SniffSize) == resource[pre..pre + SniffSize];
    assert !HtmlRejected(reply);
    assert TotalAfter(p, reply, true) == Some(|resource|);
    assert Write(p, reply.body) == resource;
    ReceiveCases(p, reply, true);
  }
}
