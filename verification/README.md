# Stacks download engine, modelled in Dafny

Stacks is a self-hosted download manager for Anna's Archive. A browser userscript or the web dashboard adds books to a download queue by their md5. A background worker takes the books one at a time and resolves download links from the book page. It tries the member fast-download API first and then the mirrors, with domain failover and a challenge solver for protected pages. The file is transferred with resume support into a staging directory and then moved into place.

This project models the decision logic of that engine as immutable datatypes and pure functions, and proves what each operation promises:

- `DownloadQueue` (queue.dfy): the queue and history state machine. It covers add with its duplicate rules, get-next, completion, removal, clearing, retry of failed items, and the history truncation on save.
- `Worker` (worker.dfy): one iteration of the worker loop as a step function over the queue and the control flags. It also covers the pause, resume, cancel and stop commands and the progress callback.
- `DomainUtils` (domains.dfy): the working domain, the cyclic successor, and the "try each domain until one succeeds" loop.
- `Orchestrator` (orchestrator.dfy): the fast path, then the mirrors in a stable preferred-first order or in shuffled order, first success wins.
  - The older copy of this function in `direct.py`, lines 138-218, is the same as the `downloader.py` variant at lines 832-912. It is covered by `Legacy.Download`.
- `HtmlLinks` (html.dfy): the four ordered methods that find the download link on a mirror page, and the slow-download and external-mirror link lists of a book page.
- `ZLib` (zlib.dfy): Z-Library host recognition and the three ways of building its `/dl/` URL.
- `Mirrors` (mirrors.dfy): the resolution policy for slow-download and external links: status 403 or 503, the challenge solver, the cookie pre-warm and its single retry.
- `Direct` (direct.dfy): the transfer engine. It covers the file name and extension, the `.part` staging file and the resume offset, and the `Range` header (section 14.2 of RFC 9110). It also covers the total size of a 206 reply (section 15.3.7 of RFC 9110), HTML sniffing, the 1 KiB floor and the bounded retries. `Direct.DownloadDirect` is the code as written; `Direct.DownloadDirectCorrected` runs the corrected attempt of the first Findings row.
- `FastDownload` (fastdownload.dfy) and `Cookies` (cookies.dfy): the quota gate and refresh cooldown, and the 24-hour cookie cache.
- `UniqueName` (uniquename.dfy): the collision-free file name search.
- `Legacy` (legacy.dfy): the parts unique to the older single-class downloader, namely URL collection for multi-source transfers, the aria2 gate and plan, and its stricter mirror policy.
- `Config` and `Validate` (config.dfy, validate.dfy): the nested configuration store, schema-driven healing, the login-credential reset and the start-up that saves only what changed.
- `Auth` (auth.dfy): the bcrypt-hash shape check, the per-address login rate limiter and the API access decision.
- `Userscript` and `Dashboard` (userscript.dfy, dashboard.dfy): the md5 extraction of both front ends, version comparison, the update-banner decision, the API URL join, the add-to-queue guards, the log-line splitter and the history counts.
- `Strings`, `Seqs`, `Urls` and `Wrappers`: shared helpers. These are ASCII case mapping, search, split and join, filtering, deduplication, shuffling by a draw sequence, the parts of `urllib.parse` the downloader uses, and `Option`.

Effects are inputs. The following are parameters or function-typed oracles, and a trace of events records which ones were called:
- HTTP replies, the challenge solver and the parsed pages;
- the file system, as the set of existing paths or the staged bytes;
- the clock, as whole seconds;
- randomness, as a sequence of draws;
- the domain list and the regular expressions, which are not defined in the constants the code imports.

Files from different revisions are each modelled as written:
- `worker.py` calls a `requeue_current` that the queue does not define. It is modelled as the head insertion that `stop` performs.
- `mirrors.py` calls the link parser with three arguments. That parser is an oracle here.
- `orchestrator.py` line 39 passes `md5=md5` to `download_direct`, a keyword neither version (`direct.py` line 9, `downloader.py` line 540) accepts. The transfer is an oracle that receives the md5 here.

## Model

| member | source | states |
|---|---|---|
| Auth.BcryptShape | src/stacks/security/auth.py:32-37 | a bcrypt hash is exactly a 60-character string starting with `$2a$`, `$2b$` or `$2y$`; the emptiness test adds nothing |
| Auth.Recent | src/stacks/security/auth.py:57-59 | the attempts kept are exactly those newer than the cut-off, in their order and with repeats kept, and no others |
| Auth.CheckRateLimit | src/stacks/security/auth.py:39-66 | an active lockout refuses with the whole minutes remaining and changes nothing; otherwise an expired lockout is dropped with its attempts, and the attempts kept are exactly those of the last ten minutes in order, repeats included; five or more left refuse and lock out for ten minutes, fewer allow; other addresses are untouched |
| Auth.RecordFailedAttempt | src/stacks/security/auth.py:68-72 | exactly one timestamp, the current time, is appended for the address; nothing else changes |
| Auth.ClearAttempts | src/stacks/security/auth.py:74-79 | both the attempts and the lockout of the address are removed; other addresses are untouched |
| Auth.FiveFailuresLockOut | src/stacks/security/auth.py:57-66 | five failures within ten minutes lock the address out on the next check, and every check before the lockout ends is refused without change |
| Auth.RecentKeepsAll | src/stacks/security/auth.py:59 | when every attempt is recent, none is dropped |
| Auth.ExpiredLockoutForgets | src/stacks/security/auth.py:47-51 | once a lockout has expired, the next check allows and starts with no attempts |
| Auth.ClearThenAllowed | src/stacks/security/auth.py:74-79 | after a successful login clears the address, its next check allows |
| Auth.RequireAuth | src/stacks/security/auth.py:97-129 | the call goes ahead exactly when authentication is disabled, the session is logged in, or a non-empty offered key equals the configured key; otherwise the answer is 401 "Authentication required" |
| Auth.HeaderTakesPrecedence | src/stacks/security/auth.py:117-120 | a non-empty header key is the one checked even when the query argument holds the right key; an empty header lets the argument through |
| Config.Get | src/stacks/config/config.py:58-69 | the value at the path is returned unless the path leaves the dictionaries or meets a missing or null value, in which case the default is; false and 0 come back as they are |
| Config.Set | src/stacks/config/config.py:75-85 | when it succeeds the value is at the path afterwards, and every other top-level entry is unchanged |
| Config.SetSucceedsIff | src/stacks/config/config.py:75-85 | setting succeeds exactly when the path is non-empty and every existing step on it is a dictionary |
| Config.GetAfterSet | src/stacks/config/config.py:58-85 | reading a path just set gives the value, or the default for a null value |
| Config.SetLeavesOtherPaths | src/stacks/config/config.py:75-85 | setting a path leaves every path that branches off it unchanged |
| Config.PyEqReflexive | src/stacks/config/config.py:24 | the equality the start-up uses to decide whether to write relates every value to itself, so unchanged data is never written |
| Validate.ApplyDefault | src/stacks/config/validate.py:38-53 | a default that is not one of the four sentinels is returned as it is; `GENERATE_32_BIT_KEY` gives a new key, `HASH_PASSWORD` the hash of `PASSWORD` or the default password, `USERNAME` the `USERNAME` variable or the default name, `FLARESOLVERR` the solver URL or null |
| Validate.TryTypes | src/stacks/config/validate.py:62-101 | a value that one of the types accepts is kept as it is; a value that none accepts is replaced by the applied default |
| Validate.ValidateValue | src/stacks/config/validate.py:55-101 | a value that some allowed type accepts comes back unchanged; one that none accepts becomes the applied default |
| Validate.ValidateValueIdempotent | src/stacks/config/validate.py:55-101 | without `RESET_ADMIN`, and with the same generated key and hash, validating a validated value changes nothing |
| Validate.ValidateValueStable | src/stacks/config/validate.py:38-101 | a second validation that draws a fresh key and a fresh salt keeps the first one's value whenever the key's applied default is accepted by its own rules |
| Validate.ResetAdminRehashes | src/stacks/config/validate.py:97-101 | under `RESET_ADMIN` a hash-only key is never accepted, so a second validation with a different salt stores a different hash |
| Validate.BooleanIsInteger | src/stacks/config/validate.py:78-80 | a boolean passes the port-range rule, since booleans are integers in the source language |
| Validate.Validate | src/stacks/config/validate.py:21-36 | the result has exactly the dictionary sections of the schema, each with exactly its schema keys; every value is the user's or the default; a missing, null or non-dictionary user section counts as empty |
| Validate.ValidateIdempotent | src/stacks/config/validate.py:21-36 | without `RESET_ADMIN`, and with the same generated key and hash, validating a validated configuration changes nothing |
| Validate.SectionIdempotent | src/stacks/config/validate.py:25-32 | without `RESET_ADMIN`, and with the same generated key and hash, validating one section of a validated configuration changes nothing |
| Validate.TryTypesAsWritten | src/stacks/config/validate.py:62-99 | where the code as written does not raise, it agrees with the type rules |
| Validate.AsWrittenAgrees | src/stacks/config/validate.py:21-36 | where the code as written does not raise, its result is the validated configuration |
| Validate.ValidateAsWritten | src/stacks/config/validate.py:21-36 | where the code as written does not raise, the result has exactly the mapping sections of the schema, each a mapping |
| Validate.SectionAgrees | src/stacks/config/validate.py:25-32 | where the code as written does not raise on a section, it gives the validated section |
| Validate.AsWrittenEmptySectionRaises | src/stacks/config/validate.py:26-31 | as written, a section present but null in the file makes the validation raise, where the corrected model fills it with defaults |
| Validate.AsWrittenNumericHashRaises | src/stacks/config/validate.py:97-99 | as written, a number where a bcrypt hash is expected makes the validation raise, where the corrected model replaces it with the default hash |
| Validate.EnsureLoginCredentials | src/stacks/config/validate.py:103-127 | with `RESET_ADMIN` off and a non-empty username, a truthy password that is not a string makes the bcrypt check raise; otherwise nothing changes when no reset is needed, and a reset sets the username and password hash from the environment or the defaults, keeping the other sections, unless the login section is not a mapping, when writing it raises |
| Validate.NumericLoginPasswordRaises | src/stacks/config/validate.py:111-115 | a login section with a username and the password 12345 makes the credential check raise when `RESET_ADMIN` is off, and is reset when it is on |
| Validate.NeedsResetIff | src/stacks/config/validate.py:104-115 | no reset happens exactly when `RESET_ADMIN` is not "true" and the login section holds a non-empty username and a password of bcrypt shape |
| Validate.Startup | src/stacks/config/config.py:13-26 | start-up fails exactly when the credential check raises on the validated data; otherwise the kept data is the validated data when no reset is needed, the file is written exactly when a reset happened or the result differs from the loaded data under Python equality (where `True == 1`), and at most twice; it is built on the corrected validation, so the inputs on which the validation itself raises are healed instead |
| Validate.SecondStartupQuiet | src/stacks/config/config.py:21-26 | a start-up that needed no credential reset leaves a file that the next start-up neither changes nor writes |
| Dashboard.FindHexRun | web/script/app.js:10 | a position found starts a run of 32 hex digits, and no earlier position from the start does |
| Dashboard.ExtractMd5 | web/script/app.js:59-62 | there is no hash exactly when the input holds no 32 hex digits in a row; otherwise the hash is the leftmost such run, lower-cased |
| Dashboard.DashboardFindsWhatUserscriptFinds | web/script/app.js:59-62 | every URL from which the browser extension takes a hash also gives the dashboard a hash |
| Dashboard.BareHash | web/script/app.js:59-62 | a bare 32-digit hash is accepted and lower-cased |
| Dashboard.LaxerThanUserscript | web/script/app.js:10 | a 33-digit run after `/md5/` gives the dashboard its first 32 digits, while the browser extension rejects it |
| Dashboard.SplitLogLine | web/script/app.js:29-42 | a line with fewer than three `] `-separated fields stays plain; otherwise date, level and logger each end in `]` |
| Dashboard.RejoinLogLine | web/script/app.js:33-42 | with at least four fields, date, level, logger and message joined by single spaces give back the line |
| Dashboard.ClassOf | web/script/app.js:51-54 | the style class is the first of debug, info, warning, error whose marker the level contains, none when it contains none of them |
| Dashboard.WarningMentionsWarn | web/script/app.js:53 | the `[WARNING` test is covered by the `[WARN` test |
| Dashboard.SplitsServerLine | web/script/app.js:29-42 | a server log line `[date] [level] [logger] message` splits back into its four parts |
| Dashboard.DebugLevel | web/script/app.js:51 | a `[DEBUG]` level gets the debug class |
| Dashboard.WarningLevel | web/script/app.js:53 | a `[WARNING]` level gets the warning class |
| Dashboard.CriticalLevel | web/script/app.js:51-54 | a `[CRITICAL]` level gets no class |
| Dashboard.Stats | web/script/app.js:120-121 | the success and failure counts add up to the history's length and count the succeeded and the failed entries |
| Direct.SanitizeClean | src/stacks/downloader/direct.py:14-33 | a sanitised name contains none of `<>:"/\|?*`, and a name without them is left as it is |
| Direct.SanitizeConcat | src/stacks/downloader/direct.py:14-33 | sanitising works character by character, so it distributes over concatenation |
| Direct.SanitizeKeepsDot | src/stacks/downloader/direct.py:14-22 | sanitising neither adds nor removes a dot, so the extension test sees the same answer before and after |
| Direct.Sanitize | src/stacks/downloader/direct.py:14-16 | each of `<>:"/\|?*` in a title becomes `_` and every other character stays in place, so the length is unchanged |
| Direct.Extension | src/stacks/downloader/direct.py:23-29 | the extension is one of `.pdf`, `.mobi`, `.cbz`, `.epub`; it is `.pdf` exactly when the lower-cased URL mentions `.pdf`; it is itself clean |
| Direct.WithExtension | src/stacks/downloader/direct.py:21-30 | the name always contains a dot once the extension rule has run |
| Direct.FileName | src/stacks/downloader/direct.py:12-33 | the file name is clean and contains a dot |
| Direct.FileNameCases | src/stacks/downloader/direct.py:12-33 | a title with a dot gives the sanitised title; a title without one gets the URL's extension; no title and no URL name gives `download` plus the extension |
| Direct.StagingPath | src/stacks/downloader/direct.py:38 | the staging file lives in the incomplete directory and is the final name followed by `.part` |
| Direct.RangeHeader | src/stacks/downloader/direct.py:49-51 | a `Range` header is sent exactly when bytes are already staged and resuming is supported, and it starts at the staged size |
| Direct.Receive | src/stacks/downloader/direct.py:62-108 | a saved file is at least 1 KiB from a transfer that was not interrupted; an interrupted transfer keeps what it wrote and any known total size |
| Direct.ReceiveCases | src/stacks/downloader/direct.py:62-108 | a `text/html` reply whose first KiB is HTML gives up and leaves the staging file; an interrupted reply, or one that stops short of a known non-zero total, raises with the staging file holding the bytes written so far; a complete reply saves the staged bytes and the body, unless they are under 1 KiB, when the staging file is deleted and nothing is returned |
| Direct.RunAttempt | src/stacks/downloader/direct.py:48-108 | a resumed request answered with neither 200 nor 206 restarts from nothing with a request without `Range`; otherwise the reply is received as it is; a saved file is at least 1 KiB |
| Direct.HtmlPageGivesUp | src/stacks/downloader/direct.py:63-68 | a first request labelled `text/html` whose first KiB holds `<html` or `<!doctype` ends the download without a file |
| Direct.TotalSizeRule | src/stacks/downloader/direct.py:76-82 | an unknown total becomes the staged size plus `Content-Length` on a 206 reply and `Content-Length` alone on a 200 reply |
| Direct.Attempts | src/stacks/downloader/direct.py:47-130 | at most `resume_attempts` attempts are made, each sending at most two requests since a refused resume asks once more without `Range`; backoffs before retries are 1, 2, 4 … seconds; without resume support there is one attempt and no `Range`; a saved file is at least 1 KiB and leaves no staging file |
| Direct.AttemptsStep | src/stacks/downloader/direct.py:47-130 | each attempt starts with the `Range` header of what is staged; an attempt that saves ends the loop with that file; one that gives up ends it with nothing saved; one that raises is retried, after a backoff of 2 to the attempt number seconds and with the `Range` header of the new offset, exactly when attempts remain and resuming is supported, and otherwise ends the loop with nothing saved |
| Direct.FirstCompleteReplySaves | src/stacks/downloader/direct.py:54-115 | with nothing staged and no known size, a first reply that is complete, not HTML, within its `Content-Length` and at least 1 KiB is saved as it is |
| Direct.InitialProgress | src/stacks/downloader/direct.py:41-43 | a staged file counts only when resuming is supported, and then its full size is the starting offset |
| Direct.DownloadDirect | src/stacks/downloader/direct.py:9-136 | the code as written: the file goes to the output directory under a name not taken before, the computed name itself when it was free and otherwise its first numbered candidate not taken; the attempts are those of the as-written engine starting from the staged bytes; the returned path is that name exactly when some attempt saved; at most `resume_attempts` attempts are made; a complete first reply with nothing staged is saved there |
| Direct.DownloadDirectCorrected | src/stacks/downloader/direct.py:9-136 | the transfer with a 200 reply to a resumed request restarting the file: the same path choice (the free computed name, or its first numbered candidate not taken), attempt bound and return rule over the corrected engine, a complete first reply with nothing staged is saved, and against an honest server whose resource the staging file starts, every saved file is exactly the resource |
| Direct.AsWrittenAppendsFullBodyOnResume | src/stacks/downloader/direct.py:56-90 | as written: a resumed request answered honestly with 200 and the whole resource saves the staged bytes followed by the whole resource, which differs from the resource |
| Direct.AsWrittenHtml206Overcounts | src/stacks/downloader/direct.py:64-82 | as written: a resumed request answered honestly with 206 labelled `text/html` counts its first KiB twice in the total, so the complete transfer is reported incomplete |
| Direct.ReceiveSound | src/stacks/downloader/direct.py:62-108 | in the corrected engine, an honest reply that is saved gives exactly the resource, and one that is interrupted leaves a staging file that is a prefix of the resource |
| Direct.CorrectedAttemptSound | src/stacks/downloader/direct.py:48-108 | in the corrected engine, every attempt answered honestly either saves exactly the resource or leaves a consistent staging file |
| Direct.CorrectedResumeSavesResource | src/stacks/downloader/direct.py:47-130 | in the corrected engine, against an honest server, whatever the retries, a saved file is exactly the resource |
| Direct.CorrectedCompletesHtml206 | src/stacks/downloader/direct.py:64-82 | in the corrected engine, a resumed honest 206 transfer labelled `text/html` is saved as the whole resource |
| DomainUtils.IndexIn | src/stacks/utils/domainutils.py:40 | the index found holds the domain and is its first occurrence |
| DomainUtils.IndexOfElement | src/stacks/utils/domainutils.py:40 | in a list without repetitions the index of the i-th domain is i |
| DomainUtils.GetWorkingDomain | src/stacks/utils/domainutils.py:8-23 | the persisted domain is used exactly when it is non-empty and known; otherwise the first domain is used; the result is always a known domain |
| DomainUtils.GetNextDomain | src/stacks/utils/domainutils.py:37-47 | the next domain is always a known one, and an unknown current domain gives the first |
| DomainUtils.NextDomainIsCyclicSuccessor | src/stacks/utils/domainutils.py:37-44 | the next domain after the i-th is the one at (i + 1) mod n |
| DomainUtils.Rotation | src/stacks/utils/domainutils.py:80-101 | the rotation of length m from a start lists the domains at start, start + 1, … modulo n |
| DomainUtils.DistinctRotation | src/stacks/utils/domainutils.py:80-85 | a rotation no longer than the list visits no domain twice |
| DomainUtils.RotationCoversAll | src/stacks/utils/domainutils.py:80-101 | a full rotation visits every domain |
| DomainUtils.RotationStep | src/stacks/utils/domainutils.py:80-101 | one more step of the loop appends the successor of the last domain tried and keeps the list without repetitions |
| DomainUtils.FailedStep | src/stacks/utils/domainutils.py:98-101 | after a failure the tried list grows by the domain just called, all calls so far failed, and the next domain is its successor |
| DomainUtils.TryDomainsUntilSuccess | src/stacks/utils/domainutils.py:55-105 | the operation is called at most once per domain, in cyclic order from the working domain; it stops at the first success, which is saved and returned; if every call fails, each domain was tried exactly once, nothing is saved and the last error is returned |
| FastDownload.Updated | src/stacks/downloader/fast_download.py:27-35 | the updated status is available, stamped with the current time, and carries the account's quota, daily limit and recent hashes (none given: an empty list) |
| FastDownload.TryFastDownload | src/stacks/downloader/fast_download.py:4-45 | unconfigured or with a known quota of 0 or less it fails without a request; otherwise it succeeds exactly when the reply has a non-empty `download_url` and returns that URL; the status changes only on success with account data; a raised request fails with `API error:` and a reply without a URL with its `error` or `Unknown error` |
| FastDownload.Refresh | src/stacks/downloader/fast_download.py:51-87 | unconfigured it reports failure; within the cooldown and not forced it reports success without a request; a request succeeds exactly when the reply has account data, which then replaces the status, and nothing changes otherwise |
| FastDownload.QuotaExhaustedStopsRequests | src/stacks/downloader/fast_download.py:9-59 | a fast download whose reply reports a quota of 0 succeeds, but the next attempt fails with "No fast downloads remaining" and a refresh within the cooldown makes no request |
| Cookies.LoadCachedCookies | src/stacks/downloader/cookies.py:5-23 | cookies are loaded exactly when the cache file exists and its timestamp (0 when missing) is less than 24 hours old; then every cached cookie is set over the jar and the other cookies of the jar are kept; otherwise the jar is unchanged |
| Cookies.SaveCookiesToCache | src/stacks/downloader/cookies.py:25-36 | a writable cache holds the current time and exactly the given cookies; a failed write leaves the file as it was |
| Cookies.PrewarmCookies | src/stacks/downloader/cookies.py:38-54 | without a solver nothing is asked and nothing is written; with one the solver is asked once, and pre-warming succeeds and saves the cookies exactly when it succeeds with cookies |
| Cookies.PrewarmThenLoad | src/stacks/downloader/cookies.py:5-54 | cookies saved by a pre-warm are loaded back, each with its value, exactly while they are less than 24 hours old |
| Cookies.MissingTimestampIsStale | src/stacks/downloader/cookies.py:12-13 | a cache without a timestamp counts as written at time 0, so it is stale after the first day |
| HtmlLinks.ClipboardAt | src/stacks/downloader/html.py:68 | a match at a position is a non-empty, quote-free group that sits between `writeText('` and a closing quote at exactly that position |
| HtmlLinks.ClipboardFrom | src/stacks/downloader/html.py:68 | the search finds nothing only when no position from the start on holds a match; a found group is non-empty and quote-free |
| HtmlLinks.Method1 | src/stacks/downloader/html.py:24-43 | a link is found exactly when some anchor is absolute, off the skip list, not a slow-download page and carries the md5 prefix; the link is the href of the first such anchor |
| HtmlLinks.Method2 | src/stacks/downloader/html.py:45-63 | a link is found exactly when some absolute, non-navigation anchor says "download" or "get" and names a book extension or `get.php`/`main.php`; it is the first such href |
| HtmlLinks.Method3 | src/stacks/downloader/html.py:65-81 | a link is found exactly when some button's clipboard URL carries the md5 prefix; it is the first such URL cut before its first `~` |
| HtmlLinks.Method4 | src/stacks/downloader/html.py:83-98 | a link is found exactly when some span holds an absolute URL with the md5 prefix; it is the first such text cut before its first `~` |
| HtmlLinks.ParseDownloadLink | src/stacks/downloader/html.py:5-101 | nothing is found exactly when no element passes any of the four rules; otherwise the first method (1 to 4) that finds a link decides |
| HtmlLinks.Method1Result | src/stacks/downloader/html.py:28-43 | a link chosen by the first method is absolute, off the skip list, not a slow-download page and contains the md5 prefix |
| HtmlLinks.LaterMethodsCutAtTilde | src/stacks/downloader/html.py:75-98 | a link chosen by the clipboard or span method never contains `~` |
| HtmlLinks.SlowLinks | src/stacks/downloader/html.py:127-158 | every kept entry is a slow download on annas-archive.org, and every accepted list item yields its link |
| HtmlLinks.SlowLinkSource | src/stacks/downloader/html.py:127-158 | every slow link comes from an accepted list item |
| HtmlLinks.ExternalLinks | src/stacks/downloader/html.py:160-183 | every external link is absolute, has a non-empty host equal to its text and to its URL's network location, comes from the list, and every acceptable href yields one |
| HtmlLinks.GetDownloadLinks | src/stacks/downloader/html.py:103-189 | a failed request gives ("Unknown", []); the title is the `h1` text or "Unknown"; no panel gives no links; otherwise the slow links come first and the rest are exactly the external links of the external list, or nothing without that list |
| HtmlLinks.ExternalLinksInPageOrder | src/stacks/downloader/html.py:160-183 | external links follow the page order: the links of a list are those of its parts one after the other, and one href yields its link exactly when it is an absolute link with a host |
| HtmlLinks.NoFastDownloadLinks | src/stacks/downloader/html.py:136-148 | every slow-download link returned comes from a no-waitlist list item whose href is a slow download and not a fast download |
| Legacy.ResolveLink | src/stacks/downloader/downloader.py:319-358 | resolving one link asks the solver at most once and only for that link's URL, never without a configured solver, and a slow download without a solver yields nothing |
| Legacy.Collect | src/stacks/downloader/downloader.py:313-362 | the URLs collected keep the earlier ones in front, add at most one per link, stay within a positive `max_urls`, and every solver call is for one of the links' URLs |
| Legacy.CollectUncapped | src/stacks/downloader/downloader.py:313-362 | without a positive `max_urls`, the collected URLs are the earlier ones followed by every URL the links resolve to, in link order, and the solver calls are exactly those of all the links |
| Legacy.CollectCapped | src/stacks/downloader/downloader.py:313-362 | with a positive `max_urls`, the collected URLs are the first `max_urls` of the earlier ones followed by the URLs the links resolve to in link order, or all of them when there are fewer |
| Legacy.CollectCalls | src/stacks/downloader/downloader.py:313-362 | the solver calls made are the first ones of the calls all the links would make, in link order |
| Legacy.AllUrlsAreResolved | src/stacks/downloader/downloader.py:306-378 | every URL returned is one some link resolves to, and without a positive `max_urls` every URL a link resolves to is returned |
| Legacy.GetAllDownloadUrls | src/stacks/downloader/downloader.py:306-378 | the result has no repetitions, holds exactly the collected URLs each once in some order, and has at most `max_urls` entries when that is positive |
| Legacy.ShuffleKeepsDistinct | src/stacks/downloader/downloader.py:364-375 | shuffling a list without repetitions keeps it without repetitions |
| Legacy.CollectNothing | src/stacks/downloader/downloader.py:320-323 | without a solver, slow-download links contribute no URL and cause no solver call |
| Legacy.Aria2Extension | src/stacks/downloader/downloader.py:392-404 | the multi-source extension is one of `.pdf`, `.mobi`, `.cbz`, `.epub` |
| Legacy.Aria2ExtensionDefault | src/stacks/downloader/downloader.py:392-393 | when no URL names a format the extension is `.epub` |
| Legacy.Aria2ExtensionFromFirst | src/stacks/downloader/downloader.py:394-403 | the first URL that names a format decides the extension, by the same rule as a single download |
| Legacy.PlanAria2 | src/stacks/downloader/downloader.py:380-440 | no transfer without the tool or without URLs; otherwise the file name is clean and has a dot, the split is the number of URLs capped at 16, and the tries are `resume_attempts` |
| Legacy.DownloadFromMirror | src/stacks/downloader/downloader.py:757-830 | a slow download is never fetched directly and is skipped without a solver, and with a successful solve the solved page is parsed and its link transferred; an external mirror's good first page is parsed and transferred; a 403 whose pre-warm fails gives up without a full solve; after a successful pre-warm a refused retry leads to one full solve and a good retry is parsed and transferred |
| Legacy.MirrorParsesReachedPage | src/stacks/downloader/downloader.py:757-830 | this revision's mirror attempt gives the file of parsing and transferring the page it reaches (the solved page, the first page, or the retried page) and its trace ends with that step; when no page is reached nothing is transferred |
| Legacy.Download | src/stacks/downloader/downloader.py:832-912 | no hash gives (False, False); the fast path is used exactly when it is configured, hands out a URL and that transfer yields a file, and then succeeds without collecting or trying a mirror; otherwise URLs are collected exactly when the option is on and there is more than one link, the multi-source transfer runs exactly when two or more URLs were collected, its success is the result, and when it did not run or failed the success and the mirrors tried are those of the mirror loop over the links in their preferred or shuffled order |
| Legacy.Aria2FailureFallsBack | src/stacks/downloader/downloader.py:867-878 | when the multi-source transfer fails the mirrors are tried exactly as if it had not run |
| Mirrors.CountConcat | src/stacks/downloader/mirrors.py:1-153 | solver calls and GETs of consecutive steps add up |
| Mirrors.ParseAndDownload | src/stacks/downloader/mirrors.py:60-69 | the page is parsed first, with no solver call and no GET; a missing or empty link stops there; a non-empty link is transferred with the md5 and its result is the file returned |
| Mirrors.AfterWellFormed | src/stacks/downloader/mirrors.py:1-153 | steps that transfer nothing, placed before a well-formed run, keep it well formed and add their counts |
| Mirrors.FromSlowPage | src/stacks/downloader/mirrors.py:10-73 | a 403 or 503 without a solver stops after the GET; with one the solver is asked exactly once, its failure yields no file and its success has the solved page parsed and transferred; any other good first reply is parsed and transferred with no solver call |
| Mirrors.FullSolve | src/stacks/downloader/mirrors.py:117-127 | a full solve asks the solver exactly once and makes no GET; a failed solve ends without a file, a successful one has the solved page parsed and transferred |
| Mirrors.FromExternalPage | src/stacks/downloader/mirrors.py:75-149 | a 403 without a solver stops after the GET and with one goes to the challenge handling; any other good first reply is parsed and transferred with one GET and no solver call |
| Mirrors.ExternalChallenge | src/stacks/downloader/mirrors.py:85-127 | the 403 branch with a solver: a retry GET exactly when the pre-warm succeeds, a full solve when it fails or the retry is refused again, parsing and transfer of a good retry otherwise |
| Mirrors.DownloadFromMirror | src/stacks/downloader/mirrors.py:1-153 | the result is well formed: the transfer is called at most once, last, with the md5 and a non-empty link, and a file comes only from it; slow downloads and external mirrors follow their own branch |
| Mirrors.NoLinkNoTransfer | src/stacks/downloader/mirrors.py:44-140 | when no page yields a link, no file is produced and the transfer is never called |
| Mirrors.MirrorParsesReachedPage | src/stacks/downloader/mirrors.py:9-149 | the mirror attempt gives the file of parsing and transferring the page it reaches (first, retried or solved) and its trace ends with that step; when no page is reached nothing is transferred |
| Mirrors.ExternalReached | src/stacks/downloader/mirrors.py:85-127 | in the 403 branch with a solver, the file is that of the retried or solved page and the trace ends with its parse-and-transfer; when neither is reached nothing is transferred |
| Orchestrator.Partition | src/stacks/downloader/orchestrator.py:57-60 | the result is a permutation of the links in which the preferred links, those whose domain contains the preference ignoring case, come exactly first |
| Orchestrator.PartitionStable | src/stacks/downloader/orchestrator.py:57-60 | both groups keep their relative order, and partitioning twice gives the same order |
| Orchestrator.MirrorOrder | src/stacks/downloader/orchestrator.py:56-63 | with or without a preference, the mirrors tried are a permutation of the links |
| Orchestrator.TryMirrors | src/stacks/downloader/orchestrator.py:66-92 | mirrors are tried in order, each at most once; every mirror before the last one tried gave no file (none or an empty path); a file comes from the last one tried, and no file means every mirror was tried and gave none |
| Orchestrator.MirrorPhase | src/stacks/downloader/orchestrator.py:56-92 | the mirrors tried are a prefix of the chosen order, all but the last gave no file (none or an empty path), a non-empty path comes from the last one, and without a file every link was tried |
| Orchestrator.Orchestrate | src/stacks/downloader/orchestrator.py:3-92 | no md5 gives (False, False, None) without a fetch; links are fetched exactly when the title or the links were not given; the fast path is used exactly when it is configured, hands out a URL and that transfer yields a non-empty path, and then no mirror is tried; otherwise the result is that of the mirror phase; success is exactly having a non-empty path |
| Orchestrator.Md5Of | src/stacks/downloader/orchestrator.py:16-19 | an md5 is taken exactly when extraction yields a non-empty string, and it is that string |
| Orchestrator.Resolve | src/stacks/downloader/orchestrator.py:22-24 | the pre-fetched title and links are used exactly when both were given; otherwise both come from one fetch of the book page |
| Orchestrator.FastFailureFallsThrough | src/stacks/downloader/orchestrator.py:32-46 | a fast URL whose transfer fails falls through to the mirrors, and the first preferred mirror that works gives the file |
| Orchestrator.NoLinksFails | src/stacks/downloader/orchestrator.py:49-51 | with no links and no fast path the result is failure with no mirror tried |
| DownloadQueue.Last | src/stacks/server/queue.py:36-58 | the last `n` entries: as many as there are, up to `n`, taken from the end |
| DownloadQueue.Add | src/stacks/server/queue.py:46-72 | a queued md5 is refused with "Already in queue", then the current one with "Currently downloading", then one with a success among the last 50 records with "Recently downloaded", each without change; otherwise exactly one queued item is appended, titled with the given non-empty title or "Unknown" without one and stamped with the current time, and history and current are kept |
| DownloadQueue.AddTwiceRejected | src/stacks/server/queue.py:50-51 | adding the same md5 twice in a row is refused the second time |
| DownloadQueue.OldOrFailedRecordsDoNotBlock | src/stacks/server/queue.py:57-59 | failed records, and successes older than the last 50, never block an add |
| DownloadQueue.GetNext | src/stacks/server/queue.py:74-79 | an empty queue gives nothing and no change; otherwise the head is removed and returned, and the rest keeps its order |
| DownloadQueue.FifoOrder | src/stacks/server/queue.py:69-78 | adding to a non-empty queue does not change which item comes next, and the item added goes behind the rest |
| DownloadQueue.MarkComplete | src/stacks/server/queue.py:81-95 | exactly one record is appended with the given md5, success, error and fast-download flag, titled after the current download or "Unknown", with a path only when one was given; the current slot is cleared and the queue kept |
| DownloadQueue.GetStatus | src/stacks/server/queue.py:103-111 | the status shows the current item and the whole queue with its size, and the last ten records newest first |
| DownloadQueue.DropMd5KeepsOthers | src/stacks/server/queue.py:117 | removing one md5 leaves the items of every other md5 as they were, in order |
| DownloadQueue.DropMd5Length | src/stacks/server/queue.py:116-118 | the queue shrinks by exactly the number of items with that md5 |
| DownloadQueue.ItemsOfNonEmpty | src/stacks/server/queue.py:117-118 | some item has the md5 exactly when it is in the queue |
| DownloadQueue.RemoveFromQueue | src/stacks/server/queue.py:113-122 | the result is true exactly when the md5 was queued; afterwards it is not, the other items keep their order, and history and current are kept |
| DownloadQueue.ClearQueue | src/stacks/server/queue.py:124-131 | the previous queue length is returned, the queue is empty, and history and current are kept |
| DownloadQueue.ClearHistory | src/stacks/server/queue.py:133-140 | the previous history length is returned, the history is empty, and queue and current are kept |
| DownloadQueue.FirstFailed | src/stacks/server/queue.py:146-150 | the position found is the first failed record for that md5, and none is found only when there is no such record |
| DownloadQueue.DropRecords | src/stacks/server/queue.py:156 | the kept records are exactly those of other md5s, in their order and with their multiplicity |
| DownloadQueue.RetryFailed | src/stacks/server/queue.py:142-170 | without a failed record for the md5 it refuses without change; otherwise every record of that md5 is removed, successes included, the other records keep their order, and one queued item with source "retry" and the title of the first failed record is appended |
| DownloadQueue.RetryThenAddRejected | src/stacks/server/queue.py:159-167 | once a retry has queued an md5, adding it again is refused |
| DownloadQueue.SavedHistory | src/stacks/server/queue.py:35-36 | a limit of 0 keeps all history; a positive limit keeps the last that many records; a negative one drops that many from the front, as a Python slice does |
| DownloadQueue.Save | src/stacks/server/queue.py:32-42 | the file holds the whole queue and the history cut by the limit |
| DownloadQueue.Load | src/stacks/server/queue.py:20-30 | a missing file gives an empty queue and history, and nothing is current after loading |
| DownloadQueue.SaveLoadRoundTrip | src/stacks/server/queue.py:20-42 | loading what was saved gives back the queue, and the history cut to the last `max_history` records (all of it for 0) |
| Seqs.Shuffle | src/stacks/downloader/orchestrator.py:61-63 | whatever the random draws, a shuffle is a permutation of its input |
| Seqs.FisherYates | src/stacks/downloader/orchestrator.py:61-63 | each pass of `random.shuffle` from a position downwards keeps the length and the multiset of elements, whatever the draws |
| Seqs.Dedup | src/stacks/downloader/downloader.py:366-372 | the result has no repetitions and holds exactly the elements of the input |
| Seqs.DedupDistinct | src/stacks/downloader/downloader.py:366-372 | a list without repetitions is left as it is |
| Seqs.DedupIdempotent | src/stacks/downloader/downloader.py:366-372 | removing repetitions twice is the same as once |
| Seqs.KeptThenDropped | src/stacks/downloader/orchestrator.py:58-60 | the kept elements followed by the dropped ones are a permutation of the input in which exactly the first group satisfies the test |
| Strings.JoinSplit | web/script/app.js:33-42 | joining the parts of a split with the separator gives back the string |
| Strings.SplitPiecesAreFree | web/script/app.js:33 | no part of a split contains the separator |
| Strings.BeforeFirst | src/stacks/downloader/html.py:76-93 | the part before the first occurrence of a character is a prefix without it, followed in the string by that character when it is shorter |
| Strings.ParseNatToString | src/stacks/downloader/utils.py:12 | the decimal form of a counter reads back as that counter, so different counters give different numbered names |
| UniqueName.SuffixDot | src/stacks/downloader/utils.py:7 | the suffix starts at the last dot of the name, and only when that dot is neither the first nor the last character |
| UniqueName.Suffix | src/stacks/downloader/utils.py:7 | the suffix is empty or a dot followed by at least one character, and it ends the name |
| UniqueName.Stem | src/stacks/downloader/utils.py:6 | the stem followed by the suffix gives back the whole name |
| UniqueName.CandidateInjective | src/stacks/downloader/utils.py:12-13 | different counters give different candidate paths, so the search never repeats a name |
| UniqueName.TriedSize | src/stacks/downloader/utils.py:10-17 | before counter `c` the search has tried exactly `c - 1` distinct paths |
| UniqueName.GetUniqueFilename | src/stacks/downloader/utils.py:1-17 | the result does not exist; a free base path is returned unchanged; otherwise the result is the candidate with the smallest free counter, every lower counter is taken, and the directory is kept |
| UniqueName.CandidateKeepsSuffix | src/stacks/downloader/utils.py:12 | a numbered candidate keeps the original suffix, and its stem is the original stem followed by ` (k)` |
| Urls.SplitScheme | src/stacks/downloader/html.py:170 | a scheme is a non-empty run of scheme characters before the first `:`, lower-cased, and the rest of the URL follows the colon |
| Urls.Netloc | src/stacks/downloader/html.py:170-171 | the host part is empty unless `//` follows the scheme; it is then a prefix of what follows and contains no `/`, `?` or `#` |
| Urls.UrlJoin | src/stacks/downloader/html.py:149 | an href with a scheme is kept as it is; an empty href gives the base; a joined URL always ends with the href; a query-only or fragment-only href follows a prefix of the base; any other relative path follows a prefix of the base ending in `/` |
| Userscript.FindMd5 | web/tamper/stacks_extension.user.js:344 | a position found holds `/md5/`, 32 hex digits and then the end or one of `/?#`, and no earlier position from the start does |
| Userscript.ExtractMd5 | web/tamper/stacks_extension.user.js:344-349 | there is no hash exactly when no position matches; otherwise the hash is the leftmost match's 32 digits in lower case |
| Userscript.ExtractFromBookUrl | web/tamper/stacks_extension.user.js:344-349 | a book page URL `…/md5/<hash>` followed by nothing or by `/`, `?` or `#` gives back its lower-case hash |
| Userscript.LongRunIsNoMd5 | web/tamper/stacks_extension.user.js:344 | a run of 33 hex digits after `/md5/` is not a hash, because of the lookahead |
| Userscript.CompareFrom | web/tamper/stacks_extension.user.js:356-362 | the comparison is -1, 0 or 1, and 0 exactly when every later component is equal, missing components counting as 0 |
| Userscript.CompareVersions | web/tamper/stacks_extension.user.js:351-363 | the result is -1, 0 or 1, and 0 exactly when the two versions agree component by component, padded with zeros |
| Userscript.CompareFromAntisymmetric | web/tamper/stacks_extension.user.js:356-362 | swapping the arguments negates the comparison |
| Userscript.CompareAntisymmetric | web/tamper/stacks_extension.user.js:351-363 | swapping the versions negates the result, and a version equals itself |
| Userscript.CompareFirstDifference | web/tamper/stacks_extension.user.js:356-362 | the first differing component decides: larger there means newer |
| Userscript.CompareFromTransitive | web/tamper/stacks_extension.user.js:356-362 | newer than newer is newer |
| Userscript.PartsOfTwo | web/tamper/stacks_extension.user.js:353-354 | `x.y` with two digits splits into the two numbers |
| Userscript.TrailingZeroIsEqual | web/tamper/stacks_extension.user.js:356-362 | `1.1` and `1.1.0` compare equal: missing components count as 0 |
| Userscript.PartsOfThree | web/tamper/stacks_extension.user.js:353 | `1.1.0` splits into the numbers 1, 1 and 0 |
| Userscript.NumericComponents | web/tamper/stacks_extension.user.js:351-363 | `1.10` is newer than `1.9`: components compare as numbers, not as text |
| Userscript.CheckForUpdates | web/tamper/stacks_extension.user.js:440-478 | the server is asked exactly when the current version was not dismissed; a banner is shown exactly when the reply is 200 with a non-empty `tamper_version` newer than the current one, and it names that version |
| Userscript.NoBannerWhenUpToDate | web/tamper/stacks_extension.user.js:464-470 | a server version that is not newer, the current one included, shows no banner |
| Userscript.StripTrailingSlashes | web/tamper/stacks_extension.user.js:538 | the result is a prefix of the URL that does not end in `/`, and only slashes were removed |
| Userscript.StripSlashesAdded | web/tamper/stacks_extension.user.js:538 | removing trailing slashes undoes adding any number of them to a URL that did not end in one |
| Userscript.AddToQueue | web/tamper/stacks_extension.user.js:786-807 | without a key nothing is sent and the call fails; with one the request goes to `/api/queue/add`; 401 and 403 fail as an invalid key, an unreachable server fails with its message, and success is exactly a 200 reply with data |
| DownloadQueue.RequeueCurrent | src/stacks/server/worker.py:150-159 | the current item, if any, goes back to the head of the queue as queued with its md5, title, source, time added and subfolder; the rest of the queue follows unchanged and the slot is cleared |
| DownloadQueue.RequeuedComesFirst | src/stacks/server/worker.py:150-159 | a requeued item is the next one taken, and taking it restores the queue as it was |
| Worker.DoPause | src/stacks/server/worker.py:168-173 | pausing sets the flag and changes nothing else |
| Worker.DoResume | src/stacks/server/worker.py:175-179 | resuming clears the flag and changes nothing else |
| Worker.DoCancelAndRequeue | src/stacks/server/worker.py:181-191 | without a current item nothing changes and the answer is false; with one the cancel flag and the pause flag are set and nothing else changes |
| Worker.DoCancelAndRemove | src/stacks/server/worker.py:193-203 | without a current item nothing changes and the answer is false; with one the cancel flag is set, the item is marked for removal, and the pause flag, queue and history are kept |
| Worker.CancelCommandsDiffer | src/stacks/server/worker.py:181-203 | both cancels set the cancel flag, but only cancel-and-requeue pauses, and only cancel-and-remove marks the item |
| Worker.ApplyAll | src/stacks/server/worker.py:168-203 | any sequence of pause, resume and cancel commands leaves the queue, history, running flag and current item unchanged, apart from the removal mark |
| Worker.ProgressCallback | src/stacks/server/worker.py:20-34 | the answer is true exactly when no cancel is pending; a progress report is stored on the current item only then, and a check-only call changes nothing |
| Worker.Stop | src/stacks/server/worker.py:139-159 | stopping clears the running flag and the current slot; a current item goes back to the head of the queue as queued; history is kept |
| Worker.BeginItem | src/stacks/server/worker.py:248-259 | the head item is taken and becomes the current download with status downloading, no progress and no removal mark, before anything is fetched |
| Worker.EndCancelled | src/stacks/server/worker.py:294-305 | a cancel after fetching clears the cancel flag and writes no record; an item marked for removal is dropped, any other is requeued |
| Worker.AfterFetchFailure | src/stacks/server/worker.py:263-275 | a failed fetch requeues the item when paused, and otherwise writes exactly one failure record for it |
| Worker.AfterDownload | src/stacks/server/worker.py:309-358 | a returned download clears the cancel flag and requeues when paused, else writes one record with its success and fast-download flag; a raised download is handled as a cancel when one is pending, requeued when paused, else recorded as a failure |
| Worker.AfterFetch | src/stacks/server/worker.py:277-305 | after a fetch, a pause requeues without a record, and a pending cancel is cleared without a record, dropping an item marked for removal |
| Worker.Step | src/stacks/server/worker.py:242-358 | while paused, or with an empty queue, an iteration changes nothing; otherwise it ends with no current item and writes at most one record |
| Worker.StepAccountsForItem | src/stacks/server/worker.py:242-358 | an iteration on a non-empty queue either puts the head back in front, or removes it and writes exactly one record for it, or removes it without a record |
| Worker.PauseDuringDownloadRequeues | src/stacks/server/worker.py:324-328 | a pause arriving while the download runs puts the item back at the head as queued, and no record is written |
| ZLib.ZlibHostOnLabelBoundary | src/stacks/downloader/sites/zlib.py:69-87 | a Z-Library host is one of the five known domains or ends with one of them right after a dot |
| ZLib.SuffixWithoutDotRejected | src/stacks/downloader/sites/zlib.py:83-85 | `xz-lib.fm` is not a Z-Library host, while the language subdomain `ru.z-lib.fm` is |
| ZLib.JoinPath | src/stacks/downloader/sites/zlib.py:33-61 | a root-relative path is joined onto the mirror's scheme and host, and the joined URL ends with the path |
| ZLib.MainButton | src/stacks/downloader/sites/zlib.py:29 | the main button is an anchor of the page with the `addDownloadedBook` class and an `href`, and none is found only when no anchor qualifies |
| ZLib.Method1 | src/stacks/downloader/sites/zlib.py:28-35 | the main button decides exactly when its `href` starts with `/dl/`, giving that path on the mirror's host |
| ZLib.Method2 | src/stacks/downloader/sites/zlib.py:37-55 | an alternative format is found exactly when the main button's `href` contains `/dl/` and some `addDownloadedBook` anchor has a book id; the link is `/dl/<first book id>/<last segment of the main href>` on the mirror's host |
| ZLib.Method3 | src/stacks/downloader/sites/zlib.py:57-63 | a link is found exactly when some anchor's `href` is root-relative and contains `/dl/`; the first such path is joined onto the mirror's host |
| ZLib.ParseZlibDownloadLink | src/stacks/downloader/sites/zlib.py:7-66 | the methods are tried in order and the first that finds a link decides; nothing is found only when no anchor passes the last method |
| ZLib.ResultOnMirrorHost | src/stacks/downloader/sites/zlib.py:26-63 | without protocol-relative links on the page, every link found lives on the mirror's own scheme and host |
| ZLib.DlLinkHasThreeParts | src/stacks/downloader/sites/zlib.py:47-50 | an `href` containing `/dl/` always splits into at least three parts, so that length test never fails on its own |

## Left out

- Threads, locks, sleeps and back-off delays: the model is single-threaded, and a wait is only a counted attempt.
- Logging, status callbacks other than progress, `recreate_downloader`, and `_cleanup_partial_file` globbing: these are effects with no decision in them.
- Real HTTP, BeautifulSoup parsing and the challenge-solver request: these become replies, anchors and solver results given as inputs.
- The aria2 subprocess and its output parsing: only the gate, the plan (split, extension, name) and the fallback are modelled.
- `generate_api_key` and bcrypt hashing: these become a fresh key and a hash function given as inputs.
- The copies returned by `get_all_domains`, `get_fast_download_info` and `Config.get_all`: values are immutable here, so no mutation of a copy can reach the state.
- `formatBytes` in the dashboard: it uses floating-point logarithms and division.
- The DOM work of the userscript and the dashboard, such as showing the update banner or filling the log template: only the decisions are modelled.
- `require_login` and `require_session_only` in `auth.py`: these are route decorators outside the modelled decision.
- Unicode case mapping: `lower()` and `toLowerCase()` are modelled on ASCII letters only.
- Regular expressions: the domain, md5 and URL patterns are predicates given as inputs, except where the pattern is simple enough to write out (the md5 runs, the clipboard `writeText('…')` call).
- Validate.Validate: a top-level YAML document that is not a mapping is not modelled, and neither is the error raised when a schema section is not a mapping.
- Userscript.CompareVersions: JavaScript `Number()` is modelled on digit strings. A component with other characters counts as 0, and whitespace, signs, hex, exponents and precision loss on large numbers are not modelled.
- Worker.Step: the extra `filename` and `subfolder` arguments passed to `mark_complete` are ignored, as the shown queue does not accept them.
- Mirrors.DownloadFromMirror: the page parser and `download_direct` are oracles that receive the md5, as the versions the file calls are not part of this model.
- Legacy.DownloadFromMirror: the transfer events carry the md5 although `downloader.py` lines 785, 809 and 822 call `download_direct` without it; the md5 plays no part in the modelled decisions.
- Direct.DownloadDirect: the URL's own name (the unquoted last segment of its path, `direct.py` line 17) is a parameter, as URL path parsing and percent-decoding are not modelled.
- Validate.ValidateValueIdempotent: the generated key and the password hash are the same inputs on both passes and `RESET_ADMIN` is off; `_apply_default` draws a new key and a new bcrypt salt on every call, so for the source a second pass keeps a default only when its own rules accept it (Validate.ValidateValueStable), and under `RESET_ADMIN` it never keeps a hash-only key (Validate.ResetAdminRehashes).
- Validate.ValidateIdempotent: holds under the same two conditions as Validate.ValidateValueIdempotent, for the whole configuration.
- Validate.SectionIdempotent: holds under the same two conditions as Validate.ValidateValueIdempotent, for one section.
- Urls.UrlJoin: dot segments (`.` and `..`) are not removed and `;params` are not split off, so for such hrefs the result differs from `urljoin`; the hrefs the pages hand out (`/slow_download/…`, absolute mirror URLs) contain neither.
- Config.Value: YAML floats, dates and other scalars have no constructor. No schema type accepts them, so the source replaces such a value with its key's default (a truthy one under a bcrypt rule raises instead); the model cannot express these inputs.
- DomainUtils.TryDomainsUntilSuccess: the skip of an already tried domain (`domainutils.py` lines 81-83) is not modelled, as the domain list is required to hold no repeats and on such a list the cyclic order never revisits a domain within one pass.
- Validate.Startup: start-up composes the corrected validation, so a `login:` with nothing under it or a numeric password, on which `Config.__init__` raises (`validate.py` line 31, `auth.py` line 37), is healed instead; the as-written behaviour is stated by Validate.ValidateAsWritten and the Findings rows.

## Findings

| source | as written | input that shows it | evidently intended | confidence | as-written member | corrected member |
|---|---|---|---|---|---|---|
| src/stacks/downloader/direct.py:56-90 | a resumed request answered with 200 (the whole resource) is appended to the staged bytes | a staging file of P bytes, 0 < P, and a server that ignores `Range` and returns the whole resource with 200 | a 200 reply restarts the file from the beginning, so the saved file is the resource | not executed | Direct.AsWrittenAppendsFullBodyOnResume | Direct.CorrectedResumeSavesResource |
| src/stacks/downloader/direct.py:64-82 | on a `text/html` reply the sniffed first KiB is added to the count before the total of a 206 reply is computed, so it is counted twice | a resumed 206 reply labelled `text/html` whose first KiB is not HTML | the total of a 206 reply is the offset before the reply plus its Content-Length | not executed | Direct.AsWrittenHtml206Overcounts | Direct.CorrectedCompletesHtml206 |
| src/stacks/config/validate.py:26-31 | a section present in the file with an empty (null) value is passed on as `None`, and looking up a key in it raises | a configuration file with `login:` and nothing under it | a null section counts as empty and is filled with defaults | not executed | Validate.AsWrittenEmptySectionRaises | Validate.Validate |
| src/stacks/config/validate.py:97-99 | the bcrypt check calls `startswith` on any value, so a number raises instead of being replaced | `password: 12345` under `login` | a value that is not a string is rejected and replaced by the default hash | not executed | Validate.AsWrittenNumericHashRaises | Validate.ValidateValue |
