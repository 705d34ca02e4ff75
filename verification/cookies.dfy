/** The challenge-solver cookie cache (`cookies.py`): a file holding a
    timestamp and a cookie map, fresh for 24 hours, written after a
    successful pre-warm. Time is whole seconds, given by the caller. */
module Cookies {
  import opened Wrappers

  /** What the challenge solver returns: success, the cookies it obtained and the page. */
  datatype Solved = Solved(success: bool, cookies: map<string, string>, html: string)

  /** The cache file: absent, unreadable (not JSON or not the expected
      shape), or its `timestamp` (absent when missing) and `cookies` entries. */
  datatype CacheFile = Missing | Unreadable | Cache(timestamp: Option<int>, cookies: Option<map<string, string>>)

  const FreshFor: int := 86400

  /** Cookies are fresh when less than a day old; a missing timestamp counts as 0. */
  predicate Fresh(file: CacheFile, now: int)
    requires file.Cache?
  {
    now - file.timestamp.GetOr(0) < FreshFor
  }

  /** `_load_cached_cookies`: applies fresh cached cookies to the session's
      jar (each cached name overriding) and reports whether it did. */
  function LoadCachedCookies(file: CacheFile, now: int, jar: map<string, string>): (r: (bool, map<string, string>))
    ensures r.0 <==> file.Cache? && Fresh(file, now)
    ensures !r.0 ==> r.1 == jar
    ensures r.0 ==> forall n :: n in file.cookies.GetOr(map[]) ==> n in r.1 && r.1[n] == file.cookies.GetOr(map[])[n]
    ensures r.0 ==> forall n :: n in r.1 ==> n in jar || n in file.cookies.GetOr(map[])
    ensures r.0 ==> forall n :: n in jar && n !in file.cookies.GetOr(map[]) ==> n in r.1 && r.1[n] == jar[n]
  {
    match file
    case Cache(_, cookies) =>
      if Fresh(file, now) then (true, jar + cookies.GetOr(map[])) else (false, jar)
    case _ => (false, jar)
  }

  /** `_save_cookies_to_cache`: the file written, or the old one when the
      write fails (the failure is swallowed). */
  function SaveCookiesToCache(file: CacheFile, cookies: map<string, string>, now: int, writable: bool): (r: CacheFile)
    ensures writable ==> r.Cache? && r.timestamp == Some(now) && r.cookies == Some(cookies)
    ensures !writable ==> r == file
  {
    if writable then Cache(Some(now), Some(cookies)) else file
  }

  /** `_prewarm_cookies`: without a solver nothing is solved; otherwise the
      solve of the archive's home page is cached when it succeeded with a
      non-empty cookie map. Returns whether it was cached, the solver calls
      made, and the cache file. */
  function PrewarmCookies(solverConfigured: bool, solve: Solved, file: CacheFile, now: int, writable: bool)
    : (r: (bool, nat, CacheFile))
    ensures !solverConfigured ==> r == (false, 0, file)
    ensures solverConfigured ==> r.1 == 1
    ensures r.0 <==> solverConfigured && solve.success && solve.cookies != map[]
    ensures !r.0 ==> r.2 == file
    ensures r.0 ==> r.2 == SaveCookiesToCache(file, solve.cookies, now, writable)
  {
    if !solverConfigured then (false, 0, file)
    else if solve.success && solve.cookies != map[] then (true, 1, SaveCookiesToCache(file, solve.cookies, now, writable))
    else (false, 1, file)
  }

  /** Cookies saved by a pre-warm are loaded, with their values, by any load
      within the next 24 hours, and not by one a day or more later. */
  lemma PrewarmThenLoad(solve: Solved, file: CacheFile, saved: int, later: int, jar: map<string, string>)
    requires solve.success && solve.cookies != map[]
    requires saved <= later
    ensures var cached := PrewarmCookies(true, solve, file, saved, true).2;
      var loaded := LoadCachedCookies(cached, later, jar);
      && (loaded.0 <==> later - saved < FreshFor)
      && (loaded.0 ==> forall n :: n in solve.cookies ==> n in loaded.1 && loaded.1[n] == solve.cookies[n])
  {
  }

  /** A cache file without a timestamp is always stale for a present-day clock. */
  lemma MissingTimestampIsStale(cookies: Option<map<string, string>>, now: int, jar: map<string, string>)
    requires now >= FreshFor
    ensures LoadCachedCookies(Cache(None, cookies), now, jar) == (false, jar)
  {
  }
}
