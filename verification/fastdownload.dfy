/** The member fast-download API (`fast_download.py`): the quota gate, the
    URL request, and the account-information refresh with its cooldown.
    The API call is an input and the clock is whole seconds. */
module FastDownload {
  import opened Wrappers

  /** The cached account information; every entry may be absent. */
  datatype Info = Info(available: Option<bool>, downloadsLeft: Option<int>, downloadsPerDay: Option<int>,
                       recentMd5s: Option<seq<string>>, lastRefresh: Option<int>)

  /** The `account_fast_download_info` object of an API reply. */
  datatype Account = Account(downloadsLeft: Option<int>, downloadsPerDay: Option<int>, recentMd5s: Option<seq<string>>)

  /** An API call: raised (network or JSON error), or the reply's
      `download_url`, `account_fast_download_info` and `error` entries. */
  datatype Api = ApiRaised(message: string) | ApiReply(downloadUrl: Option<string>, account: Option<Account>, error: Option<string>)

  datatype Config = Config(enabled: bool, key: string, cooldown: int)

  predicate Configured(c: Config) {
    c.enabled && c.key != ""
  }

  /** The information after an API reply carrying account data. */
  function Updated(info: Info, a: Account, now: int): (r: Info)
    ensures r.available == Some(true) && r.lastRefresh == Some(now)
    ensures r.downloadsLeft == a.downloadsLeft && r.downloadsPerDay == a.downloadsPerDay
    ensures r.recentMd5s == Some(a.recentMd5s.GetOr([]))
  {
    Info(Some(true), a.downloadsLeft, a.downloadsPerDay, Some(a.recentMd5s.GetOr([])), Some(now))
  }

  /** The result of `try_fast_download`: success with the URL or failure
      with a message, the information afterwards, and whether the API was called. */
  datatype TryResult = TryResult(ok: bool, message: string, info: Info, requested: bool)

  /** `try_fast_download`. */
  function TryFastDownload(c: Config, info: Info, api: Api, now: int): (r: TryResult)
    ensures !Configured(c) ==> r == TryResult(false, "Fast download not configured", info, false)
    ensures Configured(c) && info.downloadsLeft.Some? && info.downloadsLeft.value <= 0 ==>
      r == TryResult(false, "No fast downloads remaining", info, false)
    ensures r.requested <==> Configured(c) && (info.downloadsLeft.None? || info.downloadsLeft.value > 0)
    ensures r.ok <==> r.requested && api.ApiReply? && api.downloadUrl.Some? && api.downloadUrl.value != ""
    ensures r.ok ==> r.message == api.downloadUrl.value
    ensures r.info != info ==> r.ok && api.account.Some? && r.info == Updated(info, api.account.value, now)
    ensures r.requested && api.ApiRaised? ==> r.message == "API error: " + api.message
    ensures r.requested && api.ApiReply? && !r.ok ==> r.message == api.error.GetOr("Unknown error")
  {
    if !Configured(c) then TryResult(false, "Fast download not configured", info, false)
    else if info.downloadsLeft.Some? && info.downloadsLeft.value <= 0 then
      TryResult(false, "No fast downloads remaining", info, false)
    else match api
      case ApiRaised(msg) => TryResult(false, "API error: " + msg, info, true)
      case ApiReply(url, account, error) =>
        if url.Some? && url.value != "" then
          var info' := if account.Some? then Updated(info, account.value, now) else info;
          TryResult(true, url.value, info', true)
        else TryResult(false, error.GetOr("Unknown error"), info, true)
  }

  /** The result of `refresh_fast_download_info`. */
  datatype RefreshResult = RefreshResult(ok: bool, info: Info, requested: bool)

  /** Whether the last refresh, a missing one counting as time 0, is within the cooldown. */
  predicate Cooling(c: Config, info: Info, now: int) {
    now - info.lastRefresh.GetOr(0) < c.cooldown
  }

  /** `refresh_fast_download_info`. */
  function Refresh(c: Config, info: Info, force: bool, api: Api, now: int): (r: RefreshResult)
    ensures !Configured(c) ==> r == RefreshResult(false, info, false)
    ensures Configured(c) && !force && Cooling(c, info, now) ==> r == RefreshResult(true, info, false)
    ensures r.requested <==> Configured(c) && (force || !Cooling(c, info, now))
    ensures r.requested ==> (r.ok <==> api.ApiReply? && api.account.Some?)
    ensures r.requested && r.ok ==> r.info == Updated(info, api.account.value, now)
    ensures !r.requested || !r.ok ==> r.info == info
  {
    if !Configured(c) then RefreshResult(false, info, false)
    else if !force && Cooling(c, info, now) then RefreshResult(true, info, false)
    else match api
      case ApiRaised(_) => RefreshResult(false, info, true)
      case ApiReply(_, account, _) =>
        if account.Some? then RefreshResult(true, Updated(info, account.value, now), true)
        else RefreshResult(false, info, true)
  }

  /** Once the API reports no downloads left, the next attempt is refused
      without a request, and a refresh within the cooldown makes none either. */
  lemma QuotaExhaustedStopsRequests(c: Config, info: Info, url: string, a: Account, now: int, later: int, next: Api)
    requires Configured(c) && url != ""
    requires (info.downloadsLeft.None? || info.downloadsLeft.value > 0)
    requires a.downloadsLeft == Some(0)
    requires now <= later < now + c.cooldown
    ensures var first := TryFastDownload(c, info, ApiReply(Some(url), Some(a), None), now);
      && first.ok && first.message == url
      && TryFastDownload(c, first.info, next, later) == TryResult(false, "No fast downloads remaining", first.info, false)
      && !Refresh(c, first.info, false, next, later).requested
  {
    var first := TryFastDownload(c, info, ApiReply(Some(url), Some(a), None), now);
    assert first.info == Updated(info, a, now);
  }
}
