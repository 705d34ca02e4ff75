/** Login security (`auth.py`): the bcrypt-hash shape check, the per-IP
    login rate limiter with its lockout, and the API access decision. The
    clock is whole seconds, given by the caller. */
module Auth {
  import opened Wrappers
  import opened Strings
  import opened Seqs
  import Config

  /** A string shaped like a bcrypt hash: a `$2a$`, `$2b$` or `$2y$` prefix and 60 characters. */
  predicate IsValidBcryptHash(h: string) {
    h != "" && (StartsWith(h, "$2a$") || StartsWith(h, "$2b$") || StartsWith(h, "$2y$")) && |h| == 60
  }

  /** The emptiness test is implied by the length: the shape is the prefix
      (one of three) and the length alone. */
  lemma BcryptShape(h: string)
    ensures IsValidBcryptHash(h) <==> |h| == 60 && h[..4] in {"$2a$", "$2b$", "$2y$"}
  {
    if |h| == 60 {
      assert StartsWith(h, h[..4]);
    }
  }

  const MaxAttempts: nat := 5
  /** The attempt window and the lockout, ten minutes each. */
  const Window: int := 600
  const Lockout: int := 600

  /** The in-memory tables: failed-attempt times and lockout ends, per IP. */
  datatype Limiter = Limiter(attempts: map<string, seq<int>>, lockouts: map<string, int>)

  /** Whether an attempt time is newer than the cut-off. */
  function Newer(cutoff: int): int -> bool {
    (t: int) => t > cutoff
  }

  /** The attempts newer than the cut-off, in their order and with their
      repetitions: exactly the order-preserving filter of the list. */
  function Recent(ts: seq<int>, cutoff: int): (r: seq<int>)
    ensures r == Filter(ts, Newer(cutoff))
    ensures |r| <= |ts|
    ensures forall i :: 0 <= i < |r| ==> r[i] > cutoff
    ensures forall t :: t in ts && t > cutoff ==> t in r
    ensures forall t :: t in r ==> t in ts
  {
    if |ts| == 0 then []
    else (if ts[0] > cutoff then [ts[0]] else []) + Recent(ts[1..], cutoff)
  }

  /** The message of an active lockout: the whole minutes remaining. */
  function LockedMessage(until: int, now: int): string
    requires now < until
  {
    "Too many failed attempts. Try again in " + NatToString((until - now) / 60) + " minutes."
  }

  const LockedOutMessage: string := "Too many failed attempts. Try again in 10 minutes."

  /** The result of `check_rate_limit`: allowed, the refusal message, the tables afterwards. */
  datatype Check = Check(allowed: bool, message: Option<string>, limiter: Limiter)

  /** Whether `ip` is locked out at `now`. */
  predicate LockedOut(l: Limiter, ip: string, now: int) {
    ip in l.lockouts && now < l.lockouts[ip]
  }

  /** `check_rate_limit`: an active lockout refuses and changes nothing; an
      expired one is dropped with the attempts; otherwise the attempts older
      than the window are discarded and five or more recent ones start a
      lockout. */
  function CheckRateLimit(l: Limiter, ip: string, now: int): (r: Check)
    ensures LockedOut(l, ip, now) ==> r == Check(false, Some(LockedMessage(l.lockouts[ip], now)), l)
    ensures !LockedOut(l, ip, now) ==> ip in r.limiter.attempts && |r.limiter.attempts[ip]| <= |Surviving(l, ip)|
    ensures !LockedOut(l, ip, now) ==> r.limiter.attempts[ip] == Filter(Surviving(l, ip), Newer(now - Window))
    ensures !LockedOut(l, ip, now) ==> forall i :: 0 <= i < |r.limiter.attempts[ip]| ==> r.limiter.attempts[ip][i] > now - Window
    ensures !LockedOut(l, ip, now) ==> forall t :: t in Surviving(l, ip) && t > now - Window ==> t in r.limiter.attempts[ip]
    ensures !LockedOut(l, ip, now) ==> (r.allowed <==> |r.limiter.attempts[ip]| < MaxAttempts)
    ensures !LockedOut(l, ip, now) && !r.allowed ==>
      r.message == Some(LockedOutMessage) && ip in r.limiter.lockouts && r.limiter.lockouts[ip] == now + Lockout
    ensures r.allowed ==> r.message.None? && ip !in r.limiter.lockouts
    ensures forall other :: other != ip ==>
      (other in r.limiter.attempts <==> other in l.attempts) && (other in r.limiter.lockouts <==> other in l.lockouts)
    ensures forall other :: other != ip && other in l.attempts ==> r.limiter.attempts[other] == l.attempts[other]
    ensures forall other :: other != ip && other in l.lockouts ==> r.limiter.lockouts[other] == l.lockouts[other]
  {
    if LockedOut(l, ip, now) then Check(false, Some(LockedMessage(l.lockouts[ip], now)), l)
    else
      var recent := Recent(Surviving(l, ip), now - Window);
      var attempts := l.attempts[ip := recent];
      if |recent| >= MaxAttempts then
        Check(false, Some(LockedOutMessage), Limiter(attempts, (l.lockouts - {ip})[ip := now + Lockout]))
      else Check(true, None, Limiter(attempts, l.lockouts - {ip}))
  }

  /** The attempts of `ip` that survive the lockout check: none once an
      (expired) lockout has been dropped together with them. */
  function Surviving(l: Limiter, ip: string): seq<int> {
    if ip in l.lockouts then [] else AttemptsOf(l, ip)
  }

  /** `record_failed_attempt`: exactly one timestamp is appended for `ip`. */
  function RecordFailedAttempt(l: Limiter, ip: string, now: int): (r: Limiter)
    ensures ip in r.attempts && |r.attempts[ip]| == |AttemptsOf(l, ip)| + 1
    ensures r.attempts[ip][..|AttemptsOf(l, ip)|] == AttemptsOf(l, ip) && r.attempts[ip][|AttemptsOf(l, ip)|] == now
    ensures r.lockouts == l.lockouts
    ensures forall other :: other != ip ==> (other in r.attempts <==> other in l.attempts)
    ensures forall other :: other != ip && other in l.attempts ==> r.attempts[other] == l.attempts[other]
  {
    Limiter(l.attempts[ip := AttemptsOf(l, ip) + [now]], l.lockouts)
  }

  /** The attempts recorded for `ip`, none when it has no entry. */
  function AttemptsOf(l: Limiter, ip: string): seq<int> {
    if ip in l.attempts then l.attempts[ip] else []
  }

  /** `clear_attempts`: both entries of `ip` are removed, the others kept. */
  function ClearAttempts(l: Limiter, ip: string): (r: Limiter)
    ensures ip !in r.attempts && ip !in r.lockouts
    ensures forall other :: other != ip ==>
      (other in r.attempts <==> other in l.attempts) && (other in r.lockouts <==> other in l.lockouts)
    ensures forall other :: other != ip && other in l.attempts ==> r.attempts[other] == l.attempts[other]
    ensures forall other :: other != ip && other in l.lockouts ==> r.lockouts[other] == l.lockouts[other]
  {
    Limiter(l.attempts - {ip}, l.lockouts - {ip})
  }

  /** Five failures within the window lock the IP out on the next check,
      and every check before the lockout ends is refused without effect. */
  lemma FiveFailuresLockOut(l: Limiter, ip: string, now: int, later: int)
    requires ip !in l.lockouts
    requires |AttemptsOf(l, ip)| >= MaxAttempts
    requires forall i :: 0 <= i < |AttemptsOf(l, ip)| ==> AttemptsOf(l, ip)[i] > now - Window
    requires now <= later < now + Lockout
    ensures var c := CheckRateLimit(l, ip, now);
      && !c.allowed && c.message == Some(LockedOutMessage)
      && CheckRateLimit(c.limiter, ip, later) == Check(false, Some(LockedMessage(now + Lockout, later)), c.limiter)
  {
    RecentKeepsAll(AttemptsOf(l, ip), now - Window);
  }

  /** With every time above the cut-off, nothing is discarded. */
  lemma {:induction false} RecentKeepsAll(ts: seq<int>, cutoff: int)
    requires forall i :: 0 <= i < |ts| ==> ts[i] > cutoff
    ensures Recent(ts, cutoff) == ts
  {
    if |ts| > 0 {
      RecentKeepsAll(ts[1..], cutoff);
      assert [ts[0]] + ts[1..] == ts;
    }
  }

  /** An expired lockout forgets the attempts too: the check allows. */
  lemma ExpiredLockoutForgets(l: Limiter, ip: string, now: int)
    requires ip in l.lockouts && l.lockouts[ip] <= now
    ensures var c := CheckRateLimit(l, ip, now);
      c.allowed && c.limiter.attempts[ip] == [] && ip !in c.limiter.lockouts
  {
  }

  /** After a successful login clears the IP, its next check allows. */
  lemma ClearThenAllowed(l: Limiter, ip: string, now: int)
    ensures CheckRateLimit(ClearAttempts(l, ip), ip, now).allowed
  {
  }

  /** The outcome of `require_auth`: the call goes ahead or a 401 answer. */
  datatype Access = Allow | Unauthorized(status: int, error: string)

  /** The key offered: the `X-API-Key` header, or the `api_key` argument when the header is missing or empty. */
  function Provided(header: Option<string>, arg: Option<string>): Option<string> {
    if header.Some? && header.value != "" then header else arg
  }

  /** `require_auth`: authentication disabled in the configuration, a
      logged-in session, or an offered key equal to the configured one. */
  function RequireAuth(cfg: Config.Value, loggedIn: bool, header: Option<string>, arg: Option<string>): (r: Access)
    ensures r == Allow || r == Unauthorized(401, "Authentication required")
    ensures r == Allow <==>
      || Config.Truthy(Config.Get(cfg, ["login", "disable"], Config.Null))
      || loggedIn
      || (exists k :: Provided(header, arg) == Some(k) && k != "" && Config.At(cfg, ["api", "key"]) == Some(Config.Str(k)))
  {
    if Config.Truthy(Config.Get(cfg, ["login", "disable"], Config.Null)) then Allow
    else if loggedIn then Allow
    else
      var provided := Provided(header, arg);
      var valid := Config.Get(cfg, ["api", "key"], Config.Null);
      if provided.Some? && provided.value != "" && Config.Truthy(valid) && valid == Config.Str(provided.value) then Allow
      else Unauthorized(401, "Authentication required")
  }

  /** A non-empty header is the key offered even when the argument holds the right one. */
  lemma HeaderTakesPrecedence(cfg: Config.Value, header: string, arg: string)
    requires header != "" && header != arg
    requires Config.At(cfg, ["api", "key"]) == Some(Config.Str(arg))
    requires !Config.Truthy(Config.Get(cfg, ["login", "disable"], Config.Null))
    ensures RequireAuth(cfg, false, Some(header), Some(arg)) == Unauthorized(401, "Authentication required")
    ensures RequireAuth(cfg, false, Some(""), Some(arg)) == Allow || arg == ""
  {
  }
}
