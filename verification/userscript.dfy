/** The browser userscript's pure logic (`stacks_extension.user.js`): the
    md5 of a book page URL, version comparison and the update-banner
    decision, the API URL join, and the guards of adding to the queue. The
    HTTP replies and the stored dismissed version are inputs. */
module Userscript {
  import opened Wrappers
  import opened Strings
  import opened Seqs

  predicate IsHex(c: char) {
    '0' <= c <= '9' || 'a' <= c <= 'f' || 'A' <= c <= 'F'
  }

  /** 32 hexadecimal characters start at `i`. */
  predicate HexRunAt(s: string, i: int) {
    0 <= i && i + 32 <= |s| && forall j :: i <= j < i + 32 ==> IsHex(s[j])
  }

  /** The md5 pattern matches at `i`: `/md5/`, 32 hexadecimal characters,
      then the end or one of `/`, `?`, `#`. */
  predicate Md5At(url: string, i: int) {
    OccursAt(url, "/md5/", i) && HexRunAt(url, i + 5)
    && (i + 37 == |url| || (i + 37 < |url| && url[i + 37] in {'/', '?', '#'}))
  }

  /** The first match at or after `from`. */
  function FindMd5(url: string, from: nat): (r: Option<nat>)
    ensures r.Some? ==> from <= r.value && Md5At(url, r.value)
    ensures forall j :: from <= j && (r.None? || j < r.value) ==> !Md5At(url, j)
    decreases |url| - from
  {
    if from >= |url| then None
    else if Md5At(url, from) then Some(from)
    else FindMd5(url, from + 1)
  }

  /** `extractMD5`: the lower-cased hash of the leftmost match, if any. */
  function ExtractMd5(url: string): (r: Option<string>)
    ensures r.None? <==> forall i :: !Md5At(url, i)
    ensures r.Some? ==> exists i :: Md5At(url, i) && (forall j :: 0 <= j < i ==> !Md5At(url, j)) && r.value == Lower(url[i + 5..i + 37])
    ensures r.Some? ==> |r.value| == 32 && forall j :: 0 <= j < 32 ==> IsHex(r.value[j]) && !('A' <= r.value[j] <= 'Z')
  {
    match FindMd5(url, 0)
    case None => None
    case Some(i) =>
      assert Md5At(url, i);
      Some(Lower(url[i + 5..i + 37]))
  }

  /** The hash in a book page URL is found, whatever query or fragment follows. */
  lemma {:induction false} ExtractFromBookUrl(site: string, h: string, rest: string)
    requires !Contains(site, "/md5/")
    requires |h| == 32 && forall j :: 0 <= j < 32 ==> IsHex(h[j]) && !('A' <= h[j] <= 'Z')
    requires rest == [] || rest[0] in {'/', '?', '#'}
    ensures ExtractMd5(site + "/md5/" + h + rest) == Some(h)
  {
    var url := site + "/md5/" + h + rest;
    var i := |site|;
    assert url[i..i + 5] == "/md5/";
    assert url[i + 5..i + 37] == h;
    assert Md5At(url, i);
    forall j | 0 <= j < i
      ensures !Md5At(url, j)
    {
      if Md5At(url, j) {
        if j + 5 <= i {
          assert site[j..j + 5] == url[j..j + 5];
          ContainsAt(site, "/md5/", j);
        } else {
          assert false;
        }
      }
    }
    var k := FindMd5(url, 0).value;
    assert k == i;
    assert Lower(h) == h;
  }

  /** A 33rd hexadecimal character defeats the match. */
  lemma LongRunIsNoMd5(h: string)
    requires |h| == 33 && forall j :: 0 <= j < 33 ==> IsHex(h[j])
    ensures ExtractMd5("/md5/" + h).None?
  {
    var url := "/md5/" + h;
    forall i
      ensures !Md5At(url, i)
    {
      if i == 0 {
        assert url[37] == h[32];
      } else if 0 < i < 5 && i + 5 <= |url| {
        assert url[1..5] == "md5/" && url[5] == h[0];
        assert url[i..i + 5][0] == url[i] && url[i..i + 5][1] == url[i + 1];
      } else if 5 <= i < |url| - 5 {
        assert url[i] == h[i - 5] && url[i..i + 5][0] == url[i];
      }
    }
  }

  // ---- version comparison ----

  /** `Number(part) || 0` for a component: its decimal value, 0 when it is
      not made of digits (NaN); the empty component is 0. */
  function NumberOf(part: string): nat {
    if AllDigits(part) then ParseDigits(part) else 0
  }

  /** The numeric components of a dotted version. */
  function Parts(v: string): seq<nat> {
    Map(Split(v, "."), NumberOf)
  }

  /** A component, 0 past the end. */
  function Component(ps: seq<nat>, i: nat): nat {
    if i < |ps| then ps[i] else 0
  }

  /** Compares component by component from `i` until one differs. */
  function CompareFrom(a: seq<nat>, b: seq<nat>, i: nat): (r: int)
    ensures r == -1 || r == 0 || r == 1
    ensures r == 0 <==> forall j :: i <= j ==> Component(a, j) == Component(b, j)
    decreases |a| + |b| - i
  {
    if i >= |a| && i >= |b| then 0
    else if Component(a, i) > Component(b, i) then 1
    else if Component(a, i) < Component(b, i) then -1
    else CompareFrom(a, b, i + 1)
  }

  /** `compareVersions(v1, v2)`: 1, -1 or 0 as `v1` is newer, older or the same. */
  function CompareVersions(v1: string, v2: string): (r: int)
    ensures r == -1 || r == 0 || r == 1
    ensures r == 0 <==> forall j :: Component(Parts(v1), j) == Component(Parts(v2), j)
  {
    CompareFrom(Parts(v1), Parts(v2), 0)
  }

  /** Swapping the arguments negates the result. */
  lemma {:induction false} CompareFromAntisymmetric(a: seq<nat>, b: seq<nat>, i: nat)
    ensures CompareFrom(a, b, i) == -CompareFrom(b, a, i)
    decreases |a| + |b| - i
  {
    if !(i >= |a| && i >= |b|) && Component(a, i) == Component(b, i) {
      CompareFromAntisymmetric(a, b, i + 1);
    }
  }

  lemma CompareAntisymmetric(v1: string, v2: string)
    ensures CompareVersions(v1, v2) == -CompareVersions(v2, v1)
    ensures CompareVersions(v1, v1) == 0
  {
    CompareFromAntisymmetric(Parts(v1), Parts(v2), 0);
  }

  /** The first differing component decides. */
  lemma {:induction false} CompareFirstDifference(a: seq<nat>, b: seq<nat>, i: nat, k: nat)
    requires i <= k && Component(a, k) > Component(b, k)
    requires forall j :: i <= j < k ==> Component(a, j) == Component(b, j)
    ensures CompareFrom(a, b, i) == 1
    decreases k - i
  {
    if i < k {
      assert Component(a, i) == Component(b, i);
      CompareFirstDifference(a, b, i + 1, k);
    }
  }

  /** Newer is transitive. */
  lemma {:induction false} CompareFromTransitive(a: seq<nat>, b: seq<nat>, c: seq<nat>, i: nat)
    requires CompareFrom(a, b, i) == 1 && CompareFrom(b, c, i) == 1
    ensures CompareFrom(a, c, i) == 1
    decreases |a| + |b| + |c| - i
  {
    if Component(a, i) == Component(b, i) && Component(b, i) == Component(c, i) {
      assert !(i >= |a| && i >= |b|);
      CompareFromTransitive(a, b, c, i + 1);
    }
  }

  /** Splitting on `.` a string without one gives the string itself. */
  lemma SplitNoDot(x: string)
    requires forall j :: 0 <= j < |x| ==> x[j] != '.'
    ensures Split(x, ".") == [x]
  {
    forall j | 0 <= j < |x|
      ensures !OccursAt(x, ".", j)
    {
      assert x[j..j + 1][0] == x[j];
    }
    assert IndexOf(x, ".").None?;
  }

  /** Splitting on `.` stops at the first one. */
  lemma SplitAtDot(x: string, y: string)
    requires forall j :: 0 <= j < |x| ==> x[j] != '.'
    ensures Split(x + "." + y, ".") == [x] + Split(y, ".")
  {
    var s := x + "." + y;
    assert OccursAt(s, ".", |x|);
    forall j | 0 <= j < |x|
      ensures !OccursAt(s, ".", j)
    {
      assert s[j..j + 1][0] == s[j] == x[j];
    }
    assert IndexOf(s, ".") == Some(|x|);
    assert s[|x| + 1..] == y;
    assert s[..|x|] == x;
  }

  /** The components of two dotted versions with one-character components. */
  lemma PartsOfTwo(x: char, y: char)
    requires IsDigit(x) && IsDigit(y)
    ensures Parts([x, '.', y]) == [DigitValue(x), DigitValue(y)]
  {
    SplitNoDot([y]);
    SplitAtDot([x], [y]);
    assert [x, '.', y] == [x] + "." + [y];
    assert ParseDigits([x]) == DigitValue(x) by { assert [x][..0] == []; }
    assert ParseDigits([y]) == DigitValue(y) by { assert [y][..0] == []; }
  }

  /** A missing trailing component counts as 0: `1.1` and `1.1.0` are the same version. */
  lemma TrailingZeroIsEqual()
    ensures CompareVersions("1.1", "1.1.0") == 0
  {
    PartsOfTwo('1', '1');
    PartsOfThree();
  }

  /** The components of `1.1.0`. */
  lemma PartsOfThree()
    ensures Parts("1.1.0") == [1, 1, 0]
  {
    PartsOfTwo('1', '0');
    SplitAtDot("1", "1.0");
    assert "1.1.0" == "1" + "." + "1.0";
    assert ParseDigits("1") == 1 by { assert "1"[..0] == []; }
    assert Parts("1.1.0") == [1] + Parts("1.0");
  }

  /** Components compare as numbers, not as text: `1.10` is newer than `1.9`. */
  lemma NumericComponents()
    ensures CompareVersions("1.10", "1.9") == 1
  {
    PartsOfTwo('1', '9');
    SplitNoDot("10");
    SplitAtDot("1", "10");
    assert "1.10" == "1" + "." + "10";
    assert ParseDigits("1") == 1 by { assert "1"[..0] == []; }
    assert ParseDigits("10") == 10 by { assert "10"[..1] == "1"; }
    assert Parts("1.10") == [1, 10];
  }

  // ---- update banner ----

  /** The reply to the version request: failed, or its status and the
      `tamper_version` entry when it is a non-empty string. */
  datatype VersionReply = VersionFailed | VersionReply(status: int, tamperVersion: Option<string>)

  /** `checkForUpdates`: whether the server was asked, and the version a
      banner is shown for. A dismissed current version skips the request. */
  function CheckForUpdates(current: string, dismissed: Option<string>, reply: VersionReply): (r: (bool, Option<string>))
    ensures r.0 <==> dismissed != Some(current)
    ensures r.1.Some? <==>
      && r.0 && reply.VersionReply? && reply.status == 200 && reply.tamperVersion.Some?
      && reply.tamperVersion.value != "" && CompareVersions(reply.tamperVersion.value, current) > 0
    ensures r.1.Some? ==> r.1 == reply.tamperVersion
  {
    if dismissed == Some(current) then (false, None)
    else match reply
      case VersionFailed => (true, None)
      case VersionReply(status, v) =>
        if status == 200 && v.Some? && v.value != "" && CompareVersions(v.value, current) > 0 then (true, v)
        else (true, None)
  }

  /** The server announcing the running version, or an older one, shows no banner. */
  lemma NoBannerWhenUpToDate(current: string, dismissed: Option<string>, server: string)
    requires CompareVersions(server, current) <= 0
    ensures CheckForUpdates(current, dismissed, VersionReply(200, Some(server))).1.None?
    ensures CheckForUpdates(current, dismissed, VersionReply(200, Some(current))).1.None?
  {
    CompareAntisymmetric(current, current);
  }

  // ---- API requests ----

  /** `base.replace(/\/+$/, '')`: every trailing slash removed. */
  function StripTrailingSlashes(s: string): (r: string)
    ensures StartsWith(s, r)
    ensures r == [] || r[|r| - 1] != '/'
    ensures forall j :: |r| <= j < |s| ==> s[j] == '/'
  {
    if |s| > 0 && s[|s| - 1] == '/' then StripTrailingSlashes(s[..|s| - 1]) else s
  }

  /** Stripping is idempotent and ignores how many slashes were added. */
  lemma {:induction false} StripSlashesAdded(base: string, n: nat)
    requires base == [] || base[|base| - 1] != '/'
    ensures StripTrailingSlashes(base + seq(n, _ => '/')) == base
    decreases n
  {
    if n > 0 {
      assert (base + seq(n, _ => '/'))[..|base| + n - 1] == base + seq(n - 1, _ => '/');
      StripSlashesAdded(base, n - 1);
    } else {
      assert base + seq(0, _ => '/') == base;
    }
  }

  /** The request URL: the base (the configured server when none is given),
      without trailing slashes, followed by the path. */
  function ApiUrl(baseUrl: string, serverUrl: string, path: string): string {
    StripTrailingSlashes(if baseUrl != "" then baseUrl else serverUrl) + path
  }

  /** The reply to the queue request: a connection failure or timeout, or the
      status, status text and whether a JSON body was parsed. */
  datatype QueueReply = Unreachable(message: string) | QueueReply(status: nat, statusText: string, hasData: bool)

  datatype QueueResult = Added | Thrown(message: string)

  const NoKeyMessage: string :=
    "⚠️ API key not configured.\n\nGet your API key from:\nStacks web interface → Settings tab → API Key section\n\n"
    + "Then configure it here:\nTampermonkey icon → Stacks Settings"
  const InvalidKeyMessage: string := "Invalid API key. Get a new key from Stacks web interface → Settings."

  /** `addToQueue`: the request URL sent, if any, and the outcome. Without
      an API key nothing is sent; 401 and 403 mean an invalid key. */
  function AddToQueue(serverUrl: string, apiKey: string, reply: QueueReply): (r: (Option<string>, QueueResult))
    ensures apiKey == "" <==> r.0.None?
    ensures apiKey == "" ==> r.1 == Thrown(NoKeyMessage)
    ensures r.0.Some? ==> r.0.value == ApiUrl("", serverUrl, "/api/queue/add")
    ensures r.1 == Added <==> apiKey != "" && reply.QueueReply? && reply.status == 200 && reply.hasData
    ensures apiKey != "" && reply.QueueReply? && (reply.status == 401 || reply.status == 403) ==> r.1 == Thrown(InvalidKeyMessage)
    ensures apiKey != "" && reply.Unreachable? ==> r.1 == Thrown(reply.message)
  {
    if apiKey == "" then (None, Thrown(NoKeyMessage))
    else
      var url := ApiUrl("", serverUrl, "/api/queue/add");
      match reply
      case Unreachable(message) => (Some(url), Thrown(message))
      case QueueReply(status, text, hasData) =>
        if status == 401 || status == 403 then (Some(url), Thrown(InvalidKeyMessage))
        else if status != 200 || !hasData then
          (Some(url), Thrown("Failed with status " + NatToString(status) + ": " + (if text != "" then text else "Unknown error")))
        else (Some(url), Added)
  }
}
