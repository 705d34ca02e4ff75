/** Domain rotation and failover (`domainutils`). The list of mirror domains
    is a parameter: non-empty and without repeats. The persisted state file is
    an optional value (`None` when it is missing, unreadable or has no
    `last_working_domain`), and the function tried on each domain is an oracle
    from domain to outcome. */
module DomainUtils {
  import opened Wrappers

  predicate Distinct<T(==)>(xs: seq<T>) {
    forall i, j :: 0 <= i < j < |xs| ==> xs[i] != xs[j]
  }

  predicate ValidDomains(ds: seq<string>) {
    |ds| > 0 && Distinct(ds)
  }

  /** Position of `d` in `ds` (Python's `list.index`). */
  function IndexIn(ds: seq<string>, d: string): (i: nat)
    requires d in ds
    ensures i < |ds| && ds[i] == d
    ensures forall j :: 0 <= j < i ==> ds[j] != d
  {
    if ds[0] == d then 0 else 1 + IndexIn(ds[1..], d)
  }

  /** In a list without repeats the index of an element is its only position. */
  lemma IndexOfElement(ds: seq<string>, i: nat)
    requires Distinct(ds) && i < |ds|
    ensures IndexIn(ds, ds[i]) == i
  {
  }

  /** `get_working_domain`: the persisted domain when it is non-empty and
      known, the first domain otherwise. */
  function GetWorkingDomain(ds: seq<string>, persisted: Option<string>): (d: string)
    requires ValidDomains(ds)
    ensures d in ds
    ensures persisted.Some? && persisted.value != "" && persisted.value in ds ==> d == persisted.value
    ensures !(persisted.Some? && persisted.value != "" && persisted.value in ds) ==> d == ds[0]
  {
    if persisted.Some? && persisted.value != "" && persisted.value in ds then persisted.value else ds[0]
  }

  /** `get_next_domain`: the cyclic successor of a known domain, the first
      domain for an unknown one. */
  function GetNextDomain(ds: seq<string>, current: string): (d: string)
    requires ValidDomains(ds)
    ensures d in ds
    ensures current !in ds ==> d == ds[0]
  {
    if current in ds then ds[(IndexIn(ds, current) + 1) % |ds|] else ds[0]
  }

  /** For the domain at position `i` the successor is the one at `(i + 1) mod n`. */
  lemma NextDomainIsCyclicSuccessor(ds: seq<string>, i: nat)
    requires ValidDomains(ds) && i < |ds|
    ensures GetNextDomain(ds, ds[i]) == ds[(i + 1) % |ds|]
  {
    IndexOfElement(ds, i);
  }

  /** `(i + 1) mod n` for a position `i < n`, without the division. */
  lemma SuccessorMod(i: nat, n: nat)
    requires i < n
    ensures (i + 1) % n == if i + 1 < n then i + 1 else 0
  {
  }

  /** Position `x` taken modulo `n`, for `x < 2n`. */
  function Wrap(x: nat, n: nat): (p: nat)
    requires x < 2 * n
    ensures p < n
  {
    if x < n then x else x - n
  }

  /** The `m` domains met when rotating from position `start`. */
  function Rotation(ds: seq<string>, start: nat, m: nat): (r: seq<string>)
    requires start < |ds| && m <= |ds|
    ensures |r| == m
    ensures forall j :: 0 <= j < m ==> r[j] == ds[Wrap(start + j, |ds|)]
  {
    seq(m, j requires 0 <= j < m => ds[Wrap(start + j, |ds|)])
  }

  /** Fewer than n steps of a rotation never meet the same domain twice. */
  lemma DistinctRotation(ds: seq<string>, start: nat, m: nat)
    requires ValidDomains(ds) && start < |ds| && m <= |ds|
    ensures Distinct(Rotation(ds, start, m))
  {
  }

  /** A full rotation visits every domain. */
  lemma RotationCoversAll(ds: seq<string>, start: nat)
    requires ValidDomains(ds) && start < |ds|
    ensures forall d :: d in ds ==> d in Rotation(ds, start, |ds|)
  {
    var n := |ds|;
    var r := Rotation(ds, start, n);
    forall i | 0 <= i < n
      ensures ds[i] in r
    {
      var j := if i >= start then i - start else i + n - start;
      assert r[j] == ds[i];
    }
  }

  /** One step of the rotation: it meets a new domain, and the next domain
      is the one after it. */
  lemma RotationStep(ds: seq<string>, start: nat, k: nat)
    requires ValidDomains(ds) && start < |ds| && k < |ds|
    ensures Rotation(ds, start, k + 1) == Rotation(ds, start, k) + [ds[Wrap(start + k, |ds|)]]
    ensures Distinct(Rotation(ds, start, k + 1))
    ensures GetNextDomain(ds, ds[Wrap(start + k, |ds|)]) == ds[Wrap(start + k + 1, |ds|)]
  {
    var n := |ds|;
    DistinctRotation(ds, start, k + 1);
    NextDomainIsCyclicSuccessor(ds, Wrap(start + k, n));
    SuccessorMod(Wrap(start + k, n), n);
  }

  /** Outcome of calling the function with one domain. */
  datatype Outcome<T> = Success(value: T) | Failure(error: string)

  /** One more failure extends the failed prefix of the rotation. */
  lemma FailedStep<T>(ds: seq<string>, start: nat, k: nat, tried: seq<string>, func: string -> Outcome<T>)
    requires ValidDomains(ds) && start < |ds| && k < |ds|
    requires tried == Rotation(ds, start, k) && forall j :: 0 <= j < k ==> func(tried[j]).Failure?
    ensures var next := tried + [ds[Wrap(start + k, |ds|)]];
      && next == Rotation(ds, start, k + 1) && Distinct(next)
      && (func(ds[Wrap(start + k, |ds|)]).Failure? ==> forall j :: 0 <= j < k + 1 ==> func(next[j]).Failure?)
      && GetNextDomain(ds, ds[Wrap(start + k, |ds|)]) == ds[Wrap(start + k + 1, |ds|)]
  {
    RotationStep(ds, start, k);
  }

  /** `try_domains_until_success`. Returns the outcome, the domains tried in
      order, and the domain saved as the new working domain. */
  method TryDomainsUntilSuccess<T>(ds: seq<string>, persisted: Option<string>, func: string -> Outcome<T>)
    returns (r: Outcome<T>, tried: seq<string>, saved: Option<string>)
    requires ValidDomains(ds)
    ensures 1 <= |tried| <= |ds| && Distinct(tried)
    ensures tried == Rotation(ds, IndexIn(ds, GetWorkingDomain(ds, persisted)), |tried|)
    ensures forall j :: 0 <= j < |tried| - 1 ==> func(tried[j]).Failure?
    ensures r == func(tried[|tried| - 1])
    ensures r.Success? ==> saved == Some(tried[|tried| - 1])
    ensures r.Failure? ==> saved == None && |tried| == |ds| && forall d :: d in ds ==> d in tried
  {
    var n := |ds|;
    var current := GetWorkingDomain(ds, persisted);
    var start := IndexIn(ds, current);
    tried := [];
    var lastError := "";
    var k := 0;
    while k < n
      invariant 0 <= k <= n && |tried| == k
      invariant tried == Rotation(ds, start, k) && Distinct(tried)
      invariant current == ds[Wrap(start + k, n)]
      invariant forall j :: 0 <= j < k ==> func(tried[j]).Failure?
      invariant k > 0 ==> func(tried[k - 1]) == Failure(lastError)
    {
      FailedStep(ds, start, k, tried, func);
      tried := tried + [current];
      var outcome := func(current);
      if outcome.Success? {
        saved := Some(current);
        r := outcome;
        return;
      }
      lastError := outcome.error;
      current := GetNextDomain(ds, current);
      k := k + 1;
    }
    r := Failure(lastError);
    saved := None;
    RotationCoversAll(ds, start);
  }
}
