/** Generic sequence helpers: first match, filter and map, with the facts
    about them the rest of the model relies on. */
module Seqs {
  import opened Wrappers

  /** Index of the first element satisfying `p` (a `for … return` loop). */
  function FirstIndex<T>(xs: seq<T>, p: T -> bool): (r: Option<nat>)
    ensures r.Some? ==> r.value < |xs| && p(xs[r.value])
    ensures r.Some? ==> forall j :: 0 <= j < r.value ==> !p(xs[j])
    ensures r.None? <==> forall j :: 0 <= j < |xs| ==> !p(xs[j])
  {
    if |xs| == 0 then None
    else if p(xs[0]) then Some(0)
    else match FirstIndex(xs[1..], p)
      case None => None
      case Some(i) => Some(i + 1)
  }

  /** The elements satisfying `p`, in their original order. */
  function Filter<T>(xs: seq<T>, p: T -> bool): (r: seq<T>)
    ensures |r| <= |xs|
    ensures forall i :: 0 <= i < |r| ==> r[i] in xs
    ensures forall i :: 0 <= i < |xs| && p(xs[i]) ==> xs[i] in r
    ensures forall i :: 0 <= i < |r| ==> p(r[i])
  {
    if |xs| == 0 then []
    else if p(xs[0]) then [xs[0]] + Filter(xs[1..], p)
    else Filter(xs[1..], p)
  }

  function Map<T, U>(xs: seq<T>, f: T -> U): (r: seq<U>)
    ensures |r| == |xs|
    ensures forall i :: 0 <= i < |xs| ==> r[i] == f(xs[i])
  {
    seq(|xs|, i requires 0 <= i < |xs| => f(xs[i]))
  }

  /** Filtering distributes over concatenation. */
  lemma {:induction false} FilterConcat<T>(a: seq<T>, b: seq<T>, p: T -> bool)
    ensures Filter(a + b, p) == Filter(a, p) + Filter(b, p)
    decreases |a|
  {
    if |a| == 0 {
      assert a + b == b;
    } else {
      assert (a + b)[0] == a[0];
      assert (a + b)[1..] == a[1..] + b;
      FilterConcat(a[1..], b, p);
    }
  }

  /** Mapping distributes over concatenation. */
  lemma MapConcat<T, U>(a: seq<T>, b: seq<T>, f: T -> U)
    ensures Map(a + b, f) == Map(a, f) + Map(b, f)
  {
  }

  /** The complement of a predicate. */
  function Not<T>(p: T -> bool): T -> bool {
    x => !p(x)
  }

  /** The kept elements followed by the dropped ones: a rearrangement of the
      input in which exactly the leading block satisfies the predicate. */
  lemma KeptThenDropped<T>(xs: seq<T>, p: T -> bool)
    ensures var a := Filter(xs, p);
      var r := a + Filter(xs, Not(p));
      && multiset(r) == multiset(xs) && |r| == |xs|
      && forall i :: 0 <= i < |r| ==> (p(r[i]) <==> i < |a|)
  {
    var a := Filter(xs, p);
    var b := Filter(xs, Not(p));
    FilterSplitsMultiset(xs, p);
    assert |multiset(a + b)| == |a + b| && |multiset(xs)| == |xs|;
    forall i | |a| <= i < |a + b|
      ensures !p((a + b)[i])
    {
      assert (a + b)[i] == b[i - |a|] && Not(p)(b[i - |a|]);
    }
  }

  /** The elements kept and the elements dropped together are the original
      elements, counted with multiplicity. */
  lemma {:induction false} FilterSplitsMultiset<T>(xs: seq<T>, p: T -> bool)
    ensures multiset(Filter(xs, p)) + multiset(Filter(xs, Not(p))) == multiset(xs)
    decreases |xs|
  {
    if |xs| > 0 {
      var np := Not(p);
      FilterSplitsMultiset(xs[1..], p);
      assert xs == [xs[0]] + xs[1..];
      if p(xs[0]) {
        assert Filter(xs, p) == [xs[0]] + Filter(xs[1..], p);
        assert Filter(xs, np) == Filter(xs[1..], np);
      } else {
        assert Filter(xs, p) == Filter(xs[1..], p);
        assert Filter(xs, np) == [xs[0]] + Filter(xs[1..], np);
      }
    }
  }

  /** Filtering twice by the same predicate changes nothing more. */
  lemma {:induction false} FilterIdempotent<T>(xs: seq<T>, p: T -> bool)
    ensures Filter(Filter(xs, p), p) == Filter(xs, p)
    decreases |xs|
  {
    if |xs| > 0 {
      FilterIdempotent(xs[1..], p);
      if p(xs[0]) {
        assert ([xs[0]] + Filter(xs[1..], p))[1..] == Filter(xs[1..], p);
      }
    }
  }

  /** The defined results of `f`, in order (a loop that appends only some
      transformed elements). */
  function FilterMap<T, U>(xs: seq<T>, f: T -> Option<U>): (r: seq<U>)
    ensures |r| <= |xs|
    ensures forall i :: 0 <= i < |xs| && f(xs[i]).Some? ==> f(xs[i]).value in r
    decreases |xs|
  {
    if |xs| == 0 then []
    else
      var rest := FilterMap(xs[1..], f);
      assert forall i :: 1 <= i < |xs| ==> xs[i] == xs[1..][i - 1];
      match f(xs[0])
      case Some(y) => [y] + rest
      case None => rest
  }

  /** Every result of `FilterMap` comes from an element; `i` is that element. */
  lemma {:induction false} FilterMapSource<T, U>(xs: seq<T>, f: T -> Option<U>, k: nat) returns (i: nat)
    requires k < |FilterMap(xs, f)|
    ensures i < |xs| && f(xs[i]) == Some(FilterMap(xs, f)[k])
    decreases |xs|
  {
    var rest := FilterMap(xs[1..], f);
    if f(xs[0]).Some? && k == 0 {
      i := 0;
    } else {
      var k' := if f(xs[0]).Some? then k - 1 else k;
      assert FilterMap(xs, f)[k] == rest[k'];
      var i' := FilterMapSource(xs[1..], f, k');
      assert xs[i' + 1] == xs[1..][i'];
      i := i' + 1;
    }
  }

  /** Nothing the complement keeps survives a filter by the predicate, and
      the other way round. */
  lemma {:induction false} FilterComplementEmpty<T>(xs: seq<T>, p: T -> bool)
    ensures Filter(Filter(xs, p), Not(p)) == []
    ensures Filter(Filter(xs, Not(p)), p) == []
    decreases |xs|
  {
    if |xs| > 0 {
      FilterComplementEmpty(xs[1..], p);
      if p(xs[0]) {
        assert Filter(xs, p) == [xs[0]] + Filter(xs[1..], p);
        assert Filter(xs, p)[1..] == Filter(xs[1..], p);
        assert Filter(xs, Not(p)) == Filter(xs[1..], Not(p));
      } else {
        assert Filter(xs, p) == Filter(xs[1..], p);
        assert Filter(xs, Not(p)) == [xs[0]] + Filter(xs[1..], Not(p));
        assert Filter(xs, Not(p))[1..] == Filter(xs[1..], Not(p));
      }
    }
  }

  /** `xs` with the elements at `i` and `j` exchanged. */
  function Swap<T>(xs: seq<T>, i: nat, j: nat): (r: seq<T>)
    requires i < |xs| && j < |xs|
    ensures |r| == |xs| && multiset(r) == multiset(xs)
    ensures r[i] == xs[j] && r[j] == xs[i]
    ensures forall k :: 0 <= k < |xs| && k != i && k != j ==> r[k] == xs[k]
  {
    xs[i := xs[j]][j := xs[i]]
  }

  /** The Fisher–Yates passes of `random.shuffle` for positions `i` down to 1:
      position `i` is swapped with the position the next draw picks in
      `0..i`. The draws stand in for the random source. */
  function FisherYates<T>(xs: seq<T>, i: nat, draws: seq<nat>): (r: seq<T>)
    requires i < |xs|
    ensures |r| == |xs| && multiset(r) == multiset(xs)
    decreases i
  {
    if i == 0 then xs
    else
      var d := if |draws| > 0 then draws[0] else 0;
      var j := d % (i + 1);
      FisherYates(Swap(xs, i, j), i - 1, if |draws| > 0 then draws[1..] else [])
  }

  /** `random.shuffle(xs)` driven by the given draws: some permutation of `xs`. */
  function Shuffle<T>(xs: seq<T>, draws: seq<nat>): (r: seq<T>)
    ensures |r| == |xs| && multiset(r) == multiset(xs)
  {
    if |xs| == 0 then xs else FisherYates(xs, |xs| - 1, draws)
  }

  /** No element occurs twice. */
  predicate Distinct<T(==)>(xs: seq<T>) {
    forall i, j :: 0 <= i < j < |xs| ==> xs[i] != xs[j]
  }

  /** The first occurrence of each element, in order (a loop that skips
      elements already in a `seen` set). */
  function Dedup<T(==)>(xs: seq<T>): (r: seq<T>)
    ensures Distinct(r) && |r| <= |xs|
    ensures forall i :: 0 <= i < |xs| ==> xs[i] in r
    ensures forall i :: 0 <= i < |r| ==> r[i] in xs
    decreases |xs|
  {
    if |xs| == 0 then []
    else
      var init := xs[..|xs| - 1];
      var r := Dedup(init);
      assert forall i :: 0 <= i < |xs| - 1 ==> xs[i] == init[i];
      if xs[|xs| - 1] in r then r else r + [xs[|xs| - 1]]
  }

  /** A sequence without repetitions is its own deduplication. */
  lemma {:induction false} DedupDistinct<T>(xs: seq<T>)
    requires Distinct(xs)
    ensures Dedup(xs) == xs
    decreases |xs|
  {
    if |xs| > 0 {
      var init := xs[..|xs| - 1];
      DedupDistinct(init);
      assert Distinct(init);
      assert init + [xs[|xs| - 1]] == xs;
    }
  }

  /** Deduplicating twice changes nothing more. */
  lemma DedupIdempotent<T>(xs: seq<T>)
    ensures Dedup(Dedup(xs)) == Dedup(xs)
  {
    DedupDistinct(Dedup(xs));
  }
}
