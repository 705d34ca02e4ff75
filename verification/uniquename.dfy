/** The collision-free file name search (`get_unique_filename`), over a
    finite set of existing paths. Paths are a parent directory and a final
    name; `stem` and `suffix` follow `pathlib`. */
module UniqueName {
  import opened Wrappers
  import opened Strings

  datatype Path = Path(parent: string, name: string)

  /** Index of the last `c` in `s` (Python's `str.rfind`). */
  function LastIndexOf(s: string, c: char): (r: Option<nat>)
    ensures r.Some? ==> r.value < |s| && s[r.value] == c && forall j :: r.value < j < |s| ==> s[j] != c
    ensures r.None? ==> forall j :: 0 <= j < |s| ==> s[j] != c
    decreases |s|
  {
    if |s| == 0 then None
    else if s[|s| - 1] == c then Some(|s| - 1)
    else LastIndexOf(s[..|s| - 1], c)
  }

  /** Position of the dot that starts `pathlib`'s suffix: the last dot, when
      it is neither the first nor the last character. */
  function SuffixDot(name: string): (r: Option<nat>)
    ensures r.Some? ==> 0 < r.value < |name| - 1 && name[r.value] == '.'
    ensures r.Some? ==> forall j :: r.value < j < |name| ==> name[j] != '.'
  {
    match LastIndexOf(name, '.')
    case Some(i) => if 0 < i < |name| - 1 then Some(i) else None
    case None => None
  }

  function Suffix(name: string): (r: string)
    ensures r == "" || (|r| >= 2 && r[0] == '.' && EndsWith(name, r))
  {
    match SuffixDot(name)
    case Some(i) => name[i..]
    case None => ""
  }

  function Stem(name: string): (r: string)
    ensures r + Suffix(name) == name
  {
    match SuffixDot(name)
    case Some(i) => name[..i]
    case None => name
  }

  /** The k-th alternative: `parent/"stem (k)suffix"`. */
  function Candidate(base: Path, k: nat): Path {
    Path(base.parent, Stem(base.name) + " (" + NatToString(k) + ")" + Suffix(base.name))
  }

  /** Different counters give different candidates. */
  lemma CandidateInjective(base: Path, j: nat, k: nat)
    requires Candidate(base, j) == Candidate(base, k)
    ensures j == k
  {
    var a := Stem(base.name) + " (";
    var b := ")" + Suffix(base.name);
    assert Candidate(base, j).name == a + NatToString(j) + b;
    assert Candidate(base, k).name == a + NatToString(k) + b;
    MiddleEqual(a, NatToString(j), NatToString(k), b);
    NatToStringInjective(j, k);
  }

  /** Equal strings with the same ends have the same middle. */
  lemma MiddleEqual(a: string, x: string, y: string, b: string)
    requires a + x + b == a + y + b
    ensures x == y
  {
    assert |x| == |y|;
    assert x == (a + x + b)[|a|..|a| + |x|];
    assert y == (a + y + b)[|a|..|a| + |y|];
  }

  /** The candidates tried before counter `c`. */
  function Tried(base: Path, c: nat): set<Path> {
    set k | 1 <= k < c :: Candidate(base, k)
  }

  lemma {:induction false} TriedSize(base: Path, c: nat)
    requires c >= 1
    ensures |Tried(base, c)| == c - 1
    decreases c
  {
    if c > 1 {
      TriedSize(base, c - 1);
      assert Tried(base, c) == Tried(base, c - 1) + {Candidate(base, c - 1)};
      if Candidate(base, c - 1) in Tried(base, c - 1) {
        var k :| 1 <= k < c - 1 && Candidate(base, k) == Candidate(base, c - 1);
        CandidateInjective(base, k, c - 1);
      }
    } else {
      assert Tried(base, c) == {};
    }
  }

  /** `get_unique_filename`: the base path when free, otherwise the first
      free candidate. */
  method GetUniqueFilename(base: Path, existing: set<Path>) returns (r: Path)
    ensures r !in existing
    ensures base !in existing ==> r == base
    ensures base in existing ==> exists k :: (k >= 1 && r == Candidate(base, k)
      && forall j :: 1 <= j < k ==> Candidate(base, j) in existing)
    ensures r.parent == base.parent
  {
    if base !in existing {
      return base;
    }
    var counter := 1;
    TriedSize(base, 1);
    while Candidate(base, counter) in existing
      invariant counter >= 1
      invariant Tried(base, counter) <= existing
      invariant |Tried(base, counter)| == counter - 1
      decreases |existing| - (counter - 1)
    {
      assert Tried(base, counter + 1) == Tried(base, counter) + {Candidate(base, counter)};
      TriedSize(base, counter + 1);
      assert Tried(base, counter + 1) <= existing;
      assert |Tried(base, counter + 1)| <= |existing| by {
        SubsetSize(Tried(base, counter + 1), existing);
      }
      counter := counter + 1;
    }
    assert forall j :: 1 <= j < counter ==> Candidate(base, j) in Tried(base, counter);
    r := Candidate(base, counter);
  }

  lemma SubsetSize<T>(a: set<T>, b: set<T>)
    requires a <= b
    ensures |a| <= |b|
  {
    assert b == a + (b - a);
  }

  /** Appending a suffix to a non-empty prefix makes it the name's suffix. */
  lemma SuffixOfConcat(p: string, suf: string)
    requires |p| > 0 && |suf| >= 2 && suf[0] == '.'
    requires forall j :: 0 < j < |suf| ==> suf[j] != '.'
    ensures Suffix(p + suf) == suf && Stem(p + suf) == p
  {
    var n := p + suf;
    assert n[|p|] == '.';
    assert forall j :: |p| < j < |n| ==> n[j] == suf[j - |p|];
    var last := LastIndexOf(n, '.');
    assert last == Some(|p|);
    assert n[|p|..] == suf;
    assert n[..|p|] == p;
  }

  /** A base name with a suffix keeps it in every candidate. */
  lemma CandidateKeepsSuffix(base: Path, k: nat)
    requires Suffix(base.name) != ""
    ensures Suffix(Candidate(base, k).name) == Suffix(base.name)
    ensures Stem(Candidate(base, k).name) == Stem(base.name) + " (" + NatToString(k) + ")"
  {
    var i := SuffixDot(base.name).value;
    var suf := base.name[i..];
    assert forall j :: 0 < j < |suf| ==> suf[j] == base.name[i + j];
    var p := Stem(base.name) + " (" + NatToString(k) + ")";
    assert Candidate(base, k).name == p + suf;
    SuffixOfConcat(p, suf);
  }
}
