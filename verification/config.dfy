/** The nested configuration store (`config.py`): the YAML file read as
    nested mappings, read by key path with a default, and written by key
    path, creating the missing levels. */
module Config {
  import opened Wrappers

  /** A YAML value; mapping keys are strings. */
  datatype Value = Null | Bool(b: bool) | Int(i: int) | Str(s: string) | List(items: seq<Value>) | Dict(entries: map<string, Value>)

  /** Python truthiness. */
  predicate Truthy(v: Value) {
    match v
    case Null => false
    case Bool(b) => b
    case Int(i) => i != 0
    case Str(s) => s != ""
    case List(items) => items != []
    case Dict(entries) => entries != map[]
  }

  /** Python's `==` on loaded values: a boolean equals the integer it
      stands for (`True == 1`), lists compare element by element and
      mappings key by key; values of other different kinds are unequal. */
  predicate PyEq(a: Value, b: Value)
    decreases a
  {
    match a
    case Null => b.Null?
    case Str(s) => b.Str? && b.s == s
    case Bool(x) => (b.Bool? && b.b == x) || (b.Int? && b.i == (if x then 1 else 0))
    case Int(i) => (b.Int? && b.i == i) || (b.Bool? && i == (if b.b then 1 else 0))
    case List(items) =>
      b.List? && |b.items| == |items| && forall j :: 0 <= j < |items| ==> PyEq(items[j], b.items[j])
    case Dict(entries) =>
      b.Dict? && b.entries.Keys == entries.Keys && forall k :: k in entries ==> PyEq(entries[k], b.entries[k])
  }

  /** Every value equals itself. */
  lemma {:induction false} PyEqReflexive(v: Value)
    ensures PyEq(v, v)
    decreases v
  {
    match v
    case List(items) =>
      forall j | 0 <= j < |items|
        ensures PyEq(items[j], items[j])
      {
        PyEqReflexive(items[j]);
      }
    case Dict(entries) =>
      forall k | k in entries
        ensures PyEq(entries[k], entries[k])
      {
        PyEqReflexive(entries[k]);
      }
    case _ =>
  }

  /** `dict.get(key)`: the entry, or `None` when the key is missing. */
  function Entry(d: map<string, Value>, key: string): Value {
    if key in d then d[key] else Null
  }

  /** Where a key path leads: nowhere once a step is missing or meets a non-mapping. */
  function At(v: Value, keys: seq<string>): Option<Value>
    decreases |keys|
  {
    if |keys| == 0 then Some(v)
    else if v.Dict? && keys[0] in v.entries then At(v.entries[keys[0]], keys[1..])
    else None
  }

  /** `Config.get(*keys, default=...)`: the value the path leads to, or the
      default when the path breaks or ends on `None`. Falsy values such as
      `False` and `0` are returned as they are. */
  function Get(v: Value, keys: seq<string>, default: Value): (r: Value)
    ensures |keys| > 0 ==> r == (if At(v, keys).Some? && !At(v, keys).value.Null? then At(v, keys).value else default)
    decreases |keys|
  {
    if |keys| == 0 then v
    else if !v.Dict? then default
    else
      var next := Entry(v.entries, keys[0]);
      if next.Null? then default
      else Get(next, keys[1..], default)
  }

  /** Every proper prefix of the path leads to a mapping or nowhere, so a
      write can walk it. */
  predicate Open(d: map<string, Value>, keys: seq<string>) {
    forall i :: 1 <= i < |keys| ==> At(Dict(d), keys[..i]).None? || At(Dict(d), keys[..i]).value.Dict?
  }

  /** `Config.set(*keys, value=...)`: missing levels become empty mappings
      and only the leaf is written. Walking into an existing non-mapping
      raises, as does an empty path; nothing is changed then. */
  function Set(d: map<string, Value>, keys: seq<string>, v: Value): (r: Option<map<string, Value>>)
    ensures r.Some? ==> |keys| > 0 && At(Dict(r.value), keys) == Some(v)
    ensures r.Some? ==> keys[0] in r.value && forall k :: k != keys[0] ==> (k in r.value <==> k in d) && (k in d ==> r.value[k] == d[k])
    decreases |keys|
  {
    if |keys| == 0 then None
    else if |keys| == 1 then Some(d[keys[0] := v])
    else
      var child := if keys[0] in d then d[keys[0]] else Dict(map[]);
      if !child.Dict? then None
      else match Set(child.entries, keys[1..], v)
        case None => None
        case Some(c) => Some(d[keys[0] := Dict(c)])
  }

  /** Where the path goes below its first key. */
  lemma AtStep(d: map<string, Value>, keys: seq<string>, i: nat)
    requires 1 <= i <= |keys| && keys[0] in d
    ensures At(Dict(d), keys[..i]) == At(d[keys[0]], keys[1..][..i - 1])
  {
    assert keys[..i][1..] == keys[1..][..i - 1];
  }

  /** A write succeeds exactly when the path is non-empty and open. */
  lemma {:induction false} SetSucceedsIff(d: map<string, Value>, keys: seq<string>, v: Value)
    ensures Set(d, keys, v).Some? <==> |keys| > 0 && Open(d, keys)
    decreases |keys|
  {
    if |keys| > 1 {
      if keys[0] in d {
        forall i | 1 <= i < |keys| {
          AtStep(d, keys, i);
        }
        AtStep(d, keys, 1);
        if d[keys[0]].Dict? {
          SetSucceedsIff(d[keys[0]].entries, keys[1..], v);
          if Open(d[keys[0]].entries, keys[1..]) {
            forall i | 1 <= i < |keys|
              ensures At(Dict(d), keys[..i]).None? || At(Dict(d), keys[..i]).value.Dict?
            {
              if i > 1 {
                assert At(Dict(d[keys[0]].entries), keys[1..][..i - 1]).None?
                  || At(Dict(d[keys[0]].entries), keys[1..][..i - 1]).value.Dict?;
              }
            }
          } else {
            var j :| 1 <= j < |keys[1..]| && !(At(Dict(d[keys[0]].entries), keys[1..][..j]).None?
                                               || At(Dict(d[keys[0]].entries), keys[1..][..j]).value.Dict?);
            AtStep(d, keys, j + 1);
          }
        }
      } else {
        SetSucceedsIff(map[], keys[1..], v);
        forall i | 1 <= i < |keys|
          ensures At(Dict(d), keys[..i]).None?
        {
          assert keys[..i][0] == keys[0];
        }
        forall i | 1 <= i < |keys[1..]|
          ensures At(Dict(map[]), keys[1..][..i]).None?
        {
          assert keys[1..][..i][0] == keys[1];
        }
      }
    }
  }

  /** A value written is read back by the same path, unless it is `None`,
      which reads as the default. */
  lemma GetAfterSet(d: map<string, Value>, keys: seq<string>, v: Value, default: Value)
    requires Set(d, keys, v).Some?
    ensures Get(Dict(Set(d, keys, v).value), keys, default) == (if v.Null? then default else v)
  {
  }

  /** A write leaves every path that parts from it unchanged. */
  lemma {:induction false} SetLeavesOtherPaths(d: map<string, Value>, keys: seq<string>, v: Value, other: seq<string>, j: nat)
    requires Set(d, keys, v).Some?
    requires j < |keys| && j < |other| && keys[j] != other[j] && keys[..j] == other[..j]
    ensures At(Dict(Set(d, keys, v).value), other) == At(Dict(d), other)
    decreases |keys|
  {
    var r := Set(d, keys, v).value;
    if j > 0 {
      assert keys[0] == other[0] by { assert keys[..j][0] == other[..j][0]; }
      var child := if keys[0] in d then d[keys[0]] else Dict(map[]);
      assert |keys| > 1;
      var c := Set(child.entries, keys[1..], v).value;
      assert r[keys[0]] == Dict(c);
      assert keys[1..][..j - 1] == other[1..][..j - 1];
      SetLeavesOtherPaths(child.entries, keys[1..], v, other[1..], j - 1);
      if keys[0] !in d {
        assert At(Dict(map[]), other[1..]).None?;
      }
    }
  }
}
