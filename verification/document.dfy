/**
  The JSON-like documents a specification is made of, and Python's dict operations on them.

  A Python dict is modelled as an association list in insertion order: reading a key finds
  its entry, and assigning a key replaces the entry in place or appends a new one at the end,
  which is how `d[k] = v` behaves on a Python 3 dict.
 */
module Document {
  import opened Wrappers

  /** A value a specification can hold: null, bool, integer, string, list or mapping. */
  datatype Json =
    | Null
    | Bool(b: bool)
    | Int(n: int)
    | Str(s: string)
    | List(items: seq<Json>)
    | Object(fields: seq<Entry>)

  /** One key/value pair of a mapping. */
  datatype Entry = Entry(key: string, value: Json)

  /** A mapping from string keys to values, in insertion order. */
  type Dict = seq<Entry>

  /** The keys of `d`, in order. */
  function Keys(d: Dict): (ks: seq<string>)
    ensures |ks| == |d|
    ensures forall i :: 0 <= i < |d| ==> ks[i] == d[i].key
  {
    if |d| == 0 then [] else [d[0].key] + Keys(d[1..])
  }

  /** No string occurs twice in `ks`. */
  predicate Distinct(ks: seq<string>) {
    forall i, j :: 0 <= i < j < |ks| ==> ks[i] != ks[j]
  }

  /** No key occurs twice: every Python dict satisfies this. */
  predicate DistinctKeys(d: Dict) {
    Distinct(Keys(d))
  }

  /** `d.get(k)`: the value stored under `k`, if any. */
  function Get(d: Dict, k: string): (r: Option<Json>)
    ensures r.Some? <==> k in Keys(d)
  {
    if |d| == 0 then None
    else if d[0].key == k then Some(d[0].value)
    else Get(d[1..], k)
  }

  /** `d.get(k)` finds the FIRST entry with key `k`. */
  lemma {:induction false} GetFirst(d: Dict, k: string, i: nat)
    requires i < |d| && d[i].key == k
    requires forall j :: 0 <= j < i ==> d[j].key != k
    ensures Get(d, k) == Some(d[i].value)
  {
    if i > 0 {
      GetFirst(d[1..], k, i - 1);
    }
  }

  /** `r` is `d` after `d[k] = v`: `k` maps to `v`, every other key reads as before, and the key
      order is kept, with `k` appended when it is new. */
  ghost predicate IsAssignment(d: Dict, k: string, v: Json, r: Dict) {
    && Get(r, k) == Some(v)
    && (forall k' {:trigger Get(r, k')} :: k' != k ==> Get(r, k') == Get(d, k'))
    && Keys(r) == if k in Keys(d) then Keys(d) else Keys(d) + [k]
  }

  /** `d[k] = v`: overwrite the entry for `k` in place, or append one when `k` is new. */
  function Set(d: Dict, k: string, v: Json): (r: Dict)
    ensures IsAssignment(d, k, v, r)
  {
    if |d| == 0 then
      AssignmentEmpty(k, v);
      [Entry(k, v)]
    else if d[0].key == k then
      AssignmentHead(d, k, v);
      [Entry(k, v)] + d[1..]
    else
      var rest := Set(d[1..], k, v);
      AssignmentCons(d, k, v, rest);
      [d[0]] + rest
  }

  lemma {:induction false} AssignmentEmpty(k: string, v: Json)
    ensures IsAssignment([], k, v, [Entry(k, v)])
  {
    assert Keys([Entry(k, v)]) == [k];
  }

  lemma {:induction false} AssignmentHead(d: Dict, k: string, v: Json)
    requires |d| > 0 && d[0].key == k
    ensures IsAssignment(d, k, v, [Entry(k, v)] + d[1..])
  {
    var r := [Entry(k, v)] + d[1..];
    assert r[1..] == d[1..];
    assert Keys(r) == [k] + Keys(d[1..]);
    assert Keys(d) == [k] + Keys(d[1..]);
  }

  lemma {:induction false} AssignmentCons(d: Dict, k: string, v: Json, rest: Dict)
    requires |d| > 0 && d[0].key != k
    requires IsAssignment(d[1..], k, v, rest)
    ensures IsAssignment(d, k, v, [d[0]] + rest)
  {
    var r := [d[0]] + rest;
    assert r[1..] == rest;
    assert Keys(r) == [d[0].key] + Keys(rest);
    assert Keys(d) == [d[0].key] + Keys(d[1..]);
    assert k in Keys(d) <==> k in Keys(d[1..]);
    if k !in Keys(d) {
      assert Keys(r) == [d[0].key] + (Keys(d[1..]) + [k]) == Keys(d) + [k];
    }
    forall k' | k' != k ensures Get(r, k') == Get(d, k') {
    }
  }

  /** Assignment keeps a dict's keys distinct. */
  lemma {:induction false} SetKeepsDistinct(d: Dict, k: string, v: Json)
    requires DistinctKeys(d)
    ensures DistinctKeys(Set(d, k, v))
  {
    if k !in Keys(d) {
      var ks := Keys(d) + [k];
      assert Keys(Set(d, k, v)) == ks;
      forall i, j | 0 <= i < j < |ks| ensures ks[i] != ks[j] {
        if j == |ks| - 1 {
          assert ks[i] == Keys(d)[i];
        }
      }
    }
  }

  /** In a dict with distinct keys, reading the key of entry `i` finds entry `i`. */
  lemma {:induction false} GetAt(d: Dict, i: nat)
    requires DistinctKeys(d)
    requires i < |d|
    ensures Get(d, d[i].key) == Some(d[i].value)
  {
    if i > 0 {
      var ks := Keys(d);
      assert ks[0] == d[0].key && ks[i] == d[i].key;
      assert Keys(d[1..]) == ks[1..];
      assert DistinctKeys(d[1..]) by {
        forall a, b | 0 <= a < b < |ks[1..]| ensures ks[1..][a] != ks[1..][b] {
          assert ks[1..][a] == ks[a + 1] && ks[1..][b] == ks[b + 1];
        }
      }
      GetAt(d[1..], i - 1);
      assert d[1..][i - 1] == d[i];
    }
  }

  /** Two dicts with distinct keys are equal when they list the same keys and agree on every key. */
  lemma {:induction false} DictExtensionality(a: Dict, b: Dict)
    requires DistinctKeys(a)
    requires Keys(a) == Keys(b)
    requires forall k :: Get(a, k) == Get(b, k)
    ensures a == b
  {
    assert |a| == |Keys(a)| == |Keys(b)| == |b|;
    forall i | 0 <= i < |a|
      ensures a[i] == b[i]
    {
      assert Keys(a)[i] == a[i].key && Keys(b)[i] == b[i].key;
      GetAt(a, i);
      GetAt(b, i);
    }
  }
}
