/** A Python `dict` with string keys, as the ordered list of its `(key, value)` items.
    Python dicts iterate in insertion order, which the filters of the registries keep. */
module Dicts {
  import opened Wrappers

  type Dict<V> = seq<(string, V)>

  /** `list(d.keys())` */
  function Keys<V>(d: Dict<V>): (ks: seq<string>)
    ensures |ks| == |d|
    ensures forall i :: 0 <= i < |d| ==> ks[i] == d[i].0
  {
    if d == [] then [] else [d[0].0] + Keys(d[1..])
  }

  /** No key occurs twice, as in every real dict. */
  ghost predicate DistinctKeys<V>(d: Dict<V>) {
    forall i, j :: 0 <= i < j < |d| ==> d[i].0 != d[j].0
  }

  /** Every item of `a` is an item of `b`: same key, same value. */
  ghost predicate IsSubDict<V>(a: Dict<V>, b: Dict<V>) {
    forall e :: e in a ==> e in b
  }

  /** `a` is `b` with some items left out, in the same order. */
  ghost predicate IsSubsequence<T>(a: seq<T>, b: seq<T>)
    decreases |b|
  {
    a == [] ||
    (b != [] &&
     ((a[|a| - 1] == b[|b| - 1] && IsSubsequence(a[..|a| - 1], b[..|b| - 1])) ||
      IsSubsequence(a, b[..|b| - 1])))
  }

  /** What the keys of a subsequence are: a subsequence of the keys. */
  lemma {:induction false} SubsequenceKeys<V>(a: Dict<V>, b: Dict<V>)
    requires IsSubsequence(a, b)
    ensures IsSubsequence(Keys(a), Keys(b))
    decreases |b|
  {
    if a != [] {
      assert Keys(b)[..|b| - 1] == Keys(b[..|b| - 1]);
      if a[|a| - 1] == b[|b| - 1] && IsSubsequence(a[..|a| - 1], b[..|b| - 1]) {
        assert Keys(a)[..|a| - 1] == Keys(a[..|a| - 1]);
        SubsequenceKeys(a[..|a| - 1], b[..|b| - 1]);
      } else {
        SubsequenceKeys(a, b[..|b| - 1]);
      }
    }
  }

  /** `d.get(k)`: the value stored under `k`, if any. */
  function Get<V>(d: Dict<V>, k: string): (r: Option<V>)
    ensures r.Some? <==> k in Keys(d)
    ensures r.Some? ==> (k, r.value) in d
  {
    if d == [] then None
    else if d[0].0 == k then Some(d[0].1)
    else Get(d[1..], k)
  }

  /** `d[k] = v`: overwrites the item of key `k` in place, or appends a new one. */
  function Put<V>(d: Dict<V>, k: string, v: V): (r: Dict<V>)
    ensures Keys(r) == if k in Keys(d) then Keys(d) else Keys(d) + [k]
    ensures (k, v) in r
    ensures forall e :: e in r ==> e == (k, v) || e in d
  {
    if d == [] then [(k, v)]
    else if d[0].0 == k then [(k, v)] + d[1..]
    else [d[0]] + Put(d[1..], k, v)
  }

  /** Putting a fresh key appends it at the end. */
  lemma {:induction false} PutFresh<V>(d: Dict<V>, k: string, v: V)
    requires k !in Keys(d)
    ensures Put(d, k, v) == d + [(k, v)]
  {
    if d != [] {
      assert d[0].0 != k by {
        assert Keys(d)[0] == d[0].0;
      }
      assert k !in Keys(d[1..]) by {
        forall i | 0 <= i < |d| - 1
          ensures Keys(d[1..])[i] != k
        {
          assert Keys(d[1..])[i] == d[i + 1].0 == Keys(d)[i + 1];
        }
      }
      PutFresh(d[1..], k, v);
      assert [d[0]] + (d[1..] + [(k, v)]) == d + [(k, v)];
    }
  }

  /** `{**d, **e}` read left to right: every item of `e` is put into `d` in turn. */
  function Merge<V>(d: Dict<V>, e: Dict<V>): (r: Dict<V>)
    ensures forall k :: k in Keys(r) <==> k in Keys(d) || k in Keys(e)
    ensures forall x :: x in r ==> x in d || x in e
    decreases |e|
  {
    if e == [] then d
    else
      assert Keys(e) == [e[0].0] + Keys(e[1..]);
      Merge(Put(d, e[0].0, e[0].1), e[1..])
  }

  /** Unpacking dicts whose keys do not clash just concatenates their items. */
  lemma {:induction false} MergeDisjoint<V>(d: Dict<V>, e: Dict<V>)
    requires DistinctKeys(d + e)
    ensures Merge(d, e) == d + e
    decreases |e|
  {
    if e != [] {
      var de := d + e;
      var k := e[0].0;
      assert de[|d|] == e[0];
      forall i | 0 <= i < |d|
        ensures Keys(d)[i] != k
      {
        assert de[i] == d[i];
      }
      PutFresh(d, k, e[0].1);
      SplitFirst(d, e);
      MergeDisjoint(d + [e[0]], e[1..]);
    }
  }

  lemma SplitFirst<T>(d: seq<T>, e: seq<T>)
    requires e != []
    ensures d + [e[0]] + e[1..] == d + e
  {
    assert e == [e[0]] + e[1..];
  }

  /** `{k: d[k] for k in ks}` */
  function SelectKeys<V>(d: Dict<V>, ks: seq<string>): (r: Dict<V>)
    requires forall k :: k in ks ==> k in Keys(d)
    ensures IsSubDict(r, d)
    ensures forall k :: k in Keys(r) <==> k in ks
  {
    if ks == [] then []
    else
      var k := ks[|ks| - 1];
      assert forall k' :: k' in ks <==> k' in ks[..|ks| - 1] || k' == k;
      Put(SelectKeys(d, ks[..|ks| - 1]), k, Get(d, k).value)
  }
}
