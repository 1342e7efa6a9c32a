/**
 * Python dictionaries with string keys, as the note store uses them: ordered by first
 * insertion, one value per key. A dictionary is its sequence of (key, value) entries.
 */
module Dicts {
  import opened Wrappers

  type Dict<V> = seq<(string, V)>

  function Keys<V>(d: Dict<V>): (ks: seq<string>)
    ensures |ks| == |d|
    ensures forall i :: 0 <= i < |d| ==> ks[i] == d[i].0
  {
    seq(|d|, i requires 0 <= i < |d| => d[i].0)
  }

  /** No key occurs twice: what a Python dict guarantees. */
  predicate Unique<V>(d: Dict<V>) {
    forall i, j :: 0 <= i < j < |d| ==> d[i].0 != d[j].0
  }

  /** Position of the first entry for k, or |d| when there is none. */
  function IndexOf<V>(d: Dict<V>, k: string): (i: nat)
    ensures i <= |d|
    ensures i < |d| ==> d[i].0 == k
    ensures forall j :: 0 <= j < i ==> d[j].0 != k
    decreases |d|
  {
    if d == [] then 0 else if d[0].0 == k then 0 else 1 + IndexOf(d[1..], k)
  }

  /** `d.get(k)`: the value stored for k, None when k is not a key. */
  function Get<V>(d: Dict<V>, k: string): (r: Option<V>)
    ensures r.None? <==> k !in Keys(d)
    ensures r.Some? ==> (k, r.value) in d
  {
    var i := IndexOf(d, k);
    if i < |d| then Some(d[i].1) else None
  }

  /** `d[k] = v`: an existing key keeps its place, a new key goes last. */
  function Put<V>(d: Dict<V>, k: string, v: V): (r: Dict<V>)
    ensures |r| == |d| + (if k in Keys(d) then 0 else 1)
  {
    var i := IndexOf(d, k);
    if i < |d| then d[i := (k, v)] else d + [(k, v)]
  }

  /** Reading back what was stored. */
  lemma GetPut<V>(d: Dict<V>, k: string, v: V)
    ensures Get(Put(d, k, v), k) == Some(v)
  {
    var i := IndexOf(d, k);
    var r := Put(d, k, v);
    if i == |d| {
      assert IndexOf(r, k) == |d| by { IndexOfAppend(d, k, k, v); }
    } else {
      assert IndexOf(r, k) == i by { IndexOfUpdate(d, k, i, v); }
    }
  }

  /** Storing under one key leaves every other key's value alone. */
  lemma GetPutOther<V>(d: Dict<V>, k: string, v: V, k': string)
    requires k' != k
    ensures Get(Put(d, k, v), k') == Get(d, k')
  {
    var i := IndexOf(d, k);
    var r := Put(d, k, v);
    if i == |d| {
      IndexOfAppend(d, k', k, v);
    } else {
      IndexOfUpdateOther(d, k, i, v, k');
    }
  }

  /** Storing keeps the order of the keys and adds a new key at the end. */
  lemma KeysPut<V>(d: Dict<V>, k: string, v: V)
    ensures Keys(Put(d, k, v)) == if k in Keys(d) then Keys(d) else Keys(d) + [k]
  {
    var i := IndexOf(d, k);
    if i < |d| {
      assert k in Keys(d);
    } else {
      assert k !in Keys(d);
    }
  }

  /** Storing keeps every key unique. */
  lemma UniquePut<V>(d: Dict<V>, k: string, v: V)
    requires Unique(d)
    ensures Unique(Put(d, k, v))
  {
    KeysPut(d, k, v);
    var r := Put(d, k, v);
    forall i, j | 0 <= i < j < |r| ensures r[i].0 != r[j].0 {
      assert Keys(r)[i] == r[i].0 && Keys(r)[j] == r[j].0;
    }
  }

  /** A second store under the same key overwrites the first, in the first one's place. */
  lemma PutPut<V>(d: Dict<V>, k: string, v: V, v': V)
    ensures Put(Put(d, k, v), k, v') == Put(d, k, v')
  {
    var i := IndexOf(d, k);
    if i == |d| {
      IndexOfAppend(d, k, k, v);
      assert (d + [(k, v)])[|d| := (k, v')] == d + [(k, v')];
    } else {
      IndexOfUpdate(d, k, i, v);
      assert d[i := (k, v)][i := (k, v')] == d[i := (k, v')];
    }
  }

  /** Storing the value a key already has changes nothing. */
  lemma PutSame<V>(d: Dict<V>, k: string, v: V)
    requires Get(d, k) == Some(v)
    ensures Put(d, k, v) == d
  {
    var i := IndexOf(d, k);
    assert d[i] == (k, v);
  }

  lemma {:induction false} IndexOfAppend<V>(d: Dict<V>, key: string, k: string, v: V)
    requires IndexOf(d, k) == |d|
    ensures IndexOf(d + [(k, v)], key) == if IndexOf(d, key) < |d| || key == k then IndexOf(d, key) else |d| + 1
    decreases |d|
  {
    if d != [] {
      assert (d + [(k, v)])[1..] == d[1..] + [(k, v)];
      if d[0].0 != key {
        IndexOfAppend(d[1..], key, k, v);
      }
    }
  }

  lemma {:induction false} IndexOfUpdate<V>(d: Dict<V>, k: string, i: nat, v: V)
    requires i == IndexOf(d, k) < |d|
    ensures IndexOf(d[i := (k, v)], k) == i
    decreases |d|
  {
    if i > 0 {
      assert d[i := (k, v)][1..] == d[1..][i - 1 := (k, v)];
      IndexOfUpdate(d[1..], k, i - 1, v);
    }
  }

  lemma {:induction false} IndexOfUpdateOther<V>(d: Dict<V>, k: string, i: nat, v: V, k': string)
    requires i == IndexOf(d, k) < |d| && k' != k
    ensures IndexOf(d[i := (k, v)], k') == IndexOf(d, k')
    decreases |d|
  {
    if d[0].0 != k' && i > 0 {
      assert d[i := (k, v)][1..] == d[1..][i - 1 := (k, v)];
      IndexOfUpdateOther(d[1..], k, i - 1, v, k');
    }
  }
}
