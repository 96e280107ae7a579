/** Python's `dict` with string keys: insertion-ordered, one value per key,
    and assignment to an existing key keeps that key's position. */
module Dicts {
  import opened Common

  type Dict<V> = seq<(string, V)>

  function Keys<V>(d: Dict<V>): (ks: seq<string>)
    ensures |ks| == |d|
  {
    if d == [] then [] else [d[0].0] + Keys(d[1..])
  }

  /** No element occurs twice. */
  predicate Distinct<T(==)>(s: seq<T>) {
    s == [] || (s[0] !in s[1..] && Distinct(s[1..]))
  }

  /** No key occurs twice; every dictionary built with `Put` keeps this. */
  predicate UniqueKeys<V>(d: Dict<V>) {
    Distinct(Keys(d))
  }

  /** The value stored under `k`, if any. */
  function Get<V>(d: Dict<V>, k: string): (r: Option<V>)
    ensures r.None? <==> k !in Keys(d)
  {
    if d == [] then None
    else if d[0].0 == k then Some(d[0].1)
    else Get(d[1..], k)
  }

  /** In a dictionary with unique keys, `Get` finds exactly the stored pairs. */
  lemma {:induction false} GetIffStored<V>(d: Dict<V>, k: string, v: V)
    requires UniqueKeys(d)
    ensures Get(d, k) == Some(v) <==> (k, v) in d
  {
    if d != [] {
      GetIffStored(d[1..], k, v);
      assert d == [d[0]] + d[1..];
    }
  }

  /** What `Get` finds is stored, unique keys or not. */
  lemma {:induction false} GetStored<V>(d: Dict<V>, k: string, v: V)
    requires Get(d, k) == Some(v)
    ensures (k, v) in d
  {
    if d[0].0 != k {
      GetStored(d[1..], k, v);
      assert d == [d[0]] + d[1..];
    }
  }

  /** Assignment: overwrite in place when `k` is present, append otherwise. */
  function Put<V>(d: Dict<V>, k: string, v: V): (r: Dict<V>)
    ensures k in Keys(d) ==> Keys(r) == Keys(d)
    ensures k !in Keys(d) ==> r == d + [(k, v)]
    ensures forall k' :: k' in Keys(r) <==> k' in Keys(d) || k' == k
    ensures Get(r, k) == Some(v)
    ensures forall k' :: k' != k ==> Get(r, k') == Get(d, k')
    ensures UniqueKeys(d) ==> UniqueKeys(r)
  {
    if d == [] then [(k, v)]
    else if d[0].0 == k then
      var r := [(k, v)] + d[1..];
      assert r[1..] == d[1..];
      r
    else
      var rest := Put(d[1..], k, v);
      var r := [d[0]] + rest;
      assert r[1..] == rest;
      assert k !in Keys(d) ==> r == d + [(k, v)] by {
        if k !in Keys(d) {
          assert d == [d[0]] + d[1..];
        }
      }
      assert UniqueKeys(d) ==> d[0].0 !in Keys(rest) by {
        if k !in Keys(d[1..]) {
          KeysAppend(d[1..], [(k, v)]);
        }
      }
      r
  }

  /** Assigns each pair of `items` in turn. */
  function PutAll<V>(d: Dict<V>, items: Dict<V>): (r: Dict<V>)
    ensures forall k :: k in Keys(r) <==> k in Keys(d) || k in Keys(items)
    ensures forall k :: k !in Keys(items) ==> Get(r, k) == Get(d, k)
    ensures UniqueKeys(items) ==> forall k :: k in Keys(items) ==> Get(r, k) == Get(items, k)
    ensures UniqueKeys(d) ==> UniqueKeys(r)
    decreases |items|
  {
    if items == [] then d
    else PutAll(Put(d, items[0].0, items[0].1), items[1..])
  }

  /** Distinct keys that are all fresh are appended in order. */
  lemma {:induction false} PutAllAppendsFresh<V>(d: Dict<V>, items: Dict<V>)
    requires UniqueKeys(items)
    requires forall k :: k in Keys(items) ==> k !in Keys(d)
    ensures PutAll(d, items) == d + items
    decreases |items|
  {
    if items != [] {
      var d' := d + [items[0]];
      assert Put(d, items[0].0, items[0].1) == d';
      assert forall k :: k in Keys(d') ==> k in Keys(d) || k == items[0].0 by {
        KeysAppend(d, [items[0]]);
      }
      PutAllAppendsFresh(d', items[1..]);
      AppendHead(d, items);
    }
  }

  lemma AppendHead<T>(d: seq<T>, s: seq<T>)
    requires s != []
    ensures d + [s[0]] + s[1..] == d + s
  {
    assert s == [s[0]] + s[1..];
  }

  lemma {:induction false} KeysAppend<V>(a: Dict<V>, b: Dict<V>)
    ensures Keys(a + b) == Keys(a) + Keys(b)
  {
    if a != [] {
      assert (a + b)[1..] == a[1..] + b;
      KeysAppend(a[1..], b);
    } else {
      assert a + b == b;
    }
  }
}
