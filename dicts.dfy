/**
 * The observable behaviour of Python's `dict`, which dicionarios_python.py
 * relies on: since Python 3.7 a dict iterates in insertion order, so a dict
 * is modelled as its list of `(key, value)` items, keys pairwise distinct.
 * `Get` is the mapping a dict denotes and `Keys` its iteration order.
 */
module Dicts {
  import opened Wrappers
  import Sorting

  type Dict<K, V> = seq<(K, V)>

  predicate DistinctKeys<K(==,!new), V(!new)>(d: Dict<K, V>) {
    forall i, j :: 0 <= i < j < |d| ==> d[i].0 != d[j].0
  }

  predicate KeysDiffer<K(==,!new), V(!new)>(a: (K, V), b: (K, V)) {
    a.0 != b.0
  }

  lemma DistinctKeysPairwise<K(!new), V(!new)>(d: Dict<K, V>)
    ensures DistinctKeys(d) <==> Sorting.Pairwise(d, KeysDiffer)
  {
  }

  /** `list(d.keys())`. */
  function Keys<K, V>(d: Dict<K, V>): (ks: seq<K>)
    ensures |ks| == |d|
    ensures forall i :: 0 <= i < |d| ==> ks[i] == d[i].0
  {
    seq(|d|, i requires 0 <= i < |d| => d[i].0)
  }

  /** `list(d.values())`. */
  function Values<K, V>(d: Dict<K, V>): (vs: seq<V>)
    ensures |vs| == |d|
    ensures forall i :: 0 <= i < |d| ==> vs[i] == d[i].1
  {
    seq(|d|, i requires 0 <= i < |d| => d[i].1)
  }

  /** The position of key `k` in the iteration order, or -1 when `k` is absent. */
  function Find<K(==,!new), V(!new)>(d: Dict<K, V>, k: K): (i: int)
    ensures -1 <= i < |d|
    ensures 0 <= i ==> d[i].0 == k
    ensures 0 <= i ==> forall j :: 0 <= j < i ==> d[j].0 != k
    ensures i == -1 <==> forall j :: 0 <= j < |d| ==> d[j].0 != k
  {
    if d == [] then -1
    else if d[0].0 == k then 0
    else
      var i := Find(d[1..], k);
      if i < 0 then -1 else i + 1
  }

  /** `k in d`. */
  function HasKey<K(==,!new), V(!new)>(d: Dict<K, V>, k: K): (b: bool)
    ensures b <==> exists i :: 0 <= i < |d| && d[i].0 == k
  {
    Find(d, k) >= 0
  }

  /** `d.get(k)`: the value stored under `k`, `None` when `k` is absent. */
  function Get<K(==,!new), V(!new)>(d: Dict<K, V>, k: K): (r: Option<V>)
    ensures r.Some? <==> HasKey(d, k)
    ensures r.Some? ==> (k, r.value) in d
  {
    var i := Find(d, k);
    if i < 0 then None else Some(d[i].1)
  }

  lemma HasKeyInKeys<K(!new), V(!new)>(d: Dict<K, V>, k: K)
    ensures HasKey(d, k) <==> k in Keys(d)
  {
    if k in Keys(d) {
      var i :| 0 <= i < |d| && Keys(d)[i] == k;
    }
  }

  /** In a dict, `k` maps to `v` exactly when `(k, v)` is one of its items. */
  lemma GetIffItem<K(!new), V(!new)>(d: Dict<K, V>, k: K, v: V)
    requires DistinctKeys(d)
    ensures Get(d, k) == Some(v) <==> (k, v) in d
  {
    if (k, v) in d {
      var i :| 0 <= i < |d| && d[i] == (k, v);
      assert Find(d, k) == i;
    }
  }

  /** `Find` looks only at the keys. */
  lemma FindSameKeys<K(!new), V(!new)>(a: Dict<K, V>, b: Dict<K, V>, k: K)
    requires Keys(a) == Keys(b)
    ensures Find(a, k) == Find(b, k)
  {
    var i, j := Find(a, k), Find(b, k);
    assert forall q :: 0 <= q < |a| ==> a[q].0 == Keys(a)[q] == Keys(b)[q] == b[q].0;
  }

  /** The first `k` of `a + b` is the first one of `a`, or else the first one of `b`. */
  lemma {:induction false} FindConcat<K(!new), V(!new)>(a: Dict<K, V>, b: Dict<K, V>, k: K)
    ensures Find(a + b, k)
         == if Find(a, k) >= 0 then Find(a, k) else if Find(b, k) >= 0 then |a| + Find(b, k) else -1
  {
    if a != [] {
      assert (a + b)[0] == a[0];
      assert (a + b)[1..] == a[1..] + b;
      FindConcat(a[1..], b, k);
    } else {
      assert a + b == b;
    }
  }

  /** `d[k] = v`: an existing key keeps its place and takes the new value; a new key goes last. */
  function Set<K(==,!new), V(!new)>(d: Dict<K, V>, k: K, v: V): (r: Dict<K, V>)
    ensures DistinctKeys(d) ==> DistinctKeys(r)
    ensures Get(r, k) == Some(v)
    ensures forall k' :: k' != k ==> Get(r, k') == Get(d, k')
    ensures Keys(r) == if HasKey(d, k) then Keys(d) else Keys(d) + [k]
  {
    var i := Find(d, k);
    if i >= 0 then
      var r := d[i := (k, v)];
      assert Keys(r) == Keys(d);
      assert forall k' :: k' != k ==> Get(r, k') == Get(d, k') by {
        forall k' | k' != k
          ensures Get(r, k') == Get(d, k')
        {
          FindSameKeys(r, d, k');
        }
      }
      assert Get(r, k) == Some(v) by {
        FindSameKeys(r, d, k);
      }
      r
    else
      var r := d + [(k, v)];
      assert Keys(r) == Keys(d) + [k];
      assert forall k' :: k' != k ==> Get(r, k') == Get(d, k') by {
        forall k' | k' != k
          ensures Get(r, k') == Get(d, k')
        {
          FindConcat(d, [(k, v)], k');
        }
      }
      assert Get(r, k) == Some(v) by {
        FindConcat(d, [(k, v)], k);
      }
      r
  }

  /** Setting a key the dict lacks appends the item. */
  lemma SetNewKey<K(!new), V(!new)>(d: Dict<K, V>, k: K, v: V)
    requires forall i :: 0 <= i < |d| ==> d[i].0 != k
    ensures Set(d, k, v) == d + [(k, v)]
  {
  }

  /** The first item with key `k` is at `i`. */
  lemma FindAt<K(!new), V(!new)>(d: Dict<K, V>, i: nat, k: K)
    requires i < |d| && d[i].0 == k
    requires forall j :: 0 <= j < i ==> d[j].0 != k
    ensures Find(d, k) == i
  {
  }

  /**
   * `del d[k]` on a dict that has `k` (Python raises `KeyError` otherwise):
   * the first item of `k` goes and the others keep their order, so putting
   * it back at its position gives `d` again.
   */
  function RemoveKey<K(==,!new), V(!new)>(d: Dict<K, V>, k: K): (r: Dict<K, V>)
    requires HasKey(d, k)
    ensures |r| == |d| - 1
    ensures d == r[..Find(d, k)] + [d[Find(d, k)]] + r[Find(d, k)..]
  {
    var i := Find(d, k);
    var r := d[..i] + d[i + 1..];
    assert r[..i] == d[..i] && r[i..] == d[i + 1..];
    r
  }

  /**
   * After `del d[k]` every other key keeps its value; in a dict, `k` is
   * gone and the keys stay distinct.
   */
  lemma RemoveKeySpec<K(!new), V(!new)>(d: Dict<K, V>, k: K)
    requires HasKey(d, k)
    ensures forall k' :: k' != k ==> Get(RemoveKey(d, k), k') == Get(d, k')
    ensures DistinctKeys(d) ==> DistinctKeys(RemoveKey(d, k)) && Get(RemoveKey(d, k), k) == None
  {
    var i := Find(d, k);
    forall k' | k' != k
      ensures Get(RemoveKey(d, k), k') == Get(d, k')
    {
      DropOtherKey(d, i, k');
    }
    if DistinctKeys(d) {
      DropOnlyKey(d, i);
    }
  }

  /** Dropping an item with another key does not change what `k` maps to. */
  lemma DropOtherKey<K(!new), V(!new)>(d: Dict<K, V>, i: nat, k: K)
    requires i < |d| && d[i].0 != k
    ensures Get(d[..i] + d[i + 1..], k) == Get(d, k)
  {
    var r := d[..i] + d[i + 1..];
    FindDrop(d, i, k);
    var f := Find(d, k);
    if 0 <= f < i {
      assert r[f] == d[f];
    } else if f > i {
      assert r[f - 1] == d[f];
    }
  }

  /** Where the first `k` moves when an item with another key is dropped. */
  lemma {:induction false} FindDrop<K(!new), V(!new)>(d: Dict<K, V>, i: nat, k: K)
    requires i < |d| && d[i].0 != k
    ensures Find(d[..i] + d[i + 1..], k)
         == if Find(d, k) < i then Find(d, k) else Find(d, k) - 1
  {
    if i == 0 {
      assert d[..0] + d[1..] == d[1..];
    } else {
      var t := d[1..];
      var r := d[..i] + d[i + 1..];
      assert r == [d[0]] + (t[..i - 1] + t[i..]);
      assert r[0] == d[0] && r[1..] == t[..i - 1] + t[i..];
      if d[0].0 != k {
        FindDrop(t, i - 1, k);
      }
    }
  }

  /** In a dict, dropping the item of a key leaves that key absent. */
  lemma DropOnlyKey<K(!new), V(!new)>(d: Dict<K, V>, i: nat)
    requires DistinctKeys(d) && i < |d|
    ensures DistinctKeys(d[..i] + d[i + 1..])
    ensures Get(d[..i] + d[i + 1..], d[i].0) == None
  {
    var r := d[..i] + d[i + 1..];
    assert forall j :: 0 <= j < |r| ==> r[j] == if j < i then d[j] else d[j + 1];
  }

  /**
   * `d.pop(k)` on a dict that has `k` (Python raises `KeyError` otherwise):
   * the value `k` maps to, and the dict without that item. Putting the item
   * back where it was gives `d`; every other key keeps its value, and in a
   * dict `k` is gone.
   */
  function PopKey<K(==,!new), V(!new)>(d: Dict<K, V>, k: K): (r: (V, Dict<K, V>))
    requires HasKey(d, k)
    ensures Get(d, k) == Some(r.0)
    ensures r.1 == RemoveKey(d, k)
    ensures |r.1| == |d| - 1 && d == r.1[..Find(d, k)] + [(k, r.0)] + r.1[Find(d, k)..]
    ensures forall k' :: k' != k ==> Get(r.1, k') == Get(d, k')
    ensures DistinctKeys(d) ==> DistinctKeys(r.1) && Get(r.1, k) == None
  {
    RemoveKeySpec(d, k);
    (d[Find(d, k)].1, RemoveKey(d, k))
  }

  /** `d.pop(k, default)`: a missing key gives `default` and leaves `d` alone. */
  function PopDefault<K(==,!new), V(!new)>(d: Dict<K, V>, k: K, default: V): (r: (V, Dict<K, V>))
    ensures !HasKey(d, k) ==> r == (default, d)
    ensures HasKey(d, k) ==> Get(d, k) == Some(r.0) && r.1 == RemoveKey(d, k)
  {
    match Get(d, k)
    case Some(v) => (v, RemoveKey(d, k))
    case None => (default, d)
  }

  /** `d.setdefault(k, default)`: never overwrites; a missing key is added last with `default`. */
  function SetDefault<K(==,!new), V(!new)>(d: Dict<K, V>, k: K, default: V): (r: (V, Dict<K, V>))
    ensures HasKey(d, k) ==> r.1 == d && Get(d, k) == Some(r.0)
    ensures !HasKey(d, k) ==> r.0 == default && r.1 == d + [(k, default)]
    ensures Get(r.1, k) == Some(r.0)
  {
    match Get(d, k)
    case Some(v) => (v, d)
    case None => (default, Set(d, k, default))
  }

  /** `d.popitem()`: removes the last item inserted; an empty dict (`KeyError`) gives `None`. */
  function PopItem<K(==,!new), V(!new)>(d: Dict<K, V>): (r: Option<((K, V), Dict<K, V>)>)
    ensures d == [] <==> r == None
    ensures r.Some? ==> d == r.value.1 + [r.value.0]
    ensures r.Some? && DistinctKeys(d) ==> Get(r.value.1, r.value.0.0) == None
  {
    if d == [] then None
    else
      var rest := d[..|d| - 1];
      assert d == rest + [d[|d| - 1]];
      Some((d[|d| - 1], rest))
  }

  /** `{k: v for k, v in d.items() if p(k, v)}`. */
  function Filter<K(!new), V(!new)>(d: Dict<K, V>, p: (K, V) -> bool): (r: Dict<K, V>)
    ensures |r| <= |d|
    ensures forall e :: e in r <==> e in d && p(e.0, e.1)
  {
    if d == [] then []
    else (if p(d[0].0, d[0].1) then [d[0]] else []) + Filter(d[1..], p)
  }

  lemma {:induction false} FilterDistinct<K(!new), V(!new)>(d: Dict<K, V>, p: (K, V) -> bool)
    requires DistinctKeys(d)
    ensures DistinctKeys(Filter(d, p))
  {
    if d != [] {
      FilterDistinct(d[1..], p);
      var rest := Filter(d[1..], p);
      forall j | 0 <= j < |rest|
        ensures rest[j].0 != d[0].0
      {
        assert rest[j] in d[1..];
      }
    }
  }

  /**
   * A filtered dict holds exactly the items satisfying `p`, with their
   * values, and lists them in the order the original does.
   */
  lemma {:induction false} FilterSpec<K(!new), V(!new)>(d: Dict<K, V>, p: (K, V) -> bool)
    requires DistinctKeys(d)
    ensures DistinctKeys(Filter(d, p))
    ensures forall k :: Get(Filter(d, p), k)
                     == if Get(d, k).Some? && p(k, Get(d, k).value) then Get(d, k) else None
    ensures forall i, j :: 0 <= i < j < |Filter(d, p)|
              ==> Find(d, Filter(d, p)[i].0) < Find(d, Filter(d, p)[j].0)
  {
    var r := Filter(d, p);
    FilterDistinct(d, p);
    forall k
      ensures Get(r, k) == if Get(d, k).Some? && p(k, Get(d, k).value) then Get(d, k) else None
    {
      match Get(r, k)
      case Some(v) =>
        GetIffItem(r, k, v);
        GetIffItem(d, k, v);
      case None =>
        if Get(d, k).Some? {
          GetIffItem(d, k, Get(d, k).value);
          if p(k, Get(d, k).value) {
            GetIffItem(r, k, Get(d, k).value);
          }
        }
    }
    FilterOrder(d, p);
  }

  lemma {:induction false} FilterOrder<K(!new), V(!new)>(d: Dict<K, V>, p: (K, V) -> bool)
    requires DistinctKeys(d)
    ensures forall i, j :: 0 <= i < j < |Filter(d, p)|
              ==> Find(d, Filter(d, p)[i].0) < Find(d, Filter(d, p)[j].0)
  {
    if d != [] {
      var tail := Filter(d[1..], p);
      FilterOrder(d[1..], p);
      forall j | 0 <= j < |tail|
        ensures Find(d, tail[j].0) == Find(d[1..], tail[j].0) + 1
      {
        assert tail[j] in d[1..];
      }
    }
  }

  /** The items of `d` whose key is not in `ks`, in order. */
  function WithoutKeys<K(==,!new), V(!new)>(d: Dict<K, V>, ks: seq<K>): (r: Dict<K, V>)
    ensures |r| <= |d|
    ensures forall e :: e in r <==> e in d && e.0 !in ks
  {
    if d == [] then []
    else (if d[0].0 in ks then [] else [d[0]]) + WithoutKeys(d[1..], ks)
  }

  lemma {:induction false} WithoutAbsentKey<K(!new), V(!new)>(d: Dict<K, V>, ks: seq<K>, x: K)
    requires forall i :: 0 <= i < |d| ==> d[i].0 != x
    ensures WithoutKeys(d, ks + [x]) == WithoutKeys(d, ks)
  {
    if d != [] {
      WithoutAbsentKey(d[1..], ks, x);
    }
  }

  lemma RemoveKeyCons<K(!new), V(!new)>(e: (K, V), t: Dict<K, V>, x: K)
    requires e.0 != x && HasKey(t, x)
    ensures RemoveKey([e] + t, x) == [e] + RemoveKey(t, x)
  {
    var d := [e] + t;
    var i := Find(t, x);
    assert d[0] == e && d[1..] == t;
    assert Find(d, x) == i + 1;
    calc {
      RemoveKey(d, x);
      d[..i + 1] + d[i + 2..];
      { assert d[..i + 1] == [e] + t[..i] && d[i + 2..] == t[i + 1..]; }
      [e] + (t[..i] + t[i + 1..]);
      [e] + RemoveKey(t, x);
    }
  }

  lemma {:induction false} WithoutNothing<K(!new), V(!new)>(d: Dict<K, V>)
    ensures WithoutKeys(d, []) == d
  {
    if d != [] {
      WithoutNothing(d[1..]);
      assert d == [d[0]] + d[1..];
    }
  }

  /** A key of `d` outside `ks` is still a key once the keys in `ks` are dropped. */
  lemma WithoutKeysHasKey<K(!new), V(!new)>(d: Dict<K, V>, ks: seq<K>, x: K)
    requires HasKey(d, x) && x !in ks
    ensures HasKey(WithoutKeys(d, ks), x)
  {
    var i :| 0 <= i < |d| && d[i].0 == x;
    assert d[i] in WithoutKeys(d, ks);
  }

  lemma {:induction false} WithoutKeysDistinct<K(!new), V(!new)>(d: Dict<K, V>, ks: seq<K>)
    requires DistinctKeys(d)
    ensures DistinctKeys(WithoutKeys(d, ks))
  {
    if d != [] {
      var t := d[1..];
      WithoutKeysDistinct(t, ks);
      var wt := WithoutKeys(t, ks);
      forall j | 0 <= j < |wt|
        ensures wt[j].0 != d[0].0
      {
        assert wt[j] in t;
      }
    }
  }

  lemma {:induction false} WithoutKeysTwice<K(!new), V(!new)>(d: Dict<K, V>, ks: seq<K>, js: seq<K>)
    ensures WithoutKeys(WithoutKeys(d, ks), js) == WithoutKeys(d, ks + js)
  {
    if d != [] {
      var t := d[1..];
      WithoutKeysTwice(t, ks, js);
      var w := WithoutKeys(d, ks);
      if d[0].0 in ks {
        assert w == WithoutKeys(t, ks);
      } else {
        assert w == [d[0]] + WithoutKeys(t, ks);
        assert w[1..] == WithoutKeys(t, ks);
        assert WithoutKeys(w, js) == (if d[0].0 in js then [] else [d[0]]) + WithoutKeys(WithoutKeys(t, ks), js);
      }
    }
  }

  /** In a dict, `del d[x]` is the same as dropping the items whose key is in `[x]`. */
  lemma {:induction false} RemoveKeyIsWithout<K(!new), V(!new)>(d: Dict<K, V>, x: K)
    requires DistinctKeys(d) && HasKey(d, x)
    ensures RemoveKey(d, x) == WithoutKeys(d, [x])
  {
    if d != [] {
      var t := d[1..];
      assert d == [d[0]] + t;
      if d[0].0 == x {
        assert Find(d, x) == 0;
        assert RemoveKey(d, x) == t;
        WithoutAbsentKey(t, [], x);
        assert [] + [x] == [x];
        WithoutNothing(t);
      } else {
        RemoveKeyIsWithout(t, x);
        RemoveKeyCons(d[0], t, x);
      }
    }
  }

  /** Popping one more key from a dict already stripped of `ks` strips `ks + [x]`. */
  lemma RemoveKeyWithout<K(!new), V(!new)>(d: Dict<K, V>, ks: seq<K>, x: K)
    requires DistinctKeys(d) && HasKey(WithoutKeys(d, ks), x)
    ensures RemoveKey(WithoutKeys(d, ks), x) == WithoutKeys(d, ks + [x])
  {
    var w := WithoutKeys(d, ks);
    WithoutKeysDistinct(d, ks);
    RemoveKeyIsWithout(w, x);
    WithoutKeysTwice(d, ks, [x]);
  }

  /** Removing the keys of the items that fail `p` leaves the items that satisfy it. */
  lemma {:induction false} WithoutKeysIsFilter<K(!new), V(!new)>(d: Dict<K, V>, ks: seq<K>, p: (K, V) -> bool)
    requires forall i :: 0 <= i < |d| ==> (d[i].0 in ks <==> !p(d[i].0, d[i].1))
    ensures WithoutKeys(d, ks) == Filter(d, p)
  {
    if d != [] {
      WithoutKeysIsFilter(d[1..], ks, p);
    }
  }

  /** In a dict, an item's key is among the keys of a filtered copy exactly when the item passes. */
  lemma KeysOfFilter<K(!new), V(!new)>(d: Dict<K, V>, p: (K, V) -> bool, i: nat)
    requires DistinctKeys(d) && i < |d|
    ensures d[i].0 in Keys(Filter(d, p)) <==> p(d[i].0, d[i].1)
  {
    var r := Filter(d, p);
    if p(d[i].0, d[i].1) {
      assert d[i] in r;
      var j :| 0 <= j < |r| && r[j] == d[i];
      assert Keys(r)[j] == d[i].0;
    }
    if d[i].0 in Keys(r) {
      var j :| 0 <= j < |r| && Keys(r)[j] == d[i].0;
      assert r[j] in d;
      var q :| 0 <= q < |d| && d[q] == r[j];
      assert q == i;
    }
  }

  /** In a dict, the keys of a filtered copy are keys of the dict, each listed once. */
  lemma FilterKeys<K(!new), V(!new)>(d: Dict<K, V>, p: (K, V) -> bool)
    requires DistinctKeys(d)
    ensures forall j :: 0 <= j < |Keys(Filter(d, p))| ==> HasKey(d, Keys(Filter(d, p))[j])
    ensures forall i, j :: 0 <= i < j < |Keys(Filter(d, p))| ==> Keys(Filter(d, p))[i] != Keys(Filter(d, p))[j]
  {
    var r := Filter(d, p);
    FilterDistinct(d, p);
    forall j | 0 <= j < |r|
      ensures HasKey(d, r[j].0)
    {
      assert r[j] in d;
    }
  }

  /** Two dicts with the same items denote the same mapping. */
  lemma SameItemsSameGet<K(!new), V(!new)>(d1: Dict<K, V>, d2: Dict<K, V>)
    requires DistinctKeys(d1) && DistinctKeys(d2)
    requires multiset(d1) == multiset(d2)
    ensures forall k :: Get(d1, k) == Get(d2, k)
  {
    forall k
      ensures Get(d1, k) == Get(d2, k)
    {
      if Get(d1, k).Some? {
        var v := Get(d1, k).value;
        GetIffItem(d1, k, v);
        assert (k, v) in multiset(d2);
        GetIffItem(d2, k, v);
      } else if Get(d2, k).Some? {
        var v := Get(d2, k).value;
        GetIffItem(d2, k, v);
        assert (k, v) in multiset(d1);
        GetIffItem(d1, k, v);
      }
    }
  }

  /** Reordering the items of a dict keeps its keys distinct. */
  lemma SortByDistinctKeys<K(!new), V(!new)>(d: Dict<K, V>, le: ((K, V), (K, V)) -> bool)
    requires DistinctKeys(d)
    ensures DistinctKeys(Sorting.SortBy(d, le))
  {
    DistinctKeysPairwise(d);
    Sorting.SortByPairwise(d, le, KeysDiffer);
    DistinctKeysPairwise(Sorting.SortBy(d, le));
  }

  /** Rearranging the items of a dict, as `dict(sorted(d.items()))` does, keeps the mapping. */
  lemma SortByKeepsMapping<K(!new), V(!new)>(d: Dict<K, V>, le: ((K, V), (K, V)) -> bool)
    requires DistinctKeys(d)
    ensures DistinctKeys(Sorting.SortBy(d, le))
    ensures forall k :: Get(Sorting.SortBy(d, le), k) == Get(d, k)
  {
    SortByDistinctKeys(d, le);
    SameItemsSameGet(Sorting.SortBy(d, le), d);
  }

  /** The sum of the values. */
  function Sum<K>(d: Dict<K, int>): int {
    if d == [] then 0 else d[0].1 + Sum(d[1..])
  }

  lemma {:induction false} SumAppend<K>(d: Dict<K, int>, e: (K, int))
    ensures Sum(d + [e]) == Sum(d) + e.1
  {
    if d != [] {
      assert (d + [e])[1..] == d[1..] + [e];
      SumAppend(d[1..], e);
    }
  }

  lemma {:induction false} SumUpdate<K>(d: Dict<K, int>, i: nat, e: (K, int))
    requires i < |d|
    ensures Sum(d[i := e]) == Sum(d) - d[i].1 + e.1
  {
    if i > 0 {
      assert d[i := e][1..] == d[1..][i - 1 := e];
      SumUpdate(d[1..], i - 1, e);
    }
  }

  /** Setting `k` to `v` changes the sum by `v` minus what `k` held (0 if nothing). */
  lemma SumSet<K(!new)>(d: Dict<K, int>, k: K, v: int)
    ensures Sum(Set(d, k, v)) == Sum(d) - (match Get(d, k) case Some(old_) => old_ case None => 0) + v
  {
    var i := Find(d, k);
    if i >= 0 {
      SumUpdate(d, i, (k, v));
    } else {
      SumAppend(d, (k, v));
    }
  }
}
