/**
 * Python's built-in `sorted(s, key=..., reverse=...)`, as used by every
 * sort in the model. `le(a, b)` says that `a` may stand before `b`; the
 * `reverse=True` form is the same sort with the relation flipped, since
 * Python reverses each comparison and keeps equal elements in their
 * original order. The sort is stable: an element is inserted in front of
 * the first element it may precede.
 */
module Sorting {

  ghost predicate Total<T(!new)>(le: (T, T) -> bool) {
    forall a, b :: le(a, b) || le(b, a)
  }

  ghost predicate Transitive<T(!new)>(le: (T, T) -> bool) {
    forall a, b, c :: le(a, b) && le(b, c) ==> le(a, c)
  }

  ghost predicate TotalPreorder<T(!new)>(le: (T, T) -> bool) {
    Total(le) && Transitive(le)
  }

  ghost predicate Antisymmetric<T(!new)>(le: (T, T) -> bool) {
    forall a, b :: le(a, b) && le(b, a) ==> a == b
  }

  ghost predicate SortedBy<T>(s: seq<T>, le: (T, T) -> bool) {
    forall i, j :: 0 <= i < j < |s| ==> le(s[i], s[j])
  }

  /** Inserts `x` in front of the first element of `t` it may precede. */
  function Insert<T>(x: T, t: seq<T>, le: (T, T) -> bool): (r: seq<T>)
    ensures |r| == |t| + 1
    ensures multiset(r) == multiset(t) + multiset{x}
  {
    if t == [] then [x]
    else if le(x, t[0]) then [x] + t
    else
      assert t == [t[0]] + t[1..];
      [t[0]] + Insert(x, t[1..], le)
  }

  /** `sorted(s)` under the order `le`. */
  function SortBy<T>(s: seq<T>, le: (T, T) -> bool): (r: seq<T>)
    ensures |r| == |s|
    ensures multiset(r) == multiset(s)
  {
    if s == [] then []
    else
      assert s == [s[0]] + s[1..];
      Insert(s[0], SortBy(s[1..], le), le)
  }

  /** A sorted sequence stays sorted with a new head that may precede all of it. */
  lemma SortedCons<T>(h: T, s: seq<T>, le: (T, T) -> bool)
    requires SortedBy(s, le)
    requires forall j :: 0 <= j < |s| ==> le(h, s[j])
    ensures SortedBy([h] + s, le)
  {
    var r := [h] + s;
    forall i, j | 0 <= i < j < |r|
      ensures le(r[i], r[j])
    {
      assert r[j] == s[j - 1];
      if i > 0 {
        assert r[i] == s[i - 1];
      }
    }
  }

  /** What may precede `x` and every element of `t` may precede every element of the insertion. */
  lemma {:induction false} InsertBound<T>(x: T, t: seq<T>, le: (T, T) -> bool, y: T)
    requires le(y, x)
    requires forall k :: 0 <= k < |t| ==> le(y, t[k])
    ensures forall j :: 0 <= j < |Insert(x, t, le)| ==> le(y, Insert(x, t, le)[j])
  {
    if t != [] && !le(x, t[0]) {
      InsertBound(x, t[1..], le, y);
      var rest := Insert(x, t[1..], le);
      assert Insert(x, t, le) == [t[0]] + rest;
      forall j | 0 < j < |rest| + 1
        ensures le(y, ([t[0]] + rest)[j])
      {
        assert ([t[0]] + rest)[j] == rest[j - 1];
      }
    }
  }

  lemma {:induction false} InsertSorted<T(!new)>(x: T, t: seq<T>, le: (T, T) -> bool)
    requires TotalPreorder(le) && SortedBy(t, le)
    ensures SortedBy(Insert(x, t, le), le)
  {
    if t == [] {
    } else if le(x, t[0]) {
      forall j | 0 <= j < |t|
        ensures le(x, t[j])
      {
        if j > 0 {
          assert le(t[0], t[j]);
        }
      }
      SortedCons(x, t, le);
    } else {
      var rest := Insert(x, t[1..], le);
      assert SortedBy(t[1..], le);
      InsertSorted(x, t[1..], le);
      assert le(t[0], x);
      forall k | 0 <= k < |t[1..]|
        ensures le(t[0], t[1..][k])
      {
        assert t[1..][k] == t[k + 1];
      }
      InsertBound(x, t[1..], le, t[0]);
      SortedCons(t[0], rest, le);
    }
  }

  /** `sorted` returns its elements in order. */
  lemma {:induction false} SortBySorted<T(!new)>(s: seq<T>, le: (T, T) -> bool)
    requires TotalPreorder(le)
    ensures SortedBy(SortBy(s, le), le)
  {
    if s != [] {
      SortBySorted(s[1..], le);
      InsertSorted(s[0], SortBy(s[1..], le), le);
    }
  }

  /**
   * The elements of `s` that are equivalent to `z` under `le` (neither
   * strictly before the other), in their order in `s`.
   */
  function Equivalents<T>(s: seq<T>, le: (T, T) -> bool, z: T): (r: seq<T>)
    ensures |r| <= |s|
    ensures forall e :: e in r ==> e in s && le(e, z) && le(z, e)
  {
    if s == [] then []
    else (if le(s[0], z) && le(z, s[0]) then [s[0]] else []) + Equivalents(s[1..], le, z)
  }

  lemma {:induction false} InsertStable<T(!new)>(x: T, t: seq<T>, le: (T, T) -> bool, z: T)
    requires Transitive(le)
    ensures Equivalents(Insert(x, t, le), le, z)
         == (if le(x, z) && le(z, x) then [x] else []) + Equivalents(t, le, z)
  {
    if t == [] {
    } else if le(x, t[0]) {
      assert ([x] + t)[1..] == t;
    } else {
      var rest := Insert(x, t[1..], le);
      assert ([t[0]] + rest)[1..] == rest;
      InsertStable(x, t[1..], le, z);
    }
  }

  /** `sorted` is stable: each class of equivalent elements keeps its order. */
  lemma {:induction false} SortByStable<T(!new)>(s: seq<T>, le: (T, T) -> bool, z: T)
    requires Transitive(le)
    ensures Equivalents(SortBy(s, le), le, z) == Equivalents(s, le, z)
  {
    if s != [] {
      SortByStable(s[1..], le, z);
      InsertStable(s[0], SortBy(s[1..], le), le, z);
    }
  }

  /** Sorting a sequence that is already in order leaves it as it is. */
  lemma {:induction false} SortBySortedIsIdentity<T>(s: seq<T>, le: (T, T) -> bool)
    requires SortedBy(s, le)
    ensures SortBy(s, le) == s
  {
    if s != [] {
      assert SortedBy(s[1..], le);
      SortBySortedIsIdentity(s[1..], le);
      if |s| > 1 {
        assert le(s[0], s[1]);
      }
      assert s == [s[0]] + s[1..];
    }
  }

  /** Sorting twice is sorting once. */
  lemma SortByIdempotent<T(!new)>(s: seq<T>, le: (T, T) -> bool)
    requires TotalPreorder(le)
    ensures SortBy(SortBy(s, le), le) == SortBy(s, le)
  {
    SortBySorted(s, le);
    SortBySortedIsIdentity(SortBy(s, le), le);
  }

  /**
   * Under an antisymmetric order there is only one sorted arrangement of a
   * multiset, so any sorted permutation is the one `sorted` returns.
   */
  lemma {:induction false} SortedPermutationUnique<T(!new)>(a: seq<T>, b: seq<T>, le: (T, T) -> bool)
    requires Antisymmetric(le)
    requires SortedBy(a, le) && SortedBy(b, le)
    requires multiset(a) == multiset(b)
    ensures a == b
  {
    assert |a| == |multiset(a)| == |multiset(b)| == |b|;
    if a != [] {
      SortedHeadsEqual(a, b, le);
      MultisetTail(a);
      MultisetTail(b);
      assert SortedBy(a[1..], le) && SortedBy(b[1..], le);
      SortedPermutationUnique(a[1..], b[1..], le);
      assert a == [a[0]] + a[1..] && b == [b[0]] + b[1..];
    }
  }

  lemma MultisetTail<T>(a: seq<T>)
    requires a != []
    ensures multiset(a[1..]) == multiset(a) - multiset{a[0]}
  {
    assert a == [a[0]] + a[1..];
  }

  /** Two sorted permutations start with the same element. */
  lemma SortedHeadsEqual<T(!new)>(a: seq<T>, b: seq<T>, le: (T, T) -> bool)
    requires Antisymmetric(le)
    requires SortedBy(a, le) && SortedBy(b, le)
    requires multiset(a) == multiset(b) && a != []
    ensures b != [] && a[0] == b[0]
  {
    assert a[0] in multiset(b);
    var j :| 0 <= j < |b| && b[j] == a[0];
    assert b[0] in multiset(a);
    var i :| 0 <= i < |a| && a[i] == b[0];
    if i > 0 && j > 0 {
      assert le(b[0], b[j]) && le(a[0], a[i]);
    }
  }

  /** Any sorted permutation of `s` is what `sorted(s)` returns. */
  lemma SortedPermutationIsSortBy<T(!new)>(s: seq<T>, r: seq<T>, le: (T, T) -> bool)
    requires TotalPreorder(le) && Antisymmetric(le)
    requires SortedBy(r, le) && multiset(r) == multiset(s)
    ensures SortBy(s, le) == r
  {
    SortBySorted(s, le);
    SortedPermutationUnique(SortBy(s, le), r, le);
  }

  /** Every two elements at different positions are related by `ok`. */
  ghost predicate Pairwise<T>(s: seq<T>, ok: (T, T) -> bool) {
    forall i, j :: 0 <= i < j < |s| ==> ok(s[i], s[j])
  }

  lemma {:induction false} InsertPairwise<T(!new)>(x: T, t: seq<T>, le: (T, T) -> bool, ok: (T, T) -> bool)
    requires forall a, b :: ok(a, b) == ok(b, a)
    requires Pairwise(t, ok)
    requires forall k :: 0 <= k < |t| ==> ok(x, t[k])
    ensures Pairwise(Insert(x, t, le), ok)
  {
    if t != [] && !le(x, t[0]) {
      var rest := Insert(x, t[1..], le);
      InsertPairwise(x, t[1..], le, ok);
      forall j | 0 <= j < |rest|
        ensures ok(t[0], rest[j])
      {
        assert rest[j] in multiset(rest);
        if rest[j] == x {
          assert ok(x, t[0]);
        } else {
          assert rest[j] in multiset(t[1..]);
          var k :| 0 <= k < |t[1..]| && t[1..][k] == rest[j];
          assert t[k + 1] == rest[j];
        }
      }
      var r := [t[0]] + rest;
      forall i, j | 0 <= i < j < |r|
        ensures ok(r[i], r[j])
      {
        if i > 0 {
          assert r[i] == rest[i - 1] && r[j] == rest[j - 1];
        } else {
          assert r[j] == rest[j - 1];
        }
      }
    }
  }

  /** A symmetric relation that held between every two elements still does after sorting. */
  lemma {:induction false} SortByPairwise<T(!new)>(s: seq<T>, le: (T, T) -> bool, ok: (T, T) -> bool)
    requires forall a, b :: ok(a, b) == ok(b, a)
    requires Pairwise(s, ok)
    ensures Pairwise(SortBy(s, le), ok)
  {
    if s != [] {
      var rest := SortBy(s[1..], le);
      SortByPairwise(s[1..], le, ok);
      forall k | 0 <= k < |rest|
        ensures ok(s[0], rest[k])
      {
        assert rest[k] in multiset(s[1..]);
        var m :| 0 <= m < |s[1..]| && s[1..][m] == rest[k];
        assert s[m + 1] == rest[k];
      }
      InsertPairwise(s[0], rest, le, ok);
    }
  }
}
