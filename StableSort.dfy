/**
 * lodash `_.sortBy` with a single iteratee: a stable ascending sort by a numeric key.
 * Modelled as insertion sort, where an element is placed before the first element whose
 * key is at least its own, so that equal keys keep their input order.
 */
module StableSort {

  ghost predicate SortedBy<T>(s: seq<T>, key: T -> real)
  {
    forall i, j :: 0 <= i < j < |s| ==> key(s[i]) <= key(s[j])
  }

  function Insert<T>(x: T, s: seq<T>, key: T -> real): (r: seq<T>)
    ensures |r| == |s| + 1
  {
    if |s| == 0 then [x]
    else if key(x) <= key(s[0]) then [x] + s
    else [s[0]] + Insert(x, s[1..], key)
  }

  lemma {:induction false} InsertPermutes<T>(x: T, s: seq<T>, key: T -> real)
    ensures multiset(Insert(x, s, key)) == multiset(s) + multiset{x}
  {
    if |s| > 0 && key(x) > key(s[0]) {
      InsertPermutes(x, s[1..], key);
      assert s == [s[0]] + s[1..];
    }
  }

  /** Whatever bounds `x` and every element of `s` from below bounds every element of the insertion. */
  lemma {:induction false} InsertAbove<T>(b: real, x: T, s: seq<T>, key: T -> real)
    requires b <= key(x)
    requires forall i :: 0 <= i < |s| ==> b <= key(s[i])
    ensures forall i :: 0 <= i < |Insert(x, s, key)| ==> b <= key(Insert(x, s, key)[i])
  {
    if |s| > 0 && key(x) > key(s[0]) {
      InsertAbove(b, x, s[1..], key);
    }
  }

  lemma {:induction false} InsertSorted<T>(x: T, s: seq<T>, key: T -> real)
    requires SortedBy(s, key)
    ensures SortedBy(Insert(x, s, key), key)
  {
    if |s| > 0 && key(x) > key(s[0]) {
      var rest := Insert(x, s[1..], key);
      InsertSorted(x, s[1..], key);
      InsertAbove(key(s[0]), x, s[1..], key);
      var r := [s[0]] + rest;
      assert r == Insert(x, s, key);
      forall i, j | 0 <= i < j < |r| ensures key(r[i]) <= key(r[j]) {
        assert r[j] == rest[j - 1];
        if i > 0 {
          assert r[i] == rest[i - 1];
        }
      }
    }
  }

  /** In a sorted sequence, nothing before position `m` has a larger key than anything after. */
  lemma SortedSplit<T>(s: seq<T>, key: T -> real, m: nat)
    requires SortedBy(s, key) && m <= |s|
    ensures forall a, b :: a in s[..m] && b in s[m..] ==> key(a) <= key(b)
  {
    forall a, b | a in s[..m] && b in s[m..] ensures key(a) <= key(b) {
      var i :| 0 <= i < m && s[..m][i] == a;
      var i' :| 0 <= i' < |s| - m && s[m..][i'] == b;
      assert s[i] == a && s[m + i'] == b;
    }
  }

  /** `_.sortBy(s, key)` */
  function SortBy<T>(s: seq<T>, key: T -> real): (r: seq<T>)
    ensures |r| == |s|
    ensures multiset(r) == multiset(s)
    ensures SortedBy(r, key)
  {
    if |s| == 0 then []
    else
      assert s == [s[0]] + s[1..];
      InsertSorted(s[0], SortBy(s[1..], key), key);
      InsertPermutes(s[0], SortBy(s[1..], key), key);
      Insert(s[0], SortBy(s[1..], key), key)
  }

  /** The subsequence of the elements of `s` whose key is `v`, in their order in `s`. */
  function WithKey<T>(s: seq<T>, key: T -> real, v: real): seq<T>
  {
    if |s| == 0 then []
    else (if key(s[0]) == v then [s[0]] else []) + WithKey(s[1..], key, v)
  }

  lemma {:induction false} WithKeyAppend<T>(a: seq<T>, b: seq<T>, key: T -> real, v: real)
    ensures WithKey(a + b, key, v) == WithKey(a, key, v) + WithKey(b, key, v)
  {
    if |a| > 0 {
      assert (a + b)[1..] == a[1..] + b;
      WithKeyAppend(a[1..], b, key, v);
    } else {
      assert a + b == b;
    }
  }

  lemma {:induction false} InsertWithKey<T>(x: T, s: seq<T>, key: T -> real, v: real)
    ensures WithKey(Insert(x, s, key), key, v)
         == (if key(x) == v then [x] else []) + WithKey(s, key, v)
  {
    if |s| == 0 {
    } else if key(x) <= key(s[0]) {
      assert ([x] + s)[1..] == s;
    } else {
      var rest := Insert(x, s[1..], key);
      var tail := WithKey(s[1..], key, v);
      InsertWithKey(x, s[1..], key, v);
      assert ([s[0]] + rest)[1..] == rest;
      assert WithKey(Insert(x, s, key), key, v)
          == (if key(s[0]) == v then [s[0]] else []) + WithKey(rest, key, v);
      // `x` goes after `s[0]`, whose key is smaller, so at most one of them has key `v`.
      if key(x) == v {
        assert WithKey(rest, key, v) == [x] + tail;
        assert WithKey(s, key, v) == tail;
      } else {
        assert WithKey(rest, key, v) == tail;
      }
    }
  }

  /** Stability: for every key, the elements carrying it keep their relative order. */
  lemma {:induction false} SortByIsStable<T>(s: seq<T>, key: T -> real, v: real)
    ensures WithKey(SortBy(s, key), key, v) == WithKey(s, key, v)
  {
    if |s| > 0 {
      SortByIsStable(s[1..], key, v);
      InsertWithKey(s[0], SortBy(s[1..], key), key, v);
    }
  }

  /** Cutting a sorted sequence keeps, for every key, a prefix of the elements carrying it. */
  lemma SortedPrefixIsStable<T>(s: seq<T>, key: T -> real, m: nat)
    requires m <= |s|
    ensures forall v :: WithKey(SortBy(s, key)[..m], key, v) <= WithKey(s, key, v)
  {
    var sorted := SortBy(s, key);
    assert sorted == sorted[..m] + sorted[m..];
    forall v ensures WithKey(sorted[..m], key, v) <= WithKey(s, key, v) {
      SortByIsStable(s, key, v);
      WithKeyAppend(sorted[..m], sorted[m..], key, v);
    }
  }

  /** The index of the last element of `s` whose key is maximal. */
  function LastMaxIndex<T>(s: seq<T>, key: T -> real): (j: nat)
    requires |s| > 0
    ensures j < |s|
    ensures forall i :: 0 <= i < |s| ==> key(s[i]) <= key(s[j])
    ensures forall i :: j < i < |s| ==> key(s[i]) < key(s[j])
  {
    if |s| == 1 then 0
    else
      var j := 1 + LastMaxIndex(s[1..], key);
      assert forall i :: 1 <= i < |s| ==> s[i] == s[1..][i - 1];
      if key(s[0]) > key(s[j]) then 0 else j
  }

  lemma {:induction false} InsertLast<T>(x: T, s: seq<T>, key: T -> real)
    requires |s| > 0 && SortedBy(s, key)
    ensures var r := Insert(x, s, key);
      r[|r| - 1] == if key(x) > key(s[|s| - 1]) then x else s[|s| - 1]
  {
    if |s| > 1 && key(x) > key(s[0]) {
      InsertLast(x, s[1..], key);
    }
  }

  /** `_.sortBy(s, key)` followed by `_.last`: the last element with the largest key. */
  lemma {:induction false} LastOfSortBy<T>(s: seq<T>, key: T -> real)
    requires |s| > 0
    ensures SortBy(s, key)[|s| - 1] == s[LastMaxIndex(s, key)]
  {
    if |s| > 1 {
      LastOfSortBy(s[1..], key);
      InsertLast(s[0], SortBy(s[1..], key), key);
    }
  }

  /** The sequence of `f` applied to each element (lodash `_.map`). */
  function Image<T, U>(s: seq<T>, f: T -> U): (r: seq<U>)
    ensures |r| == |s|
    ensures forall i :: 0 <= i < |s| ==> r[i] == f(s[i])
  {
    seq(|s|, i requires 0 <= i < |s| => f(s[i]))
  }

  lemma {:induction false} InsertKeepsImage<T, U>(x: T, s: seq<T>, key: T -> real, f: T -> U)
    ensures multiset(Image(Insert(x, s, key), f)) == multiset(Image(s, f)) + multiset{f(x)}
  {
    if |s| == 0 {
    } else if key(x) <= key(s[0]) {
      assert Image([x] + s, f) == [f(x)] + Image(s, f);
    } else {
      var rest := Insert(x, s[1..], key);
      InsertKeepsImage(x, s[1..], key, f);
      assert Image([s[0]] + rest, f) == [f(s[0])] + Image(rest, f);
      assert Image(s, f) == [f(s[0])] + Image(s[1..], f);
    }
  }

  /** Sorting permutes the elements, so it permutes any projection of them as well. */
  lemma {:induction false} SortByKeepsImage<T, U>(s: seq<T>, key: T -> real, f: T -> U)
    ensures multiset(Image(SortBy(s, key), f)) == multiset(Image(s, f))
  {
    if |s| > 0 {
      SortByKeepsImage(s[1..], key, f);
      InsertKeepsImage(s[0], SortBy(s[1..], key), key, f);
      assert Image(s, f) == [f(s[0])] + Image(s[1..], f);
    }
  }

  /** Sorting depends only on how the keys of its elements compare. */
  lemma {:induction false} SortBySameOrder<T>(s: seq<T>, key: T -> real, key': T -> real)
    requires forall a, b :: a in s && b in s ==> (key(a) <= key(b) <==> key'(a) <= key'(b))
    ensures SortBy(s, key) == SortBy(s, key')
  {
    if |s| > 0 {
      SortBySameOrder(s[1..], key, key');
      var t := SortBy(s[1..], key);
      forall y | y in t ensures y in s {
        assert y in multiset(s[1..]);
      }
      InsertSameOrder(s[0], t, key, key');
    }
  }

  lemma {:induction false} InsertSameOrder<T>(x: T, s: seq<T>, key: T -> real, key': T -> real)
    requires forall b :: b in s ==> (key(x) <= key(b) <==> key'(x) <= key'(b))
    ensures Insert(x, s, key) == Insert(x, s, key')
  {
    if |s| > 0 && !(key(x) <= key(s[0])) {
      InsertSameOrder(x, s[1..], key, key');
    }
  }
}
