/**
 * The vote of `knn` (score.js): `_.countBy` builds an object from key to number of
 * occurrences, `_.toPairs` lists it, `_.sortBy` orders the pairs by count and `_.last`
 * picks the final one. Keys here are array-index keys (non-negative integers below
 * 2^32 - 1), which a JavaScript object lists in ascending numeric order, so the table is
 * an ascending association list.
 */
module Counting {
  import opened Wrappers
  import opened StableSort

  /** One `[key, count]` pair of the table. */
  datatype Entry = Entry(key: int, count: nat)

  ghost predicate Ascending(t: seq<Entry>)
  {
    forall i, j :: 0 <= i < j < |t| ==> t[i].key < t[j].key
  }

  ghost predicate Positive(t: seq<Entry>)
  {
    forall i :: 0 <= i < |t| ==> t[i].count > 0
  }

  /** `table[y]`, or 0 when `y` is not a key. */
  function Lookup(t: seq<Entry>, y: int): nat
  {
    if |t| == 0 then 0 else if t[0].key == y then t[0].count else Lookup(t[1..], y)
  }

  /** Count one more `x`: increment its entry, or add a new one in key order. */
  function AddKey(t: seq<Entry>, x: int): (r: seq<Entry>)
    ensures |r| > 0
  {
    if |t| == 0 then [Entry(x, 1)]
    else if t[0].key == x then [Entry(x, t[0].count + 1)] + t[1..]
    else if x < t[0].key then [Entry(x, 1)] + t
    else [t[0]] + AddKey(t[1..], x)
  }

  /** Adding a key keeps the table ordered and raises exactly that key's count by one. */
  lemma {:induction false} AddKeyCounts(t: seq<Entry>, x: int)
    requires Ascending(t) && Positive(t)
    ensures Ascending(AddKey(t, x)) && Positive(AddKey(t, x))
    ensures forall y :: Lookup(AddKey(t, x), y) == Lookup(t, y) + (if y == x then 1 else 0)
    ensures forall i :: 0 <= i < |AddKey(t, x)| ==>
      AddKey(t, x)[i].key == x || (|t| > 0 && t[0].key <= AddKey(t, x)[i].key)
  {
    if |t| == 0 {
    } else if t[0].key == x {
      assert AddKey(t, x)[1..] == t[1..];
    } else if x < t[0].key {
      LookupAbsent(t, x);
      assert AddKey(t, x)[1..] == t;
    } else {
      var rest := AddKey(t[1..], x);
      AddKeyCounts(t[1..], x);
      assert AddKey(t, x)[1..] == rest;
      forall i | 0 <= i < |rest| ensures t[0].key < rest[i].key {
        if rest[i].key != x {
          assert t[1..][0].key <= rest[i].key;
        }
      }
    }
  }

  lemma {:induction false} LookupAbsent(t: seq<Entry>, x: int)
    requires Ascending(t)
    requires |t| == 0 || x < t[0].key
    ensures Lookup(t, x) == 0
  {
    if |t| > 0 {
      LookupAbsent(t[1..], x);
    }
  }

  /** `_.countBy(keys)` followed by `_.toPairs`. */
  function CountBy(keys: seq<int>): (t: seq<Entry>)
    ensures |t| == 0 <==> |keys| == 0
  {
    if |keys| == 0 then []
    else
      var n := |keys| - 1;
      AddKey(CountBy(keys[..n]), keys[n])
  }

  /** The table lists each key once, in ascending order, with the number of its occurrences. */
  lemma {:induction false} CountByCounts(keys: seq<int>)
    ensures Ascending(CountBy(keys)) && Positive(CountBy(keys))
    ensures forall y :: Lookup(CountBy(keys), y) == multiset(keys)[y]
  {
    if |keys| > 0 {
      var n := |keys| - 1;
      assert keys == keys[..n] + [keys[n]];
      CountByCounts(keys[..n]);
      AddKeyCounts(CountBy(keys[..n]), keys[n]);
    }
  }

  function EntryCount(e: Entry): real
  {
    e.count as real
  }

  /**
   * `.sortBy((row) => row[1]).last().first()`: the key of the last pair after a stable
   * sort by count, or `None` (undefined) when the table is empty.
   */
  function Vote(t: seq<Entry>): (r: Option<int>)
    ensures |t| > 0 ==> r == Some(t[LastMaxIndex(t, EntryCount)].key)
    ensures |t| == 0 ==> r == None
  {
    if |t| == 0 then None
    else
      LastOfSortBy(t, EntryCount);
      Some(SortBy(t, EntryCount)[|t| - 1].key)
  }

  lemma {:induction false} LookupAt(t: seq<Entry>, i: nat)
    requires Ascending(t) && i < |t|
    ensures Lookup(t, t[i].key) == t[i].count
  {
    if i > 0 {
      LookupAt(t[1..], i - 1);
    }
  }

  lemma {:induction false} LookupFound(t: seq<Entry>, y: int) returns (i: nat)
    requires Lookup(t, y) > 0
    ensures i < |t| && t[i].key == y && t[i].count == Lookup(t, y)
  {
    if t[0].key == y {
      i := 0;
    } else {
      var i' := LookupFound(t[1..], y);
      i := i' + 1;
    }
  }

  /** An entry whose count no other entry exceeds, nor equals further on, beats every key. */
  lemma {:induction false} LastMaxBeats(t: seq<Entry>, j: nat, y: int)
    requires Ascending(t) && Positive(t) && j < |t|
    requires forall i :: 0 <= i < |t| ==> t[i].count <= t[j].count
    requires forall i :: j < i < |t| ==> t[i].count < t[j].count
    ensures Lookup(t, y) <= t[j].count
    ensures Lookup(t, y) == t[j].count ==> y <= t[j].key
  {
    if Lookup(t, y) > 0 {
      var i := LookupFound(t, y);
      assert t[i].count <= t[j].count;
      if i < j {
        assert t[i].key < t[j].key;
      }
    }
  }

  /**
   * The winner of a table is present, no key has a larger count, and among keys with the
   * same count it is the latest, which is the largest.
   */
  lemma VoteOfTable(t: seq<Entry>)
    requires Ascending(t) && Positive(t) && |t| > 0
    ensures Vote(t).Some?
    ensures var w := Vote(t).value;
      Lookup(t, w) > 0 &&
      (forall y :: Lookup(t, y) <= Lookup(t, w)) &&
      (forall y :: Lookup(t, y) == Lookup(t, w) ==> y <= w)
  {
    var j := LastMaxIndex(t, EntryCount);
    LookupAt(t, j);
    assert forall i :: 0 <= i < |t| ==> EntryCount(t[i]) <= EntryCount(t[j]);
    assert forall i :: j < i < |t| ==> EntryCount(t[i]) < EntryCount(t[j]);
    forall y ensures Lookup(t, y) <= t[j].count && (Lookup(t, y) == t[j].count ==> y <= t[j].key) {
      LastMaxBeats(t, j, y);
    }
  }

  /**
   * The vote over a sequence of keys picks a key that occurs, no key occurs more often,
   * and among keys that occur equally often it is the largest.
   */
  lemma VoteIsLargestMostFrequent(keys: seq<int>)
    requires |keys| > 0
    ensures Vote(CountBy(keys)).Some?
    ensures var w := Vote(CountBy(keys)).value;
      multiset(keys)[w] > 0 &&
      (forall y :: multiset(keys)[y] <= multiset(keys)[w]) &&
      (forall y :: multiset(keys)[y] == multiset(keys)[w] ==> y <= w)
  {
    CountByCounts(keys);
    VoteOfTable(CountBy(keys));
  }
}
