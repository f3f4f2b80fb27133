/** The lodash array helpers score.js uses, on sequences. */
module Lodash {

  function Min(a: int, b: int): int
  {
    if a <= b then a else b
  }

  /**
   * `_.slice(s, start, end)` for non-negative bounds: `end` is clamped to the length and a
   * start past the end gives the empty slice.
   */
  function Slice<T>(s: seq<T>, start: nat, end: nat): (r: seq<T>)
    ensures |r| == if start <= Min(end, |s|) then Min(end, |s|) - start else 0
    ensures start <= Min(end, |s|) ==> r == s[start..Min(end, |s|)]
  {
    var e := Min(end, |s|);
    if start <= e then s[start..e] else []
  }

  /** Cutting at any `k` and slicing both sides gives back the whole sequence. */
  lemma SliceSplits<T>(s: seq<T>, k: nat)
    ensures Slice(s, 0, k) + Slice(s, k, |s|) == s
  {
    if k > |s| {
      assert Slice(s, 0, k) == s;
    }
  }

  /** `_.initial(row)`: every element but the last. */
  function Initial<T>(row: seq<T>): (r: seq<T>)
    requires |row| > 0
    ensures r + [Last(row)] == row
  {
    row[..|row| - 1]
  }

  /** `_.last(row)` of a non-empty row. */
  function Last<T>(row: seq<T>): (x: T)
    requires |row| > 0
    ensures x in row
  {
    row[|row| - 1]
  }
}
