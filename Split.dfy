/**
 * `splitDataSet(data, testCount)` (score.js): shuffle, then cut into a test set (the first
 * `testCount` rows) and a training set (the rest). The random permutation `_.shuffle`
 * draws is a parameter.
 */
module Split {
  import opened Lodash

  /** `perm` lists each index below `n` exactly once. */
  predicate IsPermutation(perm: seq<nat>, n: nat)
  {
    |perm| == n &&
    (forall i :: 0 <= i < n ==> perm[i] < n) &&
    (forall i, j :: 0 <= i < j < n ==> perm[i] != perm[j])
  }

  /** `_.shuffle(data)` when the shuffle moves `data[perm[i]]` to position `i`. */
  function Shuffle<T>(data: seq<T>, perm: seq<nat>): (r: seq<T>)
    requires IsPermutation(perm, |data|)
    ensures |r| == |data|
  {
    seq(|data|, i requires 0 <= i < |data| => data[perm[i]])
  }

  /** `perm` without its last entry `q`, the indices above `q` moved down by one. */
  function DropLast(perm: seq<nat>, n: nat): (r: seq<nat>)
    requires IsPermutation(perm, n) && n > 0
    ensures IsPermutation(r, n - 1)
  {
    var q := perm[n - 1];
    var r := seq(n - 1, i requires 0 <= i < n - 1 => if perm[i] < q then perm[i] else perm[i] - 1);
    forall i | 0 <= i < n - 1 ensures r[i] < n - 1 {
      assert perm[i] != q;
    }
    forall i, j | 0 <= i < j < n - 1 ensures r[i] != r[j] {
      assert perm[i] != perm[j] && perm[i] != q && perm[j] != q;
    }
    r
  }

  /** Shuffling is shuffling the other rows, then placing row `perm[n - 1]` last. */
  lemma ShuffleDropLast<T>(data: seq<T>, perm: seq<nat>)
    requires IsPermutation(perm, |data|) && |data| > 0
    ensures var q := perm[|data| - 1];
      Shuffle(data, perm) == Shuffle(data[..q] + data[q + 1..], DropLast(perm, |data|)) + [data[q]]
  {
    var n, q := |data|, perm[|data| - 1];
    var data', perm' := data[..q] + data[q + 1..], DropLast(perm, n);
    forall i | 0 <= i < n - 1 ensures Shuffle(data, perm)[i] == Shuffle(data', perm')[i] {
      assert perm[i] != q;
    }
  }

  /** Shuffling only reorders: the multiset of rows is unchanged. */
  lemma {:induction false} ShuffleIsPermutation<T>(data: seq<T>, perm: seq<nat>)
    requires IsPermutation(perm, |data|)
    ensures multiset(Shuffle(data, perm)) == multiset(data)
    decreases |data|
  {
    var n := |data|;
    if n > 0 {
      var q := perm[n - 1];
      var data', perm' := data[..q] + data[q + 1..], DropLast(perm, n);
      ShuffleIsPermutation(data', perm');
      ShuffleDropLast(data, perm);
      RemoveOne(data, q);
      assert multiset(Shuffle(data, perm)) == multiset(Shuffle(data', perm')) + multiset{data[q]};
    }
  }

  lemma RemoveOne<T>(data: seq<T>, q: nat)
    requires q < |data|
    ensures multiset(data) == multiset(data[..q] + data[q + 1..]) + multiset{data[q]}
  {
    var before, after := data[..q], data[q + 1..];
    assert data == before + [data[q]] + after;
  }

  datatype Parts<T> = Parts(testSet: seq<T>, trainingSet: seq<T>)

  /**
   * `[_.slice(shuffled, 0, testCount), _.slice(shuffled, testCount)]`: the test set takes
   * the first `testCount` shuffled rows, or all of them when there are fewer.
   */
  function SplitDataSet<T>(data: seq<T>, perm: seq<nat>, testCount: nat): (r: Parts<T>)
    requires IsPermutation(perm, |data|)
    ensures |r.testSet| == Min(testCount, |data|)
    ensures |r.trainingSet| == |data| - Min(testCount, |data|)
    ensures r.testSet + r.trainingSet == Shuffle(data, perm)
    ensures multiset(r.testSet) + multiset(r.trainingSet) == multiset(data)
  {
    var shuffled := Shuffle(data, perm);
    var r := Parts(Slice(shuffled, 0, testCount), Slice(shuffled, testCount, |shuffled|));
    assert r.testSet + r.trainingSet == shuffled;
    ShuffleIsPermutation(data, perm);
    r
  }

  /** Every row of either part is a row of the input. */
  lemma SplitRowsComeFromData<T>(data: seq<T>, perm: seq<nat>, testCount: nat)
    requires IsPermutation(perm, |data|)
    ensures var r := SplitDataSet(data, perm, testCount);
      (forall x :: x in r.testSet ==> x in data) && (forall x :: x in r.trainingSet ==> x in data)
  {
    var r := SplitDataSet(data, perm, testCount);
    forall x | x in r.testSet ensures x in data {
      assert x in multiset(data);
    }
    forall x | x in r.trainingSet ensures x in data {
      assert x in multiset(data);
    }
  }
}
