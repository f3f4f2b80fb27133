/**
 * One pass of `runAnalysis` (score.js) for one feature: keep that feature and the label of
 * every observation, min-max scale the feature, split off 50 test rows, and count the test
 * rows that `knn` (k = 10) labels correctly; the accuracy is that count over 50.
 */
module Analysis {
  import opened Wrappers
  import opened Lodash
  import opened MinMax
  import opened Split
  import opened Knn

  const TestSetSize: nat := 50
  const K: nat := 10

  /** `[dropPosition, bounciness, size, bucketLabel]` with an index-key label. */
  predicate IsObservation(row: seq<real>)
  {
    |row| == 4 && IsIndexLabel(row[3])
  }

  predicate Observations(outputs: seq<seq<real>>)
  {
    forall j :: 0 <= j < |outputs| ==> IsObservation(outputs[j])
  }

  /** Rows `[feature value, label]`, as the classifier receives them. */
  predicate LabelledPoints(rows: seq<seq<real>>)
  {
    forall j :: 0 <= j < |rows| ==> |rows[j]| == 2 && IsIndexLabel(rows[j][1])
  }

  /** `_.map(outputs, (row) => [row[feature], _.last(row)])` */
  function Project(outputs: seq<seq<real>>, feature: nat): (data: seq<seq<real>>)
    requires Observations(outputs) && feature < 3
    ensures |data| == |outputs| && LabelledPoints(data)
  {
    seq(|outputs|, j requires 0 <= j < |outputs| => [outputs[j][feature], Last(outputs[j])])
  }

  /** The number of `true` entries of `hits`. */
  function CountTrue(hits: seq<bool>): (n: nat)
    ensures n <= |hits|
    ensures n == |hits| <==> forall i :: 0 <= i < |hits| ==> hits[i]
    ensures n == 0 <==> forall i :: 0 <= i < |hits| ==> !hits[i]
  {
    if |hits| == 0 then 0
    else
      assert forall i :: 1 <= i < |hits| ==> hits[i] == hits[1..][i - 1];
      (if hits[0] then 1 else 0) + CountTrue(hits[1..])
  }

  /** `knn(trainingSet, _.initial(testPoint), k) === _.last(testPoint)` */
  predicate Correct(trainingSet: seq<seq<real>>, testPoint: seq<real>)
    requires LabelledPoints(trainingSet) && |testPoint| == 2
  {
    Knn.Knn(trainingSet, Initial(testPoint), K) == Some(Last(testPoint))
  }

  /** Whether `knn` labels each test row correctly, in test order. */
  function Hits(testSet: seq<seq<real>>, trainingSet: seq<seq<real>>): (hits: seq<bool>)
    requires LabelledPoints(testSet) && LabelledPoints(trainingSet)
    ensures |hits| == |testSet|
  {
    if |testSet| == 0 then []
    else [Correct(trainingSet, testSet[0])] + Hits(testSet[1..], trainingSet)
  }

  lemma {:induction false} HitsAt(testSet: seq<seq<real>>, trainingSet: seq<seq<real>>, i: nat)
    requires LabelledPoints(testSet) && LabelledPoints(trainingSet) && i < |testSet|
    ensures Hits(testSet, trainingSet)[i] == Correct(trainingSet, testSet[i])
  {
    if i > 0 {
      HitsAt(testSet[1..], trainingSet, i - 1);
    }
  }

  /** `_.chain(testSet).filter(...).size()`: the number of correctly labelled test rows. */
  function CountCorrect(testSet: seq<seq<real>>, trainingSet: seq<seq<real>>): (n: nat)
    requires LabelledPoints(testSet) && LabelledPoints(trainingSet)
    ensures n <= |testSet|
  {
    CountTrue(Hits(testSet, trainingSet))
  }

  /** All test rows count exactly when each is labelled correctly, none when none is. */
  lemma CountCorrectExtremes(testSet: seq<seq<real>>, trainingSet: seq<seq<real>>)
    requires LabelledPoints(testSet) && LabelledPoints(trainingSet)
    ensures CountCorrect(testSet, trainingSet) == |testSet| <==>
      forall i :: 0 <= i < |testSet| ==> Correct(trainingSet, testSet[i])
    ensures CountCorrect(testSet, trainingSet) == 0 <==>
      forall i :: 0 <= i < |testSet| ==> !Correct(trainingSet, testSet[i])
  {
    var hits := Hits(testSet, trainingSet);
    forall i | 0 <= i < |testSet| ensures hits[i] == Correct(trainingSet, testSet[i]) {
      HitsAt(testSet, trainingSet, i);
    }
  }

  lemma LabelledPointsFrom(rows: seq<seq<real>>, data: seq<seq<real>>)
    requires LabelledPoints(data)
    requires forall x :: x in rows ==> x in data
    ensures LabelledPoints(rows)
  {
    forall j | 0 <= j < |rows| ensures |rows[j]| == 2 && IsIndexLabel(rows[j][1]) {
      assert rows[j] in data;
    }
  }

  /** With an empty training set `knn` gives `NaN`, which equals no label. */
  lemma NoTrainingNoneCorrect(testSet: seq<seq<real>>, trainingSet: seq<seq<real>>)
    requires LabelledPoints(testSet) && LabelledPoints(trainingSet)
    ensures |trainingSet| == 0 ==> forall i :: 0 <= i < |testSet| ==> !Correct(trainingSet, testSet[i])
  {
    if |trainingSet| == 0 {
      forall i | 0 <= i < |testSet| ensures !Correct(trainingSet, testSet[i]) {
        KnnDefined(trainingSet, Initial(testSet[i]), K);
      }
    }
  }

  /** The test and training sets of one feature, after scaling and splitting. */
  function Sets(outputs: seq<seq<real>>, feature: nat, perm: seq<nat>): (r: Parts<seq<real>>)
    requires Observations(outputs) && feature < 3
    requires NonDegenerate(Project(outputs, feature), 1)
    requires IsPermutation(perm, |outputs|)
    ensures LabelledPoints(r.testSet) && LabelledPoints(r.trainingSet)
    ensures |r.testSet| == Min(TestSetSize, |outputs|)
    ensures |r.trainingSet| == |outputs| - |r.testSet|
  {
    var data := Normalized(Project(outputs, feature), 1);
    assert LabelledPoints(data);
    SplitRowsComeFromData(data, perm, TestSetSize);
    var r := SplitDataSet(data, perm, TestSetSize);
    LabelledPointsFrom(r.testSet, data);
    LabelledPointsFrom(r.trainingSet, data);
    r
  }

  /**
   * The accuracy `runAnalysis` reports for `feature` when `_.shuffle` draws `perm`. It is
   * a share of the fixed 50, not of the test set, so fewer than 50 observations cap it below
   * 1; it is 1 exactly when 50 test rows are all labelled correctly, and with no training
   * row left every `knn` is `NaN`, so it is 0.
   */
  function Accuracy(outputs: seq<seq<real>>, feature: nat, perm: seq<nat>): (a: real)
    requires Observations(outputs) && feature < 3
    requires NonDegenerate(Project(outputs, feature), 1)
    requires IsPermutation(perm, |outputs|)
    ensures 0.0 <= a <= Min(|outputs|, TestSetSize) as real / TestSetSize as real <= 1.0
    ensures |outputs| <= TestSetSize ==> a == 0.0
  {
    var s := Sets(outputs, feature, perm);
    NoTrainingNoneCorrect(s.testSet, s.trainingSet);
    CountCorrectExtremes(s.testSet, s.trainingSet);
    CountCorrect(s.testSet, s.trainingSet) as real / TestSetSize as real
  }

  /**
   * What `runAnalysis` reports for features `0 .. n-1`, in that order, feature `f` being
   * shuffled by `perms[f]`.
   */
  function Accuracies(outputs: seq<seq<real>>, perms: seq<seq<nat>>, n: nat): (r: seq<real>)
    requires Observations(outputs) && n <= 3 && n <= |perms|
    requires forall f :: 0 <= f < n ==> IsPermutation(perms[f], |outputs|)
    requires forall f :: 0 <= f < n ==> NonDegenerate(Project(outputs, f), 1)
    ensures |r| == n
    ensures forall f :: 0 <= f < n ==> 0.0 <= r[f] <= 1.0
  {
    if n == 0 then []
    else Accuracies(outputs, perms, n - 1) + [Accuracy(outputs, n - 1, perms[n - 1])]
  }

  /** A perfect score needs a full test set of 50 rows, every one labelled correctly. */
  lemma AccuracyIsPerfectIffAllCorrect(outputs: seq<seq<real>>, feature: nat, perm: seq<nat>)
    requires Observations(outputs) && feature < 3
    requires NonDegenerate(Project(outputs, feature), 1)
    requires IsPermutation(perm, |outputs|)
    ensures var s := Sets(outputs, feature, perm);
      Accuracy(outputs, feature, perm) == 1.0 <==>
        |outputs| >= TestSetSize && forall i :: 0 <= i < |s.testSet| ==> Correct(s.trainingSet, s.testSet[i])
  {
    var s := Sets(outputs, feature, perm);
    var n := CountCorrect(s.testSet, s.trainingSet);
    CountCorrectExtremes(s.testSet, s.trainingSet);
    assert Accuracy(outputs, feature, perm) == n as real / TestSetSize as real;
  }
}
