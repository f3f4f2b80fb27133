/**
 * The module-level state of score.js: the `outputs` log that `onScoreUpdate` appends to and
 * `runAnalysis` reads.
 */
module Score {
  import opened Split
  import opened MinMax
  import opened Analysis
  import opened Knn

  class ScoreLog {
    /** `outputs`: one `[dropPosition, bounciness, size, bucketLabel]` row per event. */
    var outputs: seq<seq<real>>

    /** Every recorded row has the four values of one event. */
    ghost predicate Valid()
      reads this
    {
      forall j :: 0 <= j < |outputs| ==> |outputs[j]| == 4
    }

    /** `const outputs = []` */
    constructor ()
      ensures Valid() && outputs == []
    {
      outputs := [];
    }

    /** `onScoreUpdate`: append the event's row at the end, earlier rows untouched. */
    method OnScoreUpdate(dropPosition: real, bounciness: real, size: real, bucketLabel: real)
      requires Valid()
      modifies this
      ensures Valid()
      ensures outputs == old(outputs) + [[dropPosition, bounciness, size, bucketLabel]]
    {
      outputs := outputs + [[dropPosition, bounciness, size, bucketLabel]];
    }

    /**
     * `runAnalysis`: the accuracy of each of the three features in turn, the shuffle of
     * feature `f` being `perms[f]`. The source prints each one; here they are returned.
     */
    method RunAnalysis(perms: seq<seq<nat>>) returns (accuracies: seq<real>)
      requires Valid() && forall j :: 0 <= j < |outputs| ==> IsIndexLabel(outputs[j][3])
      requires |perms| == 3
      requires forall f :: 0 <= f < 3 ==> IsPermutation(perms[f], |outputs|)
      requires forall f :: 0 <= f < 3 ==> NonDegenerate(Project(outputs, f), 1)
      ensures accuracies == Accuracies(outputs, perms, 3)
      ensures |accuracies| == 3 && forall f :: 0 <= f < 3 ==> 0.0 <= accuracies[f] <= 1.0
    {
      accuracies := [];
      for feature := 0 to 3
        invariant accuracies == Accuracies(outputs, perms, feature)
      {
        var accuracy := Accuracy(outputs, feature, perms[feature]);
        accuracies := accuracies + [accuracy];
      }
    }
  }
}
