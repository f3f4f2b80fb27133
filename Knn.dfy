/**
 * `knn(data, point, k)` (score.js): pair every training row with its distance to `point`,
 * stable-sort by distance, keep the first `k`, count the labels, stable-sort the counts and
 * return the key of the last one, converted back with `parseInt`.
 */
module Knn {
  import opened Wrappers
  import opened Lodash
  import opened StableSort
  import opened Distance
  import opened Counting
  import opened NumberKeys

  type Row = seq<real>

  /** `[distance(_.initial(row), point), _.last(row)]`, with the squared distance. */
  datatype Neighbour = Neighbour(dist: real, bucket: real)

  function Dist(n: Neighbour): real
  {
    n.dist
  }

  function LabelOf(n: Neighbour): real
  {
    n.bucket
  }

  /** Keys from 0 up to 2^32 - 2 are the array-index keys of a JavaScript object. */
  const IndexKeyLimit: int := 0xFFFF_FFFF

  /**
   * A label that `String` writes as an array-index key: an object lists such keys in
   * ascending numeric order, and `parseInt` reads them back exactly.
   */
  predicate IsIndexLabel(l: real)
  {
    l == l.Floor as real && 0 <= l.Floor < IndexKeyLimit
  }

  /** Every training row has the query's coordinates followed by a label. */
  predicate Conforms(data: seq<Row>, point: Row)
  {
    forall j :: 0 <= j < |data| ==> |data[j]| == |point| + 1
  }

  predicate IndexLabels(data: seq<Row>)
  {
    forall j :: 0 <= j < |data| ==> |data[j]| > 0 && IsIndexLabel(Last(data[j]))
  }

  /** `_.map(data, (row) => [distance(_.initial(row), point), _.last(row)])` */
  function Neighbours(data: seq<Row>, point: Row): (ns: seq<Neighbour>)
    requires Conforms(data, point)
    ensures |ns| == |data|
  {
    seq(|data|, j requires 0 <= j < |data| => Neighbour(SqDist(Initial(data[j]), point), Last(data[j])))
  }

  /** `.sortBy((row) => row[0]).slice(0, k)`: the neighbours that vote. */
  function Nearest(data: seq<Row>, point: Row, k: nat): (voters: seq<Neighbour>)
    requires Conforms(data, point)
    ensures |voters| == Min(k, |data|)
  {
    Slice(SortBy(Neighbours(data, point), Dist), 0, k)
  }

  /** The numeric value of the key `String(l)` under which `_.countBy` files label `l`. */
  function LabelKey(l: real): int
  {
    l.Floor
  }

  /**
   * The label `knn` returns, or `None` where the source returns `NaN` (no training row or
   * `k == 0`: `parseInt(undefined)`). `None` equals no label, as `NaN` equals no number.
   */
  function Knn(data: seq<Row>, point: Row, k: nat): (r: Option<real>)
    requires Conforms(data, point) && IndexLabels(data)
    ensures |data| == 0 || k == 0 ==> r == None
  {
    var labels := Image(Nearest(data, point, k), LabelOf);
    match Vote(CountBy(Image(labels, LabelKey)))
    case None => None
    case Some(key) =>
      match ParseInt(KeyString(key))
      case None => None
      case Some(v) => Some(v as real)
  }

  /**
   * `r` wins a vote over `labels`: it occurs, no label occurs more often, and among the
   * labels that occur as often it is the largest.
   */
  ghost predicate IsVoteWinner(labels: seq<real>, r: real)
  {
    r in labels &&
    (forall l :: l in labels ==> multiset(labels)[l] <= multiset(labels)[r]) &&
    (forall l :: l in labels && multiset(labels)[l] == multiset(labels)[r] ==> l <= r)
  }

  /** A vote has one winner, and it depends only on how often each label occurs. */
  lemma WinnerIsUnique(labels: seq<real>, labels': seq<real>, r: real, r': real)
    requires multiset(labels) == multiset(labels')
    requires IsVoteWinner(labels, r) && IsVoteWinner(labels', r')
    ensures r == r'
  {
    assert r in multiset(labels') && r' in multiset(labels);
  }

  /**
   * The voters are the `min(k, |data|)` nearest rows: none is farther than a row left out,
   * together with the rows left out they are all the rows, and among rows at the same
   * distance the voters are the first ones in training order.
   */
  lemma NearestAreClosest(data: seq<Row>, point: Row, k: nat)
    requires Conforms(data, point)
    ensures var ns := Neighbours(data, point);
      var sorted := SortBy(ns, Dist);
      var m := Min(k, |data|);
      var voters, others := Nearest(data, point, k), sorted[m..];
      |voters| == m &&
      multiset(voters) + multiset(others) == multiset(ns) &&
      (forall a, b :: a in voters && b in others ==> a.dist <= b.dist) &&
      (forall d :: WithKey(voters, Dist, d) <= WithKey(ns, Dist, d))
  {
    var ns := Neighbours(data, point);
    var m := Min(k, |data|);
    var sorted := SortBy(ns, Dist);
    assert Nearest(data, point, k) == sorted[..m];
    assert sorted == sorted[..m] + sorted[m..];
    SortedSplit(sorted, Dist, m);
    SortedPrefixIsStable(ns, Dist, m);
  }

  /**
   * Sorting by the Euclidean distance (`** 0.5` of the squared distance) orders the rows
   * exactly as sorting by the squared distance does.
   */
  lemma SquaredDistanceSortsAlike(data: seq<Row>, point: Row, root: Neighbour -> real)
    requires Conforms(data, point)
    requires forall n :: n in Neighbours(data, point) ==> IsRoot(n.dist, root(n))
    ensures SortBy(Neighbours(data, point), Dist) == SortBy(Neighbours(data, point), root)
  {
    var ns := Neighbours(data, point);
    forall a, b | a in ns && b in ns ensures Dist(a) <= Dist(b) <==> root(a) <= root(b) {
      RootPreservesOrder(a.dist, b.dist, root(a), root(b));
    }
    SortBySameOrder(ns, Dist, root);
  }

  /** Every voter carries the label of some training row. */
  lemma VoterLabels(data: seq<Row>, point: Row, k: nat)
    requires Conforms(data, point) && IndexLabels(data)
    ensures forall l :: l in Image(Nearest(data, point, k), LabelOf) ==>
      IsIndexLabel(l) && exists j :: 0 <= j < |data| && l == Last(data[j])
  {
    var ns := Neighbours(data, point);
    var voters := Nearest(data, point, k);
    forall l | l in Image(voters, LabelOf)
      ensures IsIndexLabel(l) && exists j :: 0 <= j < |data| && l == Last(data[j])
    {
      var i :| 0 <= i < |voters| && voters[i].bucket == l;
      assert voters[i] in multiset(SortBy(ns, Dist));
      var j :| 0 <= j < |ns| && ns[j] == voters[i];
    }
  }

  /** On index labels, counting keys is counting labels. */
  lemma {:induction false} KeyCounts(labels: seq<real>)
    requires forall l :: l in labels ==> IsIndexLabel(l)
    ensures forall l :: IsIndexLabel(l) ==>
      multiset(Image(labels, LabelKey))[LabelKey(l)] == multiset(labels)[l]
  {
    if |labels| > 0 {
      var head, tail := labels[0], labels[1..];
      KeyCounts(tail);
      assert labels == [head] + tail;
      assert Image(labels, LabelKey) == [LabelKey(head)] + Image(tail, LabelKey);
      var keys, tailKeys := Image(labels, LabelKey), Image(tail, LabelKey);
      assert multiset(keys) == multiset{LabelKey(head)} + multiset(tailKeys);
      assert multiset(labels) == multiset{head} + multiset(tail);
      forall l | IsIndexLabel(l) ensures multiset(keys)[LabelKey(l)] == multiset(labels)[l] {
        assert head in labels;
        // Distinct index labels have distinct keys.
        assert LabelKey(head) == LabelKey(l) <==> head == l;
        assert multiset(tailKeys)[LabelKey(l)] == multiset(tail)[l];
      }
    }
  }

  /** Every key is the key of a label, and that label is the key's own value. */
  lemma KeysAreLabels(labels: seq<real>, y: int)
    requires forall l :: l in labels ==> IsIndexLabel(l)
    requires y in Image(labels, LabelKey)
    ensures y as real in labels
  {
    var i :| 0 <= i < |labels| && Image(labels, LabelKey)[i] == y;
    assert labels[i] in labels;
  }

  /** `knn` answers a label exactly when someone votes. */
  lemma KnnDefined(data: seq<Row>, point: Row, k: nat)
    requires Conforms(data, point) && IndexLabels(data)
    ensures Knn(data, point, k).Some? <==> |data| > 0 && k > 0
  {
    var keys := Image(Image(Nearest(data, point, k), LabelOf), LabelKey);
    if |keys| > 0 {
      VoteIsLargestMostFrequent(keys);
      ParseIntKeyString(Vote(CountBy(keys)).value);
    }
  }

  /**
   * The majority vote: `knn` returns a label of one of the voters, no label has more votes,
   * and ties go to the largest label, the last in the count table's key order.
   */
  lemma KnnIsMajorityVote(data: seq<Row>, point: Row, k: nat)
    requires Conforms(data, point) && IndexLabels(data)
    requires |data| > 0 && k > 0
    ensures Knn(data, point, k).Some?
    ensures IsVoteWinner(Image(Nearest(data, point, k), LabelOf), Knn(data, point, k).value)
  {
    var labels := Image(Nearest(data, point, k), LabelOf);
    var keys := Image(labels, LabelKey);
    VoterLabels(data, point, k);
    KeyCounts(labels);
    VoteIsLargestMostFrequent(keys);
    var w := Vote(CountBy(keys)).value;
    ParseIntKeyString(w);
    var r := w as real;
    assert Knn(data, point, k) == Some(r);
    assert w in multiset(keys);
    KeysAreLabels(labels, w);
    assert LabelKey(r) == w;
    forall l | l in labels
      ensures multiset(labels)[l] <= multiset(labels)[r]
      ensures multiset(labels)[l] == multiset(labels)[r] ==> l <= r
    {
      assert multiset(labels)[l] == multiset(keys)[LabelKey(l)];
    }
  }

  /** The labels of the training rows, in training order. */
  function Labels(data: seq<Row>): (ls: seq<real>)
    requires IndexLabels(data)
    ensures |ls| == |data|
    ensures forall j :: 0 <= j < |data| ==> ls[j] == Last(data[j])
  {
    seq(|data|, j requires 0 <= j < |data| => Last(data[j]))
  }

  /** When `k` reaches the number of rows, every row votes once. */
  lemma AllRowsVote(data: seq<Row>, point: Row, k: nat)
    requires Conforms(data, point) && IndexLabels(data)
    requires k >= |data|
    ensures multiset(Image(Nearest(data, point, k), LabelOf)) == multiset(Labels(data))
  {
    var ns := Neighbours(data, point);
    assert Image(ns, LabelOf) == Labels(data);
    SortByKeepsImage(ns, Dist, LabelOf);
    assert Nearest(data, point, k) == SortBy(ns, Dist);
  }

  /** Whether a label wins depends only on how many votes each label has. */
  lemma WinnerOfSameVotes(labels: seq<real>, labels': seq<real>, r: real)
    requires multiset(labels) == multiset(labels')
    requires IsVoteWinner(labels, r)
    ensures IsVoteWinner(labels', r)
  {
    assert r in multiset(labels);
    forall l | l in labels' ensures l in labels {
      assert l in multiset(labels');
    }
  }

  /** When every row votes, `knn` returns the majority label of the whole training set. */
  lemma KnnAllVoteIsTrainingMajority(data: seq<Row>, point: Row, k: nat)
    requires Conforms(data, point) && IndexLabels(data)
    requires k >= |data| > 0
    ensures Knn(data, point, k).Some?
    ensures IsVoteWinner(Labels(data), Knn(data, point, k).value)
  {
    KnnIsMajorityVote(data, point, k);
    AllRowsVote(data, point, k);
    WinnerOfSameVotes(Image(Nearest(data, point, k), LabelOf), Labels(data), Knn(data, point, k).value);
  }

  /** When every row votes, the query point makes no difference. */
  lemma KnnIgnoresPointWhenAllVote(data: seq<Row>, p: Row, q: Row, k: nat)
    requires Conforms(data, p) && Conforms(data, q) && IndexLabels(data)
    requires k >= |data|
    ensures Knn(data, p, k) == Knn(data, q, k)
  {
    if |data| > 0 && k > 0 {
      KnnIsMajorityVote(data, p, k);
      KnnIsMajorityVote(data, q, k);
      AllRowsVote(data, p, k);
      AllRowsVote(data, q, k);
      WinnerIsUnique(Image(Nearest(data, p, k), LabelOf), Image(Nearest(data, q, k), LabelOf),
        Knn(data, p, k).value, Knn(data, q, k).value);
    } else {
      KnnDefined(data, p, k);
      KnnDefined(data, q, k);
    }
  }
}
