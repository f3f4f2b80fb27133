/**
 * `minMax(data, featureCount)` (score.js): min-max scaling of the first `featureCount`
 * columns of a dataset, computed on a deep copy so that the caller's rows are untouched.
 */
module MinMax {

  type Row = seq<real>
  type Dataset = seq<Row>

  /** `_.min(s)` */
  function SeqMin(s: seq<real>): (m: real)
    requires |s| > 0
    ensures m in s
    ensures forall x :: x in s ==> m <= x
  {
    if |s| == 1 then s[0]
    else
      var rest := SeqMin(s[1..]);
      assert forall x :: x in s ==> x == s[0] || x in s[1..];
      if s[0] <= rest then s[0] else rest
  }

  /** `_.max(s)` */
  function SeqMax(s: seq<real>): (m: real)
    requires |s| > 0
    ensures m in s
    ensures forall x :: x in s ==> x <= m
  {
    if |s| == 1 then s[0]
    else
      var rest := SeqMax(s[1..]);
      assert forall x :: x in s ==> x == s[0] || x in s[1..];
      if rest < s[0] then s[0] else rest
  }

  /** Every row has at least `n` columns. */
  predicate HasColumns(data: Dataset, n: nat)
  {
    forall j :: 0 <= j < |data| ==> n <= |data[j]|
  }

  /** `data.map((row) => row[i])` */
  function Column(data: Dataset, i: nat): (column: seq<real>)
    requires HasColumns(data, i + 1)
    ensures |column| == |data|
    ensures forall j :: 0 <= j < |data| ==> column[j] == data[j][i]
  {
    seq(|data|, j requires 0 <= j < |data| => data[j][i])
  }

  function ColumnMin(data: Dataset, i: nat): real
    requires HasColumns(data, i + 1) && |data| > 0
  {
    SeqMin(Column(data, i))
  }

  function ColumnMax(data: Dataset, i: nat): real
    requires HasColumns(data, i + 1) && |data| > 0
  {
    SeqMax(Column(data, i))
  }

  /**
   * The inputs on which `minMax` stays within the reals: every scaled column exists and,
   * when there are rows at all, is not constant (a constant column divides 0 by 0).
   */
  predicate NonDegenerate(data: Dataset, featureCount: nat)
  {
    HasColumns(data, featureCount) &&
    (|data| > 0 ==> forall i :: 0 <= i < featureCount ==> ColumnMin(data, i) < ColumnMax(data, i))
  }

  /** `(v - min) / (max - min)` */
  function Scale(v: real, min: real, max: real): (r: real)
    requires min < max
    ensures v == min ==> r == 0.0
    ensures v == max ==> r == 1.0
    ensures min <= v <= max ==> 0.0 <= r <= 1.0
  {
    DivideZero(max - min);
    DivideSelf(max - min);
    if min <= v <= max then
      DivideUnit(v - min, max - min);
      (v - min) / (max - min)
    else
      (v - min) / (max - min)
  }

  /** The dataset `minMax` returns, stated column by column. */
  function Normalized(data: Dataset, featureCount: nat): (r: Dataset)
    requires NonDegenerate(data, featureCount)
    ensures |r| == |data|
    ensures forall j :: 0 <= j < |data| ==> |r[j]| == |data[j]|
    ensures forall j, c :: 0 <= j < |data| && featureCount <= c < |data[j]| ==> r[j][c] == data[j][c]
  {
    seq(|data|, j requires 0 <= j < |data| =>
      seq(|data[j]|, c requires 0 <= c < |data[j]| =>
        if c < featureCount then Scale(data[j][c], ColumnMin(data, c), ColumnMax(data, c))
        else data[j][c]))
  }

  /**
   * The source's nested loops over a deep copy. The input is a value, so the caller's
   * dataset cannot change; the copy is rewritten one column at a time.
   */
  method MinMax(data: Dataset, featureCount: nat) returns (cloneData: Dataset)
    requires NonDegenerate(data, featureCount)
    ensures cloneData == Normalized(data, featureCount)
  {
    cloneData := data;
    for i := 0 to featureCount
      invariant |cloneData| == |data|
      invariant forall j :: 0 <= j < |data| ==> |cloneData[j]| == |data[j]|
      invariant forall j, c :: 0 <= j < |data| && 0 <= c < |data[j]| ==>
        cloneData[j][c] == if c < i then Normalized(data, featureCount)[j][c] else data[j][c]
    {
      var column := Column(cloneData, i);
      // `_.min` of an empty column is undefined; the inner loop then writes nothing.
      if |column| > 0 {
        assert column == Column(data, i);
        var min, max := SeqMin(column), SeqMax(column);
        assert min == ColumnMin(data, i) && max == ColumnMax(data, i);
        cloneData := ScaleColumn(cloneData, i, min, max);
      }
    }
    assert forall j :: 0 <= j < |data| ==> cloneData[j] == Normalized(data, featureCount)[j];
  }

  /** The inner loop of `minMax`: `cloneData[j][i] = (cloneData[j][i] - min) / (max - min)`. */
  method ScaleColumn(rows: Dataset, i: nat, min: real, max: real) returns (r: Dataset)
    requires HasColumns(rows, i + 1) && min < max
    ensures |r| == |rows|
    ensures forall j :: 0 <= j < |rows| ==> |r[j]| == |rows[j]|
    ensures forall j, c :: 0 <= j < |rows| && 0 <= c < |rows[j]| ==>
      r[j][c] == if c == i then Scale(rows[j][c], min, max) else rows[j][c]
  {
    r := rows;
    for j := 0 to |r|
      invariant |r| == |rows|
      invariant forall j' :: 0 <= j' < |rows| ==> |r[j']| == |rows[j']|
      invariant forall j', c :: 0 <= j' < |rows| && 0 <= c < |rows[j']| ==>
        r[j'][c] == if c == i && j' < j then Scale(rows[j'][c], min, max) else rows[j'][c]
    {
      r := r[j := r[j][i := (r[j][i] - min) / (max - min)]];
    }
  }

  lemma DivideUnit(x: real, y: real)
    requires 0.0 <= x <= y && 0.0 < y
    ensures 0.0 <= x / y <= 1.0
  {
  }

  lemma DivideZero(x: real)
    requires x != 0.0
    ensures 0.0 / x == 0.0
  {
  }

  lemma DivideSelf(x: real)
    requires x != 0.0
    ensures x / x == 1.0
  {
  }

  /** Every scaled value lies in [0, 1]. */
  lemma NormalizedInUnitInterval(data: Dataset, featureCount: nat, j: nat, c: nat)
    requires NonDegenerate(data, featureCount)
    requires j < |data| && c < featureCount
    ensures 0.0 <= Normalized(data, featureCount)[j][c] <= 1.0
  {
    var column := Column(data, c);
    assert column[j] in column;
    DivideUnit(data[j][c] - ColumnMin(data, c), ColumnMax(data, c) - ColumnMin(data, c));
  }

  /** A value equal to its column's minimum scales to 0, one equal to the maximum to 1. */
  lemma NormalizedEnds(data: Dataset, featureCount: nat, j: nat, c: nat)
    requires NonDegenerate(data, featureCount)
    requires j < |data| && c < featureCount
    ensures data[j][c] == ColumnMin(data, c) ==> Normalized(data, featureCount)[j][c] == 0.0
    ensures data[j][c] == ColumnMax(data, c) ==> Normalized(data, featureCount)[j][c] == 1.0
  {
    var lo, hi := ColumnMin(data, c), ColumnMax(data, c);
    var v := Normalized(data, featureCount)[j][c];
    assert v == (data[j][c] - lo) / (hi - lo);
    if data[j][c] == lo {
      DivideZero(hi - lo);
    }
    if data[j][c] == hi {
      DivideSelf(hi - lo);
    }
  }

  /** A scaled column's minimum becomes 0 and its maximum becomes 1, and both occur. */
  lemma NormalizedExtremes(data: Dataset, featureCount: nat, c: nat)
    requires NonDegenerate(data, featureCount)
    requires |data| > 0 && c < featureCount
    ensures var r := Normalized(data, featureCount);
      (forall j :: 0 <= j < |data| && data[j][c] == ColumnMin(data, c) ==> r[j][c] == 0.0) &&
      (forall j :: 0 <= j < |data| && data[j][c] == ColumnMax(data, c) ==> r[j][c] == 1.0) &&
      (exists j :: 0 <= j < |data| && r[j][c] == 0.0) &&
      (exists j :: 0 <= j < |data| && r[j][c] == 1.0)
  {
    var r := Normalized(data, featureCount);
    forall j | 0 <= j < |data|
      ensures data[j][c] == ColumnMin(data, c) ==> r[j][c] == 0.0
      ensures data[j][c] == ColumnMax(data, c) ==> r[j][c] == 1.0
    {
      NormalizedEnds(data, featureCount, j, c);
    }
    var column := Column(data, c);
    var jl :| 0 <= jl < |data| && column[jl] == ColumnMin(data, c);
    var jh :| 0 <= jh < |data| && column[jh] == ColumnMax(data, c);
    assert r[jl][c] == 0.0 && r[jh][c] == 1.0;
  }
}
