# A verified model of score.js

score.js is a k-nearest-neighbours experiment on recorded drops. Each drop is recorded by
`onScoreUpdate` as a row `[dropPosition, bounciness, size, bucketLabel]` in a module-level
array `outputs`. `runAnalysis` then takes each of the three features in turn, as follows:

1. It projects every row to `[feature value, bucket label]`.
2. It min-max scales the feature with `minMax`.
3. It shuffles the rows and splits off a test set of 50 with `splitDataSet`.
4. It classifies each test row with `knn` (k = 10), where `distance` is the Euclidean
   distance.
5. It prints the number of correct labels divided by 50.

The model, module by module:

- `Score`: class `ScoreLog` holds `outputs` as a `seq` field. `OnScoreUpdate` appends a row
  and `RunAnalysis` loops over features 0..2.
- `Analysis`: the accuracy of one feature as a pure function of the log and of the shuffle's
  permutation.
- `Knn`: the classifier as a lodash chain. `StableSort` models `_.sortBy` as a stable insertion
  sort. `Counting` models `_.countBy` / `_.toPairs` / `_.last` as an ascending association list
  and its vote. `NumberKeys` models `String` and `parseInt` of the count table's keys.
- `Distance`: the squared Euclidean distance, with a lemma that any square root orders
  distances the same way.
- `MinMax`: the nested loops of `minMax`, proved equal to a column-by-column definition.
- `Split`: shuffle-then-slice, with the shuffle given as a permutation.
- `Lodash`: `_.slice`, `_.initial`, `_.last`.

JavaScript numbers are modelled as `real`. A result of `NaN` from `knn` is modelled as `None`:
this happens with no training row or `k = 0`, where `parseInt(undefined)` is reached. `None`
equals no label, just as `NaN === label` is false.

Two behaviours of the code are worth stating plainly:

- Vector length: lodash `_.zip` pads a shorter vector with `undefined`, so `distance` of two
  vectors of different lengths is `NaN`. The model requires equal lengths (`Knn.Conforms`).
- Vote ties: the count table lists index keys in ascending order, and a stable sort by count
  followed by `_.last` picks the last of the most frequent. So among the most frequent labels
  the largest wins, which `Knn.KnnIsMajorityVote` proves.

## Model

| member | source | states |
|---|---|---|
| Score.ScoreLog.constructor | score.js:1 | the log starts empty |
| Score.ScoreLog.OnScoreUpdate | score.js:3-5 | exactly one row `[dropPosition, bounciness, size, bucketLabel]` is appended at the end; every earlier row is unchanged; every row keeps four values |
| Score.ScoreLog.RunAnalysis | score.js:12-29 | given a valid log whose labels are index keys, returns the accuracies of features 0, 1 and 2, in that order, each computed by `Analysis.Accuracy` on the current log with that feature's shuffle; each lies in [0, 1] |
| Analysis.Project | score.js:17 | one `[feature value, label]` row per observation, each with an index-key label |
| Analysis.CountTrue | score.js:20-23 | the count of true entries is at most the length; it equals the length iff every entry is true, and is 0 iff none is |
| Analysis.Correct | score.js:21 | the verdict `knn(trainingSet, _.initial(testPoint), 10) === _.last(testPoint)`; it has no contract of its own, and `Analysis.HitsAt`, `Analysis.CountCorrectExtremes` and `Analysis.NoTrainingNoneCorrect` state what the count of such verdicts means |
| Analysis.Hits | score.js:20-22 | one verdict per test row |
| Analysis.HitsAt | score.js:20-22 | verdict `i` is whether `knn` labels test row `i` correctly |
| Analysis.CountCorrect | score.js:19-23 | the number of correctly labelled test rows is at most the size of the test set |
| Analysis.CountCorrectExtremes | score.js:19-23 | the count equals the test-set size iff every test row is labelled correctly, and is 0 iff none is |
| Analysis.NoTrainingNoneCorrect | score.js:21 | with an empty training set no test row is labelled correctly |
| Analysis.Sets | score.js:17-18 | after projection, scaling and splitting, both parts hold labelled points; the test set has min(50, n) rows and the training set the remaining n - min(50, n) |
| Analysis.Accuracy | score.js:13-25 | accuracy lies between 0 and min(n, 50) / 50, so it is at most 1; it is 0 whenever there are at most 50 observations, because no training row is left |
| Analysis.AccuracyIsPerfectIffAllCorrect | score.js:13-25 | accuracy is 1 iff there are at least 50 observations and `knn` labels every test row correctly |
| Analysis.Accuracies | score.js:16-25 | one accuracy per feature `0 .. n-1`, each in [0, 1] |
| Knn.Neighbours | score.js:47-49 | one `[distance, label]` pair per training row |
| Knn.Nearest | score.js:50-51 | exactly min(k, n) neighbours vote; `Knn.NearestAreClosest` states which ones |
| Knn.Knn | score.js:44-59 | with no training row or k = 0 the answer is `NaN`; `Knn.KnnDefined` proves the converse, and `Knn.KnnIsMajorityVote` proves that otherwise the answer is the voters' majority label, ties going to the largest |
| Knn.NearestAreClosest | score.js:46-51 | exactly min(k, n) neighbours vote; together with the rest they are all the rows; no voter is farther than a row left out; at each distance the voters are the first rows in training order |
| Knn.SquaredDistanceSortsAlike | score.js:48-50 | sorting by any non-negative square root of the squared distance gives the same order as sorting by the squared distance |
| Knn.VoterLabels | score.js:51-52 | every voter's label is a training row's index-key label |
| Knn.KeyCounts | score.js:52 | on index labels, the count of a `String` key is the count of its label |
| Knn.KeysAreLabels | score.js:52-57 | every count-table key, read back as a number, is one of the voters' labels |
| Knn.KnnDefined | score.js:44-59 | `knn` returns a label iff there is a training row and k > 0, and `NaN` otherwise |
| Knn.KnnIsMajorityVote | score.js:44-59 | the result is a voter's label; no label has more votes; among labels with as many votes it is the largest |
| Knn.WinnerIsUnique | score.js:52-56 | the vote has a single winner, and it depends only on how many votes each label has |
| Knn.AllRowsVote | score.js:50-51 | with k ≥ n, the voters' labels are exactly the training labels, counted with multiplicity |
| Knn.KnnIgnoresPointWhenAllVote | score.js:44-59 | with k ≥ n, `knn` returns the same answer for every query point |
| Knn.WinnerOfSameVotes | score.js:52-56 | a vote winner stays the winner of any sequence with the same votes |
| Knn.KnnAllVoteIsTrainingMajority | score.js:44-59 | with k ≥ n > 0, `knn` returns the majority label of the whole training set, ties going to the largest |
| Counting.AddKeyCounts | score.js:52 | counting one more key keeps the table ascending with positive counts, and raises that key's count by exactly one |
| Counting.AddKey | score.js:52 | counting a key leaves a non-empty table; `Counting.AddKeyCounts` states the counts |
| Counting.LookupAbsent | score.js:52 | a key smaller than every key of an ascending table has count 0 |
| Counting.CountBy | score.js:52-53 | the table is empty iff there are no keys |
| Counting.CountByCounts | score.js:52-53 | the table lists each key once, in ascending order, with its number of occurrences |
| Counting.LookupAt | score.js:52-53 | the entry at position i of an ascending table holds the count of its own key |
| Counting.LookupFound | score.js:52-53 | a key with a positive count has an entry holding that count |
| Counting.LastMaxBeats | score.js:54-55 | the last entry with the largest count beats every key, and ties it only with smaller keys |
| Counting.Vote | score.js:54-56 | `_.last` of the table stably sorted by count is the last entry with the largest count (the reference definition `StableSort.LastMaxIndex`), and an empty table gives `undefined` |
| Counting.VoteOfTable | score.js:54-56 | on a non-empty ascending table, the chosen key is present; no key has a larger count; every key with the same count is smaller |
| Counting.VoteIsLargestMostFrequent | score.js:52-56 | the vote over a non-empty key sequence picks a key that occurs, occurring at least as often as any other, and the largest among equally frequent keys |
| NumberKeys.DigitChar | score.js:52 | a digit below 10 is written as a decimal digit character |
| NumberKeys.Decimal | score.js:52 | a numeral is never empty |
| NumberKeys.KeyString | score.js:52 | `String(i)` is never empty, and starts with `-` exactly when i is negative |
| NumberKeys.ParseInt | score.js:57 | `parseInt` without a radix; it has no contract of its own, and `NumberKeys.ParseIntKeyString` proves that it reads back `String(i)` as i for every integer i of magnitude below 10^21 |
| NumberKeys.ScanDigitsAppend | score.js:57 | reading digits across a concatenation continues from the first part's value |
| NumberKeys.DecimalValue | score.js:52-57 | the numeral of n is all digits and reads back as n |
| NumberKeys.ParseIntKeyString | score.js:52-57 | `parseInt(String(i)) == i` for every integer i of magnitude below 10^21, which covers every index key |
| StableSort.Insert | score.js:50-54 | inserting adds exactly one element |
| StableSort.InsertPermutes | score.js:50-54 | inserting adds exactly the inserted element to the multiset |
| StableSort.InsertAbove | score.js:50-54 | a lower bound of the element and of every member of the sequence bounds every member of the result |
| StableSort.InsertSorted | score.js:50-54 | inserting into a sorted sequence keeps it sorted |
| StableSort.SortBy | score.js:50-54 | the result is a permutation of the input, sorted ascending by key |
| StableSort.WithKeyAppend | score.js:50-54 | selecting by key distributes over concatenation |
| StableSort.InsertWithKey | score.js:50-54 | insertion leaves the elements with any given key in their order |
| StableSort.SortByIsStable | score.js:50-54 | stability: for every key value, the elements carrying it keep their input order |
| StableSort.LastMaxIndex | score.js:55 | the index holds a maximal key, and every later element's key is strictly smaller |
| StableSort.InsertLast | score.js:54-55 | after inserting into a sorted sequence, the last element is the inserted one iff its key exceeds the old last key |
| StableSort.LastOfSortBy | score.js:54-55 | `_.last(_.sortBy(s, key))` is the last element of `s` with the largest key |
| StableSort.SortedSplit | score.js:50-51 | cutting a sorted sequence leaves no element before the cut with a larger key than one after it |
| StableSort.SortedPrefixIsStable | score.js:50-51 | after cutting a stably sorted sequence, the elements with any given key are a prefix of the input's elements with that key, in input order |
| StableSort.InsertKeepsImage | score.js:50 | inserting adds the element's image to the multiset of images |
| StableSort.SortByKeepsImage | score.js:50 | sorting permutes any projection of the elements |
| StableSort.SortBySameOrder | score.js:50 | two keys that compare the elements alike give the same sorted sequence |
| StableSort.InsertSameOrder | score.js:50 | two keys that compare the element with every member alike insert it at the same place |
| Distance.SqDist | score.js:70-78 | the squared distance is non-negative |
| Distance.SqDistSymmetric | score.js:70-78 | the distance from a to b equals the distance from b to a |
| Distance.SqDistZeroIffEqual | score.js:70-78 | the distance is zero iff the two points are equal |
| Distance.RootPreservesOrder | score.js:76 | two distances compare as their non-negative square roots do |
| Distance.SquarePositive | score.js:74 | a non-zero difference has a positive square |
| Distance.SquareStrictlyMonotone | score.js:74 | squaring is strictly increasing on non-negative reals |
| Lodash.SliceSplits | score.js:91-92 | `_.slice(s, 0, k)` followed by `_.slice(s, k)` is all of `s`, for every k |
| Lodash.Initial | score.js:21 | `_.initial(row)` followed by `_.last(row)` is the row |
| Lodash.Last | score.js:21 | `_.last(row)` is an element of the row |
| MinMax.SeqMin | score.js:102 | the minimum occurs in the column and is at most every value |
| MinMax.SeqMax | score.js:103 | the maximum occurs in the column and is at least every value |
| MinMax.Scale | score.js:106 | the minimum scales to 0, the maximum to 1, and every value between them to a value in [0, 1] |
| MinMax.Normalized | score.js:97-111 | same number of rows, each of the same length; every column at or past `featureCount` is unchanged |
| MinMax.MinMax | score.js:97-111 | the loops compute `Normalized`: each of the first `featureCount` columns is scaled by its own minimum and maximum, and everything else is copied |
| MinMax.ScaleColumn | score.js:105-107 | column i of every row is replaced by its scaled value, and every other entry is unchanged |
| MinMax.NormalizedInUnitInterval | score.js:100-108 | every scaled value lies in [0, 1] |
| MinMax.NormalizedEnds | score.js:100-108 | a column's minimum scales to 0 and its maximum to 1 |
| MinMax.NormalizedExtremes | score.js:100-108 | in a non-empty dataset, every scaled column contains both a 0 and a 1, at its minimum and maximum |
| Split.Shuffle | score.js:89 | a shuffle keeps the number of rows |
| Split.DropLast | score.js:89 | dropping the last entry of a permutation of n and renumbering gives a permutation of n - 1 |
| Split.ShuffleDropLast | score.js:89 | a shuffle is a shuffle of the other rows followed by the row placed last |
| Split.RemoveOne | score.js:89 | removing one row removes exactly that row from the multiset |
| Split.ShuffleIsPermutation | score.js:89 | shuffling only reorders: the multiset of rows is unchanged |
| Split.SplitDataSet | score.js:88-95 | the test set has min(testCount, n) rows and the training set the rest; together, in order, they are the shuffled rows, and their multisets add up to the input's |
| Split.SplitRowsComeFromData | score.js:88-95 | every row of either part is a row of the input |

## Left out

- `_.shuffle`'s random source (score.js:89): the permutation it draws is a parameter. Each
  feature gets its own permutation in `RunAnalysis`.
- `console.log` (score.js:27): `RunAnalysis` returns the three accuracies instead of printing
  them.
- IEEE-754 floating point: numbers are exact reals, so there is no rounding, overflow or
  `Infinity`.
- MinMax.MinMax: requires every scaled column to be non-constant. A constant column gives
  `0 / 0 = NaN` in the source (score.js:106), and that `NaN` is not modelled.
- Distance.SqDist: is the squared distance. `** 0.5` (score.js:76) has no counterpart over the
  reals. `Distance.RootPreservesOrder` and `Knn.SquaredDistanceSortsAlike` show that any square
  root yields the same neighbour order, and `knn` only uses that order.
- Knn.Knn: requires every training row to be the query's length plus a label. `_.zip` pads
  unequal lengths with `undefined` (score.js:73), which gives `NaN` distances; that is not
  modelled.
- Knn.Knn: requires labels to be array-index keys, that is integers from 0 up to 2^32 - 2.
  Only for those does a JavaScript object list `countBy`'s keys in ascending numeric order and
  `parseInt(String(l))` give back `l`. Other labels are not modelled: negative or fractional
  labels, and labels whose keys are listed in insertion order.
- NumberKeys.KeyString: writes every integer as a plain decimal numeral. From magnitude
  10^21 on, `String` writes exponent form instead (`"1e+21"`, which `parseInt` reads as 1),
  so there the model differs from the source. Index keys stay below 2^32 - 1 and never get
  there.
- NumberKeys.ParseInt: reads an optional sign and decimal digits only. Leading whitespace,
  `0x` prefixes and exponent forms never occur in index keys and are left out.
- Negative `k` or `testCount`: both are `nat`. score.js uses only the constants 10 and 50.
- `_.cloneDeep` (score.js:98): rows are values, so the copy and the input cannot share
  storage. The in-place writes `cloneData[j][i] = …` become updates of a local
  sequence-of-sequences.
- Score.ScoreLog.RunAnalysis: states its result through `Analysis.Accuracies`, the
  per-feature accuracies in order. The source's side effect is printing, which is left out.
