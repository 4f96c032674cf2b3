# K-Means step of react-kmeans-demo, in Dafny

This project models `src/lib.js` of the K-Means demo. That file holds one
iteration of Lloyd's algorithm over records such as
`{experience: 8, salary: 7, label: "senior"}`, plus the small collection
helpers the iteration uses. The iteration works in four stages:

1. It min-max scales the facts, without their `cluster` and `label` fields,
   and it scales the centroids separately (`scale`, `scaleFacts`).
2. It computes the Euclidean distance from every scaled fact to every scaled
   centroid (`getDistance`).
3. It tags each original, unscaled fact with the index of the first nearest
   centroid (`classifyFacts`).
4. It makes one new centroid per cluster that received a fact. Each new
   centroid holds the mean `experience` and the mean `salary` of the
   cluster's members.

Everything in `src/lib.js` is pure, so the model is made of datatypes,
functions and lemmas only. The modules follow the file's stages:

- `Facts`: the record type. `label` is kept apart as `tag`, because it is
  never a number, while `cluster` is an ordinary numeric key, exactly as the
  library treats it.
- `Collections`: `minimum`, `maximum`, `R.indexOf`, `R.groupBy`, `countBy`,
  `invert`.
- `Scaling`: `scale`, `scaleFacts`.
- `Distance`: `getDistance`.
- `Assignment`: nearest centroid and `classifyFacts`.
- `CentroidUpdate`: the group, `R.values` and mean pipeline.
- `KMeans`: `clusterByKMeans`.
- `Scenario`: one worked iteration.

Numbers are exact reals. The distance is modelled squared. The square root
is strictly increasing, so it changes neither which centroid is nearest nor
which distances tie.

Some of the code's behaviour differs from textbook K-Means; the model
follows the code:

- The centroids are scaled on their own, not together with the facts
  (`src/lib.js:84-85`).
- A cluster that receives no fact is dropped from the updated centroids,
  rather than kept or set to NaN. The number of centroids can therefore shrink
  (`src/lib.js:93-95`).
- `scaleFacts` excludes only `label`, so a `cluster` value present on a
  record is scaled like any other number (`src/lib.js:69`). `clusterByKMeans`
  strips `cluster` from the facts before scaling (`src/lib.js:84`).
- `getDistance` excludes only `label`, not `cluster` (`src/lib.js:52-53`).
- Records whose key sets differ are at distance NaN, not at the distance over
  their shared keys (`src/lib.js:54-56`).

## Model

| member | source | states |
|---|---|---|
| Facts.Column | src/lib.js:70 | `R.pluck(k, facts)`: one value per fact, in order, each the fact's `k` value |
| Facts.Omit | src/lib.js:84 | dropping `cluster` and `label` leaves every other numeric key with its value and removes the label |
| Facts.OmitAll | src/lib.js:84 | the omission applied to every fact, in order |
| Collections.Minimum | src/lib.js:12-14 | the result is an element of the list and no element is smaller |
| Collections.Maximum | src/lib.js:16-18 | the result is an element of the list and no element is larger |
| Collections.IndexOf | src/lib.js:89 | -1 exactly when the value is absent; otherwise a position holding it with no earlier occurrence |
| Collections.GroupBy | src/lib.js:21 | a key has a group exactly when some element has that key, and the group is those elements in their original order |
| Collections.FilterMembers | src/lib.js:21 | a group holds exactly the elements whose key is the group's key |
| Collections.CountBy | src/lib.js:20-22 | every counted key has a positive count equal to the number of elements with that key, and only keys that occur are counted |
| Collections.CountByTotal | src/lib.js:20-22 | the counts add up to the length of the list |
| Collections.Invert | src/lib.js:24-29 | the keys of the result are the values of the object; each maps to one of its keys; a value maps to the last key holding it |
| Collections.InvertInjective | src/lib.js:24-29 | when no two keys share a value, inverting maps every value back to its own key |
| Scaling.Scale | src/lib.js:45-49 | same length; every result lies in [0, 1]; a result is 0 exactly for the minimal inputs and 1 exactly for the maximal ones |
| Scaling.ScaleMonotone | src/lib.js:45-49 | scaling keeps the order between any two values, in both directions |
| Scaling.ScaleInverse | src/lib.js:45-49 | `min + r * (max - min)` maps the scaled list back to the original: no information is lost |
| Scaling.ScaleIdempotent | src/lib.js:45-49 | a scaled list has minimum 0 and maximum 1, and scaling it again changes nothing |
| Scaling.ScaleFacts | src/lib.js:62-77 | no facts give no facts; otherwise same length and order, the same keys and label per fact, and value `k` of fact `i` is entry `i` of the scaled `k`-column, so it lies in [0, 1] |
| Scaling.ScaleFactsColumns | src/lib.js:67-76 | each column of the scaled facts is the scaled column of the facts |
| Scaling.ScaleFactsIdempotent | src/lib.js:62-77 | scaling already scaled facts again changes nothing |
| Distance.SquaredDistance | src/lib.js:51-60 | NaN exactly when the two records' numeric key sets differ; otherwise a non-negative number |
| Distance.DistanceSymmetric | src/lib.js:51-60 | the distance from `a` to `b` equals the distance from `b` to `a` |
| Distance.DistanceToSelf | src/lib.js:51-60 | a record is at distance 0 from itself |
| Distance.DistanceZero | src/lib.js:51-60 | the distance is 0 exactly when both records have the same numeric keys with the same values |
| Assignment.Nearest | src/lib.js:89 | -1 for no distances; otherwise a position whose distance is least, with every earlier distance strictly greater |
| Assignment.NearestUnique | src/lib.js:89 | the first least position is unique, so it is the index picked |
| Assignment.Distances | src/lib.js:88 | one distance per centroid, in centroid order, each the (squared) `getDistance` value |
| Assignment.NearestIsFirstNearest | src/lib.js:88-89 | the index of the least distance is the first centroid at least distance from the fact, or -1 with no centroids |
| Assignment.Assign | src/lib.js:87-89 | one label per fact: -1 with no centroids; otherwise the first centroid at least distance from the fact |
| Assignment.WithCluster | src/lib.js:80 | the copied fact has `cluster` set to the label; its label and every other value are unchanged |
| Assignment.ClassifyFacts | src/lib.js:79-81 | same length and order; fact `i` gets `cluster` = `labels[i]`, and nothing else changes |
| Assignment.ClassifyFactsIdempotent | src/lib.js:79-81 | tagging tagged facts again with the same labels changes nothing |
| CentroidUpdate.Mean | src/lib.js:97-98 | the mean lies between the least and the greatest value |
| CentroidUpdate.MeanConstant | src/lib.js:97-98 | the mean of equal values is that value |
| CentroidUpdate.CentroidOf | src/lib.js:96-99 | a new centroid has only `experience` and `salary`, each the mean of its members' values and so between their least and greatest value, and no label |
| CentroidUpdate.CentroidMeans | src/lib.js:96-99 | the `experience` of a new centroid is the mean of its members' `experience` values, and likewise for `salary` |
| CentroidUpdate.ClusterIds | src/lib.js:95 | the modelled assumption about the order in which `R.values` lists the integer-like group keys: ascending, 0 .. k-1, or just -1 when there are no centroids; only the ascending order is a consequence |
| CentroidUpdate.PresentIds | src/lib.js:94-95 | the ids that have a group, in the enumeration order, and still ascending |
| CentroidUpdate.InUse | src/lib.js:94-95 | exactly the enumerable ids whose cluster has members, in ascending order |
| CentroidUpdate.UpdateCentroids | src/lib.js:93-100 | one centroid per id in use, in that order, each the centroid of that cluster's members |
| CentroidUpdate.InUseExactly | src/lib.js:93-95 | when every fact carries an enumerable id, the ids in use are exactly the ids some fact carries |
| KMeans.ScaledComparable | src/lib.js:84-85 | the scaled facts and the scaled centroids have the same numeric keys, so every distance is a number |
| KMeans.ClusterByKMeans | src/lib.js:83-106 | the clustered facts are the given facts, in order and unscaled, with the same label; only `cluster` is set, to the first centroid nearest in scaled space, or -1 when there are none |
| KMeans.ClassifiedNearest | src/lib.js:87-90 | tagging the facts with the computed labels tags each with its first nearest centroid |
| KMeans.ClusteredInRange | src/lib.js:88-95 | every clustered fact carries an id the grouping enumerates |
| KMeans.UpdatedCentroids | src/lib.js:93-100 | one updated centroid per cluster that received a fact, in ascending cluster order, never more than the centroids given (at most one when none were given), each holding its members' unscaled means |
| KMeans.UpdateInRange | src/lib.js:93-100 | for any clustered facts whose ids all come from the enumerated range, the update has one centroid per id carried, as `UpdatedCentroids` states |
| Scenario.ScenarioClusters | src/lib.js:83-91 | facts (1, 1), (1, 1), (10, 10) and centroids (0, 0), (10, 10): the two equal facts go to cluster 0 and the outlier to cluster 1 |
| Scenario.ScenarioCentroids | src/lib.js:93-100 | in that iteration the updated centroids are (1, 1) and (10, 10) |

## Left out

- Rounding to two decimals (`round` and `roundTo`, `src/lib.js:38-42`, and its uses at lines 71 and 97-98) relies on floating-point `toFixed`. All values are exact reals.
- `pow` and `powTo` (`src/lib.js:32-36`) and the square root at line 58 are floating-point exponentiation. Distances are compared squared, which picks the same centroid.
- `logAs` (`src/lib.js:4-9`) is console output.
- `src/App.js` is left out entirely: React state, rendering, and loading `db.json`.
- Floating-point rounding, infinities and NaN values inside records are not modelled. Numbers are exact reals.
- Collections.Minimum: requires a non-empty list. `Math.min()` of nothing is Infinity. The one place where this matters, assignment with no centroids, is modelled directly by `Assignment.Nearest`, which returns -1 as `R.indexOf(Infinity, [])` does.
- Collections.Maximum: requires a non-empty list, for the same reason as `Minimum`.
- Scaling.Scale: requires a list that is empty or not constant. On a constant non-empty list the source divides 0 by 0 and every entry becomes NaN. The `+Infinity` and `-Infinity` seeds of its folds give the same minimum and maximum as `minimum` and `maximum` on any non-empty list.
- Scaling.ScaleFacts: requires every fact to have the numeric keys of the first one, with no constant column. Otherwise the source produces NaN, or throws when a fact has a key the first one lacks. A list with a single fact therefore falls outside the model, since every one of its columns is constant.
- Distance.SquaredDistance: returns NaN as a whole when the key sets differ. It does not model which NaN-valued terms arise.
- Assignment.ClassifyFacts: requires at least one label per fact. The source's one caller passes exactly one. A missing label would make `cluster` undefined, which a record here cannot hold.
- KMeans.ClusterByKMeans: requires its inputs to satisfy `Ready`:
  - both the facts and the centroids can be scaled;
  - every centroid has exactly the facts' numeric keys;
  - every fact has `experience` and `salary`.

  Outside these conditions the source computes NaN distances or means. In particular, a single centroid, which can arise once clusters have been dropped, makes every scaled centroid value NaN. What `R.indexOf` then returns is not modelled.
- Collections.GroupBy: JavaScript object keys are strings. The model groups by the key values themselves, so two keys that print alike (`1` and `"1"`) are not merged.
- Collections.CountBy: same as `GroupBy`, since it is built on it.
- Collections.Invert: takes the object as its list of entries in key-enumeration order. It does not model that JavaScript turns each value into a string key.
- The order in which `R.values` lists groups is modelled only for the keys that arise here: cluster indices, which are integer-like and come in ascending order, or the single key -1.
- The rambdax combinators (`R.pipe`, `R.map`, `R.curry`, and so on) are not modelled as such. Each pipeline stage is a function of its own.
