# ewjUtil core, modelled in Dafny

This project models the sequential core of ewjUtil, a Java utility library by Eric Jordan, and proves properties of that model. The library has three parts, and each core Java file becomes one Dafny module of the same name.

- **Parameter-vector binding** (`com.ewjordan.util.objectWrap`):
  - `PrimitiveReference`: the slot locators. Discovery walks a class's declared fields in order and yields one reference per boolean, int, long, float or double field or array element. It skips `@Unwrapped` fields and object fields that cannot describe themselves.
  - `WrappedObject`: keeps a flat `values` array with one double per reference. The pull (`refreshValuesFromObject`) reads the fields into it; the push (`updateObjectValues`) writes them back with Java's casts and a strict `> 0.5` boolean threshold.
  - The wrapped object is a `Target` class. It holds a field layout (`Shape`) and a mutable map from field or array-element slots to typed values.
- **Search operators over those vectors**:
  - `WrappedObjectChromosome`: single-point crossover and clamped one-slot Gaussian mutation.
  - `ObjectOptimizer`: the crossover and mutation policies, the GA stopping rule, and an objective that snapshots, pushes, evaluates and restores. It also covers central-difference partial derivatives, their cache, and the gradient.
  - `SpeedLimit`: a bit-string genetic algorithm with asymmetric mutation, switching crossover, a cached count-of-ones fitness, and generational replacement with truncation.
- **Self-contained utilities**:
  - `DoubleList` (a growable buffer);
  - `DoubleHistogram` (a bucket counter with max tracking);
  - `ObservationSummary` (running statistics and a confidence-table lookup);
  - `StoredObservationSummary` (median and proportions from a sorted cache);
  - `Spinner` (cumulative-weight selection);
  - `MathUtil` (`map`, `findFractile`);
  - `ArrayUtil` (folds);
  - `SimpleIO` (matrix transpose, output path, CSV layout);
  - `PolynomialFunction` (the test objective).

Shared modules:

- `JavaLang`: Java's exceptions as `Result` / `Outcome` values.
- `JavaNum`: Java's numeric constants and the truncating, saturating `(int)` / `(long)` casts.
- `Text`: string joining and the decimal rendering of ints; doubles are formatted by a `fmt` parameter.
- `Sorting`: an insertion sort used as the reference for `Arrays.sort` and `Collections.sort`.
- `Stats`: folds such as sum, minimum and maximum, with their lemmas.

Modelling conventions:

- Java `double` values are Dafny `real`s.
- Every random draw (`Math.random`, `Random.nextInt`, `nextGaussian`) is an explicit parameter.
- Classes whose fields the source updates in place are Dafny classes with `modifies` and `reads` frames. Loops are methods proved against specification functions.

## Model

| member | source | states |
|---|---|---|
| ArrayUtil.ToDoubleList | src/com/ewjordan/util/ArrayUtil.java:19-25 | the list has one entry per int, each the int widened to a double, in order |
| ArrayUtil.ListToDoubleArray | src/com/ewjordan/util/ArrayUtil.java:27-33 | a fresh array holding exactly the list's values in order |
| ArrayUtil.ToDoubleArray | src/com/ewjordan/util/ArrayUtil.java:35-41 | a fresh array holding exactly the DoubleList's elements in order |
| ArrayUtil.Sum | src/com/ewjordan/util/ArrayUtil.java:47-51 | the running total equals the total of the array's elements |
| ArrayUtil.Average | src/com/ewjordan/util/ArrayUtil.java:43-45 | no average exactly when the array is empty (0/0); otherwise the total over the length, which lies between the array's minimum and maximum |
| ArrayUtil.Min | src/com/ewjordan/util/ArrayUtil.java:53-57 | the result is at most every element, is Double.MAX_VALUE for an empty array, and is one of the elements when the array is non-empty and finite |
| ArrayUtil.Max | src/com/ewjordan/util/ArrayUtil.java:59-63 | the result is at least every element, is -Double.MAX_VALUE for an empty array, and is one of the elements when the array is non-empty and finite |
| ArrayUtil.StoredSummary | src/com/ewjordan/util/ArrayUtil.java:65-69 | a fresh, valid StoredObservationSummary whose observations are the array's elements in order |
| Stats.MinOf | src/com/ewjordan/util/ArrayUtil.java:53-57 | the running minimum is at most Double.MAX_VALUE and at most every element, and equals Double.MAX_VALUE on an empty sequence |
| Stats.MaxOf | src/com/ewjordan/util/ArrayUtil.java:59-63 | the running maximum is at least -Double.MAX_VALUE and at least every element, and equals -Double.MAX_VALUE on an empty sequence |
| Stats.FoldsAppend | src/com/ewjordan/util/ObservationSummary.java:43-50 | one more observation advances the sum, product and sum of squares by that value, and the minimum and maximum only when it is strictly beyond them |
| Stats.SumAppend | src/com/ewjordan/util/ArrayUtil.java:47-51 | appending one value adds that value to the total |
| Stats.MinOfMember | src/com/ewjordan/util/ArrayUtil.java:53-57 | the minimum of a non-empty sequence of finite doubles is one of its elements |
| Stats.MaxOfMember | src/com/ewjordan/util/ArrayUtil.java:59-63 | the maximum of a non-empty sequence of finite doubles is one of its elements |
| Stats.SumAtLeast | src/com/ewjordan/util/ArrayUtil.java:47-51 | n elements that are each at least c total at least n times c |
| Stats.SumAtMost | src/com/ewjordan/util/ArrayUtil.java:47-51 | n elements that are each at most c total at most n times c |
| Stats.MeanBetween | src/com/ewjordan/util/ArrayUtil.java:43-45 | the mean of a non-empty sequence lies between its minimum and its maximum |
| Stats.MeanAtLeast | src/com/ewjordan/util/ArrayUtil.java:43-45 | a lower bound on every element is a lower bound on the mean |
| Stats.MeanAtMost | src/com/ewjordan/util/ArrayUtil.java:43-45 | an upper bound on every element is an upper bound on the mean |
| Stats.SqDevSums | src/com/ewjordan/util/ObservationSummary.java:43-46 | the squared deviations from any centre equal the sum of squares minus twice the centre times the total plus the count times the centre squared, so the running sums determine them |
| Stats.DeviationsNonNeg | src/com/ewjordan/util/ObservationSummary.java:104-108 | the squared deviations from any point, written in the summary's running sums, add up to a non-negative amount |
| Stats.SpreadNonNeg | src/com/ewjordan/util/ObservationSummary.java:104-108 | the square of the total never exceeds the count times the sum of squares, so the unbiased variance is never negative |
| DoubleList.GrownCapacity | src/com/ewjordan/util/DoubleList.java:94-101 | the grown capacity is an int, and with a multiplier of at least 1 it is strictly larger than the current size |
| DoubleList.GrowthExceedsSize | src/com/ewjordan/util/DoubleList.java:97 | `(int)(size * multiplier + 10)` exceeds size whenever the multiplier is at least 1 and size is below Integer.MAX_VALUE |
| DoubleList.Quotients | src/com/ewjordan/util/DoubleList.java:18-26 | one quotient per element: the element over its count where the count is positive, the divide-by-zero value wherever the count is zero or negative |
| DoubleList.DoubleList.Contents | src/com/ewjordan/util/DoubleList.java:10-11 | the list's elements number exactly size |
| DoubleList.DoubleList.constructor | src/com/ewjordan/util/DoubleList.java:54-67 | a new, empty, valid list with a backing array of the requested capacity and the given multiplier |
| DoubleList.DoubleList.Size | src/com/ewjordan/util/DoubleList.java:78-80 | size() is the number of elements |
| DoubleList.DoubleList.Get | src/com/ewjordan/util/DoubleList.java:119-122 | succeeds exactly for an index in [0, size) with the element there; otherwise ArrayIndexOutOfBoundsException |
| DoubleList.DoubleList.Set | src/com/ewjordan/util/DoubleList.java:124-127 | succeeds exactly for an index in [0, size), replacing that one element; otherwise ArrayIndexOutOfBoundsException and nothing changes |
| DoubleList.DoubleList.Increment | src/com/ewjordan/util/DoubleList.java:129-132 | succeeds exactly for an index in [0, size), adding to that one element; otherwise ArrayIndexOutOfBoundsException and nothing changes |
| DoubleList.DoubleList.Add | src/com/ewjordan/util/DoubleList.java:94-101 | the value is appended and the list stays valid; a full backing array is replaced by one of the grown capacity, otherwise the array is kept |
| DoubleList.DoubleList.Resize | src/com/ewjordan/util/DoubleList.java:104-108 | a fresh backing array of the new size keeps every element, and its slots beyond the old array are zero |
| DoubleList.DoubleList.GetBackingArray | src/com/ewjordan/util/DoubleList.java:110-117 | the returned array is the list's own backing array, packed to exactly the list's elements |
| DoubleList.DoubleList.AddAll | src/com/ewjordan/util/DoubleList.java:82-86 | the other list's elements are appended in order |
| DoubleList.DoubleList.AddArray | src/com/ewjordan/util/DoubleList.java:88-92 | the array's elements are appended in order |
| DoubleList.DoubleList.Clone | src/com/ewjordan/util/DoubleList.java:69-76 | a new list in storage of its own with the same elements and multiplier |
| DoubleList.DoubleList.DividedBy | src/com/ewjordan/util/DoubleList.java:18-26 | IllegalArgumentException exactly when the sizes differ; otherwise a fresh list of the elementwise quotients |
| DoubleList.CreateAndFill | src/com/ewjordan/util/DoubleList.java:46-52 | a new list of `size` copies of the value |
| DoubleHistogram.SumIncrement | src/com/ewjordan/util/DoubleHistogram.java:161-166 | adding one to a single bucket adds one to the total, which keeps totalMembers equal to the count total |
| DoubleHistogram.SumNonPositive | src/com/ewjordan/util/DoubleHistogram.java:58-70 | counts that are none of them positive have a total that is not positive |
| DoubleHistogram.TracksIncrement | src/com/ewjordan/util/DoubleHistogram.java:161-165 | counting one more in a bucket and taking that bucket as the fullest when it now exceeds maxCount keeps maxCount the largest count and maxCountIndex a bucket holding it |
| DoubleHistogram.FirstMaxStep | src/com/ewjordan/util/DoubleHistogram.java:63-70 | one more rounded count, taken as the fullest only when strictly above maxCount, keeps maxCountIndex the first bucket holding the largest positive count and the total right |
| DoubleHistogram.FirstMaxNone | src/com/ewjordan/util/DoubleHistogram.java:58-70 | under setBuckets' tracking, maxCountIndex is -1 exactly when no count is positive |
| DoubleHistogram.RoundedCount | src/com/ewjordan/util/DoubleHistogram.java:64 | a premultiplied content rounded by Math.round and narrowed to int lies in the int range |
| DoubleHistogram.Rounded | src/com/ewjordan/util/DoubleHistogram.java:63-64 | one rounded count per content |
| DoubleHistogram.RoundCounts | src/com/ewjordan/util/DoubleHistogram.java:59-70 | a fresh array of the rounded contents, with the first index of the largest positive count (-1 when none is positive), that count, and the total of all counts |
| DoubleHistogram.RoundedSnoc | src/com/ewjordan/util/DoubleHistogram.java:63-64 | rounding one more content appends exactly its rounded count |
| DoubleHistogram.BucketIndex | src/com/ewjordan/util/DoubleHistogram.java:153-160 | with buckets the index always lies inside the array; with none it lies outside it |
| DoubleHistogram.BucketExact | src/com/ewjordan/util/DoubleHistogram.java:153 | with positive width, a value in [min + k*delta, min + (k+1)*delta) lands in bucket k |
| DoubleHistogram.BucketOfRangeEnds | src/com/ewjordan/util/DoubleHistogram.java:43-53 | for a range split into n buckets of positive width, the minimum falls in the first bucket and the maximum in the last |
| DoubleHistogram.AddedAll | src/com/ewjordan/util/DoubleHistogram.java:142-146 | adding values one by one keeps the number of buckets |
| DoubleHistogram.AddedAllCounts | src/com/ewjordan/util/DoubleHistogram.java:142-166 | every added value is counted exactly once: the total grows by the number of values |
| DoubleHistogram.BucketStrings | src/com/ewjordan/util/DoubleHistogram.java:213 | one decimal string per bucket |
| DoubleHistogram.TSVRowTabs | src/com/ewjordan/util/DoubleHistogram.java:209-216 | the row holds one tab fewer than there are buckets, and it neither starts nor ends with a tab |
| DoubleHistogram.ZerosSum | src/com/ewjordan/util/DoubleHistogram.java:132-134 | zeroed buckets total zero |
| DoubleHistogram.DoubleHistogram.constructor | src/com/ewjordan/util/DoubleHistogram.java:43-53 | nBuckets buckets over [minVal, maxVal] of width (maxVal - minVal) / nBuckets, titled "doubleHistogram", holding the counts of every value; totalMembers is the number of values and a fullest bucket is marked exactly when there was a value |
| DoubleHistogram.DoubleHistogram.FromValues | src/com/ewjordan/util/DoubleHistogram.java:33-35 | as the four-argument constructor, over the range from the least to the greatest value, scanned as in lines 169-183 |
| DoubleHistogram.DoubleHistogram.NonEmptyMarked | src/com/ewjordan/util/DoubleHistogram.java:161-166 | a positive total means some bucket was counted, so maxCount is positive |
| DoubleHistogram.DoubleHistogram.AddValue | src/com/ewjordan/util/DoubleHistogram.java:152-167 | ArrayIndexOutOfBoundsException with nothing changed exactly when there are no buckets; otherwise bucket BucketIndex(val) gains one count, totalMembers grows by one and the fullest-bucket tracking stays right |
| DoubleHistogram.DoubleHistogram.AddValues | src/com/ewjordan/util/DoubleHistogram.java:142-146 | the buckets become AddedAll of the values, totalMembers grows by their number; it fails exactly when there are values and no buckets |
| DoubleHistogram.DoubleHistogram.ClearAndFillBuckets | src/com/ewjordan/util/DoubleHistogram.java:131-136 | the buckets become the counts of exactly these values and totalMembers their number; maxCountIndex is not reset |
| DoubleHistogram.DoubleHistogram.SetBuckets | src/com/ewjordan/util/DoubleHistogram.java:58-73 | fresh buckets of the rounded contents; maxCountIndex is -1 exactly when no count is positive and otherwise the first bucket holding the largest count; the width is recomputed for the new bucket number |
| DoubleHistogram.DoubleHistogram.GetNumberOfObservations | src/com/ewjordan/util/DoubleHistogram.java:75-81 | the total of the bucket counts, which equals totalMembers |
| DoubleHistogram.DoubleHistogram.BucketsToDoubleList | src/com/ewjordan/util/DoubleHistogram.java:118-124 | one entry per bucket, each count widened to a double, in order |
| DoubleHistogram.DoubleHistogram.ToExcelTSVRow | src/com/ewjordan/util/DoubleHistogram.java:209-216 | the bucket counts in decimal joined by tabs |
| ObservationSummary.ObservationSummary.constructor | src/com/ewjordan/util/ObservationSummary.java:30-37 | no observations: sum 0, product 1, sum of squares 0, min Double.MAX_VALUE, max -Double.MAX_VALUE |
| ObservationSummary.ObservationSummary.Add | src/com/ewjordan/util/ObservationSummary.java:43-50 | the running fields become the folds over the observations with num appended, the count grows by one, and min <= num <= max afterwards |
| ObservationSummary.ObservationSummary.AddAll | src/com/ewjordan/util/ObservationSummary.java:53-57 | the observations grow by the array's elements in order |
| ObservationSummary.ObservationSummary.AddBoolean | src/com/ewjordan/util/ObservationSummary.java:60-62 | true is observed as 1.0 and false as 0.0 |
| ObservationSummary.ObservationSummary.SetZeroMeansIfNoData | src/com/ewjordan/util/ObservationSummary.java:86-88 | only the flag changes |
| ObservationSummary.ObservationSummary.GetCount | src/com/ewjordan/util/ObservationSummary.java:65-67 | the number of observations added |
| ObservationSummary.ObservationSummary.GetMin | src/com/ewjordan/util/ObservationSummary.java:70-72 | at most every observation, Double.MAX_VALUE with none, and one of the observations once there are finite ones |
| ObservationSummary.ObservationSummary.GetMax | src/com/ewjordan/util/ObservationSummary.java:75-77 | at least every observation, -Double.MAX_VALUE with none, and one of the observations once there are finite ones |
| ObservationSummary.ObservationSummary.GetArithmeticMean | src/com/ewjordan/util/ObservationSummary.java:91-95 | with no observations 0.0 or Double.MAX_VALUE as the flag says; otherwise the mean of the observations, lying between their minimum and maximum |
| ObservationSummary.ObservationSummary.GetVariance | src/com/ewjordan/util/ObservationSummary.java:104-108 | Double.MAX_VALUE for fewer than two observations; otherwise the unbiased sample variance, the squared deviations of the observations from their mean divided by n - 1, which is non-negative |
| ObservationSummary.SampleVariance | src/com/ewjordan/util/ObservationSummary.java:104-108 | for more than one observation, the running-sum formula equals the sum of squared deviations from the mean divided by n - 1 |
| ObservationSummary.AtMean | src/com/ewjordan/util/ObservationSummary.java:107 | about the mean, the expanded squared deviations divided by n - 1 equal the formula q/(n-1) - t*t/(n*(n-1)) |
| ObservationSummary.UnbiasedVariance | src/com/ewjordan/util/ObservationSummary.java:107 | the estimate is non-negative whenever the square of the total is at most the count times the sum of squares |
| ObservationSummary.FieldsSpread | src/com/ewjordan/util/ObservationSummary.java:105-108 | running fields that are folds over some observations satisfy sum*sum <= count*sumOfSquares |
| ObservationSummary.VarianceNonNeg | src/com/ewjordan/util/ObservationSummary.java:107 | the variance formula is non-negative once sum*sum <= count*sumOfSquares |
| ObservationSummary.SummarisesAppend | src/com/ewjordan/util/ObservationSummary.java:43-50 | the updates add(num) makes keep every field the fold over the longer sequence, and leave min <= num <= max |
| ObservationSummary.ProductAppend | src/com/ewjordan/util/ObservationSummary.java:45 | multiplying the running product by num gives the product of the longer sequence |
| ObservationSummary.SquaresAppend | src/com/ewjordan/util/ObservationSummary.java:46 | adding num*num to the running sum of squares gives that of the longer sequence |
| ObservationSummary.TableAscending | src/com/ewjordan/util/ObservationSummary.java:123-160 | both columns of confidenceProbs ascend strictly |
| ObservationSummary.ProbabilityAscending | src/com/ewjordan/util/ObservationSummary.java:123-160 | the probability column ascends strictly |
| ObservationSummary.QuantileAscending | src/com/ewjordan/util/ObservationSummary.java:123-160 | the quantile column ascends strictly |
| ObservationSummary.TableMonotone | src/com/ewjordan/util/ObservationSummary.java:123-160 | entries of one column keep their order however far apart |
| ObservationSummary.ConfidenceLookup | src/com/ewjordan/util/ObservationSummary.java:162-177 | the loop returns exactly the lookup function's answer, error cases included |
| ObservationSummary.ConfidenceRange | src/com/ewjordan/util/ObservationSummary.java:163 | the lookup throws exactly for probabilities outside [0.05, 0.999] |
| ObservationSummary.ConfidenceAtRow | src/com/ewjordan/util/ObservationSummary.java:162-177 | at any row's probability but the last the lookup returns that row's quantile, the three hard-coded answers included |
| ObservationSummary.TableEnds | src/com/ewjordan/util/ObservationSummary.java:124-159 | the table's first probability is 0.05 and its last 0.999, the bounds line 163 checks |
| ObservationSummary.ScannedConfidence | src/com/ewjordan/util/ObservationSummary.java:162-174 | an accepted probability other than the three hard-coded ones is answered by the table scan |
| ObservationSummary.ScanHitsRow | src/com/ewjordan/util/ObservationSummary.java:170-174 | given a row's probability, the scan stops at that row and interpolates exactly onto its quantile |
| ObservationSummary.SpecialRows | src/com/ewjordan/util/ObservationSummary.java:165-167 | 0.95, 0.99 and 0.9 are the probabilities of rows 22, 26 and 17 and of no other, and the hard-coded answers are those rows' quantiles |
| ObservationSummary.SameRow | src/com/ewjordan/util/ObservationSummary.java:123-160 | two rows of the table with equal probabilities are the same row |
| ObservationSummary.ScanWithinTable | src/com/ewjordan/util/ObservationSummary.java:170-174 | below the last probability the scan never falls through and answers a quantile between the first and the last row's |
| ObservationSummary.ScanStopsWithin | src/com/ewjordan/util/ObservationSummary.java:171-172 | where the scan stops, the interpolated quantile lies between the first and the last row's |
| ObservationSummary.ConfidenceWithinTable | src/com/ewjordan/util/ObservationSummary.java:162-177 | every accepted probability below 0.999 gets an answer within the quantile column's range |
| ObservationSummary.ConfidenceAtLastRow | src/com/ewjordan/util/ObservationSummary.java:170-176 | as written, 0.999 is accepted but answered with 0 instead of the last row's 3.290526731 |
| ObservationSummary.ScanMisses | src/com/ewjordan/util/ObservationSummary.java:170-176 | scanning for the last probability falls through from any row and yields 0 |
| ObservationSummary.CorrectedAtRow | src/com/ewjordan/util/ObservationSummary.java:162-177 | the corrected lookup returns every row's quantile at that row's probability, the last row included |
| ObservationSummary.CorrectedHit | src/com/ewjordan/util/ObservationSummary.java:170-174 | the corrected scan stops at the row whose probability is given and yields its quantile |
| ObservationSummary.ScanFrom | src/com/ewjordan/util/ObservationSummary.java:170-176 | no contract of its own: the table scan; ObservationSummary.ScanHitsRow, ScanWithinTable and ScanMisses state its meaning |
| ObservationSummary.Confidence | src/com/ewjordan/util/ObservationSummary.java:162-177 | no contract of its own: confidenceLookup as written; ObservationSummary.ConfidenceRange, ConfidenceAtRow, ConfidenceWithinTable and ConfidenceAtLastRow state its meaning |
| StoredObservationSummary.Median | src/com/ewjordan/util/StoredObservationSummary.java:55-61 | 0 with no observations, the middle element for an odd count and the mean of the two middle ones for an even count |
| StoredObservationSummary.MedianSplits | src/com/ewjordan/util/StoredObservationSummary.java:55-61 | the median of a sorted sequence lies at or above its lower half and at or below its upper half |
| StoredObservationSummary.LastIndexBelow | src/com/ewjordan/util/StoredObservationSummary.java:72-78 | -1 or an index whose element is below the value, with no later element below it |
| StoredObservationSummary.CountBelow | src/com/ewjordan/util/StoredObservationSummary.java:63-65 | the number of elements below the value is at most the size |
| StoredObservationSummary.CountBelowAscending | src/com/ewjordan/util/StoredObservationSummary.java:72-82 | in a sorted sequence lastIndexBelow + 1 is the number of elements below the value |
| StoredObservationSummary.CountBelowMonotone | src/com/ewjordan/util/StoredObservationSummary.java:63-65 | a larger value has at least as many elements below it |
| StoredObservationSummary.ProportionInUnit | src/com/ewjordan/util/StoredObservationSummary.java:66-86 | getProportionAtValue always answers a proportion in [0, 1] |
| StoredObservationSummary.ProportionIsFractionBelow | src/com/ewjordan/util/StoredObservationSummary.java:66-86 | with observations on both sides of the value, the answer is the fraction of observations below it |
| StoredObservationSummary.ProportionMonotone | src/com/ewjordan/util/StoredObservationSummary.java:66-86 | a larger value never gets a smaller proportion |
| StoredObservationSummary.ProportionBelowMonotone | src/com/ewjordan/util/StoredObservationSummary.java:63-65 | the documented proportion below a value lies in [0, 1] and grows with the value |
| StoredObservationSummary.ProportionAtMaximum | src/com/ewjordan/util/StoredObservationSummary.java:66-86 | on two or more observations the answer is the documented proportion below the value exactly when the value is not the largest observation; at the largest it answers 1.0 |
| StoredObservationSummary.TieAtMaximum | src/com/ewjordan/util/StoredObservationSummary.java:80 | at the largest observation the answer is 1.0 although the proportion below it is less than 1 |
| StoredObservationSummary.ProportionTieExample | src/com/ewjordan/util/StoredObservationSummary.java:80 | two observations of 5 and the value 5: the answer is 1.0 where the proportion below is 0 |
| StoredObservationSummary.ValueAtProportionIsFractile | src/com/ewjordan/util/StoredObservationSummary.java:97-111 | for a fraction in [0, 1] the read of the sorted observations is exactly MathUtil.findFractile's read |
| StoredObservationSummary.ValueAtHalfIsMedian | src/com/ewjordan/util/StoredObservationSummary.java:89-91 | getValueAtProportion(0.5) is the median, as the class documents and its test at line 158 expects |
| StoredObservationSummary.ValueAtProportionInRange | src/com/ewjordan/util/StoredObservationSummary.java:97-111 | a fraction in [0, 1] gives a value between the least and the greatest observation |
| StoredObservationSummary.StoredObservationSummary.constructor | src/com/ewjordan/util/StoredObservationSummary.java:24-28 | no observations, no sorted copy, not sorted |
| StoredObservationSummary.StoredObservationSummary.Add | src/com/ewjordan/util/StoredObservationSummary.java:34-38 | the value is appended to the stored observations and the inherited summary; the sorted copy is marked stale and left as it was |
| StoredObservationSummary.StoredObservationSummary.AddAll | src/com/ewjordan/util/ObservationSummary.java:53-57 | the inherited add(double...) through this class's add: the observations grow by the array in order and any addition marks the sorted copy stale |
| StoredObservationSummary.StoredObservationSummary.SortObservations | src/com/ewjordan/util/StoredObservationSummary.java:44-52 | afterwards the sorted copy is current and is the sorted permutation of the observations, which keep their order |
| StoredObservationSummary.StoredObservationSummary.GetMedian | src/com/ewjordan/util/StoredObservationSummary.java:55-61 | the median of the sorted observations |
| StoredObservationSummary.StoredObservationSummary.GetProportionAtValue | src/com/ewjordan/util/StoredObservationSummary.java:66-86 | getProportionAtValue's answer over the sorted observations |
| StoredObservationSummary.StoredObservationSummary.GetValueAtProportion | src/com/ewjordan/util/StoredObservationSummary.java:92-112 | 0 while no sorted copy was ever built; 0 or the first observation when the copy, possibly stale, holds none or one; otherwise the interpolated read of the freshly sorted observations |
| StoredObservationSummary.ScanProportion | src/com/ewjordan/util/StoredObservationSummary.java:71-85 | the scan for lastIndexBelow and firstIndexAbove answers getProportionAtValue's value |
| StoredObservationSummary.StaleSingle | src/com/ewjordan/util/StoredObservationSummary.java:95 | a sorted copy of a single observation holds the first observation there was |
| StoredObservationSummary.ProportionAtValue | src/com/ewjordan/util/StoredObservationSummary.java:67-86 | no contract of its own: getProportionAtValue as written; StoredObservationSummary.ProportionInUnit, ProportionIsFractionBelow, ProportionMonotone and ProportionAtMaximum state its meaning |
| StoredObservationSummary.ProportionBelow | src/com/ewjordan/util/StoredObservationSummary.java:63-66 | no contract of its own: the proportion of observations lower than the value, as documented; StoredObservationSummary.ProportionBelowMonotone proves it a monotone proportion |
| StoredObservationSummary.ValueAtProportion | src/com/ewjordan/util/StoredObservationSummary.java:96-111 | no contract of its own: the read after sorting; StoredObservationSummary.ValueAtProportionIsFractile, ValueAtHalfIsMedian and ValueAtProportionInRange state its meaning |
| MathUtil.Map | src/com/ewjordan/util/MathUtil.java:7-11 | the map sends fromMin to toMin and fromMax to toMax |
| MathUtil.MapUnitBetween | src/com/ewjordan/util/MathUtil.java:7-11 | a point of [0, 1] maps to a point between toMin and toMax |
| MathUtil.MapBetween | src/com/ewjordan/util/MathUtil.java:7-11 | a point of [fromMin, fromMax] maps to a point between toMin and toMax |
| MathUtil.FindFractile | src/com/ewjordan/util/MathUtil.java:13-22 | the array is left sorted (the ascending permutation of its old contents) and the answer is the fractile read of the sorted contents |
| MathUtil.FractileZero | src/com/ewjordan/util/MathUtil.java:13-22 | the 0-fractile of a non-empty sorted array is its first element |
| MathUtil.FractileOne | src/com/ewjordan/util/MathUtil.java:13-22 | the 1-fractile of a non-empty sorted array is its last element, indexHi being clamped back to the last index |
| MathUtil.ReadAtBetween | src/com/ewjordan/util/MathUtil.java:16-21 | at a position in [0, n-1] the read exists and lies between the elements at indexLo and indexHi |
| MathUtil.Position | src/com/ewjordan/util/MathUtil.java:15 | for a fraction in [0, 1] the position lies in [0, n-1] |
| MathUtil.FractileBetween | src/com/ewjordan/util/MathUtil.java:13-22 | for a fraction in [0, 1] the fractile of a non-empty array exists and lies between the two elements around its position |
| MathUtil.FractileInRange | src/com/ewjordan/util/MathUtil.java:13-22 | for a fraction in [0, 1] the fractile lies between the least and the greatest element |
| MathUtil.Fractile | src/com/ewjordan/util/MathUtil.java:15-21 | no contract of its own: findFractile on sorted input; MathUtil.FractileZero, FractileOne, FractileBetween and FractileInRange state its meaning |
| MathUtil.ReadAt | src/com/ewjordan/util/MathUtil.java:16-21 | no contract of its own: the clamped, interpolated read; MathUtil.ReadAtBetween proves it lies between its neighbours |
| Sorting.Insert | src/com/ewjordan/util/StoredObservationSummary.java:50 | inserting into a sorted sequence keeps it sorted and adds exactly the one element |
| Sorting.SortedCopy | src/com/ewjordan/util/MathUtil.java:14 | the sorted rearrangement is ascending and a permutation of its input |
| Sorting.PermutationBounds | src/com/ewjordan/util/MathUtil.java:14 | the first and last elements of a sorted permutation are the least and the greatest of the original |
| Spinner.PrefixSums | src/com/ewjordan/util/random/Spinner.java:229-230 | one running total per weight |
| Spinner.Select | src/com/ewjordan/util/random/Spinner.java:233-238 | the count-down picks 0 or an index below n whose total the draw has reached |
| Spinner.FirstNegative | src/com/ewjordan/util/random/Spinner.java:224-228 | every weight before the returned index is non-negative and the weight at it, if any, is negative |
| Spinner.Spin | src/com/ewjordan/util/random/Spinner.java:218-239 | IllegalArgumentException with aux untouched when aux is shorter than the weights; with a separate aux the answer is the spinner function of the weights and aux holds their running totals up to the first negative weight; when aux is the weights array itself every total read is 0, and on a negative weight the slots before it hold 0 and the rest are untouched |
| Spinner.FillTotals | src/com/ewjordan/util/random/Spinner.java:222-231 | stops at the first negative weight, leaves the entries from there on untouched, and before it writes the running totals (all 0 when aux is the weights array) |
| Spinner.FillTotalsApart | src/com/ewjordan/util/random/Spinner.java:222-231 | with a separate array, the entries before the first negative weight are the running totals and the rest are untouched |
| Spinner.TotalsPrefix | src/com/ewjordan/util/random/Spinner.java:229-230 | entries that are each the total of the weights before them form a prefix of the running totals |
| Spinner.FillTotalsInPlace | src/com/ewjordan/util/random/Spinner.java:222-231 | with the weights array as aux each slot is overwritten by a total that stays 0, up to the first negative weight |
| Spinner.NoNegativeBefore | src/com/ewjordan/util/random/Spinner.java:224-228 | the first negative weight the loop meets is the first negative weight |
| Spinner.ZeroTotals | src/com/ewjordan/util/random/Spinner.java:233-238 | with every total 0 a non-negative draw picks the last index and a negative one picks 0 |
| Spinner.Choose | src/com/ewjordan/util/random/Spinner.java:233-238 | the count-down loop returns the selection function's index |
| Spinner.SpinFresh | src/com/ewjordan/util/random/Spinner.java:203-206 | spinner with an aux array of its own answers the spinner function of the weights |
| Spinner.SpinList | src/com/ewjordan/util/random/Spinner.java:241-247 | the list copied to an array answers the spinner function of the list |
| Spinner.Normalized | src/com/ewjordan/util/random/Spinner.java:176-179 | one weight per input, each of which times the total gives back the input |
| Spinner.Uniform | src/com/ewjordan/util/random/Spinner.java:170-171 | the replacement for a zero total has one weight per input |
| Spinner.NormalizedSpin | src/com/ewjordan/util/random/Spinner.java:164-181 | a zero total answers the spinner on equal weights, or StackOverflowError with no weights; a negative total is IllegalArgumentException; a positive one answers the spinner on the normalised weights |
| Spinner.NormalizedSpinFloat | src/com/ewjordan/util/random/Spinner.java:73-88 | a total of zero or less is IllegalArgumentException; a positive one answers the spinner on the normalised weights |
| Spinner.NormalizedSpinList | src/com/ewjordan/util/random/Spinner.java:249-255 | the list copied to an array behaves as normalizedSpinner(double...) on it |
| Spinner.Total | src/com/ewjordan/util/random/Spinner.java:165-168 | the summing loop computes the total of the weights |
| Spinner.NormalizeInto | src/com/ewjordan/util/random/Spinner.java:176-179 | a fresh array of the normalised weights |
| Spinner.OnesSum | src/com/ewjordan/util/random/Spinner.java:170-172 | n weights of 1 total n, so the replacement weights have a positive total |
| Spinner.PrefixSumsAscending | src/com/ewjordan/util/random/Spinner.java:229-230 | running totals of non-negative weights never decrease |
| Spinner.SpunInterval | src/com/ewjordan/util/random/Spinner.java:90-101 | for non-negative weights and a draw r >= 0, index k is picked exactly when r has reached the total before k and not the total before k+1, the last index taking every draw from its total up (so a total below 1 leaves the remainder to it) |
| Spinner.SelectInterval | src/com/ewjordan/util/random/Spinner.java:233-238 | the count-down over running totals picks k exactly when the draw lies in k's interval |
| Spinner.ExcessDiscarded | src/com/ewjordan/util/random/Spinner.java:98-101 | with a draw below 1 no index whose preceding total is 1 or more is ever picked: weight past a total of 1 is discarded |
| Spinner.SpunInRange | src/com/ewjordan/util/random/Spinner.java:218-239 | over non-negative weights every draw picks an index of the array, and 0 for an empty one |
| Spinner.NormalizedTotals | src/com/ewjordan/util/random/Spinner.java:57-63 | the running totals of the normalised weights times the total are the running totals of the weights, so normalizedSpinner picks each index in proportion to its weight |
| Spinner.SumSlice | src/com/ewjordan/util/random/Spinner.java:229-230 | the total of the first i weights is that of the first i-1 plus weight i-1 |
| Spinner.Spun | src/com/ewjordan/util/random/Spinner.java:218-238 | no contract of its own: the index spinner picks; Spinner.SpunInterval (index k exactly for draws in its interval) and Spinner.SpunInRange state its meaning |
| SimpleIO.Transposed | src/com/ewjordan/util/SimpleIO.java:645-658 | the transpose has one list per row of the input, each with one entry per column, and entry [i][j] is input column j's entry i |
| SimpleIO.TransposeMatrix | src/com/ewjordan/util/SimpleIO.java:645-658 | when every column is at least as long as the first the result is the transpose and the input is untouched; otherwise IndexOutOfBoundsException |
| SimpleIO.TransposeTwice | src/com/ewjordan/util/SimpleIO.java:641-644 | transposing a rectangular matrix with at least one row twice gives it back |
| SimpleIO.TransposeNoRows | src/com/ewjordan/util/SimpleIO.java:646-649 | a matrix with no columns, or whose first column is empty, transposes to nothing |
| SimpleIO.TransposeTruncates | src/com/ewjordan/util/SimpleIO.java:647-655 | columns longer than the first are read only up to the first column's length |
| SimpleIO.OutputPath | src/com/ewjordan/util/SimpleIO.java:273-277 | the name itself when absolute paths are configured or it starts with '/'; otherwise the working directory, "/output/" and the name |
| SimpleIO.OutputPathEndsWithName | src/com/ewjordan/util/SimpleIO.java:273-277 | the resolved path always ends with the file name |
| SimpleIO.OutputPathIdempotent | src/com/ewjordan/util/SimpleIO.java:273-277 | with an absolute working directory, resolving a resolved path changes nothing |
| SimpleIO.Cells | src/com/ewjordan/util/SimpleIO.java:546-549 | one formatted cell per column |
| SimpleIO.PartialStep | src/com/ewjordan/util/SimpleIO.java:538-549 | writing one more part appends it and, unless it is the last, a comma |
| SimpleIO.PartialJoin | src/com/ewjordan/util/SimpleIO.java:538-549 | once every part is written the text is the parts joined by commas, with no trailing comma |
| SimpleIO.WriteHeader | src/com/ewjordan/util/SimpleIO.java:537-543 | the header loop writes the titles joined by commas, then a newline |
| SimpleIO.WriteLine | src/com/ewjordan/util/SimpleIO.java:546-550 | row i's cells joined by commas and a newline, or IndexOutOfBoundsException when a column has no row i |
| SimpleIO.SaveToString | src/com/ewjordan/util/SimpleIO.java:535-553 | the header (when there are titles) and one comma-separated line per row of the first column; IndexOutOfBoundsException when a column is shorter than the first |
| SimpleIO.NewlineCount | src/com/ewjordan/util/SimpleIO.java:535-553 | with no newline inside titles or cells, the text has one newline for the header (when there are titles) and one per row |
| SimpleIO.LinesNewlines | src/com/ewjordan/util/SimpleIO.java:545-551 | the row lines hold one newline per row |
| SimpleIO.LineNewline | src/com/ewjordan/util/SimpleIO.java:546-550 | a row's line holds exactly one newline |
| SimpleIO.JoinNoChar | src/com/ewjordan/util/SimpleIO.java:546-549 | joining parts free of a character with a different separator gives a text free of it |
| SimpleIO.LineCommas | src/com/ewjordan/util/SimpleIO.java:546-550 | with no comma inside a cell, each row line holds one comma fewer than there are columns |
| Text.NatToString | src/com/ewjordan/util/DoubleHistogram.java:213 | a non-empty string of decimal digits |
| Text.IntToString | src/com/ewjordan/util/DoubleHistogram.java:213 | a non-empty rendering that starts with '-' exactly for a negative int |
| Text.CountAppend | src/com/ewjordan/util/DoubleHistogram.java:212-213 | character counts add up over concatenation |
| Text.JoinCount | src/com/ewjordan/util/DoubleHistogram.java:209-216 | joining n parts free of the separator character puts exactly n-1 separators in |
| Text.CountAbsent | src/com/ewjordan/util/DoubleHistogram.java:213 | a string without a character counts none of it |
| Text.IntToStringChars | src/com/ewjordan/util/DoubleHistogram.java:213 | a rendered int holds only digits and a minus sign |
| Text.JoinEnds | src/com/ewjordan/util/DoubleHistogram.java:209-216 | a join of non-empty parts starts with the first part's first character and ends with the last part's last character |
| JavaNum.Truncate | src/com/ewjordan/util/MathUtil.java:16 | the cast's truncation toward zero: the integer within one of x on the side of zero |
| JavaNum.TruncateIntegral | src/com/ewjordan/util/MathUtil.java:16 | truncation leaves an integral value unchanged |
| JavaNum.Saturate | src/com/ewjordan/util/DoubleHistogram.java:153 | the clamped value lies in the range and equals the input when that already does |
| JavaNum.DoubleToInt | src/com/ewjordan/util/MathUtil.java:16 | `(int)` of a double lies in the int range and keeps an integral value in that range |
| JavaNum.DoubleToLong | src/com/ewjordan/util/objectWrap/WrappedObject.java:119 | `(long)` of a double lies in the long range and keeps an integral value in that range |
| JavaNum.DivideToInt | src/com/ewjordan/util/DoubleHistogram.java:153 | `(int)(x / y)` lies in the int range; a zero divisor gives 0 exactly for 0/0 (NaN) and a saturated infinity otherwise |
| JavaNum.WrapInt | src/com/ewjordan/util/MathUtil.java:17 | int arithmetic wraps into the int range and leaves in-range results alone |
| JavaNum.MathRound | src/com/ewjordan/util/DoubleHistogram.java:64 | Math.round of a double lies in the long range |
| PolynomialFunction.PolySnoc | src/com/ewjordan/util/objectWrap/test/PolynomialFunction.java:28-37 | the value is the higher terms' value times x plus the last coefficient, the constant term |
| PolynomialFunction.PolyIsHorner | src/com/ewjordan/util/objectWrap/test/PolynomialFunction.java:28-37 | the term-by-term sum and Horner's rule agree on every coefficient vector |
| PolynomialFunction.PolyAtZero | src/com/ewjordan/util/objectWrap/test/PolynomialFunction.java:28-37 | at x = 0 the value is the last coefficient, or 0 with no coefficients |
| PolynomialFunction.PolyLeading | src/com/ewjordan/util/objectWrap/test/PolynomialFunction.java:28-37 | with n coefficients all zero but the first, the value is that coefficient times x to the power n-1: the first coefficient has the highest degree |
| PolynomialFunction.ZeroPoly | src/com/ewjordan/util/objectWrap/test/PolynomialFunction.java:28-37 | all-zero coefficients give the zero polynomial |
| PolynomialFunction.PolynomialFunction.constructor | src/com/ewjordan/util/objectWrap/test/PolynomialFunction.java:15-18 | the coefficients are a fresh copy of the arguments |
| PolynomialFunction.PolynomialFunction.GetValue | src/com/ewjordan/util/objectWrap/test/PolynomialFunction.java:28-37 | the loop computes the polynomial of the coefficients at x |
| PolynomialFunction.PolynomialFunction.GetValueAt | src/com/ewjordan/util/objectWrap/test/PolynomialFunction.java:20-26 | the polynomial at the input, with x afterwards as before |
| PolynomialFunction.PolynomialFunction.Value | src/com/ewjordan/util/objectWrap/test/PolynomialFunction.java:40-42 | the polynomial at point[0], or ArrayIndexOutOfBoundsException for an empty point; x is unchanged |
| PolynomialFunction.Poly | src/com/ewjordan/util/objectWrap/test/PolynomialFunction.java:28-37 | no contract of its own: the sum of coefficient times power; PolynomialFunction.PolyIsHorner, PolyAtZero and PolyLeading state its meaning |
| PolynomialFunction.Horner | src/com/ewjordan/util/objectWrap/test/PolynomialFunction.java:28-37 | no contract of its own: Horner's rule, the independent reading; PolynomialFunction.PolyIsHorner proves the two agree |
| PrimitiveReference.KindOf | src/com/ewjordan/util/objectWrap/PrimitiveReference.java:100-116 | boolean, int, float, double and long have a reference type of the same primitive type; byte, short and char have none |
| PrimitiveReference.WidenFits | src/com/ewjordan/util/objectWrap/PrimitiveReference.java:245-259 | a widening conversion keeps a value within the wider type |
| PrimitiveReference.Locate | src/com/ewjordan/util/objectWrap/PrimitiveReference.java:225-259 | a successful access lands on a slot of the reference's own declared field: a field's own slot for a field reference, the indexed element of a non-null array of the reference's element type for an element reference |
| PrimitiveReference.SetOnlyWritesItsSlot | src/com/ewjordan/util/objectWrap/PrimitiveReference.java:225-243 | a write succeeds exactly when its slot can be located, and then overwrites that slot and nothing else |
| PrimitiveReference.GetAfterSet | src/com/ewjordan/util/objectWrap/PrimitiveReference.java:225-259 | reading back a slot of exactly the reference's type after writing it gives the written value |
| PrimitiveReference.ElementErrors | src/com/ewjordan/util/objectWrap/PrimitiveReferenceIntoArray.java:34-68 | element access throws NullPointerException on a null array, ClassCastException on another element type and ArrayIndexOutOfBoundsException outside the array, in that order |
| PrimitiveReference.LocatedFits | src/com/ewjordan/util/objectWrap/PrimitiveReference.java:245-259 | in a well-formed object every located slot is present and holds a value of its declared type |
| PrimitiveReference.GetFits | src/com/ewjordan/util/objectWrap/PrimitiveReference.java:245-259 | a successful read of a well-formed object gives a value of the reference's type |
| PrimitiveReference.SetKeepsWellFormed | src/com/ewjordan/util/objectWrap/PrimitiveReference.java:225-243 | writing a value of the reference's type keeps the object well formed |
| PrimitiveReference.NewArrayReference | src/com/ewjordan/util/objectWrap/PrimitiveReferenceIntoArray.java:28-32 | IllegalArgumentException exactly when the field's type is not an array type; otherwise an element reference at the index with the given bounds |
| PrimitiveReference.Clone | src/com/ewjordan/util/objectWrap/PrimitiveReferenceIntoArray.java:19-26 | a clone equals the original, the index of an element reference included |
| PrimitiveReference.CopyAsFieldReference | src/com/ewjordan/util/objectWrap/PrimitiveReference.java:190-197 | the copy constructor keeps type, field, bounds and scale but makes a base-class reference |
| PrimitiveReference.CopiedElementFails | src/com/ewjordan/util/objectWrap/PrimitiveReference.java:190-197 | the base-class copy of an element reference can neither read nor write its array field |
| PrimitiveReference.IsArrayMember | src/com/ewjordan/util/objectWrap/PrimitiveReference.java:265-267 | isArrayMember() is false for every reference, element references included |
| PrimitiveReference.GetFieldName | src/com/ewjordan/util/objectWrap/PrimitiveReferenceIntoArray.java:15-17 | the field's name, followed for an element reference by ", index " and the index in decimal |
| PrimitiveReference.FieldNamesDistinguishIndices | src/com/ewjordan/util/objectWrap/PrimitiveReferenceIntoArray.java:15-17 | two element references of one field have the same name exactly when their indices are equal |
| PrimitiveReference.IntToStringInjective | src/com/ewjordan/util/objectWrap/PrimitiveReferenceIntoArray.java:16 | different ints render differently |
| PrimitiveReference.ElementRefs | src/com/ewjordan/util/objectWrap/PrimitiveReference.java:122-126 | one element reference per index of the array, in index order, with the default bounds |
| PrimitiveReference.GetAllReferencesFrom | src/com/ewjordan/util/objectWrap/PrimitiveReference.java:67-188 | the loop over the declared fields returns the discovery function's references or exception |
| PrimitiveReference.DiscoveredStep | src/com/ewjordan/util/objectWrap/PrimitiveReference.java:73-186 | one more field appends its references, or its exception ends discovery |
| PrimitiveReference.DiscoveredErrorStays | src/com/ewjordan/util/objectWrap/PrimitiveReference.java:169-170 | once a field throws, discovery as a whole throws that exception |
| PrimitiveReference.DiscoveredConcat | src/com/ewjordan/util/objectWrap/PrimitiveReference.java:73-187 | discovery keeps declaration order: fields a then b give a's references followed by b's |
| PrimitiveReference.DiscoveredSnoc | src/com/ewjordan/util/objectWrap/PrimitiveReference.java:73-187 | an appended field contributes exactly its own references, after the others |
| PrimitiveReference.FieldRules | src/com/ewjordan/util/objectWrap/PrimitiveReference.java:83-185 | @Unwrapped fields, byte/short/char fields, null arrays and object fields without a working getAllReferences contribute nothing; scalar and array fields of the five types contribute one reference or one per element |
| PrimitiveReference.DefaultBounds | src/com/ewjordan/util/objectWrap/PrimitiveReference.java:88-96 | every reference discovery creates carries the bounds [-Double.MAX_VALUE, Double.MAX_VALUE] and scale 1.0 |
| PrimitiveReference.DiscoveredExact | src/com/ewjordan/util/objectWrap/PrimitiveReference.java:73-187 | without nested discovery every discovered reference reads and writes a slot of exactly its own type |
| PrimitiveReference.TestHolderFields | src/com/ewjordan/util/objectWrap/WrappedObjectTest.java:15-30 | the references each field of the test class contributes on its own |
| PrimitiveReference.TestHolderReferences | src/com/ewjordan/util/objectWrap/WrappedObjectTest.java:55-68 | the test class yields 8 references: the two doubles, the boolean, then the five elements of the double array |
| PrimitiveReference.DiscoveredSix | src/com/ewjordan/util/objectWrap/PrimitiveReference.java:73-187 | six fields contributing one, one, one, none, a run and none give those references in order |
| PrimitiveReference.Target.constructor | src/com/ewjordan/util/objectWrap/PrimitiveReference.java:24-26 | the object a reference points into starts in the given well-formed state |
| PrimitiveReference.Target.Write | src/com/ewjordan/util/objectWrap/PrimitiveReference.java:225-243 | on success the reference's slot holds the value and nothing else changed; on an exception the object is untouched |
| PrimitiveReference.Get | src/com/ewjordan/util/objectWrap/PrimitiveReference.java:245-259 | no contract of its own: the getters; PrimitiveReference.GetFits proves reads are typed and PrimitiveReference.GetAfterSet that they return what set wrote |
| PrimitiveReference.Set | src/com/ewjordan/util/objectWrap/PrimitiveReference.java:225-243 | no contract of its own: the setters; PrimitiveReference.SetOnlyWritesItsSlot and PrimitiveReference.SetKeepsWellFormed state its frame and typing |
| PrimitiveReference.FieldRefs | src/com/ewjordan/util/objectWrap/PrimitiveReference.java:73-180 | no contract of its own: what discovery takes from one field; PrimitiveReference.FieldRules states the per-field rules and PrimitiveReference.DefaultBounds the default bounds |
| PrimitiveReference.Discovered | src/com/ewjordan/util/objectWrap/PrimitiveReference.java:67-188 | no contract of its own: discovery over the declared fields; PrimitiveReference.DiscoveredConcat (declaration order), DiscoveredErrorStays and DiscoveredExact state its meaning |
| WrappedObject.BooleanAt | src/com/ewjordan/util/objectWrap/WrappedObject.java:126-128 | a slot reads as true exactly when it is strictly above the 0.5 threshold |
| WrappedObject.Decode | src/com/ewjordan/util/objectWrap/WrappedObject.java:110-128 | what a push writes is always a value of the reference's type |
| WrappedObject.DecodeRules | src/com/ewjordan/util/objectWrap/WrappedObject.java:110-128 | exactly 0.5 is false; int and long slots get the truncating, saturating cast; float and double slots get the value unchanged |
| WrappedObject.DecodeEncode | src/com/ewjordan/util/objectWrap/WrappedObject.java:58-73 | writing back what a pull read restores every value of the reference's type: true is stored as 0.75, false as 0.25 (lines 20-21), integral values survive the cast (with doubles as reals; in Java a long beyond ±2^53 does not) |
| WrappedObject.PullFailure | src/com/ewjordan/util/objectWrap/WrappedObject.java:56-78 | every reference before the returned index can be read and the one at it, if any, cannot |
| WrappedObject.Pulled | src/com/ewjordan/util/objectWrap/WrappedObject.java:56-74 | slot k holds what reference k reads |
| WrappedObject.PushFailure | src/com/ewjordan/util/objectWrap/WrappedObject.java:84-107 | every reference before the returned index can be written and the one at it, if any, cannot; this depends on the class's fields only |
| WrappedObject.WritesStep | src/com/ewjordan/util/objectWrap/WrappedObject.java:84-102 | one more iteration of the push writes reference i's slot with its decoded value |
| WrappedObject.WritesKeys | src/com/ewjordan/util/objectWrap/WrappedObject.java:84-102 | the slots a push writes depend on the references only, not on the values |
| WrappedObject.PushOverwrites | src/com/ewjordan/util/objectWrap/WrappedObject.java:83-108 | pushing v after w leaves the object as pushing v alone |
| WrappedObject.WritesOfPulled | src/com/ewjordan/util/objectWrap/WrappedObject.java:55-108 | exact references write back exactly what a pull read through them |
| WrappedObject.WritesOfRead | src/com/ewjordan/util/objectWrap/WrappedObject.java:83-108 | writing back through exact references values read through them restores every written slot |
| WrappedObject.WriteOfRead | src/com/ewjordan/util/objectWrap/WrappedObject.java:86-101 | writing back through an exact reference the value read through it restores its slot |
| WrappedObject.PullPushRoundTrip | src/com/ewjordan/util/objectWrap/WrappedObject.java:55-108 | a pull followed by a push succeeds and leaves every field unchanged, for references of exactly their slots' types (with doubles as reals; in Java a long beyond ±2^53 does not survive the trip) |
| WrappedObject.PushIgnoresBounds | src/com/ewjordan/util/objectWrap/WrappedObject.java:99-100 | a push does not clamp: a double slot gets the value even far outside the reference's [minValue, maxValue] |
| WrappedObject.WritesLast | src/com/ewjordan/util/objectWrap/WrappedObject.java:84-107 | a slot written by several references ends with the value of the last of them |
| WrappedObject.PushMakesConsistent | src/com/ewjordan/util/objectWrap/WrappedObject.java:83-108 | after a push the object agrees with the pushed vector |
| WrappedObject.PushThenRestore | src/com/ewjordan/util/objectWrap/ObjectOptimizer.java:232-236 | pushing a point and then a vector the object agreed with before puts the object back exactly as it was |
| WrappedObject.WrappedObject.Init | src/com/ewjordan/util/objectWrap/WrappedObject.java:25-27 | a fresh zeroed slot per reference, with no object set |
| WrappedObject.WrappedObject.Copy | src/com/ewjordan/util/objectWrap/WrappedObjectChromosome.java:33 | the copy constructor: same references and object, a fresh copy of the values |
| WrappedObject.WrappedObject.Wrap | src/com/ewjordan/util/objectWrap/WrappedObject.java:25-29 | one slot per reference filled by a pull; the pull's RuntimeException escapes when a reference cannot be read |
| WrappedObject.WrappedObject.WrapDiscovered | src/com/ewjordan/util/objectWrap/WrappedObject.java:31-33 | discovery's exception, or a wrapper over exactly the discovered references |
| WrappedObject.WrappedObject.SetObject | src/com/ewjordan/util/objectWrap/WrappedObject.java:39 | the object becomes the one given |
| WrappedObject.WrappedObject.GetValue | src/com/ewjordan/util/objectWrap/WrappedObject.java:42-44 | the slot's value exactly for an index in [0, n), otherwise ArrayIndexOutOfBoundsException |
| WrappedObject.WrappedObject.GetReferenceAt | src/com/ewjordan/util/objectWrap/WrappedObjectChromosome.java:44 | the reference behind the slot exactly for an index in range |
| WrappedObject.WrappedObject.SetValue | src/com/ewjordan/util/objectWrap/WrappedObject.java:46-48 | changes that one slot, or throws and changes nothing; the object is not touched |
| WrappedObject.WrappedObject.RefreshValuesFromObject | src/com/ewjordan/util/objectWrap/WrappedObject.java:55-81 | every slot holds what its reference reads; at the first unreadable reference a RuntimeException, with the slots before it already filled and the rest unchanged |
| WrappedObject.WrappedObject.UpdateObjectValues | src/com/ewjordan/util/objectWrap/WrappedObject.java:83-108 | the object becomes its old state overwritten by the decoded slots in order; at the first unwritable reference a RuntimeException, with the writes before it already done |
| WrappedObject.WrappedObject.SetValues | src/com/ewjordan/util/objectWrap/ObjectOptimizer.java:143 | the slots become a copy of the vector, or a vector of another length is refused with nothing changed |
| WrappedObject.WrappedObject.PushValuesToObject | src/com/ewjordan/util/objectWrap/ObjectOptimizer.java:232-236 | setValues then the push: the object ends as its old state overwritten by the vector's decoded values |
| WrappedObject.Encode | src/com/ewjordan/util/objectWrap/WrappedObject.java:58-73 | no contract of its own: the double a pull stores; WrappedObject.DecodeEncode proves a push inverts it for every value of the reference's type |
| WrappedObject.Read | src/com/ewjordan/util/objectWrap/WrappedObject.java:56-78 | no contract of its own: one reference's pull or its exception; WrappedObject.PullFailure and WrappedObject.Pulled state the pull built from it |
| WrappedObject.Writes | src/com/ewjordan/util/objectWrap/WrappedObject.java:84-102 | no contract of its own: the writes of a push; WrappedObject.WritesStep, WritesLast, WritesKeys and PushOverwrites state its meaning |
| WrappedObjectChromosome.ConstrainedRandomValue | src/com/ewjordan/util/objectWrap/WrappedObjectChromosome.java:60-69 | with ordered bounds the step lands in [min, max], and unchanged when already inside; with crossed bounds it lands on one of them |
| WrappedObjectChromosome.CrossValues | src/com/ewjordan/util/objectWrap/WrappedObjectChromosome.java:28-38 | succeeds exactly when 0 <= k <= first length <= second length, with the first k genes from the first parent and the rest from the second; otherwise ArrayIndexOutOfBoundsException |
| WrappedObjectChromosome.CrossEnds | src/com/ewjordan/util/objectWrap/WrappedObjectChromosome.java:28-38 | crossing at 0 copies the second parent and at the first parent's length copies the first |
| WrappedObjectChromosome.CrossBothWays | src/com/ewjordan/util/objectWrap/WrappedObjectChromosome.java:28-38 | crossing two equal-length parents both ways at one point hands every gene to exactly one child |
| WrappedObjectChromosome.CrossValuesWithin | src/com/ewjordan/util/objectWrap/WrappedObjectChromosome.java:28-38 | the corrected crossover succeeds for every point up to the shorter parent's length, taking from the second parent only where it has genes |
| WrappedObjectChromosome.CrossWithinAgrees | src/com/ewjordan/util/objectWrap/WrappedObjectChromosome.java:28-38 | wherever the crossover as written succeeds, the corrected one gives the same child |
| WrappedObjectChromosome.ArrayCopy | src/com/ewjordan/util/objectWrap/WrappedObjectChromosome.java:36 | System.arraycopy between distinct arrays copies the range, or throws ArrayIndexOutOfBoundsException with the destination untouched |
| WrappedObjectChromosome.WrappedObjectChromosome.constructor | src/com/ewjordan/util/objectWrap/WrappedObjectChromosome.java:19-22 | wraps the given object |
| WrappedObjectChromosome.WrappedObjectChromosome.Size | src/com/ewjordan/util/objectWrap/WrappedObjectChromosome.java:24-26 | one gene per reference |
| WrappedObjectChromosome.WrappedObjectChromosome.Fitness | src/com/ewjordan/util/objectWrap/WrappedObjectChromosome.java:71-75 | the base chromosome's fitness is the constant 0 |
| WrappedObjectChromosome.WrappedObjectChromosome.Cross | src/com/ewjordan/util/objectWrap/WrappedObjectChromosome.java:28-38 | a new chromosome whose genes are CrossValues of the parents', with the first parent's references and object, or CrossValues' exception; no parent is written |
| WrappedObjectChromosome.WrappedObjectChromosome.CrossWithin | src/com/ewjordan/util/objectWrap/WrappedObjectChromosome.java:28-38 | as Cross with the corrected crossover |
| WrappedObjectChromosome.WrappedObjectChromosome.Mutate | src/com/ewjordan/util/objectWrap/WrappedObjectChromosome.java:40-54 | IllegalArgumentException with no genes; otherwise a new chromosome differing from the original in the drawn gene only, the original untouched |
| WrappedObjectChromosome.MutationChangesOneSlot | src/com/ewjordan/util/objectWrap/WrappedObjectChromosome.java:40-54 | a mutation changes only the drawn gene and keeps it inside its reference's ordered bounds |
| WrappedObjectChromosome.Mutated | src/com/ewjordan/util/objectWrap/WrappedObjectChromosome.java:43-51 | no contract of its own: the genes after a mutation; WrappedObjectChromosome.MutationChangesOneSlot proves that only the drawn gene changes, within its bounds |
| ObjectOptimizer.CrossBound | src/com/ewjordan/util/objectWrap/ObjectOptimizer.java:57-60 | the bound of the crossover draw is the smaller of the two sizes |
| ObjectOptimizer.Crossover | src/com/ewjordan/util/objectWrap/ObjectOptimizer.java:49-74 | IllegalArgumentException unless both are WrappedObjectChromosomes; otherwise both children are `cross` at the same drawn point, in both orders, and the pair fails exactly when either cross does |
| ObjectOptimizer.CrossoverWithin | src/com/ewjordan/util/objectWrap/ObjectOptimizer.java:49-74 | the same policy built on the corrected cross |
| ObjectOptimizer.CrossoverFailsOnUnequalSizes | src/com/ewjordan/util/objectWrap/ObjectOptimizer.java:57-65 | for chromosomes of different sizes every legal draw makes one of the two crosses throw |
| ObjectOptimizer.CrossoverCounterexample | src/com/ewjordan/util/objectWrap/ObjectOptimizer.java:57-65 | sizes 3 and 2 with draw 0: the cross as written throws ArrayIndexOutOfBoundsException, the corrected one gives [4, 5, 3] |
| ObjectOptimizer.CrossoverWithinSucceeds | src/com/ewjordan/util/objectWrap/ObjectOptimizer.java:57-65 | with the corrected cross every legal draw gives two children, each of its own parent's size |
| ObjectOptimizer.Mutation | src/com/ewjordan/util/objectWrap/ObjectOptimizer.java:76-87 | IllegalArgumentException for a foreign chromosome, otherwise exactly WrappedObjectChromosome.mutate |
| ObjectOptimizer.StoppingRule | src/com/ewjordan/util/objectWrap/ObjectOptimizer.java:99-108 | the run is satisfied exactly once more than `generations` generations have evolved, and stays satisfied |
| ObjectOptimizer.CentralDifferenceOfQuadratic | src/com/ewjordan/util/objectWrap/ObjectOptimizer.java:240-248 | the central difference with delta 0.001 (line 47) is the exact derivative 2ax + b of every quadratic |
| ObjectOptimizer.Estimates | src/com/ewjordan/util/objectWrap/ObjectOptimizer.java:267-277 | one estimate per coordinate, in index order |
| ObjectOptimizer.EstimatesPrefix | src/com/ewjordan/util/objectWrap/ObjectOptimizer.java:272-274 | each turn of the gradient loop extends the estimates by the next coordinate's |
| ObjectOptimizer.EstimateRebase | src/com/ewjordan/util/objectWrap/ObjectOptimizer.java:231-236 | an estimate does not depend on which earlier push the object's state came from, since every push writes the same slots |
| ObjectOptimizer.EstimateOfQuadratic | src/com/ewjordan/util/objectWrap/ObjectOptimizer.java:240-248 | a partial derivative of an objective quadratic in that coordinate is reported exactly |
| ObjectOptimizer.DifferentiableObjective.constructor | src/com/ewjordan/util/objectWrap/ObjectOptimizer.java:218-220 | no snapshot buffer yet and one empty partial-derivative cache entry per member (lines 250-251) |
| ObjectOptimizer.DifferentiableObjective.Value | src/com/ewjordan/util/objectWrap/ObjectOptimizer.java:222-238 | NullPointerException without an object; otherwise the objective at the object with the point pushed, after which the values are as before and the object is back in its old state whenever it agreed with them |
| ObjectOptimizer.DifferentiableObjective.GetPartialDerivativeAtPoint | src/com/ewjordan/util/objectWrap/ObjectOptimizer.java:240-248 | ArrayIndexOutOfBoundsException for k outside the point; otherwise the central difference of the two evaluations, with the point restored |
| ObjectOptimizer.DifferentiableObjective.PartialDerivative | src/com/ewjordan/util/objectWrap/ObjectOptimizer.java:250-265 | the function for k is built once and cached; an index outside the members throws and changes nothing |
| ObjectOptimizer.DifferentiableObjective.GradientEntry | src/com/ewjordan/util/objectWrap/ObjectOptimizer.java:272-274 | one turn of the gradient loop succeeds exactly when the references can be written, and then reports the estimate of that coordinate |
| ObjectOptimizer.DifferentiableObjective.FillGradient | src/com/ewjordan/util/objectWrap/ObjectOptimizer.java:271-275 | no exception exactly when every partial derivative succeeds, and then the array holds the estimates in index order |
| ObjectOptimizer.DifferentiableObjective.Gradient | src/com/ewjordan/util/objectWrap/ObjectOptimizer.java:267-282 | a fresh array of the estimates of every coordinate, or the first exception; the point and the values end as they began |
| ObjectOptimizer.IsSatisfied | src/com/ewjordan/util/objectWrap/ObjectOptimizer.java:99-108 | no contract of its own: the stopping condition; what it means (satisfied exactly after more than `generations` generations, and stays satisfied) is ObjectOptimizer.StoppingRule |
| ObjectOptimizer.CentralDifference | src/com/ewjordan/util/objectWrap/ObjectOptimizer.java:247 | no contract of its own: the difference quotient with delta 0.001; ObjectOptimizer.CentralDifferenceOfQuadratic proves it exact on quadratics |
| ObjectOptimizer.PushedState | src/com/ewjordan/util/objectWrap/ObjectOptimizer.java:233 | no contract of its own: the object while a point is pushed; WrappedObject.PushMakesConsistent and WrappedObject.PushThenRestore state what pushing and restoring do to it |
| ObjectOptimizer.Estimate | src/com/ewjordan/util/objectWrap/ObjectOptimizer.java:240-248 | no contract of its own: the reported partial derivative; ObjectOptimizer.EstimateOfQuadratic proves it exact for objectives quadratic in the coordinate, and ObjectOptimizer.EstimateRebase that it ignores earlier pushes |
| SpeedLimit.ChildCount | src/com/ewjordan/evolution/sim/SpeedLimit.java:36-38 | populationSize * childrenPerFamily / 2 is 20000 children, at least the population size, so the cut at line 48 is always legal |
| SpeedLimit.Ones | src/com/ewjordan/evolution/sim/SpeedLimit.java:105-108 | the count of set bits never exceeds the length |
| SpeedLimit.FitnessOf | src/com/ewjordan/evolution/sim/SpeedLimit.java:102-113 | fitness lies in [0, 1], is 1 exactly when every bit is set and 0 exactly when none is |
| SpeedLimit.Flipped | src/com/ewjordan/evolution/sim/SpeedLimit.java:134-142 | each bit flips on its own draw: a set bit clears below oneToZero, a clear bit sets below zeroToOne |
| SpeedLimit.FlippedUnchanged | src/com/ewjordan/evolution/sim/SpeedLimit.java:134-142 | without a draw below the bit's rate the genome is unchanged |
| SpeedLimit.FlippedNeverGains | src/com/ewjordan/evolution/sim/SpeedLimit.java:134-142 | with no chance of setting a bit a mutation never raises the count of set bits |
| SpeedLimit.CrossBits | src/com/ewjordan/evolution/sim/SpeedLimit.java:143-154 | the child has the first parent's length and each bit from the parent active at it; ArrayIndexOutOfBoundsException exactly when the crossover reads the second parent past its end |
| SpeedLimit.CrossMatches | src/com/ewjordan/evolution/sim/SpeedLimit.java:147-152 | bits taken one by one from the active parent are the crossed genome |
| SpeedLimit.OnAConstant | src/com/ewjordan/evolution/sim/SpeedLimit.java:146-151 | without a switch draw below the rate the active parent stays the one chosen by the first draw |
| SpeedLimit.NoSwitchCopiesParent | src/com/ewjordan/evolution/sim/SpeedLimit.java:143-154 | without a switch the child is an exact copy of one parent |
| SpeedLimit.InitialBits | src/com/ewjordan/evolution/sim/SpeedLimit.java:54-60 | bit i is set exactly when its draw is below probT |
| SpeedLimit.Genome.constructor | src/com/ewjordan/evolution/sim/SpeedLimit.java:155-160 | all bits clear and no fitness saved |
| SpeedLimit.Genome.Mutate | src/com/ewjordan/evolution/sim/SpeedLimit.java:134-142 | the bits become Flipped of the old bits; the cache is not touched |
| SpeedLimit.Genome.Cross | src/com/ewjordan/evolution/sim/SpeedLimit.java:143-154 | a fresh genome holding CrossBits of the parents, or its exception; neither parent is written |
| SpeedLimit.ComputeFitness | src/com/ewjordan/evolution/sim/SpeedLimit.java:102-113 | the saved value when there is one, otherwise the fraction of set bits, which is saved; a right cache stays right |
| SpeedLimit.InsertByFitness | src/com/ewjordan/evolution/sim/SpeedLimit.java:115-131 | inserting adds exactly that genome to the list |
| SpeedLimit.DescendingCons | src/com/ewjordan/evolution/sim/SpeedLimit.java:117-129 | a genome at least as fit as all of a descending list heads a descending list |
| SpeedLimit.InsertKeepsDescending | src/com/ewjordan/evolution/sim/SpeedLimit.java:115-131 | insertion keeps a list sorted highest fitness first |
| SpeedLimit.SortByFitnessOf | src/com/ewjordan/evolution/sim/SpeedLimit.java:115-131 | the sort is a permutation of the population, highest fitness first |
| SpeedLimit.PrefixMembers | src/com/ewjordan/evolution/sim/SpeedLimit.java:48-49 | cutting the population back keeps only genomes of the simulation |
| SpeedLimit.PermutedMembers | src/com/ewjordan/evolution/sim/SpeedLimit.java:115-116 | sorting the population keeps only genomes of the simulation |
| SpeedLimit.ScoreAll | src/com/ewjordan/evolution/sim/SpeedLimit.java:116-118 | every genome's fitness is computed and cached |
| SpeedLimit.SpeedLimit.constructor | src/com/ewjordan/evolution/sim/SpeedLimit.java:23 | the population starts empty |
| SpeedLimit.SpeedLimit.SortByFitness | src/com/ewjordan/evolution/sim/SpeedLimit.java:115-131 | the population becomes SortByFitnessOf of itself under the computed fitnesses, all cached |
| SpeedLimit.SpeedLimit.Breed | src/com/ewjordan/evolution/sim/SpeedLimit.java:36-45 | 20000 fresh children, child k bred from its two drawn parents by crossover then mutation |
| SpeedLimit.SpeedLimit.BreedChild | src/com/ewjordan/evolution/sim/SpeedLimit.java:39-42 | one fresh child: its parents crossed, then mutated |
| SpeedLimit.SpeedLimit.Cull | src/com/ewjordan/evolution/sim/SpeedLimit.java:47-49 | populationSize genomes of the old population are kept, each at least as fit as every one dropped |
| SpeedLimit.SpeedLimit.Truncate | src/com/ewjordan/evolution/sim/SpeedLimit.java:48-49 | the population becomes its first n genomes |
| SpeedLimit.SpeedLimit.Generation | src/com/ewjordan/evolution/sim/SpeedLimit.java:36-49 | the population becomes the populationSize fittest of the 20000 children bred this generation |
| SpeedLimit.Survivors | src/com/ewjordan/evolution/sim/SpeedLimit.java:47-49 | the first n of a sort by fitness come from the population and are each at least as fit as every genome dropped |
| SpeedLimit.GenerateInitialGenome | src/com/ewjordan/evolution/sim/SpeedLimit.java:54-60 | a fresh genome holding InitialBits of the draws, with no fitness saved |
| SpeedLimit.DoEvolution | src/com/ewjordan/evolution/sim/SpeedLimit.java:29-52 | after the initial population and every generation the population has exactly populationSize genomes |
| SpeedLimit.FlipBit | src/com/ewjordan/evolution/sim/SpeedLimit.java:136-140 | no contract of its own: one bit's mutation; SpeedLimit.FlippedUnchanged and SpeedLimit.FlippedNeverGains state what the rates allow |
| SpeedLimit.OnA | src/com/ewjordan/evolution/sim/SpeedLimit.java:146-151 | no contract of its own: the active parent at bit i; SpeedLimit.OnAConstant proves it never changes without a switch draw below the rate |
| SpeedLimit.Bred | src/com/ewjordan/evolution/sim/SpeedLimit.java:39-42 | no contract of its own: a child's bits, crossover then mutation; SpeedLimit.SpeedLimit.BreedChild and SpeedLimit.SpeedLimit.Breed are proved against it |

## Left out

- I/O: SimpleIO's file loading, saving, appending and serialisation, `printCSVLine`, `Strings.println`, and the `print`/`printResults` methods of the histogram and summaries. Console and file effects are outside a pure model.
- Number rendering: `String.format` and `Double.toString` in `toString`, `toColumnString`, `toExcelTSV` and `saveToString` cells. These are a parameter `fmt` (a function from real to string), not a reimplementation.
- `Math.pow` and `Math.sqrt`: `getGeometricMean`, `getStandardDeviation`, `getZScore` and `getMeanConfidence` have no exact real model. Only the quantities under the root are modelled (variance, and the product of observations).
- Floating point: doubles are reals, so NaN, infinities, rounding and `float` precision are not modelled. The float overloads of Spinner (src/com/ewjordan/util/random/Spinner.java:110-146) and `PolynomialFunction.getValue(float)` follow the double ones.
- MathUtil.Map: requires fromMax != fromMin, where Java divides by zero and yields NaN or infinity.
- DoubleHistogram.DoubleHistogram.constructor: requires a positive bucket count. A count of zero gives an infinite width in Java, and a negative count throws NegativeArraySizeException.
- Random draws: `Math.random`, `Random.nextInt` and `nextGaussian` are parameters, so the distributions they draw from are not modelled.
- The Apache engines behind `geneticallyOptimize`, `optimize` (both overloads) and `optimizeNelderMead` (GeneticAlgorithm, TournamentSelection, ElitisticListPopulation, NonLinearConjugateGradientOptimizer, NelderMeadSimplex). These are library code outside this repository; only the policies, the stopping rule and the objective they are handed are modelled.
- `getChromosome`, `getMultivariateRealFunction`, `getWrappedObjectMutationPolicy` and `getWrappedObjectCrossoverPolicy`. They only wrap or return objects modelled elsewhere: the former is the same snapshot/push/restore objective as `DifferentiableObjective.Value`.
- The `synchronized` blocks of ObjectOptimizer: concurrency is not modelled. Only the NullPointerException that synchronising on a null object throws is kept.
- ObjectOptimizer.DifferentiableObjective.GetPartialDerivativeAtPoint: requires the point array to be distinct from the wrapper's own values array. Passing the same array makes Java alias the two.
- ObjectOptimizer.DifferentiableObjective.Gradient: requires the same distinctness.
- WrappedObject members that callers use but that are absent from WrappedObject.java: the copy constructor, `setValues`, `pushValuesToObject(double[])`, `pullValuesFromObject`, `getReferenceAt` and `optimizable()`. The first five are given the evident behaviour (copy; copy in or refuse a vector of another length; set then push; the pull; index). `optimizable()` is not part of this model.
- The `PrimitiveReference` constructors with three and seven arguments, called at src/com/ewjordan/util/objectWrap/PrimitiveReferenceIntoArray.java:29 and src/com/ewjordan/util/objectWrap/PrimitiveReference.java:124, do not exist in the source. Array-element references follow the four-argument constructor, with the index bounds checked.
- `MutationInfo` has no runtime retention, so the annotation lookup never fires and every reference gets the default bounds and standard-deviation scale. Field descriptors therefore carry no MutationInfo.
- Neither WrappedObject constructor assigns the wrapped object, so it stays absent until `setObject`. This is why `DifferentiableObjective.Value` is modelled to throw NullPointerException without one.
- Nested discovery invokes `getAllReferences` on the outer object rather than on the field's value (src/com/ewjordan/util/objectWrap/PrimitiveReference.java:169). It is modelled as a descriptor that says whether the method exists, throws, or yields references.
- The security-manager probe of `getAllReferencesFrom(Object)` (src/com/ewjordan/util/objectWrap/PrimitiveReference.java:42-62) and `ArrayUtil.fieldToDoubleArray`: reflection plumbing.
- byte, short and char fields: discovery yields no reference for them, and they have no slot in the model.
- One target per wrapper: references carry no object of their own and resolve against the one target of their WrappedObject, which discovery makes true.
- SpeedLimit's DescriptiveStatistics reporting (mean, percentiles, `getMin`, which returns the maximum) and its console output. This is Apache statistics and output only.
- SpeedLimit.ComputeFitness: requires a non-empty genome. An empty one divides zero by zero, which is NaN in Java.
- SpeedLimit.SpeedLimit.Generation: requires draws fit for the population: parent indices below its size and one switch and flip draw per bit.
- SpeedLimit.SortByFitnessOf: `Collections.sort` is stable, and the model's insertion sort is stable too. Stability is not stated as a property.
- DoubleList.DoubleList.AddAll: requires the list appended to be another list. Appending a list to itself never terminates in Java, because the loop re-reads the growing size.
- Spinner.NormalizedSpin: on an empty array the double overload recurses forever. The model returns a StackOverflowError outcome there instead of diverging.
- DoubleList.DoubleList.constructor: requires a non-negative capacity and a multiplier of at least 1.0, while the public `DoubleList(int, float)` (src/com/ewjordan/util/DoubleList.java:64-67) accepts any float. With a multiplier below 1.0, the growth `(int)(size*multiplier + 10)` in `add` stops exceeding the size once the list is long enough (at 20 elements for 0.5), and the store after the resize throws ArrayIndexOutOfBoundsException. A negative multiplier can make the new capacity negative, which throws NegativeArraySizeException, as does a negative initial capacity. The repository's own callers pass the default 1.1.
- WrappedObject.DecodeEncode: doubles are reals here, so a `long` pulled into a double and cast back comes back exactly. In Java, the widening at the pull loses precision for longs beyond 2^53 in magnitude, and the `(long)` cast on the push does not restore them. The round trip is exact in Java for boolean, int, float and double fields, and for longs within ±2^53.
- WrappedObject.PullPushRoundTrip: the same: the unchanged `long` fields it promises are those within ±2^53 in Java.
- ObservationSummary.ObservationSummary.GetVariance: the divisor `observationCount*(observationCount-1)` is a Java `long` product, which wraps once the count exceeds about 3.04e9 observations and can then turn negative. The model computes it exactly, so its proofs that the variance is non-negative and equals the sample variance hold only below that count. Doubles are modelled as exact reals, so rounding in the running sums is not captured either.
- DoubleHistogram.DoubleHistogram.AddValue: the bucket counts, `maxCount` and `totalMembers` are Java `int`s, which wrap after 2^31 - 1 additions. The model keeps them as unbounded integers.
- DoubleHistogram.DoubleHistogram.GetNumberOfObservations: sums those `int` counts, which in Java wraps when the total passes 2^31 - 1. The model's sum is exact.
- Java's int sizes: the methods that grow or index a list or array (DoubleList's adds and resize, StoredObservationSummary's adds, MathUtil's fractile positions, DoubleHistogram's bucket count, ArrayUtil's storedSummary) require sizes of at most Integer.MAX_VALUE, the most a Java array can hold. Sizes beyond that, where Java's int arithmetic would wrap, are not modelled.
- Shuffler, Segment, MultiStartDifferentiableMultivariateRealOptimizer, and the test classes WrappedObjectTest and FunctionMaximizationTest. These are context, wrappers over library code, or tests.

## Findings

| source | as written | input that shows it | evidently intended | confidence | as-written member | corrected member |
|---|---|---|---|---|---|---|
| src/com/ewjordan/util/objectWrap/ObjectOptimizer.java:57-65 | the crossover point is drawn below the smaller size, but `cross` copies the first parent's length minus k genes from the second parent | chromosomes of sizes 3 and 2 with draw 0: `System.arraycopy` reads three genes from an array of two and throws ArrayIndexOutOfBoundsException | the second parent supplies genes only up to the shorter length, so every drawn point gives two children | not executed | ObjectOptimizer.CrossoverCounterexample | ObjectOptimizer.CrossoverWithinSucceeds |
| src/com/ewjordan/util/ObservationSummary.java:170-176 | the upper bound 0.999 is accepted, but the scan compares with `>` and falls through to return 0 | confidenceLookup(0.999) returns 0 | the last row's quantile 3.290526731 | not executed | ObservationSummary.ConfidenceAtLastRow | ObservationSummary.CorrectedAtRow |
| src/com/ewjordan/util/StoredObservationSummary.java:66-86 | documented to return the proportion of observations lower than the value, but it returns 1.0 whenever no observation exceeds the value, counting observations equal to it | observations 5, 5 and the value 5: it returns 1.0, while no observation is lower | the fraction of observations strictly lower than the value | not executed | StoredObservationSummary.ProportionAtMaximum | StoredObservationSummary.ProportionBelowMonotone |
