# Diabetes dashboard statistics, modelled in Dafny

This project models the computational core of a small d3-based diabetes
dashboard: two chart scripts, `main.js` and `script.js`. Every number is an
exact `real`. JavaScript's `undefined` is an `Option`: the mean of no values,
the box of an empty group, a label not yet assigned.

The modules:

- **Records** (`records.dfy`) covers the survey records of `main.js`.
  - The loading loop labels each record with an HbA1c `status` (cut-offs 5.7 and 6.5) and an `ageGroup` (rungs closed at 20, 40, 60 and 80).
  - This loop works in place on an array (`AnnotateAll`).
  - The three status filters split the labelled records for the histogram.
- **Stats** (`stats.dfy`) holds the shared statistics:
  - the sum, and the mean as d3.mean computes it;
  - d3.min and d3.max;
  - the ascending sort;
  - d3's linear-interpolation quantile (Hyndman–Fan type 7) on an ascending sample;
  - the box summary: quartiles, and Tukey whiskers clipped to the sample's range.
- **Density** (`density.dfy`) holds the Epanechnikov kernel and the kernel density estimator. Both scripts define the same pair of closures. A closure's captured value becomes an extra parameter.
- **AgeGender** (`age_gender.dfy`) covers the age-violin / gender-box chart of `main.js`:
  - the age-group and gender grouping loops;
  - the per-bin density loop with its empty-bin guard;
  - the per-gender box loop.
- **Risk** (`risk.dfy`) covers the risk curve of `main.js`: for each HbA1c threshold, the share of diabetic records among those at or above it.
- **Carousel** (`carousel.dfy`) covers the slideshow counter of `main.js` as a class whose timer tick advances the index cyclically.
- **TertileBox** (`tertile_box.dfy`) covers `script.js`:
  - HbA1c tertiles at the 1/3 and 2/3 quantiles, assigned in place;
  - per-gender sorted growth values and their box summaries;
  - the box plot's y-domain.
- **Wrappers** (`wrappers.dfy`) holds the `Option` type.

The library sort (`Array.prototype.sort` with `d3.ascending`) is modelled by an insertion sort on values. `Stats.SortIsTheSortedPermutation` proves that every ascending permutation of the input equals it, so any correct sort gives the same result.

`d3.quantile` is modelled on an ascending sample, which is what every call site passes. In that case d3's selection-based computation agrees with its quantile-on-sorted formula.

## Model

| member | source | states |
|---|---|---|
| Records.StatusOf | main.js:22-28 | status is normal exactly below 5.7, prediabetes exactly in [5.7, 6.5), diabetes exactly from 6.5 |
| Records.AgeGroupOf | main.js:30-40 | each age group holds exactly its half-open interval (0–20 up to and including 20, and so on); 'Other' is exactly above 80 |
| Records.StatusMonotone | main.js:22-28 | a higher HbA1c never gets a milder status |
| Records.AgeGroupMonotone | main.js:30-40 | an older person never gets an earlier age group |
| Records.AnnotateAll | main.js:21-41 | after the loop every record carries the status and age group of its own HbA1c and age; no other field changes |
| Records.WithStatus | main.js:129-131 | a filter keeps exactly the records with that status and is no longer than the data |
| Records.StatusFiltersPartition | main.js:128-131 | on labelled data the normal, prediabetes and diabetes filters together hold each record as often as the data does, and their sizes add up to the data's size |
| AgeGender.GroupByAge | main.js:249-256 | the map has exactly the four bin keys, and each bin is the HbA1c of that group's records in input order; 'Other' is skipped |
| AgeGender.AgeBinMembers | main.js:252-256 | a value is in a bin exactly when some record of that age group has it as HbA1c |
| AgeGender.AgeBinConcat | main.js:252-256 | grouping keeps input order: the bin of a concatenation is the concatenation of the bins |
| AgeGender.AgeBinsCount | main.js:249-256 | the four bin sizes add up to the number of records labelled with one of the four bins |
| AgeGender.GroupByGender | main.js:259-265 | the map has exactly the keys 'Male' and 'Female', each holding that gender's HbA1c values in input order; other genders are skipped |
| AgeGender.GenderBinMembers | main.js:261-265 | a value is in a gender's group exactly when some record of that gender has it as HbA1c |
| AgeGender.BuildDensities | main.js:326-337 | one entry per bin in bin order; an empty bin gets an empty density list, any other bin gets the KDE with bandwidth 0.4 over the grid; every density held is defined and non-negative |
| AgeGender.SortedBox | main.js:425-431 | a gender's sorted values have a box exactly when there are values, and the box is ordered and lies within the values' own minimum and maximum |
| AgeGender.BoxData | main.js:423-433 | one entry per gender in drawing order, each the box of that gender's sorted values, with the properties of SortedBox |
| Density.KernelNonNegative | main.js:318-323 | the Epanechnikov kernel is never negative |
| Density.KernelCompactSupport | script.js:23-28 | the kernel is 0 at offsets farther than k |
| Density.ScaledWithinUnit | script.js:25-26 | the guard \|d/k\| <= 1 holds exactly when \|d\| <= k |
| Density.KernelSymmetric | script.js:23-28 | the kernel is symmetric in the offset |
| Density.KernelPeak | main.js:318-323 | the kernel's largest value is 0.75/k, taken at offset 0 |
| Density.KdeBounded | main.js:313-317 | on a non-empty sample every density is defined and lies in [0, 0.75/k] |
| Density.KdeEmptySample | main.js:313-317 | on an empty sample every density is undefined (d3.mean of nothing) |
| Density.KdeOutsideSupport | script.js:20-28 | a grid point farther than k from every sample value has density 0 |
| Density.KdeSinglePoint | script.js:20-28 | with one sample value the curve is the kernel centred on it |
| Stats.Mean | main.js:315 | the mean is undefined exactly for an empty sample |
| Stats.MeanWithin | main.js:315 | the mean of a non-empty sample lies within any bounds of its elements |
| Stats.Min | main.js:430 | d3.min is an element of the sample no larger than any other |
| Stats.Max | main.js:431 | d3.max is an element of the sample no smaller than any other |
| Stats.Sort | main.js:425 | the sorted values are ascending and a permutation of the input |
| Stats.SortIsTheSortedPermutation | main.js:425 | any ascending permutation of the input equals the sort's result |
| Stats.SortedPermutationUnique | script.js:37 | two ascending sequences with the same elements are equal |
| Stats.ExtremesOfPermutation | main.js:425-431 | sorting does not change the minimum or maximum |
| Stats.QuantileBracket | main.js:426-428 | an interior quantile lies between the two order statistics it interpolates |
| Stats.QuantileInRange | main.js:426-428 | every quantile lies between the sample's first and last values |
| Stats.QuantileMonotone | main.js:426-428 | quantiles of an ascending sample grow with the fraction |
| Stats.BoxOf | main.js:426-431 | a box exists exactly for a non-empty sample |
| Stats.BoxOrdered | script.js:84-89 | min <= lower whisker <= q1 <= median <= q3 <= upper whisker <= max, and iqr >= 0 |
| Stats.BoxOfSingleton | main.js:426-431 | a single value gives a degenerate box at that value |
| Stats.BoxOfOneToNine | main.js:426-431 | the values 1..9 give quartiles 3, 5 and 7 and whiskers 1 and 9 |
| Risk.AtOrAbove | main.js:518 | keeps exactly the records at or above the threshold, each exactly as often as the data has it, and no other record |
| Risk.CountDiabetic | main.js:522 | the count is at most the subset's size; it equals the size exactly when every record is diabetic, and is 0 exactly when none is |
| Risk.DiabeticShare | main.js:519-523 | the proportion lies in [0, 1]; it is 1 exactly when the subset is non-empty and all diabetic; it is 0 exactly when no record is diabetic, including the empty subset |
| Risk.Share | main.js:523 | a count over a positive size lies in [0, 1], times the size gives the count back, and is 1 or 0 exactly at the extremes |
| Risk.Proportion | main.js:517-524 | a threshold's proportion lies in [0, 1] and is 0 when no record qualifies |
| Risk.ProportionData | main.js:517-524 | one pair per threshold, in threshold order, carrying its threshold and a proportion in [0, 1] |
| Risk.AtOrAboveShrinks | main.js:518 | a higher threshold keeps a sub-multiset of the records a lower one keeps |
| Risk.ThresholdBelowAll | main.js:518 | a threshold at or below every HbA1c keeps all records, in order |
| Risk.ThresholdAboveAll | main.js:518-520 | a threshold above every HbA1c keeps none, and its proportion is 0 |
| Carousel.NextIndex | main.js:105 | the next index is below the slide count and is the successor, wrapping from the last slide to 0 |
| Carousel.Advance | main.js:103-106 | after any number of ticks the index still names a slide |
| Carousel.AdvanceLinear | main.js:105 | before the wrap, m ticks move the index m places forward |
| Carousel.AdvanceSplit | main.js:103-106 | a + b ticks are a ticks followed by b ticks |
| Carousel.FullCycle | main.js:103-106 | after slideCount ticks every slide is active again |
| Carousel.NoEarlyReturn | main.js:103-106 | fewer than slideCount ticks (but at least one) never return to the same slide |
| Carousel.Slideshow.constructor | main.js:99-100 | the index starts at 0 |
| Carousel.Slideshow.Tick | main.js:102-106 | with more than one slide a tick keeps the index valid and sets it to NextIndex of the old index |
| TertileBox.Cutoffs | script.js:37-38 | the cut-offs exist exactly for non-empty data, and t1 <= t2 |
| TertileBox.TertileOf | script.js:39-40 | Low exactly at or below t1, Mid exactly in (t1, t2], High exactly above both |
| TertileBox.TertileMonotone | script.js:39-40 | a higher HbA1c never gets a lower tertile |
| TertileBox.AssignTertiles | script.js:37-40 | every row gets the tertile of its HbA1c against the cut-offs of the whole data, and no other field changes |
| TertileBox.LeastIsLow | script.js:37-40 | a row with the least HbA1c is always in the Low tertile |
| TertileBox.Genders | script.js:79 | the group keys: every row's gender occurs, every key is some row's gender, and no key repeats |
| TertileBox.GendersInFirstAppearanceOrder | script.js:78-81 | the keys come in order of first appearance: for each earlier key some row of it comes before every row of a later key, which fixes the order of the groups and summaries |
| TertileBox.DeltasNonEmpty | script.js:79-80 | a gender that occurs has at least one growth value |
| TertileBox.KeyHasDeltas | script.js:79-80 | every key of the grouping has growth values |
| TertileBox.BGrouped | script.js:78-81 | one group per key in key order, holding that gender's growth values, ascending and as a permutation |
| TertileBox.GroupsNonEmpty | script.js:78-81 | no group is empty |
| TertileBox.BSummOrdered | script.js:82-91 | every summary is ordered and lies within its group's own minimum and maximum |
| TertileBox.YDomain | script.js:97 | the domain is defined exactly when there are summaries; it contains every whisker span; its ends are a lower and an upper whisker |
| TertileBox.YDomainCoversBoxes | script.js:78-97 | for non-empty data the y-domain is an interval (possibly a single point) containing every gender's whole box |

## Left out

- Rendering is outside the model: the DOM, SVG, axes, scales, colours, tooltips, legends and transitions. The carousel's CSS class changes are left out too.
- The CSV loading and field parsing (`d3.csv`) are not modelled. Rows are given as values.
- The `setInterval` timer is not modelled. Each call of `Carousel.Slideshow.Tick` stands for one timer callback.
- The histogram's bins (`d3.histogram`) and its animated category index are rendering or timer state, so they are left out.
- The KDE grids are parameters. `d3.range` over floating-point steps (main.js:326) and `vY.ticks(60)` (script.js:53) produce them, and that float arithmetic is not modelled.
- Thresholds in `Risk.ProportionData` are likewise a parameter. `d3.range` and `toFixed(1)` rounding produce them (main.js:514).
- The violin groups of `script.js` (lines 41-44 and 55-70) only feed the drawing, so they are not modelled. They are `d3.group` by tertile, the KDE with bandwidth 7, and area paths.
- `.nice()` rounding of the y-domain is a scale operation, so it is left out. `TertileBox.YDomain` is the domain before it.
- `AgeGender.BoxData`: `genderGrouped[gen].sort(...)` sorts the grouped array in place. The model sorts a copy as a value. The map itself is not changed and aliasing is not modelled.
- `AgeGender.GroupByAge` and `AgeGender.GroupByGender`: JavaScript looks up `ageGrouped[d.ageGroup]` and `genderGrouped[d.gender]` on a plain object. Inherited prototype keys such as `"constructor"` would therefore pass the `!== undefined` guard. The model uses maps with only the declared keys.
- Floating-point rounding is not modelled; all arithmetic is exact. This covers `1/3`, `2/3`, the 1.5 × IQR fence and the means. Integration of the KDE to 1 is a floating/continuous property and is not stated.
- NaN is not modelled. Parsed CSV fields are taken to be numbers, so `d3.ascending`'s NaN handling and d3's skipping of non-numeric values do not arise.
- `Risk.Proportion`: states the bounds and the extremes (all or none diabetic), not the equation proportion × size = count at every threshold. `Risk.Share` states that equation for the division itself.
- The kernel bandwidths 0.4 (`main.js`) and 7 (`script.js`) are inputs of `Density.Kde`. The model's constant `AgeBandwidth` is 0.4.
- `Density.KdeEmptySample`: d3.mean of no values is undefined, so every density of an empty sample is None. `main.js` never reaches this case because of its empty-bin guard (main.js:330), which `AgeGender.BuildDensities` models.
- `Stats.BoxOf`: for an empty group the code's q1, median and q3 are undefined. Its iqr and whiskers are NaN, because `Math.max(undefined, NaN)` is NaN (main.js:426-431). The model gives None for the whole box.
- The scatter plot's `Math.random` jitter (main.js:725) is nondeterministic and purely visual, so it is left out. The colour and legend logic (main.js:711-781) is presentation.
- The slider's `findIndex` lookup on rounded thresholds (main.js:610-612) depends on float rounding, so it is left out.
