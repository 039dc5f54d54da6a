# nt-summary-stats in Dafny

A model of the core of `nt-summary-stats`, a library that reduces the photon
hits of a neutrino-telescope sensor to nine summary statistics. The model
covers three parts:

- **Per-sensor statistics** (`compute_summary_stats` in Python and C++, with
  its batch form). The pulses are sorted by time, skipping the sort when they
  are already in order. The nine slots are:
  - the total charge;
  - the charge within 100 ns and 500 ns of the first pulse, found with
    `upper_bound` / `searchsorted(side='right')`;
  - the first and last time;
  - the times at which 20 % and 50 % of the charge has arrived: the
    position that the same halving search finds for the share in the
    cumulative charge, clamped to the last index. With non-negative charges
    this is the first index whose cumulative charge exceeds the share. With
    negative charges the cumulative charge can fall, and then the search can
    settle elsewhere;
  - the charge-weighted mean time and the charge-weighted (population)
    standard deviation.
- **Time-window hit grouping** (`_group_hits_by_window`). The sorted hits are
  cut wherever the gap between *consecutive* hits exceeds the window. Each
  group becomes one super-hit at the group's first time carrying the group's
  total charge.
- **Event partitioning** (`process_sensor_data`, `process_prometheus_event`).
  The flat photon arrays of an event are split by `(string_id, sensor_id)`.
  Each key gets one row, in ascending lexicographic key order. A row has the
  position of the key's first photon and the statistics of the key's photons,
  which are optionally grouped first.

Modules, one per file:

- `Results` (`results.dfy`): `Option`, `Result`, and the two input errors.
  They stand in for the `ValueError` / `std::invalid_argument` exceptions.
- `Pulses` (`pulses.dfy`): pulses, sums of per-pulse measures, the
  time sort, and `UpperBound` (the `upper_bound` / `searchsorted` index).
- `SummaryStats` (`summary_stats.dfy`): the nine slots, the batch, and the
  documented example.
- `HitGrouping` (`hit_grouping.dfy`): the chained gap grouping, and the
  re-anchored reading of its docstring as a separate function.
- `Prometheus` (`prometheus.dfy`): per-sensor processing and the event
  partition.

The documentation of `compute_summary_stats` gives an example (times 10, 15,
25, 100; charges 1, 2, 1.5, 0.5) and states only its total charge, 5.
`SummaryStats.DocumentedExample` works out its other slots. For instance, the
weighted mean time is 127.5 / 5 = 25.5.

The searches `np.searchsorted(side='right')` and `std::upper_bound` probe the
same middle entries. Both are modelled as one halving search,
`Pulses.BisectRight`. On sorted input it agrees with the plain "first entry
above the value" definition, `Pulses.UpperBound`.

Numbers are exact `real`s. The square root of the standard-deviation slot is a
parameter `sqrt: real -> real` of every operation that produces a summary.

The model sorts with one stable insertion sort, `Pulses.SortByTime`. Every
property about sorting is stated relationally, for any time-sorted
permutation. The source's "skip the sort when already sorted" branch
(nt_summary_stats/core.py:58-65, src/core.cpp:34-55,
nt_summary_stats/prometheus.py:172-179) is covered by `SortByTimeOfSorted`:
sorting a sorted series returns it unchanged, so both branches give the same
arrays.

Several lemmas only combine the contracts of other lemmas. They start with
`hide *`, which keeps function definitions out of the solver's view and makes
the proof rest on the cited contracts alone.

Where the documentation and the code differ, the model follows the code:

- The docstring of `_group_hits_by_window` speaks of grouping hits "within the
  specified time window". The code instead compares consecutive gaps, so a
  group can span more than the window. `HitGrouping.ChainedExample` shows
  this: hits at 0, 2, 4 with window 3 form one group. The docstring's reading
  is modelled separately as `HitGrouping.GroupHitsAnchored`, and the same
  input splits into two groups there (`HitGrouping.AnchoredExample`).
- The docstring of `process_sensor_data` promises a dictionary. The code
  returns the statistics array of `compute_summary_stats`, so the model
  returns a `Summary`.

## Model

| member | source | states |
|---|---|---|
| Pulses.SortByTime | nt_summary_stats/core.py:58-65 | the sorted series is non-decreasing in time and a permutation (same multiset) of the input pulses |
| Pulses.SortByTimeOfSorted | src/core.cpp:34-41 | a series already in time order is returned unchanged, so the code's skip-the-sort branch agrees with sorting |
| Pulses.UpperBound | src/core.cpp:66-71 | the index is at most the length, every earlier entry is at most the value, and the entry at the index (if any) exceeds it: the `upper_bound` / `side='right'` position |
| Pulses.BisectRight | src/core.cpp:93-97 | the halving search stops between the entries where its probes change side: the entry before the result (if searched) is at most the value, and the entry at the result (if searched) exceeds it, whatever the order of the input |
| Pulses.SearchRightIsUpperBound | nt_summary_stats/core.py:76-77 | on non-decreasing input the halving search returns the upper bound |
| Pulses.SearchRightOnUnsorted | nt_summary_stats/core.py:87 | on the unsorted running totals 1, 0, 1 the search for 0.2 returns 2, while the first entry above 0.2 is at 0 |
| Pulses.UpperBoundPartitions | src/core.cpp:66-68 | on non-decreasing input every entry from the upper bound onward exceeds the value |
| Pulses.ChargeUpToIsPrefix | nt_summary_stats/core.py:76-80 | on a time-sorted series, the charge of the prefix up to the upper bound of `v` equals the charge of the pulses arriving at or before `v` |
| Pulses.SumOfPermutation | nt_summary_stats/core.py:59-68 | every charge, time-charge and spread sum is the same for any reordering of the pulses |
| Pulses.ChargeSumIsSum | nt_summary_stats/core.py:68 | the charge summed over the paired pulses is the plain sum of the charges array |
| Pulses.SortedEnds | nt_summary_stats/core.py:69-70 | the first and last entries of any time-sorted permutation are the minimum and maximum input time |
| SummaryStats.ComputeSummaryStats | nt_summary_stats/core.py:51-56 | empty `times` gives the all-zero summary of `_empty_stats` even when `charges` is not empty; non-empty `times` of another length than `charges` is a length error carrying both lengths; the call succeeds exactly when `times` is empty or the lengths match |
| SummaryStats.RunningSums | src/core.cpp:86-87 | entry `i` of the running sums is the charge of pulses `0..i` (the `partial_sum`) |
| SummaryStats.CumulativeEndsAtTotal | src/core.cpp:86-89 | the last cumulative charge equals the total charge |
| SummaryStats.WindowIndices | src/core.cpp:63-71 | on a sorted series 1 <= idx_100ns <= idx_500ns <= n |
| SummaryStats.WindowCharges | src/core.cpp:73-83 | each window's prefix charge is the charge of pulses at or before first + 100 (resp. 500) |
| SummaryStats.WindowIndex | src/core.cpp:66-71 | on the sorted times, the halving search for first + width finds the upper bound: the number of pulses arriving no later than the cutoff |
| SummaryStats.PercentileIndex | src/core.cpp:99-102 | the clamped percentile index is always a valid index |
| SummaryStats.PercentileIndexUnclamped | nt_summary_stats/core.py:87-93 | with a positive total the clamp never applies, whatever the signs of the charges: the last cumulative charge is the total, which exceeds the share, so the search stops inside the series |
| SummaryStats.PrefixBeforePercentile | nt_summary_stats/core.py:87-93 | with a positive total, the pulses before the percentile index carry no more than the share |
| SummaryStats.CumulativeNonDecreasing | nt_summary_stats/core.py:83 | with non-negative charges the cumulative charge never falls |
| SummaryStats.PercentileIndexOfNonNegative | nt_summary_stats/core.py:87-93 | with non-negative charges the percentile index is the first index whose cumulative charge exceeds the share, clamped to the last pulse |
| SummaryStats.PercentileOfSorted | nt_summary_stats/core.py:83-93 | on a sorted series with non-negative charges and positive total, the chosen time is the percentile time: more than the share has arrived by it, and not more than the share by any earlier pulse time |
| SummaryStats.PercentileTimeUnique | nt_summary_stats/core.py:87-93 | a series has at most one percentile time per share |
| SummaryStats.PercentileTimePermutation | nt_summary_stats/core.py:59-65 | the percentile time does not depend on the order of the pulses |
| SummaryStats.PercentileOfZeroCharge | nt_summary_stats/core.py:90-93 | non-negative charges with zero total: no cumulative sum exceeds the share and the index clamps to the last pulse |
| SummaryStats.PercentileIndicesOrdered | nt_summary_stats/core.py:87-88 | with non-negative charges idx_20 <= idx_50 |
| SummaryStats.TotalChargeSlot | nt_summary_stats/core.py:68 | slot 0 is the sum of the charges |
| SummaryStats.FirstLastSlots | nt_summary_stats/core.py:69-70 | slots 3 and 4 are the minimum and maximum input time |
| SummaryStats.WindowSlots | nt_summary_stats/core.py:73-80 | slots 1 and 2 are the charges of the input pulses with time <= first + 100 and <= first + 500, pulses at the cutoff included |
| SummaryStats.WindowChargeBounds | nt_summary_stats/core.py:79-80 | with non-negative charges 0 <= slot 1 <= slot 2 <= slot 0 |
| SummaryStats.PercentileSlots | nt_summary_stats/core.py:83-93 | with non-negative charges, slots 5 and 6 are the 20 % and 50 % percentile times of the input when the total is positive, and both are the last time when it is zero |
| SummaryStats.TimeSlotBounds | nt_summary_stats/core.py:91-97 | with non-negative charges first <= slot 5 <= slot 6 <= last, and the weighted mean lies in [first, last] when the total is positive |
| SummaryStats.WeightedMeanBetweenEnds | nt_summary_stats/core.py:97 | the charge-weighted mean of a sorted series with non-negative charges lies between its first and last time |
| SummaryStats.MeanStdSlots | nt_summary_stats/core.py:96-104 | with positive total, slot 7 is the sum of t*c over the total and slot 8 is sqrt of the sum of c*(t - mean)^2 over the total; otherwise both are 0 |
| SummaryStats.VarianceNonNegative | src/core.cpp:116-123 | with non-negative charges the variance under the square root is non-negative |
| SummaryStats.TotalAgrees | nt_summary_stats/core.py:59-68 | reordered (time, charge) pairs give the same slot 0 |
| SummaryStats.EndsAgree | nt_summary_stats/core.py:59-70 | reordered pairs give the same slots 3 and 4 |
| SummaryStats.WindowsAgree | nt_summary_stats/core.py:59-80 | reordered pairs give the same slots 1 and 2 |
| SummaryStats.MomentsAgree | nt_summary_stats/core.py:59-104 | reordered pairs give the same slots 7 and 8 |
| SummaryStats.OrderInvariance | nt_summary_stats/core.py:59-65 | for any charges, reordered pairs give the same summary apart from the two percentile slots |
| SummaryStats.PermutationInvariance | nt_summary_stats/core.py:59-65 | with non-negative charges, reordered pairs (ties in any order) give the same result |
| SummaryStats.MapRows | nt_summary_stats/core.py:143-144 | row `i` is the summary of sensor `i`; the batch succeeds exactly when every sensor does; a failure reports the first failing sensor's error |
| SummaryStats.ComputeSummaryStatsBatch | nt_summary_stats/core.py:135-144 | outer lists of different lengths are an error; otherwise the result has one row per sensor equal to that sensor's summary, and it fails exactly when some sensor has non-empty times of the wrong length, with the first such sensor's lengths |
| SummaryStats.NegativeChargeExample | nt_summary_stats/core.py:83-93 | times 0, 1, 2 with charges 1, -1, 1 give total 1 and both percentile slots 2.0, although the first pulse alone carries more than half the total: the search probes the middle cumulative charge 0 first |
| SummaryStats.DocumentedExample | nt_summary_stats/core.py:40-44 | times 10, 15, 25, 100 with charges 1, 2, 1.5, 0.5 give total 5, window charges 5 and 5, first 10, last 100, both percentile times 15, and mean 25.5 |
| HitGrouping.SplitAtGaps | nt_summary_stats/prometheus.py:185-187 | the groups flatten back to the series; inside a group every consecutive gap is <= the window; between groups the gap is > the window |
| HitGrouping.GapPartitionUnique | nt_summary_stats/prometheus.py:185-187 | any partition with those three properties is the computed one, so a new group starts exactly at each gap > the window |
| HitGrouping.GroupCount | nt_summary_stats/prometheus.py:186-190 | the number of groups is one plus the number of gaps > the window |
| HitGrouping.SplitOfSorted | nt_summary_stats/prometheus.py:193-196 | on sorted hits consecutive group starts are more than the window apart and each group starts with its earliest hit |
| HitGrouping.SuperHitsConserveCharge | nt_summary_stats/prometheus.py:189-191 | merging each group keeps the total charge |
| HitGrouping.GroupHitsByWindow | nt_summary_stats/prometheus.py:169-182 | empty input gives no hits, a single hit is returned unchanged, and n >= 1 hits give between 1 and n super-hits |
| HitGrouping.GroupingOfSorted | nt_summary_stats/prometheus.py:172-175 | hits already in time order are grouped as they stand |
| HitGrouping.GroupingMergesGapPartition | nt_summary_stats/prometheus.py:184-198 | with two or more hits the super-hits are the merged groups of the gap partition of the sorted hits |
| HitGrouping.GroupingConservesCharge | nt_summary_stats/prometheus.py:189-191 | the super-hit charges add up to the input charges |
| HitGrouping.GroupingCount | nt_summary_stats/prometheus.py:186-190 | the number of super-hits is one plus the number of sorted gaps > the window |
| HitGrouping.GroupingTimesFromInput | nt_summary_stats/prometheus.py:193-196 | every super-hit time is an input time and the first is the earliest input time |
| HitGrouping.GroupingUsesEarliestTime | nt_summary_stats/prometheus.py:193-196 | each super-hit's time is no later than any hit of its group |
| HitGrouping.GroupingTimesSpaced | nt_summary_stats/prometheus.py:185-196 | consecutive super-hit times differ by more than the window, so they strictly increase for a non-negative window |
| HitGrouping.ChainedExample | nt_summary_stats/prometheus.py:185-187 | hits at 0, 2, 4 with window 3 form a single group at 0 with charge 3, spanning more than the window |
| HitGrouping.SplitAnchored | nt_summary_stats/prometheus.py:157-159 | re-anchored groups flatten back to the series, each spans at most the window from its first hit, and group starts are more than the window apart |
| HitGrouping.GroupHitsAnchored | nt_summary_stats/prometheus.py:157-159 | the re-anchored grouping never gives more super-hits than hits, and gives at least one exactly when there is a hit; for a window <= 0 it returns the hits unchanged, which mirrors the caller's guard at line 52 of prometheus.py rather than these docstring lines |
| HitGrouping.AnchoredGrouping | nt_summary_stats/prometheus.py:157-159 | the re-anchored grouping conserves charge and spaces super-hit times by more than a positive window |
| HitGrouping.AnchoredExample | nt_summary_stats/prometheus.py:157-159 | hits at 0, 2, 4 with window 3 form two re-anchored groups: (0, charge 2) and (4, charge 1) |
| Prometheus.ProcessSensorData | nt_summary_stats/prometheus.py:42-61 | empty times give the all-zero summary; otherwise the call succeeds exactly when the charges (or the unit default) match the times in length, and a failure carries both lengths |
| Prometheus.UngroupedSensor | nt_summary_stats/prometheus.py:52-61 | without a window, or with a window that is not positive, the result is the statistics of the hits with their charges, or with unit charges when none are given |
| Prometheus.NonPositiveWindow | nt_summary_stats/prometheus.py:52 | a window <= 0 gives the same result as no window |
| Prometheus.GroupedSensor | nt_summary_stats/prometheus.py:52-61 | with hits and a positive window, the result is the statistics of the super-hits that grouping forms |
| Prometheus.SensorTotalAndFirst | nt_summary_stats/prometheus.py:51-61 | with or without grouping, the total charge is the sum of the charges and the first time is the earliest hit time |
| Prometheus.GroupingKeepsTotalAndFirst | nt_summary_stats/prometheus.py:52-58 | grouping with any window leaves the total charge and first time as they are without grouping |
| Prometheus.UnitChargeTotal | nt_summary_stats/prometheus.py:42-43 | without charges every hit weighs 1, so the total charge is the number of hits |
| Prometheus.DistinctKeys | nt_summary_stats/prometheus.py:121 | the distinct keys are strictly ascending in lexicographic order and are exactly the keys that occur |
| Prometheus.AscendingUnique | nt_summary_stats/prometheus.py:121 | a set of keys has only one strictly ascending listing, so the row order is determined |
| Prometheus.Select | nt_summary_stats/prometheus.py:132-136 | the masked selection has one entry per photon with the key |
| Prometheus.MatchingFrom | nt_summary_stats/prometheus.py:132 | the mask's indices: strictly increasing, each with the key, and including every index with the key |
| Prometheus.SelectIsGather | nt_summary_stats/prometheus.py:135-136 | the selected entries are the entries at the mask's indices in increasing order |
| Prometheus.FirstIndex | nt_summary_stats/prometheus.py:139 | the index of the first photon with the key: it has the key and no earlier photon does |
| Prometheus.ProcessEvent | nt_summary_stats/prometheus.py:115-123 | an event without photons gives no rows; otherwise there is one row per distinct key |
| Prometheus.RowsFollowKeys | nt_summary_stats/prometheus.py:119-130 | the rows follow the unique strictly ascending listing of the keys present, one row per key |
| Prometheus.RowPosition | nt_summary_stats/prometheus.py:138-144 | a row's position is that of the first photon with the row's key |
| Prometheus.RowSeries | nt_summary_stats/prometheus.py:132-147 | a row's statistics are those of its key's photon times and charges in their original relative order |
| Prometheus.KeyedChargeIsTotal | nt_summary_stats/prometheus.py:121-136 | adding the charges of every distinct key's photons gives the event's total charge |
| Prometheus.RowsChargeIsKeyed | nt_summary_stats/prometheus.py:130-147 | each row's total charge is the charge of its key's photons |
| Prometheus.EventChargeConservation | nt_summary_stats/prometheus.py:130-147 | the rows' total charges add up to the event's total charge |
| Prometheus.UnitChargeRows | nt_summary_stats/prometheus.py:110-113 | without a charge field each row's total charge is its key's photon count |
| Prometheus.ExampleEventPositions | nt_summary_stats/prometheus.py:82-97 | the documented event with keys (1,1), (1,1), (2,1) gives 2 rows, at (0, 0, 0) and (100, 0, 50) |
| Prometheus.ExampleEventCharges | nt_summary_stats/prometheus.py:82-97 | the documented event's rows have total charges 2 and 1 |

## Left out

- Floating point: the model uses exact reals. It does not model IEEE-754 rounding or the build's fast-math flags, under which results only agree within a tolerance.
- The square root is a parameter. The contracts state what it is applied to, and that this value is non-negative for non-negative charges.
- Tie order of the unstable `np.argsort` / `std::sort`: the model sorts stably. All contracts hold for any time-sorted permutation, and with non-negative charges the result does not depend on tie order (`SummaryStats.PermutationInvariance`).
- SummaryStats.PercentileSlots: stated only for non-negative charges. With negative charges the cumulative charge can fall, and the halving search need not return a percentile time. The model computes what the search computes (`SummaryStats.NegativeChargeExample`), but no lemma says what that value means.
- SummaryStats.PermutationInvariance: stated only for non-negative charges, for the same reason. `SummaryStats.OrderInvariance` covers the other seven slots for any charges.
- SummaryStats.WindowChargeBounds, SummaryStats.TimeSlotBounds, SummaryStats.VarianceNonNegative: stated for non-negative charges, the case in which the source's ordering claims hold.
- Prometheus.ProcessSensorData: for non-empty times with a positive window, the model requires the charges to match the times in length. With other lengths the source's behaviour depends on the data:
  - When there are more charges than times and the times are unsorted or a single time, `charges[sort_idx]` picks out only as many charges as times. The extra charges are dropped silently and the call succeeds. For example, times 2, 1 with charges 1, 1, 1 and window 1 give one super-hit (1, 2).
  - With two or more sorted times and any other number of charges, `np.bincount` raises a weights-length error.
  - With fewer charges than times and the times unsorted or single, `charges[sort_idx]` raises an indexing error.
  The model excludes all of these cases by its precondition. Empty times with any charges give the all-zero summary, as in the source.
- Prometheus.ProcessEvent: the photon arrays must all have the same length (`Photons.WellFormed`), because the source never checks them.
- Input conversion: the model does not cover `np.asarray` dtype conversion or the int32 truncation of ids. Ids are unbounded integers.
- Event input: the model does not cover dictionary lookup of the `photons` record or a missing key raising `KeyError`. An absent `charge` field is `None`.
- Output shape: positions come out as rows of a sequence, not as an (N, 3) array.
- Exceptions are modelled as `Err` values of `Result`.
- src/bindings.cpp (Python/NumPy glue), nt_summary_stats/__init__.py (backend selection), setup.py and src/core.hpp (declarations only) are not part of this model.
- The C++ and Python versions compute the same slots in the same order. The model states them once and cites whichever file spells out the step.
