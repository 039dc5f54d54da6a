/** The nine summary statistics of one sensor's pulse series, and the batch
    form that maps them over many sensors. */
module SummaryStats {
  import opened Pulses
  import opened Results

  /** The statistics vector; `Slots` lists the fields in output order. */
  datatype Summary = Summary(
    totalCharge: real,
    charge100ns: real,
    charge500ns: real,
    firstTime: real,
    lastTime: real,
    time20: real,
    time50: real,
    meanTime: real,
    stdTime: real)
  {
    function Slots(): seq<real> {
      [totalCharge, charge100ns, charge500ns, firstTime, lastTime,
       time20, time50, meanTime, stdTime]
    }
  }

  /** The statistics of a sensor with no pulses. */
  const EmptySummary := Summary(0.0, 0.0, 0.0, 0.0, 0.0, 0.0, 0.0, 0.0, 0.0)

  /** Widths (ns) of the two early-charge windows after the first pulse. */
  const ShortWindow: real := 100.0
  const LongWindow: real := 500.0

  /** The two charge milestones whose arrival times slots 5 and 6 report. */
  datatype Milestone = Charge20 | Charge50

  /** The charge a milestone asks for: 20% or 50% of the total. */
  function Threshold(m: Milestone, total: real): real {
    match m
    case Charge20 => 0.2 * total
    case Charge50 => 0.5 * total
  }

  function Min(a: nat, b: nat): nat {
    if a <= b then a else b
  }

  /** Running charge totals, each offset by `acc`: entry `i` adds up pulses
      `0..i` (a partial sum). */
  function RunningSums(s: seq<Pulse>, acc: real): (cum: seq<real>)
    ensures |cum| == |s|
    ensures forall i :: 0 <= i < |s| ==> cum[i] == acc + SumOf(s[..i + 1], Charge)
  {
    if |s| == 0 then []
    else
      var rest := RunningSums(s[1..], acc + s[0].charge);
      RunningSumsStep(s, acc, rest, [acc + s[0].charge] + rest);
      [acc + s[0].charge] + rest
  }

  /** Prepending the first pulse's running total to those of the rest gives
      the running totals of the whole series. */
  lemma RunningSumsStep(s: seq<Pulse>, acc: real, rest: seq<real>, cum: seq<real>)
    requires |s| > 0 && |rest| == |s| - 1 && cum == [acc + s[0].charge] + rest
    requires forall i :: 0 <= i < |rest| ==> rest[i] == acc + s[0].charge + SumOf(s[1..][..i + 1], Charge)
    ensures forall i :: 0 <= i < |s| ==> cum[i] == acc + SumOf(s[..i + 1], Charge)
  {
    forall i | 0 <= i < |s|
      ensures cum[i] == acc + SumOf(s[..i + 1], Charge)
    {
      assert s[..i + 1] == [s[0]] + s[1..][..i];
      SumOfCons(s[0], s[1..][..i], Charge);
      if i == 0 {
        assert s[1..][..0] == [];
      } else {
        assert cum[i] == rest[i - 1];
      }
    }
  }

  /** The cumulative charge of a series. */
  function Cumulative(s: seq<Pulse>): seq<real> {
    RunningSums(s, 0.0)
  }

  /** The halving search for the first pulse arriving more than `width`
      after the first one; on the sorted series this is the number of pulses
      arriving no later than that. */
  function WindowIndex(s: seq<Pulse>, width: real): (k: nat)
    requires |s| > 0 && SortedByTime(s)
    ensures k == UpperBound(Times(s), s[0].time + width)
  {
    var ts := Times(s);
    var v := s[0].time + width;
    SortedTimes(s);
    SearchRightIsUpperBound(ts, v);
    SearchRight(ts, v)
  }

  /** The halving search for the milestone's threshold in the running
      totals, clamped to the last pulse. */
  function PercentileIndex(s: seq<Pulse>, m: Milestone): (k: nat)
    requires |s| > 0
    ensures k < |s|
  {
    Min(SearchRight(Cumulative(s), Threshold(m, SumOf(s, Charge))), |s| - 1)
  }

  /** Charge-weighted mean time; 0 unless the total charge is positive. */
  function WeightedMean(s: seq<Pulse>): real {
    var total := SumOf(s, Charge);
    if total > 0.0 then SumOf(s, TimeCharge) / total else 0.0
  }

  /** Charge-weighted (population) variance of the times; 0 unless the
      total charge is positive. */
  function WeightedVariance(s: seq<Pulse>): real {
    var total := SumOf(s, Charge);
    if total > 0.0 then SumOf(s, SpreadAbout(WeightedMean(s))) / total else 0.0
  }

  /** The statistics of a non-empty, time-sorted series; `sqrt` is the square
      root the standard deviation slot applies to the variance. */
  function SummarizeSorted(s: seq<Pulse>, sqrt: real -> real): Summary
    requires |s| > 0 && SortedByTime(s)
  {
    var total := SumOf(s, Charge);
    Summary(
      total,
      SumOf(s[..WindowIndex(s, ShortWindow)], Charge),
      SumOf(s[..WindowIndex(s, LongWindow)], Charge),
      s[0].time,
      s[|s| - 1].time,
      s[PercentileIndex(s, Charge20)].time,
      s[PercentileIndex(s, Charge50)].time,
      WeightedMean(s),
      if total > 0.0 then sqrt(WeightedVariance(s)) else 0.0)
  }

  /** The nine statistics of one sensor. Empty `times` gives all zeros before
      the lengths are compared; otherwise differing lengths are an error. */
  function ComputeSummaryStats(times: seq<real>, charges: seq<real>, sqrt: real -> real): (r: Result<Summary>)
    ensures |times| == 0 ==> r == Ok(EmptySummary)
    ensures |times| > 0 && |times| != |charges| ==> r == Err(LengthMismatch(|times|, |charges|))
    ensures r.Ok? <==> |times| == 0 || |times| == |charges|
  {
    if |times| == 0 then Ok(EmptySummary)
    else if |times| != |charges| then Err(LengthMismatch(|times|, |charges|))
    else Ok(SummarizeSorted(SortByTime(Zip(times, charges)), sqrt))
  }

  /** `r` is the earliest pulse time by which more than the milestone's share
      of the total charge has arrived: the charge at or before `r` exceeds the
      threshold, and the charge at or before any earlier pulse time does not. */
  ghost predicate IsPercentileTime(s: seq<Pulse>, m: Milestone, r: real) {
    && (exists i :: 0 <= i < |s| && s[i].time == r)
    && SumOf(s, ChargeUpTo(r)) > Threshold(m, SumOf(s, Charge))
    && forall i :: 0 <= i < |s| && s[i].time < r ==>
         SumOf(s, ChargeUpTo(s[i].time)) <= Threshold(m, SumOf(s, Charge))
  }

  // ---------------------------------------------------------------------
  // Facts about the sorted series
  // ---------------------------------------------------------------------

  /** The last running total is the total charge. */
  lemma CumulativeEndsAtTotal(s: seq<Pulse>)
    requires |s| > 0
    ensures Cumulative(s)[|s| - 1] == SumOf(s, Charge)
  {
    assert s[..|s|] == s;
  }

  /** Both early windows contain the first pulse, and the longer one holds at
      least as many pulses. */
  lemma WindowIndices(s: seq<Pulse>)
    requires |s| > 0 && SortedByTime(s)
    ensures 1 <= WindowIndex(s, ShortWindow) <= WindowIndex(s, LongWindow) <= |s|
  {
    UpperBoundMonotone(Times(s), s[0].time + ShortWindow, s[0].time + LongWindow);
  }

  /** Each window charge, a prefix sum up to the window index, is the charge
      arriving no later than the window's cutoff. */
  lemma WindowCharges(s: seq<Pulse>)
    requires |s| > 0 && SortedByTime(s)
    ensures SumOf(s[..WindowIndex(s, ShortWindow)], Charge) == SumOf(s, ChargeUpTo(s[0].time + ShortWindow))
    ensures SumOf(s[..WindowIndex(s, LongWindow)], Charge) == SumOf(s, ChargeUpTo(s[0].time + LongWindow))
  {
    ChargeUpToIsPrefix(s, s[0].time + ShortWindow);
    ChargeUpToIsPrefix(s, s[0].time + LongWindow);
  }

  /** With a positive total the last running total exceeds the threshold,
      so whatever the signs of the charges the search stops inside the
      series and the percentile index needs no clamping. */
  lemma PercentileIndexUnclamped(s: seq<Pulse>, m: Milestone)
    requires |s| > 0 && SumOf(s, Charge) > 0.0
    ensures PercentileIndex(s, m) == SearchRight(Cumulative(s), Threshold(m, SumOf(s, Charge)))
  {
    CumulativeEndsAtTotal(s);
  }

  /** With non-negative charges the running totals never fall. */
  lemma CumulativeNonDecreasing(s: seq<Pulse>)
    requires NonNegativeCharges(s)
    ensures NonDecreasing(Cumulative(s))
  {
    var cum := Cumulative(s);
    forall i, j | 0 <= i < j < |cum| ensures cum[i] <= cum[j] {
      PrefixChargeMonotone(s, i + 1, j + 1);
    }
  }

  /** With non-negative charges the percentile index is the first pulse
      whose running total exceeds the threshold, clamped to the last one. */
  lemma PercentileIndexOfNonNegative(s: seq<Pulse>, m: Milestone)
    requires |s| > 0 && NonNegativeCharges(s)
    ensures PercentileIndex(s, m) == Min(UpperBound(Cumulative(s), Threshold(m, SumOf(s, Charge))), |s| - 1)
  {
    CumulativeNonDecreasing(s);
    SearchRightIsUpperBound(Cumulative(s), Threshold(m, SumOf(s, Charge)));
  }

  /** On a sorted series the charge arriving by the time of pulse `k` covers
      at least pulses `0..k`. */
  lemma ChargeThroughIndex(s: seq<Pulse>, k: nat)
    requires SortedByTime(s) && NonNegativeCharges(s) && k < |s|
    ensures SumOf(s, ChargeUpTo(s[k].time)) >= SumOf(s[..k + 1], Charge)
  {
    hide *;
    UpperBoundPast(s, k);
    ChargeUpToIsPrefix(s, s[k].time);
    PrefixChargeMonotone(s, k + 1, UpperBound(Times(s), s[k].time));
  }

  /** On a sorted series the charge arriving by a time earlier than pulse
      `k` covers at most pulses `0..k-1`. */
  lemma ChargeBeforeIndex(s: seq<Pulse>, k: nat, t: real)
    requires SortedByTime(s) && NonNegativeCharges(s) && k < |s| && t < s[k].time
    ensures SumOf(s, ChargeUpTo(t)) <= SumOf(s[..k], Charge)
  {
    hide *;
    UpperBoundBefore(s, k, t);
    ChargeUpToIsPrefix(s, t);
    PrefixChargeMonotone(s, UpperBound(Times(s), t), k);
  }

  /** On a sorted series with non-negative charges and a positive total, the
      clamped percentile index picks the percentile time. */
  lemma PercentileOfSorted(s: seq<Pulse>, m: Milestone)
    requires |s| > 0 && SortedByTime(s) && NonNegativeCharges(s) && SumOf(s, Charge) > 0.0
    ensures IsPercentileTime(s, m, s[PercentileIndex(s, m)].time)
  {
    var k := PercentileIndex(s, m);
    PercentileReached(s, m);
    PercentileNotBefore(s, m);
    // pulse k itself shows that the percentile time occurs in the series
    assert exists i :: 0 <= i < |s| && s[i].time == s[k].time;
  }

  /** More than the threshold has arrived by the percentile time. */
  lemma PercentileReached(s: seq<Pulse>, m: Milestone)
    requires |s| > 0 && SortedByTime(s) && NonNegativeCharges(s) && SumOf(s, Charge) > 0.0
    ensures SumOf(s, ChargeUpTo(s[PercentileIndex(s, m)].time)) > Threshold(m, SumOf(s, Charge))
  {
    var k := PercentileIndex(s, m);
    PercentileIndexUnclamped(s, m);
    assert Cumulative(s)[k] > Threshold(m, SumOf(s, Charge));
    ChargeThroughIndex(s, k);
  }

  /** No earlier pulse time sees more than the threshold. */
  lemma PercentileNotBefore(s: seq<Pulse>, m: Milestone)
    requires |s| > 0 && SortedByTime(s) && NonNegativeCharges(s) && SumOf(s, Charge) > 0.0
    ensures forall i :: 0 <= i < |s| && s[i].time < s[PercentileIndex(s, m)].time ==>
              SumOf(s, ChargeUpTo(s[i].time)) <= Threshold(m, SumOf(s, Charge))
  {
    hide *;
    var k := PercentileIndex(s, m);
    PrefixBeforePercentile(s, m);
    forall i | 0 <= i < |s| && s[i].time < s[k].time
      ensures SumOf(s, ChargeUpTo(s[i].time)) <= Threshold(m, SumOf(s, Charge))
    {
      ChargeBeforeIndex(s, k, s[i].time);
    }
  }

  /** The pulses before the percentile index carry no more than the
      threshold: the search stopped right after a running total at most the
      threshold, or at the very start. */
  lemma PrefixBeforePercentile(s: seq<Pulse>, m: Milestone)
    requires |s| > 0 && SumOf(s, Charge) > 0.0
    ensures SumOf(s[..PercentileIndex(s, m)], Charge) <= Threshold(m, SumOf(s, Charge))
  {
    var k := PercentileIndex(s, m);
    PercentileIndexUnclamped(s, m);
    if k == 0 {
      assert s[..k] == [];
    } else {
      assert Cumulative(s)[k - 1] == SumOf(s[..k], Charge);
    }
  }

  /** With non-negative charges summing to zero no running total exceeds the
      threshold, and the percentile index clamps to the last pulse. */
  lemma PercentileOfZeroCharge(s: seq<Pulse>, m: Milestone)
    requires |s| > 0 && NonNegativeCharges(s) && SumOf(s, Charge) == 0.0
    ensures PercentileIndex(s, m) == |s| - 1
  {
    var cum := Cumulative(s);
    forall i | 0 <= i < |s|
      ensures cum[i] <= Threshold(m, SumOf(s, Charge))
    {
      PrefixChargeMonotone(s, i + 1, |s|);
      assert s[..|s|] == s;
    }
  }

  /** The 20% milestone is reached no later than the 50% one. */
  lemma PercentileIndicesOrdered(s: seq<Pulse>)
    requires |s| > 0 && NonNegativeCharges(s)
    ensures PercentileIndex(s, Charge20) <= PercentileIndex(s, Charge50)
  {
    ChargeSumNonNegative(s);
    var total := SumOf(s, Charge);
    PercentileIndexOfNonNegative(s, Charge20);
    PercentileIndexOfNonNegative(s, Charge50);
    UpperBoundMonotone(Cumulative(s), Threshold(Charge20, total), Threshold(Charge50, total));
  }

  /** The percentile time is a property of the multiset of pulses. */
  lemma PercentileTimePermutation(a: seq<Pulse>, b: seq<Pulse>, m: Milestone, r: real)
    requires multiset(a) == multiset(b) && IsPercentileTime(a, m, r)
    ensures IsPercentileTime(b, m, r)
  {
    SumOfPermutation(a, b, Charge);
    SumOfPermutation(a, b, ChargeUpTo(r));
    var threshold := Threshold(m, SumOf(a, Charge));
    var i0 :| 0 <= i0 < |a| && a[i0].time == r;
    assert a[i0] in multiset(b);
    var j0 :| 0 <= j0 < |b| && b[j0] == a[i0];
    forall i | 0 <= i < |b| && b[i].time < r
      ensures SumOf(b, ChargeUpTo(b[i].time)) <= threshold
    {
      assert b[i] in multiset(a);
      var j :| 0 <= j < |a| && a[j] == b[i];
      SumOfPermutation(a, b, ChargeUpTo(b[i].time));
    }
  }

  /** At most one time is the percentile time of a series. */
  lemma PercentileTimeUnique(s: seq<Pulse>, m: Milestone, r1: real, r2: real)
    requires IsPercentileTime(s, m, r1) && IsPercentileTime(s, m, r2)
    ensures r1 == r2
  {
  }

  // ---------------------------------------------------------------------
  // What each slot means, stated on the input in its original order
  // ---------------------------------------------------------------------

  /** A non-empty call summarizes the time-ordered pulses. */
  lemma StatsOfOrdered(times: seq<real>, charges: seq<real>, sqrt: real -> real)
    requires |times| == |charges| && |times| > 0
    ensures ComputeSummaryStats(times, charges, sqrt)
         == Ok(SummarizeSorted(SortByTime(Zip(times, charges)), sqrt))
  {
  }

  /** The slots of a sorted series, one field at a time. */
  lemma SlotsOfSorted(s: seq<Pulse>, sqrt: real -> real)
    requires |s| > 0 && SortedByTime(s)
    ensures
      var r := SummarizeSorted(s, sqrt);
      var total := SumOf(s, Charge);
      && r.totalCharge == total
      && r.charge100ns == SumOf(s[..WindowIndex(s, ShortWindow)], Charge)
      && r.charge500ns == SumOf(s[..WindowIndex(s, LongWindow)], Charge)
      && r.firstTime == s[0].time
      && r.lastTime == s[|s| - 1].time
      && r.time20 == s[PercentileIndex(s, Charge20)].time
      && r.time50 == s[PercentileIndex(s, Charge50)].time
      && r.meanTime == WeightedMean(s)
      && r.stdTime == (if total > 0.0 then sqrt(WeightedVariance(s)) else 0.0)
  {
  }

  /** Slots 7 and 8 of any time-sorted reordering `s` of the pulses `z`,
      as sums over `z`. */
  lemma MomentSlotsOfPulses(z: seq<Pulse>, s: seq<Pulse>, sqrt: real -> real)
    requires |s| > 0 && SortedByTime(s) && multiset(s) == multiset(z)
    ensures
      var r := SummarizeSorted(s, sqrt);
      && r.totalCharge == SumOf(z, Charge)
      && (r.totalCharge > 0.0 ==>
            && r.meanTime == SumOf(z, TimeCharge) / r.totalCharge
            && r.stdTime == sqrt(SumOf(z, SpreadAbout(r.meanTime)) / r.totalCharge))
      && (r.totalCharge <= 0.0 ==> r.meanTime == 0.0 && r.stdTime == 0.0)
  {
    SlotsOfSorted(s, sqrt);
    SumOfPermutation(s, z, Charge);
    SumOfPermutation(s, z, TimeCharge);
    SumOfPermutation(s, z, SpreadAbout(WeightedMean(s)));
  }

  /** Slots 5 and 6 of any time-sorted reordering `s` of the pulses `z`
      with non-negative charges, as percentile times of `z`. */
  lemma PercentileSlotsOfPulses(z: seq<Pulse>, s: seq<Pulse>, sqrt: real -> real)
    requires |s| > 0 && SortedByTime(s) && multiset(s) == multiset(z) && NonNegativeCharges(z)
    ensures
      var r := SummarizeSorted(s, sqrt);
      && (r.totalCharge > 0.0 ==>
            IsPercentileTime(z, Charge20, r.time20) && IsPercentileTime(z, Charge50, r.time50))
      && (r.totalCharge == 0.0 ==> r.time20 == r.lastTime && r.time50 == r.lastTime)
  {
    SlotsOfSorted(s, sqrt);
    NonNegativePermutation(z, s);
    if SumOf(s, Charge) > 0.0 {
      PercentileOfSorted(s, Charge20);
      PercentileOfSorted(s, Charge50);
      PercentileTimePermutation(s, z, Charge20, s[PercentileIndex(s, Charge20)].time);
      PercentileTimePermutation(s, z, Charge50, s[PercentileIndex(s, Charge50)].time);
    } else if SumOf(s, Charge) == 0.0 {
      PercentileOfZeroCharge(s, Charge20);
      PercentileOfZeroCharge(s, Charge50);
    }
  }

  /** On a sorted series with non-negative charges the window charges are
      ordered between zero and the total. */
  lemma WindowBoundsOfSorted(s: seq<Pulse>, sqrt: real -> real)
    requires |s| > 0 && SortedByTime(s) && NonNegativeCharges(s)
    ensures
      var r := SummarizeSorted(s, sqrt);
      0.0 <= r.charge100ns <= r.charge500ns <= r.totalCharge
  {
    SlotsOfSorted(s, sqrt);
    WindowIndices(s);
    var i100, i500 := WindowIndex(s, ShortWindow), WindowIndex(s, LongWindow);
    PrefixChargeMonotone(s, 0, i100);
    PrefixChargeMonotone(s, i100, i500);
    PrefixChargeMonotone(s, i500, |s|);
    assert s[..|s|] == s;
    assert s[..0] == [];
  }

  /** On a sorted series with non-negative charges the time slots are
      ordered, and with a positive total the mean lies between the ends. */
  lemma TimeBoundsOfSorted(s: seq<Pulse>, sqrt: real -> real)
    requires |s| > 0 && SortedByTime(s) && NonNegativeCharges(s)
    ensures
      var r := SummarizeSorted(s, sqrt);
      && r.firstTime <= r.time20 <= r.time50 <= r.lastTime
      && (r.totalCharge > 0.0 ==> r.firstTime <= r.meanTime <= r.lastTime)
  {
    SlotsOfSorted(s, sqrt);
    PercentileIndicesOrdered(s);
    if SumOf(s, Charge) > 0.0 {
      WeightedMeanBetweenEnds(s);
    }
  }

  /** Slot 0 is the sum of the charges. */
  lemma TotalChargeSlot(times: seq<real>, charges: seq<real>, sqrt: real -> real)
    requires |times| == |charges| && |times| > 0
    ensures ComputeSummaryStats(times, charges, sqrt).Ok?
    ensures ComputeSummaryStats(times, charges, sqrt).value.totalCharge == Sum(charges)
  {
    hide *;
    var z := Zip(times, charges);
    StatsOfOrdered(times, charges, sqrt);
    SlotsOfSorted(SortByTime(z), sqrt);
    ChargeSumIsSum(times, charges);
    SumOfPermutation(SortByTime(z), z, Charge);
  }

  /** Slots 3 and 4 are the earliest and the latest pulse time. */
  lemma FirstLastSlots(times: seq<real>, charges: seq<real>, sqrt: real -> real)
    requires |times| == |charges| && |times| > 0
    ensures ComputeSummaryStats(times, charges, sqrt).Ok?
    ensures IsMinimum(times, ComputeSummaryStats(times, charges, sqrt).value.firstTime)
    ensures IsMaximum(times, ComputeSummaryStats(times, charges, sqrt).value.lastTime)
  {
    hide *;
    var s := SortByTime(Zip(times, charges));
    StatsOfOrdered(times, charges, sqrt);
    SortedEnds(s, times, charges);
    SlotsOfSorted(s, sqrt);
  }

  /** The window slots of any time-sorted reordering `s` of the pulses `z`,
      as the charge up to a cutoff counted over `z`. */
  lemma WindowSlotsOfPulses(z: seq<Pulse>, s: seq<Pulse>, sqrt: real -> real)
    requires |s| > 0 && SortedByTime(s) && multiset(s) == multiset(z)
    ensures
      var r := SummarizeSorted(s, sqrt);
      && r.charge100ns == SumOf(z, ChargeUpTo(r.firstTime + ShortWindow))
      && r.charge500ns == SumOf(z, ChargeUpTo(r.firstTime + LongWindow))
  {
    var r := SummarizeSorted(s, sqrt);
    var c100, c500 := ChargeUpTo(s[0].time + ShortWindow), ChargeUpTo(s[0].time + LongWindow);
    assert r.charge100ns == SumOf(s, c100) && r.charge500ns == SumOf(s, c500) by {
      WindowCharges(s);
    }
    SumOfPermutation(s, z, c100);
    SumOfPermutation(s, z, c500);
  }

  /** Slots 1 and 2 are the charge of the pulses arriving no later than
      100 ns and 500 ns after the first pulse, cutoff included. */
  lemma WindowSlots(times: seq<real>, charges: seq<real>, sqrt: real -> real)
    requires |times| == |charges| && |times| > 0
    ensures ComputeSummaryStats(times, charges, sqrt).Ok?
    ensures
      var r := ComputeSummaryStats(times, charges, sqrt).value;
      && r.charge100ns == SumOf(Zip(times, charges), ChargeUpTo(r.firstTime + ShortWindow))
      && r.charge500ns == SumOf(Zip(times, charges), ChargeUpTo(r.firstTime + LongWindow))
  {
    hide *;
    var z := Zip(times, charges);
    StatsOfOrdered(times, charges, sqrt);
    SortByTimeLength(z);
    WindowSlotsOfPulses(z, SortByTime(z), sqrt);
  }

  /** Slots 7 and 8: with a positive total, the charge-weighted mean time and
      the square root of the charge-weighted population variance about it;
      otherwise both are 0. */
  lemma MeanStdSlots(times: seq<real>, charges: seq<real>, sqrt: real -> real)
    requires |times| == |charges| && |times| > 0
    ensures ComputeSummaryStats(times, charges, sqrt).Ok?
    ensures
      var r := ComputeSummaryStats(times, charges, sqrt).value;
      var z := Zip(times, charges);
      && (r.totalCharge > 0.0 ==>
            && r.meanTime == SumOf(z, TimeCharge) / r.totalCharge
            && r.stdTime == sqrt(SumOf(z, SpreadAbout(r.meanTime)) / r.totalCharge))
      && (r.totalCharge <= 0.0 ==> r.meanTime == 0.0 && r.stdTime == 0.0)
  {
    hide *;
    var z := Zip(times, charges);
    StatsOfOrdered(times, charges, sqrt);
    SortByTimeLength(z);
    MomentSlotsOfPulses(z, SortByTime(z), sqrt);
  }

  /** Slots 5 and 6 for non-negative charges: with a positive total they are
      the earliest times by which more than 20% and 50% of the charge has
      arrived; with a zero total both clamp to the last pulse time. */
  lemma PercentileSlots(times: seq<real>, charges: seq<real>, sqrt: real -> real)
    requires |times| == |charges| && |times| > 0 && NonNegative(charges)
    ensures ComputeSummaryStats(times, charges, sqrt).Ok?
    ensures
      var r := ComputeSummaryStats(times, charges, sqrt).value;
      var z := Zip(times, charges);
      && (r.totalCharge > 0.0 ==>
            IsPercentileTime(z, Charge20, r.time20) && IsPercentileTime(z, Charge50, r.time50))
      && (r.totalCharge == 0.0 ==> r.time20 == r.lastTime && r.time50 == r.lastTime)
  {
    hide *;
    var z := Zip(times, charges);
    StatsOfOrdered(times, charges, sqrt);
    SortByTimeLength(z);
    NonNegativeZip(times, charges);
    PercentileSlotsOfPulses(z, SortByTime(z), sqrt);
  }

  /** For non-negative charges the window charges are ordered:
      0 <= slot 1 <= slot 2 <= slot 0. */
  lemma WindowChargeBounds(times: seq<real>, charges: seq<real>, sqrt: real -> real)
    requires |times| == |charges| && |times| > 0 && NonNegative(charges)
    ensures ComputeSummaryStats(times, charges, sqrt).Ok?
    ensures
      var r := ComputeSummaryStats(times, charges, sqrt).value;
      0.0 <= r.charge100ns <= r.charge500ns <= r.totalCharge
  {
    hide *;
    var z := Zip(times, charges);
    var s := SortByTime(z);
    StatsOfOrdered(times, charges, sqrt);
    SortByTimeLength(z);
    NonNegativeZip(times, charges);
    NonNegativePermutation(z, s);
    WindowBoundsOfSorted(s, sqrt);
  }

  lemma QuotientBetween(num: real, den: real, lo: real, hi: real)
    requires den > 0.0 && lo * den <= num <= hi * den
    ensures lo <= num / den <= hi
  {
  }

  lemma QuotientNonNegative(num: real, den: real)
    requires den > 0.0 && num >= 0.0
    ensures num / den >= 0.0
  {
  }

  /** On a sorted series with non-negative charges and a positive total the
      weighted mean lies between the first and the last time. */
  lemma WeightedMeanBetweenEnds(s: seq<Pulse>)
    requires |s| > 0 && SortedByTime(s) && NonNegativeCharges(s) && SumOf(s, Charge) > 0.0
    ensures s[0].time <= WeightedMean(s) <= s[|s| - 1].time
  {
    TimeChargeBounds(s, s[0].time, s[|s| - 1].time);
    QuotientBetween(SumOf(s, TimeCharge), SumOf(s, Charge), s[0].time, s[|s| - 1].time);
  }

  /** For non-negative charges the time slots are ordered: first <= 20% time
      <= 50% time <= last, and with a positive total the weighted mean lies
      between the first and last time. */
  lemma TimeSlotBounds(times: seq<real>, charges: seq<real>, sqrt: real -> real)
    requires |times| == |charges| && |times| > 0 && NonNegative(charges)
    ensures ComputeSummaryStats(times, charges, sqrt).Ok?
    ensures
      var r := ComputeSummaryStats(times, charges, sqrt).value;
      && r.firstTime <= r.time20 <= r.time50 <= r.lastTime
      && (r.totalCharge > 0.0 ==> r.firstTime <= r.meanTime <= r.lastTime)
  {
    hide *;
    var z := Zip(times, charges);
    var s := SortByTime(z);
    StatsOfOrdered(times, charges, sqrt);
    SortByTimeLength(z);
    NonNegativeZip(times, charges);
    NonNegativePermutation(z, s);
    TimeBoundsOfSorted(s, sqrt);
  }

  /** For non-negative charges and a positive total the weighted variance,
      whose square root is slot 8, is non-negative. */
  lemma VarianceNonNegative(times: seq<real>, charges: seq<real>, sqrt: real -> real)
    requires |times| == |charges| && |times| > 0 && NonNegative(charges)
    ensures ComputeSummaryStats(times, charges, sqrt).Ok?
    ensures
      var r := ComputeSummaryStats(times, charges, sqrt).value;
      var z := Zip(times, charges);
      r.totalCharge > 0.0 ==> SumOf(z, SpreadAbout(r.meanTime)) / r.totalCharge >= 0.0
  {
    hide *;
    var z := Zip(times, charges);
    var r := ComputeSummaryStats(times, charges, sqrt).value;
    NonNegativeZip(times, charges);
    SpreadNonNegative(z, r.meanTime);
    if r.totalCharge > 0.0 {
      QuotientNonNegative(SumOf(z, SpreadAbout(r.meanTime)), r.totalCharge);
    }
  }

  /** The earliest and latest time agree for two reorderings of the same pulses. */
  lemma ExtremaAgree(t1: seq<real>, c1: seq<real>, t2: seq<real>, c2: seq<real>, lo1: real, lo2: real, hi1: real, hi2: real)
    requires |t1| == |c1| && |t2| == |c2|
    requires multiset(Zip(t1, c1)) == multiset(Zip(t2, c2))
    requires IsMinimum(t1, lo1) && IsMinimum(t2, lo2) && IsMaximum(t1, hi1) && IsMaximum(t2, hi2)
    ensures lo1 == lo2 && hi1 == hi2
  {
    var z1, z2 := Zip(t1, c1), Zip(t2, c2);
    forall i | 0 <= i < |t1|
      ensures lo2 <= t1[i] <= hi2
    {
      assert z1[i] in multiset(z2);
      var j :| 0 <= j < |z2| && z2[j] == z1[i];
    }
    forall i | 0 <= i < |t2|
      ensures lo1 <= t2[i] <= hi1
    {
      assert z2[i] in multiset(z1);
      var j :| 0 <= j < |z1| && z1[j] == z2[i];
    }
  }

  /** Two reorderings of the same pulses have the same total charge. */
  lemma TotalAgrees(t1: seq<real>, c1: seq<real>, t2: seq<real>, c2: seq<real>, sqrt: real -> real)
    requires |t1| == |c1| > 0 && |t2| == |c2| > 0
    requires multiset(Zip(t1, c1)) == multiset(Zip(t2, c2))
    ensures ComputeSummaryStats(t1, c1, sqrt).Ok? && ComputeSummaryStats(t2, c2, sqrt).Ok?
    ensures ComputeSummaryStats(t1, c1, sqrt).value.totalCharge
         == ComputeSummaryStats(t2, c2, sqrt).value.totalCharge
  {
    hide *;
    TotalChargeSlot(t1, c1, sqrt);
    TotalChargeSlot(t2, c2, sqrt);
    ChargeSumIsSum(t1, c1);
    ChargeSumIsSum(t2, c2);
    SumOfPermutation(Zip(t1, c1), Zip(t2, c2), Charge);
  }

  /** Two reorderings of the same pulses have the same first and last time. */
  lemma EndsAgree(t1: seq<real>, c1: seq<real>, t2: seq<real>, c2: seq<real>, sqrt: real -> real)
    requires |t1| == |c1| > 0 && |t2| == |c2| > 0
    requires multiset(Zip(t1, c1)) == multiset(Zip(t2, c2))
    ensures ComputeSummaryStats(t1, c1, sqrt).Ok? && ComputeSummaryStats(t2, c2, sqrt).Ok?
    ensures
      var r1 := ComputeSummaryStats(t1, c1, sqrt).value;
      var r2 := ComputeSummaryStats(t2, c2, sqrt).value;
      r1.firstTime == r2.firstTime && r1.lastTime == r2.lastTime
  {
    hide *;
    FirstLastSlots(t1, c1, sqrt);
    FirstLastSlots(t2, c2, sqrt);
    var r1 := ComputeSummaryStats(t1, c1, sqrt).value;
    var r2 := ComputeSummaryStats(t2, c2, sqrt).value;
    ExtremaAgree(t1, c1, t2, c2, r1.firstTime, r2.firstTime, r1.lastTime, r2.lastTime);
  }

  /** Two reorderings of the same pulses have the same window charges. */
  lemma WindowsAgree(t1: seq<real>, c1: seq<real>, t2: seq<real>, c2: seq<real>, sqrt: real -> real)
    requires |t1| == |c1| > 0 && |t2| == |c2| > 0
    requires multiset(Zip(t1, c1)) == multiset(Zip(t2, c2))
    ensures ComputeSummaryStats(t1, c1, sqrt).Ok? && ComputeSummaryStats(t2, c2, sqrt).Ok?
    ensures
      var r1 := ComputeSummaryStats(t1, c1, sqrt).value;
      var r2 := ComputeSummaryStats(t2, c2, sqrt).value;
      r1.charge100ns == r2.charge100ns && r1.charge500ns == r2.charge500ns
  {
    hide *;
    EndsAgree(t1, c1, t2, c2, sqrt);
    WindowSlots(t1, c1, sqrt);
    WindowSlots(t2, c2, sqrt);
    var first := ComputeSummaryStats(t1, c1, sqrt).value.firstTime;
    SumOfPermutation(Zip(t1, c1), Zip(t2, c2), ChargeUpTo(first + ShortWindow));
    SumOfPermutation(Zip(t1, c1), Zip(t2, c2), ChargeUpTo(first + LongWindow));
  }

  /** Two reorderings of the same pulses have the same weighted mean and
      standard deviation. */
  lemma MomentsAgree(t1: seq<real>, c1: seq<real>, t2: seq<real>, c2: seq<real>, sqrt: real -> real)
    requires |t1| == |c1| > 0 && |t2| == |c2| > 0
    requires multiset(Zip(t1, c1)) == multiset(Zip(t2, c2))
    ensures ComputeSummaryStats(t1, c1, sqrt).Ok? && ComputeSummaryStats(t2, c2, sqrt).Ok?
    ensures
      var r1 := ComputeSummaryStats(t1, c1, sqrt).value;
      var r2 := ComputeSummaryStats(t2, c2, sqrt).value;
      r1.meanTime == r2.meanTime && r1.stdTime == r2.stdTime
  {
    hide *;
    TotalAgrees(t1, c1, t2, c2, sqrt);
    MeanStdSlots(t1, c1, sqrt);
    MeanStdSlots(t2, c2, sqrt);
    var mean := ComputeSummaryStats(t1, c1, sqrt).value.meanTime;
    SumOfPermutation(Zip(t1, c1), Zip(t2, c2), TimeCharge);
    SumOfPermutation(Zip(t1, c1), Zip(t2, c2), SpreadAbout(mean));
  }

  /** For any charges, reordering the pulses (times moving with their charges)
      changes none of the slots except the two percentile times. */
  lemma OrderInvariance(t1: seq<real>, c1: seq<real>, t2: seq<real>, c2: seq<real>, sqrt: real -> real)
    requires |t1| == |c1| && |t2| == |c2|
    requires multiset(Zip(t1, c1)) == multiset(Zip(t2, c2))
    ensures ComputeSummaryStats(t1, c1, sqrt).Ok? && ComputeSummaryStats(t2, c2, sqrt).Ok?
    ensures
      var r1 := ComputeSummaryStats(t1, c1, sqrt).value;
      var r2 := ComputeSummaryStats(t2, c2, sqrt).value;
      r1 == r2.(time20 := r1.time20, time50 := r1.time50)
  {
    hide *;
    assert |t1| == |multiset(Zip(t1, c1))| == |multiset(Zip(t2, c2))| == |t2|;
    if |t1| > 0 {
      TotalAgrees(t1, c1, t2, c2, sqrt);
      EndsAgree(t1, c1, t2, c2, sqrt);
      WindowsAgree(t1, c1, t2, c2, sqrt);
      MomentsAgree(t1, c1, t2, c2, sqrt);
    }
  }

  /** For non-negative charges the whole result is independent of the input
      order and of how ties in time are ordered. */
  lemma PermutationInvariance(t1: seq<real>, c1: seq<real>, t2: seq<real>, c2: seq<real>, sqrt: real -> real)
    requires |t1| == |c1| && |t2| == |c2| && NonNegative(c1)
    requires multiset(Zip(t1, c1)) == multiset(Zip(t2, c2))
    ensures ComputeSummaryStats(t1, c1, sqrt) == ComputeSummaryStats(t2, c2, sqrt)
  {
    hide *;
    var z1, z2 := Zip(t1, c1), Zip(t2, c2);
    OrderInvariance(t1, c1, t2, c2, sqrt);
    if |t1| > 0 {
      NonNegativeZip(t1, c1);
      NonNegativePermutation(z1, z2);
      NonNegativeZip(t2, c2);
      PercentileSlots(t1, c1, sqrt);
      PercentileSlots(t2, c2, sqrt);
      TotalChargeSlot(t1, c1, sqrt);
      ChargeSumIsSum(t1, c1);
      var r1 := ComputeSummaryStats(t1, c1, sqrt).value;
      var r2 := ComputeSummaryStats(t2, c2, sqrt).value;
      if r1.totalCharge > 0.0 {
        PercentileTimePermutation(z2, z1, Charge20, r2.time20);
        PercentileTimePermutation(z2, z1, Charge50, r2.time50);
        PercentileTimeUnique(z1, Charge20, r1.time20, r2.time20);
        PercentileTimeUnique(z1, Charge50, r1.time50, r2.time50);
      } else {
        ChargeSumNonNegative(z1);
      }
    }
  }

  // ---------------------------------------------------------------------
  // Batch
  // ---------------------------------------------------------------------

  /** Maps the single-sensor statistics over equally long lists, stopping at
      the first row that fails. */
  function MapRows(timesList: seq<seq<real>>, chargesList: seq<seq<real>>, sqrt: real -> real): (r: Result<seq<Summary>>)
    requires |timesList| == |chargesList|
    ensures r.Ok? ==> |r.value| == |timesList|
    ensures r.Ok? ==> forall i :: 0 <= i < |timesList| ==>
              ComputeSummaryStats(timesList[i], chargesList[i], sqrt) == Ok(r.value[i])
    ensures r.Ok? <==> forall i :: 0 <= i < |timesList| ==>
              ComputeSummaryStats(timesList[i], chargesList[i], sqrt).Ok?
    ensures r.Err? ==>
              exists i :: (0 <= i < |timesList|
                && ComputeSummaryStats(timesList[i], chargesList[i], sqrt) == Err(r.error)
                && forall j :: 0 <= j < i ==> ComputeSummaryStats(timesList[j], chargesList[j], sqrt).Ok?)
  {
    if |timesList| == 0 then Ok([])
    else
      match ComputeSummaryStats(timesList[0], chargesList[0], sqrt)
      case Err(e) => Err(e)
      case Ok(first) =>
        match MapRows(timesList[1..], chargesList[1..], sqrt)
        case Err(e) =>
          MapRowsTailFails(timesList, chargesList, sqrt, e);
          Err(e)
        case Ok(rest) =>
          MapRowsCons(timesList, chargesList, sqrt, first, rest);
          Ok([first] + rest)
  }

  /** When the first row succeeds, the first failing row after it is the
      first failing row of the whole list. */
  lemma MapRowsTailFails(timesList: seq<seq<real>>, chargesList: seq<seq<real>>, sqrt: real -> real, e: Error)
    requires |timesList| == |chargesList| > 0
    requires ComputeSummaryStats(timesList[0], chargesList[0], sqrt).Ok?
    requires exists i :: (0 <= i < |timesList| - 1
      && ComputeSummaryStats(timesList[1..][i], chargesList[1..][i], sqrt) == Err(e)
      && forall j :: 0 <= j < i ==> ComputeSummaryStats(timesList[1..][j], chargesList[1..][j], sqrt).Ok?)
    ensures exists i :: (0 <= i < |timesList|
      && ComputeSummaryStats(timesList[i], chargesList[i], sqrt) == Err(e)
      && forall j :: 0 <= j < i ==> ComputeSummaryStats(timesList[j], chargesList[j], sqrt).Ok?)
    ensures !forall i :: 0 <= i < |timesList| ==> ComputeSummaryStats(timesList[i], chargesList[i], sqrt).Ok?
  {
    hide *;
    var i :| 0 <= i < |timesList| - 1
      && ComputeSummaryStats(timesList[1..][i], chargesList[1..][i], sqrt) == Err(e)
      && forall j :: 0 <= j < i ==> ComputeSummaryStats(timesList[1..][j], chargesList[1..][j], sqrt).Ok?;
    assert timesList[1..][i] == timesList[i + 1] && chargesList[1..][i] == chargesList[i + 1];
    forall j | 0 < j < i + 1
      ensures ComputeSummaryStats(timesList[j], chargesList[j], sqrt).Ok?
    {
      assert timesList[1..][j - 1] == timesList[j] && chargesList[1..][j - 1] == chargesList[j];
    }
  }

  /** The first row's statistics in front of the remaining rows' statistics
      are the statistics of every row. */
  lemma MapRowsCons(timesList: seq<seq<real>>, chargesList: seq<seq<real>>, sqrt: real -> real, first: Summary, rest: seq<Summary>)
    requires |timesList| == |chargesList| > 0
    requires ComputeSummaryStats(timesList[0], chargesList[0], sqrt) == Ok(first)
    requires |rest| == |timesList| - 1
    requires forall i :: 0 <= i < |timesList| - 1 ==>
      ComputeSummaryStats(timesList[1..][i], chargesList[1..][i], sqrt) == Ok(rest[i])
    ensures forall i :: 0 <= i < |timesList| ==>
      ComputeSummaryStats(timesList[i], chargesList[i], sqrt) == Ok(([first] + rest)[i])
  {
    hide *;
    forall i | 0 < i < |timesList|
      ensures ComputeSummaryStats(timesList[i], chargesList[i], sqrt) == Ok(([first] + rest)[i])
    {
      assert timesList[1..][i - 1] == timesList[i] && chargesList[1..][i - 1] == chargesList[i];
    }
  }

  /** Row `i` of the batch is the statistics of sensor `i`; the outer lists
      must be equally long. */
  function ComputeSummaryStatsBatch(timesList: seq<seq<real>>, chargesList: seq<seq<real>>, sqrt: real -> real): (r: Result<seq<Summary>>)
    ensures |timesList| != |chargesList| ==> r == Err(ListLengthMismatch(|timesList|, |chargesList|))
    ensures r.Ok? ==> |timesList| == |chargesList| && |r.value| == |timesList|
    ensures r.Ok? ==> forall i :: 0 <= i < |timesList| ==>
              ComputeSummaryStats(timesList[i], chargesList[i], sqrt) == Ok(r.value[i])
    ensures |timesList| == |chargesList| ==>
              (r.Ok? <==> forall i :: 0 <= i < |timesList| ==>
                 |timesList[i]| == 0 || |timesList[i]| == |chargesList[i]|)
    ensures |timesList| == |chargesList| && r.Err? ==>
              exists i :: (0 <= i < |timesList|
                && r.error == LengthMismatch(|timesList[i]|, |chargesList[i]|)
                && forall j :: 0 <= j < i ==> |timesList[j]| == 0 || |timesList[j]| == |chargesList[j]|)
  {
    if |timesList| != |chargesList| then Err(ListLengthMismatch(|timesList|, |chargesList|))
    else MapRows(timesList, chargesList, sqrt)
  }

  // ---------------------------------------------------------------------
  // The documented example
  // ---------------------------------------------------------------------

  /** The pulses of the documented example, already in time order. */
  const ExamplePulses := [Pulse(10.0, 1.0), Pulse(15.0, 2.0), Pulse(25.0, 1.5), Pulse(100.0, 0.5)]

  lemma ExampleWindows()
    ensures SumOf(ExamplePulses, Charge) == 5.0
    ensures WindowIndex(ExamplePulses, ShortWindow) == 4
    ensures WindowIndex(ExamplePulses, LongWindow) == 4
  {
    hide SearchRight, BisectRight;
    assert Times(ExamplePulses) == [10.0, 15.0, 25.0, 100.0];
  }

  lemma ExamplePercentiles()
    ensures PercentileIndex(ExamplePulses, Charge20) == 1
    ensures PercentileIndex(ExamplePulses, Charge50) == 1
  {
    var z := ExamplePulses;
    var cum := Cumulative(z);
    assert |z| == 4 && |cum| == 4 && NonNegativeCharges(z);
    assert SumOf(z, Charge) == 5.0;
    assert Threshold(Charge20, 5.0) == 1.0 && Threshold(Charge50, 5.0) == 2.5;
    assert Min(1, 3) == 1;
    assert cum[0] == 1.0 by {
      assert z[..1] == [z[0]];
    }
    assert cum[1] == 3.0 by {
      assert z[..2] == [z[0], z[1]];
    }
    hide *;
    PercentileIndexOfNonNegative(z, Charge20);
    PercentileIndexOfNonNegative(z, Charge50);
  }

  /** The statistics of the example pulses, computed on the sorted series. */
  lemma ExampleSummary(sqrt: real -> real)
    ensures SortedByTime(ExamplePulses)
    ensures
      var r := SummarizeSorted(ExamplePulses, sqrt);
      && r.totalCharge == 5.0
      && r.charge100ns == 5.0 && r.charge500ns == 5.0
      && r.firstTime == 10.0 && r.lastTime == 100.0
      && r.time20 == 15.0 && r.time50 == 15.0
      && r.meanTime == 25.5
  {
    hide *;
    var z := ExamplePulses;
    ExampleShape();
    SlotsOfSorted(z, sqrt);
    ExampleWindows();
    ExamplePercentiles();
    ExampleMean();
  }

  lemma ExampleShape()
    ensures SortedByTime(ExamplePulses) && |ExamplePulses| == 4
    ensures ExamplePulses[..4] == ExamplePulses
    ensures ExamplePulses[0].time == 10.0 && ExamplePulses[1].time == 15.0
    ensures ExamplePulses[3].time == 100.0
  {
  }

  /** The charge-weighted mean time of the example, 127.5 / 5. */
  lemma ExampleMean()
    ensures WeightedMean(ExamplePulses) == 25.5
  {
    var z := ExamplePulses;
    assert SumOf(z, Charge) == 5.0;
    assert SumOf(z, TimeCharge) == 127.5;
  }

  /** Pulses with a negative charge, already in time order. */
  const NegativePulses := [Pulse(0.0, 1.0), Pulse(1.0, -1.0), Pulse(2.0, 1.0)]

  /** Their running totals 1, 0, 1 are not sorted; the halving search for
      20 % and for 50 % of the total 1 probes the running total 0 first and
      settles on index 2, although index 0 already exceeds both shares. */
  lemma NegativeSearch()
    ensures SumOf(NegativePulses, Charge) == 1.0
    ensures Cumulative(NegativePulses)[0] > 0.5
    ensures PercentileIndex(NegativePulses, Charge20) == 2
    ensures PercentileIndex(NegativePulses, Charge50) == 2
  {
    var z := NegativePulses;
    var cum := Cumulative(z);
    assert SumOf(z, Charge) == 1.0;
    assert cum[0] == 1.0 by {
      assert z[..1] == [z[0]];
    }
    assert cum[1] == 0.0 by {
      assert z[..2] == [z[0], z[1]];
    }
    assert cum[2] == 1.0 by {
      assert z[..3] == z;
    }
    assert BisectRight(cum, 0.2, 2, 3) == 2;
    assert BisectRight(cum, 0.5, 2, 3) == 2;
  }

  /** The percentile slots of the series with a negative charge. */
  lemma NegativeSummary(sqrt: real -> real)
    ensures SortedByTime(NegativePulses)
    ensures
      var r := SummarizeSorted(NegativePulses, sqrt);
      && r.totalCharge == 1.0 && r.time20 == 2.0 && r.time50 == 2.0
  {
    var z := NegativePulses;
    assert SortedByTime(z) && |z| == 3 && z[2].time == 2.0;
    hide *;
    SlotsOfSorted(z, sqrt);
    NegativeSearch();
  }

  /** Times 0, 1, 2 with charges 1, -1, 1: the total is 1, and both
      percentile slots are 2.0 even though the first pulse alone carries
      more than 50 % of the total. */
  lemma NegativeChargeExample(sqrt: real -> real)
    ensures var r := ComputeSummaryStats([0.0, 1.0, 2.0], [1.0, -1.0, 1.0], sqrt);
      && r.Ok?
      && r.value.totalCharge == 1.0
      && r.value.time20 == 2.0 && r.value.time50 == 2.0
  {
    var times, charges := [0.0, 1.0, 2.0], [1.0, -1.0, 1.0];
    assert Zip(times, charges) == NegativePulses;
    NegativeSummary(sqrt);
    SortByTimeOfSorted(NegativePulses);
    StatsOfOrdered(times, charges, sqrt);
  }

  /** Times 10, 15, 25, 100 with charges 1, 2, 1.5, 0.5: total 5, everything
      within 100 ns of the first pulse, 20% and 50% of the charge reached at
      15, weighted mean 127.5 / 5 = 25.5. */
  lemma DocumentedExample(sqrt: real -> real)
    ensures
      var r := ComputeSummaryStats([10.0, 15.0, 25.0, 100.0], [1.0, 2.0, 1.5, 0.5], sqrt);
      && r.Ok?
      && r.value.totalCharge == 5.0
      && r.value.charge100ns == 5.0 && r.value.charge500ns == 5.0
      && r.value.firstTime == 10.0 && r.value.lastTime == 100.0
      && r.value.time20 == 15.0 && r.value.time50 == 15.0
      && r.value.meanTime == 25.5
  {
    var times, charges := [10.0, 15.0, 25.0, 100.0], [1.0, 2.0, 1.5, 0.5];
    assert Zip(times, charges) == ExamplePulses;
    ExampleSummary(sqrt);
    SortByTimeOfSorted(ExamplePulses);
    StatsOfOrdered(times, charges, sqrt);
  }
}
