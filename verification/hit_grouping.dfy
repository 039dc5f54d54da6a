/** Time-window hit grouping: near-coincident pulses of one sensor merged
    into "super-hits" whose charge is the group's total and whose time is
    the group's first time. */
module HitGrouping {
  import opened Pulses

  // ---------------------------------------------------------------------
  // Groups of pulses
  // ---------------------------------------------------------------------

  /** The groups laid end to end. */
  function Flatten(gs: seq<seq<Pulse>>): seq<Pulse> {
    if |gs| == 0 then [] else gs[0] + Flatten(gs[1..])
  }

  function Last(g: seq<Pulse>): Pulse
    requires |g| > 0
  {
    g[|g| - 1]
  }

  /** No consecutive gap inside `g` is wider than `w`. */
  predicate Chained(g: seq<Pulse>, w: real) {
    forall j :: 0 < j < |g| ==> g[j].time - g[j - 1].time <= w
  }

  /** `gs` cuts `s` into non-empty runs exactly where the gap between two
      consecutive pulses is wider than `w`: inside a run every gap is at most
      `w`, and between runs the gap exceeds `w`. */
  predicate IsGapPartition(gs: seq<seq<Pulse>>, s: seq<Pulse>, w: real) {
    && Flatten(gs) == s
    && (forall i :: 0 <= i < |gs| ==> |gs[i]| > 0 && Chained(gs[i], w))
    && (forall i :: 0 < i < |gs| ==> gs[i][0].time - Last(gs[i - 1]).time > w)
  }

  /** Splits `s` at every consecutive gap wider than `w`: the first pulse
      joins the group of the second unless the gap between them exceeds `w`. */
  function SplitAtGaps(s: seq<Pulse>, w: real): (gs: seq<seq<Pulse>>)
    ensures IsGapPartition(gs, s, w)
    ensures |s| > 0 ==> |gs| > 0 && gs[0][0] == s[0]
    decreases |s|
  {
    if |s| == 0 then []
    else if |s| == 1 then [[s[0]]]
    else
      var rest := SplitAtGaps(s[1..], w);
      var gs := if s[1].time - s[0].time > w then [[s[0]]] + rest
                else [[s[0]] + rest[0]] + rest[1..];
      SplitStep(s, w, rest, gs);
      gs
  }

  /** Adding the first pulse to the partition of the rest partitions the whole series. */
  lemma SplitStep(s: seq<Pulse>, w: real, rest: seq<seq<Pulse>>, gs: seq<seq<Pulse>>)
    requires |s| > 1 && IsGapPartition(rest, s[1..], w) && |rest| > 0 && rest[0][0] == s[1]
    requires gs == if s[1].time - s[0].time > w then [[s[0]]] + rest
                   else [[s[0]] + rest[0]] + rest[1..]
    ensures IsGapPartition(gs, s, w)
  {
    if s[1].time - s[0].time > w {
      SplitStepNewGroup(s, w, rest);
    } else {
      SplitStepJoin(s, w, rest);
    }
  }

  /** A gap wider than `w` after the first pulse makes it a group of its own. */
  lemma SplitStepNewGroup(s: seq<Pulse>, w: real, rest: seq<seq<Pulse>>)
    requires |s| > 1 && IsGapPartition(rest, s[1..], w) && |rest| > 0 && rest[0][0] == s[1]
    requires s[1].time - s[0].time > w
    ensures IsGapPartition([[s[0]]] + rest, s, w)
  {
    var gs: seq<seq<Pulse>> := [[s[0]]] + rest;
    FlattenCons(gs);
    assert gs[1..] == rest;
    assert [s[0]] + s[1..] == s;
    forall i | 0 < i < |gs|
      ensures gs[i][0].time - Last(gs[i - 1]).time > w
    {
      assert gs[i] == rest[i - 1];
      if i > 1 {
        assert gs[i - 1] == rest[i - 2];
      }
    }
  }

  /** A gap of at most `w` after the first pulse puts it at the front of the
      first group of the rest. */
  lemma SplitStepJoin(s: seq<Pulse>, w: real, rest: seq<seq<Pulse>>)
    requires |s| > 1 && IsGapPartition(rest, s[1..], w) && |rest| > 0 && rest[0][0] == s[1]
    requires s[1].time - s[0].time <= w
    ensures IsGapPartition([[s[0]] + rest[0]] + rest[1..], s, w)
  {
    var g := [s[0]] + rest[0];
    var gs := [g] + rest[1..];
    FlattenCons(rest);
    FlattenCons(gs);
    assert gs[1..] == rest[1..];
    assert [s[0]] + (rest[0] + Flatten(rest[1..])) == s;
    ChainedCons(s[0], rest[0], w);
    assert Last(g) == Last(rest[0]);
    forall i | 0 < i < |gs|
      ensures gs[i][0].time - Last(gs[i - 1]).time > w
    {
      assert gs[i] == rest[i];
      if i > 1 {
        assert gs[i - 1] == rest[i - 1];
      }
    }
  }

  /** A pulse at most `w` before a chained group extends the chain. */
  lemma ChainedCons(p: Pulse, g: seq<Pulse>, w: real)
    requires |g| > 0 && Chained(g, w) && g[0].time - p.time <= w
    ensures Chained([p] + g, w)
  {
    var pg := [p] + g;
    forall j | 0 < j < |pg|
      ensures pg[j].time - pg[j - 1].time <= w
    {
      if j > 1 {
        assert pg[j] == g[j - 1] && pg[j - 1] == g[j - 2];
      }
    }
  }

  lemma FlattenCons(gs: seq<seq<Pulse>>)
    requires |gs| > 0
    ensures Flatten(gs) == gs[0] + Flatten(gs[1..])
  {
  }

  /** Removing the first pulse of a gap partition whose first group is a
      single pulse leaves the remaining groups as a partition of the rest. */
  lemma DropSingletonGroup(gs: seq<seq<Pulse>>, s: seq<Pulse>, w: real)
    requires IsGapPartition(gs, s, w) && |gs| > 0 && |gs[0]| == 1
    ensures |s| > 0 && s[0] == gs[0][0]
    ensures IsGapPartition(gs[1..], s[1..], w)
  {
    FlattenCons(gs);
    var tail: seq<seq<Pulse>> := gs[1..];
    forall i | 0 < i < |tail|
      ensures tail[i][0].time - Last(tail[i - 1]).time > w
    {
      assert tail[i] == gs[i + 1] && tail[i - 1] == gs[i];
    }
  }

  /** Removing the first pulse of a gap partition whose first group holds
      more than one pulse leaves a partition of the rest whose first group
      lost its head. */
  lemma DropGroupHead(gs: seq<seq<Pulse>>, s: seq<Pulse>, w: real)
    requires IsGapPartition(gs, s, w) && |gs| > 0 && |gs[0]| > 1
    ensures |s| > 1 && s[0] == gs[0][0] && s[1] == gs[0][1]
    ensures IsGapPartition([gs[0][1..]] + gs[1..], s[1..], w)
  {
    FlattenCons(gs);
    var g := gs[0];
    var tail := [g[1..]] + gs[1..];
    FlattenCons(tail);
    assert tail[1..] == gs[1..];
    assert g == [g[0]] + g[1..];
    assert Flatten(tail) == s[1..];
    forall i | 0 <= i < |tail|
      ensures |tail[i]| > 0 && Chained(tail[i], w)
    {
      if i > 0 {
        assert tail[i] == gs[i];
      }
    }
    forall i | 0 < i < |tail|
      ensures tail[i][0].time - Last(tail[i - 1]).time > w
    {
      assert tail[i] == gs[i];
      if i > 1 {
        assert tail[i - 1] == gs[i - 1];
      } else {
        assert Last(tail[0]) == Last(g);
      }
    }
  }

  /** The gap partition of a series is unique: any partition with the
      defining properties is the one `SplitAtGaps` computes. */
  lemma {:induction false} GapPartitionUnique(gs: seq<seq<Pulse>>, s: seq<Pulse>, w: real)
    requires IsGapPartition(gs, s, w)
    ensures gs == SplitAtGaps(s, w)
    decreases |s|, 1
  {
    if |gs| > 0 {
      if |gs[0]| == 1 {
        UniqueAfterSingleton(gs, s, w);
      } else {
        UniqueAfterHead(gs, s, w);
      }
    }
  }

  lemma {:induction false} UniqueAfterSingleton(gs: seq<seq<Pulse>>, s: seq<Pulse>, w: real)
    requires IsGapPartition(gs, s, w) && |gs| > 0 && |gs[0]| == 1
    ensures gs == SplitAtGaps(s, w)
    decreases |s|, 0
  {
    DropSingletonGroup(gs, s, w);
    GapPartitionUnique(gs[1..], s[1..], w);
    assert gs[0] == [s[0]];
    assert gs == [gs[0]] + gs[1..];
    if |s| > 1 {
      assert gs[1][0] == s[1] && Last(gs[0]) == s[0];
    }
  }

  lemma {:induction false} UniqueAfterHead(gs: seq<seq<Pulse>>, s: seq<Pulse>, w: real)
    requires IsGapPartition(gs, s, w) && |gs| > 0 && |gs[0]| > 1
    ensures gs == SplitAtGaps(s, w)
    decreases |s|, 0
  {
    var g := gs[0];
    var tail := [g[1..]] + gs[1..];
    DropGroupHead(gs, s, w);
    GapPartitionUnique(tail, s[1..], w);
    assert s[1].time - s[0].time <= w by {
      assert Chained(g, w);
    }
    assert [s[0]] + tail[0] == g;
    assert tail[1..] == gs[1..];
    assert gs == [g] + gs[1..];
  }

  /** Every group is no longer than the flattened series, and a partition
      into non-empty groups has at most as many groups as pulses. */
  lemma {:induction false} FlattenLength(gs: seq<seq<Pulse>>)
    requires forall i :: 0 <= i < |gs| ==> |gs[i]| > 0
    ensures |gs| <= |Flatten(gs)|
  {
    if |gs| > 0 {
      FlattenLength(gs[1..]);
    }
  }

  /** Every member of a group is a member of the flattened series. */
  lemma {:induction false} FlattenMember(gs: seq<seq<Pulse>>, i: nat, j: nat)
    requires i < |gs| && j < |gs[i]|
    ensures gs[i][j] in Flatten(gs)
  {
    if i > 0 {
      FlattenMember(gs[1..], i - 1, j);
    }
  }

  /** The number of consecutive gaps wider than `w`: the running count of
      group boundaries, whose final value fixes the number of groups. */
  function GapCount(s: seq<Pulse>, w: real): nat {
    if |s| < 2 then 0
    else (if s[1].time - s[0].time > w then 1 else 0) + GapCount(s[1..], w)
  }

  /** A non-empty series splits into one group more than it has wide gaps. */
  lemma {:induction false} GroupCount(s: seq<Pulse>, w: real)
    requires |s| > 0
    ensures |SplitAtGaps(s, w)| == 1 + GapCount(s, w)
    decreases |s|
  {
    if |s| > 1 {
      GroupCount(s[1..], w);
    }
  }

  /** The starts of consecutive groups lie more than `w` apart. */
  predicate HeadsSpaced(gs: seq<seq<Pulse>>, w: real)
    requires forall i :: 0 <= i < |gs| ==> |gs[i]| > 0
  {
    forall i :: 0 < i < |gs| ==> gs[i][0].time - gs[i - 1][0].time > w
  }

  /** Every group starts with its earliest pulse. */
  predicate HeadsEarliest(gs: seq<seq<Pulse>>)
    requires forall i :: 0 <= i < |gs| ==> |gs[i]| > 0
  {
    forall i, j :: 0 <= i < |gs| && 0 <= j < |gs[i]| ==> gs[i][0].time <= gs[i][j].time
  }

  /** One step of `SplitAtGaps` on a sorted series keeps the group starts
      spaced and earliest in their groups. */
  lemma SplitStepSorted(s: seq<Pulse>, w: real, rest: seq<seq<Pulse>>, gs: seq<seq<Pulse>>)
    requires |s| > 1 && SortedByTime(s)
    requires IsGapPartition(rest, s[1..], w) && |rest| > 0 && rest[0][0] == s[1]
    requires HeadsSpaced(rest, w) && HeadsEarliest(rest)
    requires gs == if s[1].time - s[0].time > w then [[s[0]]] + rest
                   else [[s[0]] + rest[0]] + rest[1..]
    ensures forall i :: 0 <= i < |gs| ==> |gs[i]| > 0
    ensures HeadsSpaced(gs, w) && HeadsEarliest(gs)
  {
    if s[1].time - s[0].time > w {
      SortedStepNewGroup(s, w, rest);
    } else {
      SortedStepJoin(s, w, rest);
      SortedJoinEarliest(s, w, rest);
    }
  }

  /** A new singleton group in front keeps the heads spaced and earliest. */
  lemma SortedStepNewGroup(s: seq<Pulse>, w: real, rest: seq<seq<Pulse>>)
    requires |s| > 1 && s[1].time - s[0].time > w
    requires (forall i :: 0 <= i < |rest| ==> |rest[i]| > 0) && |rest| > 0 && rest[0][0] == s[1]
    requires HeadsSpaced(rest, w) && HeadsEarliest(rest)
    ensures var gs := [[s[0]]] + rest;
      && (forall i :: 0 <= i < |gs| ==> |gs[i]| > 0)
      && HeadsSpaced(gs, w) && HeadsEarliest(gs)
  {
    var gs: seq<seq<Pulse>> := [[s[0]]] + rest;
    forall i | 0 < i < |gs|
      ensures gs[i][0].time - gs[i - 1][0].time > w
    {
      assert gs[i] == rest[i - 1];
      if i > 1 {
        assert gs[i - 1] == rest[i - 2];
      }
    }
    forall i, j | 0 <= i < |gs| && 0 <= j < |gs[i]|
      ensures gs[i][0].time <= gs[i][j].time
    {
      if i > 0 {
        assert gs[i] == rest[i - 1];
      }
    }
  }

  /** Joining the first pulse to the first group keeps the heads spaced. */
  lemma SortedStepJoin(s: seq<Pulse>, w: real, rest: seq<seq<Pulse>>)
    requires |s| > 1 && s[0].time <= s[1].time
    requires (forall i :: 0 <= i < |rest| ==> |rest[i]| > 0) && |rest| > 0 && rest[0][0] == s[1]
    requires HeadsSpaced(rest, w)
    ensures var gs := [[s[0]] + rest[0]] + rest[1..];
      && (forall i :: 0 <= i < |gs| ==> |gs[i]| > 0)
      && HeadsSpaced(gs, w)
  {
    var gs: seq<seq<Pulse>> := [[s[0]] + rest[0]] + rest[1..];
    forall i | 0 < i < |gs|
      ensures gs[i][0].time - gs[i - 1][0].time > w
    {
      assert gs[i] == rest[i];
      if i > 1 {
        assert gs[i - 1] == rest[i - 1];
      }
    }
  }

  /** Joining the first pulse of a sorted series to the first group keeps
      every head earliest in its group. */
  lemma SortedJoinEarliest(s: seq<Pulse>, w: real, rest: seq<seq<Pulse>>)
    requires |s| > 1 && SortedByTime(s)
    requires IsGapPartition(rest, s[1..], w) && |rest| > 0
    requires HeadsEarliest(rest)
    ensures var gs := [[s[0]] + rest[0]] + rest[1..];
      HeadsEarliest(gs)
  {
    var gs: seq<seq<Pulse>> := [[s[0]] + rest[0]] + rest[1..];
    forall i, j | 0 <= i < |gs| && 0 <= j < |gs[i]|
      ensures gs[i][0].time <= gs[i][j].time
    {
      if i > 0 {
        assert gs[i] == rest[i];
      } else if j > 0 {
        assert gs[0][j] == rest[0][j - 1];
        FlattenMember(rest, 0, j - 1);
      }
    }
  }


  /** On a time-sorted series each group starts with its earliest pulse, and
      the starts of consecutive groups lie more than `w` apart. */
  lemma {:induction false} SplitOfSorted(s: seq<Pulse>, w: real)
    requires SortedByTime(s)
    ensures HeadsSpaced(SplitAtGaps(s, w), w) && HeadsEarliest(SplitAtGaps(s, w))
    decreases |s|
  {
    if |s| > 1 {
      SplitOfSorted(s[1..], w);
      SplitStepSorted(s, w, SplitAtGaps(s[1..], w), SplitAtGaps(s, w));
    }
  }

  // ---------------------------------------------------------------------
  // Super-hits
  // ---------------------------------------------------------------------

  /** A group merged into one pulse at the group's first time carrying the
      group's total charge. */
  function Merge(g: seq<Pulse>): Pulse
    requires |g| > 0
  {
    Pulse(g[0].time, SumOf(g, Charge))
  }

  function SuperHits(gs: seq<seq<Pulse>>): seq<Pulse>
    requires forall i :: 0 <= i < |gs| ==> |gs[i]| > 0
  {
    seq(|gs|, i requires 0 <= i < |gs| => Merge(gs[i]))
  }

  /** Merging every group keeps the total charge of the flattened series. */
  lemma {:induction false} SuperHitsConserveCharge(gs: seq<seq<Pulse>>)
    requires forall i :: 0 <= i < |gs| ==> |gs[i]| > 0
    ensures SumOf(SuperHits(gs), Charge) == SumOf(Flatten(gs), Charge)
  {
    if |gs| > 0 {
      SuperHitsConserveCharge(gs[1..]);
      assert SuperHits(gs) == [Merge(gs[0])] + SuperHits(gs[1..]);
      SumOfCons(Merge(gs[0]), SuperHits(gs[1..]), Charge);
      FlattenCons(gs);
      SumOfAppend(gs[0], Flatten(gs[1..]), Charge);
    }
  }

  // ---------------------------------------------------------------------
  // Grouping a sensor's hits
  // ---------------------------------------------------------------------

  /** Sorts the hits by time and merges each run whose consecutive gaps are
      at most `w` into one super-hit; no hits give none, and a single hit is
      returned as it is. */
  function GroupHitsByWindow(times: seq<real>, charges: seq<real>, w: real): (r: seq<Pulse>)
    requires |times| == |charges|
    ensures |times| == 0 ==> r == []
    ensures |times| == 1 ==> r == Zip(times, charges)
    ensures |times| > 0 ==> 1 <= |r| <= |times|
  {
    if |times| == 0 then []
    else
      var s := SortByTime(Zip(times, charges));
      if |s| == 1 then s
      else
        var gs := SplitAtGaps(s, w);
        FlattenLength(gs);
        SuperHits(gs)
  }

  /** Hits already in time order are grouped as they stand: sorting them
      first changes nothing. */
  lemma GroupingOfSorted(times: seq<real>, charges: seq<real>, w: real)
    requires |times| == |charges| && |times| > 1 && SortedByTime(Zip(times, charges))
    ensures GroupHitsByWindow(times, charges, w) == SuperHits(SplitAtGaps(Zip(times, charges), w))
  {
    SortByTimeOfSorted(Zip(times, charges));
  }

  /** With at least two hits the super-hits are the merged groups of the
      (unique) gap partition of the time-ordered hits. */
  lemma GroupingMergesGapPartition(times: seq<real>, charges: seq<real>, w: real, gs: seq<seq<Pulse>>)
    requires |times| == |charges| && |times| > 1
    requires IsGapPartition(gs, SortByTime(Zip(times, charges)), w)
    ensures GroupHitsByWindow(times, charges, w) == SuperHits(gs)
  {
    GapPartitionUnique(gs, SortByTime(Zip(times, charges)), w);
  }

  /** Grouping conserves charge. */
  lemma GroupingConservesCharge(times: seq<real>, charges: seq<real>, w: real)
    requires |times| == |charges|
    ensures SumOf(GroupHitsByWindow(times, charges, w), Charge) == Sum(charges)
  {
    var z := Zip(times, charges);
    ChargeSumIsSum(times, charges);
    if |times| > 0 {
      var s := SortByTime(z);
      SumOfPermutation(s, z, Charge);
      if |s| > 1 {
        SuperHitsConserveCharge(SplitAtGaps(s, w));
      }
    }
  }

  /** A non-empty series of hits yields one super-hit more than it has
      consecutive time gaps wider than `w` once sorted. */
  lemma GroupingCount(times: seq<real>, charges: seq<real>, w: real)
    requires |times| == |charges| && |times| > 0
    ensures |GroupHitsByWindow(times, charges, w)| == 1 + GapCount(SortByTime(Zip(times, charges)), w)
  {
    GroupCount(SortByTime(Zip(times, charges)), w);
  }

  /** Every pulse of the time-ordered series carries an input time. */
  lemma OrderedTimesFromInput(times: seq<real>, charges: seq<real>)
    requires |times| == |charges|
    ensures forall p :: p in SortByTime(Zip(times, charges)) ==> p.time in times
  {
    var z := Zip(times, charges);
    forall p | p in SortByTime(z)
      ensures p.time in times
    {
      assert p in multiset(z);
      var k :| 0 <= k < |z| && z[k] == p;
    }
  }

  /** Every super-hit time is an input time, and the first is the earliest
      input time. */
  lemma GroupingTimesFromInput(times: seq<real>, charges: seq<real>, w: real)
    requires |times| == |charges|
    ensures var r := GroupHitsByWindow(times, charges, w);
      && (forall i :: 0 <= i < |r| ==> r[i].time in times)
      && (|times| > 0 ==> IsMinimum(times, r[0].time))
  {
    var r := GroupHitsByWindow(times, charges, w);
    if |times| > 0 {
      var s := SortByTime(Zip(times, charges));
      SortedEnds(s, times, charges);
      OrderedTimesFromInput(times, charges);
      if |s| > 1 {
        var gs := SplitAtGaps(s, w);
        forall i | 0 <= i < |r|
          ensures r[i].time in times
        {
          FlattenMember(gs, i, 0);
        }
      }
    }
  }

  /** Each super-hit carries the earliest time of its group. */
  lemma GroupingUsesEarliestTime(times: seq<real>, charges: seq<real>, w: real)
    requires |times| == |charges| && |times| > 1
    ensures var gs := SplitAtGaps(SortByTime(Zip(times, charges)), w);
      var r := GroupHitsByWindow(times, charges, w);
      forall i, j :: 0 <= i < |r| && 0 <= j < |gs[i]| ==> r[i].time <= gs[i][j].time
  {
    SplitOfSorted(SortByTime(Zip(times, charges)), w);
  }

  /** Consecutive super-hit times differ by more than `w`, so they strictly
      increase when `w` is not negative. */
  lemma GroupingTimesSpaced(times: seq<real>, charges: seq<real>, w: real)
    requires |times| == |charges|
    ensures var r := GroupHitsByWindow(times, charges, w);
      && (forall i :: 0 < i < |r| ==> r[i].time - r[i - 1].time > w)
      && (w >= 0.0 ==> forall i, j :: 0 <= i < j < |r| ==> r[i].time < r[j].time)
  {
    hide *;
    var r := GroupHitsByWindow(times, charges, w);
    if |times| > 1 {
      var s := SortByTime(Zip(times, charges));
      GroupingOfUnsorted(times, charges, w);
      SplitOfSorted(s, w);
      GapGroupsNonEmpty(SplitAtGaps(s, w), s, w);
      SuperHitsSpaced(SplitAtGaps(s, w), w);
    }
    if w >= 0.0 {
      SpacedIncreasing(r, w);
    }
  }

  /** With at least two hits the super-hits merge the gap groups of the
      time-ordered hits. */
  lemma GroupingOfUnsorted(times: seq<real>, charges: seq<real>, w: real)
    requires |times| == |charges| && |times| > 1
    ensures GroupHitsByWindow(times, charges, w) == SuperHits(SplitAtGaps(SortByTime(Zip(times, charges)), w))
  {
    SortByTimeLength(Zip(times, charges));
  }

  lemma GapGroupsNonEmpty(gs: seq<seq<Pulse>>, s: seq<Pulse>, w: real)
    requires IsGapPartition(gs, s, w)
    ensures forall i :: 0 <= i < |gs| ==> |gs[i]| > 0
  {
  }

  /** Spaced group starts give spaced super-hit times. */
  lemma SuperHitsSpaced(gs: seq<seq<Pulse>>, w: real)
    requires forall i :: 0 <= i < |gs| ==> |gs[i]| > 0
    requires HeadsSpaced(gs, w)
    ensures forall i :: 0 < i < |SuperHits(gs)| ==> SuperHits(gs)[i].time - SuperHits(gs)[i - 1].time > w
  {
  }

  /** Pulses whose consecutive times differ by more than a non-negative
      `w` have strictly increasing times. */
  lemma {:induction false} SpacedIncreasing(r: seq<Pulse>, w: real)
    requires w >= 0.0 && forall i :: 0 < i < |r| ==> r[i].time - r[i - 1].time > w
    ensures forall i, j :: 0 <= i < j < |r| ==> r[i].time < r[j].time
  {
    if |r| > 1 {
      SpacedIncreasing(r[1..], w);
      forall j | 1 < j < |r|
        ensures r[0].time < r[j].time
      {
        assert r[1..][0] == r[1] && r[1..][j - 1] == r[j];
      }
    }
  }

  /** Three unit hits at 0, 2 and 4, in time order. */
  const GapExample := [Pulse(0.0, 1.0), Pulse(2.0, 1.0), Pulse(4.0, 1.0)]

  lemma GapExampleOrdered()
    ensures Zip([0.0, 2.0, 4.0], [1.0, 1.0, 1.0]) == GapExample
    ensures SortedByTime(GapExample)
  {
  }

  lemma ChainedExampleSplit()
    ensures SplitAtGaps(GapExample, 3.0) == [GapExample]
  {
    var p0, p2, p4 := Pulse(0.0, 1.0), Pulse(2.0, 1.0), Pulse(4.0, 1.0);
    assert GapExample[1..] == [p2, p4] && [p2, p4][1..] == [p4];
    var g4 := SplitAtGaps([p4], 3.0);
    assert g4 == [[p4]];
    assert g4[0] == [p4] && g4[1..] == [] && [p2] + [p4] == [p2, p4];
    var g2 := SplitAtGaps([p2, p4], 3.0);
    assert g2 == [[p2] + g4[0]] + g4[1..];
    assert g2 == [[p2, p4]];
    assert g2[0] == [p2, p4] && g2[1..] == [] && [p0] + [p2, p4] == GapExample;
    var g0 := SplitAtGaps(GapExample, 3.0);
    assert g0 == [[p0] + g2[0]] + g2[1..];
  }

  /** The code's rule chains gaps: hits at 0, 2 and 4 with a window of 3
      form a single group spanning 4. */
  lemma ChainedExample()
    ensures GroupHitsByWindow([0.0, 2.0, 4.0], [1.0, 1.0, 1.0], 3.0) == [Pulse(0.0, 3.0)]
  {
    hide *;
    GapExampleOrdered();
    GroupingOfSorted([0.0, 2.0, 4.0], [1.0, 1.0, 1.0], 3.0);
    ChainedExampleSplit();
    ChainedExampleMerge();
  }

  lemma ChainedExampleMerge()
    ensures SuperHits([GapExample]) == [Pulse(0.0, 3.0)]
  {
    assert SumOf(GapExample[2..], Charge) == 1.0;
    assert SumOf(GapExample[1..], Charge) == 2.0;
  }

  // ---------------------------------------------------------------------
  // The re-anchored variant
  // ---------------------------------------------------------------------

  /** `gs` cuts `s` into groups that each span at most `w` from their first
      pulse, with consecutive group starts more than `w` apart. */
  predicate IsAnchoredPartition(gs: seq<seq<Pulse>>, s: seq<Pulse>, w: real) {
    && Flatten(gs) == s
    && (forall i :: 0 <= i < |gs| ==> |gs[i]| > 0 && Last(gs[i]).time - gs[i][0].time <= w)
    && (forall i :: 0 < i < |gs| ==> gs[i][0].time - gs[i - 1][0].time > w)
  }

  /** Re-anchored grouping of a time-sorted series: a group is its first
      pulse together with every following pulse no later than `w` after it,
      and the next group starts at the first pulse beyond that. */
  function SplitAnchored(s: seq<Pulse>, w: real): (gs: seq<seq<Pulse>>)
    requires SortedByTime(s) && w >= 0.0
    ensures IsAnchoredPartition(gs, s, w)
    ensures |s| > 0 ==> |gs| > 0 && gs[0][0] == s[0]
    decreases |s|
  {
    if |s| == 0 then []
    else
      var k := UpperBound(Times(s), s[0].time + w);
      AnchorReach(s, w);
      var rest := SplitAnchored(s[k..], w);
      AnchoredStep(s, w, k, rest);
      [s[..k]] + rest
  }

  /** The first re-anchored group holds at least the first pulse, and the
      pulses after it are still sorted. */
  lemma AnchorReach(s: seq<Pulse>, w: real)
    requires SortedByTime(s) && |s| > 0 && w >= 0.0
    ensures 0 < UpperBound(Times(s), s[0].time + w) <= |s|
    ensures SortedByTime(s[UpperBound(Times(s), s[0].time + w)..])
  {
    assert Times(s)[0] <= s[0].time + w;
  }

  /** The group of pulses within `w` of the first one, followed by the
      re-anchored groups of the remaining pulses, re-anchors the whole series. */
  lemma AnchoredStep(s: seq<Pulse>, w: real, k: nat, rest: seq<seq<Pulse>>)
    requires SortedByTime(s) && 0 < k <= |s| && k == UpperBound(Times(s), s[0].time + w)
    requires IsAnchoredPartition(rest, s[k..], w)
    requires k < |s| ==> |rest| > 0 && rest[0][0] == s[k]
    ensures IsAnchoredPartition([s[..k]] + rest, s, w) && ([s[..k]] + rest)[0][0] == s[0]
  {
    var gs: seq<seq<Pulse>> := [s[..k]] + rest;
    FlattenCons(gs);
    assert gs[1..] == rest;
    assert s[..k] + s[k..] == s;
    AnchoredGroupSpan(s, w, k);
    forall i | 0 <= i < |gs|
      ensures |gs[i]| > 0 && Last(gs[i]).time - gs[i][0].time <= w
    {
      if i > 0 {
        assert gs[i] == rest[i - 1];
      }
    }
    if |rest| > 0 {
      FlattenCons(rest);
    }
    AnchoredHeadsSpaced(s, w, k, rest);
  }

  /** The first re-anchored group spans at most `w`. */
  lemma AnchoredGroupSpan(s: seq<Pulse>, w: real, k: nat)
    requires 0 < k <= |s| && k == UpperBound(Times(s), s[0].time + w)
    ensures Last(s[..k]).time - s[..k][0].time <= w
  {
    assert Times(s)[k - 1] <= s[0].time + w;
  }

  /** The head of the next group lies more than `w` after the first pulse. */
  lemma AnchoredHeadsSpaced(s: seq<Pulse>, w: real, k: nat, rest: seq<seq<Pulse>>)
    requires 0 < k <= |s| && k == UpperBound(Times(s), s[0].time + w)
    requires forall i :: 0 <= i < |rest| ==> |rest[i]| > 0
    requires forall i :: 0 < i < |rest| ==> rest[i][0].time - rest[i - 1][0].time > w
    requires k < |s| <==> |rest| > 0
    requires k < |s| ==> rest[0][0] == s[k]
    ensures var gs := [s[..k]] + rest;
      forall i :: 0 < i < |gs| ==> gs[i][0].time - gs[i - 1][0].time > w
  {
    var gs: seq<seq<Pulse>> := [s[..k]] + rest;
    forall i | 0 < i < |gs|
      ensures gs[i][0].time - gs[i - 1][0].time > w
    {
      assert gs[i] == rest[i - 1];
      if i > 1 {
        assert gs[i - 1] == rest[i - 2];
      } else {
        assert Times(s)[k] > s[0].time + w;
      }
    }
  }

  /** The re-anchored counterpart of `GroupHitsByWindow`: no grouping unless
      `w` is positive; otherwise the time-ordered hits are cut into
      re-anchored groups and each group merged into one super-hit. */
  function GroupHitsAnchored(times: seq<real>, charges: seq<real>, w: real): (r: seq<Pulse>)
    requires |times| == |charges|
    ensures w <= 0.0 ==> r == Zip(times, charges)
    ensures |r| <= |times| && (|times| > 0 <==> |r| > 0)
  {
    if |times| == 0 then []
    else if w <= 0.0 then Zip(times, charges)
    else
      var z := Zip(times, charges);
      assert |SortByTime(z)| == |multiset(SortByTime(z))| == |multiset(z)| == |z|;
      var gs := SplitAnchored(SortByTime(z), w);
      FlattenLength(gs);
      SuperHits(gs)
  }

  /** Hits already in time order are cut into re-anchored groups as they
      stand when `w` is positive. */
  lemma AnchoredOfSorted(times: seq<real>, charges: seq<real>, w: real)
    requires |times| == |charges| && |times| > 0 && w > 0.0 && SortedByTime(Zip(times, charges))
    ensures GroupHitsAnchored(times, charges, w) == SuperHits(SplitAnchored(Zip(times, charges), w))
  {
    SortByTimeOfSorted(Zip(times, charges));
  }

  /** Re-anchored grouping also conserves charge, and its consecutive
      super-hit times differ by more than `w` when `w` is positive. */
  lemma AnchoredGrouping(times: seq<real>, charges: seq<real>, w: real)
    requires |times| == |charges|
    ensures SumOf(GroupHitsAnchored(times, charges, w), Charge) == Sum(charges)
    ensures var r := GroupHitsAnchored(times, charges, w);
      w > 0.0 ==> forall i :: 0 < i < |r| ==> r[i].time - r[i - 1].time > w
  {
    var z := Zip(times, charges);
    ChargeSumIsSum(times, charges);
    if |times| > 0 && w > 0.0 {
      var s := SortByTime(z);
      SumOfPermutation(s, z, Charge);
      SuperHitsConserveCharge(SplitAnchored(s, w));
    }
  }

  lemma AnchoredExampleReach()
    ensures UpperBound(Times(GapExample), 3.0) == 2
    ensures UpperBound(Times([Pulse(4.0, 1.0)]), 7.0) == 1
  {
    assert Times(GapExample) == [0.0, 2.0, 4.0];
    assert [0.0, 2.0, 4.0][1..] == [2.0, 4.0] && [2.0, 4.0][1..] == [4.0];
    assert UpperBound([4.0], 3.0) == 0;
    assert UpperBound([2.0, 4.0], 3.0) == 1;
    assert Times([Pulse(4.0, 1.0)]) == [4.0];
  }

  lemma AnchoredExampleTail()
    ensures SplitAnchored([Pulse(4.0, 1.0)], 3.0) == [[Pulse(4.0, 1.0)]]
  {
    var p4 := Pulse(4.0, 1.0);
    AnchoredExampleReach();
    assert [p4][..1] == [p4] && [p4][1..] == [];
  }

  lemma AnchoredExampleSplit()
    ensures SplitAnchored(GapExample, 3.0) == [GapExample[..2], GapExample[2..]]
  {
    assert SortedByTime(GapExample);
    AnchoredExampleReach();
    assert GapExample[2..] == [Pulse(4.0, 1.0)];
    AnchoredExampleTail();
  }

  /** The two rules differ once small gaps chain past the window: hits at
      0, 2 and 4 with a window of 3 give one chained group but two
      re-anchored ones, {0, 2} and {4}. */
  lemma AnchoredExample()
    ensures GroupHitsAnchored([0.0, 2.0, 4.0], [1.0, 1.0, 1.0], 3.0) == [Pulse(0.0, 2.0), Pulse(4.0, 1.0)]
  {
    hide *;
    GapExampleOrdered();
    AnchoredOfSorted([0.0, 2.0, 4.0], [1.0, 1.0, 1.0], 3.0);
    AnchoredExampleSplit();
    AnchoredExampleMerge();
  }

  lemma AnchoredExampleMerge()
    ensures SuperHits([GapExample[..2], GapExample[2..]]) == [Pulse(0.0, 2.0), Pulse(4.0, 1.0)]
  {
    assert SumOf(GapExample[..2][1..], Charge) == 1.0;
    assert SumOf(GapExample[2..], Charge) == 1.0;
  }
}
