/** Pulses of one optical sensor: the sums, the time ordering and the
    "first index exceeding a value" search that the summary statistics and
    the hit grouping are built from. */
module Pulses {

  /** One timestamped charge measurement. */
  datatype Pulse = Pulse(time: real, charge: real)

  /** The per-pulse quantities the statistics add up. */
  datatype Measure =
    | Charge                      // c
    | ChargeUpTo(cutoff: real)    // c when t <= cutoff, else 0
    | TimeCharge                  // t * c
    | SpreadAbout(mean: real)     // c * (t - mean)^2

  function Weight(m: Measure, p: Pulse): real {
    match m
    case Charge => p.charge
    case ChargeUpTo(cutoff) => if p.time <= cutoff then p.charge else 0.0
    case TimeCharge => p.time * p.charge
    case SpreadAbout(mean) => p.charge * (p.time - mean) * (p.time - mean)
  }

  /** The sum of measure `m` over the pulses of `s`. */
  function SumOf(s: seq<Pulse>, m: Measure): real {
    if |s| == 0 then 0.0 else Weight(m, s[0]) + SumOf(s[1..], m)
  }

  /** The sum of a sequence of reals. */
  function Sum(xs: seq<real>): real {
    if |xs| == 0 then 0.0 else xs[0] + Sum(xs[1..])
  }

  /** `n` unit charges, the default when a record carries no charges. */
  function Ones(n: nat): (r: seq<real>)
    ensures |r| == n && forall i :: 0 <= i < n ==> r[i] == 1.0
  {
    seq(n, i => 1.0)
  }

  /** Pairs the parallel `times` and `charges` arrays into pulses. */
  function Zip(times: seq<real>, charges: seq<real>): (s: seq<Pulse>)
    requires |times| == |charges|
    ensures |s| == |times|
    ensures forall i :: 0 <= i < |s| ==> s[i] == Pulse(times[i], charges[i])
  {
    seq(|times|, i requires 0 <= i < |times| => Pulse(times[i], charges[i]))
  }

  function Times(s: seq<Pulse>): (ts: seq<real>)
    ensures |ts| == |s| && forall i :: 0 <= i < |s| ==> ts[i] == s[i].time
  {
    seq(|s|, i requires 0 <= i < |s| => s[i].time)
  }

  function Charges(s: seq<Pulse>): (cs: seq<real>)
    ensures |cs| == |s| && forall i :: 0 <= i < |s| ==> cs[i] == s[i].charge
  {
    seq(|s|, i requires 0 <= i < |s| => s[i].charge)
  }

  /** Splitting pulses into their parallel arrays and pairing them again
      gives the pulses back, and the other way round. */
  lemma ZipRoundTrip(s: seq<Pulse>, times: seq<real>, charges: seq<real>)
    requires |times| == |charges|
    ensures Zip(Times(s), Charges(s)) == s
    ensures Times(Zip(times, charges)) == times && Charges(Zip(times, charges)) == charges
  {
  }

  predicate NonNegative(xs: seq<real>) {
    forall i :: 0 <= i < |xs| ==> xs[i] >= 0.0
  }

  predicate NonNegativeCharges(s: seq<Pulse>) {
    forall i :: 0 <= i < |s| ==> s[i].charge >= 0.0
  }

  /** Non-decreasing in time. */
  predicate SortedByTime(s: seq<Pulse>) {
    forall i, j :: 0 <= i < j < |s| ==> s[i].time <= s[j].time
  }

  predicate NonDecreasing(a: seq<real>) {
    forall i, j :: 0 <= i < j < |a| ==> a[i] <= a[j]
  }

  /** `lo` is the smallest of the values `xs` (and one of them). */
  ghost predicate IsMinimum(xs: seq<real>, lo: real) {
    (exists i :: 0 <= i < |xs| && xs[i] == lo) && forall i :: 0 <= i < |xs| ==> lo <= xs[i]
  }

  /** `hi` is the largest of the values `xs` (and one of them). */
  ghost predicate IsMaximum(xs: seq<real>, hi: real) {
    (exists i :: 0 <= i < |xs| && xs[i] == hi) && forall i :: 0 <= i < |xs| ==> xs[i] <= hi
  }

  // ---------------------------------------------------------------------
  // Sorting by time
  // ---------------------------------------------------------------------

  /** Inserts `p` into a time-sorted series, before the first later-or-equal pulse. */
  function Insert(p: Pulse, s: seq<Pulse>): (r: seq<Pulse>)
    requires SortedByTime(s)
    ensures SortedByTime(r)
    ensures multiset(r) == multiset(s) + multiset{p}
  {
    if |s| == 0 then [p]
    else if p.time <= s[0].time then [p] + s
    else
      var tail := Insert(p, s[1..]);
      InsertBehindHead(p, s, tail);
      [s[0]] + tail
  }

  /** Putting the head of `s` in front of `tail` (the rest of `s` with a
      later `p` inserted) gives a sorted series holding `s` and `p`. */
  lemma InsertBehindHead(p: Pulse, s: seq<Pulse>, tail: seq<Pulse>)
    requires SortedByTime(s) && |s| > 0 && p.time > s[0].time
    requires SortedByTime(tail) && multiset(tail) == multiset(s[1..]) + multiset{p}
    ensures SortedByTime([s[0]] + tail)
    ensures multiset([s[0]] + tail) == multiset(s) + multiset{p}
  {
    InsertKeepsHeadFirst(p, s, tail);
    assert s == [s[0]] + s[1..];
    var r := [s[0]] + tail;
    forall i, j | 0 <= i < j < |r|
      ensures r[i].time <= r[j].time
    {
      assert r[j] == tail[j - 1];
      if i > 0 {
        assert r[i] == tail[i - 1];
      }
    }
  }

  /** Every pulse of `tail` (a reordering of `s[1..]` plus a later `p`) comes
      no earlier than `s[0]`. */
  lemma InsertKeepsHeadFirst(p: Pulse, s: seq<Pulse>, tail: seq<Pulse>)
    requires SortedByTime(s) && |s| > 0 && p.time > s[0].time
    requires multiset(tail) == multiset(s[1..]) + multiset{p}
    ensures forall j :: 0 <= j < |tail| ==> s[0].time <= tail[j].time
  {
    forall j | 0 <= j < |tail|
      ensures s[0].time <= tail[j].time
    {
      assert tail[j] in multiset(tail);
      if tail[j] != p {
        assert tail[j] in multiset(s[1..]);
        var i :| 0 <= i < |s[1..]| && s[1..][i] == tail[j];
        assert s[i + 1] == tail[j];
      }
    }
  }

  /** One time-sorted permutation of `s` (the model's choice of tie order). */
  function SortByTime(s: seq<Pulse>): (r: seq<Pulse>)
    ensures SortedByTime(r)
    ensures multiset(r) == multiset(s)
  {
    if |s| == 0 then []
    else
      assert s == [s[0]] + s[1..];
      Insert(s[0], SortByTime(s[1..]))
  }

  /** Sorting a series that is already in time order leaves it unchanged,
      so skipping the sort for sorted input gives the same series. */
  lemma {:induction false} SortByTimeOfSorted(s: seq<Pulse>)
    requires SortedByTime(s)
    ensures SortByTime(s) == s
  {
    hide *;
    if |s| > 0 {
      var t := s[1..];
      SortByTimeStep(s);
      SortedTail(s);
      SortByTimeOfSorted(t);
      InsertAtFront(s[0], t);
      assert s == [s[0]] + t;
    }
  }

  /** Sorting inserts the head into the sorted tail. */
  lemma SortByTimeStep(s: seq<Pulse>)
    requires |s| > 0
    ensures SortedByTime(SortByTime(s[1..]))
    ensures SortByTime(s) == Insert(s[0], SortByTime(s[1..]))
  {
  }

  /** The tail of a sorted series is sorted, and its pulses come no earlier
      than the head. */
  lemma SortedTail(s: seq<Pulse>)
    requires SortedByTime(s) && |s| > 0
    ensures SortedByTime(s[1..])
    ensures |s| > 1 ==> s[0].time <= s[1..][0].time
  {
  }

  /** A pulse no later than the head of a sorted series is inserted in front. */
  lemma InsertAtFront(p: Pulse, s: seq<Pulse>)
    requires SortedByTime(s) && (|s| > 0 ==> p.time <= s[0].time)
    ensures Insert(p, s) == [p] + s
  {
  }

  /** Sorting keeps the number of pulses. */
  lemma SortByTimeLength(s: seq<Pulse>)
    ensures |SortByTime(s)| == |s|
  {
    var r := SortByTime(s);
    assert |r| == |multiset(r)| == |multiset(s)| == |s|;
  }

  // ---------------------------------------------------------------------
  // Upper bound: the first index holding a value greater than `v`
  // ---------------------------------------------------------------------

  /** The first index whose value exceeds `v`, or `|a|` when none does; on a
      non-decreasing `a` this is the partition point found by a binary
      upper-bound search (searchsorted with side "right"). */
  function UpperBound(a: seq<real>, v: real): (k: nat)
    ensures k <= |a|
    ensures forall i :: 0 <= i < k ==> a[i] <= v
    ensures k < |a| ==> a[k] > v
  {
    if |a| == 0 then 0
    else if a[0] > v then 0
    else 1 + UpperBound(a[1..], v)
  }

  /** On non-decreasing input every value from the upper bound on exceeds `v`. */
  lemma UpperBoundPartitions(a: seq<real>, v: real)
    requires NonDecreasing(a)
    ensures forall i :: UpperBound(a, v) <= i < |a| ==> a[i] > v
  {
  }

  /** On a sorted series the upper bound of pulse `k`'s time lies past `k`. */
  lemma UpperBoundPast(s: seq<Pulse>, k: nat)
    requires SortedByTime(s) && k < |s|
    ensures k < UpperBound(Times(s), s[k].time) <= |s|
  {
    var ub := UpperBound(Times(s), s[k].time);
    if ub <= k {
      assert false;
    }
  }

  /** On a sorted series the upper bound of a time earlier than pulse `k`'s
      lies at or before `k`. */
  lemma UpperBoundBefore(s: seq<Pulse>, k: nat, t: real)
    requires SortedByTime(s) && k < |s| && t < s[k].time
    ensures UpperBound(Times(s), t) <= k
  {
    var ub := UpperBound(Times(s), t);
    if ub > k {
      assert false;
    }
  }

  /** A larger threshold never moves the upper bound to the left. */
  lemma UpperBoundMonotone(a: seq<real>, v: real, w: real)
    requires v <= w
    ensures UpperBound(a, v) <= UpperBound(a, w)
  {
  }

  // ---------------------------------------------------------------------
  // The halving search of searchsorted (side "right") and upper_bound
  // ---------------------------------------------------------------------

  /** The halving search over `a[lo..hi]`: probe the middle entry, go on to
      its right when it is at most `v` and to its left otherwise. Whatever
      the order of `a`, the result is a point where the probes change side:
      the entry before it (when searched) is at most `v`, the entry at it
      (when searched) exceeds `v`. */
  function BisectRight(a: seq<real>, v: real, lo: nat, hi: nat): (k: nat)
    requires lo <= hi <= |a|
    ensures lo <= k <= hi
    ensures lo < k ==> a[k - 1] <= v
    ensures k < hi ==> a[k] > v
    decreases hi - lo
  {
    if lo == hi then lo
    else
      var mid := lo + (hi - lo) / 2;
      if a[mid] <= v then BisectRight(a, v, mid + 1, hi) else BisectRight(a, v, lo, mid)
  }

  /** The search over the whole of `a`. */
  function SearchRight(a: seq<real>, v: real): (k: nat)
    ensures k <= |a|
    ensures 0 < k ==> a[k - 1] <= v
    ensures k < |a| ==> a[k] > v
  {
    BisectRight(a, v, 0, |a|)
  }

  /** On non-decreasing input the halving search finds the upper bound. */
  lemma SearchRightIsUpperBound(a: seq<real>, v: real)
    requires NonDecreasing(a)
    ensures SearchRight(a, v) == UpperBound(a, v)
  {
    hide SearchRight, BisectRight, UpperBound;
    var k, u := SearchRight(a, v), UpperBound(a, v);
    if k < |a| {
      assert a[k] > v;
    }
  }

  /** On other input it need not: the running totals 1, 0, 1 first exceed
      0.2 at index 0, but the search probes index 1 first and returns 2. */
  lemma SearchRightOnUnsorted()
    ensures UpperBound([1.0, 0.0, 1.0], 0.2) == 0
    ensures SearchRight([1.0, 0.0, 1.0], 0.2) == 2
  {
    var a := [1.0, 0.0, 1.0];
    assert BisectRight(a, 0.2, 2, 3) == 2;
    assert BisectRight(a, 0.2, 0, 3) == BisectRight(a, 0.2, 2, 3);
  }

  /** The times of a time-sorted series are non-decreasing. */
  lemma SortedTimes(s: seq<Pulse>)
    requires SortedByTime(s)
    ensures NonDecreasing(Times(s))
  {
    var ts := Times(s);
    forall i, j | 0 <= i < j < |ts| ensures ts[i] <= ts[j] {
      assert s[i].time <= s[j].time;
    }
  }

  // ---------------------------------------------------------------------
  // Sums
  // ---------------------------------------------------------------------

  lemma {:induction false} SumOfAppend(a: seq<Pulse>, b: seq<Pulse>, m: Measure)
    ensures SumOf(a + b, m) == SumOf(a, m) + SumOf(b, m)
  {
    if |a| == 0 {
      assert a + b == b;
    } else {
      assert (a + b)[1..] == a[1..] + b;
      SumOfAppend(a[1..], b, m);
    }
  }

  lemma SumOfCons(p: Pulse, s: seq<Pulse>, m: Measure)
    ensures SumOf([p] + s, m) == Weight(m, p) + SumOf(s, m)
  {
    assert ([p] + s)[1..] == s;
  }

  /** The sum of the first `k + 1` pulses extends that of the first `k`. */
  lemma SumOfPrefixStep(s: seq<Pulse>, k: nat, m: Measure)
    requires k < |s|
    ensures SumOf(s[..k + 1], m) == SumOf(s[..k], m) + Weight(m, s[k])
  {
    assert s[..k + 1] == s[..k] + [s[k]];
    SumOfAppend(s[..k], [s[k]], m);
  }

  /** Every sum depends only on the multiset of pulses, not on their order. */
  lemma {:induction false} SumOfPermutation(a: seq<Pulse>, b: seq<Pulse>, m: Measure)
    requires multiset(a) == multiset(b)
    ensures SumOf(a, m) == SumOf(b, m)
    decreases |a|
  {
    if |a| == 0 {
      assert |b| == |multiset(b)| == 0;
    } else {
      assert a[0] in multiset(b);
      var j :| 0 <= j < |b| && b[j] == a[0];
      SumOfRemove(b, j, m);
      PermutationRest(a, b, j);
      SumOfPermutation(a[1..], b[..j] + b[j + 1..], m);
    }
  }

  /** Matching the first pulse of `a` with pulse `j` of `b` leaves two
      reorderings of the same pulses. */
  lemma PermutationRest(a: seq<Pulse>, b: seq<Pulse>, j: nat)
    requires multiset(a) == multiset(b) && |a| > 0 && j < |b| && b[j] == a[0]
    ensures multiset(a[1..]) == multiset(b[..j] + b[j + 1..])
  {
    assert a == [a[0]] + a[1..];
    assert b == b[..j] + [b[j]] + b[j + 1..];
    calc {
      multiset(a[1..]);
      multiset(a) - multiset{a[0]};
      multiset(b[..j]) + multiset{b[j]} + multiset(b[j + 1..]) - multiset{b[j]};
      multiset(b[..j]) + multiset(b[j + 1..]);
      multiset(b[..j] + b[j + 1..]);
    }
  }

  /** Taking pulse `j` out of a series takes its weight out of the sum. */
  lemma SumOfRemove(b: seq<Pulse>, j: nat, m: Measure)
    requires j < |b|
    ensures SumOf(b, m) == Weight(m, b[j]) + SumOf(b[..j] + b[j + 1..], m)
  {
    assert b == b[..j] + [b[j]] + b[j + 1..];
    SumOfAppend(b[..j] + [b[j]], b[j + 1..], m);
    SumOfAppend(b[..j], [b[j]], m);
    SumOfAppend(b[..j], b[j + 1..], m);
  }

  /** The charge sum of zipped arrays is the sum of the charges array. */
  lemma {:induction false} ChargeSumIsSum(times: seq<real>, charges: seq<real>)
    requires |times| == |charges|
    ensures SumOf(Zip(times, charges), Charge) == Sum(charges)
  {
    if |times| > 0 {
      assert Zip(times, charges)[1..] == Zip(times[1..], charges[1..]);
      ChargeSumIsSum(times[1..], charges[1..]);
    }
  }

  lemma {:induction false} SumOfOnes(n: nat)
    ensures Sum(Ones(n)) == n as real
  {
    if n > 0 {
      assert Ones(n)[1..] == Ones(n - 1);
      SumOfOnes(n - 1);
    }
  }

  lemma {:induction false} ChargeSumNonNegative(s: seq<Pulse>)
    requires NonNegativeCharges(s)
    ensures SumOf(s, Charge) >= 0.0
  {
    if |s| > 0 {
      ChargeSumNonNegative(s[1..]);
    }
  }

  /** The charge arriving by `cutoff` is non-negative and at most the total. */
  lemma {:induction false} ChargeUpToBounds(s: seq<Pulse>, cutoff: real)
    requires NonNegativeCharges(s)
    ensures 0.0 <= SumOf(s, ChargeUpTo(cutoff)) <= SumOf(s, Charge)
  {
    if |s| > 0 {
      ChargeUpToBounds(s[1..], cutoff);
    }
  }

  /** The charge arriving by a cutoff grows with the cutoff. */
  lemma {:induction false} ChargeUpToMonotone(s: seq<Pulse>, c1: real, c2: real)
    requires NonNegativeCharges(s) && c1 <= c2
    ensures SumOf(s, ChargeUpTo(c1)) <= SumOf(s, ChargeUpTo(c2))
  {
    if |s| > 0 {
      ChargeUpToMonotone(s[1..], c1, c2);
    }
  }

  /** When every pulse arrives by the cutoff, all the charge counts. */
  lemma {:induction false} ChargeUpToAll(s: seq<Pulse>, cutoff: real)
    requires forall i :: 0 <= i < |s| ==> s[i].time <= cutoff
    ensures SumOf(s, ChargeUpTo(cutoff)) == SumOf(s, Charge)
  {
    if |s| > 0 {
      ChargeUpToAll(s[1..], cutoff);
    }
  }

  /** When every pulse arrives after the cutoff, none of the charge counts. */
  lemma {:induction false} ChargeUpToNone(s: seq<Pulse>, cutoff: real)
    requires forall i :: 0 <= i < |s| ==> s[i].time > cutoff
    ensures SumOf(s, ChargeUpTo(cutoff)) == 0.0
  {
    if |s| > 0 {
      ChargeUpToNone(s[1..], cutoff);
    }
  }

  /** The charge-weighted time sum lies between lo and hi times the total charge. */
  lemma {:induction false} TimeChargeBounds(s: seq<Pulse>, lo: real, hi: real)
    requires NonNegativeCharges(s)
    requires forall i :: 0 <= i < |s| ==> lo <= s[i].time <= hi
    ensures lo * SumOf(s, Charge) <= SumOf(s, TimeCharge) <= hi * SumOf(s, Charge)
  {
    if |s| > 0 {
      TimeChargeBounds(s[1..], lo, hi);
      var p := s[0];
      assert lo * p.charge <= p.time * p.charge <= hi * p.charge by {
        assert (p.time - lo) * p.charge >= 0.0;
        assert (hi - p.time) * p.charge >= 0.0;
      }
    }
  }

  /** A charge-weighted sum of squared deviations is never negative. */
  lemma {:induction false} SpreadNonNegative(s: seq<Pulse>, mean: real)
    requires NonNegativeCharges(s)
    ensures SumOf(s, SpreadAbout(mean)) >= 0.0
  {
    if |s| > 0 {
      SpreadNonNegative(s[1..], mean);
      var d := s[0].time - mean;
      assert d * d >= 0.0;
      assert s[0].charge * d * d == s[0].charge * (d * d);
    }
  }

  /** Charges stay non-negative under any reordering. */
  lemma NonNegativePermutation(a: seq<Pulse>, b: seq<Pulse>)
    requires multiset(a) == multiset(b) && NonNegativeCharges(a)
    ensures NonNegativeCharges(b)
  {
    forall i | 0 <= i < |b|
      ensures b[i].charge >= 0.0
    {
      assert b[i] in multiset(a);
      var j :| 0 <= j < |a| && a[j] == b[i];
    }
  }

  /** The zipped pulses carry non-negative charges exactly when the charges
      array holds no negative value. */
  lemma NonNegativeZip(times: seq<real>, charges: seq<real>)
    requires |times| == |charges|
    ensures NonNegativeCharges(Zip(times, charges)) <==> NonNegative(charges)
  {
    var z := Zip(times, charges);
    if NonNegativeCharges(z) {
      forall i | 0 <= i < |charges|
        ensures charges[i] >= 0.0
      {
        assert z[i].charge == charges[i];
      }
    }
  }

  // ---------------------------------------------------------------------
  // Sorted series
  // ---------------------------------------------------------------------

  /** On a time-sorted series the prefix up to the upper bound of `v` holds
      exactly the pulses arriving by `v`. */
  lemma ChargeUpToIsPrefix(s: seq<Pulse>, v: real)
    requires SortedByTime(s)
    ensures SumOf(s, ChargeUpTo(v)) == SumOf(s[..UpperBound(Times(s), v)], Charge)
  {
    hide *;
    var k := UpperBound(Times(s), v);
    SplitAtUpperBound(s, v);
    SumOfAppend(s[..k], s[k..], ChargeUpTo(v));
    ChargeUpToAll(s[..k], v);
    ChargeUpToNone(s[k..], v);
  }

  /** On a time-sorted series the upper bound of `v` splits the pulses
      arriving by `v` from those arriving after it. */
  lemma SplitAtUpperBound(s: seq<Pulse>, v: real)
    requires SortedByTime(s)
    ensures var k := UpperBound(Times(s), v);
      && k <= |s| && s == s[..k] + s[k..]
      && (forall i :: 0 <= i < |s[..k]| ==> s[..k][i].time <= v)
      && (forall i :: 0 <= i < |s[k..]| ==> s[k..][i].time > v)
  {
    var k := UpperBound(Times(s), v);
    var ts := Times(s);
    SortedTimes(s);
    UpperBoundPartitions(ts, v);
    forall i | 0 <= i < |s[..k]|
      ensures s[..k][i].time <= v
    {
      assert ts[i] <= v;
    }
    forall i | 0 <= i < |s[k..]|
      ensures s[k..][i].time > v
    {
      assert ts[k + i] > v;
    }
    assert s == s[..k] + s[k..];
  }

  /** Prefix charge sums grow with the prefix when charges are non-negative. */
  lemma PrefixChargeMonotone(s: seq<Pulse>, i: nat, j: nat)
    requires NonNegativeCharges(s) && i <= j <= |s|
    ensures SumOf(s[..i], Charge) <= SumOf(s[..j], Charge)
  {
    assert s[..j] == s[..i] + s[i..j];
    SumOfAppend(s[..i], s[i..j], Charge);
    ChargeSumNonNegative(s[i..j]);
  }

  /** A time-sorted permutation starts at the minimum and ends at the maximum time. */
  lemma SortedEnds(s: seq<Pulse>, times: seq<real>, charges: seq<real>)
    requires |times| == |charges| && |times| > 0
    requires SortedByTime(s) && multiset(s) == multiset(Zip(times, charges))
    ensures |s| == |times|
    ensures IsMinimum(times, s[0].time)
    ensures IsMaximum(times, s[|s| - 1].time)
  {
    var z := Zip(times, charges);
    assert |s| == |multiset(s)| == |multiset(z)| == |z|;
    assert s[0] in multiset(z);
    var i0 :| 0 <= i0 < |z| && z[i0] == s[0];
    assert times[i0] == s[0].time;
    assert s[|s| - 1] in multiset(z);
    var i1 :| 0 <= i1 < |z| && z[i1] == s[|s| - 1];
    assert times[i1] == s[|s| - 1].time;
    forall i | 0 <= i < |times|
      ensures s[0].time <= times[i] <= s[|s| - 1].time
    {
      assert z[i] in multiset(s);
      var j :| 0 <= j < |s| && s[j] == z[i];
    }
  }
}
