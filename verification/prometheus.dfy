/** Per-sensor processing with optional hit grouping, and the partition of a
    whole event's photon arrays into per-sensor rows. */
module Prometheus {
  import opened Pulses
  import opened Results
  import opened SummaryStats
  import opened HitGrouping

  // ---------------------------------------------------------------------
  // One sensor
  // ---------------------------------------------------------------------

  /** The charges to use: the given ones, or a unit charge per hit. */
  function ChargesOrOnes(times: seq<real>, charges: Option<seq<real>>): seq<real> {
    match charges
    case None => Ones(|times|)
    case Some(cs) => cs
  }

  /** Grouping applies only to a given, positive window. */
  predicate Groups(window: Option<real>) {
    window.Some? && window.value > 0.0
  }

  /** The statistics of one sensor's hits, first merged into super-hits when
      a positive window is given. Without charges every hit weighs 1. */
  function ProcessSensorData(times: seq<real>, charges: Option<seq<real>>, window: Option<real>, sqrt: real -> real): (r: Result<Summary>)
    requires |times| > 0 && Groups(window) ==> |ChargesOrOnes(times, charges)| == |times|
    ensures |times| == 0 ==> r == Ok(EmptySummary)
    ensures r.Ok? <==> |times| == 0 || |ChargesOrOnes(times, charges)| == |times|
    ensures r.Err? ==> r.error == LengthMismatch(|times|, |ChargesOrOnes(times, charges)|)
  {
    var cs := ChargesOrOnes(times, charges);
    if |times| == 0 then ComputeSummaryStats([], [], sqrt)
    else if Groups(window) then
      var hits := GroupHitsByWindow(times, cs, window.value);
      ComputeSummaryStats(Times(hits), Charges(hits), sqrt)
    else ComputeSummaryStats(times, cs, sqrt)
  }

  /** Without a positive window the hits are not grouped: the sensor's
      statistics are those of its hits with their (or unit) charges. */
  lemma UngroupedSensor(times: seq<real>, charges: Option<seq<real>>, window: Option<real>, sqrt: real -> real)
    requires !Groups(window)
    ensures ProcessSensorData(times, charges, window, sqrt)
         == ComputeSummaryStats(times, ChargesOrOnes(times, charges), sqrt)
  {
  }

  /** A window that is not positive behaves as no window at all. */
  lemma NonPositiveWindow(times: seq<real>, charges: Option<seq<real>>, w: real, sqrt: real -> real)
    requires w <= 0.0
    ensures ProcessSensorData(times, charges, Some(w), sqrt) == ProcessSensorData(times, charges, None, sqrt)
  {
  }

  /** With hits and a positive window the sensor's statistics are those of
      the super-hits the grouping forms. */
  lemma GroupedSensor(times: seq<real>, charges: Option<seq<real>>, window: Option<real>, sqrt: real -> real)
    requires Groups(window) && |ChargesOrOnes(times, charges)| == |times| > 0
    ensures var hits := GroupHitsByWindow(times, ChargesOrOnes(times, charges), window.value);
      ProcessSensorData(times, charges, window, sqrt) == ComputeSummaryStats(Times(hits), Charges(hits), sqrt)
  {
  }

  /** Whether or not the hits are grouped, a sensor with hits and matching
      charges reports the sum of its charges as total charge and its
      earliest hit time as first time. */
  lemma SensorTotalAndFirst(times: seq<real>, charges: Option<seq<real>>, window: Option<real>, sqrt: real -> real)
    requires |ChargesOrOnes(times, charges)| == |times| > 0
    ensures ProcessSensorData(times, charges, window, sqrt).Ok?
    ensures var r := ProcessSensorData(times, charges, window, sqrt).value;
      && r.totalCharge == Sum(ChargesOrOnes(times, charges))
      && IsMinimum(times, r.firstTime)
  {
    var cs := ChargesOrOnes(times, charges);
    if Groups(window) {
      GroupedTotalAndFirst(times, cs, window.value, sqrt);
    } else {
      TotalChargeSlot(times, cs, sqrt);
      FirstLastSlots(times, cs, sqrt);
    }
  }

  /** The statistics of the super-hits keep the hits' total charge and
      earliest time. */
  lemma GroupedTotalAndFirst(times: seq<real>, cs: seq<real>, w: real, sqrt: real -> real)
    requires |cs| == |times| > 0 && w >= 0.0
    ensures var hits := GroupHitsByWindow(times, cs, w);
      var r := ComputeSummaryStats(Times(hits), Charges(hits), sqrt);
      && r.Ok? && r.value.totalCharge == Sum(cs) && IsMinimum(times, r.value.firstTime)
  {
    hide *;
    var hits := GroupHitsByWindow(times, cs, w);
    ZipRoundTrip(hits, times, cs);
    TotalChargeSlot(Times(hits), Charges(hits), sqrt);
    ChargeSumIsSum(Times(hits), Charges(hits));
    GroupingConservesCharge(times, cs, w);
    FirstLastSlots(Times(hits), Charges(hits), sqrt);
    GroupingTimesFromInput(times, cs, w);
    GroupingTimesSpaced(times, cs, w);
    FirstOfIncreasing(hits, ComputeSummaryStats(Times(hits), Charges(hits), sqrt).value.firstTime);
  }

  /** The earliest time of pulses in increasing time order is the first one's. */
  lemma FirstOfIncreasing(hits: seq<Pulse>, lo: real)
    requires |hits| > 0 && forall i, j :: 0 <= i < j < |hits| ==> hits[i].time < hits[j].time
    requires IsMinimum(Times(hits), lo)
    ensures lo == hits[0].time
  {
    var i :| 0 <= i < |hits| && Times(hits)[i] == lo;
    assert Times(hits)[0] == hits[0].time;
  }

  /** Grouping never changes the total charge or the first hit time. */
  lemma GroupingKeepsTotalAndFirst(times: seq<real>, charges: Option<seq<real>>, window: real, sqrt: real -> real)
    requires |ChargesOrOnes(times, charges)| == |times|
    ensures ProcessSensorData(times, charges, Some(window), sqrt).Ok?
    ensures ProcessSensorData(times, charges, None, sqrt).Ok?
    ensures var grouped := ProcessSensorData(times, charges, Some(window), sqrt).value;
      var plain := ProcessSensorData(times, charges, None, sqrt).value;
      grouped.totalCharge == plain.totalCharge && grouped.firstTime == plain.firstTime
  {
    if |times| > 0 {
      SensorTotalAndFirst(times, charges, Some(window), sqrt);
      SensorTotalAndFirst(times, charges, None, sqrt);
    }
  }

  /** Without charges each hit weighs 1, so the total charge is the number
      of hits. */
  lemma UnitChargeTotal(times: seq<real>, window: Option<real>, sqrt: real -> real)
    ensures ProcessSensorData(times, None, window, sqrt).Ok?
    ensures ProcessSensorData(times, None, window, sqrt).value.totalCharge == |times| as real
  {
    if |times| > 0 {
      SensorTotalAndFirst(times, None, window, sqrt);
      SumOfOnes(|times|);
    }
  }

  // ---------------------------------------------------------------------
  // Sensor identity and the order of the rows
  // ---------------------------------------------------------------------

  /** A sensor is identified by its string and its position on the string. */
  datatype SensorKey = SensorKey(stringId: int, sensorId: int)

  datatype Position = Position(x: real, y: real, z: real)

  /** Lexicographic order on keys: by string, then by sensor. */
  predicate KeyLess(a: SensorKey, b: SensorKey) {
    a.stringId < b.stringId || (a.stringId == b.stringId && a.sensorId < b.sensorId)
  }

  predicate StrictlyAscending(u: seq<SensorKey>) {
    forall i, j :: 0 <= i < j < |u| ==> KeyLess(u[i], u[j])
  }

  /** Inserts `k` into a strictly ascending list unless it is already there. */
  function InsertKey(k: SensorKey, u: seq<SensorKey>): (r: seq<SensorKey>)
    requires StrictlyAscending(u)
    ensures StrictlyAscending(r)
    ensures forall x :: x in r <==> x in u || x == k
  {
    if |u| == 0 then [k]
    else if k == u[0] then u
    else if KeyLess(k, u[0]) then [k] + u
    else
      var rest := InsertKey(k, u[1..]);
      InsertKeyAfterHead(k, u, rest);
      [u[0]] + rest
  }

  /** A key inserted after the head of an ascending list keeps the head first. */
  lemma InsertKeyAfterHead(k: SensorKey, u: seq<SensorKey>, rest: seq<SensorKey>)
    requires StrictlyAscending(u) && |u| > 0 && k != u[0] && !KeyLess(k, u[0])
    requires StrictlyAscending(rest) && forall x :: x in rest <==> x in u[1..] || x == k
    ensures StrictlyAscending([u[0]] + rest)
  {
    forall j | 0 <= j < |rest|
      ensures KeyLess(u[0], rest[j])
    {
      assert rest[j] in rest;
      if rest[j] != k {
        var i :| 0 <= i < |u| - 1 && u[1..][i] == rest[j];
        assert u[i + 1] == rest[j];
      }
    }
    var r := [u[0]] + rest;
    forall i, j | 0 <= i < j < |r|
      ensures KeyLess(r[i], r[j])
    {
      if i > 0 {
        assert r[i] == rest[i - 1] && r[j] == rest[j - 1];
      } else {
        assert r[j] == rest[j - 1];
      }
    }
  }

  /** The distinct keys of `ks` in ascending order. */
  function DistinctKeys(ks: seq<SensorKey>): (u: seq<SensorKey>)
    ensures StrictlyAscending(u)
    ensures forall x :: x in u <==> x in ks
  {
    if |ks| == 0 then [] else InsertKey(ks[0], DistinctKeys(ks[1..]))
  }

  /** Two strictly ascending lists with the same members start alike. */
  lemma AscendingHeads(u: seq<SensorKey>, v: seq<SensorKey>)
    requires StrictlyAscending(u) && StrictlyAscending(v) && |u| > 0 && |v| > 0
    requires forall x :: x in u <==> x in v
    ensures u[0] == v[0]
  {
    assert u[0] in u && v[0] in v;
    var j :| 0 <= j < |v| && v[j] == u[0];
    var i :| 0 <= i < |u| && u[i] == v[0];
    if j > 0 && i > 0 {
      assert false;
    }
  }

  /** A member of an ascending list's tail is also a member of the tail of
      any ascending list with the same members. */
  lemma AscendingTailMember(u: seq<SensorKey>, v: seq<SensorKey>, x: SensorKey)
    requires StrictlyAscending(u) && StrictlyAscending(v) && |u| > 0 && |v| > 0
    requires u[0] == v[0] && (forall y :: y in u <==> y in v) && x in u[1..]
    ensures x in v[1..]
  {
    var i :| 0 <= i < |u| - 1 && u[1..][i] == x;
    assert KeyLess(u[0], u[i + 1]);
    assert x in u;
    var j :| 0 <= j < |v| && v[j] == x;
    assert v[1..][j - 1] == x;
  }

  lemma HeadIsMember(u: seq<SensorKey>)
    requires |u| > 0
    ensures u[0] in u
  {
  }

  /** A set of keys has exactly one strictly ascending listing. */
  lemma {:induction false} AscendingUnique(u: seq<SensorKey>, v: seq<SensorKey>)
    requires StrictlyAscending(u) && StrictlyAscending(v)
    requires forall x :: x in u <==> x in v
    ensures u == v
  {
    if |u| == 0 {
      if |v| > 0 {
        HeadIsMember(v);
        assert false;
      }
    } else if |v| == 0 {
      HeadIsMember(u);
      assert false;
    } else {
      AscendingHeads(u, v);
      forall x
        ensures x in u[1..] <==> x in v[1..]
      {
        if x in u[1..] {
          AscendingTailMember(u, v, x);
        }
        if x in v[1..] {
          AscendingTailMember(v, u, x);
        }
      }
      AscendingUnique(u[1..], v[1..]);
    }
  }

  // ---------------------------------------------------------------------
  // Selecting one sensor's photons
  // ---------------------------------------------------------------------

  /** The entries of `xs` whose key is `k`, in their original order: the
      array indexed by the boolean mask `ks == k`. */
  function Select<T>(xs: seq<T>, ks: seq<SensorKey>, k: SensorKey): (r: seq<T>)
    requires |xs| == |ks|
    ensures |r| == multiset(ks)[k]
  {
    if |xs| == 0 then []
    else
      assert ks == [ks[0]] + ks[1..];
      (if ks[0] == k then [xs[0]] else []) + Select(xs[1..], ks[1..], k)
  }

  /** The indices from `lo` on whose key is `k`, in increasing order. */
  function MatchingFrom(ks: seq<SensorKey>, k: SensorKey, lo: nat): (m: seq<nat>)
    requires lo <= |ks|
    ensures forall j :: 0 <= j < |m| ==> lo <= m[j] < |ks| && ks[m[j]] == k
    ensures forall j1, j2 :: 0 <= j1 < j2 < |m| ==> m[j1] < m[j2]
    ensures forall i :: lo <= i < |ks| && ks[i] == k ==> i in m
    decreases |ks| - lo
  {
    if lo == |ks| then []
    else
      var rest := MatchingFrom(ks, k, lo + 1);
      MatchingCons(ks, k, lo, rest);
      (if ks[lo] == k then [lo] else []) + rest
  }

  /** Deciding index `lo` in front of the matching indices after it gives
      the matching indices from `lo`. */
  lemma MatchingCons(ks: seq<SensorKey>, k: SensorKey, lo: nat, rest: seq<nat>)
    requires lo < |ks|
    requires forall j :: 0 <= j < |rest| ==> lo + 1 <= rest[j] < |ks| && ks[rest[j]] == k
    requires forall j1, j2 :: 0 <= j1 < j2 < |rest| ==> rest[j1] < rest[j2]
    requires forall i :: lo + 1 <= i < |ks| && ks[i] == k ==> i in rest
    ensures var m := (if ks[lo] == k then [lo] else []) + rest;
      && (forall j :: 0 <= j < |m| ==> lo <= m[j] < |ks| && ks[m[j]] == k)
      && (forall j1, j2 :: 0 <= j1 < j2 < |m| ==> m[j1] < m[j2])
      && (forall i :: lo <= i < |ks| && ks[i] == k ==> i in m)
  {
    var h := if ks[lo] == k then [lo] else [];
    MatchingConsBounds(ks, k, lo, h, rest);
    MatchingConsComplete(ks, k, lo, h, rest);
  }

  lemma MatchingConsBounds(ks: seq<SensorKey>, k: SensorKey, lo: nat, h: seq<nat>, rest: seq<nat>)
    requires lo < |ks| && h == if ks[lo] == k then [lo] else []
    requires forall j :: 0 <= j < |rest| ==> lo + 1 <= rest[j] < |ks| && ks[rest[j]] == k
    requires forall j1, j2 :: 0 <= j1 < j2 < |rest| ==> rest[j1] < rest[j2]
    ensures forall j :: 0 <= j < |h + rest| ==> lo <= (h + rest)[j] < |ks| && ks[(h + rest)[j]] == k
    ensures forall j1, j2 :: 0 <= j1 < j2 < |h + rest| ==> (h + rest)[j1] < (h + rest)[j2]
  {
    var m := h + rest;
    forall j | 0 <= j < |m|
      ensures lo <= m[j] < |ks| && ks[m[j]] == k
    {
      if j >= |h| {
        assert m[j] == rest[j - |h|];
      }
    }
    forall j1, j2 | 0 <= j1 < j2 < |m|
      ensures m[j1] < m[j2]
    {
      assert m[j2] == rest[j2 - |h|];
      if j1 >= |h| {
        assert m[j1] == rest[j1 - |h|];
      }
    }
  }

  lemma MatchingConsComplete(ks: seq<SensorKey>, k: SensorKey, lo: nat, h: seq<nat>, rest: seq<nat>)
    requires lo < |ks| && h == if ks[lo] == k then [lo] else []
    requires forall i :: lo + 1 <= i < |ks| && ks[i] == k ==> i in rest
    ensures forall i :: lo <= i < |ks| && ks[i] == k ==> i in h + rest
  {
    forall i | lo <= i < |ks| && ks[i] == k
      ensures i in h + rest
    {
      if i > lo {
        var j :| 0 <= j < |rest| && rest[j] == i;
        assert (h + rest)[|h| + j] == i;
      }
    }
  }

  /** The selected entries are the entries at the matching indices, in
      increasing index order: a sensor's photons keep their relative order. */
  lemma {:induction false} SelectIsGather<T>(xs: seq<T>, ks: seq<SensorKey>, k: SensorKey, lo: nat)
    requires |xs| == |ks| && lo <= |ks|
    ensures var m := MatchingFrom(ks, k, lo);
      && |Select(xs[lo..], ks[lo..], k)| == |m|
      && forall j :: 0 <= j < |m| ==> Select(xs[lo..], ks[lo..], k)[j] == xs[m[j]]
    decreases |ks| - lo
  {
    if lo < |ks| {
      hide *;
      SelectIsGather(xs, ks, k, lo + 1);
      SelectStep(xs, ks, k, lo);
      MatchingStep(ks, k, lo);
      GatherCons(xs, Select(xs[lo + 1..], ks[lo + 1..], k), MatchingFrom(ks, k, lo + 1), lo, ks[lo] == k);
    }
  }

  /** Selecting from position `lo` decides entry `lo` and selects from the rest. */
  lemma SelectStep<T>(xs: seq<T>, ks: seq<SensorKey>, k: SensorKey, lo: nat)
    requires |xs| == |ks| && lo < |ks|
    ensures Select(xs[lo..], ks[lo..], k)
      == (if ks[lo] == k then [xs[lo]] else []) + Select(xs[lo + 1..], ks[lo + 1..], k)
  {
    assert xs[lo..][1..] == xs[lo + 1..] && ks[lo..][1..] == ks[lo + 1..];
  }

  lemma MatchingStep(ks: seq<SensorKey>, k: SensorKey, lo: nat)
    requires lo < |ks|
    ensures MatchingFrom(ks, k, lo) == (if ks[lo] == k then [lo] else []) + MatchingFrom(ks, k, lo + 1)
  {
  }

  /** Gathering commutes with putting one more index in front. */
  lemma GatherCons<T>(xs: seq<T>, a: seq<T>, m: seq<nat>, i: nat, b: bool)
    requires |a| == |m| && i < |xs|
    requires forall j :: 0 <= j < |m| ==> m[j] < |xs| && a[j] == xs[m[j]]
    ensures var a' := (if b then [xs[i]] else []) + a;
      var m' := (if b then [i] else []) + m;
      && |a'| == |m'|
      && forall j :: 0 <= j < |m'| ==> m'[j] < |xs| && a'[j] == xs[m'[j]]
  {
  }

  /** The first index whose key is `k`. */
  function FirstIndex(ks: seq<SensorKey>, k: SensorKey): (i: nat)
    requires k in ks
    ensures i < |ks| && ks[i] == k
    ensures forall j :: 0 <= j < i ==> ks[j] != k
  {
    if ks[0] == k then 0 else 1 + FirstIndex(ks[1..], k)
  }

  // ---------------------------------------------------------------------
  // One event
  // ---------------------------------------------------------------------

  /** The flat photon arrays of one event; the charges may be absent. */
  datatype Photons = Photons(
    posX: seq<real>, posY: seq<real>, posZ: seq<real>,
    stringIds: seq<int>, sensorIds: seq<int>,
    t: seq<real>, charge: Option<seq<real>>)
  {
    /** Every array describes the same photons. */
    predicate WellFormed() {
      && |posX| == |t| && |posY| == |t| && |posZ| == |t|
      && |stringIds| == |t| && |sensorIds| == |t|
      && (charge.Some? ==> |charge.value| == |t|)
    }
  }

  function Keys(ph: Photons): (ks: seq<SensorKey>)
    requires ph.WellFormed()
    ensures |ks| == |ph.t|
    ensures forall i :: 0 <= i < |ks| ==> ks[i] == SensorKey(ph.stringIds[i], ph.sensorIds[i])
  {
    seq(|ph.t|, i requires 0 <= i < |ph.t| => SensorKey(ph.stringIds[i], ph.sensorIds[i]))
  }

  /** The sensors with photons, in ascending key order. */
  function SensorKeys(ph: Photons): seq<SensorKey>
    requires ph.WellFormed()
  {
    DistinctKeys(Keys(ph))
  }

  /** One output row: the sensor's position and its statistics. */
  datatype SensorRow = SensorRow(position: Position, stats: Summary)

  /** The row of sensor `k`: the position of its first photon, and the
      statistics of its photons' times and charges. */
  function SensorRowOf(ph: Photons, k: SensorKey, window: Option<real>, sqrt: real -> real): (row: SensorRow)
    requires ph.WellFormed() && k in Keys(ph)
  {
    var ks := Keys(ph);
    var cs := ChargesOrOnes(ph.t, ph.charge);
    var i := FirstIndex(ks, k);
    var stats := ProcessSensorData(Select(ph.t, ks, k), Some(Select(cs, ks, k)), window, sqrt);
    SensorRow(Position(ph.posX[i], ph.posY[i], ph.posZ[i]), stats.value)
  }

  function RowsFor(ph: Photons, u: seq<SensorKey>, window: Option<real>, sqrt: real -> real): (rows: seq<SensorRow>)
    requires ph.WellFormed() && forall k :: k in u ==> k in Keys(ph)
    ensures |rows| == |u|
    ensures forall j :: 0 <= j < |u| ==> rows[j] == SensorRowOf(ph, u[j], window, sqrt)
  {
    seq(|u|, j requires 0 <= j < |u| => SensorRowOf(ph, u[j], window, sqrt))
  }

  /** One row per sensor with photons, in ascending key order; an event
      without photons gives no rows. */
  function ProcessEvent(ph: Photons, window: Option<real>, sqrt: real -> real): (rows: seq<SensorRow>)
    requires ph.WellFormed()
    ensures |ph.t| == 0 ==> rows == []
    ensures |rows| == |SensorKeys(ph)|
  {
    if |ph.t| == 0 then [] else RowsFor(ph, SensorKeys(ph), window, sqrt)
  }

  // ---------------------------------------------------------------------
  // What the rows mean
  // ---------------------------------------------------------------------

  /** The rows follow the one strictly ascending listing of the event's
      distinct sensor keys: one row per sensor with photons, none for any
      other key. */
  lemma RowsFollowKeys(ph: Photons, window: Option<real>, sqrt: real -> real, v: seq<SensorKey>)
    requires ph.WellFormed() && |ph.t| > 0
    requires StrictlyAscending(v) && forall x :: x in v <==> x in Keys(ph)
    ensures SensorKeys(ph) == v
    ensures |ProcessEvent(ph, window, sqrt)| == |v|
  {
    AscendingUnique(SensorKeys(ph), v);
  }

  /** Each row's position is that of the first photon carrying its key. */
  lemma RowPosition(ph: Photons, window: Option<real>, sqrt: real -> real, j: nat)
    requires ph.WellFormed() && j < |ProcessEvent(ph, window, sqrt)|
    ensures var k := SensorKeys(ph)[j];
      exists i :: 0 <= i < |ph.t| && Keys(ph)[i] == k
        && (forall i' :: 0 <= i' < i ==> Keys(ph)[i'] != k)
        && ProcessEvent(ph, window, sqrt)[j].position == Position(ph.posX[i], ph.posY[i], ph.posZ[i])
  {
    var k := SensorKeys(ph)[j];
    assert k in SensorKeys(ph);
    var i := FirstIndex(Keys(ph), k);
    assert ProcessEvent(ph, window, sqrt)[j] == SensorRowOf(ph, k, window, sqrt);
  }

  /** The entries of `xs` at the indices `m`, in the order of `m`. */
  function Gather(xs: seq<real>, m: seq<nat>): seq<real>
    requires forall q :: 0 <= q < |m| ==> m[q] < |xs|
  {
    seq(|m|, q requires 0 <= q < |m| => xs[m[q]])
  }

  /** Masking by key gathers the entries at the matching indices. */
  lemma SelectIsGatherAll(xs: seq<real>, ks: seq<SensorKey>, k: SensorKey)
    requires |xs| == |ks|
    ensures Select(xs, ks, k) == Gather(xs, MatchingFrom(ks, k, 0))
  {
    SelectIsGather(xs, ks, k, 0);
    assert xs[0..] == xs && ks[0..] == ks;
  }

  /** Each row's statistics are those of the photons carrying its key, taken
      in their original order, with the event's window. */
  lemma RowSeries(ph: Photons, window: Option<real>, sqrt: real -> real, j: nat)
    requires ph.WellFormed() && j < |ProcessEvent(ph, window, sqrt)|
    ensures var m := MatchingFrom(Keys(ph), SensorKeys(ph)[j], 0);
      var ts := Gather(ph.t, m);
      var qs := Gather(ChargesOrOnes(ph.t, ph.charge), m);
      && |m| > 0
      && ProcessSensorData(ts, Some(qs), window, sqrt).Ok?
      && ProcessEvent(ph, window, sqrt)[j].stats == ProcessSensorData(ts, Some(qs), window, sqrt).value
  {
    var ks := Keys(ph);
    var k := SensorKeys(ph)[j];
    assert k in SensorKeys(ph);
    var m := MatchingFrom(ks, k, 0);
    var cs := ChargesOrOnes(ph.t, ph.charge);
    SelectIsGatherAll(ph.t, ks, k);
    SelectIsGatherAll(cs, ks, k);
    assert FirstIndex(ks, k) in m;
    assert ProcessEvent(ph, window, sqrt)[j] == SensorRowOf(ph, k, window, sqrt);
  }

  /** The sum of the rows' total charges. */
  function RowsCharge(rows: seq<SensorRow>): real {
    if |rows| == 0 then 0.0 else rows[0].stats.totalCharge + RowsCharge(rows[1..])
  }

  /** The charge of the photons with the keys in `u`, key by key. */
  function KeyedCharge(cs: seq<real>, ks: seq<SensorKey>, u: seq<SensorKey>): real
    requires |cs| == |ks|
  {
    if |u| == 0 then 0.0 else Sum(Select(cs, ks, u[0])) + KeyedCharge(cs, ks, u[1..])
  }

  /** `x` counted once for every occurrence of `k` in `u`. */
  function Share(k: SensorKey, x: real, u: seq<SensorKey>): real {
    if |u| == 0 then 0.0 else (if u[0] == k then x else 0.0) + Share(k, x, u[1..])
  }

  lemma {:induction false} ShareAbsent(k: SensorKey, x: real, u: seq<SensorKey>)
    requires k !in u
    ensures Share(k, x, u) == 0.0
  {
    if |u| > 0 {
      assert k !in u[1..];
      ShareAbsent(k, x, u[1..]);
    }
  }

  lemma {:induction false} ShareOnce(k: SensorKey, x: real, u: seq<SensorKey>)
    requires StrictlyAscending(u) && k in u
    ensures Share(k, x, u) == x
  {
    if u[0] == k {
      assert k !in u[1..];
      ShareAbsent(k, x, u[1..]);
    } else {
      ShareOnce(k, x, u[1..]);
    }
  }

  lemma SumCons(x: real, xs: seq<real>)
    ensures Sum([x] + xs) == x + Sum(xs)
  {
    assert ([x] + xs)[1..] == xs;
  }

  /** Peeling off the first photon moves its charge into the share of its key. */
  lemma {:induction false} KeyedChargeStep(cs: seq<real>, ks: seq<SensorKey>, u: seq<SensorKey>)
    requires |cs| == |ks| > 0
    ensures KeyedCharge(cs, ks, u) == Share(ks[0], cs[0], u) + KeyedCharge(cs[1..], ks[1..], u)
  {
    if |u| > 0 {
      KeyedChargeStep(cs, ks, u[1..]);
      var rest := Select(cs[1..], ks[1..], u[0]);
      if ks[0] == u[0] {
        SumCons(cs[0], rest);
      } else {
        assert [] + rest == rest;
      }
    }
  }

  lemma {:induction false} KeyedChargeOfNothing(u: seq<SensorKey>)
    ensures KeyedCharge([], [], u) == 0.0
  {
    if |u| > 0 {
      KeyedChargeOfNothing(u[1..]);
    }
  }

  /** Splitting the photons by key, with every key listed once, accounts for
      every photon's charge exactly once. */
  lemma {:induction false} KeyedChargeIsTotal(cs: seq<real>, ks: seq<SensorKey>, u: seq<SensorKey>)
    requires |cs| == |ks| && StrictlyAscending(u)
    requires forall i :: 0 <= i < |ks| ==> ks[i] in u
    ensures KeyedCharge(cs, ks, u) == Sum(cs)
  {
    if |cs| == 0 {
      KeyedChargeOfNothing(u);
    } else {
      KeyedChargeStep(cs, ks, u);
      ShareOnce(ks[0], cs[0], u);
      KeyedChargeIsTotal(cs[1..], ks[1..], u);
    }
  }

  /** Each row's total charge is the charge of the photons with its key. */
  lemma {:induction false} RowsChargeIsKeyed(ph: Photons, u: seq<SensorKey>, window: Option<real>, sqrt: real -> real)
    requires ph.WellFormed() && forall k :: k in u ==> k in Keys(ph)
    ensures RowsCharge(RowsFor(ph, u, window, sqrt))
         == KeyedCharge(ChargesOrOnes(ph.t, ph.charge), Keys(ph), u)
  {
    if |u| > 0 {
      var ks := Keys(ph);
      var cs := ChargesOrOnes(ph.t, ph.charge);
      var k := u[0];
      assert k in ks;
      var rest := RowsFor(ph, u[1..], window, sqrt);
      RowsForCons(ph, u, window, sqrt);
      assert ([SensorRowOf(ph, k, window, sqrt)] + rest)[1..] == rest;
      RowsChargeIsKeyed(ph, u[1..], window, sqrt);
      RowTotalCharge(ph, k, window, sqrt);
    }
  }

  /** The rows of a key list are the first key's row before the rest's rows. */
  lemma RowsForCons(ph: Photons, u: seq<SensorKey>, window: Option<real>, sqrt: real -> real)
    requires ph.WellFormed() && |u| > 0 && forall k :: k in u ==> k in Keys(ph)
    ensures RowsFor(ph, u, window, sqrt)
         == [SensorRowOf(ph, u[0], window, sqrt)] + RowsFor(ph, u[1..], window, sqrt)
  {
    hide *;
    var rows := RowsFor(ph, u, window, sqrt);
    var rest := RowsFor(ph, u[1..], window, sqrt);
    assert u[0] in u;
    forall j | 0 <= j < |rows|
      ensures rows[j] == ([SensorRowOf(ph, u[0], window, sqrt)] + rest)[j]
    {
      if j > 0 {
        assert u[1..][j - 1] == u[j];
      }
    }
  }

  /** A row's total charge is the charge of the photons with its key. */
  lemma RowTotalCharge(ph: Photons, k: SensorKey, window: Option<real>, sqrt: real -> real)
    requires ph.WellFormed() && k in Keys(ph)
    ensures SensorRowOf(ph, k, window, sqrt).stats.totalCharge
         == Sum(Select(ChargesOrOnes(ph.t, ph.charge), Keys(ph), k))
  {
    var ks := Keys(ph);
    var cs := ChargesOrOnes(ph.t, ph.charge);
    SensorTotalAndFirst(Select(ph.t, ks, k), Some(Select(cs, ks, k)), window, sqrt);
  }

  /** The rows' total charges add up to the event's total charge. */
  lemma EventChargeConservation(ph: Photons, window: Option<real>, sqrt: real -> real)
    requires ph.WellFormed()
    ensures RowsCharge(ProcessEvent(ph, window, sqrt)) == Sum(ChargesOrOnes(ph.t, ph.charge))
  {
    var cs := ChargesOrOnes(ph.t, ph.charge);
    if |ph.t| > 0 {
      RowsChargeIsKeyed(ph, SensorKeys(ph), window, sqrt);
      KeyedChargeIsTotal(cs, Keys(ph), SensorKeys(ph));
    } else {
      assert cs == [];
    }
  }

  /** Without charges each row's total charge is its sensor's photon count. */
  lemma UnitChargeRows(ph: Photons, window: Option<real>, sqrt: real -> real, j: nat)
    requires ph.WellFormed() && ph.charge.None? && j < |ProcessEvent(ph, window, sqrt)|
    ensures ProcessEvent(ph, window, sqrt)[j].stats.totalCharge
         == multiset(Keys(ph))[SensorKeys(ph)[j]] as real
  {
    var ks := Keys(ph);
    var k := SensorKeys(ph)[j];
    assert k in SensorKeys(ph);
    var ones := Ones(|ph.t|);
    var sel := Select(ones, ks, k);
    assert sel == Ones(|sel|) by {
      SelectOnes(ones, ks, k);
    }
    SumOfOnes(|sel|);
    assert ProcessEvent(ph, window, sqrt)[j] == SensorRowOf(ph, k, window, sqrt);
    RowTotalCharge(ph, k, window, sqrt);
  }

  /** Selecting from unit charges gives unit charges. */
  lemma {:induction false} SelectOnes(ones: seq<real>, ks: seq<SensorKey>, k: SensorKey)
    requires |ones| == |ks| && forall i :: 0 <= i < |ones| ==> ones[i] == 1.0
    ensures forall i :: 0 <= i < |Select(ones, ks, k)| ==> Select(ones, ks, k)[i] == 1.0
  {
    if |ones| > 0 {
      SelectOnes(ones[1..], ks[1..], k);
    }
  }

  /** The documented event: three unit-charge photons on sensors (1, 1),
      (1, 1) and (2, 1). */
  const ExampleEvent := Photons([0.0, 0.0, 100.0], [0.0, 0.0, 0.0], [0.0, 0.0, 50.0],
                                [1, 1, 2], [1, 1, 1], [10.0, 15.0, 20.0], None)

  lemma ExampleEventKeys()
    ensures ExampleEvent.WellFormed()
    ensures Keys(ExampleEvent) == [SensorKey(1, 1), SensorKey(1, 1), SensorKey(2, 1)]
    ensures SensorKeys(ExampleEvent) == [SensorKey(1, 1), SensorKey(2, 1)]
  {
    var a, b := SensorKey(1, 1), SensorKey(2, 1);
    assert Keys(ExampleEvent) == [a, a, b];
    AscendingUnique(SensorKeys(ExampleEvent), [a, b]);
  }

  lemma ExampleEventPositions(window: Option<real>, sqrt: real -> real)
    ensures ExampleEvent.WellFormed()
    ensures var rows := ProcessEvent(ExampleEvent, window, sqrt);
      && |rows| == 2
      && rows[0].position == Position(0.0, 0.0, 0.0)
      && rows[1].position == Position(100.0, 0.0, 50.0)
  {
    hide *;
    var ph := ExampleEvent;
    ExampleEventKeys();
    ExampleEventPlaces();
    var a, b := SensorKey(1, 1), SensorKey(2, 1);
    RowPosition(ph, window, sqrt, 0);
    var i0 :| 0 <= i0 < |ph.t| && Keys(ph)[i0] == a && (forall i' :: 0 <= i' < i0 ==> Keys(ph)[i'] != a)
      && ProcessEvent(ph, window, sqrt)[0].position == Position(ph.posX[i0], ph.posY[i0], ph.posZ[i0]);
    assert Keys(ph)[0] == a;
    assert i0 == 0;
    RowPosition(ph, window, sqrt, 1);
    var i1 :| 0 <= i1 < |ph.t| && Keys(ph)[i1] == b && (forall i' :: 0 <= i' < i1 ==> Keys(ph)[i'] != b)
      && ProcessEvent(ph, window, sqrt)[1].position == Position(ph.posX[i1], ph.posY[i1], ph.posZ[i1]);
    assert Keys(ph)[0] != b && Keys(ph)[1] != b;
    assert i1 == 2;
  }

  lemma ExampleEventPlaces()
    ensures ExampleEvent.posX == [0.0, 0.0, 100.0] && ExampleEvent.posY == [0.0, 0.0, 0.0]
    ensures ExampleEvent.posZ == [0.0, 0.0, 50.0] && |ExampleEvent.t| == 3
    ensures ExampleEvent.charge.None?
  {
  }

  lemma ExampleEventCharges(window: Option<real>, sqrt: real -> real)
    ensures ExampleEvent.WellFormed()
    ensures var rows := ProcessEvent(ExampleEvent, window, sqrt);
      && |rows| == 2
      && rows[0].stats.totalCharge == 2.0
      && rows[1].stats.totalCharge == 1.0
  {
    hide *;
    ExampleEventKeys();
    ExampleEventPlaces();
    ExampleKeyCounts();
    UnitChargeRows(ExampleEvent, window, sqrt, 0);
    UnitChargeRows(ExampleEvent, window, sqrt, 1);
  }

  lemma ExampleKeyCounts()
    ensures multiset([SensorKey(1, 1), SensorKey(1, 1), SensorKey(2, 1)])[SensorKey(1, 1)] == 2
    ensures multiset([SensorKey(1, 1), SensorKey(1, 1), SensorKey(2, 1)])[SensorKey(2, 1)] == 1
  {
  }
}
