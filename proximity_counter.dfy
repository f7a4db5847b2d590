/** The pulse-measurement engine of `proximity_counter.c`: a 16-bit input-capture
    timer with an overflow counter measures the period between rising edges, the
    periods are averaged after the first one, and the RPM derived from them goes
    through a hysteresis filter driven by a table of at most ten thresholds kept
    sorted by insertion sort. Field widths follow `proximity_counter.h`: the
    capture values are 16 bits, the difference, the period sum and the overflow
    count 32 bits, the period count and the stability counter 8 bits; every
    wrap-around is written out. The tick time (`HAL_GetTick`) is a parameter. */
module Proximity {
  import opened Bytes

  const U32: nat := 0x1_0000_0000

  /** `PROXIMITY_HYSTERESIS_TABLE_SIZE`. */
  const TableCapacity: nat := 10

  /** The threshold the filter uses when no table entry applies. */
  const DefaultThreshold: int := 50

  /** Readings within the threshold needed before the filter starts to follow. */
  const StableReadings: nat := 10

  /** `PROXIMITY_NO_PULSE_TIMEOUT_MS` and the default averaging window. */
  const NoPulseTimeoutMs: nat := 10000
  const DefaultAveragingSamples: nat := 3

  /** `ProximityHysteresisEntry_t`: two 16-bit fields. */
  datatype Entry = Entry(rpmThreshold: nat, hysteresis: nat)

  predicate EntryFits(e: Entry) {
    e.rpmThreshold < 0x1_0000 && e.hysteresis < 0x1_0000
  }

  predicate SortedByThreshold(s: seq<Entry>) {
    forall p, q :: 0 <= p < q < |s| ==> s[p].rpmThreshold <= s[q].rpmThreshold
  }

  /** The table `ProximityCounter_InitDefaultHysteresis` writes. */
  const DefaultTable: seq<Entry> :=
    [Entry(0, 5), Entry(100, 10), Entry(500, 20), Entry(800, 30), Entry(1100, 50)]

  // ---------------------------------------------------------------- the filter

  /** C's `a / 4` on `int`: the quotient truncated toward zero, so the remainder
      has the sign of the dividend. */
  function Quarter(a: int): (q: int)
    ensures a >= 0 ==> 0 <= a - 4 * q < 4
    ensures a < 0 ==> 0 <= 4 * q - a < 4
  {
    if a >= 0 then a / 4 else -((-a) / 4)
  }

  function Abs(x: int): nat {
    if x < 0 then -x else x
  }

  /** The index of the last of the first `n` entries whose threshold `rpm`
      reaches: the entry at which the downward scan of the filter stops. */
  function LastReached(tbl: seq<Entry>, n: nat, rpm: int): (r: Option<nat>)
    requires n <= |tbl|
    ensures r.Some? ==>
      r.value < n && rpm >= tbl[r.value].rpmThreshold && (forall j :: r.value < j < n ==> rpm < tbl[j].rpmThreshold)
    ensures r.None? ==> forall j :: 0 <= j < n ==> rpm < tbl[j].rpmThreshold
    decreases n
  {
    if n == 0 then None
    else if rpm >= tbl[n - 1].rpmThreshold then Some(n - 1)
    else LastReached(tbl, n - 1, rpm)
  }

  /** The hysteresis of that entry, or 50 when `rpm` reaches no threshold. */
  function Threshold(tbl: seq<Entry>, n: nat, rpm: int): int
    requires n <= |tbl|
  {
    match LastReached(tbl, n, rpm)
    case None => DefaultThreshold
    case Some(i) => tbl[i].hysteresis
  }

  /** On a sorted table the entry found is the one with the highest threshold that
      `rpm` reaches. */
  lemma SortedThreshold(tbl: seq<Entry>, n: nat, rpm: int, j: nat)
    requires n <= |tbl| && SortedByThreshold(tbl[..n]) && j < n && rpm >= tbl[j].rpmThreshold
    ensures LastReached(tbl, n, rpm).Some?
    ensures tbl[j].rpmThreshold <= tbl[LastReached(tbl, n, rpm).value].rpmThreshold
  {
    var i := LastReached(tbl, n, rpm).value;
    assert tbl[..n][j] == tbl[j] && tbl[..n][i] == tbl[i];
  }

  /** The thresholds of the default table, band by band; a negative reading
      reaches no entry and gets the default 50. */
  lemma DefaultThresholds(rpm: int)
    ensures rpm < 0 ==> Threshold(DefaultTable, 5, rpm) == 50
    ensures 0 <= rpm < 100 ==> Threshold(DefaultTable, 5, rpm) == 5
    ensures 100 <= rpm < 500 ==> Threshold(DefaultTable, 5, rpm) == 10
    ensures 500 <= rpm < 800 ==> Threshold(DefaultTable, 5, rpm) == 20
    ensures 800 <= rpm < 1100 ==> Threshold(DefaultTable, 5, rpm) == 30
    ensures 1100 <= rpm ==> Threshold(DefaultTable, 5, rpm) == 50
  {
  }

  /** The filter's result and the stability counter it leaves. */
  datatype Filtered = Filtered(rpm: int, stability: nat)

  /** `ProximityCounter_ApplyHysteresisFilter`: a reading within the threshold of
      the previous one bumps the 8-bit stability counter and keeps the previous
      value, or, from the tenth such reading on, moves a quarter of the way
      (truncated) toward the new one; a reading further away is taken as it is
      and clears the counter. */
  function Filter(tbl: seq<Entry>, n: nat, newRpm: int, prevRpm: int, stability: nat): Filtered
    requires n <= |tbl|
  {
    if Abs(newRpm - prevRpm) <= Threshold(tbl, n, newRpm) then
      var s := (stability + 1) % 256;
      Filtered(if s >= StableReadings then prevRpm + Quarter(newRpm - prevRpm) else prevRpm, s)
    else
      Filtered(newRpm, 0)
  }

  /** The filtered value always lies between the previous and the new reading,
      and a reading within the threshold moves it by at most a quarter of the
      distance. */
  lemma FilterBetween(tbl: seq<Entry>, n: nat, newRpm: int, prevRpm: int, stability: nat)
    requires n <= |tbl|
    ensures var f := Filter(tbl, n, newRpm, prevRpm, stability);
      (prevRpm <= newRpm ==> prevRpm <= f.rpm <= newRpm) &&
      (newRpm <= prevRpm ==> newRpm <= f.rpm <= prevRpm) &&
      (Abs(newRpm - prevRpm) <= Threshold(tbl, n, newRpm) ==> 4 * Abs(f.rpm - prevRpm) <= Abs(newRpm - prevRpm))
  {
  }

  /** Within the threshold the counter counts readings modulo 256 and the value
      stays put until the tenth; outside it the reading wins and the count
      restarts. */
  lemma FilterStability(tbl: seq<Entry>, n: nat, newRpm: int, prevRpm: int, stability: nat)
    requires n <= |tbl| && stability < 256
    ensures var f := Filter(tbl, n, newRpm, prevRpm, stability);
      var within := Abs(newRpm - prevRpm) <= Threshold(tbl, n, newRpm);
      f.stability < 256 &&
      (within ==> f.stability == (stability + 1) % 256 && (f.stability < StableReadings ==> f.rpm == prevRpm)) &&
      (!within ==> f == Filtered(newRpm, 0))
  {
  }

  // ---------------------------------------------------------------- the runtime state

  /** The runtime fields of `ProximityCounter_t`. `rpm` is a float in the source;
      here it holds the integer the filter produced. `isFirstCaptured`,
      `newCaptureReady` and `firstMeasurement` only ever hold 0 or 1. */
  datatype Runtime = Runtime(
    rpm: int,
    lastCaptureTime: nat,
    icVal1: nat,
    icVal2: nat,
    difference: nat,
    isFirstCaptured: bool,
    overflowCount: nat,
    newCaptureReady: bool,
    periodSum: nat,
    periodCount: nat,
    firstMeasurement: bool,
    rpmPrevious: int,
    stabilityCounter: nat)

  /** Every field within its C width. */
  predicate RuntimeFits(r: Runtime) {
    r.lastCaptureTime < U32 && r.icVal1 < 0x1_0000 && r.icVal2 < 0x1_0000 && r.difference < U32 &&
    r.overflowCount < U32 && r.periodSum < U32 && r.periodCount < 256 && r.stabilityCounter < 256
  }

  /** `ProximityCounter_Reset`: everything zero, the next period is a first
      measurement, and the timestamp is now. */
  function ResetState(now: nat): (r: Runtime)
    ensures !r.isFirstCaptured && !r.newCaptureReady && r.firstMeasurement
  {
    Runtime(0, now, 0, 0, 0, false, 0, false, 0, 0, true, 0, 0)
  }

  /** The tick distance of the second edge: the overflows times 65536 plus the
      second capture minus the first, in 32-bit unsigned arithmetic. */
  function Distance(overflows: nat, ic1: nat, ic2: nat): (d: nat)
    ensures d < U32
    ensures 0 <= overflows * 0x1_0000 + ic2 - ic1 < U32 ==> d == overflows * 0x1_0000 + ic2 - ic1
  {
    (overflows * 0x1_0000 + ic2 - ic1) % U32
  }

  /** The period accounting of a second edge with distance `d`. */
  function Account(r: Runtime, samples: nat, d: nat): Runtime
    requires samples >= 1
  {
    if r.firstMeasurement then
      r.(difference := d, newCaptureReady := true, firstMeasurement := false)
    else
      var sum := (r.periodSum + d) % U32;
      var count := (r.periodCount + 1) % 256;
      if count >= samples then
        r.(difference := sum / count, newCaptureReady := true, periodSum := 0, periodCount := 0)
      else
        r.(difference := d, periodSum := sum, periodCount := count)
  }

  /** `ProximityCounter_HandleCapture` on a channel-1 capture of the counter's own
      timer with value `captured` at tick `now`. */
  function Capture(r: Runtime, samples: nat, captured: nat, now: nat): Runtime
    requires samples >= 1
  {
    if !r.isFirstCaptured then
      r.(icVal1 := captured, isFirstCaptured := true, overflowCount := 0, lastCaptureTime := now)
    else
      var d := Distance(r.overflowCount, r.icVal1, captured);
      Account(r.(icVal2 := captured), samples, d).(lastCaptureTime := now, icVal1 := captured, overflowCount := 0)
  }

  /** `ProximityCounter_HandleOverflow` on the counter's own timer. */
  function Overflow(r: Runtime): Runtime {
    if r.isFirstCaptured then r.(overflowCount := (r.overflowCount + 1) % U32) else r
  }

  /** No edge for longer than the timeout: `now - last_capture_time` in 32 bits. */
  predicate TimedOut(r: Runtime, now: nat, timeout: nat) {
    (now - r.lastCaptureTime) % U32 > timeout
  }

  /** `ProximityCounter_CheckTimeout`. */
  function Timeout(r: Runtime, now: nat, timeout: nat): Runtime {
    if TimedOut(r, now, timeout) then
      r.(rpm := 0, firstMeasurement := true, periodSum := 0, periodCount := 0, isFirstCaptured := false,
         rpmPrevious := 0, stabilityCounter := 0)
    else r
  }

  /** `ProximityCounter_ProcessCapture` with the integer reading `rpmRaw` derived
      from the period. */
  function Process(r: Runtime, tbl: seq<Entry>, n: nat, rpmRaw: int): Runtime
    requires n <= |tbl|
  {
    if !r.newCaptureReady then r
    else if r.difference > 0 then
      var f := Filter(tbl, n, rpmRaw, r.rpmPrevious, r.stabilityCounter);
      r.(newCaptureReady := false, rpm := f.rpm, rpmPrevious := f.rpm, stabilityCounter := f.stability)
    else r.(newCaptureReady := false)
  }

  /** A capture keeps every field within its width: the mean of a window is at
      most its sum. */
  lemma CaptureFits(r: Runtime, samples: nat, captured: nat, now: nat)
    requires RuntimeFits(r) && samples >= 1 && captured < 0x1_0000 && now < U32
    ensures RuntimeFits(Capture(r, samples, captured, now))
  {
    if r.isFirstCaptured && !r.firstMeasurement {
      var sum := (r.periodSum + Distance(r.overflowCount, r.icVal1, captured)) % U32;
      var count := (r.periodCount + 1) % 256;
      if count >= samples {
        MeanAtMostSum(sum, count);
      }
    }
  }

  /** The mean of a window is at most its sum. */
  lemma MeanAtMostSum(sum: nat, count: nat)
    requires count >= 1
    ensures sum / count <= sum
  {
  }

  /** Processing keeps every field within its width: the filter's counter is 8
      bits. */
  lemma ProcessFits(r: Runtime, tbl: seq<Entry>, n: nat, rpmRaw: int)
    requires RuntimeFits(r) && n <= |tbl|
    ensures RuntimeFits(Process(r, tbl, n, rpmRaw))
  {
    if r.newCaptureReady && r.difference > 0 {
      FilterStability(tbl, n, rpmRaw, r.rpmPrevious, r.stabilityCounter);
    }
  }

  /** The first edge arms the measurement from the captured value and produces no
      reading; overflows count only while armed. */
  lemma FirstEdgeArms(r: Runtime, samples: nat, captured: nat, now: nat)
    requires samples >= 1 && !r.isFirstCaptured
    ensures var r' := Capture(r, samples, captured, now);
      r'.isFirstCaptured && r'.icVal1 == captured && r'.overflowCount == 0 &&
      r'.newCaptureReady == r.newCaptureReady && r'.difference == r.difference
    ensures Overflow(r) == r
  {
  }

  /** The second edge measures the true tick distance whenever it fits 32 bits,
      and the next period starts at this edge with no overflows. */
  lemma SecondEdgeMeasures(r: Runtime, samples: nat, captured: nat, now: nat)
    requires samples >= 1 && r.isFirstCaptured && r.firstMeasurement
    requires 0 <= r.overflowCount * 0x1_0000 + captured - r.icVal1 < U32
    ensures var r' := Capture(r, samples, captured, now);
      r'.difference == r.overflowCount * 0x1_0000 + captured - r.icVal1 &&
      r'.newCaptureReady && !r'.firstMeasurement &&
      r'.isFirstCaptured && r'.icVal1 == captured && r'.overflowCount == 0 && r'.lastCaptureTime == now
  {
  }

  /** Two overflows between captures 60000 and 1000 are 72072 ticks. */
  lemma DistanceExample()
    ensures Distance(2, 60000, 1000) == 72072
  {
  }

  /** After the first period, periods are summed until the count reaches the
      window; then the reading is their truncated mean and the window restarts. */
  lemma AveragingWindow(r: Runtime, samples: nat, captured: nat, now: nat)
    requires samples >= 1 && r.isFirstCaptured && !r.firstMeasurement && RuntimeFits(r)
    ensures var d := Distance(r.overflowCount, r.icVal1, captured);
      var r' := Capture(r, samples, captured, now);
      var sum := (r.periodSum + d) % U32;
      var count := (r.periodCount + 1) % 256;
      (count >= samples ==>
        count >= 1 && r'.difference == sum / count && r'.newCaptureReady && r'.periodSum == 0 && r'.periodCount == 0) &&
      (count < samples ==>
        r'.periodSum == sum && r'.periodCount == count && r'.newCaptureReady == r.newCaptureReady)
  {
  }

  /** With a window of 1 to 255 samples the period count stays below the window:
      every handler keeps it so. */
  lemma PeriodCountBelowWindow(r: Runtime, samples: nat, captured: nat, now: nat, timeout: nat, tbl: seq<Entry>, n: nat, rpmRaw: int)
    requires 1 <= samples <= 255 && r.periodCount < samples && n <= |tbl|
    ensures Capture(r, samples, captured, now).periodCount < samples
    ensures Overflow(r).periodCount < samples
    ensures Timeout(r, now, timeout).periodCount < samples
    ensures Process(r, tbl, n, rpmRaw).periodCount < samples
    ensures ResetState(now).periodCount < samples
  {
  }

  /** A timeout clears the reading, the averaging and the filter history, and
      disarms, so the next edge starts afresh and the one after it is a first
      measurement; a second check at the same tick changes nothing more. */
  lemma TimeoutRestarts(r: Runtime, now: nat, timeout: nat)
    ensures var r' := Timeout(r, now, timeout);
      Timeout(r', now, timeout) == r' &&
      (TimedOut(r, now, timeout) ==>
        r'.rpm == 0 && r'.rpmPrevious == 0 && r'.stabilityCounter == 0 && r'.periodSum == 0 &&
        r'.periodCount == 0 && !r'.isFirstCaptured && r'.firstMeasurement) &&
      (!TimedOut(r, now, timeout) ==> r' == r)
  {
  }

  /** Processing consumes the ready flag; a reading updates the value and the
      filter history together. */
  lemma ProcessConsumes(r: Runtime, tbl: seq<Entry>, n: nat, rpmRaw: int)
    requires n <= |tbl|
    ensures var r' := Process(r, tbl, n, rpmRaw);
      !r'.newCaptureReady &&
      (r.newCaptureReady && r.difference > 0 ==>
        r'.rpm == r'.rpmPrevious == Filter(tbl, n, rpmRaw, r.rpmPrevious, r.stabilityCounter).rpm) &&
      (!(r.newCaptureReady && r.difference > 0) ==> r'.rpm == r.rpm && r'.rpmPrevious == r.rpmPrevious)
  {
  }

  // ---------------------------------------------------------------- insertion sort

  /** Equal multisets and equal tails give equal multisets of the heads. */
  lemma PrefixMultiset(x: seq<Entry>, y: seq<Entry>, n: nat)
    requires n <= |x| == |y| && multiset(x) == multiset(y) && x[n..] == y[n..]
    ensures multiset(x[..n]) == multiset(y[..n])
  {
    assert x == x[..n] + x[n..];
    assert y == y[..n] + y[n..];
    assert multiset(x) == multiset(x[..n]) + multiset(x[n..]);
    assert multiset(y) == multiset(y[..n]) + multiset(y[n..]);
    forall e
      ensures multiset(x[..n])[e] == multiset(y[..n])[e]
    {
      assert multiset(x)[e] == multiset(y)[e];
    }
  }

  /** `b[i]` moved down to position `j + 1`, the entries in between moved up. */
  function InsertAfter(b: seq<Entry>, i: nat, j: int): (r: seq<Entry>)
    requires i < |b| && -1 <= j < i
    ensures |r| == |b|
  {
    b[..j + 1] + [b[i]] + b[j + 1..i] + b[i + 1..]
  }

  lemma InsertAfterAt(b: seq<Entry>, i: nat, j: int, p: nat)
    requires i < |b| && -1 <= j < i && p < |b|
    ensures InsertAfter(b, i, j)[p] ==
      if p <= j then b[p] else if p == j + 1 then b[i] else if p <= i then b[p - 1] else b[p]
  {
  }

  /** Moving an entry changes no multiset. */
  lemma InsertAfterPermutes(b: seq<Entry>, i: nat, j: int)
    requires i < |b| && -1 <= j < i
    ensures multiset(InsertAfter(b, i, j)) == multiset(b)
    ensures InsertAfter(b, i, j)[i + 1..] == b[i + 1..]
  {
    var x, y, z := b[..j + 1], b[j + 1..i], b[i + 1..];
    assert b == x + y + [b[i]] + z;
    assert InsertAfter(b, i, j) == x + [b[i]] + y + z;
    assert multiset(x + y + [b[i]] + z) == multiset(x) + multiset(y) + multiset([b[i]]) + multiset(z);
    assert multiset(x + [b[i]] + y + z) == multiset(x) + multiset([b[i]]) + multiset(y) + multiset(z);
  }

  /** Inserting `b[i]` after position `j` of the sorted `b[..i]`, where everything
      after `j` is greater and nothing up to `j` is, sorts `b[..i + 1]`. */
  lemma InsertAfterSorts(b: seq<Entry>, i: nat, j: int)
    requires i < |b| && -1 <= j < i && SortedByThreshold(b[..i])
    requires j == -1 || b[j].rpmThreshold <= b[i].rpmThreshold
    requires forall k :: j < k < i ==> b[k].rpmThreshold > b[i].rpmThreshold
    ensures SortedByThreshold(InsertAfter(b, i, j)[..i + 1])
  {
    var r := InsertAfter(b, i, j);
    forall p, q | 0 <= p < q < i + 1
      ensures r[p].rpmThreshold <= r[q].rpmThreshold
    {
      InsertAfterAt(b, i, j, p);
      InsertAfterAt(b, i, j, q);
      if p <= j {
        assert b[..i][p] == b[p] && b[..i][j] == b[j];
        if q <= j {
          assert b[..i][q] == b[q];
        } else if q > j + 1 {
          assert b[..i][q - 1] == b[q - 1];
        }
      } else if p > j + 1 {
        assert b[..i][p - 1] == b[p - 1] && b[..i][q - 1] == b[q - 1];
      }
    }
  }

  /** The entries of `s` whose threshold is `k`, in their order in `s`. */
  function WithThreshold(s: seq<Entry>, k: nat): seq<Entry> {
    if |s| == 0 then []
    else (if s[0].rpmThreshold == k then [s[0]] else []) + WithThreshold(s[1..], k)
  }

  /** `r` keeps the entries of `s` that share a threshold in the order they have
      in `s`: the sort is stable. */
  ghost predicate TiesInOrder(r: seq<Entry>, s: seq<Entry>) {
    forall k :: WithThreshold(r, k) == WithThreshold(s, k)
  }

  lemma {:induction false} WithThresholdAppend(x: seq<Entry>, y: seq<Entry>, k: nat)
    ensures WithThreshold(x + y, k) == WithThreshold(x, k) + WithThreshold(y, k)
  {
    if |x| == 0 {
      assert x + y == y;
    } else {
      var h := if x[0].rpmThreshold == k then [x[0]] else [];
      assert (x + y)[0] == x[0] && (x + y)[1..] == x[1..] + y;
      WithThresholdAppend(x[1..], y, k);
      calc {
        WithThreshold(x + y, k);
        h + WithThreshold(x[1..] + y, k);
        h + (WithThreshold(x[1..], k) + WithThreshold(y, k));
        (h + WithThreshold(x[1..], k)) + WithThreshold(y, k);
      }
    }
  }

  lemma {:induction false} WithThresholdNone(y: seq<Entry>, k: nat)
    requires forall p :: 0 <= p < |y| ==> y[p].rpmThreshold != k
    ensures WithThreshold(y, k) == []
  {
    if |y| != 0 {
      WithThresholdNone(y[1..], k);
    }
  }

  lemma WithThresholdFour(w: seq<Entry>, x: seq<Entry>, y: seq<Entry>, z: seq<Entry>, k: nat)
    ensures WithThreshold(w + x + y + z, k) ==
      WithThreshold(w, k) + WithThreshold(x, k) + WithThreshold(y, k) + WithThreshold(z, k)
  {
    WithThresholdAppend(w + x + y, z, k);
    WithThresholdAppend(w + x, y, k);
    WithThresholdAppend(w, x, k);
  }

  /** Moving `b[i]` down past entries of greater threshold keeps ties in order. */
  lemma InsertAfterKeepsTies(b: seq<Entry>, i: nat, j: int)
    requires i < |b| && -1 <= j < i
    requires forall k :: j < k < i ==> b[k].rpmThreshold > b[i].rpmThreshold
    ensures TiesInOrder(InsertAfter(b, i, j), b)
  {
    var x, y, e, z := b[..j + 1], b[j + 1..i], [b[i]], b[i + 1..];
    assert b == x + y + e + z;
    assert InsertAfter(b, i, j) == x + e + y + z;
    forall k: nat
      ensures WithThreshold(x + e + y + z, k) == WithThreshold(x + y + e + z, k)
    {
      SwapKeepsTies(x, y, b[i], z, k);
    }
  }

  /** Swapping an entry with a run of entries of greater threshold changes no
      filtered sequence. */
  lemma SwapKeepsTies(x: seq<Entry>, y: seq<Entry>, v: Entry, z: seq<Entry>, k: nat)
    requires forall p :: 0 <= p < |y| ==> y[p].rpmThreshold > v.rpmThreshold
    ensures WithThreshold(x + [v] + y + z, k) == WithThreshold(x + y + [v] + z, k)
  {
    WithThresholdFour(x, [v], y, z, k);
    WithThresholdFour(x, y, [v], z, k);
    if k == v.rpmThreshold {
      WithThresholdNone(y, k);
    } else {
      assert WithThreshold([v], k) == [];
    }
  }

  /** Equal tails and ties in order over the whole give ties in order over the
      heads. */
  lemma PrefixTies(x: seq<Entry>, y: seq<Entry>, n: nat)
    requires n <= |x| == |y| && TiesInOrder(x, y) && x[n..] == y[n..]
    ensures TiesInOrder(x[..n], y[..n])
  {
    forall k: nat
      ensures WithThreshold(x[..n], k) == WithThreshold(y[..n], k)
    {
      assert x == x[..n] + x[n..] && y == y[..n] + y[n..];
      WithThresholdAppend(x[..n], x[n..], k);
      WithThresholdAppend(y[..n], y[n..], k);
      var hx, hy, t := WithThreshold(x[..n], k), WithThreshold(y[..n], k), WithThreshold(x[n..], k);
      assert hx + t == hy + t;
      assert hx == (hx + t)[..|hx|] && hy == (hy + t)[..|hy|];
    }
  }

  /** What one insertion step achieves. */
  lemma InsertAfterProperties(b: seq<Entry>, i: nat, j: int, r: seq<Entry>)
    requires i < |b| && -1 <= j < i && SortedByThreshold(b[..i]) && r == InsertAfter(b, i, j)
    requires j == -1 || b[j].rpmThreshold <= b[i].rpmThreshold
    requires forall k :: j < k < i ==> b[k].rpmThreshold > b[i].rpmThreshold
    ensures SortedByThreshold(r[..i + 1]) && multiset(r) == multiset(b) && TiesInOrder(r, b)
    ensures r[i + 1..] == b[i + 1..]
  {
    InsertAfterSorts(b, i, j);
    InsertAfterPermutes(b, i, j);
    InsertAfterKeepsTies(b, i, j);
  }

  /** One pass of the outer loop: `a[i]` moves down past the greater entries. */
  method Insert(a: array<Entry>, i: nat)
    requires 0 < i < a.Length && SortedByThreshold(a[..i])
    modifies a
    ensures SortedByThreshold(a[..i + 1]) && multiset(a[..]) == multiset(old(a[..]))
    ensures TiesInOrder(a[..], old(a[..]))
    ensures a[i + 1..] == old(a[i + 1..])
  {
    ghost var b := a[..];
    var key := a[i];
    var j: int := i - 1;
    while j >= 0 && a[j].rpmThreshold > key.rpmThreshold
      invariant -1 <= j < i
      invariant forall k :: 0 <= k <= j ==> a[k] == b[k]
      invariant forall k :: j + 2 <= k <= i ==> a[k] == b[k - 1]
      invariant forall k :: i < k < a.Length ==> a[k] == b[k]
      invariant forall k :: j < k < i ==> b[k].rpmThreshold > key.rpmThreshold
      decreases j
    {
      a[j + 1] := a[j];
      j := j - 1;
    }
    a[j + 1] := key;
    forall p | 0 <= p < a.Length
      ensures a[p] == InsertAfter(b, i, j)[p]
    {
      InsertAfterAt(b, i, j, p);
    }
    assert a[..] == InsertAfter(b, i, j);
    InsertAfterProperties(b, i, j, a[..]);
  }

  /** The outer loop of `ProximityCounter_SetHysteresisEntry` over `a[..n]`. */
  method InsertionSort(a: array<Entry>, n: nat)
    requires 1 <= n <= a.Length
    modifies a
    ensures SortedByThreshold(a[..n]) && multiset(a[..n]) == multiset(old(a[..n]))
    ensures TiesInOrder(a[..n], old(a[..n]))
    ensures a[n..] == old(a[n..])
  {
    for i := 1 to n
      invariant SortedByThreshold(a[..i]) && multiset(a[..]) == multiset(old(a[..]))
      invariant TiesInOrder(a[..], old(a[..]))
      invariant a[n..] == old(a[n..])
    {
      Insert(a, i);
    }
    PrefixMultiset(a[..], old(a[..]), n);
    PrefixTies(a[..], old(a[..]), n);
  }

  // ---------------------------------------------------------------- the counter

  /** `ProximityCounterConfig_t` without the diameter. */
  datatype Config = Config(ppr: nat, timeoutMs: nat, averagingSamples: nat)

  /** `ProximityCounter_t`: the configuration, the hysteresis table, and the
      runtime section of the structure held as one `Runtime` record, which the
      interrupt handlers and the processing step update in place. */
  class ProximityCounter {
    var ppr: nat
    var timeoutMs: nat
    var averagingSamples: nat
    const table: array<Entry>
    var tableSize: nat
    var runtime: Runtime

    ghost predicate Valid()
      reads this
    {
      table.Length == TableCapacity && tableSize <= TableCapacity &&
      1 <= ppr < U32 && 1 <= timeoutMs < U32 && 1 <= averagingSamples < U32 && RuntimeFits(runtime)
    }

    /** `ProximityCounter_Init`: the structure cleared, the configuration with 0
        replaced by its default (1 pulse per revolution, 10 s, 3 samples), the
        default table, a first measurement pending, and the timestamp now. */
    constructor (config: Config, now: nat)
      requires config.ppr < U32 && config.timeoutMs < U32 && config.averagingSamples < U32 && now < U32
      ensures Valid() && fresh(table)
      ensures ppr == (if config.ppr > 0 then config.ppr else 1)
      ensures timeoutMs == (if config.timeoutMs > 0 then config.timeoutMs else NoPulseTimeoutMs)
      ensures averagingSamples == (if config.averagingSamples > 0 then config.averagingSamples else DefaultAveragingSamples)
      ensures table[..tableSize] == DefaultTable && SortedByThreshold(table[..tableSize])
      ensures runtime == ResetState(now)
    {
      ppr := if config.ppr > 0 then config.ppr else 1;
      timeoutMs := if config.timeoutMs > 0 then config.timeoutMs else NoPulseTimeoutMs;
      averagingSamples := if config.averagingSamples > 0 then config.averagingSamples else DefaultAveragingSamples;
      table := new Entry[TableCapacity](_ => Entry(0, 0));
      tableSize := 0;
      runtime := Runtime(0, now, 0, 0, 0, false, 0, false, 0, 0, true, 0, 0);
      new;
      InitDefaultHysteresis();
    }

    /** `ProximityCounter_InitDefaultHysteresis`: five entries, sorted. */
    method InitDefaultHysteresis()
      requires table.Length == TableCapacity
      modifies table, this`tableSize
      ensures tableSize == 5
      ensures table[..tableSize] == DefaultTable && SortedByThreshold(table[..tableSize])
      ensures table[tableSize..] == old(table[5..])
    {
      table[0] := Entry(0, 5);
      table[1] := Entry(100, 10);
      table[2] := Entry(500, 20);
      table[3] := Entry(800, 30);
      table[4] := Entry(1100, 50);
      tableSize := 5;
    }

    /** `ProximityCounter_Reset`. */
    method Reset(now: nat)
      requires Valid() && now < U32
      modifies this`runtime
      ensures Valid() && runtime == ResetState(now)
    {
      var r := runtime;
      r := r.(rpm := 0, icVal1 := 0, icVal2 := 0, difference := 0);
      r := r.(isFirstCaptured := false, overflowCount := 0, newCaptureReady := false);
      r := r.(periodSum := 0, periodCount := 0, firstMeasurement := true);
      r := r.(rpmPrevious := 0, stabilityCounter := 0);
      r := r.(lastCaptureTime := now);
      runtime := r;
    }

    /** `ProximityCounter_UpdateConfig`: a pulse count of 0 becomes 1, then a reset. */
    method UpdateConfig(newPpr: nat, now: nat)
      requires Valid() && newPpr < U32 && now < U32
      modifies this`ppr, this`runtime
      ensures Valid() && ppr == (if newPpr > 0 then newPpr else 1) && runtime == ResetState(now)
    {
      ppr := if newPpr > 0 then newPpr else 1;
      Reset(now);
    }

    /** `ProximityCounter_SetPPR`: 0 is ignored. */
    method SetPPR(newPpr: nat)
      requires Valid() && newPpr < U32
      modifies this`ppr
      ensures Valid() && ppr == (if newPpr == 0 then old(ppr) else newPpr)
    {
      if newPpr == 0 {
        return;
      }
      ppr := newPpr;
    }

    /** `ProximityCounter_SetTimeout`: 0 is ignored. */
    method SetTimeout(t: nat)
      requires Valid() && t < U32
      modifies this`timeoutMs
      ensures Valid() && timeoutMs == (if t == 0 then old(timeoutMs) else t)
    {
      if t == 0 {
        return;
      }
      timeoutMs := t;
    }

    /** `ProximityCounter_HandleCapture`; `ours` says the callback came from this
        counter's timer on channel 1, the only case that does anything. */
    method HandleCapture(ours: bool, captured: nat, now: nat)
      requires Valid() && captured < 0x1_0000 && now < U32
      modifies this`runtime
      ensures Valid()
      ensures runtime == if ours then Capture(old(runtime), averagingSamples, captured, now) else old(runtime)
    {
      if !ours {
        return;
      }
      CaptureFits(runtime, averagingSamples, captured, now);
      var r := runtime;
      if !r.isFirstCaptured {
        r := r.(icVal1 := captured);
        r := r.(isFirstCaptured := true);
        r := r.(overflowCount := 0);
        r := r.(lastCaptureTime := now);
      } else {
        r := r.(icVal2 := captured);
        r := r.(difference := (r.overflowCount * 0x1_0000 + r.icVal2 - r.icVal1) % U32);
        if r.firstMeasurement {
          r := r.(newCaptureReady := true);
          r := r.(firstMeasurement := false);
        } else {
          r := r.(periodSum := (r.periodSum + r.difference) % U32);
          r := r.(periodCount := (r.periodCount + 1) % 256);
          if r.periodCount >= averagingSamples {
            r := r.(difference := r.periodSum / r.periodCount);
            r := r.(newCaptureReady := true);
            r := r.(periodSum := 0);
            r := r.(periodCount := 0);
          }
        }
        r := r.(lastCaptureTime := now);
        r := r.(icVal1 := r.icVal2);
        r := r.(overflowCount := 0);
      }
      runtime := r;
    }

    /** `ProximityCounter_HandleOverflow`; `ours` as for captures. */
    method HandleOverflow(ours: bool)
      requires Valid()
      modifies this`runtime
      ensures Valid() && runtime == if ours then Overflow(old(runtime)) else old(runtime)
    {
      if ours && runtime.isFirstCaptured {
        runtime := runtime.(overflowCount := (runtime.overflowCount + 1) % U32);
      }
    }

    /** `ProximityCounter_CheckTimeout` at tick `now`. */
    method CheckTimeout(now: nat)
      requires Valid()
      modifies this`runtime
      ensures Valid() && runtime == Timeout(old(runtime), now, timeoutMs)
    {
      var r := runtime;
      if (now - r.lastCaptureTime) % U32 > timeoutMs {
        r := r.(rpm := 0);
        r := r.(firstMeasurement := true);
        r := r.(periodSum := 0);
        r := r.(periodCount := 0);
        r := r.(isFirstCaptured := false);
        r := r.(rpmPrevious := 0);
        r := r.(stabilityCounter := 0);
      }
      runtime := r;
    }

    /** `ProximityCounter_ProcessCapture` with the integer reading `rpmRaw`. */
    method ProcessCapture(rpmRaw: int)
      requires Valid()
      modifies this`runtime
      ensures Valid() && runtime == Process(old(runtime), table[..], tableSize, rpmRaw)
    {
      if !runtime.newCaptureReady {
        return;
      }
      runtime := runtime.(newCaptureReady := false);
      if runtime.difference > 0 {
        var v := ApplyHysteresisFilter(rpmRaw, runtime.rpmPrevious);
        runtime := runtime.(rpm := v);
        runtime := runtime.(rpmPrevious := runtime.rpm);
      }
    }

    /** `ProximityCounter_ApplyHysteresisFilter`: the downward scan for the
        threshold, then the filter step on the stability counter. */
    method ApplyHysteresisFilter(newRpm: int, prevRpm: int) returns (v: int)
      requires table.Length == TableCapacity && tableSize <= TableCapacity && runtime.stabilityCounter < 256
      modifies this`runtime
      ensures Filtered(v, runtime.stabilityCounter) == Filter(table[..], tableSize, newRpm, prevRpm, old(runtime.stabilityCounter))
      ensures runtime == old(runtime).(stabilityCounter := runtime.stabilityCounter)
    {
      var threshold := DefaultThreshold;
      var i: int := tableSize - 1;
      while i >= 0
        invariant -1 <= i < tableSize
        invariant LastReached(table[..], tableSize, newRpm) == LastReached(table[..], i + 1, newRpm)
        invariant threshold == DefaultThreshold
        decreases i
      {
        if newRpm >= table[i].rpmThreshold {
          threshold := table[i].hysteresis;
          break;
        }
        i := i - 1;
      }
      assert threshold == Threshold(table[..], tableSize, newRpm);
      var diff := newRpm - prevRpm;
      if diff < 0 {
        diff := -diff;
      }
      if diff <= threshold {
        runtime := runtime.(stabilityCounter := (runtime.stabilityCounter + 1) % 256);
        if runtime.stabilityCounter >= StableReadings {
          return prevRpm + Quarter(newRpm - prevRpm);
        }
        return prevRpm;
      } else {
        runtime := runtime.(stabilityCounter := 0);
        return newRpm;
      }
    }

    /** `ProximityCounter_SetHysteresisEntry`: an index of 10 or more is ignored;
        otherwise the entry is written, the size grows to cover it, and the first
        `size` entries are insertion-sorted by threshold. */
    method SetHysteresisEntry(index: nat, rpmThreshold: nat, hysteresis: nat)
      requires Valid() && index < 256
      modifies table, this`tableSize
      ensures Valid()
      ensures index >= TableCapacity ==> tableSize == old(tableSize) && table[..] == old(table[..])
      ensures index < TableCapacity ==>
        var written := old(table[..])[index := Entry(rpmThreshold, hysteresis)];
        tableSize == (if index < old(tableSize) then old(tableSize) else index + 1) &&
        SortedByThreshold(table[..tableSize]) &&
        multiset(table[..tableSize]) == multiset(written[..tableSize]) &&
        TiesInOrder(table[..tableSize], written[..tableSize]) &&
        table[tableSize..] == written[tableSize..]
    {
      if index >= TableCapacity {
        return;
      }
      table[index] := Entry(rpmThreshold, hysteresis);
      if index >= tableSize {
        tableSize := index + 1;
      }
      InsertionSort(table, tableSize);
    }

    /** `ProximityCounter_GetHysteresisEntry`: fails exactly for an index at or past
        the size. */
    function GetHysteresisEntry(index: nat): (e: Option<Entry>)
      reads this, table
      requires Valid()
      ensures e.None? <==> index >= tableSize
      ensures e.Some? ==> e.value == table[index]
    {
      if index >= tableSize then None else Some(table[index])
    }

    /** `ProximityCounter_GetRPM`. */
    function GetRpm(): (v: int)
      reads this
      ensures v == runtime.rpm
    {
      runtime.rpm
    }
  }
}
