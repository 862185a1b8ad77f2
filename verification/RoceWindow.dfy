/**
  The activity window of sampled RoCE port counters.  Step i leads from sample i-1 to sample i;
  a step is active if it moved at least 64 KiB.  Measurements are exact reals.
 */
module RoceWindow {
  import opened Wrappers

  datatype Sample = Sample(ns: int, rxWords: int, txWords: int)

  datatype Direction = Rx | Tx

  const COUNTER_UNIT_BYTES: int := 4
  const ACTIVE_STEP_BYTES: int := 64 * 1024
  const NS_PER_SECOND: real := 1000000000.0

  function Words(s: Sample, dir: Direction): int {
    if dir == Rx then s.rxWords else s.txWords
  }

  function Delta(samples: seq<Sample>, dir: Direction, i: int): int
    requires 1 <= i < |samples|
  {
    Words(samples[i], dir) - Words(samples[i - 1], dir)
  }

  predicate Active(samples: seq<Sample>, dir: Direction, i: int)
    requires 1 <= i < |samples|
  {
    Delta(samples, dir, i) > 0 && Delta(samples, dir, i) * COUNTER_UNIT_BYTES >= ACTIVE_STEP_BYTES
  }

  /** The first and last active steps are first + 1 and last. */
  predicate WindowOf(samples: seq<Sample>, dir: Direction, first: int, last: int) {
    0 <= first < last < |samples| &&
    Active(samples, dir, first + 1) && Active(samples, dir, last) &&
    (forall i :: 1 <= i < |samples| && Active(samples, dir, i) ==> first < i <= last)
  }

  /** Total duration, and number, of the active steps up to hi. */
  function BusyNs(samples: seq<Sample>, dir: Direction, hi: int): int
    requires 0 <= hi < |samples|
  {
    if hi == 0 then 0
    else BusyNs(samples, dir, hi - 1) + if Active(samples, dir, hi) then samples[hi].ns - samples[hi - 1].ns else 0
  }

  function ActiveCount(samples: seq<Sample>, dir: Direction, hi: int): nat
    requires 0 <= hi < |samples|
  {
    if hi == 0 then 0 else ActiveCount(samples, dir, hi - 1) + if Active(samples, dir, hi) then 1 else 0
  }

  datatype Measurement = Measurement(
    counterBytes: int,
    busySeconds: real,
    activitySpanSeconds: real,
    sampleCount: nat,
    busyIntervalCount: nat)

  datatype Error = TooFewSamples | NoActivity | CounterDecreased | TooFewBytes | InvalidDuration

  /** What the window from first to last is judged to be. */
  function Judge(samples: seq<Sample>, dir: Direction, expectedPayloadBytes: int, first: int, last: int): Result<Measurement, Error>
    requires 0 <= first < last < |samples|
  {
    var bytes := (Words(samples[last], dir) - Words(samples[first], dir)) * COUNTER_UNIT_BYTES;
    var busy := BusyNs(samples, dir, |samples| - 1) as real / NS_PER_SECOND;
    var span := (samples[last].ns - samples[first].ns) as real / NS_PER_SECOND;
    if bytes < 0 then Err(CounterDecreased)
    else if (bytes as real) < expectedPayloadBytes as real * 0.90 then Err(TooFewBytes)
    else if busy <= 0.0 || span <= 0.0 then Err(InvalidDuration)
    else Ok(Measurement(bytes, busy, span, |samples|, ActiveCount(samples, dir, |samples| - 1)))
  }

  method ActiveWindow(samples: seq<Sample>, dir: Direction, expectedPayloadBytes: int) returns (r: Result<Measurement, Error>)
    ensures r == Err(TooFewSamples) <==> |samples| < 2
    ensures r == Err(NoActivity) <==> |samples| >= 2 && forall i :: 1 <= i < |samples| ==> !Active(samples, dir, i)
    ensures r != Err(TooFewSamples) && r != Err(NoActivity) ==>
              exists first, last :: WindowOf(samples, dir, first, last) && r == Judge(samples, dir, expectedPayloadBytes, first, last)
  {
    if |samples| < 2 {
      return Err(TooFewSamples);
    }
    var activeIndices: seq<int> := [];
    var busySeconds := 0.0;
    for index := 1 to |samples|
      invariant forall k :: 0 <= k < |activeIndices| ==> 1 <= activeIndices[k] < index && Active(samples, dir, activeIndices[k])
      invariant forall i :: 1 <= i < index && Active(samples, dir, i) ==>
                              activeIndices != [] && activeIndices[0] <= i <= activeIndices[|activeIndices| - 1]
      invariant |activeIndices| == ActiveCount(samples, dir, index - 1)
      invariant busySeconds == BusyNs(samples, dir, index - 1) as real / NS_PER_SECOND
    {
      var deltaWords := Words(samples[index], dir) - Words(samples[index - 1], dir);
      if deltaWords > 0 && deltaWords * COUNTER_UNIT_BYTES >= ACTIVE_STEP_BYTES {
        assert Active(samples, dir, index);
        activeIndices := activeIndices + [index];
        busySeconds := busySeconds + (samples[index].ns - samples[index - 1].ns) as real / NS_PER_SECOND;
      }
    }
    if activeIndices == [] {
      return Err(NoActivity);
    }
    var first := activeIndices[0] - 1;
    var last := activeIndices[|activeIndices| - 1];
    assert WindowOf(samples, dir, first, last);
    var deltaWords := Words(samples[last], dir) - Words(samples[first], dir);
    if deltaWords < 0 {
      return Err(CounterDecreased);
    }
    var counterBytes := deltaWords * COUNTER_UNIT_BYTES;
    if (counterBytes as real) < expectedPayloadBytes as real * 0.90 {
      return Err(TooFewBytes);
    }
    var activitySpanSeconds := (samples[last].ns - samples[first].ns) as real / NS_PER_SECOND;
    if busySeconds <= 0.0 || activitySpanSeconds <= 0.0 {
      return Err(InvalidDuration);
    }
    r := Ok(Measurement(counterBytes, busySeconds, activitySpanSeconds, |samples|, |activeIndices|));
  }

  // ----- The window -----

  /** There is one window, and it is the smallest range that contains every active step. */
  lemma WindowIsSmallest(samples: seq<Sample>, dir: Direction, first: int, last: int, lo: int, hi: int)
    requires WindowOf(samples, dir, first, last)
    requires forall i :: 1 <= i < |samples| && Active(samples, dir, i) ==> lo < i <= hi
    ensures lo <= first && last <= hi
    ensures WindowOf(samples, dir, lo, hi) ==> lo == first && hi == last
  {
    assert Active(samples, dir, first + 1) && Active(samples, dir, last);
  }

  // ----- Bytes -----

  function SumDeltas(samples: seq<Sample>, dir: Direction, lo: int, hi: int): int
    requires 0 <= lo <= hi < |samples|
    decreases hi - lo
  {
    if lo == hi then 0 else SumDeltas(samples, dir, lo, hi - 1) + Delta(samples, dir, hi)
  }

  /** The same without the steps on which the counter fell. */
  function SumRises(samples: seq<Sample>, dir: Direction, lo: int, hi: int): int
    requires 0 <= lo <= hi < |samples|
    decreases hi - lo
  {
    if lo == hi then 0
    else SumRises(samples, dir, lo, hi - 1) + if Delta(samples, dir, hi) > 0 then Delta(samples, dir, hi) else 0
  }

  lemma {:induction false} Telescope(samples: seq<Sample>, dir: Direction, lo: int, hi: int)
    requires 0 <= lo <= hi < |samples|
    ensures SumDeltas(samples, dir, lo, hi) == Words(samples[hi], dir) - Words(samples[lo], dir)
    decreases hi - lo
  {
    if lo < hi {
      Telescope(samples, dir, lo, hi - 1);
    }
  }

  lemma {:induction false} RisesCoverDeltas(samples: seq<Sample>, dir: Direction, lo: int, hi: int)
    requires 0 <= lo <= hi < |samples|
    ensures SumDeltas(samples, dir, lo, hi) <= SumRises(samples, dir, lo, hi)
    ensures SumDeltas(samples, dir, lo, hi) == SumRises(samples, dir, lo, hi) <==>
            forall i :: lo < i <= hi ==> Delta(samples, dir, i) >= 0
    decreases hi - lo
  {
    if lo < hi {
      RisesCoverDeltas(samples, dir, lo, hi - 1);
    }
  }

  /** A step is active exactly if the counter rose by 16384 words or more. */
  lemma ActiveFrom64KiB(samples: seq<Sample>, dir: Direction, i: int)
    requires 1 <= i < |samples|
    ensures Active(samples, dir, i) <==>
            (match dir
             case Rx => samples[i].rxWords - samples[i - 1].rxWords >= 16384
             case Tx => samples[i].txWords - samples[i - 1].txWords >= 16384)
  {
  }

  /** The reported bytes are the telescoped sum of all step deltas in the window.  The decrease
      check sees the ends only: with a counter that falls inside the window the report is silently
      too small, and it equals the bytes that moved exactly when the counter never falls there. */
  lemma ReportedBytes(samples: seq<Sample>, dir: Direction, expected: int, first: int, last: int)
    requires WindowOf(samples, dir, first, last) && Judge(samples, dir, expected, first, last).Ok?
    ensures var bytes := Judge(samples, dir, expected, first, last).value.counterBytes;
            && bytes == SumDeltas(samples, dir, first, last) * COUNTER_UNIT_BYTES
            && bytes <= SumRises(samples, dir, first, last) * COUNTER_UNIT_BYTES
            && (bytes == SumRises(samples, dir, first, last) * COUNTER_UNIT_BYTES <==>
                forall i :: first < i <= last ==> Delta(samples, dir, i) >= 0)
  {
    Telescope(samples, dir, first, last);
    RisesCoverDeltas(samples, dir, first, last);
  }

  /** The active steps up to hi. */
  function ActiveSteps(samples: seq<Sample>, dir: Direction, hi: int): set<int>
    requires 0 <= hi < |samples|
  {
    set i | 1 <= i <= hi && Active(samples, dir, i)
  }

  lemma {:induction false} ActiveCountIsCardinality(samples: seq<Sample>, dir: Direction, hi: int)
    requires 0 <= hi < |samples|
    ensures ActiveCount(samples, dir, hi) == |ActiveSteps(samples, dir, hi)|
    decreases hi
  {
    var upTo := ActiveSteps(samples, dir, hi);
    if hi > 0 {
      ActiveCountIsCardinality(samples, dir, hi - 1);
      var before := ActiveSteps(samples, dir, hi - 1);
      if Active(samples, dir, hi) {
        assert upTo == before + {hi};
      } else {
        assert upTo == before;
      }
    } else {
      assert upTo == {};
    }
  }

  /** What the window is accepted for: the counter must not be lower at its end and must have moved at
      least nine tenths of the expected payload, to the byte, and both durations must be positive
      (on an increasing clock they are); the report then gives the moved bytes, the durations in
      seconds, all samples and the number of active steps. */
  lemma AcceptedFromNineTenths(samples: seq<Sample>, dir: Direction, expected: int, first: int, last: int)
    requires WindowOf(samples, dir, first, last)
    ensures var bytes := 4 * SumDeltas(samples, dir, first, last);
            var r := Judge(samples, dir, expected, first, last);
            var busy := BusyNs(samples, dir, |samples| - 1);
            var span := samples[last].ns - samples[first].ns;
            && (r.Ok? <==> bytes >= 0 && 10 * bytes >= 9 * expected && busy > 0 && span > 0)
            && (IncreasingClock(samples) ==> busy > 0 && span > 0)
            && (r == Err(CounterDecreased) <==> bytes < 0)
            && (r == Err(TooFewBytes) <==> bytes >= 0 && 10 * bytes < 9 * expected)
            && (r.Ok? ==>
                  && r.value.counterBytes == bytes
                  && r.value.sampleCount == |samples|
                  && r.value.busyIntervalCount == |ActiveSteps(samples, dir, |samples| - 1)|
                  && r.value.busySeconds * 1000000000.0 == busy as real
                  && r.value.activitySpanSeconds * 1000000000.0 == span as real)
  {
    Telescope(samples, dir, first, last);
    if IncreasingClock(samples) {
      BusyRateIsNeverLower(samples, dir, expected, first, last);
    }
    ActiveCountIsCardinality(samples, dir, |samples| - 1);
    InSeconds(BusyNs(samples, dir, |samples| - 1));
    InSeconds(samples[last].ns - samples[first].ns);
  }

  lemma InSeconds(ns: int)
    ensures ns as real / NS_PER_SECOND * 1000000000.0 == ns as real
    ensures ns as real / NS_PER_SECOND > 0.0 <==> ns > 0
  {
  }

  /** A reset to zero inside the window that the check accepts: of 60000 words that moved, 40000 are
      reported. */
  lemma ResetIsNotNoticed()
    ensures var samples := [Sample(0, 0, 0), Sample(1, 20000, 0), Sample(2, 0, 0), Sample(3, 40000, 0)];
            && WindowOf(samples, Rx, 0, 3)
            && Judge(samples, Rx, 0, 0, 3).Ok?
            && Judge(samples, Rx, 0, 0, 3).value.counterBytes == 160000
            && SumRises(samples, Rx, 0, 3) * COUNTER_UNIT_BYTES == 240000
  {
  }

  predicate NonDecreasingCounter(samples: seq<Sample>, dir: Direction) {
    forall i :: 1 <= i < |samples| ==> Delta(samples, dir, i) >= 0
  }

  lemma {:induction false} QuietBytes(samples: seq<Sample>, dir: Direction, lo: int, hi: int)
    requires 0 <= lo <= hi < |samples|
    requires forall i :: lo < i <= hi ==> !Active(samples, dir, i)
    ensures SumDeltas(samples, dir, lo, hi) * COUNTER_UNIT_BYTES <= (ACTIVE_STEP_BYTES - COUNTER_UNIT_BYTES) * (hi - lo)
    decreases hi - lo
  {
    if lo < hi {
      QuietBytes(samples, dir, lo, hi - 1);
      var most := ACTIVE_STEP_BYTES - COUNTER_UNIT_BYTES;
      assert most * (hi - lo) == most * (hi - 1 - lo) + most;
      assert !Active(samples, dir, hi);
    }
  }

  lemma {:induction false} BusyBytes(samples: seq<Sample>, dir: Direction, lo: int, hi: int)
    requires 0 <= lo <= hi < |samples| && NonDecreasingCounter(samples, dir)
    ensures SumDeltas(samples, dir, lo, hi) * COUNTER_UNIT_BYTES >=
            ACTIVE_STEP_BYTES * (ActiveCount(samples, dir, hi) - ActiveCount(samples, dir, lo))
    decreases hi - lo
  {
    if lo < hi {
      BusyBytes(samples, dir, lo, hi - 1);
      assert Delta(samples, dir, hi) >= 0;
    }
  }

  lemma {:induction false} NothingActive(samples: seq<Sample>, dir: Direction, lo: int, hi: int)
    requires 0 <= lo <= hi < |samples|
    requires forall i :: lo < i <= hi ==> !Active(samples, dir, i)
    ensures ActiveCount(samples, dir, hi) == ActiveCount(samples, dir, lo)
    ensures BusyNs(samples, dir, hi) == BusyNs(samples, dir, lo)
    decreases hi - lo
  {
    if lo < hi {
      NothingActive(samples, dir, lo, hi - 1);
    }
  }

  /** For a counter that never falls: the window holds at least 64 KiB per active step, and all the
      steps left outside it, however many, miss less than 64 KiB each. */
  lemma WindowHoldsTheTraffic(samples: seq<Sample>, dir: Direction, first: int, last: int)
    requires WindowOf(samples, dir, first, last) && NonDecreasingCounter(samples, dir)
    ensures var n := |samples| - 1;
            var inside := (Words(samples[last], dir) - Words(samples[first], dir)) * COUNTER_UNIT_BYTES;
            var total := (Words(samples[n], dir) - Words(samples[0], dir)) * COUNTER_UNIT_BYTES;
            && inside >= 65536 * ActiveCount(samples, dir, n)
            && ActiveCount(samples, dir, n) >= 1
            && 0 <= total - inside <= 65532 * (n - (last - first))
  {
    var n := |samples| - 1;
    QuietBytes(samples, dir, 0, first);
    QuietBytes(samples, dir, last, n);
    NothingActive(samples, dir, 0, first);
    NothingActive(samples, dir, last, n);
    BusyBytes(samples, dir, first, last);
    BusyBytes(samples, dir, 0, first);
    BusyBytes(samples, dir, last, n);
    Telescope(samples, dir, 0, first);
    Telescope(samples, dir, first, last);
    Telescope(samples, dir, last, n);
    CountGrows(samples, dir, 0, last - 1);
  }

  lemma {:induction false} CountGrows(samples: seq<Sample>, dir: Direction, lo: int, hi: int)
    requires 0 <= lo <= hi < |samples|
    ensures ActiveCount(samples, dir, lo) <= ActiveCount(samples, dir, hi)
    decreases hi - lo
  {
    if lo < hi {
      CountGrows(samples, dir, lo, hi - 1);
    }
  }

  // ----- Durations and rates -----

  predicate IncreasingClock(samples: seq<Sample>) {
    forall i :: 1 <= i < |samples| ==> samples[i - 1].ns < samples[i].ns
  }

  lemma {:induction false} BusyWithin(samples: seq<Sample>, dir: Direction, lo: int, hi: int)
    requires 0 <= lo <= hi < |samples| && IncreasingClock(samples)
    ensures BusyNs(samples, dir, hi) - BusyNs(samples, dir, lo) <= samples[hi].ns - samples[lo].ns
    ensures BusyNs(samples, dir, hi) - BusyNs(samples, dir, lo) == samples[hi].ns - samples[lo].ns <==>
            forall i :: lo < i <= hi ==> Active(samples, dir, i)
    ensures (exists i :: lo < i <= hi && Active(samples, dir, i)) ==> BusyNs(samples, dir, lo) < BusyNs(samples, dir, hi)
    ensures BusyNs(samples, dir, lo) <= BusyNs(samples, dir, hi)
    decreases hi - lo
  {
    if lo < hi {
      BusyWithin(samples, dir, lo, hi - 1);
      assert samples[hi - 1].ns < samples[hi].ns;
    }
  }

  function MibPerSecond(bytes: int, seconds: real): real
    requires seconds > 0.0
  {
    bytes as real / 1048576.0 / seconds
  }

  lemma SlowerOverLonger(x: real, b: real, c: real)
    requires x >= 0.0 && 0.0 < b <= c
    ensures x / b >= x / c
    ensures x > 0.0 && b < c ==> x / b > x / c
  {
    var q, r := x / b, x / c;
    assert q * b == x && r * c == x;
    assert q * c >= q * b;
    assert (q - r) * c == q * c - q * b;
    if x > 0.0 && b < c {
      assert q > 0.0;
      assert q * c > q * b;
    }
  }

  lemma RateOfMebibytes(mebibytes: int, seconds: real)
    requires seconds > 0.0
    ensures MibPerSecond(mebibytes * 1048576, seconds) * seconds == mebibytes as real
  {
    assert (mebibytes * 1048576) as real / 1048576.0 == mebibytes as real;
  }

  /** With an increasing clock the busy time is positive and at most the activity span, with
      equality exactly when every step in the window is active; so the duration test never fires,
      and the sampled-busy rate is never below the activity-span rate: equal in that case (or
      with no bytes), higher otherwise. */
  lemma BusyRateIsNeverLower(samples: seq<Sample>, dir: Direction, expected: int, first: int, last: int)
    requires WindowOf(samples, dir, first, last) && IncreasingClock(samples)
    ensures var busy := BusyNs(samples, dir, |samples| - 1);
            var span := samples[last].ns - samples[first].ns;
            && 0 < busy <= span
            && (busy == span <==> forall i :: first < i <= last ==> Active(samples, dir, i))
            && Judge(samples, dir, expected, first, last) != Err(InvalidDuration)
    ensures Judge(samples, dir, expected, first, last).Ok? ==>
              var m := Judge(samples, dir, expected, first, last).value;
              && 0.0 < m.busySeconds <= m.activitySpanSeconds
              && MibPerSecond(m.counterBytes, m.busySeconds) >= MibPerSecond(m.counterBytes, m.activitySpanSeconds)
              && (MibPerSecond(m.counterBytes, m.busySeconds) > MibPerSecond(m.counterBytes, m.activitySpanSeconds) <==>
                  m.counterBytes > 0 && exists i :: first < i <= last && !Active(samples, dir, i))
  {
    var n := |samples| - 1;
    NothingActive(samples, dir, 0, first);
    NothingActive(samples, dir, last, n);
    BusyWithin(samples, dir, first, last);
    assert Active(samples, dir, last);
    assert BusyNs(samples, dir, n) == BusyNs(samples, dir, last) - BusyNs(samples, dir, first);
    if Judge(samples, dir, expected, first, last).Ok? {
      var m := Judge(samples, dir, expected, first, last).value;
      SlowerOverLonger(m.counterBytes as real / 1048576.0, m.busySeconds, m.activitySpanSeconds);
    }
  }
}
