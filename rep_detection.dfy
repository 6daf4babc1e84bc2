/**
  The per-sample step of client/src/hooks/useExerciseData.ts as functions:
  the append-then-slice history window, the running displayed maximum and
  the threshold-crossing rep detector with its debounce. The hook's class
  (ExerciseDataHook) is proved to update its fields exactly as these say;
  the properties the source promises are proved here about the functions.
 */
module RepDetection {
  import opened Wrappers
  import opened Acceleration

  const Threshold: real := 2.0
  const DebounceMs: int := 500
  const HistoryLimit: nat := 100

  // ---------------------------------------------------------------------
  // Rolling history
  // ---------------------------------------------------------------------

  /** `[...prev, sample]`, then `slice(length - 100)` when that is longer than 100. */
  function AppendToHistory(history: seq<Sample>, s: Sample): (h: seq<Sample>)
    ensures |h| <= HistoryLimit && |h| > 0 && h[|h| - 1] == s
  {
    var grown := history + [s];
    if |grown| > HistoryLimit then grown[|grown| - HistoryLimit..] else grown
  }

  /** The last `min(n, |s|)` elements of `s`, in order. */
  function Last<T>(s: seq<T>, n: nat): (r: seq<T>)
    ensures |r| == if |s| <= n then |s| else n
    ensures forall i :: 0 <= i < |r| ==> r[i] == s[|s| - |r| + i]
  {
    if |s| <= n then s else s[|s| - n..]
  }

  /** The window after one more sample is the last 100 of everything
      ingested: appending then slicing never loses or reorders a sample that
      should stay. */
  lemma HistoryWindow(log: seq<Sample>, s: Sample)
    ensures AppendToHistory(Last(log, HistoryLimit), s) == Last(log + [s], HistoryLimit)
  {
    var h := AppendToHistory(Last(log, HistoryLimit), s);
    var w := Last(log + [s], HistoryLimit);
    assert |h| == |w|;
    forall i | 0 <= i < |h| ensures h[i] == w[i] {
      if i < |h| - 1 {
        var grown := Last(log, HistoryLimit) + [s];
        assert h[i] == grown[|grown| - |h| + i];
      }
    }
  }

  // ---------------------------------------------------------------------
  // Rep detection
  // ---------------------------------------------------------------------

  /** The refs and the count the detector reads and writes. */
  datatype Detector = Detector(wasAboveThreshold: bool, lastPeakTime: Option<int>, repCount: nat, repTimes: seq<int>)

  /** The state after mount and after resetData. */
  const Idle: Detector := Detector(false, None, 0, [])

  /** No earlier peak, or the last one more than 500 ms ago (line 108). */
  predicate Debounced(d: Detector, now: int)
  {
    d.lastPeakTime.None? || now - d.lastPeakTime.value > DebounceMs
  }

  /** A sample counts as a rep when it is a rising edge that is not debounced away. */
  predicate CountsRep(d: Detector, now: int, magnitude: real)
  {
    magnitude > Threshold && !d.wasAboveThreshold && Debounced(d, now)
  }

  /** Lines 102-126 for one sample of the given magnitude at time `now`. */
  function Detect(d: Detector, now: int, magnitude: real): (r: Detector)
    ensures r.wasAboveThreshold == (magnitude > Threshold)
    ensures r.repCount == d.repCount + 1 <==> CountsRep(d, now, magnitude)
    ensures r.repCount == d.repCount <==> !CountsRep(d, now, magnitude)
    ensures r.lastPeakTime == if CountsRep(d, now, magnitude) then Some(now) else d.lastPeakTime
    ensures r.repTimes ==
      if CountsRep(d, now, magnitude) && d.lastPeakTime.Some?
      then d.repTimes + [now - d.lastPeakTime.value] else d.repTimes
  {
    if magnitude > Threshold then
      if !d.wasAboveThreshold then
        var armed := d.(wasAboveThreshold := true);
        if d.lastPeakTime.None? || now - d.lastPeakTime.value > DebounceMs then
          var times := if d.lastPeakTime.Some? then d.repTimes + [now - d.lastPeakTime.value] else d.repTimes;
          armed.(repCount := d.repCount + 1, repTimes := times, lastPeakTime := Some(now))
        else armed
      else d
    else d.(wasAboveThreshold := false)
  }

  /** What holds between resets: a peak time exists exactly when a rep was
      counted, there is one interval per rep after the first, and every
      interval is longer than the debounce window. */
  predicate Consistent(d: Detector)
  {
    && (d.lastPeakTime.None? <==> d.repCount == 0)
    && |d.repTimes| == (if d.repCount == 0 then 0 else d.repCount - 1)
    && forall i :: 0 <= i < |d.repTimes| ==> d.repTimes[i] > DebounceMs
  }

  lemma IdleConsistent()
    ensures Consistent(Idle)
  {
  }

  lemma DetectConsistent(d: Detector, now: int, magnitude: real)
    requires Consistent(d)
    ensures Consistent(Detect(d, now, magnitude))
  {
  }

  /** Feeds (time, magnitude) pairs to the detector in order. */
  function Run(d: Detector, events: seq<(int, real)>): Detector
    decreases |events|
  {
    if events == [] then d else Run(Detect(d, events[0].0, events[0].1), events[1..])
  }

  /** Over any run the count never falls and rises by at most one per sample,
      and consistency is kept. */
  lemma {:induction false} RunBounds(d: Detector, events: seq<(int, real)>)
    requires Consistent(d)
    ensures Consistent(Run(d, events))
    ensures d.repCount <= Run(d, events).repCount <= d.repCount + |events|
    decreases |events|
  {
    if events != [] {
      DetectConsistent(d, events[0].0, events[0].1);
      RunBounds(Detect(d, events[0].0, events[0].1), events[1..]);
    }
  }

  /** Two peaks 600 ms apart with a dip between count twice. */
  lemma TwoSpacedPeaks()
    ensures Run(Idle, [(0, 0.0), (100, 3.0), (400, 0.0), (700, 3.0)]).repCount == 2
  {
  }

  /** Two peaks 200 ms apart count once: the second is debounced. */
  lemma TwoClosePeaks()
    ensures Run(Idle, [(0, 0.0), (100, 3.0), (200, 0.0), (300, 3.0)]).repCount == 1
  {
  }

  /** A debounced edge does not move the last peak time: peaks at 0, 300 and
      600 ms count at 0 and at 600, 600 ms after the last counted peak. */
  lemma DebouncedEdgeKeepsLastPeak()
    ensures var d := Run(Idle, [(0, 3.0), (150, 0.0), (300, 3.0), (450, 0.0), (600, 3.0)]);
      d.repCount == 2 && d.repTimes == [600] && d.lastPeakTime == Some(600)
  {
  }

  /** Exactly 2.0 is not above the threshold, and exactly 500 ms is still inside the window. */
  lemma BoundariesAreStrict()
    ensures Run(Idle, [(0, 2.0)]).repCount == 0
    ensures Run(Idle, [(0, 3.0), (100, 1.0), (500, 3.0)]).repCount == 1
  {
  }

  /** Staying above the threshold counts once: only the rising edge counts. */
  lemma HeldAboveCountsOnce()
    ensures Run(Idle, [(0, 3.0), (1000, 3.0), (2000, 3.0)]).repCount == 1
  {
  }

  // ---------------------------------------------------------------------
  // Average rep time
  // ---------------------------------------------------------------------

  /** `repTimes.reduce((sum, time) => sum + time, 0)`: a left fold. */
  function Sum(ts: seq<int>): (total: int)
    ensures (forall i :: 0 <= i < |ts| ==> ts[i] >= 0) ==> total >= 0
  {
    if ts == [] then 0 else Sum(ts[..|ts| - 1]) + ts[|ts| - 1]
  }

  /** The average the hook shows: the mean of the intervals, 0 before any. */
  function AverageMs(ts: seq<int>): real
  {
    if ts == [] then 0.0 else Sum(ts) as real / |ts| as real
  }

  lemma {:induction false} SumAbove(ts: seq<int>, bound: int)
    requires forall i :: 0 <= i < |ts| ==> ts[i] > bound
    ensures ts != [] ==> Sum(ts) > bound * |ts|
    ensures Sum(ts) >= bound * |ts|
  {
    if ts != [] {
      var init, last := ts[..|ts| - 1], ts[|ts| - 1];
      assert forall i :: 0 <= i < |init| ==> init[i] == ts[i];
      SumAbove(init, bound);
      assert Sum(ts) == Sum(init) + last;
      MulStep(bound, |init|);
    }
  }

  lemma MulStep(b: int, n: int)
    ensures b * (n + 1) == b * n + b
  {
  }

  /** Every interval is over 500 ms, so once there is one the average is too. */
  lemma AverageAboveDebounce(d: Detector)
    requires Consistent(d) && d.repTimes != []
    ensures AverageMs(d.repTimes) > DebounceMs as real
  {
    var ts := d.repTimes;
    SumAbove(ts, DebounceMs);
    var n := |ts| as real;
    assert Sum(ts) as real > DebounceMs as real * n;
    assert Sum(ts) as real / n > DebounceMs as real;
  }

  // ---------------------------------------------------------------------
  // Displayed maximum
  // ---------------------------------------------------------------------

  /** `magnitude.toFixed(2)` for a non-negative magnitude, in hundredths:
      the nearest hundredth, halves rounded up. */
  function Round2(magnitude: real): (c: nat)
    requires magnitude >= 0.0
    ensures c as real - 0.5 <= magnitude * 100.0 < c as real + 0.5
  {
    (magnitude * 100.0 + 0.5).Floor
  }

  /** Lines 95-98 with the shown value in hundredths: replaced by the rounded
      magnitude only when the magnitude is above the value shown, so it never
      goes down. */
  function UpdateMax(shown: nat, magnitude: real): (r: nat)
    requires magnitude >= 0.0
    ensures r >= shown
    ensures magnitude > shown as real / 100.0 ==> r == Round2(magnitude)
    ensures magnitude <= shown as real / 100.0 ==> r == shown
  {
    if magnitude > shown as real / 100.0 then Round2(magnitude) else shown
  }

  /** Folds UpdateMax over a run of magnitudes, from the value already shown. */
  function MaxOf(shown: nat, magnitudes: seq<real>): nat
    requires forall i :: 0 <= i < |magnitudes| ==> magnitudes[i] >= 0.0
    decreases |magnitudes|
  {
    if magnitudes == [] then shown else MaxOf(UpdateMax(shown, magnitudes[0]), magnitudes[1..])
  }

  /** Magnitudes 1, 5 and 3 leave 5.00 shown. */
  lemma MaxExample()
    ensures MaxOf(0, [1.0, 5.0, 3.0]) == 500
  {
    assert UpdateMax(0, 1.0) == 100;
    assert UpdateMax(100, 5.0) == 500;
    assert UpdateMax(500, 3.0) == 500;
  }

  /** The value shown is at least every magnitude seen, to within rounding. */
  lemma {:induction false} MaxDominates(shown: nat, magnitudes: seq<real>)
    requires forall i :: 0 <= i < |magnitudes| ==> magnitudes[i] >= 0.0
    ensures MaxOf(shown, magnitudes) >= shown
    ensures forall i :: 0 <= i < |magnitudes| ==> magnitudes[i] * 100.0 < MaxOf(shown, magnitudes) as real + 0.5
    decreases |magnitudes|
  {
    if magnitudes != [] {
      var next := UpdateMax(shown, magnitudes[0]);
      MaxDominates(next, magnitudes[1..]);
      assert magnitudes[0] * 100.0 < next as real + 0.5;
      forall i | 0 < i < |magnitudes| ensures magnitudes[i] * 100.0 < MaxOf(shown, magnitudes) as real + 0.5 {
        assert magnitudes[i] == magnitudes[1..][i - 1];
      }
    }
  }
}
