/**
  client/src/hooks/useExerciseData.ts as an object: the hook's state cells
  and refs are fields, its two props (`isSessionActive`, `accelerationData`)
  are set by methods, and each method runs the effects React runs for that
  change, in declaration order: the session-init effect, the timer effect,
  then the per-sample effect. `now` is the value of `Date.now()` during the
  call; a timer frame is one call of `Tick`.

  The displayed maximum is kept in hundredths (what `toFixed(2)` shows and
  `parseFloat` reads back, see MaxAccelerationText); the displayed average is
  kept as the exact mean in milliseconds and turned into its `toFixed(1)`
  text by AverageRepTimeText.
 */
module ExerciseDataHook {
  import opened Wrappers
  import opened Text
  import opened Acceleration
  import opened RepDetection
  import opened Duration

  /** JavaScript truthiness of a timestamp ref: null and 0 are falsy. */
  predicate Truthy(ref: Option<int>)
  {
    ref.Some? && ref.value != 0
  }

  /** Line 72: seconds since the session start, or 0 without one. */
  function SampleTimestamp(now: int, sessionStart: Option<int>): (t: real)
    ensures !Truthy(sessionStart) ==> t == 0.0
    ensures Truthy(sessionStart) ==> t * 1000.0 == (now - sessionStart.value) as real
    ensures Truthy(sessionStart) && now >= sessionStart.value ==> t >= 0.0
  {
    if Truthy(sessionStart) then (now - sessionStart.value) as real / 1000.0 else 0.0
  }

  /** `x.toFixed(1) + 's'` of the average in seconds, from its value in ms. */
  function AverageRepTimeText(averageMs: real): (text: string)
    requires averageMs >= 0.0
    ensures |text| >= 4 && text[|text| - 3] == '.' && text[|text| - 1] == 's'
    ensures AllDigits(text[..|text| - 3]) && IsDigit(text[|text| - 2])
  {
    var tenths: nat := (averageMs / 100.0 + 0.5).Floor;
    NatToString(tenths / 10) + "." + [DigitChar(tenths % 10)] + "s"
  }

  /** The unit the shown maximum carries after its number. */
  const MaxUnit := " m/s²"

  /** `x.toFixed(2)` of a non-negative value given in hundredths. */
  function FixedTwo(hundredths: nat): (text: string)
    ensures |text| >= 4 && text[|text| - 3] == '.'
    ensures AllDigits(text[..|text| - 3]) && AllDigits(text[|text| - 2..])
  {
    NatToString(hundredths / 100) + "." + [DigitChar(hundredths / 10 % 10), DigitChar(hundredths % 10)]
  }

  /** The shown maximum: its number part reads back as the stored hundredths,
      followed by the unit. */
  function MaxAccelerationText(hundredths: nat): (text: string)
    ensures |text| > |MaxUnit| && text[|text| - |MaxUnit|..] == MaxUnit
    ensures ParseFixedTwo(text[..|text| - |MaxUnit|]) == Some(hundredths)
  {
    MaxTextReadsBack(hundredths);
    var number := FixedTwo(hundredths);
    assert (number + MaxUnit)[..|number|] == number;
    number + MaxUnit
  }

  /** `parseFloat` of a `d.dd` text, in hundredths: the digits before the
      point, then the two after it; None for any other shape. */
  function ParseFixedTwo(s: string): (r: Option<nat>)
    ensures r.Some? ==> |s| >= 4 && s[|s| - 3] == '.'
  {
    var n := |s|;
    if n < 4 || s[n - 3] != '.' || !AllDigits(s[..n - 3]) || !AllDigits(s[n - 2..]) then None
    else Some(ParseDigits(s[..n - 3]) * 100 + ParseDigits(s[n - 2..]))
  }

  lemma ParseTwoDigits(a: nat, b: nat)
    requires a < 10 && b < 10
    ensures ParseDigits([DigitChar(a), DigitChar(b)]) == 10 * a + b
  {
    var t := [DigitChar(a), DigitChar(b)];
    assert t[..1] == [DigitChar(a)] && t[..1][..0] == [];
    assert ParseDigits(t[..1]) == a;
    assert ParseDigits(t) == ParseDigits(t[..1]) * 10 + DigitValue(t[1]);
  }

  /** The shown maximum reads back as the hundredths it was built from, which
      is why the model compares magnitudes with the stored hundredths where
      the source calls `parseFloat(prev)`. */
  lemma MaxTextReadsBack(hundredths: nat)
    ensures ParseFixedTwo(FixedTwo(hundredths)) == Some(hundredths)
  {
    var q, r := hundredths / 100, hundredths % 100;
    var whole := NatToString(q);
    var frac := [DigitChar(r / 10), DigitChar(r % 10)];
    assert hundredths / 10 % 10 == r / 10 && hundredths % 10 == r % 10 by {
      assert hundredths == 100 * q + r;
      assert hundredths / 10 == 10 * q + r / 10;
    }
    var t := FixedTwo(hundredths);
    assert t == whole + "." + frac;
    var n := |t|;
    assert t[..n - 3] == whole;
    assert t[n - 3] == '.';
    assert t[n - 2..] == frac;
    ParseNatToString(q);
    ParseTwoDigits(r / 10, r % 10);
  }

  /** The texts resetData writes are the texts of the zero values. */
  lemma AverageTextZero()
    ensures AverageRepTimeText(0.0) == "0.0s"
  {
    assert (0.0 / 100.0 + 0.5).Floor == 0;
    assert NatToString(0) == "0";
  }

  lemma MaxTextZero()
    ensures MaxAccelerationText(0) == "0.00 m/s²"
  {
    assert NatToString(0) == "0";
    assert FixedTwo(0) == "0.00";
  }

  lemma ResetTexts()
    ensures AverageRepTimeText(0.0) == "0.0s"
    ensures MaxAccelerationText(0) == "0.00 m/s²"
    ensures FormatDuration(0) == "00:00:00"
  {
    AverageTextZero();
    MaxTextZero();
    FormatZero();
  }

  class ExerciseData {
    // props
    var isSessionActive: bool
    var accelerationData: Reading

    // state cells
    var repCount: nat
    var sessionDuration: string
    var averageRepTimeMs: real
    var maxAccelerationHundredths: nat
    var accelerationHistory: seq<Sample>

    // refs
    var sessionStart: Option<int>
    var startTime: Option<int>
    /** An animation-frame loop of the timer effect is scheduled. */
    var timerRunning: bool
    var lastPeakTime: Option<int>
    var repTimes: seq<int>
    var wasAboveThreshold: bool

    /** Every sample added to the history since mount or the last reset. */
    ghost var ingested: seq<Sample>

    function DetectorState(): Detector
      reads this`wasAboveThreshold, this`lastPeakTime, this`repCount, this`repTimes
    {
      Detector(wasAboveThreshold, lastPeakTime, repCount, repTimes)
    }

    /** The window shown is the last 100 samples taken. */
    ghost predicate HistoryInv()
      reads this`accelerationHistory, this`ingested
    {
      accelerationHistory == Last(ingested, HistoryLimit)
    }

    /** The rep refs form a detector state and the average is their mean. */
    predicate DetectorInv()
      reads this`wasAboveThreshold, this`lastPeakTime, this`repCount, this`repTimes, this`averageRepTimeMs
    {
      Consistent(DetectorState()) && averageRepTimeMs == AverageMs(repTimes)
    }

    /** A session start is held exactly while active; a timer loop runs only
        while active with a start time. */
    predicate SessionInv()
      reads this`sessionStart, this`isSessionActive, this`timerRunning, this`startTime
    {
      (sessionStart.Some? <==> isSessionActive) && (timerRunning ==> isSessionActive && startTime.Some?)
    }

    /** The held reading's magnitude is a norm, so it is never negative;
        Ingest and the constructor take only readings (IsReading). */
    ghost predicate Valid()
      reads this`accelerationData, this`accelerationHistory, this`ingested
      reads this`wasAboveThreshold, this`lastPeakTime, this`repCount, this`repTimes, this`averageRepTimeMs
      reads this`sessionStart, this`isSessionActive, this`timerRunning, this`startTime
    {
      accelerationData.magnitude >= 0.0 && HistoryInv() && DetectorInv() && SessionInv()
    }

    /** The shown average: "0.0s" until an interval is recorded. */
    function AverageRepTime(): (text: string)
      reads this
      requires Valid()
      ensures repTimes == [] ==> text == "0.0s"
    {
      assert averageRepTimeMs >= 0.0 by {
        if repTimes != [] { AverageAboveDebounce(DetectorState()); }
      }
      AverageRepTimeText(averageRepTimeMs)
    }

    /** The shown maximum, whose number part reads back as the stored hundredths. */
    function MaxAcceleration(): (text: string)
      reads this
      ensures |text| > |MaxUnit| && ParseFixedTwo(text[..|text| - |MaxUnit|]) == Some(maxAccelerationHundredths)
    {
      MaxAccelerationText(maxAccelerationHundredths)
    }

    /** Mount with the first props: the initial state, then the three
        effects. Mounted inactive, the effects leave that state as it is;
        mounted active, they do what they do when a session starts. */
    constructor (now: int, isSessionActive: bool, accelerationData: Reading)
      requires IsReading(accelerationData)
      ensures Valid()
      ensures this.isSessionActive == isSessionActive && this.accelerationData == accelerationData
      ensures sessionStart == (if isSessionActive then Some(now) else None) && startTime == sessionStart
      ensures timerRunning == (isSessionActive && Truthy(startTime))
      ensures sessionDuration == "00:00:00" && averageRepTimeMs == 0.0
      ensures !isSessionActive ==>
        DetectorState() == Idle && maxAccelerationHundredths == 0 && accelerationHistory == [] && ingested == []
      ensures isSessionActive ==>
        var s := Sample(0.0, accelerationData.x, accelerationData.y, accelerationData.z);
        DetectorState() == Detect(Idle, now, accelerationData.magnitude) &&
        maxAccelerationHundredths == UpdateMax(0, accelerationData.magnitude) &&
        accelerationHistory == [s] && ingested == [s]
    {
      this.isSessionActive := false;
      this.accelerationData := accelerationData;
      repCount, sessionDuration, averageRepTimeMs := 0, "00:00:00", 0.0;
      maxAccelerationHundredths, accelerationHistory := 0, [];
      sessionStart, startTime, timerRunning := None, None, false;
      lastPeakTime, repTimes, wasAboveThreshold := None, [], false;
      ingested := [];
      new;
      if isSessionActive {
        StartSessionEffects(now);
      }
    }

    /** Lines 32-39: a session becoming active records its start (both refs);
        an inactive one forgets the session start but keeps `startTime`. */
    method SessionInitEffect(now: int)
      requires accelerationData.magnitude >= 0.0 && HistoryInv() && DetectorInv()
      requires !timerRunning
      modifies this`sessionStart, this`startTime
      ensures Valid()
      ensures isSessionActive && old(sessionStart).None? ==> sessionStart == Some(now) && startTime == Some(now)
      ensures isSessionActive && old(sessionStart).Some? ==> sessionStart == old(sessionStart) && startTime == old(startTime)
      ensures !isSessionActive ==> sessionStart == None && startTime == old(startTime)
    {
      if isSessionActive && sessionStart == None {
        sessionStart := Some(now);
        startTime := Some(now);
      } else if !isSessionActive {
        sessionStart := None;
      }
    }

    /** Lines 42-65: the loop of the previous activation is cancelled, and a
        new one is scheduled when active with a truthy start time. */
    method TimerEffect()
      requires accelerationData.magnitude >= 0.0 && HistoryInv() && DetectorInv()
      requires sessionStart.Some? <==> isSessionActive
      modifies this`timerRunning
      ensures Valid()
      ensures timerRunning == (isSessionActive && Truthy(startTime))
    {
      timerRunning := isSessionActive && startTime.Some? && startTime.value != 0;
    }

    /** Lines 74-86: the sample joins the history, which keeps its last 100. */
    method AppendSample(sample: Sample)
      requires Valid()
      modifies this`accelerationHistory, this`ingested
      ensures Valid()
      ensures ingested == old(ingested) + [sample]
      ensures accelerationHistory == AppendToHistory(old(accelerationHistory), sample)
    {
      var newHistory := accelerationHistory + [sample];
      if |newHistory| > HistoryLimit {
        newHistory := newHistory[|newHistory| - HistoryLimit..];
      }
      HistoryWindow(ingested, sample);
      accelerationHistory := newHistory;
      ingested := ingested + [sample];
    }

    /** Lines 95-98 with the shown value held in hundredths. */
    method TrackMax(magnitude: real)
      requires Valid() && magnitude >= 0.0
      modifies this`maxAccelerationHundredths
      ensures Valid()
      ensures maxAccelerationHundredths == UpdateMax(old(maxAccelerationHundredths), magnitude)
    {
      if magnitude > maxAccelerationHundredths as real / 100.0 {
        maxAccelerationHundredths := Round2(magnitude);
      }
    }

    /** Lines 109-121: a rep is counted; after an earlier peak the interval
        is recorded and the average recomputed; the peak time moves to `now`. */
    method CountRep(now: int)
      requires Valid() && Debounced(DetectorState(), now)
      modifies this`repCount, this`repTimes, this`averageRepTimeMs, this`lastPeakTime
      ensures Valid()
      ensures repCount == old(repCount) + 1 && lastPeakTime == Some(now)
      ensures repTimes == if old(lastPeakTime).Some? then old(repTimes) + [now - old(lastPeakTime).value] else old(repTimes)
    {
      repCount := repCount + 1;
      if lastPeakTime != None {
        var repTimeMs := now - lastPeakTime.value;
        repTimes := repTimes + [repTimeMs];
        averageRepTimeMs := Sum(repTimes) as real / |repTimes| as real;
      }
      lastPeakTime := Some(now);
    }

    /** Lines 102-126: rising-edge detection with the 500 ms debounce. */
    method DetectStep(now: int, magnitude: real)
      requires Valid()
      modifies this`repCount, this`repTimes, this`averageRepTimeMs, this`lastPeakTime, this`wasAboveThreshold
      ensures Valid()
      ensures DetectorState() == Detect(old(DetectorState()), now, magnitude)
    {
      if magnitude > Threshold {
        if !wasAboveThreshold {
          wasAboveThreshold := true;
          if lastPeakTime == None || now - lastPeakTime.value > DebounceMs {
            CountRep(now);
          }
        }
      } else {
        wasAboveThreshold := false;
      }
    }

    /** Lines 72-126, past the early return: the sample is stamped and joins
        the history window, and the maximum and the detector take one step. */
    method ProcessSample(now: int)
      requires Valid() && isSessionActive
      modifies this`accelerationHistory, this`ingested, this`maxAccelerationHundredths
      modifies this`repCount, this`repTimes, this`averageRepTimeMs, this`lastPeakTime, this`wasAboveThreshold
      ensures Valid()
      ensures var s := Sample(SampleTimestamp(now, sessionStart), accelerationData.x, accelerationData.y, accelerationData.z);
        ingested == old(ingested) + [s] &&
        accelerationHistory == AppendToHistory(old(accelerationHistory), s)
      ensures maxAccelerationHundredths == UpdateMax(old(maxAccelerationHundredths), accelerationData.magnitude)
      ensures DetectorState() == Detect(old(DetectorState()), now, accelerationData.magnitude)
    {
      var timestamp := SampleTimestamp(now, sessionStart);
      ghost var detector := DetectorState();
      AppendSample(Sample(timestamp, accelerationData.x, accelerationData.y, accelerationData.z));
      ghost var history, window := ingested, accelerationHistory;
      assert DetectorState() == detector;
      TrackMax(accelerationData.magnitude);
      assert DetectorState() == detector;
      DetectStep(now, accelerationData.magnitude);
      assert ingested == history && accelerationHistory == window;
    }

    /** Lines 68-127 with the current `accelerationData`: ignored while
        inactive, processed otherwise. */
    method SampleEffect(now: int)
      requires Valid()
      modifies this`accelerationHistory, this`ingested, this`maxAccelerationHundredths
      modifies this`repCount, this`repTimes, this`averageRepTimeMs, this`lastPeakTime, this`wasAboveThreshold
      ensures Valid()
      ensures !isSessionActive ==>
        accelerationHistory == old(accelerationHistory) && ingested == old(ingested) &&
        maxAccelerationHundredths == old(maxAccelerationHundredths) &&
        DetectorState() == old(DetectorState()) && averageRepTimeMs == old(averageRepTimeMs)
      ensures isSessionActive ==>
        var s := Sample(SampleTimestamp(now, sessionStart), accelerationData.x, accelerationData.y, accelerationData.z);
        ingested == old(ingested) + [s] &&
        accelerationHistory == AppendToHistory(old(accelerationHistory), s) &&
        maxAccelerationHundredths == UpdateMax(old(maxAccelerationHundredths), accelerationData.magnitude) &&
        DetectorState() == Detect(old(DetectorState()), now, accelerationData.magnitude)
    {
      if !isSessionActive {
        return;
      }
      ProcessSample(now);
    }

    /** A new `accelerationData` prop (every decoded notification is a new
        object, so the per-sample effect runs). While the session is inactive
        nothing but the prop changes. */
    method Ingest(now: int, reading: Reading)
      requires Valid() && IsReading(reading)
      modifies this`accelerationData, this`accelerationHistory, this`ingested, this`maxAccelerationHundredths
      modifies this`repCount, this`repTimes, this`averageRepTimeMs, this`lastPeakTime, this`wasAboveThreshold
      ensures Valid()
      ensures accelerationData == reading && isSessionActive == old(isSessionActive)
      ensures sessionStart == old(sessionStart) && startTime == old(startTime) && timerRunning == old(timerRunning)
      ensures sessionDuration == old(sessionDuration)
      ensures !isSessionActive ==>
        accelerationHistory == old(accelerationHistory) && ingested == old(ingested) &&
        maxAccelerationHundredths == old(maxAccelerationHundredths) &&
        DetectorState() == old(DetectorState()) && averageRepTimeMs == old(averageRepTimeMs)
      ensures isSessionActive ==>
        var s := Sample(SampleTimestamp(now, sessionStart), reading.x, reading.y, reading.z);
        ingested == old(ingested) + [s] &&
        accelerationHistory == Last(ingested, HistoryLimit) &&
        accelerationHistory[|accelerationHistory| - 1] == s &&
        maxAccelerationHundredths == UpdateMax(old(maxAccelerationHundredths), reading.magnitude) &&
        DetectorState() == Detect(old(DetectorState()), now, reading.magnitude)
      ensures |accelerationHistory| <= HistoryLimit
      ensures old(repCount) <= repCount <= old(repCount) + 1
      ensures maxAccelerationHundredths >= old(maxAccelerationHundredths)
    {
      accelerationData := reading;
      SampleEffect(now);
    }

    /** The session-init and timer effects of `isSessionActive` turning true:
        the previous timer loop is cancelled, no session start is held, so
        both start refs are set to `now` and a loop is scheduled unless `now`
        is the falsy 0. */
    method ArmSession(now: int)
      requires Valid() && !isSessionActive
      modifies this`isSessionActive, this`sessionStart, this`startTime, this`timerRunning
      ensures Valid() && isSessionActive
      ensures sessionStart == Some(now) && startTime == Some(now) && timerRunning == (now != 0)
    {
      isSessionActive := true;
      timerRunning := false;
      SessionInitEffect(now);
      TimerEffect();
    }

    /** `isSessionActive` turning true: the previous timer loop is cancelled,
        then the three effects run; the per-sample effect depends on
        `isSessionActive` too, so the reading already held is ingested again,
        stamped 0 s into the new session. */
    method StartSessionEffects(now: int)
      requires Valid() && !isSessionActive
      modifies this`isSessionActive, this`sessionStart, this`startTime, this`timerRunning
      modifies this`accelerationHistory, this`ingested, this`maxAccelerationHundredths
      modifies this`repCount, this`repTimes, this`averageRepTimeMs, this`lastPeakTime, this`wasAboveThreshold
      ensures Valid() && isSessionActive
      ensures sessionStart == Some(now) && startTime == Some(now) && timerRunning == (now != 0)
      ensures var s := Sample(0.0, accelerationData.x, accelerationData.y, accelerationData.z);
        ingested == old(ingested) + [s] &&
        accelerationHistory == AppendToHistory(old(accelerationHistory), s)
      ensures maxAccelerationHundredths == UpdateMax(old(maxAccelerationHundredths), accelerationData.magnitude)
      ensures DetectorState() == Detect(old(DetectorState()), now, accelerationData.magnitude)
    {
      ArmSession(now);
      assert SampleTimestamp(now, sessionStart) == 0.0;
      ProcessSample(now);
    }

    /** `isSessionActive` turning false: the timer loop is cancelled and the
        session start forgotten; counts, history, maximum and the start time
        are kept, and the per-sample effect returns at once. */
    method StopSessionEffects(now: int)
      requires Valid() && isSessionActive
      modifies this`isSessionActive, this`sessionStart, this`startTime, this`timerRunning
      modifies this`accelerationHistory, this`ingested, this`maxAccelerationHundredths
      modifies this`repCount, this`repTimes, this`averageRepTimeMs, this`lastPeakTime, this`wasAboveThreshold
      ensures Valid() && !isSessionActive
      ensures sessionStart == None && startTime == old(startTime) && !timerRunning
      ensures accelerationHistory == old(accelerationHistory) && ingested == old(ingested)
      ensures maxAccelerationHundredths == old(maxAccelerationHundredths)
      ensures DetectorState() == old(DetectorState()) && averageRepTimeMs == old(averageRepTimeMs)
    {
      isSessionActive := false;
      timerRunning := false;
      SessionInitEffect(now);
      TimerEffect();
      SampleEffect(now);
    }

    /** A new `isSessionActive` prop: a value equal to the current one runs no
        effect; a change runs the effects of starting or of stopping. */
    method SetSessionActive(now: int, active: bool)
      requires Valid()
      modifies this`isSessionActive, this`sessionStart, this`startTime, this`timerRunning
      modifies this`accelerationHistory, this`ingested, this`maxAccelerationHundredths
      modifies this`repCount, this`repTimes, this`averageRepTimeMs, this`lastPeakTime, this`wasAboveThreshold
      ensures Valid()
      ensures isSessionActive == active && accelerationData == old(accelerationData)
      ensures sessionDuration == old(sessionDuration)
      ensures active == old(isSessionActive) ==>
        sessionStart == old(sessionStart) && startTime == old(startTime) && timerRunning == old(timerRunning) &&
        accelerationHistory == old(accelerationHistory) && ingested == old(ingested) &&
        maxAccelerationHundredths == old(maxAccelerationHundredths) && DetectorState() == old(DetectorState())
      ensures !active && old(isSessionActive) ==>
        sessionStart == None && startTime == old(startTime) && !timerRunning &&
        accelerationHistory == old(accelerationHistory) && ingested == old(ingested) &&
        maxAccelerationHundredths == old(maxAccelerationHundredths) && DetectorState() == old(DetectorState())
      ensures active && !old(isSessionActive) ==>
        var s := Sample(0.0, accelerationData.x, accelerationData.y, accelerationData.z);
        sessionStart == Some(now) && startTime == Some(now) && timerRunning == (now != 0) &&
        ingested == old(ingested) + [s] &&
        accelerationHistory == AppendToHistory(old(accelerationHistory), s) &&
        maxAccelerationHundredths == UpdateMax(old(maxAccelerationHundredths), accelerationData.magnitude) &&
        DetectorState() == Detect(old(DetectorState()), now, accelerationData.magnitude)
    {
      if active == isSessionActive {
        return;
      }
      if active {
        StartSessionEffects(now);
      } else {
        StopSessionEffects(now);
      }
    }

    /** One animation frame of the timer loop: the elapsed time since
        `startTime`, formatted. Without a running loop nothing changes. */
    method Tick(now: int)
      requires Valid()
      modifies this`sessionDuration
      ensures Valid()
      ensures timerRunning ==> sessionDuration == FormatDuration(now - old(startTime.value))
      ensures !timerRunning ==> sessionDuration == old(sessionDuration)
    {
      if timerRunning {
        sessionDuration := FormatDuration(now - startTime.value);
      }
    }

    /** The state setters of resetData (lines 131-135). */
    method ResetDisplay()
      modifies this`repCount, this`sessionDuration, this`averageRepTimeMs, this`maxAccelerationHundredths
      modifies this`accelerationHistory
      ensures repCount == 0 && sessionDuration == "00:00:00"
      ensures averageRepTimeMs == 0.0 && maxAccelerationHundredths == 0 && accelerationHistory == []
    {
      repCount := 0;
      sessionDuration := "00:00:00";
      averageRepTimeMs := 0.0;
      maxAccelerationHundredths := 0;
      accelerationHistory := [];
    }

    /** The ref writes of resetData (lines 137-141); what has been ingested is
        forgotten with the history. */
    method ResetRefs(now: int)
      modifies this`sessionStart, this`startTime, this`lastPeakTime, this`repTimes, this`wasAboveThreshold
      modifies this`ingested
      ensures sessionStart == (if isSessionActive then Some(now) else None) && startTime == sessionStart
      ensures lastPeakTime == None && repTimes == [] && !wasAboveThreshold && ingested == []
    {
      sessionStart := if isSessionActive then Some(now) else None;
      startTime := if isSessionActive then Some(now) else None;
      lastPeakTime := None;
      repTimes := [];
      wasAboveThreshold := false;
      ingested := [];
    }

    /** resetData (lines 130-142): every statistic back to zero, the history
        and the detector emptied, and the start refs re-armed at `now` when a
        session is active (cleared otherwise). The timer loop is untouched. */
    method ResetData(now: int)
      requires Valid()
      modifies this`repCount, this`sessionDuration, this`averageRepTimeMs, this`maxAccelerationHundredths
      modifies this`accelerationHistory, this`sessionStart, this`startTime, this`lastPeakTime
      modifies this`repTimes, this`wasAboveThreshold, this`ingested
      ensures Valid()
      ensures repCount == 0 && sessionDuration == "00:00:00"
      ensures averageRepTimeMs == 0.0 && maxAccelerationHundredths == 0
      ensures accelerationHistory == [] && ingested == [] && DetectorState() == Idle
      ensures sessionStart == (if isSessionActive then Some(now) else None) && startTime == sessionStart
    {
      ResetDisplay();
      ResetRefs(now);
      IdleConsistent();
    }
  }
}
