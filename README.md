# reptracker, modelled in Dafny

reptracker is a web client that connects to an ESP32 accelerometer over Web
Bluetooth, counts exercise repetitions from the acceleration stream, and
shows session statistics: repetitions, duration, mean time per repetition,
peak acceleration, and a chart of the last 100 samples that can be
downloaded as CSV.

This project models the client's logic:

- **`ExerciseDataHook`** (`exercise_data.dfy`) models the `useExerciseData`
  hook as the class `ExerciseData`. Its fields are the hook's state cells and
  refs. Setting a prop runs the hook's effects in declaration order. `Tick`
  is one animation frame of the timer, and `ResetData` is `resetData`.
- **`RepDetection`** (`rep_detection.dfy`) holds the pure functions the class
  is proved against:
  - the 100-sample history window;
  - the rising-edge detector with its 500 ms debounce;
  - the mean of the intervals;
  - the displayed maximum, kept in hundredths.

  The properties the hook promises are proved here as lemmas.
- **`BluetoothHook`** (`bluetooth.dfy`) models the `useBluetooth` hook as the
  class `Bluetooth`. Each Web Bluetooth call's result is a parameter: success,
  or the error it rejects with. Everything passed to `onError` is kept in
  `reported`, and every `writeValue` in `written`.
- **`Frame`** (`frame.dfy`) decodes a notification into three little-endian
  32-bit words at offsets 0, 4 and 8. Each word is the bit pattern of a
  binary32 value, as laid out in section 3.4 of IEEE 754-2008.
- **`Duration`**, **`BluetoothId`** and **`Csv`** model `formatDuration`,
  `generateRandomBluetoothId` and the content of `downloadAsCSV` from
  `utils.ts`.
- **`AccelerationChart`** and **`StatsCards`** model the chart's CSV and axis
  toggle, the percentage clamp, and the choice of start or stop handler.
- **`Text`**, **`Acceleration`** and **`Wrappers`** are shared helpers:
  decimal printing and parsing, join and split, the sample and reading
  records, and `Option`.

Outside inputs are parameters:
- `Date.now()` is `now: int`.
- `Math.random()` is a sequence of 12 draws in [0, 1).
- The magnitude `Math.sqrt(x²+y²+z²)` is carried in `Reading` with
  `m ≥ 0 ∧ m² = x²+y²+z²`. `AboveWithoutRoot` shows that comparing it with a
  bound is the same as comparing the squares.
- Number-to-text in the chart's CSV is a function parameter.

Where JavaScript's semantics matter, they are written out:
- `Math.floor` over the truncating `%` in `formatDuration`, so that
  negative elapsed times print as the code prints them;
- `0` being falsy in the start-time tests of lines 43 and 72;
- `toFixed(2)` rounding half up to hundredths;
- `device.name || "Unknown Device"` replacing an empty name.

The per-sample effect depends on `[accelerationData, isSessionActive]`. So
turning a session on re-processes the sample the hook already holds, and
`SetSessionActive` models that.

In the code, `lastPeakTimeRef.current = now` (useExerciseData.ts:121) sits
inside the debounce test of lines 108-122. A rising edge within 500 ms of the last
counted peak therefore sets the threshold flag, but does not move the
last-peak time. `DebouncedEdgeKeepsLastPeak` shows a run where this decides
the recorded interval.

## Model

| member | source | states |
|---|---|---|
| ExerciseDataHook.SampleTimestamp | client/src/hooks/useExerciseData.ts:72 | a sample's timestamp is 0 without a truthy session start, otherwise (now − start)/1000 seconds, non-negative when now ≥ start |
| ExerciseDataHook.MaxTextReadsBack | client/src/hooks/useExerciseData.ts:95-98 | `parseFloat` of the shown maximum's number part gives back exactly the stored hundredths, so comparing with the stored value is comparing with `parseFloat(prev)` |
| ExerciseDataHook.ParseTwoDigits | client/src/hooks/useExerciseData.ts:96 | reading two printed digits back gives 10·a + b |
| ExerciseDataHook.AverageTextZero | client/src/hooks/useExerciseData.ts:133 | a zero mean shows as "0.0s", the text resetData sets |
| ExerciseDataHook.MaxTextZero | client/src/hooks/useExerciseData.ts:134 | zero hundredths show as "0.00 m/s²", the text resetData sets |
| ExerciseDataHook.ResetTexts | client/src/hooks/useExerciseData.ts:130-134 | the texts of the reset values are "0.0s", "0.00 m/s²" and "00:00:00" |
| ExerciseDataHook.AverageRepTimeText | client/src/hooks/useExerciseData.ts:118 | `toFixed(1)` of the mean in seconds, then 's': decimal digits, '.', exactly one digit, 's' |
| ExerciseDataHook.FixedTwo | client/src/hooks/useExerciseData.ts:97 | `toFixed(2)` of a value in hundredths: decimal digits, '.', exactly two digits |
| ExerciseDataHook.MaxAccelerationText | client/src/hooks/useExerciseData.ts:97 | the shown maximum ends with " m/s²", and its number part reads back as the hundredths it was built from |
| ExerciseDataHook.ParseFixedTwo | client/src/hooks/useExerciseData.ts:96 | `parseFloat(prev)` of a shown maximum: only a text of at least four characters with '.' third from the end reads as a value |
| ExerciseDataHook.ExerciseData.constructor | client/src/hooks/useExerciseData.ts:9-39 | initial cells and refs, then the three effects; when mounted active, the first sample is ingested at the session start |
| ExerciseDataHook.ExerciseData.SessionInitEffect | client/src/hooks/useExerciseData.ts:32-39 | starting records the session start and start time at `now`, unless a start is already held; inactivity clears the session start and keeps the start time |
| ExerciseDataHook.ExerciseData.TimerEffect | client/src/hooks/useExerciseData.ts:42-65 | a timer loop runs exactly when active with a truthy start time |
| ExerciseDataHook.ExerciseData.AppendSample | client/src/hooks/useExerciseData.ts:74-86 | the history becomes AppendToHistory of the old one, and it stays the last 100 samples ingested |
| ExerciseDataHook.ExerciseData.TrackMax | client/src/hooks/useExerciseData.ts:95-98 | the shown maximum becomes UpdateMax of the old one |
| ExerciseDataHook.ExerciseData.CountRep | client/src/hooks/useExerciseData.ts:108-121 | a counted rep raises the count by exactly one and moves the last peak to `now`; the interval since the previous peak is recorded exactly when there was one; the class invariant, average included, is kept |
| ExerciseDataHook.ExerciseData.DetectStep | client/src/hooks/useExerciseData.ts:102-126 | the refs and the count take one Detect step; the average stays the mean of the intervals |
| ExerciseDataHook.ExerciseData.ProcessSample | client/src/hooks/useExerciseData.ts:72-126 | past the early return, the sample stamped with SampleTimestamp joins the history window, and the max and the detector each take one step |
| ExerciseDataHook.ExerciseData.SampleEffect | client/src/hooks/useExerciseData.ts:68-127 | inactive: nothing changes; active: the sample is timestamped and appended, and the max and the detector each take one step |
| ExerciseDataHook.ExerciseData.Ingest | client/src/hooks/useExerciseData.ts:68-127 | a new reading changes nothing else while inactive; while active, the history is the last 100 ingested samples with the new one last, the count rises by at most 1, and the max never falls |
| ExerciseDataHook.ExerciseData.ArmSession | client/src/hooks/useExerciseData.ts:32-65 | a start with no session held sets both start refs to `now`; the timer loop runs exactly when that start is truthy, i.e. `now` ≠ 0 |
| ExerciseDataHook.ExerciseData.StartSessionEffects | client/src/hooks/useExerciseData.ts:32-127 | the three effects of a start: start refs at `now`, then the held sample enters the history with timestamp 0, and the max and the detector take one step |
| ExerciseDataHook.ExerciseData.StopSessionEffects | client/src/hooks/useExerciseData.ts:32-69 | the effects of a stop: the session start is cleared, the start time kept, the timer loop stopped, and the per-sample effect returns early, so history, max and detector are kept |
| ExerciseDataHook.ExerciseData.SetSessionActive | client/src/hooks/useExerciseData.ts:32-39 | an unchanged value does nothing; stopping clears the session start and keeps counts, history and max; starting sets both start refs to `now` and re-runs the per-sample effect on the held sample |
| ExerciseDataHook.ExerciseData.Tick | client/src/hooks/useExerciseData.ts:44-52 | with a timer running, the duration is FormatDuration(now − startTime); otherwise it is unchanged |
| ExerciseDataHook.ExerciseData.ResetDisplay | client/src/hooks/useExerciseData.ts:131-135 | count 0, "00:00:00", average 0, max 0 and an empty history |
| ExerciseDataHook.ExerciseData.ResetRefs | client/src/hooks/useExerciseData.ts:137-141 | both start refs at `now` when active and null otherwise; no last peak, no intervals, flag down |
| ExerciseDataHook.ExerciseData.ResetData | client/src/hooks/useExerciseData.ts:130-142 | count 0, "00:00:00", average 0, max 0, empty history, the detector back at its initial state, start refs at `now` when active and null otherwise, and the class invariant kept |
| ExerciseDataHook.ExerciseData.AverageRepTime | client/src/hooks/useExerciseData.ts:117-118 | the shown average is the text of the stored mean, and it is "0.0s", the initial and reset text, while no interval is recorded |
| ExerciseDataHook.ExerciseData.MaxAcceleration | client/src/hooks/useExerciseData.ts:95-98 | the shown maximum carries the unit, and its number part reads back as the stored hundredths |
| RepDetection.AppendToHistory | client/src/hooks/useExerciseData.ts:74-86 | the new history has at most 100 samples, and the new sample is last |
| RepDetection.Last | client/src/hooks/useExerciseData.ts:81-83 | the last min(n, \|s\|) elements of s, in order |
| RepDetection.HistoryWindow | client/src/hooks/useExerciseData.ts:74-86 | appending to the window of the last 100 samples gives the window of the log extended by the sample, so the history is always the last min(n, 100) samples in arrival order |
| RepDetection.Detect | client/src/hooks/useExerciseData.ts:102-126 | flag = magnitude > 2; the count rises by 1 exactly when CountsRep (above 2, flag down, no last peak or more than 500 ms since it) and is unchanged otherwise; the last peak moves to `now` only when a rep counts; an interval is recorded only when a rep counts after an earlier peak |
| RepDetection.IdleConsistent | client/src/hooks/useExerciseData.ts:26-29 | the initial refs satisfy the detector invariant |
| RepDetection.DetectConsistent | client/src/hooks/useExerciseData.ts:108-121 | a step keeps: no last peak ⇔ count 0; \|intervals\| = max(0, count − 1); every interval over 500 ms |
| RepDetection.RunBounds | client/src/hooks/useExerciseData.ts:109 | over any run of samples the invariant holds and the count rises by at most one per sample, never falling |
| RepDetection.TwoSpacedPeaks | client/src/hooks/useExerciseData.ts:102-122 | two rising edges 600 ms apart count two reps |
| RepDetection.TwoClosePeaks | client/src/hooks/useExerciseData.ts:108 | two rising edges 200 ms apart count one rep |
| RepDetection.DebouncedEdgeKeepsLastPeak | client/src/hooks/useExerciseData.ts:104-121 | a debounced edge leaves the last peak in place, so the next counted rep records 600 ms from the earlier peak |
| RepDetection.BoundariesAreStrict | client/src/hooks/useExerciseData.ts:102-108 | a magnitude of exactly 2 is not above the threshold, and exactly 500 ms is inside the debounce |
| RepDetection.HeldAboveCountsOnce | client/src/hooks/useExerciseData.ts:103 | staying above the threshold counts one rep, however long |
| RepDetection.SumAbove | client/src/hooks/useExerciseData.ts:117 | a sum of intervals each above a bound is above bound × count |
| RepDetection.Sum | client/src/hooks/useExerciseData.ts:117 | the `reduce` sum of the intervals; non-negative when every interval is |
| RepDetection.AverageMs | client/src/hooks/useExerciseData.ts:117 | the mean of the intervals, 0 before any; no contract of its own, AverageAboveDebounce bounds it |
| RepDetection.AverageAboveDebounce | client/src/hooks/useExerciseData.ts:112-118 | once there is an interval, the mean is over 500 ms |
| RepDetection.Round2 | client/src/hooks/useExerciseData.ts:97 | `toFixed(2)` in hundredths is the nearest hundredth, with halves rounded up |
| RepDetection.UpdateMax | client/src/hooks/useExerciseData.ts:95-98 | the shown value never falls; it is replaced by the rounded magnitude exactly when the magnitude is above it |
| RepDetection.MaxExample | client/src/hooks/useExerciseData.ts:95-98 | magnitudes 1, 5 and 3 leave 5.00 shown |
| RepDetection.MaxDominates | client/src/hooks/useExerciseData.ts:95-98 | after a run, the shown max is at least its start and no magnitude lies above it by half a hundredth or more |
| Acceleration.SquaresOrdered | client/src/hooks/useExerciseData.ts:89-93 | for non-negative values, order agrees with the order of the squares |
| Acceleration.AboveWithoutRoot | client/src/hooks/useExerciseData.ts:89-93 | the magnitude is above a bound exactly when x²+y²+z² is above its square |
| Duration.TruncDiv | client/src/lib/utils.ts:9-10 | the quotient of JavaScript's `%`: the remainder a − q·b has the sign of a and lies strictly within ±b (0 ≤ r < b for a ≥ 0, −b < r ≤ 0 for a < 0) |
| Duration.SecondsField | client/src/lib/utils.ts:9 | the seconds field lies in −60..59, and in 0..59 for ms ≥ 0 |
| Duration.MinutesField | client/src/lib/utils.ts:10 | the minutes field lies in −60..59, and in 0..59 for ms ≥ 0 |
| Duration.HoursField | client/src/lib/utils.ts:11 | the hours field is the floor of ms over 3600000: h·3600000 ≤ ms < (h+1)·3600000 |
| Duration.FormatDuration | client/src/lib/utils.ts:8-14 | three fields each padded to at least two characters and joined by ':', so at least 8 characters; ParseFormat and FormatShape say more |
| Duration.SecondsOfNonNegative | client/src/lib/utils.ts:9 | for ms ≥ 0 the seconds field is (ms div 1000) mod 60, which is (ms mod 60000) div 1000, in 0..59 |
| Duration.MinutesOfNonNegative | client/src/lib/utils.ts:10 | for ms ≥ 0 the minutes field is (ms div 60000) mod 60, which is (ms mod 3600000) div 60000, in 0..59 |
| Duration.FieldsOfNonNegative | client/src/lib/utils.ts:9-11 | for ms ≥ 0: s = (ms div 1000) mod 60, m = (ms div 60000) mod 60, h = ms div 3600000; s and m lie in 0..59; h·3600000 + m·60000 + s·1000 ≤ ms < that + 1000 |
| Duration.ClockParts | client/src/lib/utils.ts:9-11 | whole hours, then the minutes and seconds of the remainders, add up to ms less under one second |
| Duration.WholeSeconds | client/src/lib/utils.ts:9-11 | ms div 1000 = hours·3600 + minutes·60 + seconds, for ms ≥ 0 |
| Duration.FormatZero | client/src/lib/utils.ts:8-14 | formatDuration(0) = "00:00:00" |
| Duration.FormatUnderASecond | client/src/lib/utils.ts:8-14 | every ms in 0..999 gives "00:00:00" |
| Duration.PaddedShape | client/src/lib/utils.ts:13 | a field under 100 pads to exactly two digits |
| Duration.ClockShape | client/src/lib/utils.ts:13 | three two-digit fields joined by ':' have length 8, ':' at 2 and 5 and digits elsewhere |
| Duration.SplitClock | client/src/lib/utils.ts:13 | the minutes and seconds fields sit at fixed offsets from the end, and the hours field is everything before them |
| Duration.FormatShape | client/src/lib/utils.ts:13 | for 0 ≤ ms < 100 h: length 8, ':' at 2 and 5, digits elsewhere |
| Duration.FormatWideHours | client/src/lib/utils.ts:11-13 | from 100 hours on, the hours field is only padded, so the text is longer than 8 |
| Duration.FormatNegative | client/src/lib/utils.ts:9-13 | a negative elapsed time of half a second prints as "-1:-1:-1" |
| Duration.FormatSixtySecondsBack | client/src/lib/utils.ts:9-13 | `Math.floor` of a negative remainder reaches −60: −59999 ms gives seconds −60 and prints as "-1:-1:-60" |
| Duration.ParseClock | client/src/lib/utils.ts:13 | three padded fields, minutes and seconds below 60, read back as h·3600 + m·60 + s |
| Duration.ParseFormat | client/src/lib/utils.ts:8-14 | reading the three fields back gives ms div 1000 |
| BluetoothId.Draw | client/src/lib/utils.ts:23-24 | `Math.floor(r * 16)` is an index below 16 |
| BluetoothId.GenerateRandomBluetoothId | client/src/lib/utils.ts:17-29 | length 17; ':' exactly at 2, 5, 8, 11 and 14; a character of `0123456789ABCDEF` drawn from the next random value everywhere else |
| Csv.Keys | client/src/lib/utils.ts:36 | the header is the first row's keys in order |
| Csv.Get | client/src/lib/utils.ts:45 | `row[fieldName]`: the value of the first entry with that key, and undefined when no entry has it |
| Csv.CellText | client/src/lib/utils.ts:45 | the text of a shown value, '' for null or undefined; no contract of its own, RowCells states it per cell |
| Csv.Escape | client/src/lib/utils.ts:46 | `replace(/"/g, '""')`; no contract of its own, UnescapeEscape inverts it |
| Csv.Quote | client/src/lib/utils.ts:46 | the escaped text between two quotes: two characters longer, with a quote at each end |
| Csv.CsvContent | client/src/lib/utils.ts:32-48 | no content exactly when the data is empty; CsvRoundTrip says what the content reads back as |
| Csv.QuoteAll | client/src/lib/utils.ts:46 | every cell is quoted |
| Csv.RowCells | client/src/lib/utils.ts:43-45 | one cell per header, the text of that field, empty for null or undefined |
| Csv.Table | client/src/lib/utils.ts:42-47 | one row of cells per data row, in order |
| Csv.RowLines | client/src/lib/utils.ts:42-48 | each line is that row's quoted cells joined by ',' |
| Csv.UnescapeEscape | client/src/lib/utils.ts:46 | undoing the doubled quotes recovers the cell text |
| Csv.ParseQuote | client/src/lib/utils.ts:46 | a quoted cell reads back as its text |
| Csv.JoinConsRest | client/src/lib/utils.ts:47-48 | a join of two or more parts is the first part, the separator, then the join of the rest |
| Csv.ParseCellsStep | client/src/lib/utils.ts:46-47 | a quoted cell, ',' and more cells read back as that cell before the others |
| Csv.ParseJoinedCells | client/src/lib/utils.ts:43-47 | a line reads back as its cells |
| Csv.ParseRowsStep | client/src/lib/utils.ts:47-48 | a line, a newline and more lines read back as that line's cells before the other rows |
| Csv.RowLinesSplit | client/src/lib/utils.ts:42-48 | a body of two or more rows is the first row's line, a newline, then the body of the rest |
| Csv.ParseJoinedRows | client/src/lib/utils.ts:42-48 | the body reads back as the table: one line per row, \|headers\| cells each, no trailing newline |
| Csv.FirstLineOf | client/src/lib/utils.ts:40-41 | the unquoted header line ends at the first newline |
| Csv.CsvRoundTrip | client/src/lib/utils.ts:36-48 | when the first row has at least one key and no key contains ',' or a newline, the content reads back as the first row's keys and every row's cell texts |
| Csv.JoinFree | client/src/lib/utils.ts:40 | joining pieces that lack a character keeps it absent |
| Csv.CsvOfNothing | client/src/lib/utils.ts:33 | empty data produces no content |
| Csv.CsvEndsWithQuote | client/src/lib/utils.ts:39-48 | the content ends with the closing quote of the last cell, not a newline |
| Csv.LinesEndWithQuote | client/src/lib/utils.ts:42-48 | the body ends with a quote |
| Csv.LineEndsWithQuote | client/src/lib/utils.ts:46-47 | a non-empty row's line ends with a quote |
| Csv.QuoteEnds | client/src/lib/utils.ts:46 | a quoted cell ends with a quote |
| Csv.JoinLast | client/src/lib/utils.ts:48 | a join ends with its last part |
| Text.Join | client/src/lib/utils.ts:40-48 | `join(sep)` of the parts; no contract of its own, SplitJoin, JoinAppend and JoinLast state it |
| AccelerationChart.InitialVisibility | client/src/components/AccelerationChart.tsx:36-40 | all three axes start visible |
| AccelerationChart.ToggleAxis | client/src/components/AccelerationChart.tsx:50-55 | the toggled axis flips, and the other two keep their state |
| AccelerationChart.ToggleTwice | client/src/components/AccelerationChart.tsx:50-55 | toggling an axis twice restores the visibility |
| AccelerationChart.ChartLines | client/src/components/AccelerationChart.tsx:59-62 | the header line, then one line per sample, in input order |
| AccelerationChart.ChartCsvEmpty | client/src/components/AccelerationChart.tsx:59-62 | no data gives exactly the header line |
| AccelerationChart.ChartCsvStartsWithHeader | client/src/components/AccelerationChart.tsx:59-62 | the CSV always starts with "timestamp,x-axis,y-axis,z-axis\n" |
| AccelerationChart.ChartCsvIsLines | client/src/components/AccelerationChart.tsx:60-62 | the fold is those \|data\|+1 lines joined by newlines, with a final newline |
| AccelerationChart.RowTextFree | client/src/components/AccelerationChart.tsx:61 | a data line has no newline inside |
| AccelerationChart.ChartCsvSplits | client/src/components/AccelerationChart.tsx:59-62 | splitting on newlines gives back the header and the lines of the samples in order |
| AccelerationChart.RowTextFields | client/src/components/AccelerationChart.tsx:61 | a data line is four unquoted fields: timestamp, x, y, z |
| AccelerationChart.RowText | client/src/components/AccelerationChart.tsx:60 | a data line is the four printed numbers and three separators, nothing more |
| AccelerationChart.ChartCsv | client/src/components/AccelerationChart.tsx:59-61 | the fold of the data onto the header is non-empty and ends with a newline |
| StatsCards.NormalizePercentage | client/src/components/ExerciseStatsCards.tsx:22-24 | the result always lies in [0, 100] |
| StatsCards.NormalizeSymmetric | client/src/components/ExerciseStatsCards.tsx:23 | v and −v give the same percentage |
| StatsCards.NormalizeEnds | client/src/components/ExerciseStatsCards.tsx:23 | \|v\| ≥ range gives 100, and 0 gives 0 |
| StatsCards.NormalizeProportional | client/src/components/ExerciseStatsCards.tsx:23 | within the range, the result is \|v\|/range × 100 |
| StatsCards.NormalizeMonotone | client/src/components/ExerciseStatsCards.tsx:23 | for a positive range, the result is monotone in \|v\| |
| StatsCards.AxisPercentages | client/src/components/ExerciseStatsCards.tsx:26-28 | each bar lies in [0, 100], is full once its reading reaches its range (10, 15 and 8 for x, y and z), and is empty at zero |
| StatsCards.SessionButtonHandler | client/src/components/ExerciseStatsCards.tsx:44 | the button stops when active and starts when inactive, and nothing else |
| Frame.GetWord | client/src/hooks/useBluetooth.ts:109-111 | a word is read exactly when 4 bytes exist at the offset |
| Frame.WordLE | client/src/hooks/useBluetooth.ts:109-111 | a little-endian word: its lowest byte is the first byte and its highest byte the last |
| Frame.DecodeFrame | client/src/hooks/useBluetooth.ts:106-113 | decoding succeeds exactly when there are at least 12 bytes, and gives the LE words at 0, 4 and 8 |
| Frame.EncodeWord | client/src/hooks/useBluetooth.ts:109-111 | a word is 4 bytes |
| Frame.DecodeEncodeWord | client/src/hooks/useBluetooth.ts:109-111 | a little-endian word reads back as itself |
| Frame.EncodeDecodeWord | client/src/hooks/useBluetooth.ts:109-111 | four bytes are the encoding of the word they read as |
| Frame.EncodeFrame | client/src/hooks/useBluetooth.ts:109-111 | a frame is 12 bytes |
| Frame.GetWordPrefix | client/src/hooks/useBluetooth.ts:109-111 | a word depends only on its own four bytes |
| Frame.GetWordShift | client/src/hooks/useBluetooth.ts:109-111 | a word read after a prefix is read at the shifted offset |
| Frame.DecodeIgnoresTrailing | client/src/hooks/useBluetooth.ts:106-111 | bytes after the first 12 do not change the decoded words |
| Frame.DecodeEncodeFrame | client/src/hooks/useBluetooth.ts:106-113 | an encoded frame, with any bytes after it, decodes to its three words |
| Frame.EncodeDecodeFrame | client/src/hooks/useBluetooth.ts:106-113 | the words decoded from a buffer re-encode its first 12 bytes |
| Frame.SignBit | client/src/hooks/useBluetooth.ts:109 | the binary32 sign is one bit |
| Frame.BiasedExponent | client/src/hooks/useBluetooth.ts:109 | the binary32 biased exponent has 8 bits |
| Frame.TrailingSignificand | client/src/hooks/useBluetooth.ts:109 | the binary32 trailing significand has 23 bits |
| Frame.FieldsCompose | client/src/hooks/useBluetooth.ts:109 | sign, exponent and significand recompose the word |
| BluetoothHook.DisplayName | client/src/hooks/useBluetooth.ts:41 | a missing or empty name becomes "Unknown Device"; any other name is kept |
| BluetoothHook.ScanErrors | client/src/hooks/useBluetooth.ts:43-46 | a NotFoundError is dropped, and every other error goes to onError |
| BluetoothHook.ConnectError | client/src/hooks/useBluetooth.ts:58-94 | no error reaches onError exactly when every step succeeds, notifications included |
| BluetoothHook.Bluetooth.constructor | client/src/hooks/useBluetooth.ts:9-15 | disconnected, not scanning, no devices, no session, zero acceleration |
| BluetoothHook.Bluetooth.StartScan | client/src/hooks/useBluetooth.ts:22-31 | without Web Bluetooth: one error, not scanning, device list kept; otherwise scanning with an emptied list |
| BluetoothHook.Bluetooth.ScanSettled | client/src/hooks/useBluetooth.ts:39-49 | a chosen device is listed with its display name; other errors than NotFoundError are reported; not scanning afterwards |
| BluetoothHook.Bluetooth.StartScanToCompletion | client/src/hooks/useBluetooth.ts:22-50 | a successful scan leaves exactly one device listed; every outcome ends not scanning |
| BluetoothHook.Bluetooth.StopScan | client/src/hooks/useBluetooth.ts:53-55 | not scanning, and nothing else changes |
| BluetoothHook.Bluetooth.ConnectToDevice | client/src/hooks/useBluetooth.ts:58-95 | `deviceId` is ignored; the connection fields are set only once the characteristic is found, before notifications start, so a later failure leaves the hook connected while reporting; earlier failures leave them unchanged; the first failing step's error is reported |
| BluetoothHook.Bluetooth.GattServerDisconnected | client/src/hooks/useBluetooth.ts:70-74 | the connection, device and characteristic are cleared, and `isSessionActive` is kept |
| BluetoothHook.Bluetooth.CharacteristicValueChanged | client/src/hooks/useBluetooth.ts:98-118 | a value of 12 or more bytes replaces the acceleration with the decoded words; anything else leaves it unchanged and reports nothing |
| BluetoothHook.Bluetooth.StartSession | client/src/hooks/useBluetooth.ts:121-133 | without a connection: "Please connect to a device first." is reported and nothing is written; otherwise the session is active and exactly the byte 1 is written; a failed write is reported and changes nothing else |
| BluetoothHook.Bluetooth.StopSession | client/src/hooks/useBluetooth.ts:136-146 | a silent no-op without a connection; otherwise the session is inactive and exactly the byte 0 is written |
| Text.Split | client/src/lib/utils.ts:40-48 | splitting gives at least one piece |
| Text.SplitFree | client/src/lib/utils.ts:40-48 | a text without the separator splits into itself |
| Text.SplitAfterPiece | client/src/lib/utils.ts:40-48 | a piece followed by the separator splits off first |
| Text.JoinAppend | client/src/lib/utils.ts:40-48 | joining an extra part adds the separator and the part |
| Text.SplitJoin | client/src/lib/utils.ts:40-48 | splitting a join of separator-free parts gives the parts back |
| Text.NatToString | client/src/lib/utils.ts:13 | `toString` of a natural number is non-empty decimal digits, one digit exactly below 10 |
| Text.IntToString | client/src/lib/utils.ts:13 | the text starts with '-' exactly when the number is negative; the digits after the sign, or the whole text for a non-negative number, read back as its absolute value |
| Text.DigitChar | client/src/lib/utils.ts:13 | the digit character of d has code '0' + d |
| Text.ParseNatToString | client/src/lib/utils.ts:13 | printed digits read back as the number |
| Text.ParseLeadingZero | client/src/lib/utils.ts:13 | a leading zero does not change the value read |
| Text.NatToStringLength | client/src/lib/utils.ts:13 | a number prints in at most two digits exactly when it is below 100 |
| Text.PadStart2 | client/src/lib/utils.ts:13 | `padStart(2, '0')` keeps texts of two or more characters and left-fills shorter ones with '0' to length 2 |
| Text.ParsePadded | client/src/lib/utils.ts:13 | a padded field reads back as its number |

## Left out

- Floating point: samples and magnitudes are exact reals. Rounding of JavaScript numbers, NaN and the binary32 → number conversion are not modelled. The decoder yields the three words as bit patterns.
- `Math.sqrt` is not modelled: the magnitude is given with the reading and constrained by its square.
- ExerciseDataHook.AverageRepTimeText: its contract states the shape of `toFixed(1)` of the mean's seconds and the reset value "0.0s", not that the digits read back as the rounded mean. The model keeps the exact mean in milliseconds.
- ExerciseDataHook.ExerciseData.Valid: the class invariant keeps only `magnitude ≥ 0` of the held reading, not `m² = x²+y²+z²`; every reading that enters the class (Ingest, the constructor) is still required to satisfy both.
- Frame.SignBit, Frame.BiasedExponent, Frame.TrailingSignificand, Frame.FieldsCompose: document the binary32 layout of the decoded words only; no conversion to a number uses them.
- `toFixed` switching to exponent notation at 1e21 and above is not modelled.
- StatsCards.NormalizePercentage: requires a non-zero range, because division by zero gives Infinity or NaN in the code; the three ranges used are non-zero.
- Asynchrony: every handler of `useBluetooth` runs to completion with its platform outcomes given in advance, except startScan, which is split at its `await`. Interleavings of concurrent handlers and stale `useCallback` closures are not modelled.
- React's scheduling: effects run synchronously, in declaration order, on each prop change; state setters apply immediately. The `requestAnimationFrame` loop is a flag, and one frame is one `Tick` call.
- The unmount cleanup of `useBluetooth` (useBluetooth.ts:149-158) is best-effort platform I/O.
- `console.error` logging of a frame that fails to decode has no effect in the model.
- BluetoothHook.Bluetooth.CharacteristicValueChanged: takes the bytes of `value.buffer`, the whole backing buffer, as the code reads it; a view that starts at a non-zero offset of its buffer is not modelled.
- Csv.Keys: keys are taken in the row's own order; the ordering JavaScript's `Object.keys` gives integer-like keys is not modelled.
- The Blob, URL and DOM link handling of both CSV downloads, and `cn`, are presentation plumbing.
- JSX rendering, `Home.tsx` wiring, `shared/schema.ts` and `server/routes.ts` are not part of this model.
