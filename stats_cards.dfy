/**
  The logic of client/src/components/ExerciseStatsCards.tsx: the bar length
  normalizePercentage gives each axis, and which handler the single session
  button calls.
 */
module StatsCards {

  const XRange: real := 10.0
  const YRange: real := 15.0
  const ZRange: real := 8.0

  function Abs(v: real): real
  {
    if v < 0.0 then -v else v
  }

  function Min(a: real, b: real): real
  {
    if a <= b then a else b
  }

  function Max(a: real, b: real): real
  {
    if a >= b then a else b
  }

  /** `Math.min(100, Math.max(0, (Math.abs(value) / range) * 100))` */
  function NormalizePercentage(value: real, range: real): (p: real)
    requires range != 0.0
    ensures 0.0 <= p <= 100.0
  {
    Min(100.0, Max(0.0, (Abs(value) / range) * 100.0))
  }

  /** Only the size of the reading matters, not its sign. */
  lemma NormalizeSymmetric(value: real, range: real)
    requires range != 0.0
    ensures NormalizePercentage(value, range) == NormalizePercentage(-value, range)
  {
  }

  /** A reading at or beyond the range fills the bar; zero leaves it empty. */
  lemma NormalizeEnds(value: real, range: real)
    requires range > 0.0
    ensures Abs(value) >= range ==> NormalizePercentage(value, range) == 100.0
    ensures value == 0.0 ==> NormalizePercentage(value, range) == 0.0
  {
    if Abs(value) >= range {
      QuotientAtLeastOne(Abs(value), range);
    }
  }

  /** For a positive divisor, a dividend at least as large gives a quotient of at least one. */
  lemma QuotientAtLeastOne(a: real, b: real)
    requires b > 0.0 && a >= b
    ensures a / b >= 1.0
  {
    var q := a / b;
    assert q * b == a;
    assert (q - 1.0) * b == a - b;
  }

  /** Inside the range the bar is proportional to the reading. */
  lemma NormalizeProportional(value: real, range: real)
    requires range > 0.0 && Abs(value) <= range
    ensures NormalizePercentage(value, range) == Abs(value) / range * 100.0
  {
    assert Abs(value) / range <= 1.0;
  }

  /** A larger reading never gives a shorter bar. */
  lemma NormalizeMonotone(a: real, b: real, range: real)
    requires range > 0.0 && Abs(a) <= Abs(b)
    ensures NormalizePercentage(a, range) <= NormalizePercentage(b, range)
  {
    assert Abs(a) / range <= Abs(b) / range;
  }

  /** The three bars use ranges 10, 15 and 8 for x, y and z: each bar is
      full once its reading reaches its range, and empty at zero. */
  function AxisPercentages(x: real, y: real, z: real): (p: (real, real, real))
    ensures 0.0 <= p.0 <= 100.0 && 0.0 <= p.1 <= 100.0 && 0.0 <= p.2 <= 100.0
    ensures (Abs(x) >= 10.0 ==> p.0 == 100.0) && (Abs(y) >= 15.0 ==> p.1 == 100.0) && (Abs(z) >= 8.0 ==> p.2 == 100.0)
    ensures (x == 0.0 ==> p.0 == 0.0) && (y == 0.0 ==> p.1 == 0.0) && (z == 0.0 ==> p.2 == 0.0)
  {
    NormalizeEnds(x, XRange);
    NormalizeEnds(y, YRange);
    NormalizeEnds(z, ZRange);
    (NormalizePercentage(x, XRange), NormalizePercentage(y, YRange), NormalizePercentage(z, ZRange))
  }

  datatype SessionHandler = OnStartSession | OnStopSession

  /** `onClick={isSessionActive ? onStopSession : onStartSession}` */
  function SessionButtonHandler(isSessionActive: bool): (h: SessionHandler)
    ensures h == OnStopSession <==> isSessionActive
    ensures h == OnStartSession <==> !isSessionActive
  {
    if isSessionActive then OnStopSession else OnStartSession
  }
}
