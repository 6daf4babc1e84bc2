/**
  formatDuration of client/src/lib/utils.ts: milliseconds to `HH:MM:SS`.
  The session timer of the exercise hook computes the same string from the
  elapsed time, so the timer uses this function too.

  The source computes `Math.floor((ms / 1000) % 60)`, with `%` JavaScript's
  remainder that truncates toward zero, then `Math.floor`; for a negative
  `ms` the fields are negative and print with a minus sign. Both are written
  out here over integers, so the function is total.
 */
module Duration {
  import opened Text

  const MsPerSecond: int := 1000
  const MsPerMinute: int := 60000
  const MsPerHour: int := 3600000

  /** JavaScript's `Math.trunc(a / b)` for a positive divisor: the quotient
      whose remainder `a - q * b` has the sign of `a` and is smaller than `b`
      in size, as `%` defines it. */
  function TruncDiv(a: int, b: int): (q: int)
    requires b > 0
    ensures a >= 0 ==> 0 <= a - q * b < b
    ensures a < 0 ==> -b < a - q * b <= 0
  {
    if a >= 0 then a / b else -((-a) / b)
  }

  /** `Math.floor((ms / 1000) % 60)` */
  function SecondsField(ms: int): (s: int)
    ensures -60 <= s < 60
    ensures ms >= 0 ==> s >= 0
  {
    (ms - MsPerMinute * TruncDiv(ms, MsPerMinute)) / MsPerSecond
  }

  /** `Math.floor((ms / (1000 * 60)) % 60)` */
  function MinutesField(ms: int): (m: int)
    ensures -60 <= m < 60
    ensures ms >= 0 ==> m >= 0
  {
    (ms - MsPerHour * TruncDiv(ms, MsPerHour)) / MsPerMinute
  }

  /** `Math.floor(ms / (1000 * 60 * 60))` */
  function HoursField(ms: int): (h: int)
    ensures h * 3600000 <= ms < h * 3600000 + 3600000
  {
    ms / MsPerHour
  }

  /** Three fields, each padded to at least two characters, joined by ':'. */
  function FormatDuration(ms: int): (text: string)
    ensures |text| >= 8
  {
    PadStart2(IntToString(HoursField(ms))) + ":" +
    PadStart2(IntToString(MinutesField(ms))) + ":" +
    PadStart2(IntToString(SecondsField(ms)))
  }

  /** For ms ≥ 0 the seconds field is the whole seconds modulo 60. */
  lemma SecondsOfNonNegative(ms: int)
    requires ms >= 0
    ensures SecondsField(ms) == (ms / 1000) % 60 == (ms % 60000) / 1000
    ensures 0 <= SecondsField(ms) < 60
  {
    var q, r := ms / 60000, ms % 60000;
    assert ms == 60000 * q + r;
    var s := r / 1000;
    assert ms == 1000 * (60 * q + s) + r % 1000;
    assert ms / 1000 == 60 * q + s;
  }

  /** For ms ≥ 0 the minutes field is the whole minutes modulo 60. */
  lemma MinutesOfNonNegative(ms: int)
    requires ms >= 0
    ensures MinutesField(ms) == (ms / 60000) % 60 == (ms % 3600000) / 60000
    ensures 0 <= MinutesField(ms) < 60
  {
    var q, r := ms / 3600000, ms % 3600000;
    assert ms == 3600000 * q + r;
    var m := r / 60000;
    assert ms == 60000 * (60 * q + m) + r % 60000;
    assert ms / 60000 == 60 * q + m;
  }

  /** For a non-negative duration the fields are whole seconds, minutes and
      hours, seconds and minutes below 60, and together they account for `ms`
      to within the dropped sub-second part. */
  lemma FieldsOfNonNegative(ms: int)
    requires ms >= 0
    ensures SecondsField(ms) == (ms / 1000) % 60
    ensures MinutesField(ms) == (ms / 60000) % 60
    ensures HoursField(ms) == ms / 3600000
    ensures 0 <= SecondsField(ms) < 60 && 0 <= MinutesField(ms) < 60 && HoursField(ms) >= 0
    ensures var whole := HoursField(ms) * 3600000 + MinutesField(ms) * 60000 + SecondsField(ms) * 1000;
            whole <= ms < whole + 1000
  {
    SecondsOfNonNegative(ms);
    MinutesOfNonNegative(ms);
    ClockParts(ms);
  }

  /** Whole hours, the minutes left over and the seconds left over after
      those add up to `ms` less its sub-second part. */
  lemma ClockParts(ms: int)
    requires ms >= 0
    ensures var whole := (ms / 3600000) * 3600000 + ((ms % 3600000) / 60000) * 60000 + ((ms % 60000) / 1000) * 1000;
            whole <= ms < whole + 1000
  {
    var h, r1 := ms / 3600000, ms % 3600000;
    var m, r2 := r1 / 60000, r1 % 60000;
    assert ms == 3600000 * h + r1;
    assert r1 == 60000 * m + r2;
    assert r2 == ms % 60000 by {
      assert ms == 60000 * (60 * h + m) + r2;
    }
    var sec := r2 / 1000;
    assert r2 == 1000 * sec + r2 % 1000;
  }

  lemma FormatZero()
    ensures FormatDuration(0) == "00:00:00"
  {
  }

  /** Every duration under one second shows as zero. */
  lemma FormatUnderASecond(ms: int)
    requires 0 <= ms < 1000
    ensures FormatDuration(ms) == "00:00:00"
  {
    FieldsOfNonNegative(ms);
  }

  lemma PaddedShape(n: nat)
    requires n < 100
    ensures |PadStart2(NatToString(n))| == 2 && AllDigits(PadStart2(NatToString(n)))
  {
    NatToStringLength(n);
  }

  /** Three two-digit fields joined by ':' read `DD:DD:DD`. */
  lemma ClockShape(hs: string, mt: string, st: string)
    requires |hs| == 2 && |mt| == 2 && |st| == 2
    requires AllDigits(hs) && AllDigits(mt) && AllDigits(st)
    ensures var r := hs + ":" + mt + ":" + st;
      |r| == 8 && r[2] == ':' && r[5] == ':' &&
      forall i :: 0 <= i < 8 && i != 2 && i != 5 ==> IsDigit(r[i])
  {
    var r := hs + ":" + mt + ":" + st;
    forall i | 0 <= i < 8 && i != 2 && i != 5 ensures IsDigit(r[i]) {
      if i < 2 { assert r[i] == hs[i]; }
      else if i < 5 { assert r[i] == mt[i - 3]; }
      else { assert r[i] == st[i - 6]; }
    }
  }

  /** Under 100 hours the text is exactly `DD:DD:DD`. */
  lemma FormatShape(ms: int)
    requires 0 <= ms < 100 * MsPerHour
    ensures var r := FormatDuration(ms);
      |r| == 8 && r[2] == ':' && r[5] == ':' &&
      forall i :: 0 <= i < 8 && i != 2 && i != 5 ==> IsDigit(r[i])
  {
    FieldsOfNonNegative(ms);
    var h, m, sec := HoursField(ms), MinutesField(ms), SecondsField(ms);
    assert h < 100;
    PaddedShape(h);
    PaddedShape(m);
    PaddedShape(sec);
    var hs, mt, st := PadStart2(NatToString(h)), PadStart2(NatToString(m)), PadStart2(NatToString(sec));
    assert hs + ":" + mt + ":" + st == FormatDuration(ms);
    ClockShape(hs, mt, st);
  }

  /** The hours field is only padded, never cut: from 100 hours on it is wider. */
  lemma FormatWideHours(ms: int)
    requires ms >= 100 * MsPerHour
    ensures |FormatDuration(ms)| > 8
  {
    FieldsOfNonNegative(ms);
    NatToStringLength(HoursField(ms));
    PaddedShape(MinutesField(ms));
    PaddedShape(SecondsField(ms));
  }

  /** A negative duration (a clock that went backwards) prints negative fields. */
  lemma FormatNegative()
    ensures FormatDuration(-500) == "-1:-1:-1"
  {
    assert SecondsField(-500) == -1;
    assert MinutesField(-500) == -1;
    assert HoursField(-500) == -1;
  }

  /** The floor of a negative remainder can reach −60: 59.999 s before the
      start prints a seconds field of −60. */
  lemma FormatSixtySecondsBack()
    ensures SecondsField(-59999) == -60
    ensures FormatDuration(-59999) == "-1:-1:-60"
  {
    assert MinutesField(-59999) == -1;
    assert HoursField(-59999) == -1;
    assert IntToString(-1) == "-1" && IntToString(-60) == "-60";
  }

  /** Reads `H..H:MM:SS` back as a count of whole seconds. */
  function ParseDuration(s: string): int
  {
    var n := |s|;
    if n < 6 || !AllDigits(s[..n - 6]) || !AllDigits(s[n - 5..n - 3]) || !AllDigits(s[n - 2..]) then -1
    else ParseDigits(s[..n - 6]) * 3600 + ParseDigits(s[n - 5..n - 3]) * 60 + ParseDigits(s[n - 2..])
  }

  /** The last two of three ':'-separated two-letter fields sit at fixed offsets from the end. */
  lemma SplitClock(hs: string, mt: string, st: string)
    requires |mt| == 2 && |st| == 2
    ensures var r := hs + ":" + mt + ":" + st; var n := |r|;
      n >= 6 && r[..n - 6] == hs && r[n - 5..n - 3] == mt && r[n - 2..] == st
  {
  }

  /** Whole seconds split into hours, minutes of the hour and seconds of the minute. */
  lemma WholeSeconds(ms: int)
    requires ms >= 0
    ensures ms / 1000 == (ms / 3600000) * 3600 + ((ms / 60000) % 60) * 60 + (ms / 1000) % 60
  {
    var t, r := ms / 1000, ms % 1000;
    var u, s := t / 60, t % 60;
    assert ms == 60000 * u + (1000 * s + r);
    assert u == ms / 60000;
    var h, m := u / 60, u % 60;
    assert ms == 3600000 * h + (60000 * m + 1000 * s + r);
    assert h == ms / 3600000;
  }

  /** Three padded fields, minutes and seconds below 60, read back as seconds. */
  lemma ParseClock(h: nat, m: nat, sec: nat)
    requires m < 60 && sec < 60
    ensures ParseDuration(PadStart2(NatToString(h)) + ":" + PadStart2(NatToString(m)) + ":" + PadStart2(NatToString(sec)))
      == h * 3600 + m * 60 + sec
  {
    var hs, mt, st := PadStart2(NatToString(h)), PadStart2(NatToString(m)), PadStart2(NatToString(sec));
    PaddedShape(m);
    PaddedShape(sec);
    ParsePadded(h);
    ParsePadded(m);
    ParsePadded(sec);
    SplitClock(hs, mt, st);
  }

  /** The formatted text carries the whole seconds of the duration. */
  lemma ParseFormat(ms: int)
    requires ms >= 0
    ensures ParseDuration(FormatDuration(ms)) == ms / 1000
  {
    FieldsOfNonNegative(ms);
    WholeSeconds(ms);
    var h, m, sec := HoursField(ms), MinutesField(ms), SecondsField(ms);
    ParseClock(h, m, sec);
    assert PadStart2(NatToString(h)) + ":" + PadStart2(NatToString(m)) + ":" + PadStart2(NatToString(sec)) == FormatDuration(ms);
  }
}
