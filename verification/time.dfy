/** Time text of the calculator: `parseTimeInput` ("m:s" to seconds and canonical
    "MM:SS") and `formatTime` (seconds to "HH:MM:SS"). */
module TimeText {
  import opened Text
  import opened Numbers

  /** The result of `parseTimeInput`. */
  datatype TimeInfo = TimeInfo(totalSeconds: nat, normalized: string)

  /** The canonical "MM:SS" text of a minute and second count. */
  function MinSec(minutes: nat, seconds: nat): string {
    Pad2(NatToDecimal(minutes)) + [':'] + Pad2(NatToDecimal(seconds))
  }

  /** The canonical text splits into two digit fields that spell the minutes and seconds. */
  lemma MinSecFields(minutes: nat, seconds: nat)
    ensures var fields := Split(MinSec(minutes, seconds), ':');
      && |fields| == 2 && AllDigits(fields[0]) && AllDigits(fields[1])
      && DigitsValue(fields[0]) == minutes && DigitsValue(fields[1]) == seconds
      && |fields[0]| >= 2 && (minutes < 100 ==> |fields[0]| == 2) && (seconds < 100 ==> |fields[1]| == 2)
      && MinSec(minutes, seconds) == fields[0] + ":" + fields[1]
  {
    var m := Pad2(NatToDecimal(minutes));
    var s := Pad2(NatToDecimal(seconds));
    PaddedDecimal(minutes);
    PaddedDecimal(seconds);
    PaddedNoSeparator(minutes);
    PaddedNoSeparator(seconds);
    SplitPair(m, ':', s);
  }

  /** The minute field: a missing or non-numeric part is 0, the rest is floored at 0 and above. */
  function MinutesField(part: string): nat {
    FloorNat(SanitizeNumber(part, 0.0, Unbounded))
  }

  /** The second field, clamped to 0..59 before flooring. */
  function SecondsField(part: string): (s: nat)
    ensures s <= 59
  {
    FloorNat(SanitizeNumber(part, 0.0, AtMost(59.0)))
  }

  /** The minutes and seconds read from non-blank, trimmed text: `parts[1] ?? "0"`. */
  function TimeFields(cleaned: string): (f: (nat, nat))
    ensures f.1 <= 59
  {
    var parts := Split(cleaned, ':');
    (MinutesField(parts[0]), SecondsField(if |parts| > 1 then parts[1] else "0"))
  }

  /** `parseTimeInput`: "m:s" text to total seconds and canonical "MM:SS". */
  function ParseTimeInput(value: string): TimeInfo {
    Normalized(TimeOf(value))
  }

  /** The minutes and seconds of time text; blank text is zero. */
  function TimeOf(value: string): (f: (nat, nat))
    ensures f.1 <= 59
  {
    var cleaned := Trim(value);
    if cleaned == [] then (0, 0) else TimeFields(cleaned)
  }

  function Normalized(f: (nat, nat)): TimeInfo {
    TimeInfo(f.0 * 60 + f.1, MinSec(f.0, f.1))
  }

  /** The canonical text has two digit fields, the seconds two digits below 60, and it
      spells the total. */
  lemma ParseTimeInputCanonical(value: string)
    ensures var fields := Split(ParseTimeInput(value).normalized, ':');
      && |fields| == 2
      && |fields[0]| >= 2 && |fields[1]| == 2
      && AllDigits(fields[0]) && AllDigits(fields[1])
      && DigitsValue(fields[1]) < 60
      && ParseTimeInput(value).totalSeconds == DigitsValue(fields[0]) * 60 + DigitsValue(fields[1])
  {
    var f := TimeOf(value);
    MinSecFields(f.0, f.1);
  }

  /** Empty or blank input is zero time, "00:00". */
  lemma ParseTimeInputBlank(value: string)
    requires AllSpace(value)
    ensures ParseTimeInput(value) == TimeInfo(0, "00:00")
  {
    TrimProperties(value);
    assert MinSec(0, 0) == "00:00";
  }

  /** A minute field is its parsed value floored, or 0 when that is negative or NaN. */
  lemma MinutesFieldValue(part: string)
    ensures var m := ParseFloat(part);
      MinutesField(part) == if m.Num? && m.value >= 0.0 then m.value.Floor else 0
  {
  }

  /** A second field is its parsed value floored and clamped to 0..59, or 0 for NaN. */
  lemma SecondsFieldValue(part: string)
    ensures var s := ParseFloat(part);
      SecondsField(part) == if s.Num? && s.value >= 59.0 then 59
                            else if s.Num? && s.value >= 0.0 then s.value.Floor else 0
  {
  }

  /** Non-blank input: minutes floored and at least 0, seconds floored and clamped to
      0..59, a missing or non-numeric part counting as 0, both parts zero-padded. */
  lemma ParseTimeInputFields(value: string)
    requires !AllSpace(value)
    ensures var parts := Split(Trim(value), ':');
      var m := ParseFloat(parts[0]);
      var s := if |parts| > 1 then ParseFloat(parts[1]) else NaN;
      var minutes := if m.Num? && m.value >= 0.0 then m.value.Floor else 0;
      var seconds := if s.Num? && s.value >= 59.0 then 59
                     else if s.Num? && s.value >= 0.0 then s.value.Floor else 0;
      && ParseTimeInput(value).totalSeconds == minutes * 60 + seconds
      && ParseTimeInput(value).normalized == Pad2(NatToDecimal(minutes)) + ":" + Pad2(NatToDecimal(seconds))
  {
    TrimProperties(value);
    var parts := Split(Trim(value), ':');
    MinutesFieldValue(parts[0]);
    if |parts| > 1 {
      SecondsFieldValue(parts[1]);
    } else {
      ParseFloatDigits("0");
      SecondsFieldValue("0");
    }
  }

  /** The canonical text parses back to the minutes and seconds it spells. */
  lemma ParseMinSec(minutes: nat, seconds: nat)
    requires seconds <= 59
    ensures TimeOf(MinSec(minutes, seconds)) == (minutes, seconds)
  {
    var n := MinSec(minutes, seconds);
    MinSecFields(minutes, seconds);
    var fields := Split(n, ':');
    DigitsHaveNoSeparator(fields[0]);
    DigitsHaveNoSeparator(fields[1]);
    assert n[0] == fields[0][0] && n[|n| - 1] == fields[1][1];
    TrimIdentity(n);
    TrimProperties(n);
    ParseFloatDigits(fields[0]);
    ParseFloatDigits(fields[1]);
    assert TimeFields(n) == (minutes, seconds);
  }

  /** Normalising is idempotent: the canonical text parses back to the same time. */
  lemma ParseTimeInputIdempotent(value: string)
    ensures ParseTimeInput(ParseTimeInput(value).normalized) == ParseTimeInput(value)
  {
    var f := TimeOf(value);
    ParseMinSec(f.0, f.1);
  }

  /** `Math.max(0, Math.round(totalSeconds))`. */
  function SafeSeconds(totalSeconds: real): nat {
    if Round(totalSeconds) < 0 then 0 else Round(totalSeconds)
  }

  /** Three counts, each zero-padded to two digits, joined by colons. */
  function Clock(hours: nat, minutes: nat, seconds: nat): string {
    Pad2(NatToDecimal(hours)) + [':'] + MinSec(minutes, seconds)
  }

  /** `formatTime`: seconds, rounded and floored at zero, as "HH:MM:SS". */
  function FormatTime(totalSeconds: real): string {
    var safe := SafeSeconds(totalSeconds);
    Clock(safe / 3600, (safe % 3600) / 60, safe % 60)
  }

  /** A clock splits at its colons into its three padded fields. */
  lemma ClockFields(hours: nat, minutes: nat, seconds: nat)
    ensures Split(Clock(hours, minutes, seconds), ':')
      == [Pad2(NatToDecimal(hours)), Pad2(NatToDecimal(minutes)), Pad2(NatToDecimal(seconds))]
  {
    PaddedNoSeparator(hours);
    PaddedNoSeparator(minutes);
    PaddedNoSeparator(seconds);
    SplitAt(Pad2(NatToDecimal(hours)), ':', MinSec(minutes, seconds));
    SplitPair(Pad2(NatToDecimal(minutes)), ':', Pad2(NatToDecimal(seconds)));
  }

  lemma ClockArithmetic(n: nat)
    ensures (n % 3600) / 60 < 60 && n % 60 < 60
    ensures (n / 3600) * 3600 + ((n % 3600) / 60) * 60 + n % 60 == n
  {
    assert n % 60 == (n % 3600) % 60;
  }

  /** The fields of a clock: at least two digits each, exactly two below 100. */
  lemma ClockShape(hours: nat, minutes: nat, seconds: nat)
    ensures var fields := Split(Clock(hours, minutes, seconds), ':');
      && |fields| == 3 && fields[0] == Pad2(NatToDecimal(hours))
      && AllDigits(fields[0]) && AllDigits(fields[1]) && AllDigits(fields[2])
      && DigitsValue(fields[0]) == hours && DigitsValue(fields[1]) == minutes && DigitsValue(fields[2]) == seconds
      && |fields[0]| >= 2 && (minutes < 100 ==> |fields[1]| == 2) && (seconds < 100 ==> |fields[2]| == 2)
  {
    ClockFields(hours, minutes, seconds);
    PaddedDecimal(hours);
    PaddedDecimal(minutes);
    PaddedDecimal(seconds);
  }

  /** The clock of a non-negative count of seconds: its fields spell hours, minutes below 60
      and seconds below 60 that add back up to the count. */
  lemma SecondsClock(safe: nat)
    ensures var fields := Split(Clock(safe / 3600, (safe % 3600) / 60, safe % 60), ':');
      && |fields| == 3 && |fields[0]| >= 2 && |fields[1]| == 2 && |fields[2]| == 2
      && AllDigits(fields[0]) && AllDigits(fields[1]) && AllDigits(fields[2])
      && DigitsValue(fields[1]) < 60 && DigitsValue(fields[2]) < 60
      && DigitsValue(fields[0]) * 3600 + DigitsValue(fields[1]) * 60 + DigitsValue(fields[2]) == safe
  {
    ClockArithmetic(safe);
    ClockShape(safe / 3600, (safe % 3600) / 60, safe % 60);
  }

  /** `formatTime` prints "HH:MM:SS": at least two hour digits, two minute and two second
      digits below 60, and the three read back as the rounded total, or 0 when that is
      negative. */
  lemma FormatTimeRoundTrip(totalSeconds: real)
    ensures var fields := Split(FormatTime(totalSeconds), ':');
      && |fields| == 3 && |fields[0]| >= 2 && |fields[1]| == 2 && |fields[2]| == 2
      && AllDigits(fields[0]) && AllDigits(fields[1]) && AllDigits(fields[2])
      && DigitsValue(fields[1]) < 60 && DigitsValue(fields[2]) < 60
      && DigitsValue(fields[0]) * 3600 + DigitsValue(fields[1]) * 60 + DigitsValue(fields[2])
         == if Round(totalSeconds) < 0 then 0 else Round(totalSeconds)
  {
    SecondsClock(SafeSeconds(totalSeconds));
  }

  /** A negative count shows as zero time. */
  lemma FormatTimeNegative(totalSeconds: real)
    requires totalSeconds < 0.0
    ensures FormatTime(totalSeconds) == "00:00:00"
  {
    assert NatToDecimal(0) == "0";
  }

  /** A digit field read as minutes is its value; read as seconds it is capped at 59. */
  lemma DigitFields(a: string)
    requires a != [] && AllDigits(a)
    ensures MinutesField(a) == DigitsValue(a)
    ensures SecondsField(a) == if DigitsValue(a) > 59 then 59 else DigitsValue(a)
  {
    ParseFloatDigits(a);
  }

  /** Digits, a colon, digits: the minutes as written, the seconds capped at 59. */
  lemma ParseDigitPair(a: string, b: string)
    requires a != [] && AllDigits(a) && b != [] && AllDigits(b)
    ensures TimeOf(a + [':'] + b) == (DigitsValue(a), if DigitsValue(b) > 59 then 59 else DigitsValue(b))
  {
    var text := a + [':'] + b;
    DigitsHaveNoSeparator(a);
    DigitsHaveNoSeparator(b);
    SplitPair(a, ':', b);
    assert text[0] == a[0] && text[|text| - 1] == b[|b| - 1];
    TrimIdentity(text);
    TrimProperties(text);
    DigitFields(a);
    DigitFields(b);
  }
}
