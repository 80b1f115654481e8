/** The time utilities of `MediaInfo`: splitting a number of seconds into
    clock fields, printing it as `[H:]MM:SS[.fff]`, and reading such a
    string back into seconds. */
module Duration {
  import opened Common
  import opened Text

  /** The record `parse_duration` returns. `hours` is negative for a
      negative input; the other fields are always in range. */
  datatype Time = Time(hours: int, minutes: nat, seconds: nat, centis: nat, millis: nat)

  /** Seconds truncated (floored) to whole milliseconds. */
  function TruncateToMillis(s: real): real {
    (s * 1000.0).Floor as real / 1000.0
  }

  /** Truncation to milliseconds never moves a time later, and moves it
      earlier by less than a millisecond. */
  lemma TruncateToMillisBelow(s: real)
    ensures s - 0.001 < TruncateToMillis(s) <= s
  {
    var f := (s * 1000.0).Floor;
    assert f as real <= s * 1000.0 < f as real + 1.0;
  }

  /** The clock fields of `seconds`: whole hours, minutes and seconds, and
      the fraction of a second floored to milliseconds and to centiseconds. */
  function ParseDuration(seconds: real): (t: Time)
    ensures t.minutes < 60 && t.seconds < 60 && t.millis < 1000
  {
    var hours := (seconds / 3600.0).Floor;
    var rem := seconds - 3600.0 * hours as real;
    var minutes := (rem / 60.0).Floor;
    var rem2 := rem - 60.0 * minutes as real;
    var whole := rem2.Floor;
    var millis := ((rem2 - whole as real) * 1000.0).Floor;
    var centis := ((rem2 - whole as real) * 100.0).Floor;
    Time(hours, minutes, whole, centis, millis)
  }

  /** The whole seconds the clock fields stand for. */
  function WholeSeconds(t: Time): int {
    3600 * t.hours + 60 * t.minutes + t.seconds
  }

  /** The clock fields add up to the input truncated to milliseconds, and the
      centiseconds are the milliseconds divided by ten. */
  lemma ParseDurationSum(seconds: real)
    ensures var t := ParseDuration(seconds);
      && WholeSeconds(t) as real + t.millis as real / 1000.0 == TruncateToMillis(seconds)
      && t.centis == t.millis / 10
      && (seconds >= 0.0 ==> t.hours >= 0)
  {
    var t := ParseDuration(seconds);
    var frac := seconds - WholeSeconds(t) as real;
    assert 0.0 <= frac < 1.0;
    assert seconds * 1000.0 == (1000 * WholeSeconds(t)) as real + frac * 1000.0;
    assert (seconds * 1000.0).Floor == 1000 * WholeSeconds(t) + t.millis;
    var y := frac * 1000.0;
    assert t.millis == y.Floor;
    assert t.centis == (y / 10.0).Floor;
    var c := t.millis / 10;
    assert 10 * c <= t.millis < 10 * c + 10;
    assert c as real <= y / 10.0 < (c + 1) as real;
  }

  /** The hours field as `pretty_duration` prints it: only when positive. */
  function HoursPrefix(t: Time): string {
    if t.hours > 0 then NatToString(t.hours) + ":" else ""
  }

  /** The digits after the decimal point, or none. */
  function Fraction(t: Time, showCentis: bool, showMillis: bool): string {
    if showMillis then PadLeft(NatToString(t.millis), 3)
    else if showCentis then PadLeft(NatToString(t.centis), 2)
    else ""
  }

  /** `pretty_duration`: `[H:]MM:SS`, then `.mmm` when `showMillis`, else
      `.cc` when `showCentis`. */
  function PrettyDuration(seconds: real, showCentis: bool, showMillis: bool): string {
    FormatTime(ParseDuration(seconds), showCentis, showMillis)
  }

  /** The clock fields printed: hours unpadded and only when positive,
      minutes and seconds padded to two digits, then the fraction. */
  function FormatTime(t: Time, showCentis: bool, showMillis: bool): string {
    var clock := HoursPrefix(t) + PadLeft(NatToString(t.minutes), 2) + ":" + PadLeft(NatToString(t.seconds), 2);
    if showCentis || showMillis then clock + "." + Fraction(t, showCentis, showMillis) else clock
  }

  /** The printed fields have fixed widths: two digits of minutes, two of
      seconds, and three (milliseconds) or two (centiseconds) or no digits
      of fraction; the hours field appears exactly when the hours are
      positive. */
  lemma PrettyDurationFieldWidths(seconds: real, showCentis: bool, showMillis: bool)
    ensures var t := ParseDuration(seconds);
      && |PadLeft(NatToString(t.minutes), 2)| == 2
      && |PadLeft(NatToString(t.seconds), 2)| == 2
      && |Fraction(t, showCentis, showMillis)| == (if showMillis then 3 else if showCentis then 2 else 0)
      && (HoursPrefix(t) != [] <==> t.hours >= 1)
  {
    var t := ParseDuration(seconds);
    ParseDurationSum(seconds);
    NatToStringLength(t.minutes, 2);
    NatToStringLength(t.seconds, 2);
    NatToStringLength(t.millis, 3);
    NatToStringLength(t.centis, 2);
  }

  /** `pretty_to_seconds`: `MM:SS[.f]` or `H:MM:SS[.f]` (fields past the
      third are ignored) as `h*3600 + m*60 + s + f/1000`. `None` where the
      program panics: a field that does not parse, or no ':' at all. */
  function PrettyToSeconds(pretty: string): (r: Option<real>)
    ensures r.Some? ==> r.value >= 0.0
  {
    var dotParts := Split(pretty, '.');
    var millis := if |dotParts| == 2 then ParseDecimal(dotParts[1]) else Some(0);
    var left := if |dotParts| == 2 then dotParts[0] else pretty;
    var fields := Split(left, ':');
    if |fields| < 2 then None
    else
      var hours := if |fields| < 3 then Some(0) else ParseDecimal(fields[0]);
      var minutes := if |fields| < 3 then ParseDecimal(fields[0]) else ParseDecimal(fields[1]);
      var secs := if |fields| < 3 then ParseDecimal(fields[1]) else ParseDecimal(fields[2]);
      if millis.None? || hours.None? || minutes.None? || secs.None? then None
      else Some(millis.value as real / 1000.0 + secs.value as real
                + minutes.value as real * 60.0 + hours.value as real * 3600.0)
  }

  /** The fraction digits read back as milliseconds (as the parser reads them). */
  function FractionAsMillis(t: Time, showCentis: bool, showMillis: bool): nat {
    if showMillis then t.millis else if showCentis then t.centis else 0
  }

  /** `H:MM:SS`, or `MM:SS` when there is no hours field. */
  function Clock(hh: string, mm: string, ss: string): string {
    (if hh == [] then "" else hh + ":") + mm + ":" + ss
  }

  lemma {:induction false} SplitClock(hh: string, mm: string, ss: string)
    requires AllDigits(hh) && AllDigits(mm) && AllDigits(ss)
    ensures '.' !in Clock(hh, mm, ss)
    ensures Split(Clock(hh, mm, ss), ':') == if hh == [] then [mm, ss] else [hh, mm, ss]
  {
    DigitsHaveNoSeparator(hh, '.');
    DigitsHaveNoSeparator(mm, '.');
    DigitsHaveNoSeparator(ss, '.');
    DigitsHaveNoSeparator(hh, ':');
    DigitsHaveNoSeparator(mm, ':');
    DigitsHaveNoSeparator(ss, ':');
    var tail := mm + ":" + ss;
    assert Split(tail, ':') == [mm, ss] by {
      assert tail == mm + [':'] + ss;
      SplitAtSeparator(mm, ss, ':');
      SplitNoSeparator(ss, ':');
    }
    if hh != [] {
      assert Clock(hh, mm, ss) == hh + [':'] + tail;
      SplitAtSeparator(hh, tail, ':');
    } else {
      assert Clock(hh, mm, ss) == tail;
    }
  }

  /** Splitting `clock[.ff]` on '.' separates the fraction digits, if any. */
  lemma {:induction false} SplitFraction(clock: string, ff: string, text: string)
    requires '.' !in clock && AllDigits(ff)
    requires text == if ff == [] then clock else clock + "." + ff
    ensures Split(text, '.') == if ff == [] then [clock] else [clock, ff]
  {
    if ff == [] {
      SplitNoSeparator(clock, '.');
    } else {
      DigitsHaveNoSeparator(ff, '.');
      SplitAtSeparator(clock, ff, '.');
      SplitNoSeparator(ff, '.');
      assert clock + "." + ff == clock + ['.'] + ff;
    }
  }

  /** Reading a text whose pieces are known: the fraction digits `ff`
      after the '.', and two or three ':'-separated digit fields before it. */
  lemma {:induction false} ReadPieces(text: string, left: string, ff: string, fields: seq<string>)
    requires AllDigits(ff) && 2 <= |fields| <= 3
    requires forall i | 0 <= i < |fields| :: fields[i] != [] && AllDigits(fields[i])
    requires Split(text, '.') == (if ff == [] then [text] else [left, ff])
    requires ff == [] ==> left == text
    requires Split(left, ':') == fields
    ensures var n := |fields|;
      PrettyToSeconds(text)
        == Some(DigitsValue(ff) as real / 1000.0 + DigitsValue(fields[n - 1]) as real
                + DigitsValue(fields[n - 2]) as real * 60.0
                + (if n == 3 then DigitsValue(fields[0]) else 0) as real * 3600.0)
  {
    assert ParseDecimal(ff) == Some(DigitsValue(ff)) || ff == [];
  }

  /** Reading `MM:SS[.f]` built from digit strings gives their values. */
  lemma {:induction false} ReadShortClock(mm: string, ss: string, ff: string, text: string)
    requires AllDigits(mm) && AllDigits(ss) && AllDigits(ff) && mm != [] && ss != []
    requires text == if ff == [] then Clock([], mm, ss) else Clock([], mm, ss) + "." + ff
    ensures PrettyToSeconds(text)
        == Some(DigitsValue(ff) as real / 1000.0 + DigitsValue(ss) as real + DigitsValue(mm) as real * 60.0)
  {
    var clock := Clock([], mm, ss);
    SplitClock([], mm, ss);
    SplitFraction(clock, ff, text);
    ReadPieces(text, clock, ff, [mm, ss]);
  }

  /** Reading `H:MM:SS[.f]` built from digit strings gives their values. */
  lemma {:induction false} ReadLongClock(hh: string, mm: string, ss: string, ff: string, text: string)
    requires AllDigits(hh) && AllDigits(mm) && AllDigits(ss) && AllDigits(ff)
    requires hh != [] && mm != [] && ss != []
    requires text == if ff == [] then Clock(hh, mm, ss) else Clock(hh, mm, ss) + "." + ff
    ensures PrettyToSeconds(text)
        == Some(DigitsValue(ff) as real / 1000.0 + DigitsValue(ss) as real
                + DigitsValue(mm) as real * 60.0 + DigitsValue(hh) as real * 3600.0)
  {
    var clock := Clock(hh, mm, ss);
    SplitClock(hh, mm, ss);
    SplitFraction(clock, ff, text);
    ReadPieces(text, clock, ff, [hh, mm, ss]);
  }

  /** Reading `[H:]MM:SS[.f]` built from digit strings gives their values. */
  lemma {:induction false} ReadClock(hh: string, mm: string, ss: string, ff: string, text: string)
    requires AllDigits(hh) && AllDigits(mm) && AllDigits(ss) && AllDigits(ff)
    requires mm != [] && ss != []
    requires text == if ff == [] then Clock(hh, mm, ss) else Clock(hh, mm, ss) + "." + ff
    ensures PrettyToSeconds(text)
        == Some(DigitsValue(ff) as real / 1000.0 + DigitsValue(ss) as real
                + DigitsValue(mm) as real * 60.0 + DigitsValue(hh) as real * 3600.0)
  {
    if hh == [] {
      ReadShortClock(mm, ss, ff, text);
    } else {
      ReadLongClock(hh, mm, ss, ff, text);
    }
  }

  /** The digit strings `FormatTime` is built from, and their values. */
  lemma FormatTimePieces(t: Time, showCentis: bool, showMillis: bool)
    returns (hh: string, mm: string, ss: string, ff: string)
    ensures AllDigits(hh) && AllDigits(mm) && AllDigits(ss) && AllDigits(ff) && mm != [] && ss != []
    ensures FormatTime(t, showCentis, showMillis)
         == if ff == [] then Clock(hh, mm, ss) else Clock(hh, mm, ss) + "." + ff
    ensures DigitsValue(hh) == (if t.hours > 0 then t.hours else 0)
    ensures DigitsValue(mm) == t.minutes && DigitsValue(ss) == t.seconds
    ensures DigitsValue(ff) == FractionAsMillis(t, showCentis, showMillis)
  {
    hh := if t.hours > 0 then NatToString(t.hours) else "";
    mm := PadLeft(NatToString(t.minutes), 2);
    ss := PadLeft(NatToString(t.seconds), 2);
    ff := Fraction(t, showCentis, showMillis);
    PadParse(t.minutes, 2);
    PadParse(t.seconds, 2);
    if t.hours > 0 {
      PadParse(t.hours, 0);
    }
    if showCentis || showMillis {
      PadParse(FractionAsMillis(t, showCentis, showMillis), if showMillis then 3 else 2);
    }
    assert HoursPrefix(t) + mm + ":" + ss == Clock(hh, mm, ss);
  }

  /** What reading printed clock fields gives: the printed hours (never
      negative), minutes and seconds, plus the fraction digits taken as
      milliseconds. */
  lemma {:induction false} ReadFormatted(t: Time, showCentis: bool, showMillis: bool)
    ensures PrettyToSeconds(FormatTime(t, showCentis, showMillis))
      == Some(((if t.hours > 0 then 3600 * t.hours else 0) + 60 * t.minutes + t.seconds) as real
              + FractionAsMillis(t, showCentis, showMillis) as real / 1000.0)
  {
    var hh, mm, ss, ff := FormatTimePieces(t, showCentis, showMillis);
    ReadClock(hh, mm, ss, ff, FormatTime(t, showCentis, showMillis));
    ClockSum(DigitsValue(hh), t.minutes, t.seconds, DigitsValue(ff));
  }

  /** The reader's sum of the clock fields, in whole seconds plus milliseconds. */
  lemma ClockSum(h: nat, m: nat, s: nat, f: nat)
    ensures f as real / 1000.0 + s as real + m as real * 60.0 + h as real * 3600.0
         == (3600 * h + 60 * m + s) as real + f as real / 1000.0
  {
  }

  /** Printing with milliseconds and reading back gives the input truncated
      to whole milliseconds, for every non-negative input. */
  lemma RoundTripMillis(seconds: real)
    requires seconds >= 0.0
    ensures PrettyToSeconds(PrettyDuration(seconds, false, true)) == Some(TruncateToMillis(seconds))
  {
    ReadFormatted(ParseDuration(seconds), false, true);
    ParseDurationSum(seconds);
  }

  /** The centisecond form does not round-trip: its two digits are read back
      as milliseconds, so 1.5 seconds prints as "00:01.50" and reads as 1.05. */
  lemma CentisFormDoesNotRoundTrip()
    ensures PrettyToSeconds(PrettyDuration(1.5, true, false)) == Some(1.05)
  {
    assert (1.5 / 3600.0).Floor == 0;
    assert (1.5 / 60.0).Floor == 0;
    assert (1.5).Floor == 1;
    assert (0.5 * 100.0).Floor == 50;
    var t := ParseDuration(1.5);
    assert t.hours == 0 && t.minutes == 0 && t.seconds == 1 && t.centis == 50;
    ReadFormatted(t, true, false);
  }

  /** A negative input (the accurate-seek time before the start of the
      video) prints as a time just below the next whole hour: the hours are
      dropped and the minutes and seconds wrap. */
  lemma NegativeInputWraps(seconds: real)
    requires -3600.0 <= seconds < 0.0
    ensures PrettyToSeconds(PrettyDuration(seconds, false, true)) == Some(TruncateToMillis(seconds) + 3600.0)
  {
    ReadFormatted(ParseDuration(seconds), false, true);
    ParseDurationSum(seconds);
    var t := ParseDuration(seconds);
    assert t.hours == -1;
  }
}
