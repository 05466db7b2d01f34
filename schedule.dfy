/** Quiet-window schedule arithmetic on minute-of-day values, all in the
    monitor's fixed UTC+8 civil time (no daylight saving, so a day is
    always 86400 seconds). */
module Schedule {
  import opened Common
  import opened Text

  const MinutesPerDay: int := 24 * 60
  const SecondsPerDay: int := 24 * 60 * 60
  const MicrosPerSecond: int := 1000000

  /** The wall-clock part of a `datetime` in UTC+8. */
  datatype ClockTime = ClockTime(hour: int, minute: int, second: int, micro: int) {
    predicate Valid() {
      0 <= hour < 24 && 0 <= minute < 60 && 0 <= second < 60 && 0 <= micro < MicrosPerSecond
    }

    function MinuteOfDay(): int {
      hour * 60 + minute
    }

    function SecondOfDay(): int {
      MinuteOfDay() * 60 + second
    }
  }

  /** The two `RuntimeError`s of `hhmm_to_minutes`. */
  datatype TimeError = BadFormat | OutOfRange

  // ---------------------------------------------------------------------
  // hhmm_to_minutes / minutes_to_hhmm

  /** A clock time checked against 0-23 hours and 0-59 minutes. */
  function CheckedMinutes(hour: nat, minute: nat): (r: Result<int, TimeError>)
    ensures r.Ok? <==> hour <= 23 && minute <= 59
    ensures r.Ok? ==> r.value == hour * 60 + minute && 0 <= r.value < MinutesPerDay
  {
    if hour <= 23 && minute <= 59 then Ok(hour * 60 + minute) else Err(OutOfRange)
  }

  /** `^(\d{1,2}):(\d{2})$`: one or two digits, a colon, two digits. */
  predicate ClockShaped(t: string) {
    && (|t| == 4 || |t| == 5) && t[|t| - 3] == ':'
    && forall k :: 0 <= k < |t| && k != |t| - 3 ==> IsDigit(t[k])
  }

  /** The hour group of clock-shaped text, read as a decimal number. */
  function HourField(t: string): nat
    requires ClockShaped(t)
  {
    DigitRun(t, 0, |t| - 3);
    DigitsValue(t[..|t| - 3])
  }

  /** The minute group of clock-shaped text, read as a decimal number. */
  function MinuteField(t: string): nat
    requires ClockShaped(t)
  {
    DigitRun(t, |t| - 2, |t|);
    DigitsValue(t[|t| - 2..])
  }

  lemma DigitRun(t: string, a: nat, b: nat)
    requires a <= b <= |t|
    requires forall k :: a <= k < b ==> IsDigit(t[k])
    ensures AllDigits(t[a..b]) && t[..b] == t[0..b] && t[a..] == t[a..|t|]
  {
  }

  /** The two groups digit by digit. */
  lemma ClockFields(t: string)
    requires ClockShaped(t)
    ensures |t| == 4 ==> HourField(t) == DigitValue(t[0])
    ensures |t| == 5 ==> HourField(t) == DigitValue(t[0]) * 10 + DigitValue(t[1])
    ensures MinuteField(t) == DigitValue(t[|t| - 2]) * 10 + DigitValue(t[|t| - 1])
  {
    var h, m := t[..|t| - 3], t[|t| - 2..];
    DigitRun(t, 0, |t| - 3);
    DigitRun(t, |t| - 2, |t|);
    assert m[0] == t[|t| - 2] && m[1] == t[|t| - 1];
    ShortDigitsValue(m);
    assert h[0] == t[0];
    if |t| == 5 {
      assert h[1] == t[1];
    }
    ShortDigitsValue(h);
  }

  /** `hhmm_to_minutes`: after `strip()` the text must be one or two
      digits, a colon and exactly two digits, and then its hour and minute
      fields are range-checked. */
  function HhmmToMinutes(value: string): (r: Result<int, TimeError>)
    ensures r.Ok? ==> 0 <= r.value < MinutesPerDay
    ensures !ClockShaped(Strip(value)) ==> r == Err(BadFormat)
    ensures ClockShaped(Strip(value)) ==>
              r == CheckedMinutes(HourField(Strip(value)), MinuteField(Strip(value)))
  {
    ParseClock(Strip(value))
  }

  /** The pattern match and range check on the stripped text. */
  function ParseClock(t: string): (r: Result<int, TimeError>)
    ensures r.Ok? ==> 0 <= r.value < MinutesPerDay
    ensures r != Err(BadFormat) <==> ClockShaped(t)
    ensures ClockShaped(t) ==> r == CheckedMinutes(HourField(t), MinuteField(t))
  {
    if |t| == 4 && IsDigit(t[0]) && t[1] == ':' && IsDigit(t[2]) && IsDigit(t[3]) then
      ClockFields(t);
      CheckedMinutes(DigitValue(t[0]), DigitValue(t[2]) * 10 + DigitValue(t[3]))
    else if |t| == 5 && IsDigit(t[0]) && IsDigit(t[1]) && t[2] == ':' && IsDigit(t[3]) && IsDigit(t[4]) then
      ClockFields(t);
      CheckedMinutes(DigitValue(t[0]) * 10 + DigitValue(t[1]), DigitValue(t[3]) * 10 + DigitValue(t[4]))
    else
      Err(BadFormat)
  }

  /** `{n:02d}` for 0 <= n < 100. */
  function TwoDigits(n: nat): (r: string)
    requires n < 100
    ensures |r| == 2 && IsDigit(r[0]) && IsDigit(r[1])
    ensures DigitValue(r[0]) * 10 + DigitValue(r[1]) == n
  {
    [DigitChar(n / 10), DigitChar(n % 10)]
  }

  /** `minutes_to_hhmm`: the minute count is first reduced modulo one day
      (Python's `%` by a positive divisor agrees with Dafny's). */
  function MinutesToHhmm(minutes: int): (r: string)
    ensures |r| == 5 && r[2] == ':'
    ensures IsDigit(r[0]) && IsDigit(r[1]) && IsDigit(r[3]) && IsDigit(r[4])
  {
    var m := minutes % MinutesPerDay;
    TwoDigits(m / 60) + ":" + TwoDigits(m % 60)
  }

  /** Formatting then parsing gives back the minute of day, for every
      integer: `minutes_to_hhmm` reduces modulo 1440 and
      `hhmm_to_minutes` accepts everything it prints. */
  lemma HhmmRoundTrip(minutes: int)
    ensures HhmmToMinutes(MinutesToHhmm(minutes)) == Ok(minutes % MinutesPerDay)
  {
    var m := minutes % MinutesPerDay;
    SplitMinuteOfDay(m);
    ParsesPadded(m / 60, m % 60);
    assert MinutesToHhmm(minutes) == TwoDigits(m / 60) + ":" + TwoDigits(m % 60);
  }

  lemma SplitMinuteOfDay(m: int)
    requires 0 <= m < MinutesPerDay
    ensures 0 <= m / 60 <= 23 && 0 <= m % 60 <= 59
    ensures CheckedMinutes(m / 60, m % 60) == Ok(m)
  {
  }

  /** Well-formed text with an hour above 23 or a minute above 59 is
      rejected as out of range, never as badly formed. */
  lemma HhmmRejectsOutOfRange(hour: nat, minute: nat)
    requires hour < 100 && minute < 100
    requires hour > 23 || minute > 59
    ensures HhmmToMinutes(TwoDigits(hour) + ":" + TwoDigits(minute)) == Err(OutOfRange)
  {
    ParsesPadded(hour, minute);
  }

  /** Two zero-padded fields around a colon are read back digit for digit. */
  lemma ParsesPadded(hour: nat, minute: nat)
    requires hour < 100 && minute < 100
    ensures HhmmToMinutes(TwoDigits(hour) + ":" + TwoDigits(minute)) == CheckedMinutes(hour, minute)
  {
    var r := TwoDigits(hour) + ":" + TwoDigits(minute);
    assert r[0] == TwoDigits(hour)[0] && r[1] == TwoDigits(hour)[1] && r[2] == ':';
    assert r[3] == TwoDigits(minute)[0] && r[4] == TwoDigits(minute)[1];
    DigitIsNotSpace(r[0]);
    DigitIsNotSpace(r[4]);
    StripByAt(r, Whitespace, 0, 5);
    assert Strip(r) == r;
  }

  /** A single-digit hour is accepted too, as `\d{1,2}` allows. */
  lemma ParsesOneDigitHour(hour: nat, minute: nat)
    requires hour < 10 && minute < 100
    ensures HhmmToMinutes([DigitChar(hour)] + ":" + TwoDigits(minute)) == CheckedMinutes(hour, minute)
  {
    var r := [DigitChar(hour)] + ":" + TwoDigits(minute);
    assert r[0] == DigitChar(hour) && r[1] == ':';
    assert r[2] == TwoDigits(minute)[0] && r[3] == TwoDigits(minute)[1];
    DigitIsNotSpace(r[0]);
    DigitIsNotSpace(r[3]);
    StripByAt(r, Whitespace, 0, 4);
    assert Strip(r) == r;
  }

  /** `9:05` is five past nine. */
  lemma OneDigitExample()
    ensures HhmmToMinutes("9:05") == Ok(545)
  {
    var t := "9:05";
    StripByAt(t, Whitespace, 0, 4);
    assert Strip(t) == t;
  }

  /** ` 5:60 ` is well formed once stripped, and out of range. */
  lemma MinuteOutOfRangeExample()
    ensures HhmmToMinutes(" 5:60 ") == Err(OutOfRange)
  {
    var t := " 5:60 ";
    StripByAt(t, Whitespace, 1, 5);
    assert Strip(t) == "5:60";
  }

  /** A three-digit hour does not match the pattern at all. */
  lemma LongHourExample()
    ensures HhmmToMinutes("123:00") == Err(BadFormat)
  {
    var t := "123:00";
    DigitIsNotSpace(t[0]);
    DigitIsNotSpace(t[5]);
    assert Strip(t) == t;
  }

  lemma DigitIsNotSpace(c: char)
    requires IsDigit(c)
    ensures !IsSpace(c)
  {
  }

  /** Whitespace of any kind and length around the value never changes
      the verdict, since the pattern is matched after `strip()`. */
  lemma HhmmIgnoresSurroundingSpace(pre: string, value: string, post: string)
    requires forall k :: 0 <= k < |pre| ==> IsSpace(pre[k])
    requires forall k :: 0 <= k < |post| ==> IsSpace(post[k])
    ensures HhmmToMinutes(pre + value + post) == HhmmToMinutes(value)
  {
    StripPadded(pre, value, post);
  }

  // ---------------------------------------------------------------------
  // in_quiet_window / seconds_until_quiet_end

  /** `in_quiet_window`: the half-open window [start, end) of minutes of
      day, wrapping past midnight when start > end, empty when they are
      equal. */
  function InQuietWindow(t: ClockTime, start: int, end: int): (r: bool)
    ensures start == end ==> !r
  {
    var m := t.MinuteOfDay();
    if start < end then start <= m < end
    else if start > end then m >= start || m < end
    else false
  }

  /** An independent description of the window: walking forward around the
      clock from `start`, the minute is reached before `end` is. */
  lemma QuietWindowIsForwardArc(t: ClockTime, start: int, end: int)
    requires t.Valid()
    requires 0 <= start < MinutesPerDay && 0 <= end < MinutesPerDay
    ensures InQuietWindow(t, start, end)
        <==> (t.MinuteOfDay() - start) % MinutesPerDay < (end - start) % MinutesPerDay
  {
    var m := t.MinuteOfDay();
    assert 0 <= m < MinutesPerDay;
    if m >= start {
      assert (m - start) % MinutesPerDay == m - start;
    } else {
      assert (m - start) % MinutesPerDay == m - start + MinutesPerDay;
    }
    if end >= start {
      assert (end - start) % MinutesPerDay == end - start;
    } else {
      assert (end - start) % MinutesPerDay == end - start + MinutesPerDay;
    }
  }

  /** Python's `int(x)` on the quotient `micros / 1000000`: truncation
      toward zero. */
  function TruncSeconds(micros: int): (s: int)
    ensures micros >= 0 ==> s * MicrosPerSecond <= micros < (s + 1) * MicrosPerSecond
    ensures micros < 0 ==> s <= 0
  {
    if micros >= 0 then micros / MicrosPerSecond else -((-micros) / MicrosPerSecond)
  }

  /** The minute of day the quiet window ends at, counted from today's
      midnight: today's `end` when the window does not wrap or the time is
      before `end`, otherwise tomorrow's. */
  function QuietEndTarget(t: ClockTime, start: int, end: int): int {
    if start < end || t.MinuteOfDay() < end then end else end + MinutesPerDay
  }

  /** `seconds_until_quiet_end`: zero outside the window, otherwise the
      whole seconds (truncated, floored at zero) until the window's end. */
  function SecondsUntilQuietEnd(t: ClockTime, start: int, end: int): (r: int)
    requires t.Valid()
    requires InQuietWindow(t, start, end) ==> 0 <= end < MinutesPerDay
    ensures 0 <= r < SecondsPerDay
    ensures !InQuietWindow(t, start, end) ==> r == 0
    ensures InQuietWindow(t, start, end) ==>
      (t.SecondOfDay() + r + (if t.micro > 0 then 1 else 0)) % SecondsPerDay == end * 60
  {
    if !InQuietWindow(t, start, end) then 0
    else
      var target := QuietEndTarget(t, start, end);
      var micros := target * 60 * MicrosPerSecond - (t.SecondOfDay() * MicrosPerSecond + t.micro);
      var d := target * 60 - t.SecondOfDay();
      assert 1 <= d <= SecondsPerDay - 1;
      assert micros == d * MicrosPerSecond - t.micro;
      var seconds := TruncSeconds(micros);
      assert seconds == if t.micro > 0 then d - 1 else d by {
        if t.micro > 0 {
          assert micros == (d - 1) * MicrosPerSecond + (MicrosPerSecond - t.micro);
        }
      }
      Max(0, seconds)
  }

  /** Waking at the computed time lands outside the window: the end minute
      itself is not quiet, so the loop always makes progress. */
  lemma WakeTimeIsNotQuiet(start: int, end: int)
    requires 0 <= end < MinutesPerDay
    ensures !InQuietWindow(ClockTime(end / 60, end % 60, 0, 0), start, end)
  {
    assert ClockTime(end / 60, end % 60, 0, 0).MinuteOfDay() == end;
  }
}
