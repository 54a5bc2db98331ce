/**
 * Interview times: the random (hour, minute) draw, its adjustment into the
 * 13:00 to 16:00 window, and `time.strftime("%I:%M %p")` in the C locale.
 */
module Clock {
  import opened Wrappers
  import opened Numerals

  /** A time of day with the seconds (always 0 here) left out. */
  datatype Time = Time(hour: int, minute: int)

  /** The range `datetime.time` accepts. */
  predicate ValidTime(t: Time) {
    0 <= t.hour < 24 && 0 <= t.minute < 60
  }

  /** What `random.randint(13, 16)` and `random.choice([0, 30])` can produce. */
  predicate IsDraw(t: Time) {
    13 <= t.hour <= 16 && (t.minute == 0 || t.minute == 30)
  }

  function MinuteOfDay(t: Time): int {
    t.hour * 60 + t.minute
  }

  const LatestStart := Time(16, 0)
  const EarliestStart := Time(13, 0)

  /** The draw with 16:30 moved back to 16:00, so that the interview starts by 16:00. */
  function AdjustDraw(t: Time): (r: Time)
    requires IsDraw(t)
    ensures ValidTime(r)
    ensures r != Time(16, 30)
    ensures MinuteOfDay(EarliestStart) <= MinuteOfDay(r) <= MinuteOfDay(LatestStart)
    ensures r.hour == t.hour && (r.minute == 0 || r.minute == 30)
    ensures t != Time(16, 30) ==> r == t
  {
    if t.hour == 16 && t.minute == 30 then Time(t.hour, 0) else t
  }

  /** `%p`: the C locale's AM/PM marker. */
  function Meridiem(t: Time): string {
    if t.hour < 12 then "AM" else "PM"
  }

  /** `%I`: the hour on a 12-hour clock, 12 for midnight and noon. */
  function Hour12(t: Time): (h: int)
    requires ValidTime(t)
    ensures 1 <= h <= 12
  {
    if t.hour % 12 == 0 then 12 else t.hour % 12
  }

  /** `strftime("%I:%M %p")`. */
  function FormatTime12(t: Time): (s: string)
    requires ValidTime(t)
    ensures |s| == 8 && s[2] == ':' && s[5] == ' '
    ensures s[6..] == (if t.hour < 12 then "AM" else "PM")
    ensures AllDigits(s[0..2]) && AllDigits(s[3..5])
  {
    PadDigits(Hour12(t), 2) + ":" + PadDigits(t.minute, 2) + " " + Meridiem(t)
  }

  /** Reads an `HH:MM AM`/`HH:MM PM` string back into a 24-hour time. */
  function ParseTime12(s: string): Option<Time>
  {
    if |s| == 8 && s[2] == ':' && s[5] == ' ' && AllDigits(s[0..2]) && AllDigits(s[3..5])
       && (s[6..] == "AM" || s[6..] == "PM")
    then
      var h := DecimalValue(s[0..2]);
      var m := DecimalValue(s[3..5]);
      if 1 <= h <= 12 && 0 <= m < 60 then
        Some(Time(h % 12 + (if s[6..] == "PM" then 12 else 0), m))
      else None
    else None
  }

  /** The 12-hour rendering loses nothing: it reads back as the same time. */
  lemma ParseFormatTime12(t: Time)
    requires ValidTime(t)
    ensures ParseTime12(FormatTime12(t)) == Some(t)
  {
    var s := FormatTime12(t);
    assert s[0..2] == PadDigits(Hour12(t), 2);
    assert s[3..5] == PadDigits(t.minute, 2);
    assert s[6..] == Meridiem(t);
    DecimalValueOfPadDigits(Hour12(t), 2);
    DecimalValueOfPadDigits(t.minute, 2);
    Hour12Inverse(t);
  }

  /** The 12-hour clock hour and the meridiem together give back the 24-hour hour. */
  lemma Hour12Inverse(t: Time)
    requires ValidTime(t)
    ensures Hour12(t) % 12 + (if t.hour < 12 then 0 else 12) == t.hour
  {
    if t.hour == 0 {
      assert Hour12(t) == 12;
    } else if t.hour < 12 {
      assert Hour12(t) == t.hour;
    } else if t.hour == 12 {
      assert Hour12(t) == 12;
    } else {
      assert t.hour % 12 == t.hour - 12;
      assert Hour12(t) == t.hour - 12;
    }
  }

  /** The seven times an interview can be given. */
  const WindowTimes: set<string> :=
    {"01:00 PM", "01:30 PM", "02:00 PM", "02:30 PM", "03:00 PM", "03:30 PM", "04:00 PM"}

  /** The 12-hour rendering of each start time in the window. */
  lemma WindowTimeTexts()
    ensures FormatTime12(Time(13, 0)) == "01:00 PM" && FormatTime12(Time(13, 30)) == "01:30 PM"
    ensures FormatTime12(Time(14, 0)) == "02:00 PM" && FormatTime12(Time(14, 30)) == "02:30 PM"
    ensures FormatTime12(Time(15, 0)) == "03:00 PM" && FormatTime12(Time(15, 30)) == "03:30 PM"
    ensures FormatTime12(Time(16, 0)) == "04:00 PM"
  {
    WindowHourText(13);
    WindowHourText(14);
    WindowHourText(15);
    WindowHourText(16);
  }

  lemma WindowHourText(h: int)
    requires 13 <= h <= 16
    ensures FormatTime12(Time(h, 0)) == ['0', DigitChar(h - 12), ':', '0', '0', ' ', 'P', 'M']
    ensures FormatTime12(Time(h, 30)) == ['0', DigitChar(h - 12), ':', '3', '0', ' ', 'P', 'M']
  {
    var d := h - 12;
    assert Hour12(Time(h, 0)) == d && Hour12(Time(h, 30)) == d;
    PadTwoDigits(d);
    assert d / 10 == 0 && d % 10 == d;
    PadTwoDigits(0);
    PadTwoDigits(30);
    assert DigitChar(0) == '0' && DigitChar(3) == '3';
    assert PadDigits(d, 2) == ['0', DigitChar(d)];
    assert PadDigits(0, 2) == ['0', '0'] && PadDigits(30, 2) == ['3', '0'];
    assert Meridiem(Time(h, 0)) == "PM" && Meridiem(Time(h, 30)) == "PM";
  }

  /** Every adjusted draw prints as one of the seven window times, never as 04:30 PM. */
  lemma AdjustedDrawFormat(t: Time)
    requires IsDraw(t)
    ensures FormatTime12(AdjustDraw(t)) in WindowTimes
    ensures FormatTime12(AdjustDraw(t)) != "04:30 PM"
    ensures FormatTime12(AdjustDraw(t))[6..] == "PM"
  {
    WindowTimeTexts();
    var r := AdjustDraw(t);
    assert r in {Time(13, 0), Time(13, 30), Time(14, 0), Time(14, 30), Time(15, 0), Time(15, 30), Time(16, 0)};
  }

  /** Every window time is the outcome of some draw: the window is exactly these seven. */
  lemma WindowTimesReachable(s: string)
    requires s in WindowTimes
    ensures exists t :: IsDraw(t) && FormatTime12(AdjustDraw(t)) == s
  {
    WindowTimeTexts();
    var t :=
      if s == "01:00 PM" then Time(13, 0) else if s == "01:30 PM" then Time(13, 30)
      else if s == "02:00 PM" then Time(14, 0) else if s == "02:30 PM" then Time(14, 30)
      else if s == "03:00 PM" then Time(15, 0) else if s == "03:30 PM" then Time(15, 30)
      else Time(16, 0);
    assert IsDraw(t) && FormatTime12(AdjustDraw(t)) == s;
  }
}
