/**
 * The timer's face: the remaining time as text (`formatTime`) and which of
 * the Start/Pause, Stop and Save buttons are on screen.
 */
module TimerDisplay {
  import opened Optional
  import opened JsText
  import opened TimerTypes

  /** `n.toString().padStart(2, '0')`: one minutes or seconds field. */
  function Field(n: int): (r: string)
    ensures |r| >= 2
  {
    PadStart2(IntToString(n))
  }

  /** A field of 0..99 is exactly two digits and reads back as the number. */
  lemma FieldValue(n: int)
    requires 0 <= n < 100
    ensures |Field(n)| == 2 && AllDigits(Field(n)) && DecimalValue(Field(n)) == n
  {
    TwoDigits(n);
  }

  /** `formatTime`: "H:MM:SS" when there are hours, "MM:SS" otherwise. */
  function FormatTime(d: Duration): (r: string)
    ensures |r| >= 5
  {
    if d.hours > 0 then IntToString(d.hours) + ":" + MinutesSeconds(d) else MinutesSeconds(d)
  }

  /** The padded "MM:SS" part every display ends with. */
  function MinutesSeconds(d: Duration): (r: string)
    ensures |r| >= 5
  {
    Field(d.minutes) + ":" + Field(d.seconds)
  }

  /** With hours, the display starts with the unpadded hours and a ':'. */
  lemma HourSegment(d: Duration)
    requires d.hours > 0
    ensures |FormatTime(d)| > |NatToString(d.hours)| + 1
    ensures FormatTime(d)[..|NatToString(d.hours)| + 1] == NatToString(d.hours) + ":"
  {
    var prefix := IntToString(d.hours) + ":";
    var tail := MinutesSeconds(d);
    assert FormatTime(d) == prefix + tail;
    assert (prefix + tail)[..|prefix|] == prefix;
  }

  /** Inside the clock ranges and without hours the display is exactly five characters "MM:SS". */
  lemma NoHourFiveChars(d: Duration)
    requires ClockRange(d) && d.hours == 0
    ensures |FormatTime(d)| == 5 && FormatTime(d)[2] == ':'
    ensures FormatTime(d)[..2] == Field(d.minutes) && FormatTime(d)[3..] == Field(d.seconds)
  {
    FieldValue(d.minutes);
    FieldValue(d.seconds);
  }

  /** "MM:SS": two digits, a colon, two digits. */
  predicate IsShortClock(s: string) {
    |s| == 5 && s[2] == ':' && AllDigits(s[..2]) && AllDigits(s[3..])
  }

  /** "H:MM:SS": digits, a colon, two digits, a colon, two digits. */
  predicate IsLongClock(s: string) {
    |s| > 6 && s[|s| - 6] == ':' && s[|s| - 3] == ':'
    && AllDigits(s[..|s| - 6]) && AllDigits(s[|s| - 5..|s| - 3]) && AllDigits(s[|s| - 2..])
  }

  /**
   * How a reader takes the display back to a duration.  Used only to state
   * that the display loses nothing.
   */
  function ReadClock(s: string): Option<Duration> {
    if IsShortClock(s) then
      Some(Duration(0, DecimalValue(s[..2]), DecimalValue(s[3..])))
    else if IsLongClock(s) then
      Some(Duration(DecimalValue(s[..|s| - 6]), DecimalValue(s[|s| - 5..|s| - 3]), DecimalValue(s[|s| - 2..])))
    else None
  }

  /** Inside the clock ranges the display reads back as the duration it shows. */
  lemma ReadFormatTime(d: Duration)
    requires ClockRange(d)
    ensures ReadClock(FormatTime(d)) == Some(d)
  {
    if d.hours == 0 {
      ReadShort(d);
    } else {
      ReadLong(d);
    }
  }

  lemma ReadShort(d: Duration)
    requires ClockRange(d) && d.hours == 0
    ensures ReadClock(FormatTime(d)) == Some(d)
  {
    FieldValue(d.minutes);
    FieldValue(d.seconds);
    ReadShortOf(Field(d.minutes), Field(d.seconds));
  }

  lemma ReadLong(d: Duration)
    requires ClockRange(d) && d.hours > 0
    ensures ReadClock(FormatTime(d)) == Some(d)
  {
    FieldValue(d.minutes);
    FieldValue(d.seconds);
    NatToStringValue(d.hours);
    ReadLongOf(NatToString(d.hours), Field(d.minutes), Field(d.seconds), MinutesSeconds(d));
  }

  /** "MM:SS" built from two two-digit fields reads back as those fields. */
  lemma ReadShortOf(m: string, s: string)
    requires |m| == 2 && |s| == 2 && AllDigits(m) && AllDigits(s)
    ensures ReadClock(m + ":" + s) == Some(Duration(0, DecimalValue(m), DecimalValue(s)))
  {
    var r := m + ":" + s;
    assert r[..2] == m;
    assert r[3..] == s;
  }

  /** "H:MM:SS" built from a numeral and two two-digit fields reads back as those three. */
  lemma ReadLongOf(h: string, m: string, s: string, ms: string)
    requires |h| >= 1 && |m| == 2 && |s| == 2 && AllDigits(h) && AllDigits(m) && AllDigits(s)
    requires ms == m + ":" + s
    ensures ReadClock(h + ":" + ms) == Some(Duration(DecimalValue(h), DecimalValue(m), DecimalValue(s)))
  {
    var r := h + ":" + ms;
    assert |ms| == 5 && ms[..2] == m && ms[2] == ':' && ms[3..] == s;
    assert |r| == |h| + 6;
    assert r[..|h|] == h;
    assert r[|h| + 1..] == ms;
    assert r[|h|] == ':';
    assert r[|r| - 5..|r| - 3] == m;
    assert r[|r| - 2..] == s;
    ReadLongParts(r, h, m, s);
  }

  /** A text of the long shape reads back as its three numerals. */
  lemma ReadLongParts(r: string, h: string, m: string, s: string)
    requires |r| > 6 && r[|r| - 6] == ':' && r[|r| - 3] == ':'
    requires r[..|r| - 6] == h && r[|r| - 5..|r| - 3] == m && r[|r| - 2..] == s
    requires AllDigits(h) && AllDigits(m) && AllDigits(s)
    ensures ReadClock(r) == Some(Duration(DecimalValue(h), DecimalValue(m), DecimalValue(s)))
  {
    assert IsLongClock(r);
  }

  /** Distinct durations in the clock ranges are displayed differently. */
  lemma FormatTimeInjective(a: Duration, b: Duration)
    requires ClockRange(a) && ClockRange(b)
    ensures FormatTime(a) == FormatTime(b) ==> a == b
  {
    ReadFormatTime(a);
    ReadFormatTime(b);
  }

  /** The displays of the three method presets. */
  lemma PresetDisplays()
    ensures FormatTime(Duration(0, 52, 0)) == "52:00"
    ensures FormatTime(Duration(0, 25, 0)) == "25:00"
    ensures FormatTime(Duration(1, 30, 0)) == "1:30:00"
  {
    FiftyTwoDisplay();
    PomodoroDisplay();
    OneHourDisplay();
  }

  /** Example: 0:52:00 shows as "52:00". */
  lemma FiftyTwoDisplay()
    ensures FormatTime(Duration(0, 52, 0)) == "52:00"
  {
    WholeMinutes(Duration(0, 52, 0), '5', '2');
  }

  /** Example: 0:25:00 shows as "25:00". */
  lemma PomodoroDisplay()
    ensures FormatTime(Duration(0, 25, 0)) == "25:00"
  {
    WholeMinutes(Duration(0, 25, 0), '2', '5');
  }

  /** Example: 1:30:00, the ninety-minute preset, shows its single hour digit. */
  lemma OneHourDisplay()
    ensures FormatTime(Duration(1, 30, 0)) == "1:30:00"
  {
    var d := Duration(1, 30, 0);
    ThirtyMinutes();
    OneNumeral();
    LongForm(d, ['1'], ['3', '0', ':', '0', '0']);
    LiteralOneHour();
  }

  /** Example text of 1:30:00, kept apart from the lemma above, where the literal would make the solver unfold the clock text. */
  lemma LiteralOneHour()
    ensures ['1'] + ":" + ['3', '0', ':', '0', '0'] == "1:30:00"
  {
  }

  /** Example: the minutes and seconds of 1:30:00 show as "30:00". */
  lemma ThirtyMinutes()
    ensures MinutesSeconds(Duration(1, 30, 0)) == ['3', '0', ':', '0', '0']
  {
    WholeMinutes(Duration(1, 30, 0), '3', '0');
  }

  /** A two-digit number of whole minutes with digits t and u shows as "tu:00". */
  lemma WholeMinutes(d: Duration, t: char, u: char)
    requires 10 <= d.minutes < 100 && d.seconds == 0
    requires t == DigitChar(d.minutes / 10) && u == DigitChar(d.minutes % 10)
    ensures MinutesSeconds(d) == [t, u, ':', '0', '0']
    ensures d.hours <= 0 ==> FormatTime(d) == [t, u, ':', '0', '0']
  {
    TwoDigitField(d.minutes, t, u);
    ZeroField();
    assert [t, u] + ":" + ['0', '0'] == [t, u, ':', '0', '0'];
  }

  /** With hours present the text is the hour numeral, ':' and the "MM:SS" part. */
  lemma LongForm(d: Duration, hour: string, rest: string)
    requires d.hours > 0 && IntToString(d.hours) == hour && MinutesSeconds(d) == rest
    ensures FormatTime(d) == hour + ":" + rest
  {
  }

  /** Example: the hour 1 prints as "1". */
  lemma OneNumeral()
    ensures IntToString(1) == ['1']
  {
    assert NatToString(1) == [DigitChar(1)];
  }

  /** A two-digit number m with digits t and u pads to exactly "tu". */
  lemma TwoDigitField(m: nat, t: char, u: char)
    requires 10 <= m < 100 && t == DigitChar(m / 10) && u == DigitChar(m % 10)
    ensures Field(m) == [t, u]
  {
    assert NatToString(m / 10) == [t];
  }

  /** Example: zero pads to "00". */
  lemma ZeroField()
    ensures Field(0) == ['0', '0']
  {
    assert IntToString(0) == "0";
  }

  /** The buttons under the clock: the Start/Pause button with its caption, Stop and Save. */
  datatype Controls = Controls(startPause: Option<string>, stop: bool, save: bool)

  /** The conditional rendering of the buttons. */
  function ControlsFor(isRunning: bool, isCompleted: bool): (c: Controls)
    ensures c.save <==> isCompleted
    ensures c.startPause.Some? <==> !isCompleted
    ensures c.startPause.Some? ==> (c.startPause.value == "Pause" <==> isRunning)
    ensures c.stop <==> isRunning && !isCompleted
    ensures isCompleted ==> c == Controls(None, false, true)
    ensures !isCompleted ==> c.startPause == Some(if isRunning then "Pause" else "Mulai")
  {
    if isCompleted then Controls(None, false, true)
    else Controls(Some(if isRunning then "Pause" else "Mulai"), isRunning, false)
  }
}
