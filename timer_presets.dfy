/**
 * The preset panel of the timer page: the four fixed preset buttons, and the
 * list of saved timers, each shown with its label, a duration caption such
 * as "(1j 30m )" (j = jam, hours; m = menit, minutes; d = detik, seconds),
 * and Edit and Delete buttons that pass the entry's position.
 */
module TimerPresets {
  import opened Optional
  import opened JsText
  import opened TimerTypes

  /** One preset button: the identifier it selects and its caption. */
  datatype PresetButton = PresetButton(id: PresetId, caption: string)

  /** The fixed buttons, in display order. */
  const PresetButtons: seq<PresetButton> := [
    PresetButton(Pomodoro, "Pomodoro"),
    PresetButton(Minute90, "Metode 90 menit"),
    PresetButton(Minute5217, "Metode 52/17"),
    PresetButton(Custom, "Custom")
  ]

  /** The identifiers of the fixed buttons, in display order. */
  function ButtonIds(bs: seq<PresetButton>): (ids: seq<PresetId>)
    ensures |ids| == |bs|
    ensures forall i :: 0 <= i < |bs| ==> ids[i] == bs[i].id
  {
    if bs == [] then [] else [bs[0].id] + ButtonIds(bs[1..])
  }

  /**
   * The buttons are pomodoro, minute90, minute5217 and custom, in that order;
   * 'saved' has no button of its own, and every method button selects a
   * fixed duration while 'custom' has none.
   */
  lemma PresetButtonsOrder()
    ensures ButtonIds(PresetButtons) == [Pomodoro, Minute90, Minute5217, Custom]
    ensures forall i :: 0 <= i < |PresetButtons| ==> PresetButtons[i].id != Saved
    ensures forall i :: 0 <= i < 3 ==> PresetTime(PresetButtons[i].id).Some?
    ensures PresetTime(PresetButtons[3].id) == None
  {
  }

  /** `{n}{unit}` when n is positive, nothing otherwise: one segment of the caption. */
  function Segment(n: int, unit: string): (r: string)
    ensures r == [] <==> n <= 0
  {
    if n > 0 then NatToString(n) + unit else ""
  }

  /** The caption beside a saved timer's label: "(" hours "j ", minutes "m ", seconds "d" ")". */
  function DurationCaption(t: Duration): (r: string)
    ensures |r| >= 2 && r[0] == '(' && r[|r| - 1] == ')'
  {
    "(" + Segment(t.hours, "j ") + Segment(t.minutes, "m ") + Segment(t.seconds, "d") + ")"
  }

  /** Characters of a numeral are digits, so none of them is a unit letter. */
  lemma NoLetterInNumeral(n: nat, c: char)
    requires !IsDigit(c)
    ensures c !in NatToString(n)
  {
    var s := NatToString(n);
    forall i | 0 <= i < |s| ensures s[i] != c {
      assert IsDigit(s[i]);
    }
  }

  /** A unit letter c occurs in a segment exactly when the segment is shown and has that unit. */
  lemma LetterInSegment(n: int, unit: string, c: char)
    requires !IsDigit(c)
    ensures c in Segment(n, unit) <==> n > 0 && c in unit
  {
    if n > 0 {
      NoLetterInNumeral(n, c);
    }
  }

  /**
   * The hour segment "{h}j " appears exactly when hours > 0, the minute
   * segment "{m}m " exactly when minutes > 0 and the second segment "{s}d"
   * exactly when seconds > 0.
   */
  lemma CaptionSegments(t: Duration)
    ensures 'j' in DurationCaption(t) <==> t.hours > 0
    ensures 'm' in DurationCaption(t) <==> t.minutes > 0
    ensures 'd' in DurationCaption(t) <==> t.seconds > 0
  {
    var h, m, s := Segment(t.hours, "j "), Segment(t.minutes, "m "), Segment(t.seconds, "d");
    assert DurationCaption(t) == "(" + h + m + s + ")";
    LetterInSegment(t.hours, "j ", 'j');
    LetterInSegment(t.minutes, "m ", 'j');
    LetterInSegment(t.seconds, "d", 'j');
    LetterInSegment(t.hours, "j ", 'm');
    LetterInSegment(t.minutes, "m ", 'm');
    LetterInSegment(t.seconds, "d", 'm');
    LetterInSegment(t.hours, "j ", 'd');
    LetterInSegment(t.minutes, "m ", 'd');
    LetterInSegment(t.seconds, "d", 'd');
  }

  /** Where a character can sit in a + b when one of the two parts lacks it. */
  lemma PositionsIn(a: string, b: string, c: char)
    ensures c !in a ==> forall i :: 0 <= i < |a + b| && (a + b)[i] == c ==> i >= |a|
    ensures c !in b ==> forall i :: 0 <= i < |a + b| && (a + b)[i] == c ==> i < |a|
  {
    if c !in a {
      forall i | 0 <= i < |a| ensures (a + b)[i] != c {
        assert (a + b)[i] == a[i] && a[i] in a;
      }
    }
    if c !in b {
      forall i | |a| <= i < |a + b| ensures (a + b)[i] != c {
        assert (a + b)[i] == b[i - |a|] && b[i - |a|] in b;
      }
    }
  }

  /** In a + b, where a lacks y and b lacks x, every x comes before every y. */
  lemma Before(a: string, b: string, x: char, y: char)
    requires y !in a && x !in b
    ensures forall i, k ::
      (0 <= i < |a + b| && 0 <= k < |a + b| && (a + b)[i] == x && (a + b)[k] == y) ==> i < k
  {
    PositionsIn(a, b, x);
    PositionsIn(a, b, y);
  }

  /** Hours come before minutes, and minutes before seconds, inside the parentheses. */
  lemma CaptionOrder(t: Duration)
    ensures forall i, k ::
      (0 <= i < |DurationCaption(t)| && 0 <= k < |DurationCaption(t)|
       && DurationCaption(t)[i] == 'j' && DurationCaption(t)[k] == 'm') ==> i < k
    ensures forall i, k ::
      (0 <= i < |DurationCaption(t)| && 0 <= k < |DurationCaption(t)|
       && DurationCaption(t)[i] == 'm' && DurationCaption(t)[k] == 'd') ==> i < k
  {
    HoursBeforeMinutes(t);
    MinutesBeforeSeconds(t);
  }

  lemma HoursBeforeMinutes(t: Duration)
    ensures forall i, k ::
      (0 <= i < |DurationCaption(t)| && 0 <= k < |DurationCaption(t)|
       && DurationCaption(t)[i] == 'j' && DurationCaption(t)[k] == 'm') ==> i < k
  {
    var h, m, s := Segment(t.hours, "j "), Segment(t.minutes, "m "), Segment(t.seconds, "d");
    assert DurationCaption(t) == ("(" + h) + (m + s + ")");
    LetterInSegment(t.hours, "j ", 'm');
    LetterInSegment(t.minutes, "m ", 'j');
    LetterInSegment(t.seconds, "d", 'j');
    Before("(" + h, m + s + ")", 'j', 'm');
  }

  lemma MinutesBeforeSeconds(t: Duration)
    ensures forall i, k ::
      (0 <= i < |DurationCaption(t)| && 0 <= k < |DurationCaption(t)|
       && DurationCaption(t)[i] == 'm' && DurationCaption(t)[k] == 'd') ==> i < k
  {
    var h, m, s := Segment(t.hours, "j "), Segment(t.minutes, "m "), Segment(t.seconds, "d");
    assert DurationCaption(t) == ("(" + h + m) + (s + ")");
    LetterInSegment(t.hours, "j ", 'd');
    LetterInSegment(t.minutes, "m ", 'd');
    LetterInSegment(t.seconds, "d", 'm');
    Before("(" + h + m, s + ")", 'm', 'd');
  }

  /** The number of digits a string starts with. */
  function LeadingDigits(s: string): (n: nat)
    ensures n <= |s| && AllDigits(s[..n])
    ensures n < |s| ==> !IsDigit(s[n])
  {
    if s != [] && IsDigit(s[0]) then 1 + LeadingDigits(s[1..]) else 0
  }

  /** A numeral followed by a non-digit (or nothing) has exactly its own length of leading digits. */
  lemma {:induction false} LeadingDigitsOf(a: string, b: string)
    requires AllDigits(a)
    requires b == [] || !IsDigit(b[0])
    ensures LeadingDigits(a + b) == |a|
  {
    if a != [] {
      assert (a + b)[1..] == a[1..] + b;
      LeadingDigitsOf(a[1..], b);
    } else {
      assert a + b == b;
    }
  }

  /** One segment read back: a count and its unit letter, then an optional space; (0, s) when absent. */
  function ReadSegment(s: string, unit: char): (int, string) {
    var n := LeadingDigits(s);
    if 0 < n < |s| && s[n] == unit then (DecimalValue(s[..n]), SkipSpace(s[n + 1..]))
    else (0, s)
  }

  /** The optional space after a unit letter. */
  function SkipSpace(s: string): string {
    if s != [] && s[0] == ' ' then s[1..] else s
  }

  /**
   * How a reader takes a caption back to a duration.  Used only to state
   * that the caption of a non-negative duration loses nothing.
   */
  function ReadCaption(s: string): Option<Duration> {
    if |s| < 2 || s[0] != '(' || s[|s| - 1] != ')' then None
    else
      var (h, r1) := ReadSegment(s[1..|s| - 1], 'j');
      var (m, r2) := ReadSegment(r1, 'm');
      var (sec, r3) := ReadSegment(r2, 'd');
      if r3 == [] then Some(Duration(h, m, sec)) else None
  }

  /** Digits, then the unit letter, read back as the digits' value and what follows, less one space. */
  lemma ReadNumeralUnit(num: string, unit: char, after: string)
    requires |num| >= 1 && AllDigits(num) && !IsDigit(unit)
    ensures ReadSegment(num + [unit] + after, unit) == (DecimalValue(num), SkipSpace(after))
  {
    var s := num + [unit] + after;
    assert s == num + ([unit] + after);
    LeadingDigitsOf(num, [unit] + after);
    assert s[..|num|] == num;
    assert s[|num| + 1..] == after;
  }

  /** Digits followed by a letter other than the unit read as absent. */
  lemma ReadNumeralOther(num: string, u: char, unit: char, tail: string)
    requires |num| >= 1 && AllDigits(num) && !IsDigit(u) && u != unit
    ensures ReadSegment(num + [u] + tail, unit) == (0, num + [u] + tail)
  {
    assert num + [u] + tail == num + ([u] + tail);
    LeadingDigitsOf(num, [u] + tail);
  }

  /** Reading anything from the empty string gives 0 and the empty string. */
  lemma ReadNothing(unit: char)
    ensures ReadSegment([], unit) == (0, [])
  {
  }

  /** A shown segment is its numeral followed by its unit; it starts with a digit. */
  lemma ShownSegment(n: int, unit: string)
    requires n > 0
    ensures Segment(n, unit) == NatToString(n) + unit
    ensures Segment(n, unit) != [] && IsDigit(Segment(n, unit)[0])
  {
  }

  /** A shown "{n}x " segment ahead of a tail is the numeral, the letter, then the space and the tail. */
  lemma SpacedSegment(n: int, u: char, unit: string, tail: string)
    requires n > 0 && unit == [u, ' ']
    ensures Segment(n, unit) + tail == NatToString(n) + [u] + (" " + tail)
  {
    assert Segment(n, unit) == NatToString(n) + [u] + " ";
  }

  /** A shown "{n}x" segment without a space. */
  lemma UnitSegment(n: int, u: char, unit: string)
    requires n > 0 && unit == [u]
    ensures Segment(n, unit) == NatToString(n) + [u] + []
  {
  }

  /** A shown "{n}x " segment reads back as n and leaves exactly what follows its space. */
  lemma ReadSpacedSegment(n: int, u: char, unit: string, tail: string)
    requires n > 0 && unit == [u, ' '] && !IsDigit(u)
    ensures ReadSegment(Segment(n, unit) + tail, u) == (n, tail)
  {
    SpacedSegment(n, u, unit, tail);
    ReadNumeralUnit(NatToString(n), u, " " + tail);
    NatToStringValue(n);
    assert (" " + tail)[1..] == tail;
  }

  /** The seconds segment read back from "{s}d" or "". */
  lemma ReadSeconds(sec: int)
    ensures ReadSegment(Segment(sec, "d"), 'd') == (if sec > 0 then sec else 0, [])
  {
    if sec > 0 {
      UnitSegment(sec, 'd', "d");
      ReadNumeralUnit(NatToString(sec), 'd', []);
      NatToStringValue(sec);
    }
  }

  /** The seconds segment reads as absent when another unit is looked for. */
  lemma ReadSecondsOther(sec: int, unit: char)
    requires unit != 'd'
    ensures ReadSegment(Segment(sec, "d"), unit) == (0, Segment(sec, "d"))
  {
    if sec > 0 {
      UnitSegment(sec, 'd', "d");
      ReadNumeralOther(NatToString(sec), 'd', unit, []);
    }
  }

  /** The minutes and seconds segments read back. */
  lemma ReadMinutesSeconds(m: int, sec: int)
    ensures ReadSegment(Segment(m, "m ") + Segment(sec, "d"), 'm') == (if m > 0 then m else 0, Segment(sec, "d"))
  {
    if m > 0 {
      ReadSpacedSegment(m, 'm', "m ", Segment(sec, "d"));
    } else {
      ReadSecondsOther(sec, 'm');
      assert Segment(m, "m ") + Segment(sec, "d") == Segment(sec, "d");
    }
  }

  /** The hour segment read back ahead of the minutes and seconds. */
  lemma ReadAllSegments(t: Duration)
    ensures ReadSegment(Segment(t.hours, "j ") + (Segment(t.minutes, "m ") + Segment(t.seconds, "d")), 'j')
      == (if t.hours > 0 then t.hours else 0, Segment(t.minutes, "m ") + Segment(t.seconds, "d"))
  {
    var ms := Segment(t.minutes, "m ") + Segment(t.seconds, "d");
    if t.hours > 0 {
      ReadSpacedSegment(t.hours, 'j', "j ", ms);
    } else {
      assert Segment(t.hours, "j ") + ms == ms;
      ReadHoursAbsent(t.minutes, t.seconds);
    }
  }

  /** Without hours, looking for the hour segment finds nothing and consumes nothing. */
  lemma ReadHoursAbsent(m: int, sec: int)
    ensures ReadSegment(Segment(m, "m ") + Segment(sec, "d"), 'j') == (0, Segment(m, "m ") + Segment(sec, "d"))
  {
    var ss := Segment(sec, "d");
    if m > 0 {
      SpacedSegment(m, 'm', "m ", ss);
      ReadNumeralOther(NatToString(m), 'm', 'j', " " + ss);
    } else {
      assert Segment(m, "m ") + ss == ss;
      ReadSecondsOther(sec, 'j');
    }
  }

  /**
   * The caption of a duration with no negative field reads back as that
   * duration: zero fields are left out, and the others are recovered.
   */
  lemma ReadDurationCaption(t: Duration)
    requires NonNegative(t)
    ensures ReadCaption(DurationCaption(t)) == Some(t)
  {
    var hs, ms, ss := Segment(t.hours, "j "), Segment(t.minutes, "m "), Segment(t.seconds, "d");
    ReadAllSegments(t);
    ReadMinutesSeconds(t.minutes, t.seconds);
    ReadSeconds(t.seconds);
    CaptionShape(t);
    ReadCaptionOf(hs + (ms + ss), t.hours, t.minutes, t.seconds, ms + ss, ss);
  }

  /** The caption is its three segments, the hours first, in parentheses. */
  lemma CaptionShape(t: Duration)
    ensures DurationCaption(t) == "(" + (Segment(t.hours, "j ") + (Segment(t.minutes, "m ") + Segment(t.seconds, "d"))) + ")"
  {
    var hs, ms, ss := Segment(t.hours, "j "), Segment(t.minutes, "m "), Segment(t.seconds, "d");
    assert hs + ms + ss == hs + (ms + ss);
  }

  /** Parentheses around segments that read one after another as h, m and sec, with nothing left, read as that time. */
  lemma ReadCaptionOf(body: string, h: int, m: int, sec: int, afterHours: string, afterMinutes: string)
    requires ReadSegment(body, 'j') == (h, afterHours) && ReadSegment(afterHours, 'm') == (m, afterMinutes)
    requires ReadSegment(afterMinutes, 'd') == (sec, [])
    ensures ReadCaption("(" + body + ")") == Some(Duration(h, m, sec))
  {
    var s := "(" + body + ")";
    assert s[1..|s| - 1] == body;
  }

  /** Saved timers of different non-negative durations carry different captions. */
  lemma DurationCaptionInjective(a: Duration, b: Duration)
    requires NonNegative(a) && NonNegative(b)
    ensures DurationCaption(a) == DurationCaption(b) ==> a == b
  {
    ReadDurationCaption(a);
    ReadDurationCaption(b);
  }

  /** What clicking on a saved-timer row does, as the handler call it makes. */
  datatype PanelAction =
    | SelectSaved(timer: SavedTimer)
    | EditAt(index: int)
    | DeleteAt(index: int)

  /** One saved-timer row: label (name), caption and the three actions it offers. */
  datatype SavedRow = SavedRow(name: string, caption: string, select: PanelAction, edit: PanelAction, delete: PanelAction)

  /** The row for the saved timer t at position i. */
  function RowFor(t: SavedTimer, i: nat): (r: SavedRow)
    ensures r.name == t.name && r.select == SelectSaved(t) && r.edit == EditAt(i) && r.delete == DeleteAt(i)
    ensures NonNegative(t.time) ==> ReadCaption(r.caption) == Some(t.time)
  {
    var row := SavedRow(t.name, DurationCaption(t.time), SelectSaved(t), EditAt(i), DeleteAt(i));
    if NonNegative(t.time) then ReadDurationCaption(t.time); row else row
  }

  /**
   * The saved-timer section: absent when the list is empty, otherwise one
   * row per saved timer in list order.  Clicking a row selects 'saved' with
   * that very timer; Edit and Delete pass its position.
   */
  function SavedSection(ts: seq<SavedTimer>): (r: Option<seq<SavedRow>>)
    ensures r.Some? <==> |ts| > 0
    ensures r.Some? ==> |r.value| == |ts|
    ensures r.Some? ==> forall i :: 0 <= i < |ts| ==>
      r.value[i].name == ts[i].name && r.value[i].select == SelectSaved(ts[i])
      && r.value[i].edit == EditAt(i) && r.value[i].delete == DeleteAt(i)
      && r.value[i].caption == DurationCaption(ts[i].time)
  {
    if |ts| == 0 then None else Some(seq(|ts|, i requires 0 <= i < |ts| => RowFor(ts[i], i)))
  }
}
