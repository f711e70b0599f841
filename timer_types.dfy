/**
 * The values the countdown timer works with: a duration of hours, minutes
 * and seconds, the preset identifiers with their fixed durations, and a
 * user-saved timer.  The custom-time inputs are not clamped:
 * `parseInt(value) || 0` lets negative numbers and minutes or seconds above
 * 59 through, so no range is imposed here.  Fields are exact integers; the
 * page holds them in JavaScript numbers, which are exact only below 2^53.
 */
module TimerTypes {
  import opened Optional

  datatype Duration = Duration(hours: int, minutes: int, seconds: int)

  const Zero := Duration(0, 0, 0)

  /** The span a duration stands for, in seconds. */
  function TotalSeconds(d: Duration): int {
    d.hours * 3600 + d.minutes * 60 + d.seconds
  }

  /** The `h === 0 && m === 0 && s === 0` guard of Start and Save. */
  predicate IsZero(d: Duration) {
    d.hours == 0 && d.minutes == 0 && d.seconds == 0
  }

  /** No field is positive: the case where a tick finds nothing to borrow and completes. */
  predicate Exhausted(d: Duration)
    ensures Exhausted(d) ==> TotalSeconds(d) <= 0
  {
    d.seconds <= 0 && d.minutes <= 0 && d.hours <= 0
  }

  predicate NonNegative(d: Duration) {
    d.hours >= 0 && d.minutes >= 0 && d.seconds >= 0
  }

  /** The ranges the custom-time inputs suggest (minutes and seconds 0..59). */
  predicate ClockRange(d: Duration) {
    NonNegative(d) && d.minutes <= 59 && d.seconds <= 59
  }

  /** With no negative field, "exhausted" and "exactly 0:00:00" coincide. */
  lemma ExhaustedIsZero(d: Duration)
    requires NonNegative(d)
    ensures Exhausted(d) <==> IsZero(d)
  {
  }

  /**
   * One second of borrow subtraction: seconds borrow from minutes, minutes
   * from hours.  It removes exactly one second from a non-negative duration
   * and keeps minutes and seconds inside 0..59 when they started there.
   */
  function Decrement(d: Duration): (r: Duration)
    requires !Exhausted(d)
    ensures NonNegative(d) ==> NonNegative(r) && TotalSeconds(r) == TotalSeconds(d) - 1
    ensures ClockRange(d) ==> ClockRange(r)
    ensures r.hours <= d.hours && r != d
  {
    if d.seconds > 0 then d.(seconds := d.seconds - 1)
    else if d.minutes > 0 then d.(minutes := d.minutes - 1, seconds := 59)
    else Duration(d.hours - 1, 59, 59)
  }

  /**
   * What n ticks of a running countdown leave of d: Some(remaining) while the
   * countdown is still running, None once a tick has found d exhausted and
   * completed it (the interval is cleared then, so nothing ticks again).
   */
  function Countdown(d: Duration, n: nat): (r: Option<Duration>)
    ensures r.Some? ==> r.value.hours <= d.hours
    ensures r.Some? && NonNegative(d) ==> NonNegative(r.value) && TotalSeconds(r.value) == TotalSeconds(d) - n
    decreases n
  {
    if n == 0 then Some(d)
    else if Exhausted(d) then None
    else Countdown(Decrement(d), n - 1)
  }

  /** Fewer ticks than the duration has seconds leave that many seconds less, still running. */
  lemma {:induction false} CountdownRunning(d: Duration, n: nat)
    requires NonNegative(d) && n <= TotalSeconds(d)
    ensures Countdown(d, n).Some?
    ensures NonNegative(Countdown(d, n).value)
    ensures TotalSeconds(Countdown(d, n).value) == TotalSeconds(d) - n
    decreases n
  {
    if n > 0 {
      ExhaustedIsZero(d);
      CountdownRunning(Decrement(d), n - 1);
    }
  }

  /** The zero guard holds exactly for a duration with no negative field and no time in total. */
  lemma IsZeroMeansNoTime(d: Duration)
    ensures IsZero(d) <==> NonNegative(d) && TotalSeconds(d) == 0
  {
    if NonNegative(d) && TotalSeconds(d) == 0 {
      NoSecondsIsZero(d);
    }
  }

  /** A non-negative duration of no seconds is 0:00:00. */
  lemma NoSecondsIsZero(d: Duration)
    requires NonNegative(d) && TotalSeconds(d) == 0
    ensures d == Zero
  {
  }

  /**
   * A countdown from N = TotalSeconds(d) seconds shows 0:00:00 after N ticks
   * and completes on tick N + 1.
   */
  lemma {:induction false} CountdownCompletes(d: Duration, n: nat)
    requires NonNegative(d) && n == TotalSeconds(d)
    ensures Countdown(d, n) == Some(Zero)
    ensures Countdown(d, n + 1) == None
  {
    CountdownReachesZero(d, n);
    CountdownStep(d, n, Zero);
  }

  /** After as many ticks as the duration has seconds, the display reads 0:00:00. */
  lemma CountdownReachesZero(d: Duration, n: nat)
    requires NonNegative(d) && n == TotalSeconds(d)
    ensures Countdown(d, n) == Some(Zero)
  {
    CountdownRunning(d, n);
    NoSecondsIsZero(Countdown(d, n).value);
  }

  /** Once n ticks have left e, tick n + 1 completes on an exhausted e and borrows otherwise. */
  lemma {:induction false} CountdownStep(d: Duration, n: nat, e: Duration)
    requires Countdown(d, n) == Some(e)
    ensures Exhausted(e) ==> Countdown(d, n + 1) == None
    ensures !Exhausted(e) ==> Countdown(d, n + 1) == Some(Decrement(e))
    decreases n
  {
    if n > 0 {
      CountdownStep(Decrement(d), n - 1, e);
    }
  }

  /** The preset identifiers of the timer page, 'saved' included. */
  datatype PresetId = Pomodoro | Minute90 | Minute5217 | Custom | Saved

  /**
   * The `presets` table: a fixed duration for the three method presets,
   * nothing for 'custom' (null) and for 'saved' (no entry).
   */
  function PresetTime(p: PresetId): (r: Option<Duration>)
    ensures r.Some? <==> p in {Pomodoro, Minute90, Minute5217}
    ensures r.Some? ==> ClockRange(r.value) && !IsZero(r.value)
    ensures p == Pomodoro ==> r == Some(Duration(0, 25, 0))
    ensures p == Minute90 ==> r == Some(Duration(1, 30, 0))
    ensures p == Minute5217 ==> r == Some(Duration(0, 52, 0))
  {
    match p
    case Pomodoro => Some(Duration(0, 25, 0))
    case Minute90 => Some(Duration(1, 30, 0))
    case Minute5217 => Some(Duration(0, 52, 0))
    case _ => None
  }

  /** The fixed presets last 25, 90 and 52 minutes. */
  lemma PresetMinutes()
    ensures TotalSeconds(PresetTime(Pomodoro).value) == 25 * 60
    ensures TotalSeconds(PresetTime(Minute90).value) == 90 * 60
    ensures TotalSeconds(PresetTime(Minute5217).value) == 52 * 60
  {
  }

  /** A timer the user saved: `{ label, time }` (the label is `name` here, `label` being a Dafny keyword). */
  datatype SavedTimer = SavedTimer(name: string, time: Duration)
}
