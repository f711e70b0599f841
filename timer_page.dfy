/**
 * The countdown timer engine of the timer page: the selected preset, the
 * remaining and initial durations, the running and completed flags, the
 * custom-time editor, the label, the saved-timer list and the index of the
 * saved timer being edited, changed by the page's handlers.
 *
 * The one-second interval is an explicit Tick, called only while the timer
 * runs; the browser's confirm() is a boolean parameter of DeleteTimer, and
 * the alert() messages of SaveTimer are its returned status.
 */
module TimerPage {
  import opened Optional
  import opened JsText
  import opened TimerTypes

  /** Which input of the custom-time editor changed. */
  datatype TimeField = Hours | Minutes | Seconds

  /** The value an input of the custom-time editor shows. */
  function FieldOf(d: Duration, field: TimeField): int {
    match field
    case Hours => d.hours
    case Minutes => d.minutes
    case Seconds => d.seconds
  }

  /** `{ ...time, [field]: value }`: the changed input reads the new value, the other two are kept. */
  function WithField(d: Duration, field: TimeField, value: int): (r: Duration)
    ensures FieldOf(r, field) == value
    ensures forall f :: f != field ==> FieldOf(r, f) == FieldOf(d, f)
  {
    match field
    case Hours => d.(hours := value)
    case Minutes => d.(minutes := value)
    case Seconds => d.(seconds := value)
  }

  /** The outcome of a Save click, one per alert the page shows. */
  datatype SaveStatus =
    | MissingLabel   // "Mohon berikan nama untuk timer ini"
    | MissingTime    // "Mohon atur waktu terlebih dahulu"
    | Updated        // "Timer berhasil diperbarui!"
    | Added          // "Timer berhasil disimpan!"

  /**
   * `savedTimers.filter((_, i) => i !== index)`: the list without the entry
   * at position index (the whole list when index is not a position).
   */
  function FilterIndex(s: seq<SavedTimer>, index: int): (r: seq<SavedTimer>)
    ensures |r| == if 0 <= index < |s| then |s| - 1 else |s|
    ensures forall t :: t in r ==> t in s
  {
    if s == [] then []
    else FilterIndex(s[..|s| - 1], index) + (if |s| - 1 != index then [s[|s| - 1]] else [])
  }

  /** Filtering out a position removes exactly that entry and keeps the others in order. */
  lemma {:induction false} FilterIndexRemoves(s: seq<SavedTimer>, index: int)
    ensures 0 <= index < |s| ==> FilterIndex(s, index) == s[..index] + s[index + 1..]
    ensures !(0 <= index < |s|) ==> FilterIndex(s, index) == s
  {
    if s != [] {
      var init := s[..|s| - 1];
      FilterIndexRemoves(init, index);
      if 0 <= index < |s| - 1 {
        assert init[..index] == s[..index];
        assert init[index + 1..] + [s[|s| - 1]] == s[index + 1..];
      } else if index == |s| - 1 {
        assert init == s[..index];
        assert s[index + 1..] == [];
      } else {
        assert init + [s[|s| - 1]] == s;
      }
    }
  }

  /**
   * After deleting an entry before the one being edited, the unchanged
   * editing index names the entry that followed the edited one: a later Save
   * overwrites that neighbour, and when the edited entry was the last one the
   * index is past the end of the list.
   */
  lemma DeleteBeforeEditedShifts(s: seq<SavedTimer>, index: nat, editing: nat)
    requires index < editing < |s|
    ensures |FilterIndex(s, index)| == |s| - 1
    ensures editing < |s| - 1 ==> FilterIndex(s, index)[editing] == s[editing + 1]
    ensures editing == |s| - 1 ==> editing == |FilterIndex(s, index)|
  {
    FilterIndexRemoves(s, index);
  }

  /** The initial state and the target of the reset after deleting the edited timer. */
  const PomodoroTime := Duration(0, 25, 0)

  class TimerEngine {
    var selectedPreset: PresetId
    var timerRunning: bool
    var timeLeft: Duration
    var isCompleted: bool
    var initialTimeLeft: Duration
    var customTime: Duration
    var timerLabel: string
    var savedTimers: seq<SavedTimer>
    var editingTimerIndex: int

    /**
     * What every handler keeps: the editing index is -1 or at least 0, a
     * timer is only edited from the custom view, and a completed timer is
     * not running.
     */
    ghost predicate Valid()
      reads this
    {
      && editingTimerIndex >= -1
      && (editingTimerIndex >= 0 ==> selectedPreset == Custom)
      && (isCompleted ==> !timerRunning)
    }

    /**
     * The page can render: the "Sedang mengedit timer" line reads
     * `savedTimers[editingTimerIndex].label`, which fails once the index is
     * past the end of the list.  Every handler is reached from a rendered
     * page, so every handler requires it.
     */
    ghost predicate EditingInRange()
      reads this
    {
      editingTimerIndex < |savedTimers|
    }

    /** The "Sedang mengedit timer: …" line under the clock, when a saved timer is being edited. */
    function EditingCaption(): (r: Option<string>)
      reads this
      requires Valid() && EditingInRange()
      ensures r.Some? <==> editingTimerIndex >= 0
      ensures r.Some? ==> r.value == savedTimers[editingTimerIndex].name
    {
      if editingTimerIndex >= 0 then Some(savedTimers[editingTimerIndex].name) else None
    }

    /** The page's initial state: Pomodoro, 0:25:00, stopped, nothing saved or edited. */
    constructor ()
      ensures Valid() && EditingInRange()
      ensures selectedPreset == Pomodoro && !timerRunning && !isCompleted
      ensures timeLeft == PomodoroTime && initialTimeLeft == PomodoroTime
      ensures customTime == Zero && timerLabel == "" && savedTimers == [] && editingTimerIndex == -1
    {
      selectedPreset := Pomodoro;
      timerRunning := false;
      timeLeft := Duration(0, 25, 0);
      isCompleted := false;
      initialTimeLeft := Duration(0, 25, 0);
      customTime := Duration(0, 0, 0);
      timerLabel := "";
      savedTimers := [];
      editingTimerIndex := -1;
    }

    /**
     * `handlePresetChange`: stops the countdown, clears completion and
     * editing, and loads the duration of a fixed preset (clearing the label),
     * of the chosen saved timer (taking its label), or of the custom editor
     * (keeping the label).  The page passes a saved timer exactly when it
     * selects 'saved'.
     */
    method PresetChange(preset: PresetId, savedTimer: Option<SavedTimer>)
      requires Valid() && EditingInRange()
      requires preset == Saved ==> savedTimer.Some?
      modifies this
      ensures Valid() && EditingInRange()
      ensures selectedPreset == preset && !timerRunning && !isCompleted && editingTimerIndex == -1
      ensures timeLeft == initialTimeLeft
      ensures preset == Saved ==> timeLeft == savedTimer.value.time && timerLabel == savedTimer.value.name
      ensures preset == Custom ==> timeLeft == customTime && timerLabel == old(timerLabel)
      ensures PresetTime(preset).Some? ==> timeLeft == PresetTime(preset).value && timerLabel == ""
      ensures customTime == old(customTime) && savedTimers == old(savedTimers)
    {
      selectedPreset := preset;
      timerRunning := false;
      isCompleted := false;
      editingTimerIndex := -1;

      if preset == Saved && savedTimer.Some? {
        timeLeft := savedTimer.value.time;
        initialTimeLeft := savedTimer.value.time;
        timerLabel := savedTimer.value.name;
        return;
      }

      if preset != Custom {
        var time := PresetTime(preset).value;
        timeLeft := time;
        initialTimeLeft := time;
        timerLabel := "";
      } else {
        timeLeft := customTime;
        initialTimeLeft := customTime;
      }
    }

    /**
     * `handleCustomTimeChange`, with the input already parsed
     * (`parseInt(value) || 0`, so any integer): updates one field of the
     * custom time, and the remaining and initial time too while the custom
     * preset is selected.
     */
    method CustomTimeChange(field: TimeField, value: int)
      requires Valid() && EditingInRange()
      modifies this
      ensures Valid() && EditingInRange()
      ensures customTime == WithField(old(customTime), field, value)
      ensures old(selectedPreset) == Custom ==> timeLeft == customTime && initialTimeLeft == customTime
      ensures old(selectedPreset) != Custom ==> timeLeft == old(timeLeft) && initialTimeLeft == old(initialTimeLeft)
      ensures selectedPreset == old(selectedPreset) && timerRunning == old(timerRunning)
      ensures isCompleted == old(isCompleted) && timerLabel == old(timerLabel)
      ensures savedTimers == old(savedTimers) && editingTimerIndex == old(editingTimerIndex)
    {
      var newCustomTime := WithField(customTime, field, value);
      customTime := newCustomTime;
      if selectedPreset == Custom {
        timeLeft := newCustomTime;
        initialTimeLeft := newCustomTime;
      }
    }

    /** The label input of the custom view. */
    method LabelChange(value: string)
      requires Valid() && EditingInRange()
      modifies this`timerLabel
      ensures Valid() && EditingInRange()
      ensures timerLabel == value
    {
      timerLabel := value;
    }

    /**
     * `handleStartTimer`: pauses a running countdown; otherwise starts it,
     * unless the remaining time is exactly 0:00:00.
     */
    method StartTimer()
      requires Valid() && EditingInRange()
      modifies this`timerRunning, this`isCompleted
      ensures Valid() && EditingInRange()
      ensures old(timerRunning) ==> !timerRunning && isCompleted == old(isCompleted)
      ensures !old(timerRunning) && IsZero(timeLeft) ==> !timerRunning && isCompleted == old(isCompleted)
      ensures !old(timerRunning) && !IsZero(timeLeft) ==> timerRunning && !isCompleted
    {
      if timerRunning {
        timerRunning := false;
        return;
      }
      if timeLeft.hours == 0 && timeLeft.minutes == 0 && timeLeft.seconds == 0 {
        return;
      }
      timerRunning := true;
      isCompleted := false;
    }

    /**
     * One firing of the one-second interval.  It removes a second by borrow
     * subtraction; when no field is positive it stops the countdown, marks it
     * completed, shows 0:00:00 and returns true for the completion sound.
     */
    method Tick() returns (completedNow: bool)
      requires Valid() && EditingInRange() && timerRunning
      modifies this`timerRunning, this`isCompleted, this`timeLeft
      ensures Valid() && EditingInRange()
      ensures completedNow <==> Exhausted(old(timeLeft))
      ensures completedNow ==> timeLeft == Zero && !timerRunning && isCompleted
      ensures !completedNow ==> timeLeft == Decrement(old(timeLeft)) && timerRunning && isCompleted == old(isCompleted)
    {
      var newHours := timeLeft.hours;
      var newMinutes := timeLeft.minutes;
      var newSeconds := timeLeft.seconds;

      if newSeconds > 0 {
        newSeconds := newSeconds - 1;
      } else if newMinutes > 0 {
        newMinutes := newMinutes - 1;
        newSeconds := 59;
      } else if newHours > 0 {
        newHours := newHours - 1;
        newMinutes := 59;
        newSeconds := 59;
      } else {
        timerRunning := false;
        isCompleted := true;
        timeLeft := Duration(0, 0, 0);
        return true;
      }

      timeLeft := Duration(newHours, newMinutes, newSeconds);
      return false;
    }

    /** `handleStopTimer`: from any state, back to the initial time, stopped and not completed. */
    method StopTimer()
      requires Valid() && EditingInRange()
      modifies this`timerRunning, this`isCompleted, this`timeLeft
      ensures Valid() && EditingInRange()
      ensures timeLeft == initialTimeLeft && !timerRunning && !isCompleted
    {
      timerRunning := false;
      timeLeft := initialTimeLeft;
      isCompleted := false;
    }

    /**
     * `handleSaveTimer`: refuses a blank label, then a 0:00:00 initial time;
     * otherwise overwrites the edited entry (ending the edit) or appends a new
     * one, with the label and the initial time, and resets the remaining time
     * to the initial time.
     */
    method SaveTimer() returns (status: SaveStatus)
      requires Valid() && EditingInRange()
      modifies this`savedTimers, this`editingTimerIndex, this`timeLeft, this`isCompleted
      ensures Valid() && EditingInRange()
      ensures status == MissingLabel <==> Blank(timerLabel)
      ensures status == MissingTime <==> !Blank(timerLabel) && IsZero(initialTimeLeft)
      ensures status == Updated <==> !Blank(timerLabel) && !IsZero(initialTimeLeft) && old(editingTimerIndex) >= 0
      ensures status in {MissingLabel, MissingTime} ==>
        savedTimers == old(savedTimers) && editingTimerIndex == old(editingTimerIndex)
        && timeLeft == old(timeLeft) && isCompleted == old(isCompleted)
      ensures status == Updated ==>
        savedTimers == old(savedTimers)[old(editingTimerIndex) := SavedTimer(timerLabel, initialTimeLeft)]
        && editingTimerIndex == -1
      ensures status == Added ==>
        savedTimers == old(savedTimers) + [SavedTimer(timerLabel, initialTimeLeft)]
        && editingTimerIndex == old(editingTimerIndex)
      ensures status in {Updated, Added} ==> timeLeft == initialTimeLeft && !isCompleted
    {
      TrimEmptyIffBlank(timerLabel);
      if Trim(timerLabel) == "" {
        return MissingLabel;
      }
      if initialTimeLeft.hours == 0 && initialTimeLeft.minutes == 0 && initialTimeLeft.seconds == 0 {
        return MissingTime;
      }

      var newTimer := SavedTimer(timerLabel, initialTimeLeft);
      if editingTimerIndex >= 0 {
        savedTimers := savedTimers[editingTimerIndex := newTimer];
        editingTimerIndex := -1;
        status := Updated;
      } else {
        savedTimers := savedTimers + [newTimer];
        status := Added;
      }

      timeLeft := initialTimeLeft;
      isCompleted := false;
    }

    /**
     * `handleEditTimer`: loads the saved timer at index into the custom
     * editor, the label and both times, switches to the custom view and
     * remembers the index.  The source reads the entry's fields, so the index
     * must be a position of the list.
     */
    method EditTimer(index: int)
      requires Valid() && EditingInRange()
      requires 0 <= index < |savedTimers|
      modifies this`customTime, this`timerLabel, this`timeLeft, this`initialTimeLeft,
        this`selectedPreset, this`editingTimerIndex
      ensures Valid() && EditingInRange()
      ensures customTime == savedTimers[index].time && timeLeft == customTime && initialTimeLeft == customTime
      ensures timerLabel == savedTimers[index].name
      ensures selectedPreset == Custom && editingTimerIndex == index
    {
      var timerToEdit := savedTimers[index];
      customTime := timerToEdit.time;
      timerLabel := timerToEdit.name;
      timeLeft := timerToEdit.time;
      initialTimeLeft := timerToEdit.time;
      selectedPreset := Custom;
      editingTimerIndex := index;
    }

    /**
     * `handleDeleteTimer`: when confirmed, removes the entry at index; if
     * that entry was being edited, returns to Pomodoro with an empty label.
     * The editing index of another entry is kept as it is, so the page stops
     * rendering exactly when an earlier entry is deleted while the last one
     * is being edited.
     */
    method DeleteTimer(index: int, confirmed: bool)
      requires Valid() && EditingInRange()
      modifies this`savedTimers, this`editingTimerIndex, this`selectedPreset,
        this`timeLeft, this`initialTimeLeft, this`timerLabel
      ensures Valid()
      ensures !confirmed ==>
        savedTimers == old(savedTimers) && editingTimerIndex == old(editingTimerIndex)
        && selectedPreset == old(selectedPreset) && timeLeft == old(timeLeft)
        && initialTimeLeft == old(initialTimeLeft) && timerLabel == old(timerLabel)
      ensures confirmed ==> savedTimers == FilterIndex(old(savedTimers), index)
      ensures confirmed && index == old(editingTimerIndex) ==>
        editingTimerIndex == -1 && selectedPreset == Pomodoro
        && timeLeft == PomodoroTime && initialTimeLeft == PomodoroTime && timerLabel == ""
      ensures confirmed && index != old(editingTimerIndex) ==>
        editingTimerIndex == old(editingTimerIndex) && selectedPreset == old(selectedPreset)
        && timeLeft == old(timeLeft) && initialTimeLeft == old(initialTimeLeft) && timerLabel == old(timerLabel)
      ensures !EditingInRange() <==>
        confirmed && 0 <= index < old(editingTimerIndex) && old(editingTimerIndex) == |old(savedTimers)| - 1
    {
      if confirmed {
        var updatedTimers := FilterIndex(savedTimers, index);
        savedTimers := updatedTimers;
        if editingTimerIndex == index {
          editingTimerIndex := -1;
          selectedPreset := Pomodoro;
          timeLeft := PomodoroTime;
          initialTimeLeft := PomodoroTime;
          timerLabel := "";
        }
      }
    }
  }
}
