# Nocture front-end core and task codecs, modelled in Dafny

Nocture is a desktop productivity app: a React front end (timer, dashboard
calendar and reminders, tasks, notes) over Rust back ends that store tasks in
SQLite. This project models the parts of it that compute something:

- **Timer page** (`TimerPage`, class `TimerEngine`): preset selection, the
  custom time, the one-second countdown, start/stop, saving, editing and
  deleting named timers. `TimerTypes` holds the shared `Duration`, the
  countdown as a function (`Decrement`, `Countdown`) and the preset catalogue.
- **Timer display** (`TimerDisplay`): the `H:MM:SS` / `MM:SS` clock text and
  which buttons are shown.
- **Timer presets panel** (`TimerPresets`): the preset buttons, the
  `(1j 30m 5d)` caption of a saved timer and the saved-timer rows.
- **Dashboard calendar** (`CalendarView`): JavaScript `Date` month arithmetic
  (days in a month, weekday of the 1st, previous and next month), and the
  day grid.
- **Reminder list** (`ReminderList`): toggling completion, grouping by time
  heading, and the heading colour.
- **Task page** (`TaskPage`): toggling a task and the category icon.
- **New-note dialog** (`NotesModal`, class `NoteForm`): the form fields and
  the validated submit.
- **Rust task codecs** (`TaskKinds`, `TitleCaseCodec`, `LowerCaseCodec`,
  `FlatModel`): the `Category`/`Priority` string tables of the four back-end
  trees and the SQLite CHECK constraints they must satisfy.
  src-tauri/src/model/task.rs and src/model/task.rs carry the same
  title-case table word for word, so `TitleCaseCodec` models both. Its rows
  below cite one file or the other.

`JsText` holds the JavaScript string behaviour the front end relies on:
`trim()` with ECMAScript white space, `toString()` of integers and
`padStart(2, '0')`. `Optional` is the usual `Option` type.

The countdown is proved against the specification function `Countdown`. For a
duration with no negative field, it reaches `0:00:00` after exactly as many
ticks as the duration has seconds, and the next tick completes. A duration
with a negative field, which the custom inputs let through, can complete
elsewhere: `(0, -5, 10)` completes at `(0, -5, 0)`.

The clock text is proved decodable (`ReadClock`) for times with no negative
field and minutes and seconds in 0..59. The saved-timer caption is proved
decodable (`ReadCaption`) for times with no negative field. Outside these
ranges the texts can lose information: `(-1, 5, 5)` and `(0, 5, 5)` both show
`05:05`, and `(-1, 0, 0)` and `(0, 0, 0)` both get the caption `()`.

Every codec is proved a bijection onto its allowed strings.

## Model

| member | source | states |
|---|---|---|
| JsText.Trim | src/components/notes/NotesModal.jsx:23 | `trim()` removes exactly the leading and trailing white space: the result is a contiguous slice of the input, with only white space on either side and none at its own ends |
| JsText.TrimEmptyIffBlank | src/components/timer/TimerPage.jsx:144 | `!label.trim()` holds exactly when the string is all white space |
| JsText.TrimIdempotent | src/components/notes/NotesModal.jsx:30 | trimming an already trimmed title changes nothing |
| JsText.LeadingBlanks | src/components/notes/NotesModal.jsx:23 | the leading run of white space, which stops at the first non-white-space character |
| JsText.TrailingBlanks | src/components/notes/NotesModal.jsx:23 | the trailing run of white space, which stops at the last non-white-space character |
| JsText.NatToString | src/components/timer/TimerDisplay.jsx:6 | `toString()` of a non-negative integer is a non-empty run of digits, with no leading zero except for 0 itself, one digit exactly below 10 |
| JsText.NatToStringValue | src/components/timer/TimerDisplay.jsx:6 | the decimal value of `toString()` is the number itself |
| JsText.NatToStringInjective | src/components/timer/TimerDisplay.jsx:6 | different numbers print differently |
| JsText.IntToString | src/components/timer/TimerDisplay.jsx:6-7 | a negative number prints as '-' followed by its magnitude |
| JsText.PadStart2 | src/components/timer/TimerDisplay.jsx:6-7 | `padStart(2, '0')` leaves strings of length 2 or more alone and left-pads shorter ones with '0' to length 2, keeping the original as the suffix |
| JsText.TwoDigits | src/components/timer/TimerDisplay.jsx:6-7 | a field below 100 pads to two digits that read back as the field |
| TimerTypes.IsZeroMeansNoTime | src/components/timer/TimerPage.jsx:89 | the `h === 0 && m === 0 && s === 0` guard holds exactly for a time with no negative field and no seconds in total |
| TimerTypes.Exhausted | src/components/timer/TimerPage.jsx:102-111 | when no field is positive, so the tick takes the completion branch, no positive time is left |
| TimerTypes.Countdown | src/components/timer/TimerPage.jsx:96-129 | while the countdown runs, the hours never grow, and for a time with no negative field the time left is the original total minus the ticks taken |
| TimerTypes.ExhaustedIsZero | src/components/timer/TimerPage.jsx:102-111 | for a non-negative time, "every field at most 0" is the same as "all fields 0" |
| TimerTypes.Decrement | src/components/timer/TimerPage.jsx:102-128 | one tick borrows from minutes and hours and never raises the hours; for a time with no negative field it lowers the total by exactly one second, and with minutes and seconds also in 0..59 it keeps them there |
| TimerTypes.CountdownRunning | src/components/timer/TimerPage.jsx:96-129 | for a duration with no negative field, for up to its number of seconds the countdown is still running, and the time left is the original total minus the ticks taken |
| TimerTypes.NoSecondsIsZero | src/components/timer/TimerPage.jsx:111-125 | a non-negative time with no seconds in total is 0:00:00 |
| TimerTypes.CountdownCompletes | src/components/timer/TimerPage.jsx:96-129 | for a duration with no negative field, after exactly as many ticks as it has seconds the clock shows 0:00:00, and the next tick completes the timer |
| TimerTypes.CountdownReachesZero | src/components/timer/TimerPage.jsx:96-129 | the countdown of a non-negative duration reaches 0:00:00 after its total number of seconds |
| TimerTypes.CountdownStep | src/components/timer/TimerPage.jsx:97-128 | each further tick completes the timer if the time is exhausted and otherwise decrements it |
| TimerTypes.PresetTime | src/components/timer/TimerPage.jsx:27-32 | the three fixed presets are 0:25:00, 1:30:00 and 0:52:00; custom and saved have no fixed time |
| TimerTypes.PresetMinutes | src/components/timer/TimerPresets.jsx:2-7 | the presets last 25, 90 and 52 minutes, as their captions say |
| TimerDisplay.Field | src/components/timer/TimerDisplay.jsx:6-7 | a padded minute or second field is at least two characters long |
| TimerDisplay.FieldValue | src/components/timer/TimerDisplay.jsx:6-7 | a field in 0..99 shows as two digits with its own value |
| TimerDisplay.FormatTime | src/components/timer/TimerDisplay.jsx:3-10 | the clock text is at least five characters long |
| TimerDisplay.MinutesSeconds | src/components/timer/TimerDisplay.jsx:6-9 | the `MM:SS` part is at least five characters long |
| TimerDisplay.HourSegment | src/components/timer/TimerDisplay.jsx:5 | with hours present the text starts with the hour number and a colon |
| TimerDisplay.NoHourFiveChars | src/components/timer/TimerDisplay.jsx:3-10 | without hours, and with minutes and seconds in 0..59, the text is exactly `MM:SS` |
| TimerDisplay.ReadFormatTime | src/components/timer/TimerDisplay.jsx:3-10 | for a clock-range time, the displayed text reads back as that time |
| TimerDisplay.ReadShort | src/components/timer/TimerDisplay.jsx:3-10 | the `MM:SS` form reads back when hours are 0 |
| TimerDisplay.ReadLong | src/components/timer/TimerDisplay.jsx:3-10 | the `H:MM:SS` form reads back when hours are positive |
| TimerDisplay.ReadShortOf | src/components/timer/TimerDisplay.jsx:9 | two two-digit fields joined by ':' read back as those fields |
| TimerDisplay.ReadLongOf | src/components/timer/TimerDisplay.jsx:9 | an hour number and two two-digit fields joined by ':' read back as those fields |
| TimerDisplay.ReadLongParts | src/components/timer/TimerDisplay.jsx:9 | a text with colons six and three places from the end, and digits between them, reads back as those three numerals |
| TimerDisplay.FormatTimeInjective | src/components/timer/TimerDisplay.jsx:3-10 | two different clock-range times never show the same text |
| TimerDisplay.PresetDisplays | src/components/timer/TimerPage.jsx:27-32 | the presets display as "25:00", "1:30:00" and "52:00" |
| TimerDisplay.OneHourDisplay | src/components/timer/TimerPage.jsx:29 | the 90-minute preset displays as "1:30:00" |
| TimerDisplay.LongForm | src/components/timer/TimerDisplay.jsx:5-9 | with hours present the text is the hour number, ':' and the `MM:SS` part |
| TimerDisplay.WholeMinutes | src/components/timer/TimerDisplay.jsx:6-9 | two-digit whole minutes show as their two digits and ":00", which is the whole text when there are no hours |
| TimerDisplay.FiftyTwoDisplay | src/components/timer/TimerPage.jsx:30 | the 52/17 preset displays as "52:00" |
| TimerDisplay.PomodoroDisplay | src/components/timer/TimerPage.jsx:28 | the Pomodoro preset displays as "25:00" |
| TimerDisplay.ThirtyMinutes | src/components/timer/TimerDisplay.jsx:6-9 | thirty minutes and no seconds show as "30:00" |
| TimerDisplay.TwoDigitField | src/components/timer/TimerDisplay.jsx:6 | a two-digit number needs no padding and shows its two digits |
| TimerDisplay.ZeroField | src/components/timer/TimerDisplay.jsx:7 | zero is padded to "00" |
| TimerDisplay.OneNumeral | src/components/timer/TimerDisplay.jsx:5 | one hour prints as "1" |
| TimerDisplay.ControlsFor | src/components/timer/TimerDisplay.jsx:22-49 | a completed timer shows only "Simpan Timer"; otherwise the start button reads "Pause" while running and "Mulai" otherwise, and Stop shows only while running |
| TimerPresets.ButtonIds | src/components/timer/TimerPresets.jsx:2-7 | the ids of the buttons, in order |
| TimerPresets.PresetButtonsOrder | src/components/timer/TimerPresets.jsx:2-7 | the buttons are Pomodoro, 90, 52/17 and Custom, in that order; the first three have fixed times and none is the saved preset |
| TimerPresets.DurationCaption | src/components/timer/TimerPresets.jsx:38-41 | a saved timer's caption is parenthesised |
| TimerPresets.Segment | src/components/timer/TimerPresets.jsx:38-40 | a segment is shown exactly when its value is positive |
| TimerPresets.CaptionShape | src/components/timer/TimerPresets.jsx:38-41 | the caption is the hours, minutes and seconds segments in that order, in parentheses |
| TimerPresets.NoLetterInNumeral | src/components/timer/TimerPresets.jsx:38-41 | a printed number contains no letter |
| TimerPresets.LetterInSegment | src/components/timer/TimerPresets.jsx:38-41 | a segment contains its unit letter exactly when its value is positive |
| TimerPresets.CaptionSegments | src/components/timer/TimerPresets.jsx:38-41 | the caption shows 'j', 'm' and 'd' exactly for positive hours, minutes and seconds |
| TimerPresets.CaptionOrder | src/components/timer/TimerPresets.jsx:38-41 | hours come before minutes, and minutes before seconds |
| TimerPresets.HoursBeforeMinutes | src/components/timer/TimerPresets.jsx:38-39 | every 'j' of the caption comes before every 'm' |
| TimerPresets.MinutesBeforeSeconds | src/components/timer/TimerPresets.jsx:39-40 | every 'm' of the caption comes before every 'd' |
| TimerPresets.LeadingDigits | src/components/timer/TimerPresets.jsx:38-41 | the leading run of digits stops at the first non-digit |
| TimerPresets.LeadingDigitsOf | src/components/timer/TimerPresets.jsx:38-41 | digits followed by a non-digit form exactly the leading run |
| TimerPresets.ReadNumeralUnit | src/components/timer/TimerPresets.jsx:38-41 | digits followed by the unit letter read back as the digits' value, with what follows less one space |
| TimerPresets.ReadNumeralOther | src/components/timer/TimerPresets.jsx:38-41 | digits followed by another letter read as an absent segment that consumes nothing |
| TimerPresets.ReadSpacedSegment | src/components/timer/TimerPresets.jsx:38-39 | a shown hours or minutes segment reads back as its value and leaves exactly what follows its space |
| TimerPresets.SpacedSegment | src/components/timer/TimerPresets.jsx:38-39 | a shown hours or minutes segment is the number, its letter and a space |
| TimerPresets.UnitSegment | src/components/timer/TimerPresets.jsx:40 | a shown seconds segment is the number followed by 'd' |
| TimerPresets.ReadNothing | src/components/timer/TimerPresets.jsx:38-41 | an empty text reads as 0 |
| TimerPresets.ReadSeconds | src/components/timer/TimerPresets.jsx:40 | the seconds segment reads back as the seconds, or 0 when hidden |
| TimerPresets.ReadSecondsOther | src/components/timer/TimerPresets.jsx:40 | the seconds segment reads as absent when hours or minutes are looked for |
| TimerPresets.ShownSegment | src/components/timer/TimerPresets.jsx:38-41 | a positive segment is the number followed by its unit |
| TimerPresets.ReadMinutesSeconds | src/components/timer/TimerPresets.jsx:39-40 | the minutes segment reads back as the minutes, or 0 when hidden, and leaves the seconds segment |
| TimerPresets.ReadAllSegments | src/components/timer/TimerPresets.jsx:38-41 | the hours segment reads back as the hours, or 0 when hidden, and leaves minutes and seconds |
| TimerPresets.ReadHoursAbsent | src/components/timer/TimerPresets.jsx:38 | hidden hours read as 0 |
| TimerPresets.ReadDurationCaption | src/components/timer/TimerPresets.jsx:38-41 | the caption of a non-negative time reads back as that time |
| TimerPresets.DurationCaptionInjective | src/components/timer/TimerPresets.jsx:38-41 | different non-negative times have different captions |
| TimerPresets.RowFor | src/components/timer/TimerPresets.jsx:31-56 | a row shows the timer's label and a caption that reads back as its time when no field is negative; clicking selects that timer, and Edit and Delete pass its index |
| TimerPresets.SavedSection | src/components/timer/TimerPresets.jsx:27-59 | the saved section appears exactly when timers are saved, with one row per timer in order; row i shows timer i's label and caption, selects timer i as the saved preset, and edits and deletes index i |
| TimerPage.FilterIndexRemoves | src/components/timer/TimerPage.jsx:191 | `filter((_, i) => i !== index)` removes exactly the entry at an in-range index and leaves the list unchanged otherwise |
| TimerPage.FilterIndex | src/components/timer/TimerPage.jsx:191 | deleting an in-range index shortens the list by one, any other index leaves it as long as it was, and every remaining timer comes from the list |
| TimerPage.WithField | src/components/timer/TimerPage.jsx:71 | the changed input reads the new value and the other two keep theirs |
| TimerPage.DeleteBeforeEditedShifts | src/components/timer/TimerPage.jsx:189-203 | after deleting an entry before the edited one, the unchanged edit index names the next timer, or the end of the list |
| TimerPage.TimerEngine.EditingCaption | src/components/timer/TimerPage.jsx:246-250 | the "Sedang mengedit timer" line appears exactly while a timer is edited, naming that timer's label |
| TimerPage.TimerEngine.constructor | src/components/timer/TimerPage.jsx:9-21 | the page opens on Pomodoro with 25:00, stopped, with no custom time, label, saved timers or edit |
| TimerPage.TimerEngine.PresetChange | src/components/timer/TimerPage.jsx:44-66 | choosing a preset stops the timer, clears completion and editing, and loads the preset's time; a fixed preset clears the label, a saved timer loads its label and time, custom loads the custom time and keeps the label |
| TimerPage.TimerEngine.CustomTimeChange | src/components/timer/TimerPage.jsx:69-78 | one field of the custom time is set; in the custom view the clock and the initial time follow it, elsewhere nothing else changes |
| TimerPage.TimerEngine.LabelChange | src/components/timer/TimerPage.jsx:233 | the label becomes the typed text |
| TimerPage.TimerEngine.StartTimer | src/components/timer/TimerPage.jsx:81-131 | pressing the button pauses a running timer, does nothing on 0:00:00, and otherwise starts it and clears completion |
| TimerPage.TimerEngine.Tick | src/components/timer/TimerPage.jsx:96-129 | a tick completes the timer, stopping it at 0:00:00, exactly when every field is at most 0; otherwise it applies one `Decrement` step, which for a time with no negative field is one second less |
| TimerPage.TimerEngine.StopTimer | src/components/timer/TimerPage.jsx:134-139 | Stop halts the timer and restores the initial time, clearing completion |
| TimerPage.TimerEngine.SaveTimer | src/components/timer/TimerPage.jsx:142-175 | a blank label or zero time is refused and changes nothing; otherwise the edited entry is overwritten and editing ends, or a new entry is appended; either way the clock is reset |
| TimerPage.TimerEngine.EditTimer | src/components/timer/TimerPage.jsx:178-186 | editing loads the timer's label and time into the custom view and records its index |
| TimerPage.TimerEngine.DeleteTimer | src/components/timer/TimerPage.jsx:189-203 | an unconfirmed delete changes nothing; a confirmed one removes the entry and resets to Pomodoro if it was the edited one; the page can no longer render exactly when an earlier entry is deleted while the last one is edited |
| CalendarView.MonthLength | src/components/dashboard/CalendarView.jsx:7 | a month has 28 to 31 days, and February has 29 exactly in a leap year |
| CalendarView.MakeMonth | src/components/dashboard/CalendarView.jsx:27 | `new Date(y, m, 1)` normalises the month into 0..11 and carries the overflow into the year, after mapping years 0..99 to 1900..1999 |
| CalendarView.DaysInMonth | src/components/dashboard/CalendarView.jsx:7 | the day count of a month is between 28 and 31 |
| CalendarView.DaysInMonthIsLength | src/components/dashboard/CalendarView.jsx:7 | day 0 of the next month is the last day of this month, so the day count is the month's length |
| CalendarView.FirstWeekday | src/components/dashboard/CalendarView.jsx:8 | `getDay()` is a weekday between 0 and 6 |
| CalendarView.YearLength | src/components/dashboard/CalendarView.jsx:7-8 | a Gregorian year has 366 days when leap and 365 otherwise |
| CalendarView.LeapStep | src/components/dashboard/CalendarView.jsx:7-8 | the count of leap years goes up by one exactly past a Gregorian leap year |
| CalendarView.QuarterStep | src/components/dashboard/CalendarView.jsx:7-8 | one more leap year is counted exactly at years divisible by 4 |
| CalendarView.CenturyStep | src/components/dashboard/CalendarView.jsx:7-8 | one more century is counted exactly at years divisible by 100 |
| CalendarView.FourCenturyStep | src/components/dashboard/CalendarView.jsx:7-8 | one more 400-year cycle is counted exactly at years divisible by 400 |
| CalendarView.SuccessorDayNumber | src/components/dashboard/CalendarView.jsx:7-8 | the next month starts as many days later as this month is long |
| CalendarView.SuccessorWeekday | src/components/dashboard/CalendarView.jsx:8 | the next month's first weekday is this month's shifted by its length, modulo 7 |
| CalendarView.ShiftWeekday | src/components/dashboard/CalendarView.jsx:8 | shifting a weekday commutes with reducing modulo 7 |
| CalendarView.FirstDayOfMonth | src/components/dashboard/CalendarView.jsx:8 | the first of the shown month falls on a weekday 0..6 |
| CalendarView.StartMonthWeekday | src/components/dashboard/CalendarView.jsx:5-8 | the initial month, March 2025, starts on a Saturday and has 31 days |
| CalendarView.PrevMonth | src/components/dashboard/CalendarView.jsx:26-28 | the previous-month button always gives a normalised month |
| CalendarView.NextMonth | src/components/dashboard/CalendarView.jsx:30-32 | the next-month button always gives a normalised month |
| CalendarView.NavigationSteps | src/components/dashboard/CalendarView.jsx:26-32 | for years outside 0..99 the buttons step one month, wrapping January back to December of the previous year and December on to January of the next |
| CalendarView.NavigationRoundTrip | src/components/dashboard/CalendarView.jsx:26-32 | for years outside 0..99, going back and then forward, or forward and then back, returns to the same month |
| CalendarView.ConsecutiveMonths | src/components/dashboard/CalendarView.jsx:7-8 | when the next month's year is outside 0..99, the weekday of its first day is this month's shifted by its day count |
| CalendarView.TwoDigitYearJump | src/components/dashboard/CalendarView.jsx:27-31 | the two-digit-year rule makes "back" from January 100 land in December 99, and "next" from December 99 land in January 2000 |
| CalendarView.GenerateCalendarDays | src/components/dashboard/CalendarView.jsx:10-24 | the grid is one empty cell per weekday before the 1st, then the days 1 to the month's length in order |
| CalendarView.GridDaysIncreasing | src/components/dashboard/CalendarView.jsx:10-24 | the days in the grid increase, and every day of the month appears |
| ReminderList.ToggleCompletion | src/components/dashboard/ReminderList.jsx:43-49 | the same reminders in the same order, with `completed` flipped exactly on the matching id and every other field kept |
| ReminderList.ToggleLeavesOthers | src/components/dashboard/ReminderList.jsx:45-47 | a reminder with another id is left exactly as it was |
| ReminderList.ToggleTwice | src/components/dashboard/ReminderList.jsx:43-49 | toggling an id twice restores the list |
| ReminderList.TimesAreTheTimes | src/components/dashboard/ReminderList.jsx:52-58 | the group headings are distinct, and a heading appears exactly when some reminder carries it |
| ReminderList.HavingEmpty | src/components/dashboard/ReminderList.jsx:52-58 | a heading's group is empty exactly when the heading is not listed |
| ReminderList.HavingAppend | src/components/dashboard/ReminderList.jsx:52-58 | grouping a concatenated list concatenates the groups, so each group keeps list order |
| ReminderList.HavingMembers | src/components/dashboard/ReminderList.jsx:52-58 | a group holds exactly the reminders with its heading |
| ReminderList.GroupSizesStep | src/components/dashboard/ReminderList.jsx:52-58 | one more reminder adds one to the groups of the headings it is listed under |
| ReminderList.GroupSizesTotal | src/components/dashboard/ReminderList.jsx:52-58 | the group sizes add up to the number of reminders: nothing is lost or duplicated |
| ReminderList.GroupByTime | src/components/dashboard/ReminderList.jsx:52-58 | the grouping's keys are the headings in order of first appearance, and each key's array is its reminders in list order |
| ReminderList.TimeColor | src/components/dashboard/ReminderList.jsx:60-64 | the three headings get red, yellow and green; any other heading falls back to grey (line 79) |
| TaskPage.Toggled | src/components/task-management/TaskPage.jsx:37-39 | a task keeps every field but `completed`, which flips exactly when its id matches |
| TaskPage.ToggleTaskCompletion | src/components/task-management/TaskPage.jsx:36-40 | the same tasks in the same order, with `completed` flipped exactly on the matching id and nothing else changed |
| TaskPage.ToggleTaskTwice | src/components/task-management/TaskPage.jsx:36-40 | toggling an id twice restores the list |
| TaskPage.ToggleAbsentId | src/components/task-management/TaskPage.jsx:36-40 | toggling an id no task has changes nothing |
| TaskPage.CategoryIcon | src/components/task-management/TaskPage.jsx:23-34 | an icon is given exactly for 'Studi', 'Kerja' and 'Pribadi', one emoji each; anything else has none |
| TaskPage.CategoryIconsDistinct | src/components/task-management/TaskPage.jsx:23-34 | the three categories have different icons |
| NotesModal.NoteFor | src/components/notes/NotesModal.jsx:23-35 | a title blank after trimming gives no note; otherwise the note has the trimmed, non-empty title, the trimmed content, the chosen colour, the given id and time, and is not pinned |
| NotesModal.SavedNoteTrimmed | src/components/notes/NotesModal.jsx:30-31 | a saved note's title and content are already trimmed, and the title is not blank |
| NotesModal.NoteForm.constructor | src/components/notes/NotesModal.jsx:5-8 | the form opens empty, purple, with no error |
| NotesModal.NoteForm.Reset | src/components/notes/NotesModal.jsx:42-47 | every field returns to its initial value |
| NotesModal.NoteForm.TitleChange | src/components/notes/NotesModal.jsx:75-78 | typing sets the title, and clears the error exactly when the new title is not blank |
| NotesModal.NoteForm.ContentChange | src/components/notes/NotesModal.jsx:104 | typing sets the content |
| NotesModal.NoteForm.ColorChange | src/components/notes/NotesModal.jsx:88-92 | a colour button sets one of the seven colours |
| NotesModal.NoteForm.Submit | src/components/notes/NotesModal.jsx:20-40 | a blank title sets "Judul tidak boleh kosong", keeps the form and leaves the dialog open; otherwise the built note is saved, the form cleared and the dialog closed |
| NotesModal.NoteForm.Cancel | src/components/notes/NotesModal.jsx:113-116 | Batal clears the form and closes the dialog without saving |
| TitleCaseCodec.CategoryToString | src-tauri/src/model/task.rs:16-24 | a category encodes to one of "Study", "Work", "Personal" |
| TitleCaseCodec.CategoryFromStr | src/model/task.rs:21-32 | decoding succeeds exactly on "Study", "Work" and "Personal", and fails with `Err(())` otherwise (line 29); a success re-encodes to the input |
| TitleCaseCodec.PriorityToString | src/model/task.rs:41-49 | a priority encodes to one of "Low", "Medium", "High" |
| TitleCaseCodec.PriorityFromStr | src-tauri/src/model/task.rs:60-71 | decoding succeeds exactly on "Low", "Medium" and "High", and fails with `Err(())` otherwise (line 68); a success re-encodes to the input |
| TitleCaseCodec.CategoryRoundTrip | src-tauri/src/model/task.rs:16-38 | `from_str(to_string(c)) == Ok(c)` for every category |
| TitleCaseCodec.PriorityRoundTrip | src/model/task.rs:41-62 | `from_str(to_string(p)) == Ok(p)` for every priority |
| TitleCaseCodec.CategoryFromStrIsInverse | src/model/task.rs:11-32 | `from_str(s) == Ok(c)` exactly when `to_string(c) == s`: whenever decoding succeeds, encoding the result gives back the input |
| TitleCaseCodec.PriorityFromStrIsInverse | src-tauri/src/model/task.rs:49-71 | `from_str(s) == Ok(p)` exactly when `to_string(p) == s` |
| TitleCaseCodec.NamesInjective | src-tauri/src/model/task.rs:16-57 | different variants have different names, for both enums |
| TitleCaseCodec.LowerCaseRefused | src-tauri/src/model/task.rs:30-36 | matching is case-sensitive: the lower-case names are refused |
| TitleCaseCodec.CategoryOrPersonal | src-tauri/src/repository/task.rs:39 | a stored category decodes to its variant, and anything else to Personal |
| TitleCaseCodec.PriorityOrLow | src-tauri/src/repository/task.rs:40 | a stored priority decodes to its variant, and anything else to Low |
| LowerCaseCodec.CategoryAsStr | src/models/task.rs:21-27 | a category encodes to a value the `category` CHECK admits |
| LowerCaseCodec.CategoryFromStr | src/models/task.rs:12-19 | decoding succeeds exactly on "study", "work" and "personal", and the result re-encodes to the input |
| LowerCaseCodec.PriorityAsStr | src/models/task.rs:47-53 | a priority encodes to a value the `priority` CHECK admits |
| LowerCaseCodec.PriorityFromStr | src/models/task.rs:38-45 | decoding succeeds exactly on "low", "medium" and "high", and the result re-encodes to the input |
| LowerCaseCodec.CategoryRoundTrip | src/models/task.rs:12-27 | `from_str(as_str(c)) == Some(c)` |
| LowerCaseCodec.PriorityRoundTrip | src/models/task.rs:38-53 | `from_str(as_str(p)) == Some(p)` |
| LowerCaseCodec.TitleCaseRefused | src/models/task.rs:12-19 | matching is lower-case only: "Study", "High" and the other title-case names give None |
| LowerCaseCodec.AsStrIsTheCheckedSet | src/migrations/v0001_create_task.rs:8-9 | `as_str` yields exactly the non-null values the CHECK constraints admit, one per variant |
| FlatModel.CategoryEncodings | src/model.rs:23-31 | src/model.rs encodes Study, Work and Personal as "Study", "Work" and "Personal", and no two categories share a name |
| FlatModel.PriorityEncodings | src/model.rs:40-48 | src/model.rs encodes Low, Medium and High as "Low", "Medium" and "High", and no two priorities share a name |
| FlatModel.EncodingsAreTheCheckedSet | src/db.rs:21-22 | the encodings of src/model.rs are exactly the values the CHECK constraints admit, one per variant |

## Left out

- Timing: `setInterval` and `clearInterval` are not modelled. Each call of `TimerEngine.Tick` is one interval firing. The interval handle, and a second interval started while one runs, are not modelled.
- The completion sound (`new Audio(...)`, `play()`) is left out. So are `alert` and `console` output. `SaveTimer`'s status value stands for the alert that is shown.
- `window.confirm` in the delete handler is the `confirmed` parameter of `DeleteTimer`.
- `parseInt(value) || 0` in the custom-time inputs: `CustomTimeChange` receives the already parsed integer. String parsing is not modelled.
- JSX layout, styling, icons and the timer explanation text are not modelled. Neither is the dashboard's highlighted day (a fixed 27).
- TimerTypes.Decrement, TimerTypes.CountdownCompletes and TimerTypes.CountdownReachesZero treat every field as an exact integer. The page keeps the fields in JavaScript numbers, which are exact only below 2^53: from there `newSeconds--` can leave the value unchanged (1e20 - 1 is 1e20), so a countdown from such a time would not end.
- JsText.NatToString prints plain digits for every number. JavaScript's `toString()` switches to exponent notation ("1e+21") from 10^21, so the displayed text differs from the model for such times.
- TimerPage.TimerEngine.EditTimer: requires an in-range index. The source reads `savedTimers[index].label` and fails on any other index, so it has no silent no-op for a bad index.
- TimerPage.TimerEngine.SaveTimer and the other handlers require `EditingInRange()`. A page whose edit index has fallen off the end of the list fails while rendering (TimerPage.jsx:246-250), so no handler can be reached from it. `DeleteTimer` states exactly when that happens.
- CalendarView: `Date`'s limit of ±8.64e15 ms and time zones are not modelled. Months are whole Gregorian months in a proleptic calendar.
- ReminderList: `Object.entries` is modelled as insertion order. JavaScript lists integer-like keys first, and the time headings are never integer-like. The grouping object and `timeColorMap` are plain JavaScript objects, so a heading named like an inherited key ("constructor", "__proto__") would behave differently from the Dafny map; the headings are fixed strings, none of them such a name.
- TimerPage.TimerEngine.PresetChange: requires a timer when the saved preset is chosen. The page always passes one (TimerPresets.jsx:35).
- NotesModal: `Date.now()` and `toISOString()` become the `id` and `createdAt` parameters of `Submit`. The `isOpen` check, and the `onSave` and `onClose` callbacks, are the returned note and flag.
- Rust persistence is not part of this model: the SQLite repositories, migrations, the Tauri command wiring and the service layers (chrono parsing, `Utc::now()`, file creation). Only the CHECK constraints' allowed values are modelled, as sets. So is the repository's decode fallback.
- Serde's derived (de)serialisation of the enums is not modelled. It uses the variant names, as `to_string` does.
