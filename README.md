# Bell schedule: a verified model

A model in Dafny of the scheduling core of a school-bell app. The app
keeps a day's schedule of *periods* and a list of *fixed alarms*. A period
has a start time and an end time, and an alarm has one time. Times are
"HH:MM" strings, and each item repeats on a set of weekdays (0 = Sunday
.. 6 = Saturday). The model covers:

- **Time helpers** (module `Clock`): a time's minute of the day, a period's
  length with midnight wrap-around, the 12-hour clock text, and
  JavaScript's string order on times.
- **List idioms** (`Seqs`): `filter`, `map` over the items that match, and
  sorting by a string key.
- **Data** (`Schedule`): periods, fixed alarms and saved profiles.
- **Trigger detection** (`Trigger`): on second 0 of each minute, at most one
  ring is requested. A period start wins over a period end, which wins over
  a fixed alarm. Within each class, the first item in list order wins.
- **The countdown to the next bell** (`Countdown`): a scan over today and
  the next seven days, which keeps a running minimum and stops at the first
  day with a match. It is proved to find the nearest future occurrence.
- **Schedule edits** (`Edits`): the derived end time, sorted saves of
  periods and alarms, toggling and deleting by id, and deleting and
  renaming saved profiles.
- **A period's card** (`PeriodCard`): runs-today and the progress
  percentage, with its midnight adjustment. Also the "in progress" flag the
  period list passes to the card.
- **The clock-face time picker** (`TimePicker`): a class whose handlers
  update the picker's value, mode, AM/PM half and drag flag.
- **An alarm's card** (`AlarmCard`): the split 12-hour text and the display
  fallbacks.

"Now" is an input: a weekday and the milliseconds since midnight, with every
day 24 hours long. A percentage that JavaScript computes in floating point
is a `real` here, or `NotANumber` where JavaScript yields NaN.

## Model

| member | source | states |
|---|---|---|
| Clock.Pad2 | App.tsx:37 | a number below 100 gets a leading zero exactly when it has one digit |
| Clock.NatStr | App.tsx:37 | `toString` of a natural number: at least one character, all digits, and a single digit exactly below 10; the hour of the 12-hour text and the numbers of the countdown (App.tsx:664) are written this way |
| Clock.DecimalValueOfNatStr | App.tsx:37 | reading the digits of a number's text back gives the number |
| Clock.Minutes | App.tsx:21-24 | a well-formed "HH:MM" names a minute of the day in 0..1439 (the period card's copy at components/PeriodCard.tsx:24-27 is the same) |
| Clock.TimeInMinutes | App.tsx:21-24 | a minute exactly for well-formed text (NaN otherwise), and formatting that minute gives the text back |
| Clock.FormatHHMM | App.tsx:631 | the "HH:MM" of a minute is well-formed, and reading it back gives the same minute, hour and minute-of-hour |
| Clock.FormatOfMinutes | App.tsx:631 | every well-formed time is the text of its own minute, so text and minute determine each other |
| Clock.HHMMEqualIffSameMinute | App.tsx:289-308 | two well-formed times are equal strings exactly when they name the same minute |
| Clock.DurationMinutes | App.tsx:26-31 | defined exactly for two well-formed times; lies in [0,1440); equals (end − start) mod 1440; equal start and end give 0 (the period card's copy at components/PeriodCard.tsx:29-38 is the same) |
| Clock.DurationReachesEnd | App.tsx:26-31 | start plus length comes back to the end mod 1440, and passes midnight exactly when the end is before the start |
| Clock.StrLeTotal | App.tsx:540 | the string order on the sort key is total |
| Clock.StrLeTransitive | App.tsx:540 | the string order on the sort key is transitive |
| Clock.StrLe | App.tsx:649 | JavaScript's `<=` on strings, character by character: a string is at or before every string it is a prefix of (also the order of App.tsx:1107 and of the sorts at App.tsx:540 and 548) |
| Clock.StrLeAntisymmetric | App.tsx:540 | two strings each at or before the other are equal, so the sort key order is a total order |
| Clock.HHMMOrderIsMinuteOrder | App.tsx:649 | on well-formed times, string order is minute order |
| Clock.DisplayHour | components/TimePicker.tsx:19 | the 12-hour hour lies in 1..12 and agrees with the hour mod 12, so 0 and 12 show as 12 |
| Clock.Hour24 | components/TimePicker.tsx:103-105 | a 12-hour hour and a half of the day give an hour in 0..23 that is at least 12 exactly on the PM half |
| Clock.Hour24OfDisplayHour | components/TimePicker.tsx:19 | the 12-hour reading of an hour and its half of the day give the hour back |
| Clock.Format12h | App.tsx:33-38 | hour 0 reads "12 … AM", 1..11 AM, 12 "12 … PM", 13..23 as h − 12 PM; hour unpadded, minute two digits (the period card's copy at components/PeriodCard.tsx:17-22 is the same) |
| Clock.Format12hRoundTrip | App.tsx:33-38 | reading the 12-hour text back gives the original minute of the day |
| Seqs.Filter | App.tsx:291-295 | the kept items all pass and are no more than the input |
| Seqs.FilterAppend | App.tsx:291-295 | filtering a joined list is joining the filtered parts |
| Seqs.FilterCount | App.tsx:1125 | each passing item occurs as often as in the input, every other item not at all |
| Seqs.FilterKeepsOrder | App.tsx:291-295 | two passing items keep their relative order in the result |
| Seqs.FilterIsPassingSubsequence | App.tsx:1125 | the result is the input at an increasing run of positions that are exactly the positions whose item passes, so even repeated items are kept once each, in place |
| Seqs.FilterSorted | App.tsx:1125 | filtering a list sorted by a key leaves it sorted by that key |
| Seqs.FilterEmpty | App.tsx:313 | the filtered list is empty exactly when no item passes |
| Seqs.FilterHead | App.tsx:314 | the first item of the filtered list is the first item that passes |
| Seqs.FirstExists | App.tsx:313-314 | when any item passes, a first one exists |
| Seqs.FilterMembers | App.tsx:1125 | an item is kept exactly when it is in the list and passes |
| Seqs.FilterIdempotent | App.tsx:1125 | filtering twice with the same test is filtering once |
| Seqs.UpdateWhere | App.tsx:1116 | same length; matching items are changed and all others are kept where they were |
| Seqs.Insert | App.tsx:548 | inserting into a sorted list keeps it sorted and adds exactly that item |
| Seqs.SortBy | App.tsx:540 | the result is sorted by the key and is a permutation of the input |
| Schedule.OrElse | App.tsx:509 | the text when it is non-empty, the fallback otherwise |
| Schedule.SoundOrElse | App.tsx:315 | the item's sound when it has a non-empty one, the selected sound otherwise |
| Schedule.RunsOn | App.tsx:293 | `repeatDays.includes(day)`: some position of the list holds the day (also App.tsx:300, 307 and 647) |
| Trigger.CheckAlarms | App.tsx:284-289 | no ring is requested on a tick whose seconds are not 0 |
| Trigger.TimeIs | App.tsx:294 | against a well-formed current time, a stored time matches exactly when it is well-formed and names the same minute |
| Trigger.StartsAt | App.tsx:291-295 | a period is due to start exactly when it is on, runs on today's weekday and its start names the current minute |
| Trigger.EndsAt | App.tsx:298-302 | a period is due to end exactly when it is on, runs on today's weekday and its end names the current minute |
| Trigger.AlarmDueAt | App.tsx:305-309 | an alarm is due exactly when it is on, runs on today's weekday and its time names the current minute |
| Trigger.PeriodRing | App.tsx:314-316 | the ring label is the name followed by " Started" or " Ended"; the sound is the period's own when non-empty, else the selected one; the length is the period's (also App.tsx:318-320) |
| Trigger.AlarmRing | App.tsx:322-324 | the label is never empty: the alarm's own, or "Alarm Triggered" when empty; the sound is the alarm's own when non-empty, else the selected one; the length is the alarm's |
| Trigger.CheckAlarmsRingsIffDue | App.tsx:289-326 | a ring is requested exactly on second 0 of a minute in which an active item on today's weekday has its start, end or alarm time equal to the current "HH:MM" |
| Trigger.FirstStartWins | App.tsx:313-316 | the first starting period rings "name Started" with its sound or the selected one and its ring length, whatever else is due |
| Trigger.FirstEndWinsWithoutStart | App.tsx:317-320 | with no start due, the first ending period rings "name Ended" |
| Trigger.FirstAlarmWinsWithoutPeriod | App.tsx:321-324 | with no period bell due, the first due alarm rings with its label or "Alarm Triggered" |
| Trigger.TimeTextMatchIsMinuteMatch | App.tsx:285-294 | a stored time equals the current "HH:MM" exactly when it is well-formed and names the current minute |
| Countdown.Events | App.tsx:635-641 | ends of active periods, then starts, then active alarms, in that order |
| Countdown.EventsMembers | App.tsx:635-641 | an event is listed exactly when it is the end or start of an active period or an active alarm |
| Countdown.EventsKeepListOrder | App.tsx:635-641 | within each kind the events keep list order: an earlier active period's end and start come before a later one's, an earlier active alarm's bell before a later one's |
| Countdown.NowText | App.tsx:631 | "now" as text is a well-formed time naming the current minute |
| Countdown.CandidateInFuture | App.tsx:649 | every occurrence the scan may choose is strictly in the future, because today's events not after now's "HH:MM" are skipped |
| Countdown.LaterDayIsFurther | App.tsx:643-657 | any occurrence on a later day of the scan is further away, so stopping at the first day with a match is sound |
| Countdown.NearestIsUnique | App.tsx:643-657 | the nearest occurrence, with ties going to the earlier event, is unique |
| Countdown.WindowCoversEveryWeekday | App.tsx:643-646 | days 0..7 of the scan hold an occurrence exactly when some event has a time and a weekday; an event already past today comes round again on day 7 |
| Countdown.ScanNext | App.tsx:643-658 | finds nothing exactly when there is no occurrence in the window; otherwise the event and day it returns are the nearest occurrence (ends before starts before alarms on a tie), and the distance is positive |
| Countdown.Decompose | App.tsx:660-663 | whole hours, minutes below 60 and seconds below 60 whose total is within one second below the distance |
| Countdown.DecomposeUnique | App.tsx:660-663 | those hours, minutes and seconds are the only ones that fit the distance |
| Countdown.CountdownText | App.tsx:664 | the text has an hours unit exactly when there are hours, and ends with the seconds unit |
| Countdown.CountdownTextFields | App.tsx:664 | the text is the hours' digits and "h " (only when there are hours), the minutes' digits and "m ", the seconds' digits and "s", and each digit run reads back as that number |
| Countdown.CountdownTextReadsBack | App.tsx:664 | different countdowns read differently, so the text determines the hours, minutes and seconds (which digits are which is Countdown.CountdownTextFields) |
| Countdown.SchedulableIffSomeEventHasADay | App.tsx:642 | some active item has a time and a weekday exactly when some listed event does |
| Countdown.NextAlarmInfo | App.tsx:634-665 | nothing exactly when no active period or alarm can ever ring; otherwise the nearest future occurrence's name, kind, time and its countdown |
| Edits.CalculatedEndTime | App.tsx:500-505 | a well-formed time that is the duration after the start, mod 1440 |
| Edits.EndTimeRecoversDuration | App.tsx:500-505 | for every duration below a day, the length from the start to the derived end is that duration, so reopening a saved period (App.tsx:582) shows the duration it was saved with |
| Edits.ChosenSound | App.tsx:513 | an empty sound choice is stored as no sound |
| Edits.ApplyPeriodDraft | App.tsx:508-515 | the form's fields over a period: id, on/off and colour kept; name as typed or "Unnamed Period" when empty; start, days and ring length as chosen; the chosen sound, none when empty; the derived end, so the saved length is the chosen duration |
| Edits.EditPeriods | App.tsx:539-540 | the edited list is sorted by start time, is a permutation of the mapped list, and is as long as before |
| Edits.EditChangesOnlyThatId | App.tsx:540 | every period of the edited list with another id was already there; one with the edited id is an old period with the form applied |
| Edits.NewPeriod | App.tsx:542-547 | a new period is switched on, has the fresh id and colour, and carries every form field: name or "Unnamed Period", start, derived end (so the chosen length), days, ring length and sound |
| Edits.AddPeriod | App.tsx:548 | the list is sorted by start time and holds the old periods plus the new one |
| Edits.SavePeriod | App.tsx:507-551 | saves into the profile being edited, or edits in place, or adds; alarms untouched; the active profile name cleared |
| Edits.ApplyAlarmDraft | App.tsx:555-561 | the form's fields over an alarm: id and on/off kept; label as typed or "Alarm" when empty; time, days and ring length as chosen; the chosen sound, none when empty |
| Edits.ChosenSoundRings | App.tsx:513 | a saved period's bells (App.tsx:315, 319) and a saved alarm's bell (App.tsx:323) ring with the sound chosen in the form, or the selected sound when none was chosen |
| Edits.SaveAlarm | App.tsx:554-568 | the alarm list comes back sorted by time and is a permutation of the edited list or of the old alarms plus the new one; nothing else changes |
| Edits.TogglePeriod | App.tsx:1114-1117 | flips on/off of exactly the periods with that id and clears the active profile name |
| Edits.TogglePeriodTwice | App.tsx:1116 | toggling the same id twice restores the periods |
| Edits.DeletePeriod | App.tsx:1122-1126 | the result is exactly the subsequence of the periods with another id, each occurrence kept once and in its old place in the order; a list sorted by start time stays sorted; clears the active profile name |
| Edits.DeletePeriodTwice | App.tsx:1125 | deleting the same id again changes nothing |
| Edits.ToggleAlarm | App.tsx:1152 | flips on/off of exactly the alarms with that id; nothing else changes |
| Edits.ToggleAlarmTwice | App.tsx:1152 | toggling the same id twice restores the alarms |
| Edits.DeleteAlarm | App.tsx:1153-1160 | the result is exactly the subsequence of the alarms with another id, each occurrence kept once and in its old place in the order; a list sorted by time stays sorted; nothing else changes |
| Edits.DeleteProfile | App.tsx:472-483 | the result is exactly the subsequence of the profiles with another id, each occurrence kept once and in its old place in the order; the active profile name is forgotten only when it was this profile's |
| Edits.RenameProfile | App.tsx:486-498 | with no open profile or a blank name nothing changes; otherwise exactly the profiles with the open id are renamed, and the active name follows |
| Edits.TrimStart | App.tsx:487 | a suffix of the text; everything dropped is blank and what is left does not start with a blank |
| Edits.TrimEnd | App.tsx:487 | a prefix of the text; everything dropped is blank and what is left does not end with a blank |
| Edits.Trim | App.tsx:487 | `trim()`: what is left neither starts nor ends with a blank |
| Edits.TrimIsInfix | App.tsx:487 | `trim()` keeps a contiguous run of the text and removes only blanks, all of them from the two ends |
| Edits.IsBlank | App.tsx:487 | `!name.trim()`: the name is blank exactly when trimming leaves nothing |
| PeriodCard.LiftedMinute | components/PeriodCard.tsx:59-63 | for a period crossing midnight the lifted minute is exactly the time elapsed since the start; otherwise the minute is left alone |
| PeriodCard.Clamp | components/PeriodCard.tsx:65 | the clamped value lies in [0,100] and is the value itself when already inside |
| PeriodCard.PeriodProgress | components/PeriodCard.tsx:49-66 | 0 unless the flag is set and the period runs today; otherwise within [0,100], NaN exactly for malformed times or a zero-length period at its own minute |
| PeriodCard.ProgressIsElapsedFraction | components/PeriodCard.tsx:54-66 | inside the period, across midnight or not, the bar is the elapsed fraction of its length |
| PeriodCard.ProgressOutsideThePeriod | components/PeriodCard.tsx:54-66 | outside the period the bar is full, except before the start of a period that does not cross midnight |
| PeriodCard.CrossingPeriodNeverShownActive | App.tsx:1106-1107 | as written, a period crossing midnight is never flagged in progress |
| PeriodCard.ShownActiveAsWritten | App.tsx:1106-1107 | for well-formed times, flagged exactly when the period is on, runs today, and the current minute is at or after its start and before its end |
| PeriodCard.LateShiftNotShownAsWritten | App.tsx:1107 | a 23:00–01:00 period at 23:30 is under way but is not flagged as written |
| PeriodCard.ShownActiveAgreesWithoutCrossing | App.tsx:1107 | for a period not crossing midnight, the corrected flag is the written one |
| PeriodCard.CardProgress | App.tsx:1105-1113 | with the corrected flag, a running period's bar is the elapsed fraction of its length and any other bar is 0 |
| TimePicker.WithHour | components/TimePicker.tsx:106 | the emitted text is a well-formed time with the new hour and the old minute |
| TimePicker.WithMinute | components/TimePicker.tsx:98 | the emitted text is a well-formed time with the old hour and the new minute |
| TimePicker.SliderHour | components/TimePicker.tsx:102-106 | an hour in 0..23, before noon exactly on the AM half, whose 12-hour reading is the slider value |
| TimePicker.ToggledHour | components/TimePicker.tsx:89-95 | an hour in the chosen half with the same 12-hour reading; unchanged if already there |
| TimePicker.ToggleTwiceIsOnce | components/TimePicker.tsx:89-95 | choosing the same half twice is choosing it once |
| TimePicker.ToggleThereAndBack | components/TimePicker.tsx:89-95 | switching half and back restores the hour |
| TimePicker.NormaliseHour | components/TimePicker.tsx:33-34 | a rounded hour step is 1..12 with 0 read as 12 |
| TimePicker.NormaliseMinute | components/TimePicker.tsx:41-42 | a rounded minute step is 0..59 with 60 read as 0 |
| TimePicker.TimePicker.constructor | components/TimePicker.tsx:13-16 | starts in hours mode, not dragging, AM exactly when the hour is before noon |
| TimePicker.TimePicker.UpdateFromStep | components/TimePicker.tsx:32-44 | sets the hour in the chosen half in hours mode, the minute in minutes mode, and keeps the AM/PM invariant |
| TimePicker.TimePicker.HandleStart | components/TimePicker.tsx:47-52 | starts a drag and sets the time under the pointer |
| TimePicker.TimePicker.HandleMove | components/TimePicker.tsx:54-59 | the time follows the pointer only while dragging |
| TimePicker.TimePicker.HandleEnd | components/TimePicker.tsx:61-67 | moves from hours to minutes only when a drag ends in hours mode; always ends the drag |
| TimePicker.TimePicker.ToggleAmPm | components/TimePicker.tsx:89-95 | sets the half, keeps the 12-hour hour and the minute, and keeps the invariant |
| TimePicker.TimePicker.HandleMinuteSlider | components/TimePicker.tsx:97-100 | sets the minute, keeps the hour, and ends in minutes mode |
| TimePicker.TimePicker.HandleHourSlider | components/TimePicker.tsx:102-108 | sets the 12-hour hour in the chosen half, keeps the minute, and ends in hours mode |
| AlarmCard.Format12hParts | components/AlarmCard.tsx:14-19 | the marker is "PM" exactly from noon, and time, a space and the marker make the app's 12-hour text |
| AlarmCard.ClockTextDigits | components/AlarmCard.tsx:17-18 | the time part is the unpadded 12-hour hour (12 for hours 0 and 12), a colon and the two-digit minute |
| AlarmCard.LabelShown | components/AlarmCard.tsx:43 | the label, or "Alarm" when it is empty |
| AlarmCard.RingSecondsShown | components/AlarmCard.tsx:45 | the ring length, or 10 when it is 0, as on a period's card (components/PeriodCard.tsx:141) |
| AlarmCard.DayHighlights | components/AlarmCard.tsx:47-48 | seven flags; weekday i is highlighted exactly when it is a repeat day, as on a period's card (components/PeriodCard.tsx:144) |

## Findings

| source | as written | input that shows it | evidently intended | confidence | as-written member | corrected member |
|---|---|---|---|---|---|---|
| App.tsx:1107 | A period is flagged in progress only when the current "HH:MM" is at or after its start and before its end, in string order. No period that crosses midnight ever passes this test, so the card's midnight adjustment (components/PeriodCard.tsx:59-63) is never reached. | A period 23:00–01:00 on Sundays, switched on, at 23:30 on a Sunday: it is under way but shows no progress. | The period is in progress while fewer minutes have passed since its start than its length, as the card's midnight handling assumes. | medium, not executed | PeriodCard.LateShiftNotShownAsWritten | PeriodCard.CardProgress |

## Left out

- The ring itself (`playAlarm`, `stopAlarm`, `testAlarm`). It is audio, vibration and timers. The model stops at the ring request `checkAlarms` would hand over.
- The one-second tick. "Now" is an input.
- Dates, time zones and daylight saving. Days are taken to be 24 hours long, and the end time is computed mod 1440 rather than through `Date.setHours`.
- Persistence in local storage, sound file import, the Android background-mode setup, and the AI schedule generator. These are I/O, platform configuration and a network service.
- Rendering, modals, styling and animation.
- The colour and id of a new item. `Math.random` and `Date.now` are nondeterministic, so both are parameters.
- Keeping the open profile preview in step after a save or rename. It is display state only.
- The picker's pointer angle. It comes from the DOM and `atan2` in floating point, so the model starts from the angle rounded to a clock step.
- The static data: colours, sample schedules and sound URLs.
- Clock.Minutes: only canonical "HH:MM" text is a time. JavaScript's `Number` would also read text such as "9:5" or "9:05", which the model treats as malformed (NaN). The members below inherit this.
- Clock.TimeInMinutes: gives no minute for non-canonical text that JavaScript would still read as a number.
- Clock.DurationMinutes: gives no length (NaN) when either time is non-canonical, where JavaScript may still compute one.
- Clock.Format12h: requires a canonical time; the 12-hour text of other text is not modelled.
- Edits.CalculatedEndTime: requires a canonical "HH:MM" start time. A stored non-canonical start time is not modelled. Such a time would reach the form when `openModal` copies a period's start time back (App.tsx:581), for a period that came from a generated schedule, which keeps the generator's text as given.
- Edits.SavePeriod: requires a canonical start time in the form, for the reason given for Edits.CalculatedEndTime.
- Edits.ApplyPeriodDraft: requires a canonical start time in the form, for the reason given for Edits.CalculatedEndTime.
- Edits.NewPeriod: requires a canonical start time in the form, for the reason given for Edits.CalculatedEndTime.
- Edits.EditPeriods: requires a canonical start time in the form, for the reason given for Edits.CalculatedEndTime.
- Edits.EditChangesOnlyThatId: requires a canonical start time in the form, for the reason given for Edits.CalculatedEndTime.
- Edits.ChosenSoundRings: requires a canonical start time in the form, for the reason given for Edits.CalculatedEndTime.
- PeriodCard.PeriodProgress: shows NaN for a period with a non-canonical time, where JavaScript may still compute a percentage.
- Countdown.CountdownTextReadsBack: states only that the text determines the countdown; which digits are the hours, minutes and seconds is stated by Countdown.CountdownTextFields.
- Countdown.NextAlarmInfo: skips events whose time is non-canonical, as do Countdown.ScanNext and Countdown.Schedulable, where JavaScript would still compare and schedule them.
- Seqs.SortBy: orders keys by code point, which for canonical "HH:MM" keys is the order `localeCompare` gives; for other text the locale's collation may differ. It does not state where items with equal keys end up, although JavaScript's sort is stable.
- Schedule.Period: a missing `ringDuration` is not representable. It is an `int`, so JavaScript's `undefined || 10` case is the 0 case.
- Edits.SavePeriod: an empty-string id would be falsy in JavaScript. Ids are never empty here, so an editing id is modelled as present or absent.
- Edits.IsBlank: the whitespace set is the one JavaScript's `trim` removes, written out. Line terminators and Unicode space separators are treated alike.
- TimePicker.TimePicker.constructor: requires a canonical "HH:MM" value. A stored non-canonical start time that `openModal` copies back into the form (App.tsx:581) would reach the picker, and that case is not modelled, for the reason given for Edits.CalculatedEndTime.
- TimePicker.TimePicker: the value is a prop. The model assumes the form feeds each emitted value straight back. A value changed from outside while the picker stays mounted can leave the AM/PM choice stale in the source, and that case is not modelled.
