/**
 * Edits to the schedule lists (App.tsx): the derived end time of a period
 * being edited, saving a period or an alarm (kept sorted by time), toggling
 * and deleting by id, and deleting and renaming saved profiles.
 *
 * Each handler in the source replaces React state with a new array built
 * by `map`, `filter` and `sort`; here each is a function from the old
 * state to the new one. Fresh ids (`Date.now()`) and the random colour of a
 * new period are parameters.
 */
module Edits {
  import opened Wrappers
  import opened Clock
  import opened Seqs
  import opened Schedule
  import Trigger

  /** The app state these handlers touch. */
  datatype Workspace = Workspace(
    periods: seq<Period>,
    alarms: seq<FixedAlarm>,
    profiles: seq<ScheduleProfile>,
    activeProfileName: Option<string>)

  /** The period form: name, start, duration in minutes, days, chosen sound, ring duration. */
  datatype PeriodDraft = PeriodDraft(
    name: string,
    startTime: string,
    duration: int,
    repeatDays: seq<int>,
    sound: Option<string>,
    ringDuration: int)

  /** The alarm form. */
  datatype AlarmDraft = AlarmDraft(
    time: string,
    alarmLabel: string,
    repeatDays: seq<int>,
    sound: Option<string>,
    ringDuration: int)

  // ---------------------------------------------------------------------
  // End time

  /**
   * `calculatedEndTime`: the "HH:MM" reached `duration` minutes after the
   * start, wrapping past midnight (`Date.setHours(h, m + duration)`).
   */
  function CalculatedEndTime(startTime: string, duration: int): (r: string)
    requires IsHHMM(startTime)
    ensures IsHHMM(r)
    ensures (Minutes(r) - Minutes(startTime) - duration) % MinutesPerDay == 0
  {
    FormatHHMM((Minutes(startTime) + duration) % MinutesPerDay)
  }

  /**
   * Reopening a saved period recovers its duration: for every duration
   * below a day (the slider's 1..180 and the quick picks included), the
   * duration between the start and the derived end is that duration.
   */
  lemma EndTimeRecoversDuration(startTime: string, duration: int)
    requires IsHHMM(startTime) && 0 <= duration < MinutesPerDay
    ensures DurationMinutes(startTime, CalculatedEndTime(startTime, duration)) == Some(duration)
  {
    var s := Minutes(startTime);
    WithinTwoDays(s + duration);
    var e := Minutes(CalculatedEndTime(startTime, duration));
    assert e - s == if s + duration < MinutesPerDay then duration else duration - MinutesPerDay;
    DayRemainder(e - s);
  }

  // ---------------------------------------------------------------------
  // Saving a period

  /** `periodSound || undefined`: an empty sound choice means none. */
  function ChosenSound(sound: Option<string>): (r: Option<string>)
    ensures r.Some? <==> sound.Some? && sound.value != ""
    ensures r.Some? ==> r == sound
  {
    if sound.Some? && sound.value != "" then sound else None
  }

  /** `{ ...p, ...periodData }`: the form's fields over an existing period. */
  function ApplyPeriodDraft(p: Period, d: PeriodDraft): (r: Period)
    requires IsHHMM(d.startTime)
    ensures r.id == p.id && r.isActive == p.isActive && r.color == p.color
    ensures d.name != "" ==> r.name == d.name
    ensures d.name == "" ==> r.name == "Unnamed Period"
    ensures r.startTime == d.startTime && r.repeatDays == d.repeatDays && r.ringDuration == d.ringDuration
    ensures r.soundUrl == ChosenSound(d.sound)
    ensures r.endTime == CalculatedEndTime(d.startTime, d.duration)
    ensures 0 <= d.duration < MinutesPerDay ==> DurationMinutes(r.startTime, r.endTime) == Some(d.duration)
  {
    EndTimeRecoversDuration(d.startTime, if 0 <= d.duration < MinutesPerDay then d.duration else 0);
    p.(name := OrElse(d.name, "Unnamed Period"),
       startTime := d.startTime,
       endTime := CalculatedEndTime(d.startTime, d.duration),
       repeatDays := d.repeatDays,
       soundUrl := ChosenSound(d.sound),
       ringDuration := d.ringDuration)
  }

  function StartKey(): Period -> string { (p: Period) => p.startTime }
  function TimeKey(): FixedAlarm -> string { (a: FixedAlarm) => a.time }

  /** `p.id === editingId`, which no period meets when there is no id. */
  function PeriodIdIs(editingId: Option<string>): Period -> bool { (p: Period) => editingId == Some(p.id) }
  function PeriodIdIsNot(id: string): Period -> bool { (p: Period) => p.id != id }
  function AlarmIdIs(editingId: Option<string>): FixedAlarm -> bool { (a: FixedAlarm) => editingId == Some(a.id) }
  function AlarmIdIsNot(id: string): FixedAlarm -> bool { (a: FixedAlarm) => a.id != id }
  function ProfileIdIs(id: string): ScheduleProfile -> bool { (pr: ScheduleProfile) => pr.id == id }
  function ProfileIdIsNot(id: string): ScheduleProfile -> bool { (pr: ScheduleProfile) => pr.id != id }

  function ApplyDraftTo(d: PeriodDraft): Period -> Period
    requires IsHHMM(d.startTime)
  {
    (p: Period) => ApplyPeriodDraft(p, d)
  }

  /**
   * `periods.map(p => p.id === editingId ? { ...p, ...periodData } : p).sort(byStart)`:
   * the edited list, sorted by start time, holding the other periods unchanged.
   */
  function EditPeriods(periods: seq<Period>, editingId: Option<string>, d: PeriodDraft): (r: seq<Period>)
    requires IsHHMM(d.startTime)
    ensures SortedBy(r, StartKey())
    ensures multiset(r) == multiset(UpdateWhere(periods, PeriodIdIs(editingId), ApplyDraftTo(d)))
    ensures |r| == |periods|
  {
    var r := SortBy(UpdateWhere(periods, PeriodIdIs(editingId), ApplyDraftTo(d)), StartKey());
    assert |multiset(r)| == |periods|;
    r
  }

  /** An edit touches only the period with that id; every other period survives as it was. */
  lemma EditChangesOnlyThatId(periods: seq<Period>, editingId: Option<string>, d: PeriodDraft, x: Period)
    requires IsHHMM(d.startTime)
    requires x in EditPeriods(periods, editingId, d)
    ensures editingId != Some(x.id) ==> x in periods
    ensures editingId == Some(x.id) ==> exists p :: p in periods && p.id == x.id && x == ApplyPeriodDraft(p, d)
  {
    var mapped := UpdateWhere(periods, PeriodIdIs(editingId), ApplyDraftTo(d));
    assert x in multiset(mapped);
    var i :| 0 <= i < |mapped| && mapped[i] == x;
    assert periods[i] in periods;
  }

  /** The new period: active, with a fresh id and colour. */
  function NewPeriod(d: PeriodDraft, newId: string, color: string): (r: Period)
    requires IsHHMM(d.startTime)
    ensures r.id == newId && r.isActive && r.color == color
    ensures d.name != "" ==> r.name == d.name
    ensures d.name == "" ==> r.name == "Unnamed Period"
    ensures r.startTime == d.startTime && r.repeatDays == d.repeatDays && r.ringDuration == d.ringDuration
    ensures r.soundUrl == ChosenSound(d.sound)
    ensures r.endTime == CalculatedEndTime(d.startTime, d.duration)
    ensures 0 <= d.duration < MinutesPerDay ==> DurationMinutes(r.startTime, r.endTime) == Some(d.duration)
  {
    ApplyPeriodDraft(Period(newId, "", d.startTime, d.startTime, true, color, [], None, 0), d)
  }

  /** `[...prev, newPeriod].sort(byStart)`: sorted, and the old periods plus the new one. */
  function AddPeriod(periods: seq<Period>, p: Period): (r: seq<Period>)
    ensures SortedBy(r, StartKey())
    ensures multiset(r) == multiset(periods) + multiset{p}
  {
    SortBy(periods + [p], StartKey())
  }

  /**
   * `handleSavePeriod`: into a saved profile when editing from one,
   * otherwise into the day's schedule, as an edit or as a new period.
   * Any save clears the active profile name.
   */
  function SavePeriod(w: Workspace, d: PeriodDraft, editingPeriodId: Option<string>,
                      editingFromProfileId: Option<string>, newId: string, color: string): (r: Workspace)
    requires IsHHMM(d.startTime)
    ensures r.activeProfileName == None && r.alarms == w.alarms
    ensures editingFromProfileId.Some? ==> r.periods == w.periods && |r.profiles| == |w.profiles|
    ensures editingFromProfileId.Some? ==> forall i :: 0 <= i < |w.profiles| ==>
      if w.profiles[i].id == editingFromProfileId.value
      then r.profiles[i] == w.profiles[i].(periods := EditPeriods(w.profiles[i].periods, editingPeriodId, d))
      else r.profiles[i] == w.profiles[i]
    ensures editingFromProfileId.None? ==> r.profiles == w.profiles
    ensures editingFromProfileId.None? && editingPeriodId.Some? ==>
      r.periods == EditPeriods(w.periods, editingPeriodId, d)
    ensures editingFromProfileId.None? && editingPeriodId.None? ==>
      r.periods == AddPeriod(w.periods, NewPeriod(d, newId, color))
  {
    match editingFromProfileId
    case Some(profileId) =>
      var profiles := UpdateWhere(w.profiles, ProfileIdIs(profileId),
        (pr: ScheduleProfile) => pr.(periods := EditPeriods(pr.periods, editingPeriodId, d)));
      w.(profiles := profiles, activeProfileName := None)
    case None =>
      if editingPeriodId.Some? then
        w.(periods := EditPeriods(w.periods, editingPeriodId, d), activeProfileName := None)
      else
        w.(periods := AddPeriod(w.periods, NewPeriod(d, newId, color)), activeProfileName := None)
  }

  // ---------------------------------------------------------------------
  // Saving an alarm

  /** `{ ...a, ...alarmData }`, with the label defaulting to "Alarm". */
  function ApplyAlarmDraft(a: FixedAlarm, d: AlarmDraft): (r: FixedAlarm)
    ensures r.id == a.id && r.isActive == a.isActive
    ensures d.alarmLabel != "" ==> r.alarmLabel == d.alarmLabel
    ensures d.alarmLabel == "" ==> r.alarmLabel == "Alarm"
    ensures r.time == d.time && r.repeatDays == d.repeatDays && r.ringDuration == d.ringDuration
    ensures r.soundUrl == ChosenSound(d.sound)
  {
    a.(time := d.time,
       alarmLabel := OrElse(d.alarmLabel, "Alarm"),
       repeatDays := d.repeatDays,
       soundUrl := ChosenSound(d.sound),
       ringDuration := d.ringDuration)
  }

  function ApplyAlarmDraftTo(d: AlarmDraft): FixedAlarm -> FixedAlarm {
    (a: FixedAlarm) => ApplyAlarmDraft(a, d)
  }

  /**
   * The sound chosen in a form is the sound its bells ring with: a saved
   * period's start or end bell, and a saved alarm, play the chosen sound,
   * or the app's selected sound when none was chosen.
   */
  lemma ChosenSoundRings(p: Period, pd: PeriodDraft, a: FixedAlarm, ad: AlarmDraft,
                         suffix: string, selectedSound: string)
    requires IsHHMM(pd.startTime)
    ensures Trigger.PeriodRing(ApplyPeriodDraft(p, pd), suffix, selectedSound).sound
            == if pd.sound.Some? && pd.sound.value != "" then pd.sound.value else selectedSound
    ensures Trigger.AlarmRing(ApplyAlarmDraft(a, ad), selectedSound).sound
            == if ad.sound.Some? && ad.sound.value != "" then ad.sound.value else selectedSound
  {
  }

  /**
   * `handleSaveAlarm`: edit the alarm with the editing id, or add a new active
   * one; either way the list comes back sorted by time and holds the same
   * alarms as before, edited or plus the new one.
   */
  function SaveAlarm(w: Workspace, d: AlarmDraft, editingAlarmId: Option<string>, newId: string): (r: Workspace)
    ensures r.periods == w.periods && r.profiles == w.profiles && r.activeProfileName == w.activeProfileName
    ensures SortedBy(r.alarms, TimeKey())
    ensures editingAlarmId.Some? ==>
      multiset(r.alarms) == multiset(UpdateWhere(w.alarms, AlarmIdIs(editingAlarmId), ApplyAlarmDraftTo(d)))
    ensures editingAlarmId.None? ==>
      multiset(r.alarms) == multiset(w.alarms) + multiset{ApplyAlarmDraft(FixedAlarm(newId, "", "", true, [], None, 0), d)}
  {
    if editingAlarmId.Some? then
      w.(alarms := SortBy(UpdateWhere(w.alarms, AlarmIdIs(editingAlarmId), ApplyAlarmDraftTo(d)), TimeKey()))
    else
      var newAlarm := ApplyAlarmDraft(FixedAlarm(newId, "", "", true, [], None, 0), d);
      w.(alarms := SortBy(w.alarms + [newAlarm], TimeKey()))
  }

  // ---------------------------------------------------------------------
  // Toggle and delete by id

  function FlipPeriod(): Period -> Period { (p: Period) => p.(isActive := !p.isActive) }
  function FlipAlarm(): FixedAlarm -> FixedAlarm { (a: FixedAlarm) => a.(isActive := !a.isActive) }

  /** The period list's `onToggle`: flip `isActive` of the periods with that id; clears the active profile name. */
  function TogglePeriod(w: Workspace, id: string): (r: Workspace)
    ensures r.alarms == w.alarms && r.profiles == w.profiles && r.activeProfileName == None
    ensures |r.periods| == |w.periods|
    ensures forall i :: 0 <= i < |w.periods| ==>
      if w.periods[i].id == id then r.periods[i] == w.periods[i].(isActive := !w.periods[i].isActive)
      else r.periods[i] == w.periods[i]
  {
    w.(periods := UpdateWhere(w.periods, PeriodIdIs(Some(id)), FlipPeriod()), activeProfileName := None)
  }

  /** Toggling the same id twice restores the period list. */
  lemma TogglePeriodTwice(w: Workspace, id: string)
    ensures TogglePeriod(TogglePeriod(w, id), id).periods == w.periods
  {
    var once := TogglePeriod(w, id);
    var twice := TogglePeriod(once, id);
    assert |twice.periods| == |w.periods|;
    forall i | 0 <= i < |w.periods| ensures twice.periods[i] == w.periods[i] {
      assert once.periods[i].id == w.periods[i].id;
    }
  }

  /** The period list's `onDelete`: drop the periods with that id; clears the active profile name. */
  function DeletePeriod(w: Workspace, id: string): (r: Workspace)
    ensures r.alarms == w.alarms && r.profiles == w.profiles && r.activeProfileName == None
    ensures forall p :: p in r.periods <==> p in w.periods && p.id != id
    ensures forall p :: multiset(r.periods)[p] == if p.id != id then multiset(w.periods)[p] else 0
    ensures IsPassingSubsequence(r.periods, w.periods, PeriodIdIsNot(id))
    ensures SortedBy(w.periods, StartKey()) ==> SortedBy(r.periods, StartKey())
  {
    forall p ensures p in Filter(w.periods, PeriodIdIsNot(id)) <==> p in w.periods && p.id != id {
      FilterMembers(w.periods, PeriodIdIsNot(id), p);
    }
    forall p ensures multiset(Filter(w.periods, PeriodIdIsNot(id)))[p]
                     == if p.id != id then multiset(w.periods)[p] else 0 {
      FilterCount(w.periods, PeriodIdIsNot(id), p);
    }
    FilterIsPassingSubsequence(w.periods, PeriodIdIsNot(id));
    FilterSorted(w.periods, PeriodIdIsNot(id), StartKey());
    w.(periods := Filter(w.periods, PeriodIdIsNot(id)), activeProfileName := None)
  }

  /** Deleting an id a second time changes nothing more. */
  lemma DeletePeriodTwice(w: Workspace, id: string)
    ensures DeletePeriod(DeletePeriod(w, id), id) == DeletePeriod(w, id)
  {
    FilterIdempotent(w.periods, PeriodIdIsNot(id));
  }

  /** The alarm list's `onToggle`: flip `isActive` of the alarms with that id. */
  function ToggleAlarm(w: Workspace, id: string): (r: Workspace)
    ensures r.periods == w.periods && r.profiles == w.profiles && r.activeProfileName == w.activeProfileName
    ensures |r.alarms| == |w.alarms|
    ensures forall i :: 0 <= i < |w.alarms| ==>
      if w.alarms[i].id == id then r.alarms[i] == w.alarms[i].(isActive := !w.alarms[i].isActive)
      else r.alarms[i] == w.alarms[i]
  {
    w.(alarms := UpdateWhere(w.alarms, AlarmIdIs(Some(id)), FlipAlarm()))
  }

  /** Toggling the same alarm id twice restores the alarm list. */
  lemma ToggleAlarmTwice(w: Workspace, id: string)
    ensures ToggleAlarm(ToggleAlarm(w, id), id).alarms == w.alarms
  {
    var once := ToggleAlarm(w, id);
    var twice := ToggleAlarm(once, id);
    assert |twice.alarms| == |w.alarms|;
    forall i | 0 <= i < |w.alarms| ensures twice.alarms[i] == w.alarms[i] {
      assert once.alarms[i].id == w.alarms[i].id;
    }
  }

  /** The alarm list's `onDelete`: drop the alarms with that id. */
  function DeleteAlarm(w: Workspace, id: string): (r: Workspace)
    ensures r.periods == w.periods && r.profiles == w.profiles && r.activeProfileName == w.activeProfileName
    ensures forall a :: a in r.alarms <==> a in w.alarms && a.id != id
    ensures forall a :: multiset(r.alarms)[a] == if a.id != id then multiset(w.alarms)[a] else 0
    ensures IsPassingSubsequence(r.alarms, w.alarms, AlarmIdIsNot(id))
    ensures SortedBy(w.alarms, TimeKey()) ==> SortedBy(r.alarms, TimeKey())
  {
    forall a ensures a in Filter(w.alarms, AlarmIdIsNot(id)) <==> a in w.alarms && a.id != id {
      FilterMembers(w.alarms, AlarmIdIsNot(id), a);
    }
    forall a ensures multiset(Filter(w.alarms, AlarmIdIsNot(id)))[a]
                     == if a.id != id then multiset(w.alarms)[a] else 0 {
      FilterCount(w.alarms, AlarmIdIsNot(id), a);
    }
    FilterIsPassingSubsequence(w.alarms, AlarmIdIsNot(id));
    FilterSorted(w.alarms, AlarmIdIsNot(id), TimeKey());
    w.(alarms := Filter(w.alarms, AlarmIdIsNot(id)))
  }

  // ---------------------------------------------------------------------
  // Profiles

  /**
   * `deleteProfile(id, name)` once confirmed: drop the profiles with that id,
   * and forget the active profile name when it was this profile's name.
   */
  function DeleteProfile(w: Workspace, id: string, name: string): (r: Workspace)
    ensures r.periods == w.periods && r.alarms == w.alarms
    ensures forall pr :: pr in r.profiles <==> pr in w.profiles && pr.id != id
    ensures forall pr :: multiset(r.profiles)[pr] == if pr.id != id then multiset(w.profiles)[pr] else 0
    ensures IsPassingSubsequence(r.profiles, w.profiles, ProfileIdIsNot(id))
    ensures r.activeProfileName == if w.activeProfileName == Some(name) then None else w.activeProfileName
  {
    forall pr ensures pr in Filter(w.profiles, ProfileIdIsNot(id)) <==> pr in w.profiles && pr.id != id {
      FilterMembers(w.profiles, ProfileIdIsNot(id), pr);
    }
    forall pr ensures multiset(Filter(w.profiles, ProfileIdIsNot(id)))[pr]
                      == if pr.id != id then multiset(w.profiles)[pr] else 0 {
      FilterCount(w.profiles, ProfileIdIsNot(id), pr);
    }
    FilterIsPassingSubsequence(w.profiles, ProfileIdIsNot(id));
    w.(profiles := Filter(w.profiles, ProfileIdIsNot(id)),
       activeProfileName := if w.activeProfileName == Some(name) then None else w.activeProfileName)
  }

  /** A character JavaScript's `trim` removes. */
  predicate IsTrimmedSpace(c: char) {
    c in {' ', '\t', '\n', '\r', '\U{000B}', '\U{000C}', '\U{00A0}', '\U{1680}', '\U{2028}', '\U{2029}',
          '\U{202F}', '\U{205F}', '\U{3000}', '\U{FEFF}'}
    || '\U{2000}' <= c <= '\U{200A}'
  }

  /** `s` without its leading blanks. */
  function TrimStart(s: string): (r: string)
    ensures |r| <= |s| && r == s[|s| - |r|..]
    ensures forall i :: 0 <= i < |s| - |r| ==> IsTrimmedSpace(s[i])
    ensures r != "" ==> !IsTrimmedSpace(r[0])
    decreases |s|
  {
    if |s| > 0 && IsTrimmedSpace(s[0]) then TrimStart(s[1..]) else s
  }

  /** `s` without its trailing blanks. */
  function TrimEnd(s: string): (r: string)
    ensures |r| <= |s| && r == s[..|r|]
    ensures forall i :: |r| <= i < |s| ==> IsTrimmedSpace(s[i])
    ensures r != "" ==> !IsTrimmedSpace(r[|r| - 1])
    decreases |s|
  {
    if |s| > 0 && IsTrimmedSpace(s[|s| - 1]) then TrimEnd(s[..|s| - 1]) else s
  }

  /** `s.trim()`: blanks removed from both ends. */
  function Trim(s: string): (r: string)
    ensures r != "" ==> !IsTrimmedSpace(r[0]) && !IsTrimmedSpace(r[|r| - 1])
  {
    TrimEnd(TrimStart(s))
  }

  /**
   * `trim()` removes blanks from the two ends and nothing else: the result
   * is the run of `s` starting at `i`, and everything before and after that
   * run is blank.
   */
  lemma TrimIsInfix(s: string) returns (i: int)
    ensures 0 <= i <= |s| - |Trim(s)| && Trim(s) == s[i..i + |Trim(s)|]
    ensures forall k :: 0 <= k < i ==> IsTrimmedSpace(s[k])
    ensures forall k :: i + |Trim(s)| <= k < |s| ==> IsTrimmedSpace(s[k])
  {
    var t := TrimStart(s);
    i := |s| - |t|;
    forall k | i <= k < |s| ensures s[k] == t[k - i] {
    }
  }

  /** `!s.trim()`: every character is a blank, which is exactly when trimming leaves nothing. */
  predicate IsBlank(s: string)
    ensures IsBlank(s) <==> Trim(s) == ""
  {
    var t := TrimStart(s);
    assert t != "" ==> t[0] == s[|s| - |t|];
    forall i :: 0 <= i < |s| ==> IsTrimmedSpace(s[i])
  }

  function RenameTo(newName: string): ScheduleProfile -> ScheduleProfile {
    (pr: ScheduleProfile) => pr.(name := newName)
  }

  /**
   * `handleRenameProfile`: with a profile open and a non-blank name, rename
   * every profile with the open profile's id, and carry the active profile
   * name over when it was the open profile's name; otherwise nothing changes.
   */
  function RenameProfile(w: Workspace, preview: Option<ScheduleProfile>, newName: string): (r: Workspace)
    ensures r.periods == w.periods && r.alarms == w.alarms && |r.profiles| == |w.profiles|
    ensures preview.None? || IsBlank(newName) ==> r == w
    ensures preview.Some? && !IsBlank(newName) ==>
      && (forall i :: 0 <= i < |w.profiles| ==>
            if w.profiles[i].id == preview.value.id then r.profiles[i] == w.profiles[i].(name := newName)
            else r.profiles[i] == w.profiles[i])
      && r.activeProfileName == if w.activeProfileName == Some(preview.value.name) then Some(newName)
                                else w.activeProfileName
  {
    if preview.None? || IsBlank(newName) then w
    else
      w.(profiles := UpdateWhere(w.profiles, ProfileIdIs(preview.value.id), RenameTo(newName)),
         activeProfileName := if w.activeProfileName == Some(preview.value.name) then Some(newName)
                              else w.activeProfileName)
  }
}
