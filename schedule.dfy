/**
 * The schedule's entities: a period (a named, coloured interval with a
 * start bell and an end bell), a fixed alarm, and a saved profile (a named
 * list of periods). Days of the week are numbered 0 = Sunday .. 6 = Saturday;
 * ring durations are in seconds; times are "HH:MM" strings.
 */
module Schedule {
  import opened Wrappers

  datatype Period = Period(
    id: string,
    name: string,
    startTime: string,
    endTime: string,
    isActive: bool,
    color: string,
    repeatDays: seq<int>,
    soundUrl: Option<string>,
    ringDuration: int)

  datatype FixedAlarm = FixedAlarm(
    id: string,
    time: string,
    alarmLabel: string,
    isActive: bool,
    repeatDays: seq<int>,
    soundUrl: Option<string>,
    ringDuration: int)

  datatype ScheduleProfile = ScheduleProfile(id: string, name: string, periods: seq<Period>)

  /** `repeatDays.includes(day)`: some position of the list holds the day. */
  predicate RunsOn(repeatDays: seq<int>, day: int)
    ensures RunsOn(repeatDays, day) <==> exists k :: 0 <= k < |repeatDays| && repeatDays[k] == day
  {
    day in repeatDays
  }

  /** JavaScript's `s || fallback` on a string: an empty string counts as absent. */
  function OrElse(s: string, fallback: string): (r: string)
    ensures s != "" ==> r == s
    ensures s == "" ==> r == fallback
  {
    if s != "" then s else fallback
  }

  /** `soundUrl || fallback` on an optional string. */
  function SoundOrElse(soundUrl: Option<string>, fallback: string): (r: string)
    ensures soundUrl.Some? && soundUrl.value != "" ==> r == soundUrl.value
    ensures soundUrl.None? || soundUrl.value == "" ==> r == fallback
  {
    OrElse(soundUrl.GetOr(""), fallback)
  }
}
