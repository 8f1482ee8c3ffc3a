/**
 * Trigger detection (`checkAlarms` in App.tsx): once per tick, decide
 * whether the current minute rings a bell, and which one.
 *
 * Three candidate lists are filtered from the schedule (periods starting
 * now, periods ending now, fixed alarms due now) and at most one ring is
 * requested, by fixed precedence: a start, else an end, else an alarm,
 * each time the first match in list order. Only the tick whose seconds
 * are 0 is considered. Playing the sound is the host's business; the
 * model returns the ring request the code would hand to `playAlarm`.
 */
module Trigger {
  import opened Wrappers
  import opened Clock
  import opened Seqs
  import opened Schedule

  /** What `playAlarm` is asked to do: a label, a sound and a ring duration in seconds. */
  datatype RingRequest = RingRequest(ringLabel: string, sound: string, durationSeconds: int)

  /**
   * The stored time text `t` is the current time text `now`. When `now` is a
   * well-formed time this is the same minute of the day, and a malformed
   * `t` never matches.
   */
  predicate TimeIs(t: string, now: string)
    ensures IsHHMM(now) ==> (TimeIs(t, now) <==> IsHHMM(t) && Minutes(t) == Minutes(now))
  {
    if IsHHMM(t) && IsHHMM(now) then
      HHMMEqualIffSameMinute(t, now);
      t == now
    else
      t == now
  }

  /** A period whose start bell is due on `day` at the time text `now`. */
  predicate StartsAt(p: Period, day: int, now: string)
    ensures IsHHMM(now) ==> (StartsAt(p, day, now) <==>
      p.isActive && RunsOn(p.repeatDays, day) && IsHHMM(p.startTime) && Minutes(p.startTime) == Minutes(now))
  {
    p.isActive && RunsOn(p.repeatDays, day) && TimeIs(p.startTime, now)
  }

  /** A period whose end bell is due on `day` at the time text `now`. */
  predicate EndsAt(p: Period, day: int, now: string)
    ensures IsHHMM(now) ==> (EndsAt(p, day, now) <==>
      p.isActive && RunsOn(p.repeatDays, day) && IsHHMM(p.endTime) && Minutes(p.endTime) == Minutes(now))
  {
    p.isActive && RunsOn(p.repeatDays, day) && TimeIs(p.endTime, now)
  }

  /** A fixed alarm due on `day` at the time text `now`. */
  predicate AlarmDueAt(a: FixedAlarm, day: int, now: string)
    ensures IsHHMM(now) ==> (AlarmDueAt(a, day, now) <==>
      a.isActive && RunsOn(a.repeatDays, day) && IsHHMM(a.time) && Minutes(a.time) == Minutes(now))
  {
    a.isActive && RunsOn(a.repeatDays, day) && TimeIs(a.time, now)
  }

  function Starting(day: int, now: string): Period -> bool { p => StartsAt(p, day, now) }
  function Ending(day: int, now: string): Period -> bool { p => EndsAt(p, day, now) }
  function Due(day: int, now: string): FixedAlarm -> bool { a => AlarmDueAt(a, day, now) }

  /**
   * The ring a period's bell asks for: its name followed by " Started" or
   * " Ended", its own sound unless that is missing or empty, and its ring
   * length.
   */
  function PeriodRing(p: Period, suffix: string, selectedSound: string): (r: RingRequest)
    ensures r.ringLabel == p.name + suffix
    ensures p.soundUrl.Some? && p.soundUrl.value != "" ==> r.sound == p.soundUrl.value
    ensures p.soundUrl.None? || p.soundUrl.value == "" ==> r.sound == selectedSound
    ensures r.durationSeconds == p.ringDuration
  {
    RingRequest(p.name + suffix, SoundOrElse(p.soundUrl, selectedSound), p.ringDuration)
  }

  /**
   * The ring a fixed alarm asks for: its label, or "Alarm Triggered" when
   * the label is empty; its own sound unless that is missing or empty; and
   * its ring length.
   */
  function AlarmRing(a: FixedAlarm, selectedSound: string): (r: RingRequest)
    ensures r.ringLabel != ""
    ensures a.alarmLabel != "" ==> r.ringLabel == a.alarmLabel
    ensures a.alarmLabel == "" ==> r.ringLabel == "Alarm Triggered"
    ensures a.soundUrl.Some? && a.soundUrl.value != "" ==> r.sound == a.soundUrl.value
    ensures a.soundUrl.None? || a.soundUrl.value == "" ==> r.sound == selectedSound
    ensures r.durationSeconds == a.ringDuration
  {
    RingRequest(OrElse(a.alarmLabel, "Alarm Triggered"), SoundOrElse(a.soundUrl, selectedSound), a.ringDuration)
  }

  /**
   * `checkAlarms(now)` with `now` given as the weekday, the minute of the
   * day and the seconds; the time text compared against is the "HH:MM" of
   * that minute.
   */
  function CheckAlarms(periods: seq<Period>, alarms: seq<FixedAlarm>, selectedSound: string,
                       day: int, minuteOfDay: int, seconds: int): (r: Option<RingRequest>)
    requires 0 <= minuteOfDay < MinutesPerDay
    ensures seconds != 0 ==> r == None
  {
    if seconds != 0 then None
    else
      var now := FormatHHMM(minuteOfDay);
      var started := Filter(periods, Starting(day, now));
      var ended := Filter(periods, Ending(day, now));
      var triggered := Filter(alarms, Due(day, now));
      if |started| > 0 then Some(PeriodRing(started[0], " Started", selectedSound))
      else if |ended| > 0 then Some(PeriodRing(ended[0], " Ended", selectedSound))
      else if |triggered| > 0 then Some(AlarmRing(triggered[0], selectedSound))
      else None
  }

  /** Something is due this minute: a start, an end or an alarm. */
  predicate AnythingDue(periods: seq<Period>, alarms: seq<FixedAlarm>, day: int, now: string) {
    || (exists i :: 0 <= i < |periods| && StartsAt(periods[i], day, now))
    || (exists i :: 0 <= i < |periods| && EndsAt(periods[i], day, now))
    || (exists i :: 0 <= i < |alarms| && AlarmDueAt(alarms[i], day, now))
  }

  /** A ring is requested exactly on second 0 of a minute in which something is due. */
  lemma CheckAlarmsRingsIffDue(periods: seq<Period>, alarms: seq<FixedAlarm>, selectedSound: string,
                               day: int, minuteOfDay: int, seconds: int)
    requires 0 <= minuteOfDay < MinutesPerDay
    ensures CheckAlarms(periods, alarms, selectedSound, day, minuteOfDay, seconds).Some?
            <==> seconds == 0 && AnythingDue(periods, alarms, day, FormatHHMM(minuteOfDay))
  {
    var now := FormatHHMM(minuteOfDay);
    FilterEmpty(periods, Starting(day, now));
    FilterEmpty(periods, Ending(day, now));
    FilterEmpty(alarms, Due(day, now));
  }

  /** The first period in list order that starts now wins, whatever else is due. */
  lemma FirstStartWins(periods: seq<Period>, alarms: seq<FixedAlarm>, selectedSound: string,
                       day: int, minuteOfDay: int, i: int)
    requires 0 <= minuteOfDay < MinutesPerDay
    requires IsFirst(periods, Starting(day, FormatHHMM(minuteOfDay)), i)
    ensures CheckAlarms(periods, alarms, selectedSound, day, minuteOfDay, 0)
            == Some(RingRequest(periods[i].name + " Started",
                                SoundOrElse(periods[i].soundUrl, selectedSound),
                                periods[i].ringDuration))
  {
    FilterHead(periods, Starting(day, FormatHHMM(minuteOfDay)), i);
  }

  /** With no start due, the first period in list order that ends now wins. */
  lemma FirstEndWinsWithoutStart(periods: seq<Period>, alarms: seq<FixedAlarm>, selectedSound: string,
                                 day: int, minuteOfDay: int, i: int)
    requires 0 <= minuteOfDay < MinutesPerDay
    requires forall j :: 0 <= j < |periods| ==> !StartsAt(periods[j], day, FormatHHMM(minuteOfDay))
    requires IsFirst(periods, Ending(day, FormatHHMM(minuteOfDay)), i)
    ensures CheckAlarms(periods, alarms, selectedSound, day, minuteOfDay, 0)
            == Some(RingRequest(periods[i].name + " Ended",
                                SoundOrElse(periods[i].soundUrl, selectedSound),
                                periods[i].ringDuration))
  {
    var now := FormatHHMM(minuteOfDay);
    FilterEmpty(periods, Starting(day, now));
    FilterHead(periods, Ending(day, now), i);
  }

  /**
   * With no period bell due, the first alarm in list order that is due now
   * rings, with its label or "Alarm Triggered".
   */
  lemma FirstAlarmWinsWithoutPeriod(periods: seq<Period>, alarms: seq<FixedAlarm>, selectedSound: string,
                                    day: int, minuteOfDay: int, i: int)
    requires 0 <= minuteOfDay < MinutesPerDay
    requires forall j :: 0 <= j < |periods| ==> !StartsAt(periods[j], day, FormatHHMM(minuteOfDay))
    requires forall j :: 0 <= j < |periods| ==> !EndsAt(periods[j], day, FormatHHMM(minuteOfDay))
    requires IsFirst(alarms, Due(day, FormatHHMM(minuteOfDay)), i)
    ensures CheckAlarms(periods, alarms, selectedSound, day, minuteOfDay, 0)
            == Some(RingRequest(if alarms[i].alarmLabel == "" then "Alarm Triggered" else alarms[i].alarmLabel,
                                SoundOrElse(alarms[i].soundUrl, selectedSound),
                                alarms[i].ringDuration))
  {
    var now := FormatHHMM(minuteOfDay);
    FilterEmpty(periods, Starting(day, now));
    FilterEmpty(periods, Ending(day, now));
    FilterHead(alarms, Due(day, now), i);
  }

  /**
   * Comparing a stored time with the current "HH:MM" text is comparing
   * minutes of the day; a string that is not a well-formed time never matches.
   */
  lemma TimeTextMatchIsMinuteMatch(s: string, minuteOfDay: int)
    requires 0 <= minuteOfDay < MinutesPerDay
    ensures s == FormatHHMM(minuteOfDay) <==> IsHHMM(s) && Minutes(s) == minuteOfDay
  {
    if IsHHMM(s) && Minutes(s) == minuteOfDay {
      FormatOfMinutes(s);
    }
  }
}
