/**
 * A period's card (components/PeriodCard.tsx): whether it runs today and
 * how far through the period the current minute is, as a percentage for
 * the progress bar; and the "in progress" flag the period list hands to
 * the card (App.tsx).
 *
 * The percentage is a JavaScript number computed with a division that may
 * be by zero; it is modelled as a real, or NotANumber where JavaScript
 * would produce NaN.
 */
module PeriodCard {
  import opened Wrappers
  import opened Clock
  import opened Schedule

  datatype Progress = Percent(value: real) | NotANumber

  /**
   * The current minute, moved onto the next day when the period crosses
   * midnight and the minute is before the start: for a crossing period it
   * is then exactly the time elapsed since the start, and otherwise the
   * minute is left alone.
   */
  function LiftedMinute(start: int, duration: int, now: int): (c: int)
    requires 0 <= start < MinutesPerDay && 0 <= now < MinutesPerDay && 0 <= duration < MinutesPerDay
    ensures start + duration >= MinutesPerDay ==> c - start == (now - start) % MinutesPerDay
    ensures start + duration < MinutesPerDay ==> c == now
  {
    DayRemainder(now - start);
    if now < start && start + duration >= MinutesPerDay then now + MinutesPerDay else now
  }

  /** `Math.min(100, Math.max(0, x))` on a number that is not NaN. */
  function Clamp(x: real): (r: real)
    ensures 0.0 <= r <= 100.0
    ensures 0.0 <= x <= 100.0 ==> r == x
    ensures x < 0.0 ==> r == 0.0
    ensures x > 100.0 ==> r == 100.0
  {
    if x < 0.0 then 0.0 else if x > 100.0 then 100.0 else x
  }

  /**
   * `progressPercent` for a card shown with the `isActive` flag
   * `activeProp`, on weekday `day` at minute `nowMinute`. A zero-length
   * period divides by zero: +Infinity clamps to 100, -Infinity to 0, and
   * 0/0 is NaN.
   */
  function PeriodProgress(p: Period, activeProp: bool, day: int, nowMinute: int): (r: Progress)
    requires 0 <= nowMinute < MinutesPerDay
    ensures !(activeProp && RunsOn(p.repeatDays, day)) ==> r == Percent(0.0)
    ensures r.Percent? ==> 0.0 <= r.value <= 100.0
    ensures r.NotANumber? <==>
      activeProp && RunsOn(p.repeatDays, day)
      && (!IsHHMM(p.startTime) || !IsHHMM(p.endTime)
          || (p.startTime == p.endTime && nowMinute == Minutes(p.startTime)))
  {
    if !(activeProp && RunsOn(p.repeatDays, day)) then Percent(0.0)
    else match DurationMinutes(p.startTime, p.endTime)
      case None => NotANumber
      case Some(duration) =>
        var start := Minutes(p.startTime);
        var current := LiftedMinute(start, duration, nowMinute);
        HHMMEqualIffSameMinute(p.startTime, p.endTime);
        if duration == 0 then
          if current > start then Percent(100.0)
          else if current < start then Percent(0.0)
          else NotANumber
        else Percent(Clamp(((current - start) as real / duration as real) * 100.0))
  }

  /** Where the ratio of two minute counts lies, against 0 and 1. */
  lemma RatioBounds(e: int, d: int)
    requires d > 0
    ensures 0 <= e <= d ==> 0.0 <= e as real / d as real <= 1.0
    ensures e < 0 ==> e as real / d as real < 0.0
    ensures e > d ==> e as real / d as real > 1.0
  {
    var q := e as real / d as real;
    assert q * d as real == e as real;
    if q < 0.0 { assert q * d as real < 0.0; }
    if q > 1.0 { assert q * d as real > d as real; }
  }

  /** Minutes since the period's start, counted forward around the clock. */
  function Elapsed(p: Period, nowMinute: int): int
    requires IsHHMM(p.startTime)
  {
    (nowMinute - Minutes(p.startTime)) % MinutesPerDay
  }

  /**
   * Within the period (its start to its end, across midnight or not), the
   * bar shows the fraction of the period's length that has elapsed.
   */
  lemma ProgressIsElapsedFraction(p: Period, day: int, nowMinute: int)
    requires 0 <= nowMinute < MinutesPerDay && RunsOn(p.repeatDays, day)
    requires IsHHMM(p.startTime) && IsHHMM(p.endTime)
    requires DurationMinutes(p.startTime, p.endTime).value > 0
    requires Elapsed(p, nowMinute) <= DurationMinutes(p.startTime, p.endTime).value
    ensures PeriodProgress(p, true, day, nowMinute)
            == Percent((Elapsed(p, nowMinute) as real / DurationMinutes(p.startTime, p.endTime).value as real) * 100.0)
  {
    var s, d := Minutes(p.startTime), DurationMinutes(p.startTime, p.endTime).value;
    var e := Elapsed(p, nowMinute);
    var c := LiftedMinute(s, d, nowMinute);
    DayRemainder(nowMinute - s);
    assert c - s == e;
    RatioBounds(e, d);
  }

  /**
   * Outside the period the bar is full, except before the start of a
   * period that does not cross midnight, where it is empty.
   */
  lemma ProgressOutsideThePeriod(p: Period, day: int, nowMinute: int)
    requires 0 <= nowMinute < MinutesPerDay && RunsOn(p.repeatDays, day)
    requires IsHHMM(p.startTime) && IsHHMM(p.endTime)
    requires DurationMinutes(p.startTime, p.endTime).value > 0
    requires Elapsed(p, nowMinute) > DurationMinutes(p.startTime, p.endTime).value
    ensures PeriodProgress(p, true, day, nowMinute)
            == Percent(if nowMinute < Minutes(p.startTime) && Minutes(p.endTime) > Minutes(p.startTime)
                       then 0.0 else 100.0)
  {
    var s, d := Minutes(p.startTime), DurationMinutes(p.startTime, p.endTime).value;
    var c := LiftedMinute(s, d, nowMinute);
    DayRemainder(nowMinute - s);
    DurationReachesEnd(p.startTime, p.endTime);
    RatioBounds(c - s, d);
  }

  // ---------------------------------------------------------------------
  // The `isActive` flag the period list passes to each card

  /**
   * As written in the period list: today is a repeat day, the period is
   * switched on, and `nowStr >= startTime && nowStr < endTime` in string
   * order.
   */
  predicate ShownActiveAsWritten(p: Period, day: int, nowMinute: int)
    requires 0 <= nowMinute < MinutesPerDay
    ensures IsHHMM(p.startTime) && IsHHMM(p.endTime) ==>
      (ShownActiveAsWritten(p, day, nowMinute) <==>
         RunsOn(p.repeatDays, day) && p.isActive
         && Minutes(p.startTime) <= nowMinute < Minutes(p.endTime))
  {
    var now := FormatHHMM(nowMinute);
    var written := RunsOn(p.repeatDays, day) && p.isActive && StrLe(p.startTime, now) && !StrLe(p.endTime, now);
    if IsHHMM(p.startTime) && IsHHMM(p.endTime) then
      HHMMOrderIsMinuteOrder(p.startTime, now);
      HHMMOrderIsMinuteOrder(p.endTime, now);
      written
    else
      written
  }

  /**
   * A period that crosses midnight is never shown as in progress, at any
   * minute of any day: its card's midnight adjustment is never reached.
   */
  lemma CrossingPeriodNeverShownActive(p: Period, day: int, nowMinute: int)
    requires 0 <= nowMinute < MinutesPerDay
    requires IsHHMM(p.startTime) && IsHHMM(p.endTime) && Minutes(p.endTime) < Minutes(p.startTime)
    ensures !ShownActiveAsWritten(p, day, nowMinute)
  {
    var now := FormatHHMM(nowMinute);
    HHMMOrderIsMinuteOrder(p.startTime, now);
    HHMMOrderIsMinuteOrder(p.endTime, now);
  }

  /** The period 23:00-01:00 on Sundays, switched on. */
  function LateShift(): Period {
    Period("late", "Late shift", "23:00", "01:00", true, "#000000", [0], None, 10)
  }

  /** At 23:30 on a Sunday the late shift is under way, yet the list does not show it active. */
  lemma LateShiftNotShownAsWritten()
    ensures !ShownActiveAsWritten(LateShift(), 0, 23 * 60 + 30)
    ensures ShownActive(LateShift(), 0, 23 * 60 + 30)
  {
    CrossingPeriodNeverShownActive(LateShift(), 0, 23 * 60 + 30);
  }

  /**
   * The flag as the card's midnight handling expects it: today is a repeat
   * day, the period is switched on, and fewer minutes have elapsed since
   * its start than its length.
   */
  predicate ShownActive(p: Period, day: int, nowMinute: int) {
    && RunsOn(p.repeatDays, day) && p.isActive
    && IsHHMM(p.startTime) && IsHHMM(p.endTime)
    && Elapsed(p, nowMinute) < DurationMinutes(p.startTime, p.endTime).value
  }

  /** For a period that does not cross midnight, the corrected flag is the written one. */
  lemma ShownActiveAgreesWithoutCrossing(p: Period, day: int, nowMinute: int)
    requires 0 <= nowMinute < MinutesPerDay
    requires IsHHMM(p.startTime) && IsHHMM(p.endTime) && Minutes(p.startTime) <= Minutes(p.endTime)
    ensures ShownActive(p, day, nowMinute) <==> ShownActiveAsWritten(p, day, nowMinute)
  {
    var now := FormatHHMM(nowMinute);
    HHMMOrderIsMinuteOrder(p.startTime, now);
    HHMMOrderIsMinuteOrder(p.endTime, now);
    DayRemainder(nowMinute - Minutes(p.startTime));
  }

  /** The bar a card in the list shows, with the corrected flag. */
  function CardProgress(p: Period, day: int, nowMinute: int): (r: Progress)
    requires 0 <= nowMinute < MinutesPerDay
    ensures ShownActive(p, day, nowMinute) && DurationMinutes(p.startTime, p.endTime).value > 0 ==>
      r == Percent((Elapsed(p, nowMinute) as real / DurationMinutes(p.startTime, p.endTime).value as real) * 100.0)
    ensures !ShownActive(p, day, nowMinute) ==> r == Percent(0.0)
  {
    if ShownActive(p, day, nowMinute) && DurationMinutes(p.startTime, p.endTime).value > 0 then
      ProgressIsElapsedFraction(p, day, nowMinute);
      PeriodProgress(p, true, day, nowMinute)
    else
      PeriodProgress(p, ShownActive(p, day, nowMinute), day, nowMinute)
  }
}
