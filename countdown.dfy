/**
 * The forward countdown (`nextAlarmInfo` in App.tsx): the nearest future
 * bell of any kind and the time left until it.
 *
 * Every active period gives an end event and a start event, every active
 * alarm an alarm event, listed in that order (all ends, all starts, all
 * alarms). The scan looks at today and the next seven days in turn, keeps
 * the event with the smallest distance (the first one on ties), and stops
 * at the first day that has any event. "Now" is a weekday and the
 * milliseconds elapsed since midnight; every day is taken to last 24 hours.
 */
module Countdown {
  import opened Wrappers
  import opened Clock
  import opened Seqs
  import opened Schedule

  const SecondMs: int := 1000
  const MinuteMs: int := 60000
  const HourMs: int := 3600000
  const DayMs: int := 86400000

  datatype EventKind = EndsIn | StartsIn | AlarmIn

  /** One bell of the week: its time, the name shown, its kind and its days. */
  datatype TimeEvent = TimeEvent(time: string, name: string, kind: EventKind, repeat: seq<int>)

  function EndEvent(p: Period): TimeEvent { TimeEvent(p.endTime, p.name, EndsIn, p.repeatDays) }
  function StartEvent(p: Period): TimeEvent { TimeEvent(p.startTime, p.name, StartsIn, p.repeatDays) }
  function AlarmEvent(a: FixedAlarm): TimeEvent { TimeEvent(a.time, a.alarmLabel, AlarmIn, a.repeatDays) }

  function ActivePeriod(): Period -> bool { (p: Period) => p.isActive }
  function ActiveAlarm(): FixedAlarm -> bool { (a: FixedAlarm) => a.isActive }

  /** Position of a kind in the event list: ends, then starts, then alarms. */
  function KindRank(k: EventKind): int {
    match k
    case EndsIn => 0
    case StartsIn => 1
    case AlarmIn => 2
  }

  /** The `events` array: ends of active periods, starts of active periods, active alarms. */
  function Events(periods: seq<Period>, alarms: seq<FixedAlarm>): (es: seq<TimeEvent>)
    ensures forall i, j :: 0 <= i < j < |es| ==> KindRank(es[i].kind) <= KindRank(es[j].kind)
  {
    var ps := Filter(periods, ActivePeriod());
    var activeAlarms := Filter(alarms, ActiveAlarm());
    var ends := seq(|ps|, i requires 0 <= i < |ps| => EndEvent(ps[i]));
    var starts := seq(|ps|, i requires 0 <= i < |ps| => StartEvent(ps[i]));
    var rings := seq(|activeAlarms|, i requires 0 <= i < |activeAlarms| => AlarmEvent(activeAlarms[i]));
    var es := ends + starts + rings;
    assert forall i :: 0 <= i < |es| ==>
      KindRank(es[i].kind) == if i < |ps| then 0 else if i < 2 * |ps| then 1 else 2;
    es
  }

  /** The events are exactly the two bells of each active period and the bell of each active alarm. */
  lemma EventsMembers(periods: seq<Period>, alarms: seq<FixedAlarm>, e: TimeEvent)
    ensures e in Events(periods, alarms) <==>
      || (exists p :: p in periods && p.isActive && (e == EndEvent(p) || e == StartEvent(p)))
      || (exists a :: a in alarms && a.isActive && e == AlarmEvent(a))
  {
    var ps := Filter(periods, ActivePeriod());
    var activeAlarms := Filter(alarms, ActiveAlarm());
    var ends := seq(|ps|, i requires 0 <= i < |ps| => EndEvent(ps[i]));
    var starts := seq(|ps|, i requires 0 <= i < |ps| => StartEvent(ps[i]));
    var rings := seq(|activeAlarms|, i requires 0 <= i < |activeAlarms| => AlarmEvent(activeAlarms[i]));
    var es := Events(periods, alarms);
    assert es == ends + starts + rings;
    if e in es {
      if e in ends {
        var i :| 0 <= i < |ends| && ends[i] == e;
        FilterMembers(periods, ActivePeriod(), ps[i]);
      } else if e in starts {
        var i :| 0 <= i < |starts| && starts[i] == e;
        FilterMembers(periods, ActivePeriod(), ps[i]);
      } else {
        assert e in rings;
        var i :| 0 <= i < |rings| && rings[i] == e;
        FilterMembers(alarms, ActiveAlarm(), activeAlarms[i]);
      }
    }
    if exists p :: p in periods && p.isActive && (e == EndEvent(p) || e == StartEvent(p)) {
      var p :| p in periods && p.isActive && (e == EndEvent(p) || e == StartEvent(p));
      FilterMembers(periods, ActivePeriod(), p);
      var i :| 0 <= i < |ps| && ps[i] == p;
      if e == EndEvent(p) { assert ends[i] == e; } else { assert starts[i] == e; }
    }
    if exists a :: a in alarms && a.isActive && e == AlarmEvent(a) {
      var a :| a in alarms && a.isActive && e == AlarmEvent(a);
      FilterMembers(alarms, ActiveAlarm(), a);
      var i :| 0 <= i < |activeAlarms| && activeAlarms[i] == a;
      assert rings[i] == e;
    }
  }

  /**
   * Within each kind the events keep the order of the lists they come from:
   * of two active periods, the earlier one's end comes before the later
   * one's end and its start before the later one's start; of two active
   * alarms, the earlier one's bell comes first.
   */
  lemma EventsKeepListOrder(periods: seq<Period>, alarms: seq<FixedAlarm>)
    ensures var es := Events(periods, alarms);
      forall i, j :: 0 <= i < j < |periods| && periods[i].isActive && periods[j].isActive ==>
        && (exists a, b :: 0 <= a < b < |es| && es[a] == EndEvent(periods[i]) && es[b] == EndEvent(periods[j]))
        && (exists a, b :: 0 <= a < b < |es| && es[a] == StartEvent(periods[i]) && es[b] == StartEvent(periods[j]))
    ensures var es := Events(periods, alarms);
      forall i, j :: 0 <= i < j < |alarms| && alarms[i].isActive && alarms[j].isActive ==>
        exists a, b :: 0 <= a < b < |es| && es[a] == AlarmEvent(alarms[i]) && es[b] == AlarmEvent(alarms[j])
  {
    forall i, j | 0 <= i < j < |periods| && periods[i].isActive && periods[j].isActive
      ensures var es := Events(periods, alarms);
        && (exists a, b :: 0 <= a < b < |es| && es[a] == EndEvent(periods[i]) && es[b] == EndEvent(periods[j]))
        && (exists a, b :: 0 <= a < b < |es| && es[a] == StartEvent(periods[i]) && es[b] == StartEvent(periods[j]))
    {
      PeriodPairOrder(periods, alarms, i, j);
    }
    forall i, j | 0 <= i < j < |alarms| && alarms[i].isActive && alarms[j].isActive
      ensures var es := Events(periods, alarms);
        exists a, b :: 0 <= a < b < |es| && es[a] == AlarmEvent(alarms[i]) && es[b] == AlarmEvent(alarms[j])
    {
      AlarmPairOrder(periods, alarms, i, j);
    }
  }

  /** Two active periods in list order have their ends, and their starts, in that order. */
  lemma PeriodPairOrder(periods: seq<Period>, alarms: seq<FixedAlarm>, i: int, j: int)
    requires 0 <= i < j < |periods| && periods[i].isActive && periods[j].isActive
    ensures var es := Events(periods, alarms);
      && (exists a, b :: 0 <= a < b < |es| && es[a] == EndEvent(periods[i]) && es[b] == EndEvent(periods[j]))
      && (exists a, b :: 0 <= a < b < |es| && es[a] == StartEvent(periods[i]) && es[b] == StartEvent(periods[j]))
  {
    var ps := Filter(periods, ActivePeriod());
    FilterKeepsOrder(periods, ActivePeriod());
    assert ActivePeriod()(periods[i]) && ActivePeriod()(periods[j]);
    var a, b :| 0 <= a < b < |ps| && ps[a] == periods[i] && ps[b] == periods[j];
    EventsAt(periods, alarms, a);
    EventsAt(periods, alarms, b);
  }

  /** Two active alarms in list order have their bells in that order. */
  lemma AlarmPairOrder(periods: seq<Period>, alarms: seq<FixedAlarm>, i: int, j: int)
    requires 0 <= i < j < |alarms| && alarms[i].isActive && alarms[j].isActive
    ensures var es := Events(periods, alarms);
      exists a, b :: 0 <= a < b < |es| && es[a] == AlarmEvent(alarms[i]) && es[b] == AlarmEvent(alarms[j])
  {
    var ps := Filter(periods, ActivePeriod());
    var activeAlarms := Filter(alarms, ActiveAlarm());
    FilterKeepsOrder(alarms, ActiveAlarm());
    assert ActiveAlarm()(alarms[i]) && ActiveAlarm()(alarms[j]);
    var a, b :| 0 <= a < b < |activeAlarms| && activeAlarms[a] == alarms[i] && activeAlarms[b] == alarms[j];
    ActiveAlarmsInOrder(periods, alarms, a, b);
  }

  /** The bells of two active alarms follow each other as the alarms do. */
  lemma ActiveAlarmsInOrder(periods: seq<Period>, alarms: seq<FixedAlarm>, a: int, b: int)
    requires 0 <= a < b < |Filter(alarms, ActiveAlarm())|
    ensures var es := Events(periods, alarms);
      var activeAlarms := Filter(alarms, ActiveAlarm());
      exists a', b' :: 0 <= a' < b' < |es| && es[a'] == AlarmEvent(activeAlarms[a]) && es[b'] == AlarmEvent(activeAlarms[b])
  {
    var n := 2 * |Filter(periods, ActivePeriod())|;
    EventsAt(periods, alarms, n + a);
    EventsAt(periods, alarms, n + b);
    assert n + a < n + b;
  }

  /** The event at each position of the list: an end, a start, or an alarm's bell. */
  lemma EventsAt(periods: seq<Period>, alarms: seq<FixedAlarm>, k: int)
    ensures var ps := Filter(periods, ActivePeriod());
      var activeAlarms := Filter(alarms, ActiveAlarm());
      var es := Events(periods, alarms);
      && |es| == 2 * |ps| + |activeAlarms|
      && (0 <= k < |ps| ==> es[k] == EndEvent(ps[k]) && es[|ps| + k] == StartEvent(ps[k]))
      && (0 <= k - 2 * |ps| < |activeAlarms| ==> es[k] == AlarmEvent(activeAlarms[k - 2 * |ps|]))
  {
    var ps := Filter(periods, ActivePeriod());
    var activeAlarms := Filter(alarms, ActiveAlarm());
    var ends := seq(|ps|, i requires 0 <= i < |ps| => EndEvent(ps[i]));
    var starts := seq(|ps|, i requires 0 <= i < |ps| => StartEvent(ps[i]));
    var rings := seq(|activeAlarms|, i requires 0 <= i < |activeAlarms| => AlarmEvent(activeAlarms[i]));
    assert Events(periods, alarms) == ends + starts + rings;
    ThreePartsAt(ends, starts, rings, k);
  }

  /** Positions in a list made of three parts of which the first two are equally long. */
  lemma ThreePartsAt<A>(x: seq<A>, y: seq<A>, z: seq<A>, k: int)
    requires |x| == |y|
    ensures 0 <= k < |x| ==> (x + y + z)[k] == x[k] && (x + y + z)[|x| + k] == y[k]
    ensures 0 <= k - 2 * |x| < |z| ==> (x + y + z)[k] == z[k - 2 * |x|]
  {
  }

  // ---------------------------------------------------------------------
  // What the scan looks for

  /** `nowStr`: the "HH:MM" text of the current minute. */
  function NowText(nowMs: int): (s: string)
    requires 0 <= nowMs < DayMs
    ensures IsHHMM(s) && Minutes(s) == nowMs / MinuteMs
  {
    FormatHHMM(nowMs / MinuteMs)
  }

  /**
   * Event `e` is looked at on day `offset` of the scan: the weekday that
   * far ahead is one of its days, its time is a time, and on day 0 its time
   * is later than now's "HH:MM".
   */
  predicate Candidate(e: TimeEvent, offset: int, day: int, nowMs: int)
    requires 0 <= nowMs < DayMs
  {
    && 0 <= offset <= 7
    && RunsOn(e.repeat, (day + offset) % 7)
    && IsHHMM(e.time)
    && !(offset == 0 && StrLe(e.time, NowText(nowMs)))
  }

  /** Milliseconds from now to event `e` on day `offset` of the scan. */
  function Diff(e: TimeEvent, offset: int, nowMs: int): int
    requires IsHHMM(e.time)
  {
    offset * DayMs + Minutes(e.time) * MinuteMs - nowMs
  }

  /**
   * Event `k` on day `offset` is the nearest occurrence: no occurrence in the
   * window is closer, and none as close belongs to an earlier event.
   */
  ghost predicate IsNearest(events: seq<TimeEvent>, day: int, nowMs: int, k: int, offset: int)
    requires 0 <= nowMs < DayMs
  {
    && 0 <= k < |events|
    && Candidate(events[k], offset, day, nowMs)
    && forall k', o' :: 0 <= k' < |events| && Candidate(events[k'], o', day, nowMs) ==>
         && Diff(events[k], offset, nowMs) <= Diff(events[k'], o', nowMs)
         && (Diff(events[k'], o', nowMs) == Diff(events[k], offset, nowMs) ==> k <= k')
  }

  /** Every occurrence the scan may choose lies strictly in the future. */
  lemma CandidateInFuture(e: TimeEvent, offset: int, day: int, nowMs: int)
    requires 0 <= nowMs < DayMs
    requires Candidate(e, offset, day, nowMs)
    ensures Diff(e, offset, nowMs) > 0
  {
    if offset == 0 {
      HHMMOrderIsMinuteOrder(e.time, NowText(nowMs));
      assert Minutes(e.time) >= nowMs / MinuteMs + 1;
      assert nowMs < (nowMs / MinuteMs + 1) * MinuteMs;
    }
  }

  /** An occurrence on a later day of the scan is strictly further away. */
  lemma LaterDayIsFurther(e1: TimeEvent, o1: int, e2: TimeEvent, o2: int, nowMs: int)
    requires IsHHMM(e1.time) && IsHHMM(e2.time)
    requires o1 < o2
    ensures Diff(e1, o1, nowMs) < Diff(e2, o2, nowMs)
  {
    assert (o2 - o1) * DayMs >= DayMs;
  }

  /** The nearest occurrence is unique: the scan's answer is determined. */
  lemma NearestIsUnique(events: seq<TimeEvent>, day: int, nowMs: int, k1: int, o1: int, k2: int, o2: int)
    requires 0 <= nowMs < DayMs
    requires IsNearest(events, day, nowMs, k1, o1) && IsNearest(events, day, nowMs, k2, o2)
    ensures k1 == k2 && o1 == o2
  {
  }

  /**
   * Offsets 0..7 reach every weekday: some occurrence is in the window
   * exactly when some event has a time and a day in 0..6. An event already
   * past today comes round again at offset 7.
   */
  lemma WindowCoversEveryWeekday(events: seq<TimeEvent>, day: int, nowMs: int)
    requires 0 <= day < 7 && 0 <= nowMs < DayMs
    ensures (exists k, o :: 0 <= k < |events| && Candidate(events[k], o, day, nowMs))
            <==> (exists k, d :: 0 <= k < |events| && 0 <= d < 7 && RunsOn(events[k].repeat, d) && IsHHMM(events[k].time))
  {
    if exists k, d :: 0 <= k < |events| && 0 <= d < 7 && RunsOn(events[k].repeat, d) && IsHHMM(events[k].time) {
      var k, d :| 0 <= k < |events| && 0 <= d < 7 && RunsOn(events[k].repeat, d) && IsHHMM(events[k].time);
      var o := if d >= day then d - day else d - day + 7;
      assert (day + o) % 7 == d;
      if o == 0 && StrLe(events[k].time, NowText(nowMs)) {
        assert (day + 7) % 7 == d;
        assert Candidate(events[k], 7, day, nowMs);
      } else {
        assert Candidate(events[k], o, day, nowMs);
      }
    }
  }

  // ---------------------------------------------------------------------
  // The scan

  /**
   * The loop of `nextAlarmInfo`: for offsets 0..7, run over the events
   * of that weekday, keep the one with the smallest distance (strict `<`,
   * so the first on ties), and stop after the first offset that found one.
   * Returns the index of the chosen event and its distance in milliseconds.
   */
  method ScanNext(events: seq<TimeEvent>, day: int, nowMs: int) returns (best: Option<nat>, minDiff: int)
    requires 0 <= day < 7 && 0 <= nowMs < DayMs
    ensures best.None? <==> forall k, o :: 0 <= k < |events| ==> !Candidate(events[k], o, day, nowMs)
    ensures best.Some? ==> exists o :: IsNearest(events, day, nowMs, best.value, o)
                                       && minDiff == Diff(events[best.value], o, nowMs)
    ensures best.Some? ==> minDiff > 0
  {
    var nowStr := NowText(nowMs);
    best, minDiff := None, 0;
    var i := 0;
    while i <= 7
      invariant 0 <= i <= 8
      invariant best.None?
      invariant forall k, o :: 0 <= k < |events| && 0 <= o < i ==> !Candidate(events[k], o, day, nowMs)
    {
      var checkDay := (day + i) % 7;
      var j := 0;
      while j < |events|
        invariant 0 <= j <= |events|
        invariant best.None? ==> forall k :: 0 <= k < j ==> !Candidate(events[k], i, day, nowMs)
        invariant best.Some? ==>
          && best.value < j
          && Candidate(events[best.value], i, day, nowMs)
          && minDiff == Diff(events[best.value], i, nowMs)
          && forall k :: 0 <= k < j && Candidate(events[k], i, day, nowMs) ==>
               minDiff <= Diff(events[k], i, nowMs) && (Diff(events[k], i, nowMs) == minDiff ==> best.value <= k)
      {
        var e := events[j];
        if RunsOn(e.repeat, checkDay) && !(i == 0 && StrLe(e.time, nowStr)) {
          // A time that does not parse gives a NaN distance, which never wins.
          if IsHHMM(e.time) {
            var diff := i * DayMs + Minutes(e.time) * MinuteMs - nowMs;
            if best.None? || diff < minDiff {
              best, minDiff := Some(j), diff;
            }
          }
        }
        j := j + 1;
      }
      if best.Some? {
        forall k, o | 0 <= k < |events| && Candidate(events[k], o, day, nowMs)
          ensures minDiff <= Diff(events[k], o, nowMs)
          ensures Diff(events[k], o, nowMs) == minDiff ==> best.value <= k
        {
          if o > i { LaterDayIsFurther(events[best.value], i, events[k], o, nowMs); }
        }
        CandidateInFuture(events[best.value], i, day, nowMs);
        assert IsNearest(events, day, nowMs, best.value, i);
        break;
      }
      i := i + 1;
    }
  }

  // ---------------------------------------------------------------------
  // The countdown text

  datatype Countdown = Countdown(hours: int, minutes: int, seconds: int)

  /** `hLeft`, `mLeft`, `sLeft`: whole hours, minutes and seconds of a distance. */
  function Decompose(diff: int): (c: Countdown)
    requires diff >= 0
    ensures c.hours >= 0 && 0 <= c.minutes < 60 && 0 <= c.seconds < 60
    ensures c.hours * HourMs + c.minutes * MinuteMs + c.seconds * SecondMs <= diff
    ensures diff < c.hours * HourMs + c.minutes * MinuteMs + c.seconds * SecondMs + SecondMs
  {
    var minsTotal := diff / MinuteMs;
    Countdown(minsTotal / 60, minsTotal % 60, (diff % MinuteMs) / SecondMs)
  }

  /** Whole hours, minutes below 60 and seconds below 60 that fit a distance are unique. */
  lemma DecomposeUnique(diff: int, c: Countdown)
    requires diff >= 0
    requires c.hours >= 0 && 0 <= c.minutes < 60 && 0 <= c.seconds < 60
    requires c.hours * HourMs + c.minutes * MinuteMs + c.seconds * SecondMs <= diff
    requires diff < c.hours * HourMs + c.minutes * MinuteMs + c.seconds * SecondMs + SecondMs
    ensures c == Decompose(diff)
  {
    var d := Decompose(diff);
    var total := c.hours * 3600 + c.minutes * 60 + c.seconds;
    var totalD := d.hours * 3600 + d.minutes * 60 + d.seconds;
    assert total == totalD;
    assert c.hours == d.hours;
    assert c.minutes == d.minutes;
  }

  /**
   * "`h`h `m`m `s`s", the hours part left out when there are none: the
   * text has an hours unit exactly when there are hours, and always ends
   * with the seconds unit.
   */
  function CountdownText(c: Countdown): (r: string)
    requires c.hours >= 0 && c.minutes >= 0 && c.seconds >= 0
    ensures 'h' in r <==> c.hours > 0
    ensures 5 <= |r| && r[|r| - 1] == 's'
  {
    var tail := NatStr(c.minutes) + "m " + NatStr(c.seconds) + "s";
    assert 'h' !in tail by {
      assert tail == NatStr(c.minutes) + ['m', ' '] + NatStr(c.seconds) + ['s'];
    }
    if c.hours > 0 then
      assert (NatStr(c.hours) + "h " + tail)[|NatStr(c.hours)|] == 'h';
      NatStr(c.hours) + "h " + tail
    else
      tail
  }

  /**
   * What the countdown text shows: the digits before "h" read as the hours
   * (present only when there are hours), those before "m" as the minutes
   * and those before "s" as the seconds.
   */
  lemma CountdownTextFields(c: Countdown) returns (hs: string, ms: string, ss: string)
    requires c.hours >= 0 && c.minutes >= 0 && c.seconds >= 0
    ensures AllDigits(hs) && AllDigits(ms) && AllDigits(ss)
    ensures DecimalValue(ms) == c.minutes && DecimalValue(ss) == c.seconds
    ensures c.hours > 0 ==> DecimalValue(hs) == c.hours && CountdownText(c) == hs + "h " + ms + "m " + ss + "s"
    ensures c.hours == 0 ==> CountdownText(c) == ms + "m " + ss + "s"
  {
    hs, ms, ss := NatStr(c.hours), NatStr(c.minutes), NatStr(c.seconds);
    DecimalValueOfNatStr(c.hours);
    DecimalValueOfNatStr(c.minutes);
    DecimalValueOfNatStr(c.seconds);
  }

  /** The character at position `k` of `x + [c] + u`, for `k` up to `|x|`. */
  lemma CharAt(x: string, c: char, u: string, k: int)
    ensures 0 <= k < |x| ==> (x + [c] + u)[k] == x[k]
    ensures k == |x| ==> (x + [c] + u)[k] == c
  {
  }

  /** Digits up to a first non-digit split a text in one way only. */
  lemma SplitAtNonDigit(x: string, c: char, u: string, y: string, d: char, v: string)
    requires AllDigits(x) && AllDigits(y) && !IsDigit(c) && !IsDigit(d)
    requires x + [c] + u == y + [d] + v
    ensures x == y && c == d && u == v
  {
    var s := x + [c] + u;
    if |x| < |y| {
      CharAt(x, c, u, |x|);
      CharAt(y, d, v, |x|);
      assert false;
    } else if |y| < |x| {
      CharAt(x, c, u, |y|);
      CharAt(y, d, v, |y|);
      assert false;
    }
    assert s[..|x|] == x && (y + [d] + v)[..|y|] == y;
    assert s[|x|] == c && (y + [d] + v)[|y|] == d;
    assert s[|x| + 1..] == u && (y + [d] + v)[|y| + 1..] == v;
  }

  /** The decimal text of a number gives the number back. */
  lemma NatStrInjective(a: nat, b: nat)
    requires NatStr(a) == NatStr(b)
    ensures a == b
  {
    DecimalValueOfNatStr(a);
    DecimalValueOfNatStr(b);
  }

  /** Digits, "m ", digits, "s": the two digit strings are determined by the text. */
  lemma UnitsReadBack(x: string, z: string, x': string, z': string)
    requires AllDigits(x) && AllDigits(z) && AllDigits(x') && AllDigits(z')
    requires x + "m " + z + "s" == x' + "m " + z' + "s"
    ensures x == x' && z == z'
  {
    var rest, rest' := " " + z + "s", " " + z' + "s";
    assert x + "m " + z + "s" == x + ['m'] + rest;
    assert x' + "m " + z' + "s" == x' + ['m'] + rest';
    SplitAtNonDigit(x, 'm', rest, x', 'm', rest');
    assert z + ['s'] + [] == rest[1..] && z' + ['s'] + [] == rest'[1..];
    SplitAtNonDigit(z, 's', [], z', 's', []);
  }

  /** Different times left read differently: the countdown text determines the countdown. */
  lemma CountdownTextReadsBack(c: Countdown, c': Countdown)
    requires c.hours >= 0 && c.minutes >= 0 && c.seconds >= 0
    requires c'.hours >= 0 && c'.minutes >= 0 && c'.seconds >= 0
    requires CountdownText(c) == CountdownText(c')
    ensures c == c'
  {
    var tail := NatStr(c.minutes) + "m " + NatStr(c.seconds) + "s";
    var tail' := NatStr(c'.minutes) + "m " + NatStr(c'.seconds) + "s";
    if c.hours > 0 && c'.hours > 0 {
      var h, h' := NatStr(c.hours), NatStr(c'.hours);
      assert CountdownText(c) == h + ['h'] + ([' '] + tail);
      assert CountdownText(c') == h' + ['h'] + ([' '] + tail');
      SplitAtNonDigit(h, 'h', [' '] + tail, h', 'h', [' '] + tail');
      NatStrInjective(c.hours, c'.hours);
      assert tail == ([' '] + tail)[1..] && tail' == ([' '] + tail')[1..];
    } else {
      assert c.hours == 0 && c'.hours == 0;
    }
    UnitsReadBack(NatStr(c.minutes), NatStr(c.seconds), NatStr(c'.minutes), NatStr(c'.seconds));
    NatStrInjective(c.minutes, c'.minutes);
    NatStrInjective(c.seconds, c'.seconds);
  }

  // ---------------------------------------------------------------------
  // nextAlarmInfo

  /** What the countdown panel shows: name, kind, the bell's time and the time left. */
  datatype NextInfo = NextInfo(name: string, kind: EventKind, time: string, countdown: string)

  function InfoFor(e: TimeEvent, diff: int): NextInfo
    requires diff >= 0
  {
    NextInfo(e.name, e.kind, e.time, CountdownText(Decompose(diff)))
  }

  /** Some active period or alarm has a time and a day of the week to ring on. */
  predicate Schedulable(periods: seq<Period>, alarms: seq<FixedAlarm>) {
    || (exists p, d :: p in periods && p.isActive && 0 <= d < 7 && RunsOn(p.repeatDays, d)
                       && (IsHHMM(p.startTime) || IsHHMM(p.endTime)))
    || (exists a, d :: a in alarms && a.isActive && 0 <= d < 7 && RunsOn(a.repeatDays, d) && IsHHMM(a.time))
  }

  lemma SchedulableIffSomeEventHasADay(periods: seq<Period>, alarms: seq<FixedAlarm>)
    ensures var es := Events(periods, alarms);
            Schedulable(periods, alarms)
            <==> exists k, d :: 0 <= k < |es| && 0 <= d < 7 && RunsOn(es[k].repeat, d) && IsHHMM(es[k].time)
  {
    var es := Events(periods, alarms);
    if exists p, d :: p in periods && p.isActive && 0 <= d < 7 && RunsOn(p.repeatDays, d)
                      && (IsHHMM(p.startTime) || IsHHMM(p.endTime)) {
      var p, d :| p in periods && p.isActive && 0 <= d < 7 && RunsOn(p.repeatDays, d)
                  && (IsHHMM(p.startTime) || IsHHMM(p.endTime));
      var e := if IsHHMM(p.startTime) then StartEvent(p) else EndEvent(p);
      EventsMembers(periods, alarms, e);
      var k :| 0 <= k < |es| && es[k] == e;
    }
    if exists a, d :: a in alarms && a.isActive && 0 <= d < 7 && RunsOn(a.repeatDays, d) && IsHHMM(a.time) {
      var a, d :| a in alarms && a.isActive && 0 <= d < 7 && RunsOn(a.repeatDays, d) && IsHHMM(a.time);
      EventsMembers(periods, alarms, AlarmEvent(a));
      var k :| 0 <= k < |es| && es[k] == AlarmEvent(a);
    }
    if exists k, d :: 0 <= k < |es| && 0 <= d < 7 && RunsOn(es[k].repeat, d) && IsHHMM(es[k].time) {
      var k, d :| 0 <= k < |es| && 0 <= d < 7 && RunsOn(es[k].repeat, d) && IsHHMM(es[k].time);
      EventsMembers(periods, alarms, es[k]);
    }
  }

  /**
   * `nextAlarmInfo`: nothing when no active period or alarm can ever ring,
   * otherwise the nearest future bell with its countdown.
   */
  method NextAlarmInfo(periods: seq<Period>, alarms: seq<FixedAlarm>, day: int, nowMs: int)
    returns (r: Option<NextInfo>)
    requires 0 <= day < 7 && 0 <= nowMs < DayMs
    ensures r.None? <==> !Schedulable(periods, alarms)
    ensures r.Some? ==>
      var es := Events(periods, alarms);
      exists k, o :: IsNearest(es, day, nowMs, k, o) && Diff(es[k], o, nowMs) > 0
                     && r.value == InfoFor(es[k], Diff(es[k], o, nowMs))
  {
    var events := Events(periods, alarms);
    SchedulableIffSomeEventHasADay(periods, alarms);
    WindowCoversEveryWeekday(events, day, nowMs);
    if |events| == 0 {
      return None;
    }
    var best, minDiff := ScanNext(events, day, nowMs);
    if best.None? {
      return None;
    }
    var e := events[best.value];
    r := Some(NextInfo(e.name, e.kind, e.time, CountdownText(Decompose(minDiff))));
  }
}
