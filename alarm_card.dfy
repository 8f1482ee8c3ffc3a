/**
 * What an alarm's card shows (components/AlarmCard.tsx): its time on the
 * 12-hour clock split into the digits and the AM/PM marker, its label, its
 * ring length and which weekdays it repeats on. The ring length and weekday
 * strip are drawn the same way on a period's card.
 */
module AlarmCard {
  import opened Clock
  import opened Schedule

  /** The two parts of the card's clock text. */
  datatype ClockText = ClockText(time: string, ampm: string)

  /** The card's `format12h`: "H:MM" and "AM"/"PM" as separate parts. */
  function Format12hParts(s: string): (r: ClockText)
    requires IsHHMM(s)
    ensures r.ampm == (if HourOf(s) >= 12 then "PM" else "AM")
    ensures r.time + " " + r.ampm == Format12h(s)
  {
    var h := HourOf(s);
    ClockText(NatStr(DisplayHour(h)) + ":" + Pad2(MinuteOf(s)), if h >= 12 then "PM" else "AM")
  }

  /** The hour part is the 12-hour hour without padding, a colon and the two-digit minute. */
  lemma ClockTextDigits(s: string)
    requires IsHHMM(s)
    ensures var t := Format12hParts(s).time;
      && 4 <= |t| <= 5
      && (HourOf(s) % 12 == 0 ==> t[..2] == "12")
      && t[|t| - 3] == ':' && DecimalValue(t[|t| - 2..]) == MinuteOf(s)
      && DecimalValue(t[..|t| - 3]) == DisplayHour(HourOf(s))
  {
    var h, m := HourOf(s), MinuteOf(s);
    var hs := NatStr(DisplayHour(h));
    var t := Format12hParts(s).time;
    assert t == hs + ":" + Pad2(m);
    assert t[..|t| - 3] == hs;
    assert t[|t| - 2..] == Pad2(m);
    DecimalValueOfNatStr(DisplayHour(h));
    if m < 10 {
      assert Pad2(m) == "0" + NatStr(m);
    }
    DecimalValueOfNatStr(m);
  }

  /** `alarm.label || 'Alarm'`. */
  function LabelShown(a: FixedAlarm): (r: string)
    ensures r != ""
    ensures a.alarmLabel != "" ==> r == a.alarmLabel
    ensures a.alarmLabel == "" ==> r == "Alarm"
  {
    OrElse(a.alarmLabel, "Alarm")
  }

  /** `ringDuration || 10`: a zero ring length is shown as the default of 10 seconds. */
  function RingSecondsShown(ringDuration: int): (r: int)
    ensures r != 0
    ensures ringDuration != 0 ==> r == ringDuration
    ensures ringDuration == 0 ==> r == 10
  {
    if ringDuration == 0 then 10 else ringDuration
  }

  /** The weekday strip S M T W T F S: day `i` is highlighted when it is a repeat day. */
  function DayHighlights(repeatDays: seq<int>): (r: seq<bool>)
    ensures |r| == 7
    ensures forall i :: 0 <= i < 7 ==> (r[i] <==> RunsOn(repeatDays, i))
  {
    seq(7, i => i in repeatDays)
  }
}
