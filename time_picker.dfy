/**
 * The clock-face time picker (components/TimePicker.tsx): a small state
 * machine over the picker's mode (hours or minutes), its AM/PM half and
 * whether a drag is under way, together with the "HH:MM" value it shows.
 *
 * The value is a prop the form feeds back from every `onChange`; the model
 * keeps it as a field that each handler sets to the text it emits. The
 * pointer angle is computed from the DOM in floating point; the model
 * starts from the angle already rounded to a clock step (`Math.round(angle /
 * 30)` in hours mode, `Math.round(angle / 6)` in minutes mode).
 */
module TimePicker {
  import opened Clock

  datatype PickerMode = HoursMode | MinutesMode

  /** `"HH:MM"` with the hour replaced and the minute kept. */
  function WithHour(s: string, h: int): (r: string)
    requires IsHHMM(s) && 0 <= h < 24
    ensures IsHHMM(r) && HourOf(r) == h && MinuteOf(r) == MinuteOf(s)
  {
    FormatHHMM(h * 60 + MinuteOf(s))
  }

  /** `"HH:MM"` with the minute replaced and the hour kept. */
  function WithMinute(s: string, m: int): (r: string)
    requires IsHHMM(s) && 0 <= m < 60
    ensures IsHHMM(r) && HourOf(r) == HourOf(s) && MinuteOf(r) == m
  {
    FormatHHMM(HourOf(s) * 60 + m)
  }

  /**
   * The 24-hour hour for clock-face hour `newH12` in the picker's half of
   * the day: 12 AM is 0, 1..11 PM are 13..23. It is the hour whose 12-hour
   * reading is `newH12` on the chosen half.
   */
  function SliderHour(newH12: int, isAM: bool): (h: int)
    requires 1 <= newH12 <= 12
    ensures 0 <= h < 24
    ensures h < 12 <==> isAM
    ensures DisplayHour(h) == newH12
    ensures h == Hour24(newH12, !isAM)
  {
    var finalH := if !isAM && newH12 < 12 then newH12 + 12 else newH12;
    if isAM && finalH == 12 then 0 else finalH
  }

  /** `toggleAmPm`'s hour: moved by twelve into the chosen half of the day when outside it. */
  function ToggledHour(h: int, isAmVal: bool): (r: int)
    requires 0 <= h < 24
    ensures 0 <= r < 24
    ensures r < 12 <==> isAmVal
    ensures DisplayHour(r) == DisplayHour(h)
    ensures (h < 12 <==> isAmVal) ==> r == h
  {
    var currentH := if isAmVal && h >= 12 then h - 12 else h;
    if !isAmVal && currentH < 12 then currentH + 12 else currentH
  }

  /** Choosing the same half twice is choosing it once. */
  lemma ToggleTwiceIsOnce(h: int, isAmVal: bool)
    requires 0 <= h < 24
    ensures ToggledHour(ToggledHour(h, isAmVal), isAmVal) == ToggledHour(h, isAmVal)
  {
  }

  /** Toggling to one half and back restores an hour that was in the other half. */
  lemma ToggleThereAndBack(h: int, isAmVal: bool)
    requires 0 <= h < 24 && (h < 12 <==> !isAmVal)
    ensures ToggledHour(ToggledHour(h, isAmVal), !isAmVal) == h
  {
  }

  /** A rounded hour step 0..12 on the clock face: 0 (the top) reads as 12. */
  function NormaliseHour(step: int): (hour: int)
    requires 0 <= step <= 12
    ensures 1 <= hour <= 12 && hour % 12 == step % 12
  {
    if step == 0 then 12 else step
  }

  /** A rounded minute step 0..60 on the clock face: 60 (back at the top) reads as 0. */
  function NormaliseMinute(step: int): (minute: int)
    requires 0 <= step <= 60
    ensures 0 <= minute < 60 && minute % 60 == step % 60
  {
    if step == 60 then 0 else step
  }

  /** A rounded step is in range for the mode it was taken in. */
  predicate StepInRange(mode: PickerMode, step: int) {
    0 <= step <= (if mode == HoursMode then 12 else 60)
  }

  class TimePicker {
    var value: string
    var mode: PickerMode
    var isAM: bool
    var isDragging: bool

    /** The value is a well-formed time and the AM/PM choice is its half of the day. */
    predicate Valid()
      reads this
    {
      IsHHMM(value) && (isAM <==> HourOf(value) < 12)
    }

    /** Mounting: hours mode, not dragging, AM exactly when the hour is before noon. */
    constructor(initial: string)
      requires IsHHMM(initial)
      ensures Valid()
      ensures value == initial && mode == HoursMode && !isDragging
    {
      value := initial;
      mode := HoursMode;
      isAM := HourOf(initial) < 12;
      isDragging := false;
    }

    /** `updateTimeFromAngle` after rounding: set the hour in hours mode, the minute in minutes mode. */
    method UpdateFromStep(step: int)
      requires Valid() && StepInRange(mode, step)
      modifies this
      ensures Valid()
      ensures mode == old(mode) && isAM == old(isAM) && isDragging == old(isDragging)
      ensures old(mode) == HoursMode ==>
        value == WithHour(old(value), SliderHour(NormaliseHour(step), old(isAM)))
      ensures old(mode) == MinutesMode ==>
        value == WithMinute(old(value), NormaliseMinute(step))
    {
      if mode == HoursMode {
        var hour := NormaliseHour(step);
        value := WithHour(value, SliderHour(hour, isAM));
      } else {
        var minute := NormaliseMinute(step);
        value := WithMinute(value, minute);
      }
    }

    /** `handleStart`: a press on the face starts a drag and sets the time under the pointer. */
    method HandleStart(step: int)
      requires Valid() && StepInRange(mode, step)
      modifies this
      ensures Valid() && isDragging
      ensures mode == old(mode) && isAM == old(isAM)
      ensures old(mode) == HoursMode ==>
        value == WithHour(old(value), SliderHour(NormaliseHour(step), old(isAM)))
      ensures old(mode) == MinutesMode ==>
        value == WithMinute(old(value), NormaliseMinute(step))
    {
      isDragging := true;
      UpdateFromStep(step);
    }

    /** `handleMove`: the time follows the pointer only while dragging. */
    method HandleMove(step: int)
      requires Valid() && StepInRange(mode, step)
      modifies this
      ensures Valid()
      ensures mode == old(mode) && isAM == old(isAM) && isDragging == old(isDragging)
      ensures !old(isDragging) ==> value == old(value)
      ensures old(isDragging) && old(mode) == HoursMode ==>
        value == WithHour(old(value), SliderHour(NormaliseHour(step), old(isAM)))
      ensures old(isDragging) && old(mode) == MinutesMode ==>
        value == WithMinute(old(value), NormaliseMinute(step))
    {
      if isDragging {
        UpdateFromStep(step);
      }
    }

    /** `handleEnd`: releasing a drag in hours mode moves on to minutes; the drag always ends. */
    method HandleEnd()
      requires Valid()
      modifies this
      ensures Valid() && !isDragging
      ensures value == old(value) && isAM == old(isAM)
      ensures mode == if old(isDragging) && old(mode) == HoursMode then MinutesMode else old(mode)
    {
      if isDragging && mode == HoursMode {
        mode := MinutesMode;
      }
      isDragging := false;
    }

    /** `toggleAmPm`: choose a half of the day; the clock-face hour and the minute stay. */
    method ToggleAmPm(isAmVal: bool)
      requires Valid()
      modifies this
      ensures Valid() && isAM == isAmVal
      ensures value == WithHour(old(value), ToggledHour(HourOf(old(value)), isAmVal))
      ensures DisplayHour(HourOf(value)) == DisplayHour(HourOf(old(value)))
      ensures MinuteOf(value) == MinuteOf(old(value))
      ensures mode == old(mode) && isDragging == old(isDragging)
    {
      isAM := isAmVal;
      value := WithHour(value, ToggledHour(HourOf(value), isAmVal));
    }

    /** `handleMinuteSlider`: set the minute, keep the hour, and show minutes. */
    method HandleMinuteSlider(newM: int)
      requires Valid() && 0 <= newM < 60
      modifies this
      ensures Valid() && mode == MinutesMode
      ensures value == WithMinute(old(value), newM) && HourOf(value) == HourOf(old(value))
      ensures isAM == old(isAM) && isDragging == old(isDragging)
    {
      value := WithMinute(value, newM);
      if mode == HoursMode {
        mode := MinutesMode;
      }
    }

    /** `handleHourSlider`: set the clock-face hour in the chosen half, keep the minute, and show hours. */
    method HandleHourSlider(newH12: int)
      requires Valid() && 1 <= newH12 <= 12
      modifies this
      ensures Valid() && mode == HoursMode
      ensures value == WithHour(old(value), SliderHour(newH12, old(isAM)))
      ensures DisplayHour(HourOf(value)) == newH12 && MinuteOf(value) == MinuteOf(old(value))
      ensures isAM == old(isAM) && isDragging == old(isDragging)
    {
      value := WithHour(value, SliderHour(newH12, isAM));
      if mode == MinutesMode {
        mode := HoursMode;
      }
    }
  }
}
