/**
 * Time-of-day helpers shared by the app and its cards: "HH:MM" strings,
 * minute-of-day integers, period durations with midnight wrap, and the
 * 12-hour clock text shown on the cards.
 *
 * A time string is modelled in the one shape the application produces
 * (the time picker and `Date.toTimeString().slice(0, 5)`): five characters,
 * a zero-padded 24-hour hour, a colon and a zero-padded minute. Any other
 * string is "not a time", the model of the `NaN` that `Number` parsing gives.
 */
module Clock {
  import opened Wrappers

  const MinutesPerDay: int := 24 * 60

  predicate IsDigit(c: char) { '0' <= c <= '9' }

  function DigitValue(c: char): (d: int)
    requires IsDigit(c)
    ensures 0 <= d < 10
  {
    c as int - '0' as int
  }

  function DigitChar(d: int): (c: char)
    requires 0 <= d < 10
    ensures IsDigit(c) && DigitValue(c) == d
  {
    ('0' as int + d) as char
  }

  predicate AllDigits(s: string) { forall i :: 0 <= i < |s| ==> IsDigit(s[i]) }

  // ---------------------------------------------------------------------
  // Decimal text

  /** Decimal text of a natural number without padding, as `n.toString()`. */
  function NatStr(n: nat): (s: string)
    ensures 1 <= |s| && AllDigits(s)
    ensures |s| == 1 <==> n < 10
    decreases n
  {
    if n < 10 then [DigitChar(n)] else NatStr(n / 10) + [DigitChar(n % 10)]
  }

  /** The number a string of decimal digits denotes. */
  function DecimalValue(s: string): nat
    requires AllDigits(s)
  {
    if |s| == 0 then 0 else DecimalValue(s[..|s| - 1]) * 10 + DigitValue(s[|s| - 1])
  }

  /** Reading back the decimal text of `n` gives `n`. */
  lemma {:induction false} DecimalValueOfNatStr(n: nat)
    ensures DecimalValue(NatStr(n)) == n
    decreases n
  {
    if n >= 10 {
      DecimalValueOfNatStr(n / 10);
      var s := NatStr(n);
      assert s[..|s| - 1] == NatStr(n / 10);
    }
  }

  /** `n.toString().padStart(2, '0')` for a number below 100. */
  function Pad2(n: nat): (s: string)
    requires n < 100
    ensures s == if n < 10 then "0" + NatStr(n) else NatStr(n)
  {
    [DigitChar(n / 10), DigitChar(n % 10)]
  }

  // ---------------------------------------------------------------------
  // "HH:MM" strings and minute-of-day

  /** A zero-padded 24-hour time "HH:MM" with HH in 00..23 and MM in 00..59. */
  predicate IsHHMM(s: string) {
    && |s| == 5
    && IsDigit(s[0]) && IsDigit(s[1]) && s[2] == ':' && IsDigit(s[3]) && IsDigit(s[4])
    && DigitValue(s[0]) * 10 + DigitValue(s[1]) < 24
    && DigitValue(s[3]) < 6
  }

  function HourOf(s: string): (h: int)
    requires IsHHMM(s)
    ensures 0 <= h < 24
  {
    DigitValue(s[0]) * 10 + DigitValue(s[1])
  }

  function MinuteOf(s: string): (m: int)
    requires IsHHMM(s)
    ensures 0 <= m < 60
  {
    DigitValue(s[3]) * 10 + DigitValue(s[4])
  }

  /** Minute of the day a well-formed time names. */
  function Minutes(s: string): (t: int)
    requires IsHHMM(s)
    ensures 0 <= t < MinutesPerDay
  {
    HourOf(s) * 60 + MinuteOf(s)
  }

  /** The "HH:MM" text of a minute of the day, as `toTimeString().slice(0, 5)`. */
  function FormatHHMM(t: int): (s: string)
    requires 0 <= t < MinutesPerDay
    ensures IsHHMM(s) && Minutes(s) == t
    ensures HourOf(s) == t / 60 && MinuteOf(s) == t % 60
  {
    Pad2(t / 60) + ":" + Pad2(t % 60)
  }

  /** Every well-formed time is the text of its own minute of the day. */
  lemma FormatOfMinutes(s: string)
    requires IsHHMM(s)
    ensures FormatHHMM(Minutes(s)) == s
  {
    var t := Minutes(s);
    assert t / 60 == HourOf(s) && t % 60 == MinuteOf(s);
    var f := FormatHHMM(t);
    assert f[0] == s[0] && f[1] == s[1] && f[3] == s[3] && f[4] == s[4];
  }

  /** Two well-formed times are equal exactly when they name the same minute. */
  lemma HHMMEqualIffSameMinute(a: string, b: string)
    requires IsHHMM(a) && IsHHMM(b)
    ensures a == b <==> Minutes(a) == Minutes(b)
  {
    if Minutes(a) == Minutes(b) {
      FormatOfMinutes(a);
      FormatOfMinutes(b);
    }
  }

  /** `getTimeInMinutes`: the minute of the day, or `None` for a string that is not a time. */
  function TimeInMinutes(s: string): (r: Option<int>)
    ensures r.Some? <==> IsHHMM(s)
    ensures r.Some? ==> 0 <= r.value < MinutesPerDay && FormatHHMM(r.value) == s
  {
    if IsHHMM(s) then
      FormatOfMinutes(s);
      Some(Minutes(s))
    else None
  }

  /** Euclidean remainder modulo a day of a difference of two minutes of the day. */
  lemma DayRemainder(x: int)
    requires -MinutesPerDay < x < MinutesPerDay
    ensures x % MinutesPerDay == if x < 0 then x + MinutesPerDay else x
  {
  }

  /**
   * `getDurationMinutes`: the length of a period from `start` to `end`,
   * taking an end before the start to be on the next day.
   */
  function DurationMinutes(start: string, end: string): (r: Option<int>)
    ensures r.Some? <==> IsHHMM(start) && IsHHMM(end)
    ensures r.Some? ==> 0 <= r.value < MinutesPerDay
    ensures r.Some? ==> r.value == (Minutes(end) - Minutes(start)) % MinutesPerDay
    ensures IsHHMM(start) && start == end ==> r == Some(0)
  {
    if IsHHMM(start) && IsHHMM(end) then
      var startTotal := Minutes(start);
      var endTotal := if Minutes(end) < startTotal then Minutes(end) + MinutesPerDay else Minutes(end);
      DayRemainder(Minutes(end) - startTotal);
      Some(endTotal - startTotal)
    else None
  }

  /** Walking `DurationMinutes(start, end)` minutes forward from the start lands on the end. */
  lemma DurationReachesEnd(start: string, end: string)
    requires IsHHMM(start) && IsHHMM(end)
    ensures (Minutes(start) + DurationMinutes(start, end).value) % MinutesPerDay == Minutes(end)
    ensures Minutes(start) + DurationMinutes(start, end).value >= MinutesPerDay
            <==> Minutes(end) < Minutes(start)
  {
    var s, e := Minutes(start), Minutes(end);
    var d := DurationMinutes(start, end).value;
    DayRemainder(e - s);
    assert s + d == if e < s then e + MinutesPerDay else e;
    WithinTwoDays(s + d);
  }

  /** A minute count below two days, taken modulo a day. */
  lemma WithinTwoDays(x: int)
    requires 0 <= x < 2 * MinutesPerDay
    ensures x % MinutesPerDay == if x < MinutesPerDay then x else x - MinutesPerDay
  {
  }

  // ---------------------------------------------------------------------
  // JavaScript string order

  /**
   * JavaScript's `a <= b` on strings, lexicographic character by character.
   * Characters are compared by code point; JavaScript compares UTF-16 code
   * units, which orders the same except where a character above U+FFFF
   * meets one in U+E000..U+FFFF; "HH:MM" times contain neither. A prefix
   * comes first.
   */
  predicate StrLe(a: string, b: string)
    ensures |a| <= |b| && a == b[..|a|] ==> StrLe(a, b)
    decreases |a|
  {
    if |a| == 0 then true
    else if |b| == 0 then false
    else if a[0] != b[0] then a[0] < b[0]
    else StrLe(a[1..], b[1..])
  }

  lemma {:induction false} StrLeTotal(a: string, b: string)
    ensures StrLe(a, b) || StrLe(b, a)
    decreases |a|
  {
    if |a| > 0 && |b| > 0 && a[0] == b[0] {
      StrLeTotal(a[1..], b[1..]);
    }
  }

  /** Two strings each at most the other are equal: the order ties no distinct keys. */
  lemma {:induction false} StrLeAntisymmetric(a: string, b: string)
    requires StrLe(a, b) && StrLe(b, a)
    ensures a == b
    decreases |a|
  {
    if |a| > 0 && |b| > 0 && a[0] == b[0] {
      StrLeAntisymmetric(a[1..], b[1..]);
      assert a == [a[0]] + a[1..] && b == [b[0]] + b[1..];
    }
  }

  lemma {:induction false} StrLeTransitive(a: string, b: string, c: string)
    requires StrLe(a, b) && StrLe(b, c)
    ensures StrLe(a, c)
    decreases |a|
  {
    if |a| > 0 && |b| > 0 && |c| > 0 && a[0] == b[0] == c[0] {
      StrLeTransitive(a[1..], b[1..], c[1..]);
    }
  }

  /**
   * On well-formed times, comparing the strings as the code does orders
   * them exactly as their minutes of the day.
   */
  lemma HHMMOrderIsMinuteOrder(a: string, b: string)
    requires IsHHMM(a) && IsHHMM(b)
    ensures StrLe(a, b) <==> Minutes(a) <= Minutes(b)
  {
    var a1, b1 := a[1..], b[1..];
    var a2, b2 := a1[1..], b1[1..];
    var a3, b3 := a2[1..], b2[1..];
    var a4, b4 := a3[1..], b3[1..];
    assert a1[0] == a[1] && a2[0] == a[2] && a3[0] == a[3] && a4[0] == a[4] && |a4| == 1;
    assert b1[0] == b[1] && b2[0] == b[2] && b3[0] == b[3] && b4[0] == b[4] && |b4| == 1;
    var ha, hb, ma, mb := HourOf(a), HourOf(b), MinuteOf(a), MinuteOf(b);
    if a[0] != b[0] {
      assert StrLe(a, b) == (a[0] < b[0]);
      assert a[0] < b[0] <==> ha < hb;
    } else if a[1] != b[1] {
      assert StrLe(a, b) == (a[1] < b[1]);
      assert a[1] < b[1] <==> ha < hb;
    } else if a[3] != b[3] {
      assert ha == hb;
      assert StrLe(a, b) == StrLe(a1, b1);
      assert StrLe(a1, b1) == StrLe(a2, b2);
      assert StrLe(a2, b2) == StrLe(a3, b3);
      assert StrLe(a3, b3) == (a[3] < b[3]);
      assert a[3] < b[3] <==> ma < mb;
    } else {
      assert ha == hb;
      assert StrLe(a, b) == StrLe(a1, b1);
      assert StrLe(a1, b1) == StrLe(a2, b2);
      assert StrLe(a2, b2) == StrLe(a3, b3);
      assert StrLe(a3, b3) == StrLe(a4, b4);
      assert StrLe(a4, b4) == (a[4] <= b[4]);
      assert a[4] <= b[4] <==> ma <= mb;
    }
  }

  // ---------------------------------------------------------------------
  // 12-hour clock

  /** The hour shown on a 12-hour clock: `h % 12 || 12`. */
  function DisplayHour(h: int): (d: int)
    requires 0 <= h < 24
    ensures 1 <= d <= 12 && d % 12 == h % 12
  {
    if h % 12 == 0 then 12 else h % 12
  }

  /** The 24-hour hour named by a 12-hour clock hour and its half of the day. */
  function Hour24(displayHour: int, isPM: bool): (h: int)
    requires 1 <= displayHour <= 12
    ensures 0 <= h < 24 && (h >= 12 <==> isPM)
  {
    displayHour % 12 + (if isPM then 12 else 0)
  }

  /** The 12-hour reading of an hour determines the hour. */
  lemma Hour24OfDisplayHour(h: int)
    requires 0 <= h < 24
    ensures Hour24(DisplayHour(h), h >= 12) == h
  {
  }

  /** `format12h`: unpadded hour, two-digit minute, then "AM" or "PM". */
  function Format12h(s: string): (r: string)
    requires IsHHMM(s)
    ensures HourOf(s) == 0 ==> r == "12" + ":" + Pad2(MinuteOf(s)) + " " + "AM"
    ensures 1 <= HourOf(s) < 12 ==> r == NatStr(HourOf(s)) + ":" + Pad2(MinuteOf(s)) + " " + "AM"
    ensures HourOf(s) == 12 ==> r == "12" + ":" + Pad2(MinuteOf(s)) + " " + "PM"
    ensures 12 < HourOf(s) ==> r == NatStr(HourOf(s) - 12) + ":" + Pad2(MinuteOf(s)) + " " + "PM"
  {
    var h := HourOf(s);
    assert NatStr(12) == "12" by { assert NatStr(12) == NatStr(1) + [DigitChar(2)]; }
    assert DisplayHour(h) == if h == 0 || h == 12 then 12 else if h < 12 then h else h - 12;
    NatStr(DisplayHour(h)) + ":" + Pad2(MinuteOf(s)) + " " + (if h >= 12 then "PM" else "AM")
  }

  /** Reads 12-hour clock text "H:MM AM" / "HH:MM PM" back into a minute of the day. */
  function Parse12h(r: string): Option<int> {
    var n := |r|;
    if n != 7 && n != 8 then None
    else if r[n - 3..] != " AM" && r[n - 3..] != " PM" then None
    else if r[n - 6] != ':' || !AllDigits(r[..n - 6]) then None
    else if !IsDigit(r[n - 5]) || !IsDigit(r[n - 4]) then None
    else
      var dh := DecimalValue(r[..n - 6]);
      var m := DigitValue(r[n - 5]) * 10 + DigitValue(r[n - 4]);
      if 1 <= dh <= 12 && m < 60 then Some(Hour24(dh, r[n - 3..] == " PM") * 60 + m) else None
  }

  /** Reading "H:MM AM" or "HH:MM PM" built from its parts gives the minute those parts name. */
  lemma Parse12hOfParts(hs: string, mm: string, half: string)
    requires 1 <= |hs| <= 2 && AllDigits(hs) && 1 <= DecimalValue(hs) <= 12
    requires |mm| == 2 && IsDigit(mm[0]) && IsDigit(mm[1]) && DigitValue(mm[0]) * 10 + DigitValue(mm[1]) < 60
    requires half == "AM" || half == "PM"
    ensures Parse12h(hs + ":" + mm + " " + half)
            == Some(Hour24(DecimalValue(hs), half == "PM") * 60 + DigitValue(mm[0]) * 10 + DigitValue(mm[1]))
  {
    var r := hs + ":" + mm + " " + half;
    SixFields(hs, mm, half);
    Parse12hOfFields(r, hs, mm[0], mm[1], half == "PM");
  }

  /** The characters after the hour digits of "H:MM AM" built from its parts. */
  lemma SixFields(hs: string, mm: string, half: string)
    requires |mm| == 2 && |half| == 2
    ensures var r := hs + ":" + mm + " " + half;
      && |r| == |hs| + 6 && r[..|hs|] == hs
      && r[|hs|] == ':' && r[|hs| + 1] == mm[0] && r[|hs| + 2] == mm[1]
      && r[|hs| + 3] == ' ' && r[|hs| + 4] == half[0] && r[|hs| + 5] == half[1]
  {
    var r := hs + ":" + mm + " " + half;
    assert r == hs + [':', mm[0], mm[1], ' ', half[0], half[1]];
  }

  /** `Parse12h` on a text whose hour digits, separator, minute digits and half are known. */
  lemma Parse12hOfFields(r: string, hs: string, m1: char, m2: char, pm: bool)
    requires |r| == |hs| + 6 && 1 <= |hs| <= 2 && r[..|hs|] == hs
    requires AllDigits(hs) && 1 <= DecimalValue(hs) <= 12
    requires IsDigit(m1) && IsDigit(m2) && DigitValue(m1) * 10 + DigitValue(m2) < 60
    requires r[|hs|] == ':' && r[|hs| + 1] == m1 && r[|hs| + 2] == m2
    requires r[|hs| + 3] == ' ' && r[|hs| + 4] == (if pm then 'P' else 'A') && r[|hs| + 5] == 'M'
    ensures Parse12h(r) == Some(Hour24(DecimalValue(hs), pm) * 60 + DigitValue(m1) * 10 + DigitValue(m2))
  {
    var n := |r|;
    var suffix := r[n - 3..];
    assert suffix[0] == ' ' && suffix[1] == (if pm then 'P' else 'A') && suffix[2] == 'M';
    assert (suffix == " PM") == pm;
    assert suffix == " AM" || suffix == " PM";
  }

  /** The 12-hour text of a time loses nothing: reading it back gives the same minute. */
  lemma Format12hRoundTrip(s: string)
    requires IsHHMM(s)
    ensures Parse12h(Format12h(s)) == Some(Minutes(s))
  {
    var h, m := HourOf(s), MinuteOf(s);
    var dh := DisplayHour(h);
    var mm := Pad2(m);
    assert mm == [DigitChar(m / 10), DigitChar(m % 10)];
    assert Format12h(s) == NatStr(dh) + ":" + mm + " " + (if h >= 12 then "PM" else "AM");
    assert |NatStr(dh)| <= 2 by {
      if dh >= 10 { assert NatStr(dh) == NatStr(dh / 10) + [DigitChar(dh % 10)]; }
    }
    DecimalValueOfNatStr(dh);
    Parse12hOfParts(NatStr(dh), mm, if h >= 12 then "PM" else "AM");
    Hour24OfDisplayHour(h);
  }
}
