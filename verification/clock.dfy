/** The time-of-day helpers of the clock: the Monday-first day index, the
    opening-hours table, the fraction of the opening hours elapsed and the
    slider position it maps to, the HH:MM:SS title, and the conversions
    between decimal hours and "HH:MM" text. Times are exact reals. */
module Clock {
  import opened Wrappers
  import opened Digits

  /** getDay() counts from Sunday = 0; the table counts from Monday = 0. */
  function DayIndex(jsDay: int): (d: int)
    requires 0 <= jsDay <= 6
    ensures 0 <= d <= 6
    ensures jsDay == 0 ==> d == 6
    ensures jsDay >= 1 ==> d == jsDay - 1
  {
    (jsDay + 6) % 7
  }

  /** The remap is a bijection of 0..6: distinct days get distinct indices
      and every index is some day's. */
  lemma DayIndexBijective()
    ensures forall a, b :: 0 <= a <= 6 && 0 <= b <= 6 && a != b ==> DayIndex(a) != DayIndex(b)
    ensures forall d :: 0 <= d <= 6 ==> DayIndex(JsDay(d)) == d
  {
  }

  /** The getDay() value of a table index: the inverse of DayIndex. */
  function JsDay(d: int): (jsDay: int)
    requires 0 <= d <= 6
    ensures 0 <= jsDay <= 6
  {
    (d + 1) % 7
  }

  /** Opening and closing time of one day, in decimal hours. */
  datatype Hours = Hours(open: real, close: real)

  /** Monday first; Saturday and Sunday closed. */
  const UniHours: seq<Hours> := [
    Hours(8.0, 23.0), Hours(8.0, 23.0), Hours(8.0, 23.0), Hours(8.0, 23.0), Hours(8.0, 23.0),
    Hours(0.0, 0.0), Hours(0.0, 0.0)
  ]

  /** The table row for a getDay() value: always in bounds; weekdays open
      8 to 23, the weekend closed. */
  function HoursOn(jsDay: int): (h: Hours)
    requires 0 <= jsDay <= 6
    ensures 1 <= jsDay <= 5 ==> h == Hours(8.0, 23.0)
    ensures jsDay == 0 || jsDay == 6 ==> h.close - h.open <= 0.0
  {
    UniHours[DayIndex(jsDay)]
  }

  /** hour() + minute() / 60 + second() / 3600: a time on the clock as a
      decimal number of hours, inside the hour it reads. */
  function Now(h: int, m: int, s: int): (now: real)
    ensures 0 <= m < 60 && 0 <= s < 60 ==> h as real <= now < h as real + 1.0
  {
    h as real + m as real / 60.0 + s as real / 3600.0
  }

  /** p5's constrain(n, low, high): Math.max(Math.min(n, high), low). */
  function Constrain(n: real, low: real, high: real): (r: real)
    ensures low <= high ==> low <= r <= high
    ensures low <= n <= high ==> r == n
    ensures n <= low ==> r == low
    ensures low <= high <= n ==> r == high
  {
    var m := if n < high then n else high;
    if m > low then m else low
  }

  /** The fraction of the opening hours that has passed: 0 on a closed day,
      otherwise clamped to [0, 1] and exact inside the opening hours. */
  function DayFraction(open: real, close: real, now: real): (f: real)
    ensures close - open <= 0.0 ==> f == 0.0
    ensures close - open > 0.0 ==> 0.0 <= f <= 1.0
    ensures close - open > 0.0 && now <= open ==> f == 0.0
    ensures close - open > 0.0 && now >= close ==> f == 1.0
    ensures close - open > 0.0 && open <= now <= close ==> f == (now - open) / (close - open)
  {
    var dayDuration := close - open;
    var timeSinceOpen := now - open;
    if dayDuration > 0.0 then
      FractionFacts(timeSinceOpen, dayDuration);
      Constrain(timeSinceOpen / dayDuration, 0.0, 1.0)
    else 0.0
  }

  lemma FractionFacts(a: real, d: real)
    requires d > 0.0
    ensures a <= 0.0 ==> a / d <= 0.0
    ensures a >= d ==> a / d >= 1.0
    ensures 0.0 <= a <= d ==> 0.0 <= a / d <= 1.0
  {
  }

  const ClockSliderX: real := 110.0
  const ImgWidth: real := 600.0

  /** The split between the coloured and the grey image. */
  function SplitX(dayFraction: real): (x: real)
    ensures ClockSliderX <= x <= ClockSliderX + ImgWidth
  {
    Constrain(ClockSliderX + dayFraction * ImgWidth, ClockSliderX, ClockSliderX + ImgWidth)
  }

  /** The second clamp never bites: a day fraction from DayFraction already
      puts the split inside the image. */
  lemma SplitXUnclamped(open: real, close: real, now: real)
    ensures var f := DayFraction(open, close, now);
            SplitX(f) == ClockSliderX + f * ImgWidth
  {
    var f := DayFraction(open, close, now);
    assert 0.0 <= f * ImgWidth <= ImgWidth;
  }

  /** The slider of one frame: the day's row of the table, the current time,
      its fraction of the opening hours and the split it gives. On a closed
      day the split stays at the left edge; on a weekday it is at the left
      edge before eight and at the right edge from eleven at night. */
  function SliderSplit(jsDay: int, h: int, m: int, s: int): (x: real)
    requires 0 <= jsDay <= 6
    ensures ClockSliderX <= x <= ClockSliderX + ImgWidth
    ensures (jsDay == 0 || jsDay == 6) ==> x == ClockSliderX
    ensures 1 <= jsDay <= 5 && 0 <= m < 60 && 0 <= s < 60 && h < 8 ==> x == ClockSliderX
    ensures 1 <= jsDay <= 5 && 0 <= m < 60 && 0 <= s < 60 && 23 <= h ==> x == ClockSliderX + ImgWidth
  {
    var row := HoursOn(jsDay);
    RowLabels(jsDay, row);
    var now := Now(h, m, s);
    SplitX(DayFraction(row.open, row.close, now))
  }

  /** Later in the day the split never moves left. */
  lemma SplitXMonotone(open: real, close: real, now1: real, now2: real)
    requires now1 <= now2
    ensures SplitX(DayFraction(open, close, now1)) <= SplitX(DayFraction(open, close, now2))
  {
    FractionMonotone(open, close, now1, now2);
    SplitXUnclamped(open, close, now1);
    SplitXUnclamped(open, close, now2);
  }

  /** Later in the day the fraction never shrinks. */
  lemma FractionMonotone(open: real, close: real, now1: real, now2: real)
    requires now1 <= now2
    ensures DayFraction(open, close, now1) <= DayFraction(open, close, now2)
  {
    var d := close - open;
    if d > 0.0 {
      DivMonotone(now1 - open, now2 - open, d);
      ConstrainMonotone((now1 - open) / d, (now2 - open) / d, 0.0, 1.0);
    }
  }

  lemma ConstrainMonotone(x: real, y: real, low: real, high: real)
    requires x <= y && low <= high
    ensures Constrain(x, low, high) <= Constrain(y, low, high)
  {
  }

  lemma DivMonotone(a: real, b: real, d: real)
    requires d > 0.0 && a <= b
    ensures a / d <= b / d
  {
  }

  /** One field of printTime: '0' + v below 10, v itself otherwise. */
  function TimeField(v: nat): (r: string)
    ensures AllDigits(r)
    ensures v < 100 ==> |r| == 2 && ParseDigits(r) == v && (r[0] == '0' <==> v < 10)
  {
    ParseNatToString(v);
    if v < 10 then
      ParseTwoDigits("0" + NatToString(v));
      "0" + NatToString(v)
    else
      NatToString(v)
  }

  /** printTime: hour, minute and second, each as two digits, joined by ':'. */
  function PrintTime(h: nat, m: nat, s: nat): (r: string)
    ensures h < 100 && m < 100 && s < 100 ==>
              && |r| == 8 && r[2] == ':' && r[5] == ':'
              && AllDigits(r[0..2]) && AllDigits(r[3..5]) && AllDigits(r[6..8])
              && ParseDigits(r[0..2]) == h && ParseDigits(r[3..5]) == m && ParseDigits(r[6..8]) == s
              && (r[0] == '0' <==> h < 10) && (r[3] == '0' <==> m < 10) && (r[6] == '0' <==> s < 10)
  {
    var r := TimeField(h) + ":" + TimeField(m) + ":" + TimeField(s);
    assert h < 100 && m < 100 && s < 100 ==>
             r[0..2] == TimeField(h) && r[3..5] == TimeField(m) && r[6..8] == TimeField(s);
    r
  }

  /** Math.round: the nearest integer, halves rounded up. */
  function Round(x: real): (n: int)
    ensures n as real - 0.5 <= x < n as real + 0.5
  {
    (x + 0.5).Floor
  }

  /** decimalTimeToString: the whole hours and the rounded minutes of the
      fraction, each padded to two digits, joined by ':'. */
  function DecimalTimeToString(decimalTime: real): (r: string)
    ensures 0 <= decimalTime.Floor < 100 ==>
              && |r| == 5 && r[2] == ':' && AllDigits(r[..2]) && AllDigits(r[3..])
              && ParseDigits(r[..2]) == decimalTime.Floor
              && ParseDigits(r[3..]) == FractionMinutes(decimalTime)
    ensures decimalTime == decimalTime.Floor as real ==> |r| >= 3 && r[|r| - 3..] == ":00"
  {
    var hours := decimalTime.Floor;
    var minutes := FractionMinutes(decimalTime);
    HoursMinutes(hours, minutes)
  }

  /** Math.round((t - Math.floor(t)) * 60): between 0 and 60, and 0 for whole
      hours. */
  function FractionMinutes(t: real): (m: int)
    ensures 0 <= m <= 60
    ensures t == t.Floor as real ==> m == 0
  {
    var f := t - t.Floor as real;
    assert 0.0 <= f * 60.0 < 60.0;
    Round(f * 60.0)
  }

  /** The two padded fields joined by ':'. */
  function HoursMinutes(hours: int, minutes: int): (r: string)
    requires 0 <= minutes < 100
    ensures 0 <= hours < 100 ==>
              && |r| == 5 && r[2] == ':' && AllDigits(r[..2]) && AllDigits(r[3..])
              && ParseDigits(r[..2]) == hours && ParseDigits(r[3..]) == minutes
    ensures minutes == 0 ==> |r| >= 3 && r[|r| - 3..] == ":00"
  {
    var hh := PadStart(IntToString(hours), 2, '0');
    var mm := PadStart(IntToString(minutes), 2, '0');
    TwoDigitPad(minutes);
    HoursTwoDigits(hours, hh);
    ZeroPad(minutes, mm);
    JoinedFields(hours, minutes, hh, mm);
    hh + ":" + mm
  }

  lemma ZeroPad(v: int, p: string)
    requires p == PadStart(IntToString(v), 2, '0')
    ensures v == 0 ==> p == "00"
  {
    assert IntToString(0) == "0";
  }

  lemma HoursTwoDigits(v: int, p: string)
    requires p == PadStart(IntToString(v), 2, '0')
    ensures 0 <= v < 100 ==> |p| == 2 && AllDigits(p) && ParseDigits(p) == v
  {
    if 0 <= v < 100 {
      TwoDigitPad(v);
    }
  }

  /** Two two-digit fields joined by ':' sit at positions 0-1 and 3-4. */
  lemma JoinedFields(hours: int, minutes: int, hh: string, mm: string)
    requires 0 <= hours < 100 ==> |hh| == 2 && AllDigits(hh) && ParseDigits(hh) == hours
    requires |mm| == 2 && AllDigits(mm) && ParseDigits(mm) == minutes
    requires minutes == 0 ==> mm == "00"
    ensures var r := hh + ":" + mm;
            && (0 <= hours < 100 ==>
                  && |r| == 5 && r[2] == ':' && AllDigits(r[..2]) && AllDigits(r[3..])
                  && ParseDigits(r[..2]) == hours && ParseDigits(r[3..]) == minutes)
            && (minutes == 0 ==> |r| >= 3 && r[|r| - 3..] == ":00")
  {
    var r := hh + ":" + mm;
    assert r[|r| - 3..] == ":" + mm;
    assert |hh| == 2 ==> r[..2] == hh && r[3..] == mm;
  }

  lemma TwoDigitPad(v: int)
    requires 0 <= v < 100
    ensures var p := PadStart(IntToString(v), 2, '0');
            |p| == 2 && AllDigits(p) && ParseDigits(p) == v && (p[0] == '0' <==> v < 10)
  {
    var p := PadStart(IntToString(v), 2, '0');
    ParseNatToString(v);
    if v < 10 {
      assert p == "0" + NatToString(v);
      ParseTwoDigits(p);
    } else {
      assert p == NatToString(v);
    }
  }

  /** String.prototype.split with a one-character separator. */
  function Split(s: string, sep: char): (parts: seq<string>)
    ensures |parts| >= 1
    ensures forall i :: 0 <= i < |parts| ==> sep !in parts[i]
    decreases |s|
  {
    if |s| == 0 then [""]
    else
      var rest := Split(s[1..], sep);
      if s[0] == sep then [""] + rest else [[s[0]] + rest[0]] + rest[1..]
  }

  /** Array.prototype.join, the partner of Split. */
  function Join(parts: seq<string>, sep: char): string
    requires |parts| >= 1
    decreases |parts|
  {
    if |parts| == 1 then parts[0] else parts[0] + [sep] + Join(parts[1..], sep)
  }

  /** Splitting and joining again gives the original text. */
  lemma {:induction false} JoinSplit(s: string, sep: char)
    ensures Join(Split(s, sep), sep) == s
    decreases |s|
  {
    if |s| > 0 {
      JoinSplit(s[1..], sep);
      var rest := Split(s[1..], sep);
      if s[0] == sep {
        assert Split(s, sep)[1..] == rest;
      } else {
        var parts := Split(s, sep);
        if |rest| > 1 {
          assert parts[1..] == rest[1..];
          assert Join(rest, sep) == rest[0] + [sep] + Join(rest[1..], sep);
        }
      }
    }
  }

  /** Splitting text made of a separator-free head, the separator and a tail. */
  lemma {:induction false} SplitAt(a: string, sep: char, b: string)
    requires sep !in a
    ensures Split(a + [sep] + b, sep) == [a] + Split(b, sep)
    decreases |a|
  {
    if |a| == 0 {
      assert a + [sep] + b == [sep] + b;
      assert ([sep] + b)[1..] == b;
    } else {
      assert (a + [sep] + b)[1..] == a[1..] + [sep] + b;
      SplitAt(a[1..], sep, b);
      assert [a[0]] + a[1..] == a;
    }
  }

  lemma {:induction false} SplitNoSep(a: string, sep: char)
    requires sep !in a
    ensures Split(a, sep) == [a]
    decreases |a|
  {
    if |a| > 0 {
      SplitNoSep(a[1..], sep);
      assert [a[0]] + a[1..] == a;
    }
  }

  /** Number(field) for the fields this model reads: the empty string is 0,
      a string of digits is its value, anything else is NaN (None). */
  function FieldNumber(f: string): (r: Option<real>)
    ensures AllDigits(f) ==> r == Some(ParseDigits(f) as real)
  {
    if AllDigits(f) then Some(ParseDigits(f) as real) else None
  }

  /** stringTimeToDecimal: hours + minutes / 60 from the first two
      ':'-separated fields; a missing minutes field or a field that is not a
      number gives NaN (None). */
  function StringTimeToDecimal(timeString: string): (r: Option<real>)
    ensures var parts := Split(timeString, ':');
            r.Some? <==> |parts| >= 2 && FieldNumber(parts[0]).Some? && FieldNumber(parts[1]).Some?
    ensures var parts := Split(timeString, ':');
            r.Some? ==> r.value == FieldNumber(parts[0]).value + FieldNumber(parts[1]).value / 60.0
  {
    var parts := Split(timeString, ':');
    if |parts| < 2 then None
    else
      match (FieldNumber(parts[0]), FieldNumber(parts[1]))
      case (Some(hours), Some(minutes)) => Some(hours + minutes / 60.0)
      case _ => None
  }

  /** "HH:MM" text parses to hours + minutes / 60. */
  lemma ParseClockText(s: string, h: nat, m: nat)
    requires ClockText(s, h, m)
    ensures StringTimeToDecimal(s) == Some(h as real + m as real / 60.0)
  {
    var hh, mm := s[..2], s[3..];
    assert s == hh + [':'] + mm;
    assert ':' !in hh && ':' !in mm;
    SplitAt(hh, ':', mm);
    SplitNoSep(mm, ':');
    assert Split(s, ':') == [hh, mm];
  }

  /** Decimal hours h + m / 60 floor to h and leave m minutes. */
  lemma DecimalOfClock(h: nat, m: nat)
    requires m < 60
    ensures var x := h as real + m as real / 60.0;
            x.Floor == h && FractionMinutes(x) == m
  {
    var x := h as real + m as real / 60.0;
    assert 0.0 <= m as real / 60.0 < 1.0;
    assert x.Floor == h;
    assert (x - h as real) * 60.0 == m as real;
  }

  /** "HH:MM" text with minutes below 60 survives the trip through decimal
      hours. */
  lemma StringRoundTrip(s: string, h: nat, m: nat)
    requires ClockText(s, h, m) && m < 60
    ensures StringTimeToDecimal(s) == Some(h as real + m as real / 60.0)
    ensures DecimalTimeToString(h as real + m as real / 60.0) == s
  {
    ParseClockText(s, h, m);
    ParseTwoDigits(s[..2]);
    DecimalText(h, m);
    ClockTextDetermined(DecimalTimeToString(h as real + m as real / 60.0), s, h, m);
  }

  /** Two "HH:MM" texts for the same hours and minutes are equal. */
  lemma ClockTextDetermined(r: string, s: string, h: nat, m: nat)
    requires ClockText(r, h, m) && ClockText(s, h, m)
    ensures r == s
  {
    DigitsDetermined(r[..2], s[..2]);
    DigitsDetermined(r[3..], s[3..]);
    assert r == r[..2] + [':'] + r[3..];
    assert s == s[..2] + [':'] + s[3..];
  }

  /** `r` is "HH:MM" text for h hours and m minutes. */
  predicate ClockText(r: string, h: nat, m: nat) {
    |r| == 5 && r[2] == ':' && AllDigits(r[..2]) && AllDigits(r[3..]) &&
    ParseDigits(r[..2]) == h && ParseDigits(r[3..]) == m
  }

  /** Two-digit strings with the same value are equal. */
  lemma DigitsDetermined(a: string, b: string)
    requires |a| == 2 && |b| == 2 && AllDigits(a) && AllDigits(b)
    requires ParseDigits(a) == ParseDigits(b)
    ensures a == b
  {
    ParseTwoDigits(a);
    ParseTwoDigits(b);
  }

  /** Decimal hours on a whole minute, below 100 hours, survive the trip
      through "HH:MM" text. */
  lemma DecimalRoundTrip(h: nat, m: nat)
    requires h < 100 && m < 60
    ensures var x := h as real + m as real / 60.0;
            StringTimeToDecimal(DecimalTimeToString(x)) == Some(x)
  {
    DecimalIsHoursMinutes(h, m);
    ClockValue(h, m);
  }

  /** Whole-minute decimal hours print as the two fields h and m. */
  lemma DecimalIsHoursMinutes(h: nat, m: nat)
    requires m < 60
    ensures DecimalTimeToString(h as real + m as real / 60.0) == HoursMinutes(h, m)
  {
    DecimalOfClock(h, m);
  }

  /** Whole-minute decimal hours print as their hours and minutes. */
  lemma DecimalText(h: nat, m: nat)
    requires h < 100 && m < 60
    ensures ClockText(DecimalTimeToString(h as real + m as real / 60.0), h, m)
  {
    DecimalOfClock(h, m);
  }

  /** As written, the rounded minutes can reach 60: 8.999 hours prints as
      "08:60" instead of "09:00". */
  lemma SixtyMinutes()
    ensures DecimalTimeToString(8.999) == "08:60"
  {
    assert (8.999).Floor == 8;
    assert FractionMinutes(8.999) == 60 by {
      assert (8.999 - 8.0) * 60.0 + 0.5 == 60.44;
    }
    assert IntToString(8) == "8";
    assert IntToString(60) == "60";
  }

  /** decimalTimeToString with the carry the "HH:MM" format needs: the time
      is rounded to the nearest whole minute first, so the minutes field stays
      below 60. */
  function DecimalTimeToMinuteText(decimalTime: real): (r: string)
    ensures var total := Round(decimalTime * 60.0);
            0 <= total < 6000 ==> ClockText(r, total / 60, total % 60)
  {
    var total := Round(decimalTime * 60.0);
    HoursMinutes(total / 60, total % 60)
  }

  /** The corrected text denotes the time rounded to the nearest minute:
      total whole minutes, read back as total / 60 hours. */
  lemma MinuteTextMeansNearestMinute(t: real, total: int)
    requires total == Round(t * 60.0) && 0 <= total < 6000
    ensures StringTimeToDecimal(DecimalTimeToMinuteText(t)) == Some(total as real / 60.0)
  {
    MinuteTextSplit(t, total);
    MinuteTextValue(DecimalTimeToMinuteText(t), total);
  }

  lemma MinuteTextSplit(t: real, total: int)
    requires total == Round(t * 60.0)
    ensures DecimalTimeToMinuteText(t) == HoursMinutes(total / 60, total % 60)
  {
  }

  lemma MinuteTextValue(text: string, total: int)
    requires 0 <= total < 6000 && text == HoursMinutes(total / 60, total % 60)
    ensures StringTimeToDecimal(text) == Some(total as real / 60.0)
  {
    var h, m := total / 60, total % 60;
    DivBounds(total, h, m);
    MinutesValue(total, h, m);
  }

  lemma MinutesValue(total: int, h: int, m: int)
    requires total == 60 * h + m && 0 <= h < 100 && 0 <= m < 60
    ensures StringTimeToDecimal(HoursMinutes(h, m)) == Some(total as real / 60.0)
  {
    var value := StringTimeToDecimal(HoursMinutes(h, m));
    ClockValue(h, m);
    SixtyValue(total, h, m, value);
  }

  lemma SixtyValue(total: int, h: int, m: int, value: Option<real>)
    requires total == 60 * h + m && value == Some(h as real + m as real / 60.0)
    ensures value == Some(total as real / 60.0)
  {
    SixtyParts(total, h, m);
  }

  lemma DivBounds(total: int, h: int, m: int)
    requires 0 <= total < 6000 && h == total / 60 && m == total % 60
    ensures total == 60 * h + m && 0 <= h < 100 && 0 <= m < 60
  {
  }

  lemma ClockValue(h: int, m: int)
    requires 0 <= h < 100 && 0 <= m < 60
    ensures StringTimeToDecimal(HoursMinutes(h, m)) == Some(h as real + m as real / 60.0)
  {
    ParseClockText(HoursMinutes(h, m), h, m);
  }

  lemma SixtyParts(total: int, h: int, m: int)
    requires total == 60 * h + m
    ensures h as real + m as real / 60.0 == total as real / 60.0
  {
  }

  /** Where the as-written minutes stay below 60 the two versions agree. */
  lemma MinuteTextAgrees(t: real)
    requires FractionMinutes(t) < 60
    ensures DecimalTimeToMinuteText(t) == DecimalTimeToString(t)
  {
    var total := Round(t * 60.0);
    MinuteTotal(t, total);
    MinuteTextSplit(t, total);
  }

  /** Below 60 rounded minutes, the nearest whole minute of t lies in hour
      floor(t) at minute FractionMinutes(t). */
  lemma MinuteTotal(t: real, total: int)
    requires FractionMinutes(t) < 60 && total == Round(t * 60.0)
    ensures total / 60 == t.Floor && total % 60 == FractionMinutes(t)
  {
    var hours := t.Floor;
    var f := t - hours as real;
    var minutes := FractionMinutes(t);
    RoundShift(f * 60.0, 60 * hours);
    assert t * 60.0 == f * 60.0 + (60 * hours) as real;
    assert total == 60 * hours + minutes;
    DivModSixty(hours, minutes);
  }

  /** Math.round commutes with adding a whole number. */
  lemma RoundShift(x: real, k: int)
    ensures Round(x + k as real) == Round(x) + k
  {
    assert x + k as real + 0.5 == (x + 0.5) + k as real;
  }

  lemma DivModSixty(h: int, m: int)
    requires 0 <= m < 60
    ensures (60 * h + m) / 60 == h && (60 * h + m) % 60 == m
  {
  }

  /** The labels at the two ends of the slider: weekdays read 08:00 and
      23:00, the weekend 00:00 at both ends, and the corrected conversion
      prints the same for every row of the table. */
  function OpeningLabels(jsDay: int): (labels: (string, string))
    requires 0 <= jsDay <= 6
    ensures 1 <= jsDay <= 5 ==> labels == ("08:00", "23:00")
    ensures jsDay == 0 || jsDay == 6 ==> labels == ("00:00", "00:00")
    ensures labels == (DecimalTimeToString(HoursOn(jsDay).open), DecimalTimeToString(HoursOn(jsDay).close))
  {
    var h := HoursOn(jsDay);
    RowLabels(jsDay, h);
    RowText(h);
    (DecimalTimeToMinuteText(h.open), DecimalTimeToMinuteText(h.close))
  }

  /** Both rows of the table print as the slider expects, either way. */
  lemma RowText(h: Hours)
    requires h == Hours(8.0, 23.0) || h == Hours(0.0, 0.0)
    ensures h == Hours(8.0, 23.0) ==> DecimalTimeToString(h.open) == "08:00" && DecimalTimeToString(h.close) == "23:00"
    ensures h == Hours(0.0, 0.0) ==> DecimalTimeToString(h.open) == "00:00" && DecimalTimeToString(h.close) == "00:00"
    ensures DecimalTimeToMinuteText(h.open) == DecimalTimeToString(h.open)
    ensures DecimalTimeToMinuteText(h.close) == DecimalTimeToString(h.close)
  {
    TableLabels();
  }

  lemma RowLabels(jsDay: int, h: Hours)
    requires 0 <= jsDay <= 6 && h == HoursOn(jsDay)
    ensures h == Hours(8.0, 23.0) || h == Hours(0.0, 0.0)
    ensures 1 <= jsDay <= 5 <==> h == Hours(8.0, 23.0)
  {
    assert UniHours[5] == UniHours[6] == Hours(0.0, 0.0);
    if jsDay == 0 {
      assert DayIndex(jsDay) == 6;
    } else if jsDay == 6 {
      assert DayIndex(jsDay) == 5;
    }
  }

  /** The three whole hours the table uses print the same either way. */
  lemma TableLabels()
    ensures DecimalTimeToMinuteText(0.0) == DecimalTimeToString(0.0) == "00:00"
    ensures DecimalTimeToMinuteText(8.0) == DecimalTimeToString(8.0) == "08:00"
    ensures DecimalTimeToMinuteText(23.0) == DecimalTimeToString(23.0) == "23:00"
  {
    assert IntToString(0) == "0" && IntToString(8) == "8" && IntToString(23) == "23";
    PadDigit("0");
    PadDigit("8");
    PadPair("23");
    HourLabel(0, "00:00");
    HourLabel(8, "08:00");
    HourLabel(23, "23:00");
  }

  lemma HourLabel(h: int, text: string)
    requires 0 <= h < 100 && PadStart(IntToString(h), 2, '0') + ":00" == text
    ensures DecimalTimeToMinuteText(h as real) == DecimalTimeToString(h as real) == text
  {
    WholeHourText(h);
  }

  lemma PadDigit(d: string)
    requires |d| == 1
    ensures PadStart(d, 2, '0') + ":00" == ['0', d[0], ':', '0', '0']
  {
  }

  lemma PadPair(d: string)
    requires |d| == 2
    ensures PadStart(d, 2, '0') + ":00" == [d[0], d[1], ':', '0', '0']
  {
  }

  /** A whole number of hours below 100 prints as "HH:00" either way. */
  lemma WholeHourText(h: int)
    requires 0 <= h < 100
    ensures DecimalTimeToMinuteText(h as real) == DecimalTimeToString(h as real)
    ensures DecimalTimeToString(h as real) == PadStart(IntToString(h), 2, '0') + ":00"
  {
    WholeHourIsHoursMinutes(h);
    WholeHourMinuteText(h);
    HoursMinutesZero(h);
  }

  lemma WholeHourIsHoursMinutes(h: nat)
    ensures DecimalTimeToString(h as real) == HoursMinutes(h, 0)
  {
    DecimalIsHoursMinutes(h, 0);
    assert h as real + 0 as real / 60.0 == h as real;
  }

  lemma WholeHourMinuteText(h: nat)
    ensures DecimalTimeToMinuteText(h as real) == HoursMinutes(h, 0)
  {
    RoundWhole(h);
    MinuteTextOfTotal(h as real, 60 * h, h, 0);
  }

  lemma MinuteTextOfTotal(t: real, total: int, h: int, m: int)
    requires total == Round(t * 60.0) && total == 60 * h + m && 0 <= m < 60
    ensures DecimalTimeToMinuteText(t) == HoursMinutes(h, m)
  {
    MinuteTextSplit(t, total);
    DivModSixty(h, m);
  }

  lemma RoundWhole(h: int)
    ensures Round(h as real * 60.0) == 60 * h
  {
    assert h as real * 60.0 + 0.5 == (60 * h) as real + 0.5;
  }

  lemma HoursMinutesZero(h: int)
    ensures HoursMinutes(h, 0) == PadStart(IntToString(h), 2, '0') + ":00"
  {
    ZeroPad(0, PadStart(IntToString(0), 2, '0'));
  }
}
