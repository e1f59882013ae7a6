/** Reading a rendered time back, position by position, with a calendar of its own. */
module IsoReading {
  import opened Machine
  import opened TextLines
  import opened Iso8601

  // Decimal numbers

  predicate Decimal(s: string) { forall i :: 0 <= i < |s| ==> '0' <= s[i] <= '9' }

  function DecimalValue(s: string): int
  {
    if s == "" then 0 else 10 * DecimalValue(s[..|s| - 1]) + (s[|s| - 1] as int - '0' as int)
  }

  lemma TwoIsDecimal(n: int)
    requires 0 <= n < 100
    ensures Decimal(Two(n)) && DecimalValue(Two(n)) == n
  {
    DigitChars(n);
    var s := Two(n);
    assert s[..1] == [s[0]] && s[..1][..0] == "";
    assert DecimalValue(s[..1]) == n / 10;
  }

  lemma DecimalConcat(s: string, t: string)
    requires Decimal(s) && Decimal(t) && |t| == 2
    ensures Decimal(s + t) && DecimalValue(s + t) == 100 * DecimalValue(s) + DecimalValue(t)
  {
    var u := s + t;
    assert u[..|u| - 1] == s + t[..1] && (s + t[..1])[..|s|] == s;
    assert t[..1][..0] == "";
    assert DecimalValue(t[..1]) == t[0] as int - '0' as int;
    assert DecimalValue(s + t[..1]) == 10 * DecimalValue(s) + (t[0] as int - '0' as int);
  }

  lemma PairsAreDecimal(a: int, b: int)
    requires 0 <= a < 100 && 0 <= b < 100
    ensures Decimal(Two(a) + Two(b)) && DecimalValue(Two(a) + Two(b)) == 100 * a + b
  {
    TwoIsDecimal(a);
    TwoIsDecimal(b);
    DecimalConcat(Two(a), Two(b));
  }

  lemma ThreePairsAreDecimal(a: int, b: int, c: int)
    requires 0 <= a < 100 && 0 <= b < 100 && 0 <= c < 100
    ensures var s := Two(a) + (Two(b) + Two(c)); Decimal(s) && DecimalValue(s) == 10000 * a + 100 * b + c
  {
    PairsAreDecimal(a, b);
    TwoIsDecimal(c);
    DecimalConcat(Two(a) + Two(b), Two(c));
    Associative(Two(a), Two(b), Two(c));
  }

  lemma AfterPoint(s: string, digits: string)
    requires s == "." + digits
    ensures |s| == 1 + |digits| && s[0] == '.' && s[1..] == digits
  {
  }

  lemma SixAreDecimal(u: int)
    requires 0 < u < MEGA
    ensures |FractionText(u)| == 7 && FractionText(u)[0] == '.'
    ensures Decimal(FractionText(u)[1..]) && DecimalValue(FractionText(u)[1..]) == u
  {
    var a, b, c := u / 10000, u / 100 % 100, u % 100;
    SixDigits(u);
    ThreePairsAreDecimal(a, b, c);
    ThreePairs(u);
    AfterPoint(FractionText(u), Two(a) + (Two(b) + Two(c)));
  }

  lemma FiveAreDecimal(d: int, b: int, c: int)
    requires 0 <= d < 10 && 0 <= b < 100 && 0 <= c < 100
    ensures var s := [ToChar(d + 48)] + Two(b) + Two(c); Decimal(s) && DecimalValue(s) == 10000 * d + 100 * b + c
  {
    LeadingDigit(d);
    TwoIsDecimal(b);
    TwoIsDecimal(c);
    DecimalConcat([ToChar(d + 48)], Two(b));
    DecimalConcat([ToChar(d + 48)] + Two(b), Two(c));
  }

  lemma FourDigitYearIsDecimal(y: int)
    requires 0 <= y <= 9999
    ensures |YearText(y)| == 4 && Decimal(YearText(y)) && DecimalValue(YearText(y)) == y
  {
    FourDigits(y);
    PairsAreDecimal(y / 100, y % 100);
  }

  lemma FiveDigitYearIsDecimal(y: int)
    requires 10000 <= y <= 99999
    ensures |YearText(y)| == 5 && Decimal(YearText(y)) && DecimalValue(YearText(y)) == y
  {
    FiveDigits(y);
    FiveAreDecimal(y / 10000, y / 100 % 100, y % 100);
    ThreePairsOfYear(y);
  }

  lemma ThreePairsOfYear(y: int)
    requires 0 <= y <= 99999
    ensures y == 10000 * (y / 10000) + 100 * (y / 100 % 100) + y % 100
  {
    ThreePairs(y);
  }

  /** A year is shown in four digits, or five from 10000 on, and these are its digits. */
  lemma YearIsDecimal(y: int)
    requires 0 <= y <= 99999
    ensures |YearText(y)| == (if y <= 9999 then 4 else 5)
    ensures Decimal(YearText(y)) && DecimalValue(YearText(y)) == y
  {
    if y <= 9999 { FourDigitYearIsDecimal(y); } else { FiveDigitYearIsDecimal(y); }
  }

  lemma LeadingDigit(d: int)
    requires 0 <= d < 10
    ensures Decimal([ToChar(d + 48)]) && DecimalValue([ToChar(d + 48)]) == d
  {
    var s := [ToChar(d + 48)];
    assert s[..0] == "";
  }

  lemma FiveDigits(y: int)
    requires 10000 <= y <= 99999
    ensures YearText(y) == [ToChar(y / 10000 + 48)] + Two(y / 100 % 100) + Two(y % 100)
  {
    SixDigitParts(y);
    assert y % 10000 / 1000 == y / 100 % 100 / 10 && y % 1000 / 100 == y / 100 % 100 % 10;
    assert y % 100 / 10 == y % 100 / 10 && y % 10 == y % 100 % 10;
    TwoOfDigits(y / 100 % 100);
    TwoOfDigits(y % 100);
  }

  // Days

  const BEFORE_MONTH: seq<int> := [0, 31, 59, 90, 120, 151, 181, 212, 243, 273, 304, 334]

  predicate LeapYear(y: int) { y % 4 == 0 && (y % 100 != 0 || y % 400 == 0) }

  /** Days of a year before a month, which is counted from 0. */
  function DaysBefore(y: int, mon: int): int
    requires 0 <= mon < 12
  {
    BEFORE_MONTH[mon] + if mon > 1 && LeapYear(y) then 1 else 0
  }

  /** Days from the start of 1970 to that of a year: all years, and the leap years among them. */
  function YearStart(y: int): int
  {
    365 * (y - 1970) + (y - 1) / 4 - (y - 1) / 100 + (y - 1) / 400 - 477
  }

  function DayNumber(y: int, mon: int, mday: int): int
    requires 0 <= mon < 12
  {
    YearStart(y) + DaysBefore(y, mon) + mday - 1
  }

  lemma NextMultiple(y: int, n: int)
    requires n == 4 || n == 100 || n == 400
    ensures y / n == (y - 1) / n + if y % n == 0 then 1 else 0
  {
  }

  lemma NextYear(y: int)
    ensures YearStart(y + 1) == YearStart(y) + YearDays(y)
  {
    NextMultiple(y, 4);
    NextMultiple(y, 100);
    NextMultiple(y, 400);
    Multiples(y);
  }

  lemma TimesFour(k: int)
    ensures (4 * k) % 4 == 0
  {
  }

  lemma TimesHundred(k: int)
    ensures (100 * k) % 100 == 0
  {
  }

  lemma Multiples(y: int)
    ensures (y % 100 == 0 ==> y % 4 == 0) && (y % 400 == 0 ==> y % 100 == 0)
  {
    TimesFour(25 * (y / 100));
    TimesHundred(4 * (y / 400));
    if y % 100 == 0 { assert y == 4 * (25 * (y / 100)); }
    if y % 400 == 0 { assert y == 100 * (4 * (y / 400)); }
  }

  lemma NextMonth(y: int, mon: int)
    requires 0 <= mon < 11
    ensures DaysBefore(y, mon + 1) == DaysBefore(y, mon) + MonthDays(y, mon)
  {
    assert BEFORE_MONTH[0] == 0 && BEFORE_MONTH[1] == 31 && BEFORE_MONTH[2] == 59 && BEFORE_MONTH[3] == 90;
    assert BEFORE_MONTH[4] == 120 && BEFORE_MONTH[5] == 151 && BEFORE_MONTH[6] == 181 && BEFORE_MONTH[7] == 212;
    assert BEFORE_MONTH[8] == 243 && BEFORE_MONTH[9] == 273 && BEFORE_MONTH[10] == 304 && BEFORE_MONTH[11] == 334;
  }

  lemma {:induction false} DaysOfMonths(y: int, mon: int, d: nat)
    requires 0 <= mon < 12 && d < DaysFrom(y, mon)
    ensures var r := MonthAndDay(y, mon, d); DaysBefore(y, r.mon) + r.mday - 1 == DaysBefore(y, mon) + d
    decreases 12 - mon
  {
    if d < MonthDays(y, mon) {
      InMonth(y, mon, d);
    } else {
      var e := BehindMonth(y, mon, d);
      DaysOfMonths(y, mon + 1, e);
      NextMonth(y, mon);
    }
  }

  lemma DateInYear(y: int, d: nat)
    requires d < YearDays(y)
    ensures d < DaysFrom(y, 0) && DateOf(y, d) == MonthAndDay(y, 0, d)
  {
    YearIsItsMonths(y);
  }

  /** The date of a day has that day's number. */
  lemma {:induction false} DayOfDate(y: int, d: nat)
    ensures var r := DateOf(y, d); DayNumber(r.year, r.mon, r.mday) == YearStart(y) + d
    decreases d
  {
    if d < YearDays(y) {
      DateInYear(y, d);
      DaysOfMonths(y, 0, d);
      assert DaysBefore(y, 0) == 0;
    } else {
      DayOfDate(y + 1, d - YearDays(y));
      NextYear(y);
    }
  }

  // The reader

  datatype Reading = Reading(local: int, gmtoff: int) | Unreadable

  function ReadZone(local: int, s: string): Reading
  {
    if s == "Z" then Reading(local, 0)
    else if (|s| == 3 || |s| == 5) && (s[0] == '+' || s[0] == '-') && Decimal(s[1..]) then
      var offset := 3600 * DecimalValue(s[1..3]) + if |s| == 5 then 60 * DecimalValue(s[3..]) else 0;
      Reading(local, if s[0] == '+' then offset else -offset)
    else Unreadable
  }

  function ReadTail(second: int, s: string): Reading
  {
    if s != "" && s[0] == '.' then
      if |s| >= 7 && Decimal(s[1..7]) then ReadZone(second * 1000000 + DecimalValue(s[1..7]), s[7..]) else Unreadable
    else ReadZone(second * 1000000, s)
  }

  /** Digits, and the separators between them. */
  predicate Dated(s: string)
  {
    && |s| >= 19 && s[4] == '-' && s[7] == '-' && s[10] == ' ' && s[13] == ':' && s[16] == ':'
    && Decimal(s[..4]) && Decimal(s[5..7]) && Decimal(s[8..10])
    && Decimal(s[11..13]) && Decimal(s[14..16]) && Decimal(s[17..19])
    && 1 <= DecimalValue(s[5..7]) <= 12
  }

  /** Seconds since the start of 1970. */
  function SecondOfFields(y: int, mon: int, mday: int, h: int, mi: int, sec: int): int
    requires 0 <= mon < 12
  {
    DayNumber(y, mon, mday) * 86400 + h * 3600 + mi * 60 + sec
  }

  function SecondShown(s: string): int
    requires Dated(s)
  {
    SecondOfFields(DecimalValue(s[..4]), DecimalValue(s[5..7]) - 1, DecimalValue(s[8..10]),
                   DecimalValue(s[11..13]), DecimalValue(s[14..16]), DecimalValue(s[17..19]))
  }

  /** Local time in microseconds since the start of 1970, and the offset from UTC in seconds. */
  function Read(s: string): Reading
  {
    if Dated(s) then ReadTail(SecondShown(s), s[19..]) else Unreadable
  }

  // It undoes the renderer

  /** A text with these parts in their places. */
  predicate HasLayout(s: string, y: string, mo: string, d: string, h: string, mi: string, sec: string, tail: string)
  {
    && |s| == 19 + |tail| && s[4] == '-' && s[7] == '-' && s[10] == ' ' && s[13] == ':' && s[16] == ':'
    && s[..4] == y && s[5..7] == mo && s[8..10] == d && s[11..13] == h && s[14..16] == mi && s[17..19] == sec
    && s[19..] == tail
  }

  lemma Layout(y: string, mo: string, d: string, h: string, mi: string, sec: string, tail: string)
    requires |y| == 4 && |mo| == |d| == |h| == |mi| == |sec| == 2
    ensures HasLayout(y + "-" + mo + "-" + d + (" " + (h + ":" + mi + ":" + sec)) + tail, y, mo, d, h, mi, sec, tail)
  {
  }

  lemma LayoutIsDated(s: string, y: string, mo: string, d: string, h: string, mi: string, sec: string, tail: string)
    requires HasLayout(s, y, mo, d, h, mi, sec, tail)
    requires Decimal(y) && Decimal(mo) && Decimal(d) && Decimal(h) && Decimal(mi) && Decimal(sec)
    requires 1 <= DecimalValue(mo) <= 12
    ensures Dated(s) && s[19..] == tail
    ensures SecondShown(s) == SecondOfFields(DecimalValue(y), DecimalValue(mo) - 1, DecimalValue(d),
                                             DecimalValue(h), DecimalValue(mi), DecimalValue(sec))
  {
  }

  /** The second of broken-down fields. */
  function SecondOf(e: ExpTime): int
    requires 0 <= e.mon < 12
  {
    SecondOfFields(e.year + 1900, e.mon, e.mday, e.hour, e.min, e.sec)
  }

  predicate InRange(e: ExpTime)
  {
    && 0 <= e.year + 1900 <= 9999 && 0 <= e.mon < 12 && 1 <= e.mday <= 31
    && 0 <= e.hour < 24 && 0 <= e.min < 60 && 0 <= e.sec < 60
  }

  lemma FieldsAreDecimal(e: ExpTime)
    requires InRange(e)
    ensures Decimal(YearText(e.year + 1900)) && DecimalValue(YearText(e.year + 1900)) == e.year + 1900
    ensures Decimal(Two(e.mon + 1)) && DecimalValue(Two(e.mon + 1)) == e.mon + 1
    ensures Decimal(Two(e.mday)) && DecimalValue(Two(e.mday)) == e.mday
    ensures Decimal(Two(e.hour)) && DecimalValue(Two(e.hour)) == e.hour
    ensures Decimal(Two(e.min)) && DecimalValue(Two(e.min)) == e.min
    ensures Decimal(Two(e.sec)) && DecimalValue(Two(e.sec)) == e.sec
    ensures |YearText(e.year + 1900)| == 4
  {
    YearIsDecimal(e.year + 1900);
    TwoIsDecimal(e.mon + 1);
    TwoIsDecimal(e.mday);
    TwoIsDecimal(e.hour);
    TwoIsDecimal(e.min);
    TwoIsDecimal(e.sec);
  }

  lemma SecondTextLayout(e: ExpTime, tail: string)
    requires |YearText(e.year + 1900)| == 4
    ensures HasLayout(SecondText(e) + tail, YearText(e.year + 1900), Two(e.mon + 1), Two(e.mday), Two(e.hour),
                      Two(e.min), Two(e.sec), tail)
  {
    Layout(YearText(e.year + 1900), Two(e.mon + 1), Two(e.mday), Two(e.hour), Two(e.min), Two(e.sec), tail);
  }

  lemma SameFields(y: int, mo: int, d: int, h: int, mi: int, sec: int, e: ExpTime)
    requires y == e.year + 1900 && mo == e.mon + 1 && d == e.mday && h == e.hour && mi == e.min && sec == e.sec
    requires 0 <= e.mon < 12
    ensures SecondOfFields(y, mo - 1, d, h, mi, sec) == SecondOf(e)
  {
  }

  lemma ReadOfFields(e: ExpTime, tail: string)
    requires InRange(e)
    ensures Read(SecondText(e) + tail) == ReadTail(SecondOf(e), tail)
  {
    FieldsAreDecimal(e);
    SecondTextLayout(e, tail);
    LayoutIsDated(SecondText(e) + tail, YearText(e.year + 1900), Two(e.mon + 1), Two(e.mday), Two(e.hour),
                  Two(e.min), Two(e.sec), tail);
    SameFields(DecimalValue(YearText(e.year + 1900)), DecimalValue(Two(e.mon + 1)), DecimalValue(Two(e.mday)),
               DecimalValue(Two(e.hour)), DecimalValue(Two(e.min)), DecimalValue(Two(e.sec)), e);
  }

  /** What is shown of an offset: whole minutes east, nothing but zero less than an hour west. */
  function ShownOffset(gmtoff: int): int { if gmtoff >= 0 then gmtoff - gmtoff % 60 else 0 }

  lemma HourIsRead(local: int, h: string)
    requires Decimal(h) && |h| == 2
    ensures ReadZone(local, "+" + h) == Reading(local, 3600 * DecimalValue(h))
  {
    assert ("+" + h)[1..] == h && ("+" + h)[1..3] == h;
  }

  lemma HourAndMinuteAreRead(local: int, h: string, m: string)
    requires Decimal(h) && |h| == 2 && Decimal(m) && |m| == 2
    ensures ReadZone(local, "+" + h + m) == Reading(local, 3600 * DecimalValue(h) + 60 * DecimalValue(m))
  {
    var s := "+" + h + m;
    assert s[1..3] == h && s[3..] == m && s[1..] == h + m;
  }

  lemma EastText(gmtoff: int)
    requires 0 < gmtoff
    ensures var h, m := gmtoff / 3600, gmtoff % 3600 / 60;
      ZoneText(gmtoff) == if m > 0 then "+" + Two(h) + Two(m) else "+" + Two(h)
  {
    assert "+" + Two(gmtoff / 3600) + "" == "+" + Two(gmtoff / 3600);
  }

  lemma WholeMinutes(gmtoff: int)
    ensures 3600 * (gmtoff / 3600) + 60 * (gmtoff % 3600 / 60) == gmtoff - gmtoff % 60
  {
    var q, r := gmtoff / 3600, gmtoff % 3600;
    assert gmtoff == 60 * (60 * q + r / 60) + r % 60;
  }

  lemma EastIsRead(local: int, gmtoff: int)
    requires 0 < gmtoff < DAY
    ensures ReadZone(local, ZoneText(gmtoff)) == Reading(local, gmtoff - gmtoff % 60)
  {
    var h, m := gmtoff / 3600, gmtoff % 3600 / 60;
    TwoIsDecimal(h);
    TwoIsDecimal(m);
    EastText(gmtoff);
    WholeMinutes(gmtoff);
    if m > 0 { HourAndMinuteAreRead(local, Two(h), Two(m)); } else { HourIsRead(local, Two(h)); }
  }

  lemma WestIsRead(local: int, gmtoff: int)
    requires -DAY < gmtoff < 0
    ensures ReadZone(local, ZoneText(gmtoff)) == if gmtoff > -3600 then Reading(local, 0) else Unreadable
  {
    var h, s := (-gmtoff) / 3600, ZoneText(gmtoff);
    ZoneWest(gmtoff);
    NegativeTwo(h);
    assert s[1..] == Two(-h) && s[1..3] == Two(-h);
    if h == 0 {
      TwoIsDecimal(0);
    } else {
      assert Two(-h)[0] == s[1..][0] && Two(-h)[1] == s[1..][1];
    }
  }

  lemma ZoneIsRead(local: int, gmtoff: int)
    requires -DAY < gmtoff < DAY
    ensures ReadZone(local, ZoneText(gmtoff)) ==
            if gmtoff > -3600 then Reading(local, ShownOffset(gmtoff)) else Unreadable
    ensures ZoneText(gmtoff)[0] != '.'
  {
    if gmtoff > 0 { EastIsRead(local, gmtoff); } else if gmtoff < 0 { WestIsRead(local, gmtoff); }
  }

  lemma TailIsRead(second: int, usec: int, gmtoff: int)
    requires 0 <= usec < MEGA && -DAY < gmtoff < DAY
    ensures ReadTail(second, TailText(usec, gmtoff)) ==
            if gmtoff > -3600 then Reading(second * 1000000 + usec, ShownOffset(gmtoff)) else Unreadable
  {
    var f, z := FractionText(usec), ZoneText(gmtoff);
    ZoneIsRead(second * 1000000 + usec, gmtoff);
    if usec > 0 {
      SixAreDecimal(usec);
      assert (f + z)[0] == f[0] && (f + z)[1..7] == f[1..] && (f + z)[7..] == z;
    } else {
      assert f + z == z;
    }
  }

  lemma SecondOfLocal(local: nat, gmtoff: int)
    requires FourDigitYear(local)
    ensures InRange(Explode(local, gmtoff)) && SecondOf(Explode(local, gmtoff)) == local / MEGA
  {
    var sec := local / MEGA;
    FieldsInRange(local, gmtoff);
    ClockFields(sec);
    DayOfDate(EPOCH_YEAR, sec / DAY);
    assert YearStart(1970) == 0;
  }

  lemma TextInTwo(e: ExpTime)
    ensures IsoText(e) == SecondText(e) + TailText(e.usec, e.gmtoff)
  {
    TextParts(e, "");
    assert IsoText(e) + "" == IsoText(e) && TailText(e.usec, e.gmtoff) + "" == TailText(e.usec, e.gmtoff);
  }

  lemma ReadOfTexts(e: ExpTime)
    requires InRange(e) && 0 <= e.usec < MEGA && -DAY < e.gmtoff < DAY
    ensures Read(IsoText(e)) ==
            if e.gmtoff > -3600 then Reading(SecondOf(e) * 1000000 + e.usec, ShownOffset(e.gmtoff)) else Unreadable
  {
    TextInTwo(e);
    ReadOfFields(e, TailText(e.usec, e.gmtoff));
    TailIsRead(SecondOf(e), e.usec, e.gmtoff);
  }

  /** Reading a rendered time gives back the local time and the offset, in whole minutes; only an hour or more west
      of Greenwich it cannot be read. */
  lemma ReadUndoesRender(local: nat, gmtoff: int)
    requires FourDigitYear(local) && -DAY < gmtoff < DAY
    ensures Read(Render(local, gmtoff)) ==
            if gmtoff > -3600 then Reading(local, ShownOffset(gmtoff)) else Unreadable
  {
    SecondOfLocal(local, gmtoff);
    ReadOfTexts(Explode(local, gmtoff));
  }
}
