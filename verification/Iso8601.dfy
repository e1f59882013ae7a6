/** The ISO 8601 renderer, and how its text order relates to time. */
module Iso8601 {
  import opened Machine
  import opened TextOrder
  import opened TextLines

  const DAY: int := 86400
  const ISO_BUFFER: nat := 33

  /** The fields of apr_time_exp_t that the renderer uses. */
  datatype ExpTime = ExpTime(year: int, mon: int, mday: int, hour: int, min: int, sec: int, usec: int, gmtoff: int)

  /** A C int stored in a char. */
  function ToChar(v: int): char { (v % 256) as char }

  /** n / 10 + '0' and n % 10 + '0', as C computes them. */
  function Two(n: int): (s: string)
    ensures |s| == 2
  {
    [ToChar(Quot(n, 10) + 48), ToChar(Rem(n, 10) + 48)]
  }

  function YearText(y: int): string
  {
    (if y > 9999 then [ToChar(Quot(y, 10000) + 48), ToChar(Quot(Rem(y, 10000), 1000) + 48)]
     else [ToChar(Quot(y, 1000) + 48)])
    + [ToChar(Quot(Rem(y, 1000), 100) + 48), ToChar(Quot(Rem(y, 100), 10) + 48), ToChar(Rem(y, 10) + 48)]
  }

  function DateText(e: ExpTime): string
  {
    YearText(e.year + 1900) + "-" + Two(e.mon + 1) + "-" + Two(e.mday)
  }

  function TimeText(e: ExpTime): string { Two(e.hour) + ":" + Two(e.min) + ":" + Two(e.sec) }

  function FractionText(usec: int): string
  {
    if usec > 0 then
      "." + [ToChar(Quot(usec, 100000) + 48), ToChar(Quot(Rem(usec, 100000), 10000) + 48),
             ToChar(Quot(Rem(usec, 10000), 1000) + 48), ToChar(Quot(Rem(usec, 1000), 100) + 48),
             ToChar(Quot(Rem(usec, 100), 10) + 48), ToChar(Rem(usec, 10) + 48)]
    else ""
  }

  function ZoneText(gmtoff: int): (s: string)
    ensures |s| > 0
  {
    if gmtoff == 0 then "Z"
    else
      (if gmtoff > 0 then "+" else "-") + Two(Quot(gmtoff, 3600))
      + (var m := Quot(Rem(gmtoff, 3600), 60); if m > 0 then Two(m) else "")
  }

  function IsoText(e: ExpTime): string
  {
    DateText(e) + " " + TimeText(e) + FractionText(e.usec) + ZoneText(e.gmtoff)
  }

  /** `*s++ = c` */
  method Put(s: array<char>, i: nat, c: char) returns (j: nat)
    requires i < s.Length
    modifies s
    ensures j == i + 1 && s[..j] == old(s[..i]) + [c]
    ensures forall k :: j <= k < s.Length ==> s[k] == old(s[k])
  {
    s[i] := c;
    j := i + 1;
  }

  /** Two such statements in a row. */
  method PutPair(s: array<char>, i: nat, c: char, d: char) returns (j: nat)
    requires i + 2 <= s.Length
    modifies s
    ensures j == i + 2 && s[..j] == old(s[..i]) + [c, d]
    ensures forall k :: j <= k < s.Length ==> s[k] == old(s[k])
  {
    j := Put(s, i, c);
    j := Put(s, j, d);
  }

  /** The repeated pair of statements for a two-digit field. */
  method PutTwo(s: array<char>, i: nat, n: int) returns (j: nat)
    requires i + 2 <= s.Length
    modifies s
    ensures j == i + 2 && s[..j] == old(s[..i]) + Two(n)
    ensures forall k :: j <= k < s.Length ==> s[k] == old(s[k])
  {
    j := PutPair(s, i, ToChar(Quot(n, 10) + 48), ToChar(Rem(n, 10) + 48));
  }

  /** libbase/lib/iso8601.c:21-30 */
  method PutYear(s: array<char>, y: int) returns (i: nat)
    requires s.Length >= ISO_BUFFER
    modifies s
    ensures i == |YearText(y)| <= 5 && s[..i] == YearText(y)
    ensures forall k :: i <= k < s.Length ==> s[k] == old(s[k])
  {
    i := 0;
    if y > 9999 {
      i := PutPair(s, i, ToChar(Quot(y, 10000) + 48), ToChar(Quot(Rem(y, 10000), 1000) + 48));
    } else {
      i := Put(s, i, ToChar(Quot(y, 1000) + 48));
    }
    i := PutPair(s, i, ToChar(Quot(Rem(y, 1000), 100) + 48), ToChar(Quot(Rem(y, 100), 10) + 48));
    i := Put(s, i, ToChar(Rem(y, 10) + 48));
  }

  /** libbase/lib/iso8601.c:19-39 */
  method PutDate(s: array<char>, e: ExpTime) returns (i: nat)
    requires s.Length >= ISO_BUFFER
    modifies s
    ensures i == |DateText(e)| <= 11 && s[..i] == DateText(e)
    ensures forall k :: i <= k < s.Length ==> s[k] == old(s[k])
  {
    i := PutYear(s, e.year + 1900);
    i := Put(s, i, '-');
    i := PutTwo(s, i, e.mon + 1);
    i := Put(s, i, '-');
    i := PutTwo(s, i, e.mday);
  }

  /** libbase/lib/iso8601.c:40-51 */
  method PutTime(s: array<char>, at: nat, e: ExpTime) returns (i: nat)
    requires at + 9 <= s.Length
    modifies s
    ensures i == at + 9 && s[..i] == old(s[..at]) + (" " + TimeText(e))
    ensures forall k :: i <= k < s.Length ==> s[k] == old(s[k])
  {
    i := Put(s, at, ' ');
    i := PutTwo(s, i, e.hour);
    i := Put(s, i, ':');
    i := PutTwo(s, i, e.min);
    i := Put(s, i, ':');
    i := PutTwo(s, i, e.sec);
  }

  /** libbase/lib/iso8601.c:52-61 */
  method PutFraction(s: array<char>, at: nat, usec: int) returns (i: nat)
    requires at + 7 <= s.Length
    modifies s
    ensures i == at + |FractionText(usec)| <= at + 7
    ensures s[..i] == old(s[..at]) + FractionText(usec)
    ensures forall k :: i <= k < s.Length ==> s[k] == old(s[k])
  {
    i := at;
    if usec > 0 {
      i := Put(s, i, '.');
      i := PutPair(s, i, ToChar(Quot(usec, 100000) + 48), ToChar(Quot(Rem(usec, 100000), 10000) + 48));
      i := PutPair(s, i, ToChar(Quot(Rem(usec, 10000), 1000) + 48), ToChar(Quot(Rem(usec, 1000), 100) + 48));
      i := PutPair(s, i, ToChar(Quot(Rem(usec, 100), 10) + 48), ToChar(Rem(usec, 10) + 48));
    }
  }

  /** libbase/lib/iso8601.c:62-83 */
  method PutZone(s: array<char>, at: nat, gmtoff: int) returns (i: nat)
    requires at + 5 <= s.Length
    modifies s
    ensures i == at + |ZoneText(gmtoff)| <= at + 5
    ensures s[..i] == old(s[..at]) + ZoneText(gmtoff)
    ensures forall k :: i <= k < s.Length ==> s[k] == old(s[k])
  {
    i := at;
    if gmtoff != 0 {
      if gmtoff > 0 {
        i := Put(s, i, '+');
      } else {
        i := Put(s, i, '-');
      }
      i := PutTwo(s, i, Quot(gmtoff, 3600));
      var tmp := Quot(Rem(gmtoff, 3600), 60);
      if tmp > 0 {
        i := PutTwo(s, i, tmp);
      }
    } else {
      i := Put(s, i, 'Z');
    }
  }

  /** libbase/lib/iso8601.c:14-86 */
  method FormatIso8601(s: array<char>, e: ExpTime)
    requires s.Length >= ISO_BUFFER
    modifies s
    ensures |IsoText(e)| < 33 && s[..] == IsoText(e) + ['\0'] + old(s[|IsoText(e)| + 1..])
  {
    var i := PutDate(s, e);
    i := PutTime(s, i, e);
    Associative(DateText(e), " ", TimeText(e));
    i := PutFraction(s, i, e.usec);
    i := PutZone(s, i, e.gmtoff);
    i := Put(s, i, '\0');
    assert s[..] == s[..i] + s[i..] && s[i..] == old(s[i..]);
  }

  // The calendar, as apr_time_exp_gmt and apr_time_exp_lt follow it from 1970 on

  predicate Leap(y: int) { y % 4 == 0 && (y % 100 != 0 || y % 400 == 0) }

  function YearDays(y: int): int { if Leap(y) then 366 else 365 }

  function MonthDays(y: int, mon: int): int
  {
    if mon == 1 then (if Leap(y) then 29 else 28)
    else if mon == 3 || mon == 5 || mon == 8 || mon == 10 then 30
    else 31
  }

  datatype Date = Date(year: int, mon: int, mday: int)

  predicate DateLess(a: Date, b: Date)
  {
    a.year < b.year || (a.year == b.year && (a.mon < b.mon || (a.mon == b.mon && a.mday < b.mday)))
  }

  /** The days left in year y from the start of a month on. */
  function DaysFrom(y: int, mon: int): (r: int)
    requires 0 <= mon <= 12
    ensures mon == 12 ==> r == 0
    decreases 12 - mon
  {
    if mon == 12 then 0 else MonthDays(y, mon) + DaysFrom(y, mon + 1)
  }

  lemma YearIsItsMonths(y: int)
    ensures DaysFrom(y, 0) == YearDays(y)
  {
    assert DaysFrom(y, 6) == MonthDays(y, 6) + MonthDays(y, 7) + MonthDays(y, 8) + DaysFrom(y, 9);
    assert DaysFrom(y, 2) == MonthDays(y, 2) + MonthDays(y, 3) + MonthDays(y, 4) + MonthDays(y, 5) + DaysFrom(y, 6);
  }

  /** The date of day d of year y, counted from the start of month mon. */
  function MonthAndDay(y: int, mon: int, d: nat): (r: Date)
    requires 0 <= mon < 12 && d < DaysFrom(y, mon)
    ensures r.year == y && mon <= r.mon < 12 && 1 <= r.mday <= MonthDays(y, r.mon)
    decreases 12 - mon
  {
    if d < MonthDays(y, mon) then Date(y, mon, d + 1)
    else MonthAndDay(y, mon + 1, d - MonthDays(y, mon))
  }

  /** The date of day d, counted from the start of year y. */
  function DateOf(y: int, d: nat): (r: Date)
    ensures y <= r.year && 0 <= r.mon < 12 && 1 <= r.mday <= MonthDays(r.year, r.mon)
    decreases d
  {
    if d < YearDays(y) then YearIsItsMonths(y); MonthAndDay(y, 0, d)
    else DateOf(y + 1, d - YearDays(y))
  }

  lemma InMonth(y: int, mon: int, d: nat)
    requires 0 <= mon < 12 && d < DaysFrom(y, mon) && d < MonthDays(y, mon)
    ensures MonthAndDay(y, mon, d) == Date(y, mon, d + 1)
  {
  }

  lemma BehindMonth(y: int, mon: int, d: nat) returns (e: nat)
    requires 0 <= mon < 12 && MonthDays(y, mon) <= d < DaysFrom(y, mon)
    ensures mon + 1 < 12 && e + MonthDays(y, mon) == d && e < DaysFrom(y, mon + 1)
    ensures MonthAndDay(y, mon, d) == MonthAndDay(y, mon + 1, e)
  {
    e := d - MonthDays(y, mon);
  }

  lemma OneMonthOrder(y: int, mon: int, d: nat, d': nat)
    requires 0 <= mon < 12 && d < d' < DaysFrom(y, mon) && d' < MonthDays(y, mon)
    ensures DateLess(MonthAndDay(y, mon, d), MonthAndDay(y, mon, d'))
  {
    InMonth(y, mon, d);
    InMonth(y, mon, d');
  }

  lemma TwoMonthsOrder(y: int, mon: int, d: nat, d': nat)
    requires 0 <= mon < 12 && d < MonthDays(y, mon) <= d' < DaysFrom(y, mon) && d < DaysFrom(y, mon)
    ensures DateLess(MonthAndDay(y, mon, d), MonthAndDay(y, mon, d'))
  {
    InMonth(y, mon, d);
    var e' := BehindMonth(y, mon, d');
    LaterMonth(Date(y, mon, d + 1), MonthAndDay(y, mon + 1, e'));
  }

  lemma LaterMonth(a: Date, b: Date)
    requires a.year == b.year && a.mon < b.mon
    ensures DateLess(a, b)
  {
  }

  lemma {:induction false} MonthAndDayOrder(y: int, mon: int, d: nat, d': nat)
    requires 0 <= mon < 12 && d < d' < DaysFrom(y, mon)
    ensures DateLess(MonthAndDay(y, mon, d), MonthAndDay(y, mon, d'))
    decreases 12 - mon
  {
    if d' < MonthDays(y, mon) {
      OneMonthOrder(y, mon, d, d');
    } else if d < MonthDays(y, mon) {
      TwoMonthsOrder(y, mon, d, d');
    } else {
      var e := BehindMonth(y, mon, d);
      var e' := BehindMonth(y, mon, d');
      MonthAndDayOrder(y, mon + 1, e, e');
    }
  }

  /** Later days have later dates. */
  lemma {:induction false} DateOrder(y: int, d: nat, d': nat)
    requires d < d'
    ensures DateLess(DateOf(y, d), DateOf(y, d'))
    decreases d
  {
    YearIsItsMonths(y);
    if d' < YearDays(y) {
      MonthAndDayOrder(y, 0, d, d');
    } else if d >= YearDays(y) {
      DateOrder(y + 1, d - YearDays(y), d' - YearDays(y));
    }
  }

  const EPOCH_YEAR: int := 1970

  /** The broken-down form of a local time, in microseconds since the start of 1970. */
  function Explode(local: nat, gmtoff: int): ExpTime
  {
    var sec := local / MEGA;
    var date := DateOf(EPOCH_YEAR, sec / DAY);
    ExpTime(date.year - 1900, date.mon, date.mday, sec % DAY / 3600, sec % 3600 / 60, sec % 60, local % MEGA, gmtoff)
  }

  /** The local time is one whose year has four digits. */
  predicate FourDigitYear(local: int)
  {
    0 <= local && DateOf(EPOCH_YEAR, local / MEGA / DAY).year <= 9999
  }

  function Render(local: nat, gmtoff: int): string { IsoText(Explode(local, gmtoff)) }

  // Order

  lemma DigitChars(n: int)
    requires 0 <= n < 100
    ensures Two(n)[0] as int == n / 10 + 48 && Two(n)[1] as int == n % 10 + 48
  {
  }

  lemma TwoCharsOrder(s: string, t: string)
    requires |s| == |t| == 2
    ensures Less(s, t) <==> s[0] < t[0] || (s[0] == t[0] && s[1] < t[1])
    ensures s == t <==> s[0] == t[0] && s[1] == t[1]
  {
    assert s[1..] == [s[1]] && t[1..] == [t[1]];
    assert Less(s[1..], t[1..]) <==> s[1] < t[1];
  }

  lemma TwoOrder(a: int, b: int)
    requires 0 <= a < 100 && 0 <= b < 100
    ensures Less(Two(a), Two(b)) <==> a < b
    ensures Two(a) == Two(b) <==> a == b
  {
    var s, t := Two(a), Two(b);
    DigitChars(a);
    DigitChars(b);
    TwoCharsOrder(s, t);
  }

  /** Two-digit fields in front of anything compare first. */
  lemma TwoFirst(a: int, b: int, s: string, t: string)
    requires 0 <= a < 100 && 0 <= b < 100
    ensures Less(Two(a) + s, Two(b) + t) <==> a < b || (a == b && Less(s, t))
    ensures Two(a) + s == Two(b) + t <==> a == b && s == t
  {
    TwoOrder(a, b);
    HeadFirst(Two(a), Two(b), s, t);
  }

  lemma NestedDivision(u: int)
    requires 0 <= u
    ensures u / 1000 == u / 100 / 10 && u % 1000 / 100 == u / 100 % 10
    ensures u % 100 / 10 == u / 10 % 10 && u % 10 == u % 100 % 10
  {
    var q, r := u / 1000, u % 1000;
    assert u == 1000 * q + r;
    assert u / 100 == 10 * q + r / 100;
    var h, l := u / 100, u % 100;
    assert u / 10 == 10 * h + l / 10;
  }

  lemma FourDigits(y: int)
    requires 0 <= y <= 9999
    ensures YearText(y) == Two(y / 100) + Two(y % 100)
  {
    NestedDivision(y);
  }

  lemma SixDigitParts(u: int)
    requires 0 <= u < MEGA
    ensures var a, b, c := u / 10000, u / 100 % 100, u % 100;
      && 0 <= a < 100 && 0 <= b < 100 && 0 <= c < 100
      && u / 100000 == a / 10 && u % 100000 / 10000 == a % 10
      && u % 10000 / 1000 == b / 10 && u % 1000 / 100 == b % 10
      && u % 100 / 10 == c / 10 && u % 10 == c % 10
  {
    var a, b, c := u / 10000, u / 100 % 100, u % 100;
    ThreePairs(u);
    SplitDigits(a, 100 * b + c, 10000);
    SplitDigits(b, c, 100);
    LowDigits(10 * a, 100 * b + c);
    LastDigit(100 * a + b, c);
  }

  lemma ThreePairs(u: int)
    requires 0 <= u < MEGA
    ensures var a, b, c := u / 10000, u / 100 % 100, u % 100;
      u == 10000 * a + (100 * b + c) && u % 10000 == 100 * b + c
  {
    var v := u / 100;
    assert u == 100 * v + u % 100 && v == 100 * (v / 100) + v % 100;
    assert u / 10000 == v / 100;
  }

  lemma LowDigits(q: nat, r: nat)
    ensures (1000 * q + r) % 1000 == r % 1000
  {
    assert 1000 * q + r == 1000 * (q + r / 1000) + r % 1000;
  }

  lemma ModTen(k: nat, d: nat)
    requires d < 10
    ensures (10 * k + d) % 10 == d
  {
  }

  lemma LastDigit(q: nat, r: nat)
    ensures (100 * q + r) % 10 == r % 10
  {
    var k, d := 10 * q + r / 10, r % 10;
    ModTen(k, d);
    assert 100 * q + r == 10 * k + d;
  }

  /** The digits of a two-digit number in front of others. */
  lemma SplitDigits(a: int, rest: int, unit: int)
    requires 0 <= a < 100 && 0 <= rest < unit && (unit == 100 || unit == 10000)
    ensures (unit * a + rest) / (10 * unit) == a / 10
    ensures (unit * a + rest) % (10 * unit) / unit == a % 10
  {
    var h, l := a / 10, a % 10;
    if unit == 100 {
      assert 100 * a + rest == 1000 * h + (100 * l + rest);
    } else {
      assert 10000 * a + rest == 100000 * h + (10000 * l + rest);
    }
  }

  lemma TwoOfDigits(n: int)
    requires 0 <= n
    ensures Two(n) == [ToChar(n / 10 + 48), ToChar(n % 10 + 48)]
  {
  }

  lemma FractionOfDigits(u: int)
    requires 0 < u
    ensures FractionText(u) == "." + ([ToChar(u / 100000 + 48), ToChar(u % 100000 / 10000 + 48)]
                                    + ([ToChar(u % 10000 / 1000 + 48), ToChar(u % 1000 / 100 + 48)]
                                     + [ToChar(u % 100 / 10 + 48), ToChar(u % 10 + 48)]))
  {
  }

  lemma ThreeTwos(u: int, a: int, b: int, c: int)
    requires 0 < u < MEGA && 0 <= a < 100 && 0 <= b < 100 && 0 <= c < 100
    requires u / 100000 == a / 10 && u % 100000 / 10000 == a % 10
    requires u % 10000 / 1000 == b / 10 && u % 1000 / 100 == b % 10
    requires u % 100 / 10 == c / 10 && u % 10 == c % 10
    ensures FractionText(u) == "." + (Two(a) + (Two(b) + Two(c)))
  {
    FractionOfDigits(u);
    TwoOfDigits(a);
    TwoOfDigits(b);
    TwoOfDigits(c);
  }

  lemma SixDigits(u: int)
    requires 0 < u < MEGA
    ensures FractionText(u) == "." + (Two(u / 10000) + (Two(u / 100 % 100) + Two(u % 100)))
  {
    SixDigitParts(u);
    ThreeTwos(u, u / 10000, u / 100 % 100, u % 100);
  }

  /** A separator and a two-digit field in front of anything. */
  lemma FieldFirst(sep: char, a: int, b: int, s: string, t: string)
    requires 0 <= a < 100 && 0 <= b < 100
    ensures Less([sep] + Two(a) + s, [sep] + Two(b) + t) <==> a < b || (a == b && Less(s, t))
    ensures [sep] + Two(a) + s == [sep] + Two(b) + t <==> a == b && s == t
  {
    TwoFirst(a, b, s, t);
    HeadFirst([sep], [sep], Two(a) + s, Two(b) + t);
    Irreflexive([sep]);
    assert [sep] + Two(a) + s == [sep] + (Two(a) + s) && [sep] + Two(b) + t == [sep] + (Two(b) + t);
  }

  /** Two two-digit fields in front of anything. */
  lemma TwoTwice(a: int, b: int, c: int, d: int, s: string, t: string)
    requires 0 <= a < 100 && 0 <= b < 100 && 0 <= c < 100 && 0 <= d < 100
    ensures Less(Two(a) + Two(b) + s, Two(c) + Two(d) + t) <==> a < c || (a == c && (b < d || (b == d && Less(s, t))))
    ensures Two(a) + Two(b) + s == Two(c) + Two(d) + t <==> a == c && b == d && s == t
  {
    TwoFirst(a, c, Two(b) + s, Two(d) + t);
    TwoFirst(b, d, s, t);
    Associative(Two(a), Two(b), s);
    Associative(Two(c), Two(d), t);
  }

  lemma Hundreds(y: int, z: int)
    requires 0 <= y <= 9999 && 0 <= z <= 9999
    ensures 0 <= y / 100 < 100 && 0 <= y % 100 < 100
    ensures y < z <==> y / 100 < z / 100 || (y / 100 == z / 100 && y % 100 < z % 100)
    ensures y == z <==> y / 100 == z / 100 && y % 100 == z % 100
  {
  }

  lemma YearFirst(y: int, z: int, s: string, t: string)
    requires 0 <= y <= 9999 && 0 <= z <= 9999
    ensures |YearText(y)| == 4
    ensures Less(YearText(y) + s, YearText(z) + t) <==> y < z || (y == z && Less(s, t))
    ensures YearText(y) + s == YearText(z) + t <==> y == z && s == t
  {
    FourDigits(y);
    FourDigits(z);
    Hundreds(y, z);
    Hundreds(z, y);
    TwoTwice(y / 100, y % 100, z / 100, z % 100, s, t);
  }

  lemma DateParts(e: ExpTime)
    ensures DateText(e) == YearText(e.year + 1900) + MonthAndDayText(e.mon, e.mday)
  {
    var y, m, d := YearText(e.year + 1900), Two(e.mon + 1), Two(e.mday);
    Associative(y + "-" + m, "-", d);
    Associative(y, "-", m);
    Associative(y, "-" + m, "-" + d);
  }

  function MonthAndDayText(m: int, d: int): string { "-" + Two(m + 1) + ("-" + Two(d)) }

  /** They compare month first. */
  lemma MonthAndDayFirst(m: int, d: int, n: int, e: int)
    requires 0 <= m < 12 && 0 <= n < 12 && 1 <= d <= 31 && 1 <= e <= 31
    ensures var p, q := MonthAndDayText(m, d), MonthAndDayText(n, e);
      && (Less(p, q) <==> m < n || (m == n && d < e))
      && (p == q <==> m == n && d == e)
  {
    FieldFirst('-', m + 1, n + 1, "-" + Two(d), "-" + Two(e));
    FieldFirst('-', d, e, "", "");
    assert "-" + Two(d) + "" == "-" + Two(d) && "-" + Two(e) + "" == "-" + Two(e);
  }

  lemma DateFieldsOrder(y: int, m: int, d: int, z: int, n: int, e: int)
    requires 0 <= y <= 9999 && 0 <= z <= 9999 && 0 <= m < 12 && 0 <= n < 12 && 1 <= d <= 31 && 1 <= e <= 31
    ensures var s, t := YearText(y) + MonthAndDayText(m, d), YearText(z) + MonthAndDayText(n, e);
      && |s| == |t| == 10
      && (Less(s, t) <==> y < z || (y == z && (m < n || (m == n && d < e))))
      && (s == t <==> y == z && m == n && d == e)
  {
    MonthAndDayFirst(m, d, n, e);
    YearFirst(y, z, MonthAndDayText(m, d), MonthAndDayText(n, e));
    YearFirst(z, y, MonthAndDayText(n, e), MonthAndDayText(m, d));
  }

  lemma DateTextOrder(a: ExpTime, b: ExpTime)
    requires 0 <= a.year + 1900 <= 9999 && 0 <= b.year + 1900 <= 9999
    requires 0 <= a.mon < 12 && 0 <= b.mon < 12 && 1 <= a.mday <= 31 && 1 <= b.mday <= 31
    ensures |DateText(a)| == |DateText(b)| == 10
    ensures Less(DateText(a), DateText(b)) <==> DateLess(Date(a.year, a.mon, a.mday), Date(b.year, b.mon, b.mday))
    ensures DateText(a) == DateText(b) <==> (a.year, a.mon, a.mday) == (b.year, b.mon, b.mday)
  {
    DateParts(a);
    DateParts(b);
    DateFieldsOrder(a.year + 1900, a.mon, a.mday, b.year + 1900, b.mon, b.mday);
  }

  lemma TimeTextOrder(a: ExpTime, b: ExpTime)
    requires 0 <= a.hour < 24 && 0 <= a.min < 60 && 0 <= a.sec < 60
    requires 0 <= b.hour < 24 && 0 <= b.min < 60 && 0 <= b.sec < 60
    ensures |TimeText(a)| == |TimeText(b)| == 8
    ensures Less(TimeText(a), TimeText(b)) <==>
            3600 * a.hour + 60 * a.min + a.sec < 3600 * b.hour + 60 * b.min + b.sec
    ensures TimeText(a) == TimeText(b) <==> (a.hour, a.min, a.sec) == (b.hour, b.min, b.sec)
  {
    var s, t := ":" + Two(a.sec), ":" + Two(b.sec);
    var p, q := ":" + Two(a.min) + s, ":" + Two(b.min) + t;
    TwoFirst(a.hour, b.hour, p, q);
    FieldFirst(':', a.min, b.min, s, t);
    FieldFirst(':', a.sec, b.sec, "", "");
    assert ":" + Two(a.sec) + "" == s && ":" + Two(b.sec) + "" == t;
    assert TimeText(a) == Two(a.hour) + p && TimeText(b) == Two(b.hour) + q;
  }

  /** The part of the text that shows the second. */
  function SecondText(e: ExpTime): string { DateText(e) + (" " + TimeText(e)) }

  /** The part after the second. */
  function TailText(usec: int, gmtoff: int): string { FractionText(usec) + ZoneText(gmtoff) }

  lemma TextParts(e: ExpTime, rest: string)
    ensures IsoText(e) + rest == SecondText(e) + (TailText(e.usec, e.gmtoff) + rest)
  {
    assert IsoText(e) == SecondText(e) + TailText(e.usec, e.gmtoff);
    Associative(SecondText(e), TailText(e.usec, e.gmtoff), rest);
  }

  lemma HourRest(q: nat, r: nat)
    ensures (3600 * q + r) % 3600 == r % 3600
  {
    assert 3600 * q + r == 3600 * (q + r / 3600) + r % 3600;
  }

  lemma MinuteRest(q: nat, r: nat)
    ensures (60 * q + r) % 60 == r % 60
  {
    assert 60 * q + r == 60 * (q + r / 60) + r % 60;
  }

  lemma ClockFields(sec: nat)
    ensures var h, m, s := sec % DAY / 3600, sec % 3600 / 60, sec % 60;
      0 <= h < 24 && 0 <= m < 60 && 0 <= s < 60 && 3600 * h + 60 * m + s == sec % DAY
  {
    var q, r := sec / DAY, sec % DAY;
    assert sec == DAY * q + r;
    HourRest(24 * q, r);
    MinuteRest(1440 * q, r);
    MinuteRest(60 * (r / 3600), r % 3600);
    assert r == 3600 * (r / 3600) + r % 3600;
  }

  /** The fields of a broken-down time are what the calendar and the clock allow. */
  lemma FieldsInRange(local: nat, gmtoff: int)
    requires FourDigitYear(local)
    ensures var e := Explode(local, gmtoff);
      && EPOCH_YEAR <= e.year + 1900 <= 9999 && 0 <= e.mon < 12 && 1 <= e.mday <= 31
      && 0 <= e.hour < 24 && 0 <= e.min < 60 && 0 <= e.sec < 60 && 0 <= e.usec < MEGA && e.gmtoff == gmtoff
  {
    ClockFields(local / MEGA);
  }

  /** The text of a second orders as the second, up to the year 9999. */
  lemma SecondOrder(a: nat, b: nat, p: int, q: int)
    requires FourDigitYear(a) && FourDigitYear(b)
    ensures |SecondText(Explode(a, p))| == |SecondText(Explode(b, q))|
    ensures Less(SecondText(Explode(a, p)), SecondText(Explode(b, q))) <==> a / MEGA < b / MEGA
    ensures SecondText(Explode(a, p)) == SecondText(Explode(b, q)) <==> a / MEGA == b / MEGA
  {
    var e, f := Explode(a, p), Explode(b, q);
    var s, t := a / MEGA, b / MEGA;
    ClockFields(s);
    ClockFields(t);
    DateTextOrder(e, f);
    TimeTextOrder(e, f);
    HeadFirst(" ", " ", TimeText(e), TimeText(f));
    HeadFirst(DateText(e), DateText(f), " " + TimeText(e), " " + TimeText(f));
    Irreflexive(" ");
    if s / DAY < t / DAY { DateOrder(EPOCH_YEAR, s / DAY, t / DAY); }
    if t / DAY < s / DAY { DateOrder(EPOCH_YEAR, t / DAY, s / DAY); }
  }

  /** Within a second: a whole second comes first, unless the text ends in 'Z'; whatever follows. */
  lemma TailOrder(u: int, v: int, gmtoff: int, s: string, t: string)
    requires 0 <= u < v < MEGA
    ensures Less(TailText(u, gmtoff) + s, TailText(v, gmtoff) + t) <==> !(u == 0 && gmtoff == 0)
    ensures TailText(u, gmtoff) + s != TailText(v, gmtoff) + t
  {
    var z := ZoneText(gmtoff);
    if u == 0 {
      SixDigits(v);
      assert TailText(u, gmtoff) == z;
      assert (TailText(v, gmtoff) + t)[0] == '.' && (z + s)[0] == z[0];
      assert z[0] == if gmtoff == 0 then 'Z' else if gmtoff > 0 then '+' else '-';
    } else {
      Associative(FractionText(u), z, s);
      Associative(FractionText(v), z, t);
      FractionOrder(u, v, z + s, z + t);
    }
  }

  lemma FractionThen(u: int, y: string)
    requires 0 < u < MEGA
    ensures FractionText(u) + y == "." + (Two(u / 10000) + (Two(u / 100 % 100) + (Two(u % 100) + y)))
  {
    SixDigits(u);
    var p, q, r := Two(u / 10000), Two(u / 100 % 100), Two(u % 100);
    Associative(q, r, y);
    Associative(p, q + r, y);
    Associative(".", p + (q + r), y);
  }

  lemma FractionOrder(u: int, v: int, y: string, z: string)
    requires 0 < u < v < MEGA
    ensures Less(FractionText(u) + y, FractionText(v) + z) && FractionText(u) + y != FractionText(v) + z
  {
    FractionThen(u, y);
    FractionThen(v, z);
    var s, t := Two(u % 100) + y, Two(v % 100) + z;
    var p, q := Two(u / 100 % 100) + s, Two(v / 100 % 100) + t;
    TwoFirst(u % 100, v % 100, y, z);
    TwoFirst(u / 100 % 100, v / 100 % 100, s, t);
    TwoFirst(u / 10000, v / 10000, p, q);
    HeadFirst(".", ".", Two(u / 10000) + p, Two(v / 10000) + q);
    assert u / 10000 == u / 100 / 100 && v / 10000 == v / 100 / 100;
  }

  /** Texts whose seconds differ order by local time, whatever their zones and whatever follows. */
  lemma WallClockOrder(a: nat, b: nat, p: int, q: int, s: string, t: string)
    requires FourDigitYear(a) && FourDigitYear(b) && a / MEGA != b / MEGA
    ensures Less(Render(a, p) + s, Render(b, q) + t) <==> a < b
    ensures Render(a, p) + s != Render(b, q) + t
  {
    var e, f := Explode(a, p), Explode(b, q);
    var y, z := TailText(e.usec, p) + s, TailText(f.usec, q) + t;
    SecondOrder(a, b, p, q);
    TextParts(e, s);
    TextParts(f, t);
    HeadFirst(SecondText(e), SecondText(f), y, z);
  }

  /** In one zone text order is time order, with exactly one exception: in UTC a whole second comes
      after the fractions of the same second. What follows the texts makes no difference. */
  lemma RenderOrder(a: nat, b: nat, gmtoff: int, s: string, t: string)
    requires a < b && FourDigitYear(a) && FourDigitYear(b)
    ensures Less(Render(a, gmtoff) + s, Render(b, gmtoff) + t) <==>
            !(gmtoff == 0 && a % MEGA == 0 && a / MEGA == b / MEGA)
    ensures Render(a, gmtoff) + s != Render(b, gmtoff) + t
  {
    if a / MEGA == b / MEGA {
      var e, f := Explode(a, gmtoff), Explode(b, gmtoff);
      var y, z := TailText(e.usec, gmtoff) + s, TailText(f.usec, gmtoff) + t;
      SecondOrder(a, b, gmtoff, gmtoff);
      TextParts(e, s);
      TextParts(f, t);
      HeadFirst(SecondText(e), SecondText(f), y, z);
      TailOrder(a % MEGA, b % MEGA, gmtoff, s, t);
      Irreflexive(SecondText(e));
    } else {
      WallClockOrder(a, b, gmtoff, gmtoff, s, t);
    }
  }

  /** The offset as it should be shown: sign, hours, and minutes if there are any. */
  function OffsetText(gmtoff: int): string
    requires gmtoff != 0
  {
    var g := if gmtoff < 0 then -gmtoff else gmtoff;
    (if gmtoff > 0 then "+" else "-") + Two(g / 3600) + if g % 3600 / 60 > 0 then Two(g % 3600 / 60) else ""
  }

  /** So it is exactly if it is not a minute or more west of Greenwich: C's quotient and remainder of a negative
      number are negative, so that hours come out in characters below '0', and minutes not at all. */
  lemma ZoneShowsOffset(gmtoff: int)
    requires -DAY < gmtoff < DAY && gmtoff != 0
    ensures ZoneText(gmtoff) == OffsetText(gmtoff) <==> gmtoff > -60
  {
    if gmtoff < 0 {
      var h, m := (-gmtoff) / 3600, (-gmtoff) % 3600 / 60;
      ZoneWest(gmtoff);
      assert gmtoff > -60 <==> h == 0 && m == 0;
      assert ZoneText(gmtoff)[1..3] == Two(-h) && OffsetText(gmtoff)[1..3] == Two(h);
      NegativeTwo(h);
    }
  }

  /** West of Greenwich there are no minutes, */
  lemma ZoneWest(gmtoff: int)
    requires -DAY < gmtoff < 0
    ensures ZoneText(gmtoff) == "-" + Two(-((-gmtoff) / 3600))
    ensures gmtoff > -3600 ==> ZoneText(gmtoff) == "-00"
  {
    assert Quot(gmtoff, 3600) == -((-gmtoff) / 3600) && Rem(gmtoff, 3600) <= 0;
    if gmtoff > -3600 { assert Two(0) == "00"; }
  }

  /** and hours are not decimal digits. */
  lemma NegativeTwo(h: int)
    requires 0 <= h < 100
    ensures Two(-h) == Two(h) <==> h == 0
    ensures '0' <= Two(-h)[0] <= '9' && '0' <= Two(-h)[1] <= '9' <==> h == 0
  {
    if h > 0 {
      assert Quot(-h, 10) == -(h / 10) && Rem(-h, 10) == -(h % 10);
      assert Two(-h)[0] as int == 48 - h / 10 && Two(-h)[1] as int == 48 - h % 10;
      DigitChars(h);
    }
  }
}
