/** Log lines as text: what taiconv and awk make of a stamped line. */
module Stamps {
  import opened Machine
  import opened TextOrder
  import opened TextLines
  import opened Hex
  import opened TaiLabels
  import opened AprTime
  import Iso8601
  import opened IsoReading
  import opened Taiconv
  import opened Fields
  import opened LogLines

  // Rendered stamps, where the offset from UTC in seconds may depend on the time

  /** A time that the renderer shows with a four-digit year. */
  predicate Showable(a: int, zone: int -> int) { Iso8601.FourDigitYear(Local(a, zone)) }

  /** Local time, in microseconds since the start of 1970. */
  function Local(a: int, zone: int -> int): int { a + zone(a) * MEGA }

  function ShownTime(a: int, zone: int -> int): string
  {
    if Showable(a, zone) then Iso8601.Render(Local(a, zone), zone(a)) else ""
  }

  function ShownTain(l: Label, zone: int -> int): string
  {
    if ToAprDefined(l) then ShownTime(ToApr(l), zone) else ""
  }

  function ShownTai(x: u64, zone: int -> int): string
  {
    if MakeDefined(Wrap64(x - EPOCH), 0) then ShownTime(SecondsToApr(x), zone) else ""
  }

  /** taiconv, as it renders in a zone. */
  function InZone(zone: int -> int): Renderer
  {
    Renderer((l: Label) => ShownTain(l, zone), (x: u64) => ShownTai(x, zone))
  }

  /** A clock value that survives labelling and rendering. */
  predicate ClockOk(now: i64, zone: int -> int)
  {
    0 <= now && now + 1 < TWO63 && Showable(now + 1, zone) && -Iso8601.DAY < zone(now + 1) < Iso8601.DAY
  }

  /** For one, every local time on the first day of 1970 can be shown. */
  lemma FirstDayIsOk(now: i64, zone: int -> int)
    requires 0 <= now && -Iso8601.DAY < zone(now + 1) < Iso8601.DAY && 0 <= Local(now + 1, zone) < Iso8601.DAY * MEGA
    requires now + 1 < TWO63
    ensures ClockOk(now, zone)
  {
    assert Local(now + 1, zone) / MEGA / Iso8601.DAY == 0;
    assert Iso8601.DateOf(Iso8601.EPOCH_YEAR, 0).year == Iso8601.EPOCH_YEAR;
  }

  /** The stamp that the reader sees for a line logged at a clock value: one microsecond later. */
  function StampText(now: i64, zone: int -> int): string { ShownTime(now + 1, zone) }

  lemma LabelRoundTrip(now: i64)
    requires 0 <= now && now + 1 < TWO63
    ensures ParsedTain(TextOfTain(FromApr(now))) == Some(FromApr(now))
    ensures ToAprDefined(FromApr(now)) && ToApr(FromApr(now)) == now + 1
  {
    var l := FromApr(now);
    RoundedClock(now);
    ToAprDefinedRange(l);
    ToAprIsRounding(l);
    ParserUndoesPrinter(l, "");
    assert TextOfTain(l) + "" == TextOfTain(l);
  }

  lemma ZoneShowsTain(l: Label, zone: int -> int)
    ensures InZone(zone).tain(l) == ShownTain(l, zone)
  {
  }

  lemma TainShownAt(l: Label, a: int, zone: int -> int)
    requires ToAprDefined(l) && ToApr(l) == a
    ensures ShownTain(l, zone) == ShownTime(a, zone)
  {
  }

  /** A label that parses to itself and shows this time. */
  predicate Shows(l: Label, a: int)
  {
    ParsedTain(TextOfTain(l)) == Some(l) && ToAprDefined(l) && ToApr(l) == a
  }

  lemma ClockLabelShows(now: i64)
    requires 0 <= now && now + 1 < TWO63
    ensures Shows(FromApr(now), now + 1)
  {
    LabelRoundTrip(now);
  }

  lemma LabelShownAt(l: Label, a: int, zone: int -> int)
    requires Shows(l, a)
    ensures Shown(InZone(zone), TextOfTain(l)) == ShownTime(a, zone)
  {
    ShownLabel(InZone(zone), TextOfTain(l));
    ZoneShowsTain(l, zone);
    TainShownAt(l, a, zone);
  }

  lemma StampIsLater(now: i64, zone: int -> int)
    ensures StampText(now, zone) == ShownTime(now + 1, zone)
  {
  }

  lemma LabelShownAs(l: Label, now: i64, zone: int -> int)
    requires Shows(l, now + 1)
    ensures Shown(InZone(zone), TextOfTain(l)) == StampText(now, zone)
  {
    LabelShownAt(l, now + 1, zone);
    StampIsLater(now, zone);
  }

  lemma LabelShown(now: i64, zone: int -> int)
    requires 0 <= now && now + 1 < TWO63
    ensures Shown(InZone(zone), TextOfTain(FromApr(now))) == StampText(now, zone)
  {
    ClockLabelShows(now);
    LabelShownAs(FromApr(now), now, zone);
  }

  lemma LabelIsCandidate(l: Label)
    ensures Candidate(TextOfTain(l)) && Word(TextOfTain(l))
  {
    HexTextShape(PackedTain(l));
    forall c | c in TextOfTain(l) ensures !Blank(c) {
      var i :| 0 <= i < |TextOfTain(l)| && TextOfTain(l)[i] == c;
    }
  }

  /** In UTC the stamp of the earlier clock value is a whole second, that of the later a fraction of it. */
  predicate Conflict(a: i64, b: i64, gmtoff: int)
  {
    gmtoff == 0 && (a + 1) % MEGA == 0 && (a + 1) / MEGA == (b + 1) / MEGA
  }

  lemma RenderedInOrder(x: nat, y: nat, gmtoff: int)
    requires x < y && Iso8601.FourDigitYear(x) && Iso8601.FourDigitYear(y)
    ensures Less(Iso8601.Render(x, gmtoff), Iso8601.Render(y, gmtoff)) <==>
            !(gmtoff == 0 && x % MEGA == 0 && x / MEGA == y / MEGA)
    ensures Iso8601.Render(x, gmtoff) != Iso8601.Render(y, gmtoff)
  {
    var s, t := Iso8601.Render(x, gmtoff), Iso8601.Render(y, gmtoff);
    Iso8601.RenderOrder(x, y, gmtoff, "", "");
    assert s + "" == s && t + "" == t;
  }

  lemma LocalConflict(a: i64, b: i64, x: int, y: int, gmtoff: int)
    requires a < b && x == a + 1 + gmtoff * MEGA && y == b + 1 + gmtoff * MEGA
    ensures x < y && (gmtoff == 0 && x % MEGA == 0 && x / MEGA == y / MEGA <==> Conflict(a, b, gmtoff))
  {
  }

  lemma StampsOfLocalTimes(a: i64, b: i64, zone: int -> int, gmtoff: int, x: int, y: int)
    requires x == Local(a + 1, zone) < y == Local(b + 1, zone) && ClockOk(a, zone) && ClockOk(b, zone)
    requires zone(a + 1) == zone(b + 1) == gmtoff
    ensures Less(StampText(a, zone), StampText(b, zone)) <==> !(gmtoff == 0 && x % MEGA == 0 && x / MEGA == y / MEGA)
    ensures StampText(a, zone) != StampText(b, zone)
  {
    RenderedInOrder(x, y, gmtoff);
  }

  /** While the offset is the same, later clock values have later stamps except in this one case. */
  lemma StampsInOrder(a: i64, b: i64, zone: int -> int, gmtoff: int)
    requires a < b && ClockOk(a, zone) && ClockOk(b, zone) && zone(a + 1) == zone(b + 1) == gmtoff
    ensures Less(StampText(a, zone), StampText(b, zone)) <==> !Conflict(a, b, gmtoff)
    ensures StampText(a, zone) != StampText(b, zone)
  {
    LocalConflict(a, b, Local(a + 1, zone), Local(b + 1, zone), gmtoff);
    StampsOfLocalTimes(a, b, zone, gmtoff, Local(a + 1, zone), Local(b + 1, zone));
  }

  /** The second that the stamp shows. */
  function WallSecond(now: i64, zone: int -> int): int { Local(now + 1, zone) / MEGA }

  /** When the offset changes, stamps follow the wall clock, unless they show the same second. */
  lemma StampsFollowWallClock(a: i64, b: i64, zone: int -> int)
    requires ClockOk(a, zone) && ClockOk(b, zone) && WallSecond(a, zone) != WallSecond(b, zone)
    ensures Less(StampText(a, zone), StampText(b, zone)) <==> WallSecond(a, zone) < WallSecond(b, zone)
  {
    var x, y := Local(a + 1, zone), Local(b + 1, zone);
    Iso8601.WallClockOrder(x, y, zone(a + 1), zone(b + 1), "", "");
    var s, t := StampText(a, zone), StampText(b, zone);
    assert s + "" == s && t + "" == t;
  }

  // Reading stamps back

  /** A stamp tells its time: local time is the clock value, a microsecond later, plus the offset. */
  lemma StampIsRead(now: i64, zone: int -> int)
    requires ClockOk(now, zone)
    ensures var g := zone(now + 1);
      Read(StampText(now, zone)) ==
      if g > -3600 then Reading(now + 1 + g * 1000000, ShownOffset(g)) else Unreadable
  {
    ReadUndoesRender(Local(now + 1, zone), zone(now + 1));
  }

  /** So does the rendered form of a label of seconds. */
  lemma TaiIsRead(x: u64, zone: int -> int)
    requires MakeDefined(Wrap64(x - EPOCH), 0)
    requires var a := (x - 0x4000_0000_0000_0000 - 10) * 1000000;
      Showable(a, zone) && -Iso8601.DAY < zone(a) < Iso8601.DAY
    ensures var a := (x - 0x4000_0000_0000_0000 - 10) * 1000000;
      Read(ShownTai(x, zone)) ==
      if zone(a) > -3600 then Reading(a + zone(a) * 1000000, ShownOffset(zone(a))) else Unreadable
  {
    var a := (x - 0x4000_0000_0000_0000 - 10) * 1000000;
    UnwrapSeconds(x);
    ReadUndoesRender(Local(a, zone), zone(a));
  }

  // Raw lines

  /** A line of a log file, without its newline. */
  function RawLine(now: i64, continued: bool, body: string): string
  {
    TextOfTain(FromApr(now)) + ([if continued then '\t' else ' '] + body)
  }

  predicate Contains(s: string, p: string)
  {
    |s| >= |p| && (s[..|p|] == p || (s != "" && Contains(s[1..], p)))
  }

  /** What the script makes of a raw line: grep, taiconv and awk. */
  function Seen(raw: string, zone: int -> int): Line
  {
    var shown := ConvertLines(InZone(zone), raw);
    Line(FirstTwoFields(shown), Contains(raw, " information: "), shown)
  }

  /** taiconv replaces the label of a line by its stamp and leaves the rest alone. */
  lemma RawLineShown(now: i64, continued: bool, body: string, zone: int -> int)
    requires ClockOk(now, zone) && '\n' !in body
    ensures ConvertLines(InZone(zone), RawLine(now, continued, body))
         == StampText(now, zone) + ([if continued then '\t' else ' '] + body)
  {
    var rest := [if continued then '\t' else ' '] + body;
    LabelIsCandidate(FromApr(now));
    LinesAtCandidate(InZone(zone), TextOfTain(FromApr(now)), rest);
    LabelShown(now, zone);
    LineLengthOfLast(rest);
    assert rest + "" == rest;
    RestSplit(InZone(zone), rest, "");
  }

  // The stamp is what awk finds in the first two fields

  predicate Visible(s: string) { forall c :: c in s ==> ' ' < c }

  lemma CharIsVisible(v: int)
    requires 39 <= v <= 57
    ensures ' ' < Iso8601.ToChar(v)
  {
  }

  lemma DigitsInRange(n: int)
    requires -100 < n < 100
    ensures -9 <= Quot(n, 10) <= 9 && -9 <= Rem(n, 10) <= 9
  {
  }

  lemma TwoIsVisible(n: int)
    requires -100 < n < 100
    ensures Visible(Iso8601.Two(n))
  {
    DigitsInRange(n);
    CharIsVisible(Quot(n, 10) + 48);
    CharIsVisible(Rem(n, 10) + 48);
  }

  lemma VisibleConcat(s: string, t: string)
    requires Visible(s) && Visible(t)
    ensures Visible(s + t)
  {
  }

  lemma FractionIsVisible(usec: int)
    requires 0 <= usec < MEGA
    ensures Visible(Iso8601.FractionText(usec))
  {
    if usec > 0 {
      Iso8601.SixDigits(usec);
      TwoIsVisible(usec / 10000);
      TwoIsVisible(usec / 100 % 100);
      TwoIsVisible(usec % 100);
    }
  }

  lemma ZoneIsVisible(gmtoff: int)
    requires -Iso8601.DAY < gmtoff < Iso8601.DAY
    ensures Visible(Iso8601.ZoneText(gmtoff))
  {
    TwoIsVisible(Quot(gmtoff, 3600));
    TwoIsVisible(Quot(Rem(gmtoff, 3600), 60));
  }

  lemma YearIsVisible(y: int)
    requires 0 <= y <= 9999
    ensures Visible(Iso8601.YearText(y)) && |Iso8601.YearText(y)| == 4
  {
    Iso8601.FourDigits(y);
    TwoIsVisible(y / 100);
    TwoIsVisible(y % 100);
    VisibleConcat(Iso8601.Two(y / 100), Iso8601.Two(y % 100));
  }

  lemma DateIsVisible(e: Iso8601.ExpTime)
    requires 0 <= e.year + 1900 <= 9999 && 0 <= e.mon < 12 && 1 <= e.mday <= 31
    ensures Visible(Iso8601.DateText(e)) && |Iso8601.DateText(e)| == 10
  {
    YearIsVisible(e.year + 1900);
    TwoIsVisible(e.mon + 1);
    TwoIsVisible(e.mday);
    var y, m, d := Iso8601.YearText(e.year + 1900), Iso8601.Two(e.mon + 1), Iso8601.Two(e.mday);
    VisibleConcat(y, "-");
    VisibleConcat(y + "-", m);
    VisibleConcat(y + "-" + m, "-");
    VisibleConcat(y + "-" + m + "-", d);
  }

  lemma TimeIsVisible(e: Iso8601.ExpTime)
    requires 0 <= e.hour < 24 && 0 <= e.min < 60 && 0 <= e.sec < 60
    requires 0 <= e.usec < MEGA && -Iso8601.DAY < e.gmtoff < Iso8601.DAY
    ensures Visible(Iso8601.TimeText(e) + Iso8601.TailText(e.usec, e.gmtoff))
  {
    TwoIsVisible(e.hour);
    TwoIsVisible(e.min);
    TwoIsVisible(e.sec);
    VisibleConcat(Iso8601.Two(e.hour) + ":" + Iso8601.Two(e.min), ":" + Iso8601.Two(e.sec));
    FractionIsVisible(e.usec);
    ZoneIsVisible(e.gmtoff);
  }

  lemma FirstDigit(n: int)
    requires 0 <= n < 100
    ensures '0' <= Iso8601.Two(n)[0] <= '9'
  {
  }

  lemma DateStartsWithDigit(e: Iso8601.ExpTime)
    requires 0 <= e.year + 1900 <= 9999
    ensures '0' <= Iso8601.DateText(e)[0] <= '9'
  {
    var y := e.year + 1900;
    Iso8601.FourDigits(y);
    FirstDigit(y / 100);
    assert Iso8601.DateText(e)[0] == Iso8601.Two(y / 100)[0];
  }

  lemma IsoWords(e: Iso8601.ExpTime)
    ensures Iso8601.IsoText(e)
         == Iso8601.DateText(e) + " " + (Iso8601.TimeText(e) + Iso8601.TailText(e.usec, e.gmtoff))
  {
  }

  /** A rendered time is two words. */
  lemma RenderedWords(local: nat, gmtoff: int) returns (date: string, time: string)
    requires Iso8601.FourDigitYear(local) && -Iso8601.DAY < gmtoff < Iso8601.DAY
    ensures Iso8601.Render(local, gmtoff) == date + " " + time && Visible(date) && Visible(time) && |date| == 10
    ensures '0' <= date[0] <= '9'
  {
    var e := Iso8601.Explode(local, gmtoff);
    Iso8601.FieldsInRange(local, gmtoff);
    date, time := Iso8601.DateText(e), Iso8601.TimeText(e) + Iso8601.TailText(e.usec, e.gmtoff);
    IsoWords(e);
    DateIsVisible(e);
    TimeIsVisible(e);
    DateStartsWithDigit(e);
  }

  lemma StampWords(now: i64, zone: int -> int) returns (date: string, time: string)
    requires ClockOk(now, zone)
    ensures StampText(now, zone) == date + " " + time && Visible(date) && Visible(time) && |date| == 10
    ensures '0' <= date[0] <= '9'
  {
    date, time := RenderedWords(Local(now + 1, zone), zone(now + 1));
  }

  /** The text that taiconv makes of a name or of a first field. */
  lemma NameShown(now: i64, zone: int -> int)
    requires 0 <= now && now + 1 < TWO63
    ensures ConvertLines(InZone(zone), TextOfTain(FromApr(now))) == StampText(now, zone)
  {
    var t := TextOfTain(FromApr(now));
    LabelIsCandidate(FromApr(now));
    LinesAtCandidate(InZone(zone), t, "");
    LabelShown(now, zone);
    assert t + "" == t && StampText(now, zone) + "" == StampText(now, zone);
  }

  lemma StampIsFirstTwoFields(now: i64, rest: string, zone: int -> int)
    requires ClockOk(now, zone) && rest != "" && Blank(rest[0])
    ensures FirstTwoFields(StampText(now, zone) + rest) == StampText(now, zone)
  {
    var date, time := StampWords(now, zone);
    FirstTwoFieldsAre(date, time, rest);
  }

  /** The stamp that the script compares is the rendered label, and so is its candidate for the cursor. */
  lemma SeenStamp(now: i64, continued: bool, body: string, zone: int -> int)
    requires ClockOk(now, zone) && '\n' !in body
    ensures Seen(RawLine(now, continued, body), zone).stamp == StampText(now, zone)
    ensures ConvertLines(InZone(zone), FirstField(RawLine(now, continued, body))) == StampText(now, zone)
  {
    var rest := [if continued then '\t' else ' '] + body;
    RawLineShown(now, continued, body, zone);
    StampIsFirstTwoFields(now, rest, zone);
    LabelIsCandidate(FromApr(now));
    FirstFieldIs(TextOfTain(FromApr(now)), rest);
    NameShown(now, zone);
  }
}
