/** The labels and the first line of srvctl/tests/taiconv.testall, converted in UTC. */
module Fixtures {
  import opened Machine
  import opened TextLines
  import opened Bytes
  import opened Hex
  import opened TaiLabels
  import opened AprTime
  import opened Iso8601
  import opened IsoReading
  import opened Taiconv
  import opened Conversions
  import opened Stamps
  import opened EndToEnd

  const SEC: u64 := 0x4000_0000_42ac_1735
  const NANO: u32 := 0x2a32_48c4

  const TAIN: string := "@4000000042ac17352a3248c4"
  const TAI: string := "@4000000042ac1735"
  const TAIN_SHOWN: string := "2005-06-12 11:06:19.707939Z"
  const TAI_SHOWN: string := "2005-06-12 11:06:19Z"

  // The labels as texts

  lemma ValueSnoc(bs: seq<byte>, b: byte)
    ensures Value(bs + [b]) == 256 * Value(bs) + b
  {
    assert (bs + [b])[..|bs|] == bs;
  }

  lemma ValueOfFour(a: byte, b: byte, c: byte, d: byte)
    ensures Value([a, b, c, d]) == 0x100_0000 * a + 0x1_0000 * b + 0x100 * c + d
  {
    ValueSnoc([], a);
    ValueSnoc([a], b);
    ValueSnoc([a, b], c);
    ValueSnoc([a, b, c], d);
    assert [] + [a] == [a] && [a] + [b] == [a, b] && [a, b] + [c] == [a, b, c] && [a, b, c] + [d] == [a, b, c, d];
  }

  lemma ValueOfEight(bs: seq<byte>, e: byte, f: byte, g: byte, h: byte)
    requires |bs| == 4
    ensures Value(bs + [e, f, g, h]) == 0x1_0000_0000 * Value(bs) + (0x100_0000 * e + 0x1_0000 * f + 0x100 * g + h)
  {
    ValueSnoc(bs, e);
    ValueSnoc(bs + [e], f);
    ValueSnoc(bs + [e, f], g);
    ValueSnoc(bs + [e, f, g], h);
    assert bs + [e] + [f] == bs + [e, f] && bs + [e, f] + [g] == bs + [e, f, g];
    assert bs + [e, f, g] + [h] == bs + [e, f, g, h];
  }

  lemma PairsOfFour(a: byte, b: byte, c: byte, d: byte)
    ensures HexPairs([a, b, c, d]) == Pair(a) + Pair(b) + Pair(c) + Pair(d)
  {
    HexPairsSnoc([], a);
    HexPairsSnoc([a], b);
    HexPairsSnoc([a, b], c);
    HexPairsSnoc([a, b, c], d);
    assert [] + [a] == [a] && [a] + [b] == [a, b] && [a, b] + [c] == [a, b, c] && [a, b, c] + [d] == [a, b, c, d];
    assert HexPairs([]) + Pair(a) == Pair(a);
  }

  lemma HighText()
    ensures HexPairs([0x40, 0, 0, 0]) == "40000000"
  {
    PairsOfFour(0x40, 0, 0, 0);
    assert Pair(0x40) == "40" && Pair(0) == "00";
  }

  lemma LowText()
    ensures HexPairs([0x42, 0xac, 0x17, 0x35]) == "42ac1735"
  {
    PairsOfFour(0x42, 0xac, 0x17, 0x35);
    assert Pair(0x42) == "42" && Pair(0xac) == "ac" && Pair(0x17) == "17" && Pair(0x35) == "35";
  }

  lemma NanoText()
    ensures HexPairs([0x2a, 0x32, 0x48, 0xc4]) == "2a3248c4"
  {
    PairsOfFour(0x2a, 0x32, 0x48, 0xc4);
    assert Pair(0x2a) == "2a" && Pair(0x32) == "32" && Pair(0x48) == "48" && Pair(0xc4) == "c4";
  }

  lemma SecBytes()
    ensures BytesOf(SEC, 8) == [0x40, 0, 0, 0] + [0x42, 0xac, 0x17, 0x35]
  {
    var bs: seq<byte> := [0x40, 0, 0, 0] + [0x42, 0xac, 0x17, 0x35];
    ValueOfFour(0x40, 0, 0, 0);
    ValueOfEight([0x40, 0, 0, 0], 0x42, 0xac, 0x17, 0x35);
    BytesOfValue(bs);
  }

  lemma NanoBytes()
    ensures BytesOf(NANO, 4) == [0x2a, 0x32, 0x48, 0xc4]
  {
    ValueOfFour(0x2a, 0x32, 0x48, 0xc4);
    BytesOfValue([0x2a, 0x32, 0x48, 0xc4]);
  }

  lemma TaiTextOf(x: u64, hi: seq<byte>, lo: seq<byte>)
    requires BytesOf(x, 8) == hi + lo
    ensures TextOfTai(x) == "@" + (HexPairs(hi) + HexPairs(lo))
  {
    HexPairsConcat(hi, lo);
  }

  lemma TainTextOf(l: Label, hi: seq<byte>, lo: seq<byte>, n: seq<byte>)
    requires BytesOf(l.sec, 8) == hi + lo && BytesOf(l.nano, 4) == n
    ensures TextOfTain(l) == "@" + (HexPairs(hi) + HexPairs(lo) + HexPairs(n))
  {
    HexPairsConcat(hi, lo);
    HexPairsConcat(hi + lo, n);
  }

  lemma Spelled()
    ensures "@" + ("40000000" + "42ac1735") == TAI
    ensures "@" + ("40000000" + "42ac1735" + "2a3248c4") == TAIN
    ensures "@" + ("40000000" + "0000000a" + "000001f4") == "@400000000000000a000001f4"
  {
  }

  lemma TaiText()
    ensures TextOfTai(SEC) == TAI
  {
    SecBytes();
    TaiTextOf(SEC, [0x40, 0, 0, 0], [0x42, 0xac, 0x17, 0x35]);
    HighText();
    LowText();
    Spelled();
  }

  lemma TainText()
    ensures TextOfTain(Label(SEC, NANO)) == TAIN
  {
    SecBytes();
    NanoBytes();
    TainTextOf(Label(SEC, NANO), [0x40, 0, 0, 0], [0x42, 0xac, 0x17, 0x35], [0x2a, 0x32, 0x48, 0xc4]);
    HighText();
    LowText();
    NanoText();
    Spelled();
  }

  // The start of 1970

  lemma EpochBytes()
    ensures BytesOf(0x4000_0000_0000_000a, 8) == [0x40, 0, 0, 0] + [0, 0, 0, 10]
    ensures BytesOf(500, 4) == [0, 0, 1, 0xf4]
  {
    ValueOfFour(0x40, 0, 0, 0);
    ValueOfEight([0x40, 0, 0, 0], 0, 0, 0, 10);
    BytesOfValue([0x40, 0, 0, 0] + [0, 0, 0, 10]);
    ValueOfFour(0, 0, 1, 0xf4);
    BytesOfValue([0, 0, 1, 0xf4]);
  }

  lemma EpochTexts()
    ensures HexPairs([0, 0, 0, 10]) == "0000000a" && HexPairs([0, 0, 1, 0xf4]) == "000001f4"
  {
    PairsOfFour(0, 0, 0, 10);
    PairsOfFour(0, 0, 1, 0xf4);
    assert Pair(0) == "00" && Pair(10) == "0a" && Pair(1) == "01" && Pair(0xf4) == "f4";
  }

  lemma EpochIs()
    ensures FromApr(0) == Label(0x4000_0000_0000_000a, 500)
  {
  }

  /** The label that tainlog prints for the clock value 0. */
  lemma EpochLabel()
    ensures TextOfTain(FromApr(0)) == "@400000000000000a000001f4"
  {
    EpochIs();
    EpochBytes();
    TainTextOf(Label(0x4000_0000_0000_000a, 500), [0x40, 0, 0, 0], [0, 0, 0, 10], [0, 0, 1, 0xf4]);
    HighText();
    EpochTexts();
    Spelled();
  }

  // The times as texts

  lemma OneYearOff(y: int, d: nat)
    requires d >= YearDays(y)
    ensures DateOf(y, d) == DateOf(y + 1, d - YearDays(y))
  {
  }

  /** From the start of a later year on. */
  lemma {:induction false} DateFromYear(y: int, d: nat)
    requires y >= 1970 && YearStart(y) <= d
    ensures DateOf(1970, d) == DateOf(y, d - YearStart(y))
    decreases y
  {
    if y > 1970 {
      NextYear(y - 1);
      DateFromYear(y - 1, d);
      OneYearOff(y - 1, d - YearStart(y - 1));
    } else {
      assert YearStart(1970) == 0;
    }
  }

  lemma DayInMay()
    ensures DaysFrom(2005, 0) == 365
    ensures 72 < DaysFrom(2005, 3) && MonthAndDay(2005, 0, 162) == MonthAndDay(2005, 3, 72)
  {
    YearIsItsMonths(2005);
    var a := BehindMonth(2005, 0, 162);
    var b := BehindMonth(2005, 1, a);
    var c := BehindMonth(2005, 2, b);
  }

  lemma DayInJune()
    requires 72 < DaysFrom(2005, 3)
    ensures MonthAndDay(2005, 3, 72) == Date(2005, 5, 12)
  {
    var d := BehindMonth(2005, 3, 72);
    var e := BehindMonth(2005, 4, d);
    InMonth(2005, 5, e);
  }

  lemma FixtureDay()
    ensures DateOf(1970, 12946) == Date(2005, 5, 12)
  {
    assert YearStart(2005) == 12784;
    DateFromYear(2005, 12946);
    DayInMay();
    DateInYear(2005, 162);
    DayInJune();
  }

  lemma SecondParts(usec: int)
    requires 0 <= usec < MEGA
    ensures (1118574379 * MEGA + usec) / MEGA == 1118574379 && (1118574379 * MEGA + usec) % MEGA == usec
    ensures 1118574379 / DAY == 12946 && 1118574379 % DAY / 3600 == 11
    ensures 1118574379 % 3600 / 60 == 6 && 1118574379 % 60 == 19
  {
  }

  lemma FixtureFields(usec: int)
    requires 0 <= usec < MEGA
    ensures FourDigitYear(1118574379 * MEGA + usec)
    ensures Explode(1118574379 * MEGA + usec, 0) == ExpTime(105, 5, 12, 11, 6, 19, usec, 0)
  {
    SecondParts(usec);
    FixtureDay();
  }

  lemma YearShown()
    ensures YearText(2005) == "2005"
  {
    FourDigits(2005);
    CenturyShown();
  }

  lemma CenturyShown()
    ensures Two(2005 / 100) == "20" && Two(2005 % 100) == "05"
  {
    TwoOfDigits(20);
    TwoOfDigits(5);
  }

  lemma MonthAndDayShown()
    ensures Two(6) == "06" && Two(12) == "12"
  {
  }

  lemma DateShown(e: ExpTime)
    requires e.year == 105 && e.mon == 5 && e.mday == 12
    ensures DateText(e) == "2005-06-12"
  {
    YearShown();
    MonthAndDayShown();
    DateWritten();
  }

  lemma DateWritten()
    ensures "2005" + "-" + "06" + "-" + "12" == "2005-06-12"
  {
  }

  lemma TimeShown()
    ensures TimeText(ExpTime(105, 5, 12, 11, 6, 19, 707939, 0)) == "11:06:19"
    ensures TimeText(ExpTime(105, 5, 12, 11, 6, 19, 0, 0)) == "11:06:19"
  {
    assert Two(11) == "11" && Two(6) == "06" && Two(19) == "19";
    assert "11" + ":" + "06" + ":" + "19" == "11:06:19";
  }

  lemma FractionShown()
    ensures FractionText(707939) == ".707939"
  {
    ThreeTwos(707939, 70, 79, 39);
    FractionPairs();
    FractionWritten();
  }

  lemma FractionPairs()
    ensures Two(70) == "70" && Two(79) == "79" && Two(39) == "39"
  {
  }

  lemma FractionWritten()
    ensures "." + ("70" + ("79" + "39")) == ".707939"
  {
  }

  lemma Written()
    ensures "2005-06-12" + " " + "11:06:19" + ".707939" + "Z" == TAIN_SHOWN
    ensures "2005-06-12" + " " + "11:06:19" + "" + "Z" == TAI_SHOWN
  {
  }

  lemma FixtureTexts()
    ensures IsoText(ExpTime(105, 5, 12, 11, 6, 19, 707939, 0)) == TAIN_SHOWN
    ensures IsoText(ExpTime(105, 5, 12, 11, 6, 19, 0, 0)) == TAI_SHOWN
  {
    DateShown(ExpTime(105, 5, 12, 11, 6, 19, 707939, 0));
    DateShown(ExpTime(105, 5, 12, 11, 6, 19, 0, 0));
    TimeShown();
    FractionShown();
    Written();
  }

  lemma TainInUtc()
    ensures ToAprDefined(Label(SEC, NANO)) && ToApr(Label(SEC, NANO)) == 1118574379707939
  {
  }

  lemma TaiInUtc()
    ensures MakeDefined(Wrap64(SEC - EPOCH), 0) && SecondsToApr(SEC) == 1118574379 * MEGA + 0
  {
  }

  lemma ShownInUtc(usec: int)
    requires 0 <= usec < MEGA
    ensures ShownTime(1118574379 * MEGA + usec, Utc()) == IsoText(ExpTime(105, 5, 12, 11, 6, 19, usec, 0))
  {
    FixtureFields(usec);
  }

  lemma TainShown()
    ensures InZone(Utc()).tain(Label(SEC, NANO)) == TAIN_SHOWN
  {
    TainInUtc();
    ZoneShowsTain(Label(SEC, NANO), Utc());
    TainShownAt(Label(SEC, NANO), 1118574379 * MEGA + 707939, Utc());
    ShownInUtc(707939);
    FixtureTexts();
  }

  lemma ZoneShowsTai(x: u64, a: int, zone: int -> int)
    requires MakeDefined(Wrap64(x - EPOCH), 0) && SecondsToApr(x) == a
    ensures InZone(zone).tai(x) == ShownTime(a, zone)
  {
  }

  lemma TaiShown()
    ensures InZone(Utc()).tai(SEC) == TAI_SHOWN
  {
    TaiInUtc();
    ZoneShowsTai(SEC, 1118574379 * MEGA + 0, Utc());
    ShownInUtc(0);
    FixtureTexts();
  }

  // Lines

  lemma OneMark(r: Renderer, rest: string)
    requires rest == "" || !IsHexDigit(rest[0])
    ensures ConvertAll(r, "@" + rest) == "@" + ConvertAll(r, rest)
  {
    AllAtShort(r, "", rest);
    assert "@" + "" == "@";
  }

  predicate Marks(s: string) { forall c :: c in s ==> c == '@' }

  lemma FirstMark(marks: string, rest: string)
    requires Marks(marks) && marks != "" && (rest == "" || !IsHexDigit(rest[0]))
    ensures Marks(marks[1..]) && marks == "@" + marks[1..]
    ensures marks[1..] + rest == "" || !IsHexDigit((marks[1..] + rest)[0])
  {
    assert marks[0] in marks && forall c :: c in marks[1..] ==> c in marks;
    if |marks| > 1 { assert (marks[1..] + rest)[0] == marks[1] && marks[1] in marks; }
  }

  /** A run of single '@'. */
  lemma {:induction false} AllAtMarks(r: Renderer, marks: string, rest: string)
    requires Marks(marks) && (rest == "" || !IsHexDigit(rest[0]))
    ensures ConvertAll(r, marks + rest) == marks + ConvertAll(r, rest)
  {
    if marks == "" {
      assert marks + rest == rest && marks + ConvertAll(r, rest) == ConvertAll(r, rest);
    } else {
      FirstMark(marks, rest);
      AllAtMarks(r, marks[1..], rest);
      OneMark(r, marks[1..] + rest);
      Associative("@", marks[1..], rest);
      Associative("@", marks[1..], ConvertAll(r, rest));
    }
  }

  /** A label, digits after it, a shorter label with digits after it, marks, and a label again. */
  lemma LineShown(r: Renderer, digits: string, more: string, marks: string)
    requires HexDigits(digits) && HexDigits(more) && |more| < 8 && Marks(marks) && marks != ""
    ensures ConvertAll(r, TAIN + (digits + (TAI + more + (marks + TAIN))))
         == r.tain(Label(SEC, NANO)) + (digits + (r.tai(SEC) + more + (marks + r.tain(Label(SEC, NANO)))))
  {
    TainText();
    TaiText();
    assert marks[0] in marks && (marks + TAIN)[0] == marks[0];
    assert '@' !in digits;
    AllAtTain(r, Label(SEC, NANO), digits + (TAI + more + (marks + TAIN)));
    AllAtText(r, digits, TAI + more + (marks + TAIN));
    AllAtTai(r, SEC, more, marks + TAIN);
    AllAtMarks(r, marks, TAIN);
    LastLabel(r);
  }

  lemma LastLabel(r: Renderer)
    ensures ConvertAll(r, TAIN) == r.tain(Label(SEC, NANO))
  {
    TainText();
    AllAtTain(r, Label(SEC, NANO), "");
    assert TAIN + "" == TAIN && r.tain(Label(SEC, NANO)) + "" == r.tain(Label(SEC, NANO));
    assert ConvertAll(r, "") == "";
  }

  /** Line 1 of the file, */
  const LINE: string :=
    "@4000000042ac17352a3248c4" + ("4000000042ac17352a3248c4" + ("@4000000042ac1735" + "2a3248" + ("@@@@@@@@"
    + "@4000000042ac17352a3248c4")))

  /** and of srvctl/tests/taiconv.testall.results. */
  const RESULT: string :=
    "2005-06-12 11:06:19.707939Z" + ("4000000042ac17352a3248c4" + ("2005-06-12 11:06:19Z" + "2a3248" + ("@@@@@@@@"
    + "2005-06-12 11:06:19.707939Z")))

  lemma FixtureLine()
    ensures ConvertAll(InZone(Utc()), LINE) == RESULT
  {
    LineShown(InZone(Utc()), "4000000042ac17352a3248c4", "2a3248", "@@@@@@@@");
    TainShown();
    TaiShown();
  }

  /** In line mode only the label at the beginning counts. */
  lemma FixtureLineAlone(rest: string, tail: string)
    requires '\n' !in rest
    ensures ConvertLines(InZone(Utc()), TAIN + rest + "\n" + tail)
         == TAIN_SHOWN + rest + "\n" + ConvertLines(InZone(Utc()), tail)
  {
    TainText();
    TainShown();
    LinesAtTain(InZone(Utc()), Label(SEC, NANO), rest, tail);
  }
}
