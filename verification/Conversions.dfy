/** What taiconv shows for printed labels, and for what only looks like one. */
module Conversions {
  import opened TextLines
  import opened Machine
  import opened Bytes
  import opened Hex
  import opened TaiLabels
  import opened Taiconv

  predicate HexDigits(u: string) { forall c :: c in u ==> IsHexDigit(c) }

  // One candidate

  /** A label with nanoseconds is shown as its time, and what follows it is kept. */
  lemma TainIsShown(r: Renderer, l: Label, u: string)
    requires Valid(l)
    ensures Shown(r, TextOfTain(l) + u) == r.tain(l) + u
  {
    ParserUndoesPrinter(l, u);
    assert (TextOfTain(l) + u)[25..] == u;
  }

  /** A label of seconds is shown as its time, and up to seven characters behind it are kept. */
  lemma TaiIsShown(r: Renderer, x: u64, u: string)
    requires x <= TAI_MAX_SEC && |u| < 8
    ensures Shown(r, TextOfTai(x) + u) == r.tai(x) + u
  {
    ParserUndoesPrinterTai(x, u);
    assert (TextOfTai(x) + u)[17..] == u;
  }

  /** What is too short for a label is left alone, */
  lemma ShortIsLeft(r: Renderer, t: string)
    requires |t| < 17
    ensures Shown(r, t) == t
  {
  }

  /** and so is a label that is not acceptable, in the longest format that fits. */
  lemma UnacceptableIsLeft(r: Renderer, t: string)
    requires |t| >= 25 ==> ParsedTain(t).None?
    requires 17 <= |t| < 25 ==> ParsedTai(t).None?
    ensures Shown(r, t) == t
  {
  }

  lemma BadTainIsLeft(r: Renderer, l: Label, u: string)
    requires !Valid(l)
    ensures Shown(r, TextOfTain(l) + u) == TextOfTain(l) + u
  {
    ParserUndoesPrinter(l, u);
  }

  lemma BadTaiIsLeft(r: Renderer, x: u64, u: string)
    requires x > TAI_MAX_SEC && |u| < 8
    ensures Shown(r, TextOfTai(x) + u) == TextOfTai(x) + u
  {
    ParserUndoesPrinterTai(x, u);
  }

  // Candidates in a text

  lemma TainIsCandidate(l: Label, rest: string)
    ensures Candidate(TextOfTain(l)) && Ends(TextOfTain(l), rest)
  {
    HexTextShape(PackedTain(l));
  }

  lemma TaiIsCandidate(x: u64, u: string)
    requires |u| < 8 && HexDigits(u)
    ensures Candidate(TextOfTai(x) + u)
  {
    var t := TextOfTai(x) + u;
    HexTextShape(BytesOf(x, 8));
    forall i | 1 <= i < |t| ensures IsHexDigit(t[i]) {
      if i >= 17 { assert t[i] == u[i - 17] && u[i - 17] in u; }
    }
  }

  /** Wherever labels are converted: what is shown for a candidate, and then the rest. */
  lemma AllAtTain(r: Renderer, l: Label, rest: string)
    requires Valid(l)
    ensures ConvertAll(r, TextOfTain(l) + rest) == r.tain(l) + ConvertAll(r, rest)
  {
    TainIsCandidate(l, rest);
    TainIsShown(r, l, "");
    assert TextOfTain(l) + "" == TextOfTain(l) && r.tain(l) + "" == r.tain(l);
    AllAtCandidate(r, TextOfTain(l), rest);
  }

  lemma AllAtTai(r: Renderer, x: u64, u: string, rest: string)
    requires x <= TAI_MAX_SEC && |u| < 8 && HexDigits(u) && (rest == "" || !IsHexDigit(rest[0]))
    ensures ConvertAll(r, TextOfTai(x) + u + rest) == r.tai(x) + u + ConvertAll(r, rest)
  {
    TaiIsCandidate(x, u);
    TaiIsShown(r, x, u);
    AllAtCandidate(r, TextOfTai(x) + u, rest);
  }

  /** '@' and too few digits. */
  lemma AllAtShort(r: Renderer, u: string, rest: string)
    requires |u| < 16 && HexDigits(u) && (rest == "" || !IsHexDigit(rest[0]))
    ensures ConvertAll(r, "@" + u + rest) == "@" + u + ConvertAll(r, rest)
  {
    var t := "@" + u;
    forall i | 1 <= i < |t| ensures IsHexDigit(t[i]) { assert t[i] == u[i - 1] && u[i - 1] in u; }
    ShortIsLeft(r, t);
    AllAtCandidate(r, t, rest);
  }

  lemma AllAtBadTain(r: Renderer, l: Label, rest: string)
    requires !Valid(l)
    ensures ConvertAll(r, TextOfTain(l) + rest) == TextOfTain(l) + ConvertAll(r, rest)
  {
    TainIsCandidate(l, rest);
    BadTainIsLeft(r, l, "");
    assert TextOfTain(l) + "" == TextOfTain(l);
    AllAtCandidate(r, TextOfTain(l), rest);
  }

  lemma AllAtBadTai(r: Renderer, x: u64, u: string, rest: string)
    requires x > TAI_MAX_SEC && |u| < 8 && HexDigits(u) && (rest == "" || !IsHexDigit(rest[0]))
    ensures ConvertAll(r, TextOfTai(x) + u + rest) == TextOfTai(x) + u + ConvertAll(r, rest)
  {
    TaiIsCandidate(x, u);
    BadTaiIsLeft(r, x, u);
    AllAtCandidate(r, TextOfTai(x) + u, rest);
  }

  /** Text without '@' is left alone. */
  lemma {:induction false} AllAtText(r: Renderer, t: string, rest: string)
    requires '@' !in t
    ensures ConvertAll(r, t + rest) == t + ConvertAll(r, rest)
  {
    if t == "" {
      assert t + rest == rest && t + ConvertAll(r, rest) == ConvertAll(r, rest);
    } else {
      assert t[0] in t && forall c :: c in t[1..] ==> c in t;
      AllAtText(r, t[1..], rest);
      AllAtOther(r, t[0], t[1..] + rest);
      assert [t[0]] + t[1..] == t;
      Associative([t[0]], t[1..], rest);
      Associative([t[0]], t[1..], ConvertAll(r, rest));
    }
  }

  // Lines

  lemma LineOff(r: Renderer, line: string, tail: string)
    requires '\n' !in line
    ensures ConvertLines(r, line + "\n" + tail) == ConvertLine(r, line + "\n") + ConvertLines(r, tail)
  {
    Associative(line, "\n", tail);
    LineLengthOfRun(line, "\n" + tail);
    LinesSplit(r, line + "\n", tail);
  }

  /** At the beginnings of lines only: the label there, and nothing else of its line. */
  lemma LinesAtTain(r: Renderer, l: Label, line: string, tail: string)
    requires Valid(l) && '\n' !in line
    ensures ConvertLines(r, TextOfTain(l) + line + "\n" + tail) == r.tain(l) + line + "\n" + ConvertLines(r, tail)
  {
    var t := TextOfTain(l);
    TainIsCandidate(l, line + "\n");
    assert '\n' !in t;
    TainIsShown(r, l, "");
    assert t + "" == t && r.tain(l) + "" == r.tain(l);
    LineAtCandidate(r, t, line + "\n");
    LineOff(r, t + line, tail);
    Associative(t, line, "\n");
    Associative(r.tain(l), line, "\n");
  }

  lemma LinesAtTai(r: Renderer, x: u64, u: string, line: string, tail: string)
    requires x <= TAI_MAX_SEC && |u| < 8 && HexDigits(u) && '\n' !in line && (line == "" || !IsHexDigit(line[0]))
    ensures ConvertLines(r, TextOfTai(x) + u + line + "\n" + tail)
         == r.tai(x) + u + line + "\n" + ConvertLines(r, tail)
  {
    var t := TextOfTai(x) + u;
    TaiIsCandidate(x, u);
    assert '\n' !in t;
    TaiIsShown(r, x, u);
    LineAtCandidate(r, t, line + "\n");
    LineOff(r, t + line, tail);
    Associative(t, line, "\n");
    Associative(r.tai(x) + u, line, "\n");
  }

  /** A line that does not begin with '@' is left alone, whatever labels it holds, */
  lemma LinesAtText(r: Renderer, line: string, tail: string)
    requires '\n' !in line && (line == "" || line[0] != '@')
    ensures ConvertLines(r, line + "\n" + tail) == line + "\n" + ConvertLines(r, tail)
  {
    LineOff(r, line, tail);
  }

  /** and so is one that begins with '@' and too few digits. */
  lemma LinesAtShort(r: Renderer, u: string, line: string, tail: string)
    requires |u| < 16 && HexDigits(u) && '\n' !in line && (line == "" || !IsHexDigit(line[0]))
    ensures ConvertLines(r, "@" + u + line + "\n" + tail) == "@" + u + line + "\n" + ConvertLines(r, tail)
  {
    var t := "@" + u;
    forall i | 1 <= i < |t| ensures IsHexDigit(t[i]) { assert t[i] == u[i - 1] && u[i - 1] in u; }
    assert '\n' !in t;
    ShortIsLeft(r, t);
    LineAtCandidate(r, t, line + "\n");
    LineOff(r, t + line, tail);
    Associative(t, line, "\n");
  }

  lemma LinesAtBadTain(r: Renderer, l: Label, line: string, tail: string)
    requires !Valid(l) && '\n' !in line
    ensures ConvertLines(r, TextOfTain(l) + line + "\n" + tail) == TextOfTain(l) + line + "\n" + ConvertLines(r, tail)
  {
    var t := TextOfTain(l);
    TainIsCandidate(l, line + "\n");
    assert '\n' !in t;
    BadTainIsLeft(r, l, "");
    assert t + "" == t;
    LineAtCandidate(r, t, line + "\n");
    LineOff(r, t + line, tail);
    Associative(t, line, "\n");
  }

  lemma LinesAtBadTai(r: Renderer, x: u64, u: string, line: string, tail: string)
    requires x > TAI_MAX_SEC && |u| < 8 && HexDigits(u) && '\n' !in line && (line == "" || !IsHexDigit(line[0]))
    ensures ConvertLines(r, TextOfTai(x) + u + line + "\n" + tail)
         == TextOfTai(x) + u + line + "\n" + ConvertLines(r, tail)
  {
    var t := TextOfTai(x) + u;
    TaiIsCandidate(x, u);
    assert '\n' !in t;
    BadTaiIsLeft(r, x, u);
    LineAtCandidate(r, t, line + "\n");
    LineOff(r, t + line, tail);
    Associative(t, line, "\n");
  }
}
