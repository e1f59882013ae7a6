/** A log file as the script reads it: grep -v, taiconv, and the shell's split into lines. */
module LogFiles {
  import opened TextLines
  import opened Taiconv
  import opened Stamps
  import opened LogLines

  const INFORMATION: string := " information: "

  predicate Ended(s: string) { s == "" || s[|s| - 1] == '\n' }

  function WithoutNewline(line: string): string
  {
    if line != "" && line[|line| - 1] == '\n' then line[..|line| - 1] else line
  }

  function SplitOff(line: string): seq<string>
  {
    if WithoutNewline(line) == "" then [] else [WithoutNewline(line)]
  }

  /** The lines of a text, as the shell splits it at newlines: empty ones are dropped. */
  function SplitLines(s: string): seq<string>
    decreases |s|
  {
    if s == "" then []
    else
      var n := LineLength(s);
      SplitOff(s[..n]) + SplitLines(s[n..])
  }

  /** echo, for each of these. */
  function Echoed(lines: seq<string>): string
  {
    if lines == [] then "" else lines[0] + "\n" + Echoed(lines[1..])
  }

  /** grep -v "\ information\:\ " */
  function GrepV(s: string): string
    decreases |s|
  {
    if s == "" then ""
    else
      var n := LineLength(s);
      (if Contains(s[..n], INFORMATION) then "" else s[..n]) + GrepV(s[n..])
  }

  function Each<T, U>(f: T -> U, xs: seq<T>): (ys: seq<U>)
    ensures |ys| == |xs|
  {
    seq(|xs|, i requires 0 <= i < |xs| => f(xs[i]))
  }

  function SeenIn(zone: int -> int): string -> Line { (raw: string) => Seen(raw, zone) }

  /** What the script makes of a log file, line by line. */
  function SeenAll(raws: seq<string>, zone: int -> int): seq<Line> { Each(SeenIn(zone), raws) }

  function FileLines(s: string, zone: int -> int): seq<Line> { SeenAll(SplitLines(s), zone) }

  function TextOf(): Line -> string { (l: Line) => l.text }

  function TextsOf(ls: seq<Line>): seq<string> { Each(TextOf(), ls) }

  predicate OneLine(s: string) { s != "" && '\n' !in s }

  predicate OneLineEach(lines: seq<string>) { forall l :: l in lines ==> OneLine(l) }

  // Lines can be taken off one by one

  lemma LineTaken(l: string, rest: string)
    requires '\n' !in l
    ensures LineLength(l + "\n" + rest) == |l| + 1
    ensures (l + "\n" + rest)[..|l| + 1] == l + "\n" && (l + "\n" + rest)[|l| + 1..] == rest
  {
    Associative(l, "\n", rest);
    LineLengthOfRun(l, "\n" + rest);
  }

  lemma SplitLine(l: string, rest: string)
    requires OneLine(l)
    ensures SplitLines(l + "\n" + rest) == [l] + SplitLines(rest)
  {
    LineTaken(l, rest);
    assert WithoutNewline(l + "\n") == l;
  }

  /** Splitting undoes echoing. */
  lemma {:induction false} SplitEchoed(lines: seq<string>)
    requires OneLineEach(lines)
    ensures SplitLines(Echoed(lines)) == lines
  {
    if lines != [] {
      SplitEchoed(lines[1..]);
      SplitLine(lines[0], Echoed(lines[1..]));
      assert lines == [lines[0]] + lines[1..];
    }
  }

  lemma {:induction false} EchoedConcat(k: seq<string>, l: seq<string>)
    ensures Echoed(k + l) == Echoed(k) + Echoed(l)
  {
    if k == [] {
      assert k + l == l;
    } else {
      EchoedConcat(k[1..], l);
      assert (k + l)[1..] == k[1..] + l;
      Associative(k[0] + "\n", Echoed(k[1..]), Echoed(l));
    }
  }

  lemma SplitFirst(line: string, tail: string)
    requires line != "" && LineLength(line + tail) == |line|
    ensures SplitLines(line + tail) == SplitOff(line) + SplitLines(tail)
  {
    assert (line + tail)[..|line|] == line && (line + tail)[|line|..] == tail;
  }

  lemma AssociativeLines(k: seq<string>, l: seq<string>, m: seq<string>)
    ensures k + (l + m) == (k + l) + m
  {
  }

  lemma EndedTail(line: string, tail: string)
    requires Ended(line + tail)
    ensures Ended(tail)
  {
    if tail != "" { assert (line + tail)[|line + tail| - 1] == tail[|tail| - 1]; }
  }

  lemma {:induction false} SplitConcat(s: string, t: string)
    requires Ended(s)
    ensures SplitLines(s + t) == SplitLines(s) + SplitLines(t)
    decreases |s|
  {
    if s == "" {
      assert s + t == t;
    } else {
      var line, tail := FirstLine(s);
      EndedTail(line, tail);
      SplitConcat(tail, t);
      FirstLineStays(s, t);
      Associative(line, tail, t);
      SplitFirst(line, tail);
      SplitFirst(line, tail + t);
      AssociativeLines(SplitOff(line), SplitLines(tail), SplitLines(t));
    }
  }

  /** What follows the end of a line does not change it. */
  lemma {:induction false} FirstLineStays(s: string, t: string)
    requires s != "" && Ended(s)
    ensures LineLength(s + t) == LineLength(s)
  {
    if s[0] != '\n' {
      assert (s + t)[1..] == s[1..] + t;
      FirstLineStays(s[1..], t);
    }
  }

  // grep sees a line as it is without its newline

  lemma {:induction false} ContainsBefore(s: string, p: string)
    requires p != "" && '\n' !in p
    ensures Contains(s + "\n", p) <==> Contains(s, p)
  {
    var t := s + "\n";
    if |s| >= |p| {
      assert t[..|p|] == s[..|p|];
    } else if |t| >= |p| {
      assert t[..|p|][|p| - 1] == '\n';
    }
    if s != "" {
      assert t[1..] == s[1..] + "\n";
      ContainsBefore(s[1..], p);
    } else {
      assert t[1..] == "";
    }
  }

  /** p stands at place i of s. */
  predicate At(s: string, p: string, i: int) { 0 <= i && i + |p| <= |s| && s[i..i + |p|] == p }

  lemma AtBehind(t: string, s: string, p: string, i: int)
    requires At(s, p, i)
    ensures At(t + s, p, |t| + i)
  {
    assert (t + s)[|t| + i..|t| + i + |p|] == s[i..i + |p|];
  }

  lemma AtInRest(s: string, p: string, i: int)
    requires At(s, p, i) && i > 0
    ensures At(s[1..], p, i - 1)
  {
    assert s[1..][i - 1..i - 1 + |p|] == s[i..i + |p|];
  }

  lemma {:induction false} FoundSomewhere(s: string, p: string) returns (i: int)
    requires Contains(s, p)
    ensures At(s, p, i)
  {
    if s[..|p|] == p {
      assert s[0..0 + |p|] == p;
      i := 0;
    } else {
      var j := FoundSomewhere(s[1..], p);
      AtBehind([s[0]], s[1..], p, j);
      assert [s[0]] + s[1..] == s;
      i := j + 1;
    }
  }

  lemma {:induction false} ContainsWhatIsThere(s: string, p: string, i: int)
    requires At(s, p, i)
    ensures Contains(s, p)
  {
    if i == 0 {
      assert s[..|p|] == s[0..0 + |p|];
    } else {
      AtInRest(s, p, i);
      ContainsWhatIsThere(s[1..], p, i - 1);
    }
  }

  /** A text contains another exactly if that stands at some place of it. */
  lemma ContainsSomewhere(s: string, p: string)
    ensures Contains(s, p) <==> exists i :: At(s, p, i)
  {
    if Contains(s, p) { var i := FoundSomewhere(s, p); }
    if exists i :: At(s, p, i) {
      var i :| At(s, p, i);
      ContainsWhatIsThere(s, p, i);
    }
  }

  lemma GrepLine(l: string, rest: string)
    requires OneLine(l)
    ensures GrepV(l + "\n" + rest) == (if Contains(l, INFORMATION) then "" else l + "\n") + GrepV(rest)
  {
    LineTaken(l, rest);
    ContainsBefore(l, INFORMATION);
  }

  // One pass over the file is as good as one for each line

  lemma ConvertFirst(l: string, rest: string, zone: int -> int)
    requires OneLine(l)
    ensures ConvertLines(InZone(zone), l + "\n" + rest)
         == Seen(l, zone).text + "\n" + ConvertLines(InZone(zone), rest)
  {
    EachLineAlone(InZone(zone), l, rest);
  }

  lemma {:induction false} FilterFirst(p: Line -> bool, l: Line, ls: seq<Line>)
    ensures Filter(p, [l] + ls) == (if p(l) then [l] else []) + Filter(p, ls)
  {
    FilterConcat(p, [l], ls);
    FilterOne(p, l);
  }

  /** The texts that the script sees of a file with these lines. */
  function NewsTexts(raws: seq<string>, zone: int -> int): seq<string>
  {
    TextsOf(Filter(News(), SeenAll(raws, zone)))
  }

  lemma EachFirst<T, U>(f: T -> U, x: T, xs: seq<T>)
    ensures Each(f, [x] + xs) == [f(x)] + Each(f, xs)
  {
  }

  lemma EachConcat<T, U>(f: T -> U, xs: seq<T>, ys: seq<T>)
    ensures Each(f, xs + ys) == Each(f, xs) + Each(f, ys)
  {
  }

  lemma EachDrop<T, U>(f: T -> U, xs: seq<T>, d: nat)
    requires d <= |xs|
    ensures Each(f, xs[d..]) == Each(f, xs)[d..]
  {
  }

  lemma TextsOfNewsFirst(l: Line, ls: seq<Line>)
    ensures TextsOf(Filter(News(), [l] + ls)) == (if l.info then [] else [l.text]) + TextsOf(Filter(News(), ls))
  {
    FilterFirst(News(), l, ls);
    if l.info {
      assert [] + Filter(News(), ls) == Filter(News(), ls);
    } else {
      EachFirst(TextOf(), l, Filter(News(), ls));
    }
  }

  lemma NewsTextsFirst(raw: string, rest: seq<string>, zone: int -> int)
    ensures NewsTexts([raw] + rest, zone)
         == (if Seen(raw, zone).info then [] else [Seen(raw, zone).text]) + NewsTexts(rest, zone)
  {
    EachFirst(SeenIn(zone), raw, rest);
    TextsOfNewsFirst(Seen(raw, zone), SeenAll(rest, zone));
  }

  lemma {:induction false} ConvertGrepped(raws: seq<string>, zone: int -> int)
    requires OneLineEach(raws)
    ensures ConvertLines(InZone(zone), GrepV(Echoed(raws))) == Echoed(NewsTexts(raws, zone))
  {
    if raws != [] {
      var l, rest := raws[0], raws[1..];
      assert raws == [l] + rest;
      ConvertGrepped(rest, zone);
      GrepLine(l, Echoed(rest));
      NewsTextsFirst(l, rest, zone);
      if Contains(l, INFORMATION) {
        assert [] + NewsTexts(rest, zone) == NewsTexts(rest, zone);
        assert "" + GrepV(Echoed(rest)) == GrepV(Echoed(rest));
      } else {
        ConvertFirst(l, GrepV(Echoed(rest)), zone);
        EchoedFirst(Seen(l, zone).text, NewsTexts(rest, zone));
      }
    }
  }

  lemma EchoedFirst(l: string, rest: seq<string>)
    ensures Echoed([l] + rest) == l + "\n" + Echoed(rest)
  {
    assert ([l] + rest)[1..] == rest;
  }

  /** grep and taiconv on a whole file, split into lines, give the texts of the lines that are seen. */
  lemma PipelineSeesLines(raws: seq<string>, zone: int -> int)
    requires OneLineEach(raws) && forall raw :: raw in raws ==> OneLine(Seen(raw, zone).text)
    ensures SplitLines(ConvertLines(InZone(zone), GrepV(Echoed(raws)))) == NewsTexts(raws, zone)
    ensures FileLines(Echoed(raws), zone) == SeenAll(raws, zone)
  {
    ConvertGrepped(raws, zone);
    NewsAreSeen(raws, zone);
    SplitEchoed(NewsTexts(raws, zone));
    SplitEchoed(raws);
  }

  lemma NewsAreSeen(raws: seq<string>, zone: int -> int)
    requires forall raw :: raw in raws ==> OneLine(Seen(raw, zone).text)
    ensures OneLineEach(NewsTexts(raws, zone))
  {
    FilterMembers(News(), SeenAll(raws, zone));
    forall t | t in NewsTexts(raws, zone) ensures OneLine(t) {
      var ls := Filter(News(), SeenAll(raws, zone));
      var i :| 0 <= i < |ls| && TextsOf(ls)[i] == t;
      assert ls[i] in SeenAll(raws, zone);
      var j :| 0 <= j < |raws| && SeenAll(raws, zone)[j] == ls[i];
      assert raws[j] in raws && ls[i] == Seen(raws[j], zone);
    }
  }
}
