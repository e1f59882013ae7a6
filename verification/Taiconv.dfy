/** taiconv: replaces labels in a text by rendered times. Two readers, one for streams and one for mapped
    files, each in two modes; all are proved against the same two functions. */
module Taiconv {
  import opened Machine
  import opened TextLines
  import opened Hex
  import opened TaiLabels

  /** How acceptable labels are rendered: the zone is chosen on the command line. */
  datatype Renderer = Renderer(tain: Label -> string, tai: u64 -> string)

  /** A converted label and the characters after it, or nothing. */
  datatype Conversion = Converted(result: string, remain: string) | NotConverted

  // Specification

  /** libbase and convert_buffer: the longer format is tried first, and alone, when there is room for it. */
  function ConvertText(r: Renderer, t: string): Conversion
  {
    if |t| >= TAIN_FORMAT then
      match ParsedTain(t)
      case Some(l) => Converted(r.tain(l), t[TAIN_FORMAT..])
      case None => NotConverted
    else if |t| >= TAI_FORMAT then
      match ParsedTai(t)
      case Some(x) => Converted(r.tai(x), t[TAI_FORMAT..])
      case None => NotConverted
    else NotConverted
  }

  /** What is shown for a candidate: the conversion, or the candidate itself. */
  function Shown(r: Renderer, t: string): string
  {
    match ConvertText(r, t)
    case Converted(result, remain) => result + remain
    case NotConverted => t
  }

  /** The number of leading hex digits, at most max. */
  function HexRun(s: string, max: nat): (n: nat)
    ensures n <= max && n <= |s|
  {
    if max == 0 || s == "" || !IsHexDigit(s[0]) then 0 else 1 + HexRun(s[1..], max - 1)
  }

  /** The length of the candidate label at the head of a text that starts with '@'. */
  function CandidateLength(s: string): (n: nat)
    requires s != ""
    ensures 1 <= n <= |s| && n <= TAIN_FORMAT
  {
    1 + HexRun(s[1..], TAIN_FORMAT - 1)
  }

  /** Every candidate label in the text is converted. */
  function ConvertAll(r: Renderer, s: string): string
    decreases |s|
  {
    if s == "" then ""
    else if s[0] == '@' then
      var n := CandidateLength(s);
      Shown(r, s[..n]) + ConvertAll(r, s[n..])
    else [s[0]] + ConvertAll(r, s[1..])
  }

  function ConvertLine(r: Renderer, l: string): string
    requires l != ""
  {
    if l[0] == '@' then
      var n := CandidateLength(l);
      Shown(r, l[..n]) + l[n..]
    else l
  }

  /** The candidate at the beginning of each line is converted. */
  function ConvertLines(r: Renderer, s: string): string
    decreases |s|
  {
    if s == "" then ""
    else
      var n := LineLength(s);
      ConvertLine(r, s[..n]) + ConvertLines(r, s[n..])
  }

  /** The text from the middle of a line on. */
  function ConvertRest(r: Renderer, s: string): string
  {
    if s == "" then ""
    else
      var n := LineLength(s);
      s[..n] + ConvertLines(r, s[n..])
  }

  // How the specification unfolds along a text

  /** '@' and hex digits, no longer than the longest label. */
  ghost predicate Candidate(t: string)
  {
    0 < |t| <= TAIN_FORMAT && t[0] == '@' && forall i :: 1 <= i < |t| ==> IsHexDigit(t[i])
  }

  /** The candidate t cannot be continued by what follows it. */
  predicate Ends(t: string, rest: string)
  {
    rest == "" || !IsHexDigit(rest[0]) || |t| == TAIN_FORMAT
  }

  lemma {:induction false} HexRunOfDigits(ds: string, rest: string, max: nat)
    requires |ds| <= max && (forall i :: 0 <= i < |ds| ==> IsHexDigit(ds[i]))
    requires rest == "" || !IsHexDigit(rest[0]) || |ds| == max
    ensures HexRun(ds + rest, max) == |ds|
  {
    if ds == "" {
      assert ds + rest == rest;
    } else {
      assert (ds + rest)[1..] == ds[1..] + rest;
      HexRunOfDigits(ds[1..], rest, max - 1);
    }
  }

  lemma CandidateFound(t: string, rest: string)
    requires Candidate(t) && Ends(t, rest)
    ensures CandidateLength(t + rest) == |t|
  {
    assert (t + rest)[1..] == t[1..] + rest;
    HexRunOfDigits(t[1..], rest, TAIN_FORMAT - 1);
  }

  lemma AllAtCandidate(r: Renderer, t: string, rest: string)
    requires Candidate(t) && Ends(t, rest)
    ensures ConvertAll(r, t + rest) == Shown(r, t) + ConvertAll(r, rest)
  {
    CandidateFound(t, rest);
    assert (t + rest)[..|t|] == t && (t + rest)[|t|..] == rest;
  }

  lemma AllAtOther(r: Renderer, c: char, rest: string)
    requires c != '@'
    ensures ConvertAll(r, [c] + rest) == [c] + ConvertAll(r, rest)
  {
    assert ([c] + rest)[1..] == rest;
  }

  /** The first line can be taken off, */
  lemma LinesSplit(r: Renderer, line: string, tail: string)
    requires line != "" && LineLength(line + tail) == |line|
    ensures ConvertLines(r, line + tail) == ConvertLine(r, line) + ConvertLines(r, tail)
  {
    assert (line + tail)[..|line|] == line && (line + tail)[|line|..] == tail;
  }

  /** also when its beginning is already gone. */
  lemma RestSplit(r: Renderer, line: string, tail: string)
    requires line != "" && LineLength(line + tail) == |line|
    ensures ConvertRest(r, line + tail) == line + ConvertLines(r, tail)
  {
    assert (line + tail)[..|line|] == line && (line + tail)[|line|..] == tail;
  }

  lemma LineAtCandidate(r: Renderer, t: string, rest: string)
    requires Candidate(t) && Ends(t, rest)
    ensures ConvertLine(r, t + rest) == Shown(r, t) + rest
  {
    CandidateFound(t, rest);
    assert (t + rest)[..|t|] == t && (t + rest)[|t|..] == rest;
  }

  lemma LinesAtCandidate(r: Renderer, t: string, rest: string)
    requires Candidate(t) && Ends(t, rest)
    ensures ConvertLines(r, t + rest) == Shown(r, t) + ConvertRest(r, rest)
  {
    assert '\n' !in t;
    if rest == "" {
      LineLengthOfLast(t);
      LineAtCandidate(r, t, "");
      assert t + rest == t + "" == t;
      LinesSplit(r, t, "");
    } else {
      var line, tail := FirstLine(rest);
      LineLengthOfRun(t, rest);
      Associative(t, line, tail);
      LineAtCandidate(r, t, line);
      LinesSplit(r, t + line, tail);
      RestSplit(r, line, tail);
      Associative(Shown(r, t), line, ConvertLines(r, tail));
    }
  }

  lemma RestStep(r: Renderer, c: char, rest: string)
    ensures ConvertRest(r, [c] + rest) == [c] + if c == '\n' then ConvertLines(r, rest) else ConvertRest(r, rest)
  {
    if c == '\n' || rest == "" {
      RestSplit(r, [c], rest);
    } else {
      var line, tail := FirstLine(rest);
      LineLengthOfRun([c], rest);
      Associative([c], line, tail);
      RestSplit(r, [c] + line, tail);
      RestSplit(r, line, tail);
      Associative([c], line, ConvertLines(r, tail));
    }
  }

  lemma LinesAtOther(r: Renderer, s: string)
    requires s == "" || s[0] != '@'
    ensures ConvertLines(r, s) == ConvertRest(r, s)
  {
  }

  lemma {:induction false} HexRunBefore(s: string, c: char, max: nat)
    requires !IsHexDigit(c)
    ensures HexRun(s + [c], max) == HexRun(s, max)
  {
    if s != "" && max > 0 {
      assert (s + [c])[1..] == s[1..] + [c];
      HexRunBefore(s[1..], c, max - 1);
    }
  }

  lemma ConvertLineBefore(r: Renderer, l: string, c: char)
    requires l != "" && !IsHexDigit(c)
    ensures ConvertLine(r, l + [c]) == ConvertLine(r, l) + [c]
  {
    if l[0] == '@' {
      var n := CandidateLength(l);
      assert (l + [c])[1..] == l[1..] + [c];
      HexRunBefore(l[1..], c, TAIN_FORMAT - 1);
      assert (l + [c])[..n] == l[..n] && (l + [c])[n..] == l[n..] + [c];
      Associative(Shown(r, l[..n]), l[n..], [c]);
    }
  }

  /** Converting a text of several lines converts each line on its own. */
  lemma EachLineAlone(r: Renderer, l: string, rest: string)
    requires l != "" && '\n' !in l
    ensures ConvertLines(r, l + "\n" + rest) == ConvertLines(r, l) + "\n" + ConvertLines(r, rest)
  {
    LineLengthOfRun(l, "\n" + rest);
    Associative(l, "\n", rest);
    LinesSplit(r, l + "\n", rest);
    ConvertLineBefore(r, l, '\n');
    LineLengthOfLast(l);
    assert l + "" == l && ConvertLine(r, l) + "" == ConvertLine(r, l);
    LinesSplit(r, l, "");
  }

  lemma {:induction false} UnhexOfPrefix(t: string, u: string, n: nat)
    requires 2 * n + 1 <= |t|
    ensures Unhex(t + u, n) == Unhex(t, n)
  {
    if n > 0 { UnhexOfPrefix(t, u, n - 1); }
  }

  /** Characters after a full-length candidate make no difference. */
  lemma ShownLonger(r: Renderer, t: string, u: string)
    requires |t| == TAIN_FORMAT
    ensures Shown(r, t + u) == Shown(r, t) + u
  {
    UnhexOfPrefix(t, u, TAIN_PACK);
    assert ParsedTain(t + u) == ParsedTain(t);
    assert (t + u)[TAIN_FORMAT..] == u && t[TAIN_FORMAT..] == "";
  }

  /** A text that is exactly one acceptable label is replaced by its rendering. */
  lemma ShownLabel(r: Renderer, t: string)
    requires |t| == TAIN_FORMAT && ParsedTain(t).Some?
    ensures Shown(r, t) == r.tain(ParsedTain(t).value)
  {
    assert t[TAIN_FORMAT..] == "";
  }

  // The program

  /** srvctl/src/taiconv.c:123-158 */
  method ConvertBuffer(r: Renderer, textual: string) returns (ok: bool, result: string, unused: nat)
    requires textual != ""
    ensures ok <==> ConvertText(r, textual).Converted?
    ensures unused <= |textual|
    ensures ok ==> ConvertText(r, textual) == Converted(result, textual[|textual| - unused..])
  {
    var s := new char[|textual|](i requires 0 <= i < |textual| => textual[i]);
    assert s[..] == textual;
    ok, result, unused := false, "", 0;
    if |textual| >= TAIN_FORMAT {
      var t := new Tain(Label(0, 0));
      ok := TainUnformat(s, t);
      if ok {
        result := r.tain(t.Value());
        unused := |textual| - TAIN_FORMAT;
      }
    } else if |textual| >= TAI_FORMAT {
      var t := new Tai(0);
      ok := TaiUnformat(s, t);
      if ok {
        result := r.tai(t.x);
        unused := |textual| - TAI_FORMAT;
      }
    }
  }

  /** srvctl/src/taiconv.c:104-112, with its assertion as precondition */
  method FlushBuffer(output: string, buf: string) returns (more: string)
    requires |buf| > 0
    ensures more == output + buf
  {
    more := output + buf;
  }

  /** The statements repeated at every end of a candidate: flush the result and what was unused of the
      buffer, or else the buffer. */
  method FlushCandidate(r: Renderer, output: string, buf: string) returns (more: string)
    requires buf != ""
    ensures more == output + Shown(r, buf)
  {
    var ok, result, unused := ConvertBuffer(r, buf);
    if ok {
      more := output + result;
      if unused > 0 {
        more := FlushBuffer(more, buf[|buf| - unused..]);
      }
    } else {
      more := FlushBuffer(output, buf);
    }
  }

  // Readers of a stream: one character at a time, into a buffer that holds one candidate

  /** What a reader has written, and the candidate it holds, if any. */
  datatype Reader = Reader(output: string, held: string)

  /** One more character. */
  function TakeAll(r: Renderer, st: Reader, c: char): Reader
  {
    if st.held != "" then
      if IsHexDigit(c) && |st.held| < TAIN_FORMAT then Reader(st.output, st.held + [c])
      else if c == '@' then Reader(st.output + Shown(r, st.held), [c])
      else Reader(st.output + Shown(r, st.held) + [c], "")
    else if c == '@' then Reader(st.output, [c])
    else Reader(st.output + [c], "")
  }

  /** The output at the end of the text. */
  function Finish(r: Renderer, st: Reader): string
  {
    if st.held == "" then st.output else st.output + Shown(r, st.held)
  }

  function FeedAll(r: Renderer, st: Reader, rest: string): string
    decreases |rest|
  {
    if rest == "" then Finish(r, st) else FeedAll(r, TakeAll(r, st, rest[0]), rest[1..])
  }

  /** srvctl/src/taiconv.c:194-245: the body of the loop, for the character just read */
  method TakeOneAll(r: Renderer, textual: array<char>, index: nat, output: string)
      returns (index': nat, output': string)
    requires textual.Length == TAIN_FORMAT + 1 && index <= TAIN_FORMAT
    requires index > 0 ==> textual[0] == '@'
    modifies textual
    ensures index' <= TAIN_FORMAT && (index' > 0 ==> textual[0] == '@')
    ensures Reader(output', textual[..index'])
         == TakeAll(r, Reader(output, old(textual[..index])), old(textual[index]))
  {
    var c := textual[index];
    index', output' := index, output;
    if index > 0 {
      if IsHexDigit(c) {
        if index == TAIN_FORMAT {
          output' := FlushCandidate(r, output', textual[..index]);
          output' := FlushBuffer(output', [c]);
          index' := 0;
        } else {
          index' := index + 1;
          assert textual[..index + 1] == textual[..index] + [c];
        }
      } else {
        output' := FlushCandidate(r, output', textual[..index]);
        if c == '@' {
          index' := 1;
          assert textual[..1] == [c];
        } else {
          output' := FlushBuffer(output', [c]);
          index' := 0;
        }
      }
    } else if c == '@' {
      index' := index + 1;
      assert textual[..1] == [c];
    } else {
      output' := FlushBuffer(output', [c]);
    }
  }

  /** srvctl/src/taiconv.c:161-247 */
  method ReadAll(r: Renderer, input: string) returns (output: string)
    ensures output == ConvertAll(r, input)
  {
    var textual := new char[TAIN_FORMAT + 1];
    var index, p := 0, 0;
    output := "";
    assert textual[..0] == "" && input[0..] == input;
    while p < |input|
      invariant p <= |input| && 0 <= index <= TAIN_FORMAT && (index > 0 ==> textual[0] == '@')
      invariant FeedAll(r, Reader(output, textual[..index]), input[p..]) == FeedAll(r, Reader("", ""), input)
    {
      ghost var t := textual[..index];
      textual[index] := input[p];
      assert textual[..index] == t;
      index, output := TakeOneAll(r, textual, index, output);
      p := p + 1;
    }
    if index > 0 {
      output := FlushCandidate(r, output, textual[..index]);
    }
    FeedAllConverts(r, Reader("", ""), input);
    assert "" + input == input && "" + ConvertAll(r, input) == ConvertAll(r, input);
  }

  lemma {:induction false} FeedAllConverts(r: Renderer, st: Reader, rest: string)
    requires st.held == "" || Candidate(st.held)
    ensures FeedAll(r, st, rest) == st.output + ConvertAll(r, st.held + rest)
    decreases |rest|
  {
    var t := st.held;
    if rest == "" {
      assert t + rest == t;
      if t != "" { AllStepLast(r, st.output, t); }
    } else {
      var c, more := rest[0], rest[1..];
      assert rest == [c] + more && "" + rest == rest && "" + more == more;
      var st' := TakeAll(r, st, c);
      FeedAllConverts(r, st', more);
      if t != "" && IsHexDigit(c) && |t| < TAIN_FORMAT {
        Associative(t, [c], more);
      } else {
        var shown := Finish(r, st);
        if t != "" { AllStepEnd(r, st.output, t, c, more); }
        if c != '@' { AllStepOther(r, shown, c, more); }
      }
    }
  }

  /** A candidate has ended before c. */
  lemma AllStepEnd(r: Renderer, output: string, t: string, c: char, rest: string)
    requires Candidate(t) && Ends(t, [c] + rest)
    ensures output + ConvertAll(r, t + ([c] + rest)) == (output + Shown(r, t)) + ConvertAll(r, [c] + rest)
  {
    AllAtCandidate(r, t, [c] + rest);
    Associative(output, Shown(r, t), ConvertAll(r, [c] + rest));
  }

  /** A character outside any candidate is copied. */
  lemma AllStepOther(r: Renderer, output: string, c: char, rest: string)
    requires c != '@'
    ensures output + ConvertAll(r, [c] + rest) == (output + [c]) + ConvertAll(r, rest)
  {
    AllAtOther(r, c, rest);
    Associative(output, [c], ConvertAll(r, rest));
  }

  lemma AllStepLast(r: Renderer, output: string, t: string)
    requires Candidate(t)
    ensures output + ConvertAll(r, t) == output + Shown(r, t)
  {
    AllAtCandidate(r, t, "");
    assert t + "" == t && Shown(r, t) + "" == Shown(r, t);
  }

  /** The reader of lines also knows whether a line is about to start. */
  datatype LineReader = LineReader(output: string, held: string, start: bool)

  function TakeLines(r: Renderer, st: LineReader, c: char): LineReader
  {
    if st.start && c == '@' then LineReader(st.output, [c], false)
    else if st.held != "" then
      if IsHexDigit(c) && |st.held| < TAIN_FORMAT then LineReader(st.output, st.held + [c], st.start)
      else LineReader(st.output + Shown(r, st.held) + [c], "", c == '\n')
    else LineReader(st.output + [c], "", c == '\n')
  }

  function FeedLines(r: Renderer, st: LineReader, rest: string): string
    decreases |rest|
  {
    if rest == "" then Finish(r, Reader(st.output, st.held)) else FeedLines(r, TakeLines(r, st, rest[0]), rest[1..])
  }

  /** srvctl/src/taiconv.c:284-308: the body of the loop, for the character just read */
  method TakeOneLines(r: Renderer, textual: array<char>, index: nat, output: string, start: bool)
      returns (index': nat, output': string, start': bool)
    requires textual.Length == TAIN_FORMAT + 1 && index <= TAIN_FORMAT && (start ==> index == 0)
    ensures index' <= TAIN_FORMAT && (start' ==> index' == 0)
    ensures LineReader(output', textual[..index'], start')
         == TakeLines(r, LineReader(output, textual[..index], start), textual[index])
  {
    var c := textual[index];
    index', output', start' := index, output, start;
    assert textual[..index + 1] == textual[..index] + [c];
    if start && c == '@' {
      start' := false;
      index' := index + 1;
    } else if index > 0 {
      if !IsHexDigit(c) || index == TAIN_FORMAT {
        output' := FlushCandidate(r, output', textual[..index]);
        output' := FlushBuffer(output', [c]);
        start' := c == '\n';
        index' := 0;
      } else {
        index' := index + 1;
      }
    } else {
      start' := c == '\n';
      output' := FlushBuffer(output', [c]);
    }
  }

  /** srvctl/src/taiconv.c:250-310 */
  method ReadLines(r: Renderer, input: string) returns (output: string)
    ensures output == ConvertLines(r, input)
  {
    var textual := new char[TAIN_FORMAT + 1];
    var index, p := 0, 0;
    var start := true;
    output := "";
    assert textual[..0] == "" && input[0..] == input;
    while p < |input|
      invariant p <= |input| && 0 <= index <= TAIN_FORMAT && (start ==> index == 0)
      invariant FeedLines(r, LineReader(output, textual[..index], start), input[p..])
             == FeedLines(r, LineReader("", "", true), input)
    {
      ghost var t := textual[..index];
      textual[index] := input[p];
      assert textual[..index] == t;
      index, output, start := TakeOneLines(r, textual, index, output, start);
      p := p + 1;
    }
    if index > 0 {
      output := FlushCandidate(r, output, textual[..index]);
    }
    FeedLinesConverts(r, LineReader("", "", true), input);
    assert "" + input == input && "" + ConvertLines(r, input) == ConvertLines(r, input);
  }

  /** What is still to come when the reader of lines holds t and is about to read rest. */
  function LinesAhead(r: Renderer, start: bool, t: string, rest: string): string
  {
    if start || t != "" then ConvertLines(r, t + rest) else ConvertRest(r, rest)
  }

  lemma {:induction false} FeedLinesConverts(r: Renderer, st: LineReader, rest: string)
    requires st.held == "" || (Candidate(st.held) && !st.start)
    ensures FeedLines(r, st, rest) == st.output + LinesAhead(r, st.start, st.held, rest)
    decreases |rest|
  {
    var t := st.held;
    if rest == "" {
      if t != "" { LinesStepLast(r, st.output, t); }
    } else {
      var c, more := rest[0], rest[1..];
      assert rest == [c] + more;
      FeedLinesConverts(r, TakeLines(r, st, c), more);
      if st.start && c == '@' {
        assert t + rest == rest;
      } else if t != "" {
        if IsHexDigit(c) && |t| < TAIN_FORMAT {
          Associative(t, [c], more);
        } else {
          LinesStepEnd(r, st.output, t, c, more);
        }
      } else {
        LinesStepOther(r, st.output, st.start, c, more);
      }
    }
  }

  lemma LinesStepEnd(r: Renderer, output: string, t: string, c: char, rest: string)
    requires Candidate(t) && Ends(t, [c] + rest)
    ensures output + LinesAhead(r, false, t, [c] + rest)
            == (output + Shown(r, t) + [c]) + LinesAhead(r, c == '\n', "", rest)
  {
    LinesAtCandidate(r, t, [c] + rest);
    RestStep(r, c, rest);
    assert "" + rest == rest;
    Associative(output, Shown(r, t), ConvertRest(r, [c] + rest));
    Associative(output + Shown(r, t), [c], LinesAhead(r, c == '\n', "", rest));
  }

  lemma LinesStepOther(r: Renderer, output: string, start: bool, c: char, rest: string)
    requires !(start && c == '@')
    ensures output + LinesAhead(r, start, "", [c] + rest) == (output + [c]) + LinesAhead(r, c == '\n', "", rest)
  {
    if start { LinesAtOther(r, [c] + rest); }
    RestStep(r, c, rest);
    assert "" + ([c] + rest) == [c] + rest && "" + rest == rest;
    Associative(output, [c], LinesAhead(r, c == '\n', "", rest));
  }

  lemma LinesStepLast(r: Renderer, output: string, t: string)
    requires Candidate(t)
    ensures output + LinesAhead(r, false, t, "") == output + Shown(r, t)
  {
    LinesAtCandidate(r, t, "");
    assert Shown(r, t) + "" == Shown(r, t);
  }

  // Readers of a mapped file: the text is flushed in pieces, from start on; they keep step with the
  // readers of a stream

  /** The state of the stream reader that has read as far as index. */
  function AllSoFar(text: string, output: string, start: nat, index: nat, inside: bool): Reader
    requires start <= index <= |text|
  {
    if inside then Reader(output, text[start..index]) else Reader(output + text[start..index], "")
  }

  /** When a candidate cannot go on, it may as well have been flushed already. */
  lemma CandidateOver(r: Renderer, output: string, held: string, rest: string)
    requires held != "" && Ends(held, rest) && |held| <= TAIN_FORMAT
    ensures FeedAll(r, Reader(output, held), rest) == FeedAll(r, Reader(output + Shown(r, held), ""), rest)
    ensures FeedLines(r, LineReader(output, held, false), rest)
         == FeedLines(r, LineReader(output + Shown(r, held), "", false), rest)
  {
  }

  /** Flushing what convert_buffer gives leaves its unused characters for later. */
  method FlushResult(r: Renderer, text: string, output: string, start: nat, index: nat)
      returns (output': string, start': nat)
    requires start < index <= |text|
    ensures start' <= index && output' + text[start'..index] == output + Shown(r, text[start..index])
  {
    var ok, result, unused := ConvertBuffer(r, text[start..index]);
    output', start' := output, start;
    if ok {
      output' := output + result;
      start' := index - unused;
      assert text[start..index][index - start - unused..] == text[start'..index];
      Associative(output, result, text[start'..index]);
    }
  }

  lemma FeedAllStep(r: Renderer, st: Reader, text: string, index: nat)
    requires index < |text|
    ensures FeedAll(r, st, text[index..]) == FeedAll(r, TakeAll(r, st, text[index]), text[index + 1..])
  {
  }

  lemma SliceSnoc(text: string, start: nat, index: nat)
    requires start <= index < |text|
    ensures text[start..index + 1] == text[start..index] + [text[index]]
    ensures text[index..index] == "" && text[index..index + 1] == [text[index]]
  {
  }

  /** srvctl/src/taiconv.c:348-395 */
  method MapAll(r: Renderer, text: string) returns (output: string)
    requires text != ""
    ensures output == ConvertAll(r, text)
  {
    var index, start := 0, 0;
    var inside := false;
    output := "";
    assert text[0..0] == "" && text[0..] == text && output + "" == "";
    while index < |text|
      invariant 0 <= start <= index <= |text|
      invariant inside ==> start < index <= start + TAIN_FORMAT
      invariant inside || start < index || index < |text|
      invariant FeedAll(r, AllSoFar(text, output, start, index, inside), text[index..])
             == FeedAll(r, Reader("", ""), text)
      decreases |text| - index, inside
    {
      FeedAllStep(r, AllSoFar(text, output, start, index, inside), text, index);
      SliceSnoc(text, start, index);
      if inside {
        if !IsHexDigit(text[index]) || index - start == TAIN_FORMAT {
          CandidateOver(r, output, text[start..index], text[index..]);
          output, start := FlushResult(r, text, output, start, index);
          inside := false;
          continue;
        }
      } else if text[index] == '@' {
        if start < index {
          output := FlushBuffer(output, text[start..index]);
        } else {
          assert output + text[start..index] == output;
        }
        start := index;
        inside := true;
      } else {
        Associative(output, text[start..index], [text[index]]);
      }
      index := index + 1;
    }
    if inside {
      output := FlushCandidate(r, output, text[start..index]);
    } else {
      output := FlushBuffer(output, text[start..index]);
    }
    FeedAllConverts(r, Reader("", ""), text);
    assert "" + text == text && "" + ConvertAll(r, text) == ConvertAll(r, text);
  }

  lemma FeedLinesStep(r: Renderer, st: LineReader, text: string, index: nat)
    requires index < |text|
    ensures FeedLines(r, st, text[index..]) == FeedLines(r, TakeLines(r, st, text[index]), text[index + 1..])
  {
  }

  /** Whether a line is about to start does not matter before a character other than '@', or at the end. */
  lemma StartIrrelevant(r: Renderer, output: string, rest: string)
    requires rest == "" || rest[0] != '@'
    ensures FeedLines(r, LineReader(output, "", true), rest) == FeedLines(r, LineReader(output, "", false), rest)
  {
  }

  /** The state of the stream reader inside or just after the candidate that begins at start. */
  function CandidateSoFar(r: Renderer, text: string, output: string, start: nat, index: nat): LineReader
    requires start <= index <= |text|
  {
    if index - start <= TAIN_FORMAT then LineReader(output, text[start..index], false)
    else LineReader(output + Shown(r, text[start..index]), "", false)
  }

  lemma CandidateStarts(r: Renderer, text: string, output: string, start: nat)
    requires start < |text| && text[start] == '@'
    ensures FeedLines(r, LineReader(output, "", true), text[start..])
         == FeedLines(r, CandidateSoFar(r, text, output, start, start + 1), text[start + 1..])
  {
    FeedLinesStep(r, LineReader(output, "", true), text, start);
    SliceSnoc(text, start, start);
  }

  lemma CandidateGrows(r: Renderer, text: string, output: string, start: nat, index: nat)
    requires start < index < |text| && index - start <= TAIN_FORMAT && IsHexDigit(text[index])
    ensures FeedLines(r, CandidateSoFar(r, text, output, start, index), text[index..])
         == FeedLines(r, CandidateSoFar(r, text, output, start, index + 1), text[index + 1..])
  {
    FeedLinesStep(r, CandidateSoFar(r, text, output, start, index), text, index);
    SliceSnoc(text, start, index);
    if index - start == TAIN_FORMAT {
      ShownLonger(r, text[start..index], [text[index]]);
      Associative(output, Shown(r, text[start..index]), [text[index]]);
    }
  }

  lemma CandidateDone(r: Renderer, text: string, output: string, start: nat, index: nat)
    requires start < index <= |text|
    requires index < |text| && index - start <= TAIN_FORMAT ==> !IsHexDigit(text[index])
    ensures FeedLines(r, CandidateSoFar(r, text, output, start, index), text[index..])
         == FeedLines(r, LineReader(output + Shown(r, text[start..index]), "", false), text[index..])
  {
    if index - start <= TAIN_FORMAT { CandidateOver(r, output, text[start..index], text[index..]); }
  }

  lemma {:induction false} CandidateFed(r: Renderer, text: string, output: string, start: nat, index: nat)
    requires start < index <= |text| && index - start <= TAIN_FORMAT + 1 && text[start] == '@'
    requires forall i :: start < i < index ==> IsHexDigit(text[i])
    ensures FeedLines(r, LineReader(output, "", true), text[start..])
         == FeedLines(r, CandidateSoFar(r, text, output, start, index), text[index..])
  {
    if index == start + 1 {
      CandidateStarts(r, text, output, start);
    } else {
      CandidateFed(r, text, output, start, index - 1);
      CandidateGrows(r, text, output, start, index - 1);
    }
  }

  /** srvctl/src/taiconv.c:416-419: one character further than the longest label, if it is a digit too */
  method ScanCandidate(r: Renderer, text: string, ghost output: string, start: nat) returns (index: nat)
    requires start < |text| && text[start] == '@'
    ensures start < index <= |text|
    ensures FeedLines(r, LineReader(output, "", true), text[start..])
         == FeedLines(r, LineReader(output + Shown(r, text[start..index]), "", false), text[index..])
  {
    index := start + 1;
    while index < |text| && IsHexDigit(text[index]) && index - start <= TAIN_FORMAT
      invariant start < index <= |text| && index - start <= TAIN_FORMAT + 1
      invariant forall i :: start < i < index ==> IsHexDigit(text[i])
    {
      index := index + 1;
    }
    CandidateFed(r, text, output, start, index);
    CandidateDone(r, text, output, start, index);
  }

  /** srvctl/src/taiconv.c:429-431 */
  method SkipLine(r: Renderer, text: string, ghost output: string, ghost start: nat, index: nat) returns (index': nat)
    requires start <= index <= |text|
    ensures index <= index' <= |text| && (index < |text| ==> index < index')
    ensures FeedLines(r, LineReader(output + text[start..index], "", false), text[index..])
         == FeedLines(r, LineReader(output + text[start..index'], "", true), text[index'..])
  {
    index' := index;
    var inLine := true;
    while index' < |text| && inLine
      invariant index <= index' <= |text| && (inLine || index < index')
      invariant FeedLines(r, LineReader(output + text[start..index], "", false), text[index..])
             == FeedLines(r, LineReader(output + text[start..index'], "", !inLine), text[index'..])
      decreases |text| - index'
    {
      FeedLinesStep(r, LineReader(output + text[start..index'], "", false), text, index');
      SliceSnoc(text, start, index');
      Associative(output, text[start..index'], [text[index']]);
      inLine := text[index'] != '\n';
      index' := index' + 1;
    }
    if inLine { StartIrrelevant(r, output + text[start..index'], text[index'..]); }
  }

  /** srvctl/src/taiconv.c:398-438 */
  method MapLines(r: Renderer, text: string) returns (output: string)
    requires text != ""
    ensures output == ConvertLines(r, text)
  {
    var index, start := 0, 0;
    output := "";
    assert text[0..0] == "" && text[0..] == text && output + "" == "";
    while index < |text|
      invariant 0 <= start <= index <= |text|
      invariant FeedLines(r, LineReader(output + text[start..index], "", true), text[index..])
             == FeedLines(r, LineReader("", "", true), text)
    {
      if text[index] == '@' {
        if start < index {
          output := FlushBuffer(output, text[start..index]);
          start := index;
        } else {
          assert output + text[start..index] == output;
        }
        index := ScanCandidate(r, text, output, start);
        output, start := FlushResult(r, text, output, start, index);
      } else {
        StartIrrelevant(r, output + text[start..index], text[index..]);
      }
      index := SkipLine(r, text, output, start, index);
    }
    if start < index {
      output := FlushBuffer(output, text[start..index]);
    } else {
      assert output + text[start..index] == output;
    }
    FeedLinesConverts(r, LineReader("", "", true), text);
    assert "" + text == text && "" + ConvertLines(r, text) == ConvertLines(r, text);
  }
}
