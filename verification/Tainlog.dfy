/** tainlog: cuts its input into records, stamps each, and keeps a bounded archive of full files. */
module Tainlog {
  import opened Machine
  import opened TextLines
  import opened TaiLabels
  import opened AprTime

  const BUFFER_START: nat := TAIN_FORMAT + 1
  const BUFFER_SEPARATOR: nat := TAIN_FORMAT

  // Records

  predicate EndsLine(s: string) { s != "" && s[|s| - 1] == '\n' }

  /** The length of the next piece of input: a line, or as much of one as there is room for. */
  function PieceLength(s: string, room: nat): (n: nat)
    requires s != "" && room > 0
    ensures 1 <= n <= |s| && n <= room
  {
    if s[0] == '\n' || |s| == 1 || room == 1 then 1 else 1 + PieceLength(s[1..], room - 1)
  }

  /** A record: stamp, separator, piece; a newline is added when the piece has none. */
  function Record(stamp: string, continued: bool, piece: string): string
  {
    stamp + [if continued then '\t' else ' '] + piece + if EndsLine(piece) then "" else "\n"
  }

  /** All records of an input; stamps(k) is the stamp of the k-th. */
  function Records(s: string, room: nat, continued: bool, stamps: nat -> string, k: nat): string
    requires room > 0
    decreases |s|
  {
    if s == "" then ""
    else
      var n := PieceLength(s, room);
      Record(stamps(k), continued, s[..n]) + Records(s[n..], room, !EndsLine(s[..n]), stamps, k + 1)
  }

  /** How many records, and so stamps, an input takes. */
  function RecordCount(s: string, room: nat): nat
    requires room > 0
    decreases |s|
  {
    if s == "" then 0 else 1 + RecordCount(s[PieceLength(s, room)..], room)
  }

  // Reading a log back

  /** A record is continued by the next when that has a tab for separator. */
  predicate Continued(rest: string) { |rest| > BUFFER_SEPARATOR && rest[BUFFER_SEPARATOR] == '\t' }

  /** The log without its first column, wrapped lines joined. */
  function Restore(log: string): string
    decreases |log|
  {
    if log == "" then ""
    else
      var n := LineLength(log);
      var rest := log[n..];
      (if n > BUFFER_START then log[BUFFER_START..n - 1] else "") + (if Continued(rest) then "" else "\n")
      + Restore(rest)
  }

  /** The input with a newline at the end of its last line. */
  function Complete(s: string): string { if s == "" || EndsLine(s) then s else s + "\n" }

  lemma {:induction false} PieceIsOneLine(s: string, room: nat)
    requires s != "" && room > 0
    ensures var n := PieceLength(s, room); '\n' !in s[..n - 1]
  {
    if !(s[0] == '\n' || |s| == 1 || room == 1) {
      var n := PieceLength(s, room);
      PieceIsOneLine(s[1..], room - 1);
      assert s[..n - 1] == [s[0]] + s[1..][..n - 2];
    }
  }

  /** A piece ends with its line, or with the input, or fills the room; and no sooner. */
  lemma {:induction false} PieceIsMaximal(s: string, room: nat)
    requires s != "" && room > 0
    ensures var n := PieceLength(s, room);
      (s[n - 1] == '\n' || n == |s| || n == room) && '\n' !in s[..n - 1]
  {
    PieceIsOneLine(s, room);
    if !(s[0] == '\n' || |s| == 1 || room == 1) { PieceIsMaximal(s[1..], room - 1); }
  }

  predicate StampLike(stamp: string) { |stamp| == TAIN_FORMAT && '\n' !in stamp }

  /** A record is one line of the log. */
  lemma RecordIsLine(stamp: string, continued: bool, piece: string, rest: string)
    requires StampLike(stamp) && piece != "" && '\n' !in piece[..|piece| - 1]
    ensures var rec := Record(stamp, continued, piece);
      && LineLength(rec + rest) == |rec| > BUFFER_START
      && rec[BUFFER_START..|rec| - 1] == (if EndsLine(piece) then piece[..|piece| - 1] else piece)
  {
    var rec := Record(stamp, continued, piece);
    var body := if EndsLine(piece) then piece[..|piece| - 1] else piece;
    assert piece == piece[..|piece| - 1] + [piece[|piece| - 1]];
    var head := stamp + [if continued then '\t' else ' '] + body;
    assert rec == head + "\n";
    Associative(head, "\n", rest);
    LineLengthOfRun(head, "\n" + rest);
  }

  lemma CompleteConcat(s: string, t: string)
    requires t != ""
    ensures Complete(s + t) == s + Complete(t)
  {
    assert (s + t)[|s + t| - 1] == t[|t| - 1];
    if !EndsLine(t) { Associative(s, t, "\n"); }
  }

  /** The character after the stamp is a tab if the line before was cut, and otherwise a blank. */
  lemma RecordsShowSeparator(s: string, room: nat, continued: bool, stamps: nat -> string, k: nat)
    requires room > 0 && StampLike(stamps(k))
    ensures s != "" ==>
      var log := Records(s, room, continued, stamps, k);
      |log| > 25 && log[..25] == stamps(k) && log[25] == if continued then '\t' else ' '
    ensures Continued(Records(s, room, continued, stamps, k)) <==> s != "" && continued
  {
    if s != "" {
      var n := PieceLength(s, room);
      var rec := Record(stamps(k), continued, s[..n]);
      assert rec[BUFFER_SEPARATOR] == if continued then '\t' else ' ';
      assert rec[..25] == stamps(k);
      assert Records(s, room, continued, stamps, k)[..25] == rec[..25];
      assert Records(s, room, continued, stamps, k)[BUFFER_SEPARATOR] == rec[BUFFER_SEPARATOR];
    }
  }

  lemma RestoreFirst(rec: string, rest: string)
    requires rec != "" && LineLength(rec + rest) == |rec| > BUFFER_START
    ensures Restore(rec + rest) ==
            rec[BUFFER_START..|rec| - 1] + (if Continued(rest) then "" else "\n") + Restore(rest)
  {
    assert (rec + rest)[|rec|..] == rest;
    assert (rec + rest)[BUFFER_START..|rec| - 1] == rec[BUFFER_START..|rec| - 1];
  }

  lemma Rejoined(piece: string, tail: string)
    requires piece != ""
    ensures (if EndsLine(piece) then piece[..|piece| - 1] else piece)
            + (if tail != "" && !EndsLine(piece) then "" else "\n") + Complete(tail) == Complete(piece + tail)
  {
    if tail == "" {
      assert piece + tail == piece;
    } else {
      CompleteConcat(piece, tail);
    }
    if EndsLine(piece) { assert piece == piece[..|piece| - 1] + "\n"; }
  }

  lemma RestoreRecord(stamp: string, continued: bool, piece: string, tail: string, rest: string)
    requires StampLike(stamp) && piece != "" && '\n' !in piece[..|piece| - 1]
    requires Continued(rest) <==> tail != "" && !EndsLine(piece)
    requires Restore(rest) == Complete(tail)
    ensures Restore(Record(stamp, continued, piece) + rest) == Complete(piece + tail)
  {
    RecordIsLine(stamp, continued, piece, rest);
    RestoreFirst(Record(stamp, continued, piece), rest);
    Rejoined(piece, tail);
  }

  /** A text in two parts: its first piece, and what follows. */
  lemma FirstPiece(s: string, room: nat) returns (piece: string, tail: string)
    requires s != "" && room > 0
    ensures s == piece + tail && piece == s[..PieceLength(s, room)] && tail == s[PieceLength(s, room)..]
    ensures piece != "" && '\n' !in piece[..|piece| - 1]
  {
    var n := PieceLength(s, room);
    piece, tail := s[..n], s[n..];
    PieceIsOneLine(s, room);
    assert piece[..n - 1] == s[..n - 1];
  }

  lemma RecordsSplit(s: string, room: nat, continued: bool, stamps: nat -> string, k: nat, piece: string, tail: string)
    requires s != "" && room > 0 && piece == s[..PieceLength(s, room)] && tail == s[PieceLength(s, room)..]
    ensures Records(s, room, continued, stamps, k)
         == Record(stamps(k), continued, piece) + Records(tail, room, !EndsLine(piece), stamps, k + 1)
  {
  }

  /** Nothing is lost: however lines were wrapped and stamped, the log gives the input back, with a newline
      at its end. */
  lemma {:induction false} RestoreUndoesRecords(s: string, room: nat, continued: bool, stamps: nat -> string, k: nat)
    requires room > 0 && forall i: nat :: StampLike(stamps(i))
    ensures Restore(Records(s, room, continued, stamps, k)) == Complete(s)
    decreases |s|
  {
    if s != "" {
      var piece, tail := FirstPiece(s, room);
      var wrapped := !EndsLine(piece);
      RestoreUndoesRecords(tail, room, wrapped, stamps, k + 1);
      RecordsShowSeparator(tail, room, wrapped, stamps, k + 1);
      RecordsSplit(s, room, continued, stamps, k, piece, tail);
      RestoreRecord(stamps(k), continued, piece, tail, Records(tail, room, wrapped, stamps, k + 1));
    }
  }

  // The program: from standard input to records

  /** Standard input, with the flag that is set once reading has hit its end. */
  class Stdin {
    const text: string
    var pos: nat
    var eof: bool

    constructor (text: string)
      ensures this.text == text && pos == 0 && !eof
    {
      this.text := text;
      pos := 0;
      eof := false;
    }

    ghost function Rest(): string
      requires pos <= |text|
      reads this
    {
      text[pos..]
    }
  }

  lemma {:induction false} PieceLengthIs(s: string, room: nat, n: nat)
    requires 1 <= n <= |s| && n <= room && '\n' !in s[..n - 1]
    requires s[n - 1] == '\n' || n == |s| || n == room
    ensures PieceLength(s, room) == n
  {
    if n > 1 {
      assert s[0] == s[..n - 1][0];
      assert s[1..][..n - 2] == s[..n - 1][1..];
      PieceLengthIs(s[1..], room - 1, n - 1);
    }
  }

  /** srvctl/src/tainlog.c:192-230; now is the clock when the first character is read */
  method Readline(input: Stdin, buffer: array<char>, start: nat, len: nat, stamp: Tain, now: i64) returns (pos: nat)
    requires start < len <= buffer.Length && input.pos <= |input.text| && !input.eof
    modifies input, buffer, stamp, stamp.sec
    ensures input.pos <= |input.text| && (input.eof ==> input.pos == |input.text|)
    ensures old(input.Rest()) == "" ==> pos == start && input.eof && input.pos == old(input.pos)
    ensures old(input.Rest()) != "" ==>
      && pos == start + PieceLength(old(input.Rest()), len - start)
      && input.pos == old(input.pos) + (pos - start)
      && buffer[start..pos] == old(input.Rest())[..pos - start]
      && stamp.Value() == FromApr(now)
  {
    ghost var rest := input.Rest();
    pos := start;
    while true
      invariant start <= pos < len && !input.eof && pos - start <= |rest|
      invariant input.pos == old(input.pos) + (pos - start) <= |input.text|
      invariant buffer[start..pos] == rest[..pos - start] && '\n' !in rest[..pos - start]
      invariant pos > start ==> stamp.Value() == FromApr(now)
      decreases len - pos
    {
      if input.pos == |input.text| {
        input.eof := true;
        if pos > start { PieceLengthIs(rest, len - start, pos - start); }
        break;
      }
      var c := input.text[input.pos];
      assert c == rest[pos - start];
      buffer[pos] := c;
      input.pos := input.pos + 1;
      if pos == start {
        TainFromApr(stamp, now);
      }
      pos := pos + 1;
      assert rest[..pos - start] == rest[..pos - start - 1] + [c];
      assert buffer[start..pos] == buffer[start..pos - 1] + [c];
      if c == '\n' || pos == len {
        PieceLengthIs(rest, len - start, pos - start);
        break;
      }
    }
  }

  /** srvctl/src/tainlog.c:419-442 */
  method FormatTainlog(buffer: array<char>, len: nat, stamp: Tain, wrapped: bool) returns (len': nat, wrapped': bool)
    requires BUFFER_START < len < buffer.Length
    modifies buffer
    ensures len <= len' <= len + 1
    ensures buffer[..len'] == Record(TextOfTain(stamp.Value()), wrapped, old(buffer[BUFFER_START..len]))
    ensures wrapped' == !EndsLine(old(buffer[BUFFER_START..len]))
  {
    ghost var text, piece := TextOfTain(stamp.Value()), buffer[BUFFER_START..len];
    len' := len;
    TainFormat(buffer, stamp);
    assert buffer[..TAIN_FORMAT] == text;
    assert forall i :: TAIN_FORMAT <= i < buffer.Length ==> buffer[i] == old(buffer[i]);
    buffer[BUFFER_SEPARATOR] := if wrapped then '\t' else ' ';
    wrapped' := buffer[len - 1] != '\n';
    assert buffer[..len] == text + [if wrapped then '\t' else ' '] + piece;
    if wrapped' {
      buffer[len] := '\n';
      len' := len + 1;
    }
  }
}
