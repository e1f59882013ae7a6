/** The whole path: from the text on the standard input of tainlog to all that the log reader prints. */
module Pipeline {
  import opened Machine
  import opened TextOrder
  import opened TextLines
  import opened TaiLabels
  import opened AprTime
  import opened Taiconv
  import opened Fields
  import opened Tainlog
  import opened LogDirectory
  import opened Stamps
  import opened LogFiles
  import opened LogLines
  import opened LogWatch
  import opened LogHistory
  import opened LogDelivery
  import opened EndToEnd

  /** The room in tainlog's buffer, its clock, the limits of the directory, and the zone of the reader. */
  datatype Setup = Setup(room: nat, clock: nat -> i64, fileSize: nat, keep: int, zone: int -> int)

  /** The rest of the input, whether the last record was wrapped, the number of records so far; the directory;
      the cursor of the script and all it has printed; for the specification, all that was ever logged, and what
      of it had been logged when the script ran last. */
  datatype System = System(rest: string, wrapped: bool, k: nat, dir: LogDir, cursor: string, output: seq<Line>,
                           logged: string, read: string)

  /** tainlog logs the next record, as LogOne does; or the script runs. */
  datatype Move = Log | Run

  function Start(input: string): System { System(input, false, 0, LogDir([], ""), "", [], "", "") }

  function NextRecord(p: Setup, s: System): string
    requires p.room > 0 && s.rest != ""
  {
    Record(StampAt(p.clock)(s.k), s.wrapped, s.rest[..PieceLength(s.rest, p.room)])
  }

  /** The listing of a directory, as the script makes it. */
  function Listing(zone: int -> int, d: LogDir): seq<Source>
  {
    Sort(Each(SourceIn(zone), d.files)) + [Source(CURRENT, FileLines(d.current, zone))]
  }

  function SourceIn(zone: int -> int): LogFile -> Source
  {
    (f: LogFile) => Source(ConvertLines(InZone(zone), f.name) + " " + f.name, FileLines(f.text, zone))
  }

  function Moved(p: Setup, s: System, m: Move): System
    requires p.room > 0
  {
    match m
    case Log =>
      if s.rest == "" then s
      else
        var n := PieceLength(s.rest, p.room);
        System(s.rest[n..], !EndsLine(s.rest[..n]), s.k + 1,
               Appended(s.dir, NextRecord(p, s), StampAt(p.clock)(s.k), p.fileSize, p.keep),
               s.cursor, s.output, s.logged + NextRecord(p, s), s.read)
    case Run =>
      var files := Listing(p.zone, s.dir);
      s.(output := s.output + Printed(files, s.cursor), cursor := NextCursor(files, s.cursor), read := s.logged)
  }

  function AllMoved(p: Setup, s: System, ms: seq<Move>): System
    requires p.room > 0
  {
    if ms == [] then s else Moved(p, AllMoved(p, s, ms[..|ms| - 1]), ms[|ms| - 1])
  }

  function AllRecords(p: Setup, input: string): string
    requires p.room > 0
  {
    Records(input, p.room, false, StampAt(p.clock), 0)
  }

  /** The clock advances and can be rendered; and the lines, as the reader sees them, are in order. */
  ghost predicate Suits(p: Setup, input: string)
  {
    && p.room > 0
    && AdvancingClock(p.clock, RecordCount(input, p.room))
    && Renderable(p, 0, RecordCount(input, p.room))
    && InOrder(FileLines(AllRecords(p, input), p.zone))
  }

  /** All news of the files that the next record pushes out had been logged when the script ran last. */
  ghost predicate PushesOutRead(p: Setup, s: System)
    requires p.room > 0
  {
    s.rest != "" && Fills(s.dir, NextRecord(p, s), p.fileSize) ==>
      AllFilesRead(Archived(s.dir, StampAt(p.clock)(s.k))[..Surplus(|s.dir.files| + 1, p.keep)], p.zone, s.read)
  }

  /** The archived files, and `current` under its new name. */
  function Archived(d: LogDir, name: string): seq<LogFile> { d.files + [LogFile(name, d.current)] }

  ghost predicate AllFilesRead(files: seq<LogFile>, zone: int -> int, read: string)
  {
    forall f :: f in files ==> AllRead(FileLines(f.text, zone), FileLines(read, zone))
  }

  function Fills(d: LogDir, record: string, fileSize: nat): bool { |d.current| + |record| > fileSize }

  ghost predicate LosesNothing(p: Setup, s: System, m: Move)
    requires p.room > 0
  {
    m.Log? ==> PushesOutRead(p, s)
  }

  ghost predicate NothingUnreadGoes(p: Setup, s: System, ms: seq<Move>)
    requires p.room > 0
  {
    ms != [] ==>
      && NothingUnreadGoes(p, s, ms[..|ms| - 1])
      && LosesNothing(p, AllMoved(p, s, ms[..|ms| - 1]), ms[|ms| - 1])
  }

  // The system as the reader sees it

  function RotatedIn(zone: int -> int): LogFile -> Rotated
  {
    (f: LogFile) => Rotated(ConvertLines(InZone(zone), f.name), f.name, FileLines(f.text, zone))
  }

  function StateOf(zone: int -> int, s: System): State
  {
    State(Each(RotatedIn(zone), s.dir.files), FileLines(s.dir.current, zone), s.cursor, s.output,
          FileLines(s.logged, zone), [], "")
  }

  lemma SourcesOfFiles(zone: int -> int, files: seq<LogFile>)
    ensures Each(SourceIn(zone), files) == Sources(Each(RotatedIn(zone), files))
  {
    var rs := Each(RotatedIn(zone), files);
    forall i | 0 <= i < |files| ensures Each(SourceIn(zone), files)[i] == Sources(rs)[i] {
      assert rs[i] == RotatedIn(zone)(files[i]);
    }
  }

  lemma ListingOfState(zone: int -> int, s: System)
    ensures Listing(zone, s.dir) == Files(StateOf(zone, s))
  {
    SourcesOfFiles(zone, s.dir.files);
  }

  lemma RunIsWatch(p: Setup, s: System)
    requires p.room > 0
    ensures StateOf(p.zone, Moved(p, s, Run)) == Do(StateOf(p.zone, s), Watch)
  {
    ListingOfState(p.zone, s);
  }

  // Texts of whole lines

  ghost predicate Lined(s: string) { Ended(s) && OneLineEach(SplitLines(s)) && Echoed(SplitLines(s)) == s }

  lemma SplitOne(raw: string)
    requires OneLine(raw)
    ensures SplitLines(raw + "\n") == [raw]
  {
    SplitLine(raw, "");
    assert raw + "\n" + "" == raw + "\n";
    assert SplitLines("") == [];
  }

  lemma EchoedSnoc(lines: seq<string>, raw: string)
    ensures Echoed(lines + [raw]) == Echoed(lines) + (raw + "\n")
  {
    EchoedConcat(lines, [raw]);
    assert Echoed([raw][1..]) == "";
  }

  lemma OneLineSnoc(lines: seq<string>, raw: string)
    requires OneLineEach(lines) && OneLine(raw)
    ensures OneLineEach(lines + [raw])
  {
  }

  lemma EndedByNewline(s: string, raw: string)
    ensures Ended(s + (raw + "\n"))
  {
  }

  lemma LinedSnoc(s: string, raw: string)
    requires Lined(s) && OneLine(raw)
    ensures Lined(s + (raw + "\n")) && SplitLines(s + (raw + "\n")) == SplitLines(s) + [raw]
  {
    SplitConcat(s, raw + "\n");
    SplitOne(raw);
    EchoedSnoc(SplitLines(s), raw);
    OneLineSnoc(SplitLines(s), raw);
    EndedByNewline(s, raw);
  }

  lemma LinesSnoc(s: string, raw: string, zone: int -> int)
    requires Lined(s) && OneLine(raw)
    ensures FileLines(s + (raw + "\n"), zone) == FileLines(s, zone) + [Seen(raw, zone)]
  {
    LinedSnoc(s, raw);
    EachConcat(SeenIn(zone), SplitLines(s), [raw]);
    assert Each(SeenIn(zone), [raw]) == [Seen(raw, zone)];
  }

  /** A record is one raw line. */
  lemma RecordIsRaw(now: i64, continued: bool, piece: string)
    requires piece != "" && '\n' !in piece[..|piece| - 1]
    ensures var e := Item(now, continued, if EndsLine(piece) then piece[..|piece| - 1] else piece);
      Record(TextOfTain(FromApr(now)), continued, piece) == Raw(e) + "\n" && '\n' !in e.body
  {
    var stamp, sep := TextOfTain(FromApr(now)), [if continued then '\t' else ' '];
    var body := if EndsLine(piece) then piece[..|piece| - 1] else piece;
    assert piece == piece[..|piece| - 1] + [piece[|piece| - 1]];
    Associative(stamp, sep, body);
    if EndsLine(piece) {
      assert piece == body + "\n";
      Associative(stamp + sep, body, "\n");
      assert Record(stamp, continued, piece) == stamp + sep + piece + "";
    }
  }

  lemma RawIsOneLine(e: Item)
    requires '\n' !in e.body
    ensures OneLine(Raw(e))
  {
    StampShape(FromApr(e.now));
  }

  /** What the script needs of a raw line: it is shown as one line, and its first field as its stamp. */
  predicate Readable(raw: string, zone: int -> int)
  {
    && OneLine(raw) && OneLine(Seen(raw, zone).text)
    && ConvertLines(InZone(zone), FirstField(raw)) == Seen(raw, zone).stamp
  }

  lemma ShownIsOneLine(date: string, time: string, rest: string)
    requires Visible(date) && Visible(time) && '\n' !in rest
    ensures OneLine(date + " " + time + rest)
  {
  }

  lemma SeenIsOneLine(e: Item, zone: int -> int)
    requires Loggable(e, zone)
    ensures OneLine(Seen(Raw(e), zone).text)
  {
    var date, time := StampWords(e.now, zone);
    RawLineShown(e.now, e.continued, e.body, zone);
    ShownIsOneLine(date, time, [if e.continued then '\t' else ' '] + e.body);
  }

  lemma LoggedIsReadable(e: Item, zone: int -> int)
    requires Loggable(e, zone)
    ensures Readable(Raw(e), zone)
  {
    RawIsOneLine(e);
    SeenIsOneLine(e, zone);
    SeenStamp(e.now, e.continued, e.body, zone);
  }

  /** A log file: whole lines, each readable. */
  ghost predicate LogText(s: string, zone: int -> int)
  {
    Lined(s) && forall raw :: raw in SplitLines(s) ==> Readable(raw, zone)
  }

  lemma LogTextSnoc(s: string, raw: string, zone: int -> int)
    requires LogText(s, zone) && Readable(raw, zone)
    ensures LogText(s + (raw + "\n"), zone)
  {
    LinedSnoc(s, raw);
  }

  lemma FirstLogText(raw: string, zone: int -> int)
    requires Readable(raw, zone)
    ensures LogText(raw + "\n", zone)
  {
    assert SplitLines("") == [] && Echoed([]) == "";
    LogTextSnoc("", raw, zone);
    assert "" + (raw + "\n") == raw + "\n";
  }

  /** What grep, taiconv and the shell make of a file: its news as they are seen one by one. */
  ghost predicate ShellSeesNews(s: string, zone: int -> int)
  {
    SplitLines(ConvertLines(InZone(zone), GrepV(s))) == TextsOf(Filter(News(), FileLines(s, zone)))
  }

  /** What tail, awk and taiconv make of it: the stamp of its last line. */
  ghost predicate TailSeesLast(s: string, zone: int -> int)
  {
    s != "" ==>
      exists raw ::
        EndsWith(s, raw + "\n") && ConvertLines(InZone(zone), FirstField(raw)) == LastStamp(FileLines(s, zone))
  }

  lemma NewsAreSeenByShell(s: string, zone: int -> int)
    requires LogText(s, zone)
    ensures ShellSeesNews(s, zone)
  {
    PipelineSeesLines(SplitLines(s), zone);
  }

  lemma LastSeen(raws: seq<string>, zone: int -> int)
    requires raws != []
    ensures LastStamp(SeenAll(raws, zone)) == SeenIn(zone)(raws[|raws| - 1]).stamp
  {
  }

  lemma TailWitness(s: string, zone: int -> int, raw: string)
    requires EndsWith(s, raw + "\n")
    requires ConvertLines(InZone(zone), FirstField(raw)) == LastStamp(FileLines(s, zone))
    ensures TailSeesLast(s, zone)
  {
  }

  lemma LastIsReadable(raws: seq<string>, zone: int -> int)
    requires raws != [] && forall raw :: raw in raws ==> Readable(raw, zone)
    ensures ConvertLines(InZone(zone), FirstField(raws[|raws| - 1])) == LastStamp(SeenAll(raws, zone))
  {
    assert raws[|raws| - 1] in raws;
    LastSeen(raws, zone);
  }

  lemma LastIsSeenByTail(s: string, zone: int -> int)
    requires LogText(s, zone)
    ensures TailSeesLast(s, zone)
  {
    var raws := SplitLines(s);
    if raws != [] {
      EchoedEnd(raws);
      LastIsReadable(raws, zone);
      TailWitness(s, zone, raws[|raws| - 1]);
    }
  }

  lemma EndsWithLast(s: string, t: string)
    ensures EndsWith(s + t, t)
  {
  }

  lemma EchoedEnd(lines: seq<string>)
    requires lines != []
    ensures EndsWith(Echoed(lines), lines[|lines| - 1] + "\n")
  {
    var front, raw := lines[..|lines| - 1], lines[|lines| - 1];
    assert lines == front + [raw];
    EchoedSnoc(front, raw);
    EndsWithLast(Echoed(front), raw + "\n");
  }

  // What a record does

  /** How many files go. */
  function Pushed(d: LogDir, record: string, fileSize: nat, keep: int): nat
  {
    if Fills(d, record, fileSize) then Surplus(|d.files| + 1, keep) else 0
  }

  lemma ArchivedState(zone: int -> int, files: seq<LogFile>, f: LogFile, d: nat)
    requires d <= |files| + 1
    ensures Each(RotatedIn(zone), (files + [f])[d..]) == (Each(RotatedIn(zone), files) + [RotatedIn(zone)(f)])[d..]
  {
    EachDrop(RotatedIn(zone), files + [f], d);
    EachConcat(RotatedIn(zone), files, [f]);
    assert Each(RotatedIn(zone), [f]) == [RotatedIn(zone)(f)];
  }

  lemma FirstLineState(raw: string, zone: int -> int)
    requires OneLine(raw)
    ensures FileLines(raw + "\n", zone) == [] + [Seen(raw, zone)]
  {
    LinesSnoc("", raw, zone);
    assert "" + (raw + "\n") == raw + "\n";
    assert FileLines("", zone) == [];
  }

  /** t' is t after the act and the removal of the d oldest files. */
  predicate GoesTo(t: State, a: Act, d: nat, t': State)
  {
    var u := Do(t, a);
    && t'.current == u.current && t'.cursor == u.cursor && t'.output == u.output && t'.written == u.written
    && d <= |u.rotated| && t'.rotated == u.rotated[d..]
  }

  /** The record adds this line to the log, and to `current`, wherever it goes. */
  predicate AddsLine(zone: int -> int, s: System, record: string, l: Line)
  {
    && FileLines(record, zone) == [] + [l]
    && FileLines(s.logged + record, zone) == FileLines(s.logged, zone) + [l]
    && FileLines(s.dir.current + record, zone) == FileLines(s.dir.current, zone) + [l]
  }

  lemma FitsState(zone: int -> int, s: System, s': System, record: string, l: Line, name: string)
    requires s' == s.(rest := s'.rest, wrapped := s'.wrapped, k := s'.k,
                      dir := s.dir.(current := s.dir.current + record), logged := s.logged + record)
    requires AddsLine(zone, s, record, l)
    ensures GoesTo(StateOf(zone, s), Write(l, false, name), 0, StateOf(zone, s'))
  {
    var rs := Each(RotatedIn(zone), s.dir.files);
    assert rs[0..] == rs;
  }

  lemma FullState(zone: int -> int, s: System, s': System, record: string, l: Line, name: string, d: nat)
    requires d <= |s.dir.files| + 1
    requires s' == s.(rest := s'.rest, wrapped := s'.wrapped, k := s'.k, logged := s.logged + record,
                      dir := LogDir((s.dir.files + [LogFile(name, s.dir.current)])[d..], record))
    requires AddsLine(zone, s, record, l) && ConvertLines(InZone(zone), name) == l.stamp
    ensures GoesTo(StateOf(zone, s), Write(l, true, name), d, StateOf(zone, s'))
  {
    ArchivedState(zone, s.dir.files, LogFile(name, s.dir.current), d);
  }

  /** A record that is logged is a line that is written, and then files that are removed. */
  lemma AppendedState(zone: int -> int, s: System, s': System, record: string, l: Line, name: string,
                      fileSize: nat, keep: int)
    requires s' == s.(rest := s'.rest, wrapped := s'.wrapped, k := s'.k, logged := s.logged + record,
                      dir := Appended(s.dir, record, name, fileSize, keep))
    requires AddsLine(zone, s, record, l) && ConvertLines(InZone(zone), name) == l.stamp
    ensures GoesTo(StateOf(zone, s), Write(l, Fills(s.dir, record, fileSize), name),
                   Pushed(s.dir, record, fileSize, keep), StateOf(zone, s'))
  {
    if Fills(s.dir, record, fileSize) {
      FullState(zone, s, s', record, l, name, Surplus(|s.dir.files| + 1, keep));
    } else {
      FitsState(zone, s, s', record, l, name);
    }
  }

  /** The specification's other fields do not matter. */
  predicate SameLog(s: State, t: State)
  {
    && t.rotated == s.rotated && t.current == s.current && t.cursor == s.cursor && t.output == s.output
    && t.written == s.written
  }

  lemma SameLogOrderly(s: State, t: State)
    requires Orderly(s) && SameLog(s, t)
    ensures Orderly(t) && Promised(t) == Promised(s)
  {
    assert Live(t) == Live(s);
  }

  lemma WithoutFirst(u: State, t': State, d: nat)
    requires Orderly(u) && d <= |u.rotated| && SameLog(u.(rotated := u.rotated[d..]), t')
    ensures Orderly(t')
    ensures AllFinished(u.rotated[..d], u.cursor) ==> Promised(t') == Promised(u)
    ensures !AllFinished(u.rotated[..d], u.cursor) ==> |Promised(t')| < |Promised(u)|
  {
    var v := Removed(u, 0, d);
    assert u.rotated[..0] + u.rotated[d..] == u.rotated[d..] && u.rotated[0..d] == u.rotated[..d];
    OrderlyWithout(u, 0, d);
    RemovalCost(u, 0, d);
    SameLogOrderly(v, t');
  }

  /** Either everything written is still promised, or something is lost. */
  ghost predicate GoodIff(s: State, c: bool) { Orderly(s) && if c then Good(s) else Behind(s) }

  /** The files that go had been read. */
  ghost predicate GoneRead(u: State, d: nat, read: seq<Line>)
  {
    forall i :: 0 <= i < d && i < |u.rotated| ==> AllRead(u.rotated[i].lines, read)
  }

  lemma FinishedIffGoneRead(u: State, d: nat, read: seq<Line>)
    requires Orderly(u) && ReadTo(u, read) && d <= |u.rotated|
    ensures AllFinished(u.rotated[..d], u.cursor) <==> GoneRead(u, d, read)
  {
    var rs := u.rotated[..d];
    forall i | 0 <= i < d ensures Finished(rs[i].lines, u.cursor) <==> AllRead(u.rotated[i].lines, read) {
      FileInWritten(u, u.rotated[i]);
      FinishedIffRead(u, u.rotated[i].lines, read);
    }
    forall r | r in rs && GoneRead(u, d, read) ensures Finished(r.lines, u.cursor) {
      var i :| 0 <= i < d && rs[i] == r;
    }
    forall i | 0 <= i < d && AllFinished(rs, u.cursor) ensures AllRead(u.rotated[i].lines, read) {
      assert rs[i] in rs;
    }
  }

  lemma WriteGoesTo(t: State, a: Act, d: nat, t': State, read: seq<Line>)
    requires Orderly(t) && a.Write? && CanDo(t, a) && InOrder(t.written + [a.line]) && GoesTo(t, a, d, t')
    requires ReadTo(t, read)
    ensures Orderly(t') && ReadTo(t', read)
    ensures GoneRead(Do(t, a), d, read) ==> Promised(t') == Promised(t) + Filter(News(), [a.line])
    ensures !GoneRead(Do(t, a), d, read) ==> |Promised(t')| < |Promised(t) + Filter(News(), [a.line])|
  {
    OrderlyAfterWrite(t, a);
    ReadToAfter(t, a, read);
    WithoutFirst(Do(t, a), t', d);
    FinishedIffGoneRead(Do(t, a), d, read);
  }

  lemma GoodGoesTo(t: State, a: Act, d: nat, t': State, read: seq<Line>, c: bool, x: bool)
    requires GoodIff(t, c) && a.Write? && CanDo(t, a) && InOrder(t.written + [a.line]) && GoesTo(t, a, d, t')
    requires ReadTo(t, read) && (GoneRead(Do(t, a), d, read) <==> x)
    ensures ReadTo(t', read) && GoodIff(t', c && x)
  {
    WriteGoesTo(t, a, d, t', read);
    NewsAfter(t, a);
  }

  // What every move keeps

  /** The names are those of records logged before. */
  ghost predicate NamesBehind(p: Setup, s: System)
  {
    s.rest != "" ==> forall f :: f in s.dir.files ==> Less(f.name, StampAt(p.clock)(s.k))
  }

  ghost predicate InputSplit(p: Setup, input: string, s: System)
    requires p.room > 0
  {
    && s.logged + Ahead(p, s) == AllRecords(p, input)
    && s.k + RecordCount(s.rest, p.room) == RecordCount(input, p.room)
  }

  ghost predicate TextsOk(zone: int -> int, s: System)
  {
    LogText(s.logged, zone) && LogText(s.dir.current, zone) && FilesOk(s.dir.files, zone)
  }

  ghost predicate Sound(p: Setup, input: string, s: System)
    requires p.room > 0
  {
    && InputSplit(p, input, s) && TextsOk(p.zone, s) && NamesBehind(p, s)
    && Orderly(StateOf(p.zone, s)) && ReadTo(StateOf(p.zone, s), FileLines(s.read, p.zone))
  }

  /** The record that is logged next, and the line that the reader sees of it. */
  function NextItem(p: Setup, s: System): Item
    requires p.room > 0 && s.rest != ""
  {
    var piece := s.rest[..PieceLength(s.rest, p.room)];
    Item(p.clock(s.k), s.wrapped, if EndsLine(piece) then piece[..|piece| - 1] else piece)
  }

  lemma NextIsRaw(p: Setup, s: System)
    requires p.room > 0 && s.rest != ""
    ensures NextRecord(p, s) == Raw(NextItem(p, s)) + "\n"
    ensures '\n' !in NextItem(p, s).body && OneLine(Raw(NextItem(p, s)))
  {
    var piece := s.rest[..PieceLength(s.rest, p.room)];
    PieceIsOneLine(s.rest, p.room);
    assert piece[..|piece| - 1] == s.rest[..|piece| - 1];
    RecordIsRaw(p.clock(s.k), s.wrapped, piece);
    RawIsOneLine(NextItem(p, s));
  }

  lemma RawAddsLine(zone: int -> int, s: System, raw: string)
    requires Lined(s.logged) && Lined(s.dir.current) && OneLine(raw)
    ensures AddsLine(zone, s, raw + "\n", Seen(raw, zone))
  {
    LinesSnoc(s.logged, raw, zone);
    LinesSnoc(s.dir.current, raw, zone);
    FirstLineState(raw, zone);
  }

  ghost predicate FilesOk(files: seq<LogFile>, zone: int -> int)
  {
    forall f :: f in files ==> LogText(f.text, zone)
  }

  lemma FilesAfterAppend(d: LogDir, record: string, name: string, fileSize: nat, keep: int, zone: int -> int)
    requires FilesOk(d.files, zone) && LogText(d.current, zone)
    requires LogText(record, zone) && LogText(d.current + record, zone)
    ensures var d' := Appended(d, record, name, fileSize, keep); FilesOk(d'.files, zone) && LogText(d'.current, zone)
  {
    var all := d.files + [LogFile(name, d.current)];
    assert FilesOk(all, zone);
  }

  lemma TextsAfterAppend(zone: int -> int, s: System, s': System, raw: string, name: string, fileSize: nat, keep: int)
    requires TextsOk(zone, s) && Readable(raw, zone)
    requires s'.logged == s.logged + (raw + "\n") && s'.dir == Appended(s.dir, raw + "\n", name, fileSize, keep)
    ensures TextsOk(zone, s')
  {
    LogTextSnoc(s.logged, raw, zone);
    LogTextSnoc(s.dir.current, raw, zone);
    FirstLogText(raw, zone);
    FilesAfterAppend(s.dir, raw + "\n", name, fileSize, keep, zone);
  }

  /** What is still to be logged. */
  function Ahead(p: Setup, s: System): string
    requires p.room > 0
  {
    Records(s.rest, p.room, s.wrapped, StampAt(p.clock), s.k)
  }

  lemma AheadNext(p: Setup, s: System)
    requires p.room > 0 && s.rest != ""
    ensures Ahead(p, s) == NextRecord(p, s) + Ahead(p, Moved(p, s, Log))
  {
  }

  lemma NextSplit(p: Setup, input: string, s: System)
    requires p.room > 0 && s.rest != "" && InputSplit(p, input, s)
    ensures InputSplit(p, input, Moved(p, s, Log))
  {
    AheadNext(p, s);
    Associative(s.logged, NextRecord(p, s), Ahead(p, Moved(p, s, Log)));
  }

  /** What has been logged is the beginning of the whole log, and so in order. */
  lemma LoggedIsInOrder(p: Setup, input: string, s: System)
    requires Suits(p, input) && InputSplit(p, input, s) && Ended(s.logged)
    ensures InOrder(FileLines(s.logged, p.zone))
  {
    SplitConcat(s.logged, Ahead(p, s));
    EachConcat(SeenIn(p.zone), SplitLines(s.logged), SplitLines(Ahead(p, s)));
    var ls, all := FileLines(s.logged, p.zone), FileLines(AllRecords(p, input), p.zone);
    assert all[..|ls|] == ls;
    InOrderPrefix(all, |ls|);
  }

  lemma NamesAfterAppend(s: System, s': System, record: string, stamps: nat -> string, fileSize: nat, keep: int)
    requires s'.dir == Appended(s.dir, record, stamps(s.k), fileSize, keep) && s'.k == s.k + 1
    requires (forall f :: f in s.dir.files ==> Less(f.name, stamps(s.k))) && Less(stamps(s.k), stamps(s.k + 1))
    ensures forall f :: f in s'.dir.files ==> Less(f.name, stamps(s'.k))
  {
    forall f | f in s'.dir.files ensures Less(f.name, stamps(s'.k)) {
      if f in s.dir.files { Transitive(f.name, stamps(s.k), stamps(s.k + 1)); }
    }
  }

  lemma NextIsLater(p: Setup, input: string, s: System)
    requires Suits(p, input) && s.rest != "" && Moved(p, s, Log).rest != ""
    requires s.k + RecordCount(s.rest, p.room) == RecordCount(input, p.room)
    ensures Less(StampAt(p.clock)(s.k), StampAt(p.clock)(s.k + 1))
  {
    assert RecordCount(s.rest, p.room) == 1 + RecordCount(Moved(p, s, Log).rest, p.room) >= 2;
    ClockStampOrder(p.clock(s.k), p.clock(s.k + 1));
  }

  lemma NamesStayBehindNext(p: Setup, input: string, s: System)
    requires Suits(p, input) && s.rest != "" && InputSplit(p, input, s) && NamesBehind(p, s)
    ensures NamesBehind(p, Moved(p, s, Log))
  {
    if Moved(p, s, Log).rest != "" {
      NextIsLater(p, input, s);
      NamesAfterAppend(s, Moved(p, s, Log), NextRecord(p, s), StampAt(p.clock), p.fileSize, p.keep);
    }
  }

  /** The stamp of the next line is what its name is rendered as. */
  lemma NextStamp(p: Setup, input: string, s: System)
    requires Suits(p, input) && s.rest != "" && InputSplit(p, input, s)
    ensures var l := LineOf(NextItem(p, s), p.zone);
      Timed(l.stamp) && ConvertLines(InZone(p.zone), StampAt(p.clock)(s.k)) == l.stamp
  {
    var now := p.clock(s.k);
    NextIsRaw(p, s);
    assert ClockOk(now, p.zone);
    LineIsTimed(NextItem(p, s), p.zone);
    NameShown(now, p.zone);
  }

  lemma GoneAreRead(zone: int -> int, s: System, l: Line, record: string, name: string, fileSize: nat, keep: int)
    ensures GoneRead(Do(StateOf(zone, s), Write(l, Fills(s.dir, record, fileSize), name)),
                     Pushed(s.dir, record, fileSize, keep), FileLines(s.read, zone)) <==>
            RecordLosesNothing(s, record, name, fileSize, keep, zone)
  {
    var u := Do(StateOf(zone, s), Write(l, Fills(s.dir, record, fileSize), name));
    if Fills(s.dir, record, fileSize) {
      ArchivedRead(zone, Archived(s.dir, name), u.rotated, Surplus(|s.dir.files| + 1, keep), s.read);
    }
  }

  lemma ArchivedRead(zone: int -> int, files: seq<LogFile>, rs: seq<Rotated>, d: nat, read: string)
    requires |rs| == |files| && d <= |files|
    requires forall i :: 0 <= i < |files| ==> rs[i].lines == FileLines(files[i].text, zone)
    ensures (forall i :: 0 <= i < d && i < |rs| ==> AllRead(rs[i].lines, FileLines(read, zone))) <==>
            AllFilesRead(files[..d], zone, read)
  {
    forall i | 0 <= i < d && AllFilesRead(files[..d], zone, read) ensures AllRead(rs[i].lines, FileLines(read, zone)) {
      assert files[..d][i] in files[..d];
    }
  }

  lemma StateMayWrite(zone: int -> int, s: System, l: Line, full: bool, name: string)
    requires Timed(l.stamp) && forall f :: f in s.dir.files ==> Less(f.name, name)
    ensures CanDo(StateOf(zone, s), Write(l, full, name))
  {
    var rs := StateOf(zone, s).rotated;
    forall r | r in rs ensures Less(r.name, name) {
      var i :| 0 <= i < |rs| && rs[i] == r;
      assert s.dir.files[i] in s.dir.files;
    }
  }

  lemma WrittenNext(zone: int -> int, s: System, s': System, record: string, l: Line)
    requires s'.logged == s.logged + record && AddsLine(zone, s, record, l) && InOrder(FileLines(s'.logged, zone))
    ensures InOrder(StateOf(zone, s).written + [l])
  {
  }

  lemma LogGoes(zone: int -> int, s: System, s': System, record: string, l: Line, name: string,
                fileSize: nat, keep: int, c: bool)
    requires s' == s.(rest := s'.rest, wrapped := s'.wrapped, k := s'.k, logged := s.logged + record,
                      dir := Appended(s.dir, record, name, fileSize, keep))
    requires AddsLine(zone, s, record, l) && ConvertLines(InZone(zone), name) == l.stamp && Timed(l.stamp)
    requires GoodIff(StateOf(zone, s), c) && ReadTo(StateOf(zone, s), FileLines(s.read, zone))
    requires InOrder(FileLines(s'.logged, zone)) && forall f :: f in s.dir.files ==> Less(f.name, name)
    ensures ReadTo(StateOf(zone, s'), FileLines(s.read, zone))
    ensures GoodIff(StateOf(zone, s'), c && RecordLosesNothing(s, record, name, fileSize, keep, zone))
  {
    var a := Write(l, Fills(s.dir, record, fileSize), name);
    AppendedState(zone, s, s', record, l, name, fileSize, keep);
    StateMayWrite(zone, s, l, a.full, name);
    GoneAreRead(zone, s, l, record, name, fileSize, keep);
    WrittenNext(zone, s, s', record, l);
    GoodGoesTo(StateOf(zone, s), a, Pushed(s.dir, record, fileSize, keep), StateOf(zone, s'), FileLines(s.read, zone),
               c, RecordLosesNothing(s, record, name, fileSize, keep, zone));
  }

  /** The next line is readable, timed, and in order. */
  lemma NextLineOk(p: Setup, input: string, s: System)
    requires Suits(p, input) && s.rest != "" && InputSplit(p, input, s)
    ensures Readable(Raw(NextItem(p, s)), p.zone)
  {
    NextIsRaw(p, s);
    assert ClockOk(p.clock(s.k), p.zone);
    LoggedIsReadable(NextItem(p, s), p.zone);
  }

  lemma TextsAfterLog(p: Setup, input: string, s: System)
    requires Suits(p, input) && s.rest != "" && InputSplit(p, input, s) && TextsOk(p.zone, s)
    ensures TextsOk(p.zone, Moved(p, s, Log))
  {
    NextIsRaw(p, s);
    NextLineOk(p, input, s);
    TextsAfterAppend(p.zone, s, Moved(p, s, Log), Raw(NextItem(p, s)), StampAt(p.clock)(s.k), p.fileSize, p.keep);
  }

  lemma RecordGoes(zone: int -> int, s: System, s': System, raw: string, name: string,
                   fileSize: nat, keep: int, c: bool)
    requires s' == s.(rest := s'.rest, wrapped := s'.wrapped, k := s'.k, logged := s.logged + (raw + "\n"),
                      dir := Appended(s.dir, raw + "\n", name, fileSize, keep))
    requires Lined(s.logged) && Lined(s.dir.current) && OneLine(raw)
    requires ConvertLines(InZone(zone), name) == Seen(raw, zone).stamp && Timed(Seen(raw, zone).stamp)
    requires GoodIff(StateOf(zone, s), c) && ReadTo(StateOf(zone, s), FileLines(s.read, zone))
    requires InOrder(FileLines(s'.logged, zone)) && forall f :: f in s.dir.files ==> Less(f.name, name)
    ensures ReadTo(StateOf(zone, s'), FileLines(s.read, zone))
    ensures GoodIff(StateOf(zone, s'), c && RecordLosesNothing(s, raw + "\n", name, fileSize, keep, zone))
  {
    RawAddsLine(zone, s, raw);
    LogGoes(zone, s, s', raw + "\n", Seen(raw, zone), name, fileSize, keep, c);
  }

  ghost predicate RecordLosesNothing(s: System, record: string, name: string, fileSize: nat, keep: int,
                                     zone: int -> int)
  {
    Fills(s.dir, record, fileSize) ==>
      AllFilesRead(Archived(s.dir, name)[..Surplus(|s.dir.files| + 1, keep)], zone, s.read)
  }

  lemma LogIsRecord(p: Setup, s: System)
    requires p.room > 0 && s.rest != ""
    ensures var s', record, name := Moved(p, s, Log), NextRecord(p, s), StampAt(p.clock)(s.k);
      && s' == s.(rest := s'.rest, wrapped := s'.wrapped, k := s'.k, logged := s.logged + record,
                  dir := Appended(s.dir, record, name, p.fileSize, p.keep))
      && (PushesOutRead(p, s) <==> RecordLosesNothing(s, record, name, p.fileSize, p.keep, p.zone))
  {
  }

  /** Logging keeps everything promised exactly if it pushes out only what has been read. */
  lemma GoodAfterLog(p: Setup, input: string, s: System, c: bool)
    requires Suits(p, input) && s.rest != "" && Sound(p, input, s) && GoodIff(StateOf(p.zone, s), c)
    ensures GoodIff(StateOf(p.zone, Moved(p, s, Log)), c && PushesOutRead(p, s))
    ensures ReadTo(StateOf(p.zone, Moved(p, s, Log)), FileLines(s.read, p.zone))
  {
    NextIsRaw(p, s);
    NextStamp(p, input, s);
    NextIsInOrder(p, input, s);
    LogIsRecord(p, s);
    RecordGoes(p.zone, s, Moved(p, s, Log), Raw(NextItem(p, s)), StampAt(p.clock)(s.k), p.fileSize, p.keep, c);
  }

  lemma NextIsInOrder(p: Setup, input: string, s: System)
    requires Suits(p, input) && s.rest != "" && Sound(p, input, s)
    ensures InOrder(FileLines(Moved(p, s, Log).logged, p.zone))
  {
    NextSplit(p, input, s);
    TextsAfterLog(p, input, s);
    LoggedIsInOrder(p, input, Moved(p, s, Log));
  }

  lemma GoodAfterRun(t: State, c: bool)
    requires GoodIff(t, c)
    ensures GoodIff(Do(t, Watch), c)
  {
    OrderlyAfter(t, Watch);
    PromisedAfterRun(t);
  }

  lemma SoundAfter(p: Setup, input: string, s: System, m: Move, c: bool)
    requires Suits(p, input) && Sound(p, input, s) && GoodIff(StateOf(p.zone, s), c)
    ensures Sound(p, input, Moved(p, s, m))
    ensures GoodIff(StateOf(p.zone, Moved(p, s, m)), c && LosesNothing(p, s, m))
  {
    match m
    case Log =>
      if s.rest != "" {
        NextSplit(p, input, s);
        NamesStayBehindNext(p, input, s);
        TextsAfterLog(p, input, s);
        GoodAfterLog(p, input, s, c);
      }
    case Run =>
      RunIsWatch(p, s);
      GoodAfterRun(StateOf(p.zone, s), c);
      ReadToAfter(StateOf(p.zone, s), Watch, FileLines(s.read, p.zone));
  }

  lemma SoundAtStart(p: Setup, input: string)
    requires p.room > 0
    ensures Sound(p, input, Start(input)) && Good(StateOf(p.zone, Start(input)))
  {
    var s := Start(input);
    assert "" + AllRecords(p, input) == AllRecords(p, input);
    assert SplitLines("") == [] && Echoed([]) == "";
    assert StateOf(p.zone, s) == INITIAL;
    InitialGood();
  }

  lemma {:induction false} AlwaysSound(p: Setup, input: string, ms: seq<Move>)
    requires Suits(p, input)
    ensures Sound(p, input, AllMoved(p, Start(input), ms))
    ensures GoodIff(StateOf(p.zone, AllMoved(p, Start(input), ms)), NothingUnreadGoes(p, Start(input), ms))
  {
    if ms == [] {
      SoundAtStart(p, input);
    } else {
      var n := |ms| - 1;
      AlwaysSound(p, input, ms[..n]);
      SoundAfter(p, input, AllMoved(p, Start(input), ms[..n]), ms[n], NothingUnreadGoes(p, Start(input), ms[..n]));
    }
  }

  // When the lines are in order

  /** The stamps that the reader sees. */
  function ShownAt(p: Setup): nat -> string { (k: nat) => StampText(p.clock(k), p.zone) }

  /** The lines are stamped from the k-th on. */
  ghost predicate HaveStamps(ls: seq<Line>, shown: nat -> string, k: nat)
  {
    forall i :: 0 <= i < |ls| ==> ls[i].stamp == shown(k + i)
  }

  ghost predicate Stamped(ls: seq<Line>, count: nat, shown: nat -> string, k: nat)
  {
    |ls| == count && HaveStamps(ls, shown, k)
  }

  lemma HaveStampsFirst(l: Line, ls: seq<Line>, shown: nat -> string, k: nat)
    requires l.stamp == shown(k) && HaveStamps(ls, shown, k + 1)
    ensures HaveStamps([l] + ls, shown, k)
  {
    forall i | 0 <= i < |[l] + ls| ensures ([l] + ls)[i].stamp == shown(k + i) {
      if i > 0 { assert ls[i - 1].stamp == shown(k + 1 + (i - 1)); }
    }
  }

  lemma RecordsFirstLine(p: Setup, s: System)
    requires p.room > 0 && s.rest != "" && ClockOk(p.clock(s.k), p.zone)
    ensures var l := LineOf(NextItem(p, s), p.zone);
      && FileLines(Ahead(p, s), p.zone) == [l] + FileLines(Ahead(p, Moved(p, s, Log)), p.zone)
      && l.stamp == ShownAt(p)(s.k)
  {
    var raw, rest := Raw(NextItem(p, s)), Ahead(p, Moved(p, s, Log));
    AheadNext(p, s);
    NextIsRaw(p, s);
    SplitLine(raw, rest);
    EachFirst(SeenIn(p.zone), raw, SplitLines(rest));
    LineIsTimed(NextItem(p, s), p.zone);
  }

  lemma StampsAscend(ls: seq<Line>, shown: nat -> string)
    requires HaveStamps(ls, shown, 0)
    requires forall i: nat, j: nat :: i < j < |ls| ==> Less(shown(i), shown(j))
    ensures InOrder(ls)
  {
    forall i, j | 0 <= i < j < |ls| ensures OneAfterOther(ls[i], ls[j]) {
      assert ls[i].stamp == shown(0 + i) && ls[j].stamp == shown(0 + j);
      LessIsAtMost(ls[i].stamp, ls[j].stamp);
    }
  }

  /** count clock readings from the k-th on can be rendered. */
  ghost predicate Renderable(p: Setup, k: nat, count: nat)
  {
    forall i: nat :: k <= i < k + count ==> ClockOk(p.clock(i), p.zone)
  }

  lemma CountNext(p: Setup, s: System)
    requires p.room > 0 && s.rest != ""
    ensures RecordCount(s.rest, p.room) == 1 + RecordCount(Moved(p, s, Log).rest, p.room)
    ensures Moved(p, s, Log).k == s.k + 1 && |Moved(p, s, Log).rest| < |s.rest|
  {
  }

  lemma OneMoreStamped(ls: seq<Line>, l: Line, rest: seq<Line>, count: nat, shown: nat -> string, k: nat)
    requires ls == [l] + rest && l.stamp == shown(k) && Stamped(rest, count, shown, k + 1)
    ensures Stamped(ls, 1 + count, shown, k)
  {
    HaveStampsFirst(l, rest, shown, k);
  }

  /** Each record that is ahead shows as a line with its stamp. */
  ghost predicate AheadIsStamped(p: Setup, s: System)
    requires p.room > 0
  {
    Stamped(FileLines(Ahead(p, s), p.zone), RecordCount(s.rest, p.room), ShownAt(p), s.k)
  }

  lemma NothingAhead(p: Setup, s: System)
    requires p.room > 0 && s.rest == ""
    ensures AheadIsStamped(p, s)
  {
    assert Ahead(p, s) == "" && SplitLines("") == [];
  }

  lemma CountedStamps(ls: seq<Line>, l: Line, rest: seq<Line>, count: nat, restCount: nat,
                      shown: nat -> string, k: nat, next: nat)
    requires ls == [l] + rest && l.stamp == shown(k) && next == k + 1 && count == 1 + restCount
    requires Stamped(rest, restCount, shown, next)
    ensures Stamped(ls, count, shown, k)
  {
    OneMoreStamped(ls, l, rest, restCount, shown, k);
  }

  lemma OneMoreAhead(p: Setup, s: System)
    requires p.room > 0 && s.rest != "" && ClockOk(p.clock(s.k), p.zone) && AheadIsStamped(p, Moved(p, s, Log))
    ensures AheadIsStamped(p, s)
  {
    CountNext(p, s);
    RecordsFirstLine(p, s);
    AheadStampedToo(p, s, Moved(p, s, Log), LineOf(NextItem(p, s), p.zone));
  }

  lemma AheadStampedToo(p: Setup, s: System, s': System, l: Line)
    requires p.room > 0 && s'.k == s.k + 1 && RecordCount(s.rest, p.room) == 1 + RecordCount(s'.rest, p.room)
    requires FileLines(Ahead(p, s), p.zone) == [l] + FileLines(Ahead(p, s'), p.zone) && l.stamp == ShownAt(p)(s.k)
    requires AheadIsStamped(p, s')
    ensures AheadIsStamped(p, s)
  {
    CountedStamps(FileLines(Ahead(p, s), p.zone), l, FileLines(Ahead(p, s'), p.zone),
                  RecordCount(s.rest, p.room), RecordCount(s'.rest, p.room), ShownAt(p), s.k, s'.k);
  }

  lemma {:induction false} RecordsHaveStamps(p: Setup, s: System)
    requires p.room > 0 && Renderable(p, s.k, RecordCount(s.rest, p.room))
    ensures AheadIsStamped(p, s)
    decreases |s.rest|
  {
    if s.rest == "" {
      NothingAhead(p, s);
    } else {
      CountNext(p, s);
      RecordsHaveStamps(p, Moved(p, s, Log));
      OneMoreAhead(p, s);
    }
  }

  /** The first count readings have one offset, and no two are in conflict. */
  ghost predicate NoConflict(p: Setup, count: nat, gmtoff: int)
  {
    && (forall k: nat :: k < count ==> p.zone(p.clock(k) + 1) == gmtoff)
    && (forall i: nat, j: nat :: i < j < count ==> !Conflict(p.clock(i), p.clock(j), gmtoff))
  }

  lemma ClockStampsAscend(p: Setup, count: nat, gmtoff: int)
    requires AdvancingClock(p.clock, count) && Renderable(p, 0, count) && NoConflict(p, count, gmtoff)
    ensures forall i: nat, j: nat :: i < j < count ==> Less(ShownAt(p)(i), ShownAt(p)(j))
  {
    forall i: nat, j: nat | i < j < count ensures Less(ShownAt(p)(i), ShownAt(p)(j)) {
      StampsInOrder(p.clock(i), p.clock(j), p.zone, gmtoff);
    }
  }

  /** An advancing clock at one offset, with no two readings in conflict, suits every input. */
  lemma SuitsUnlessConflict(p: Setup, input: string, gmtoff: int)
    requires p.room > 0 && AdvancingClock(p.clock, RecordCount(input, p.room))
    requires Renderable(p, 0, RecordCount(input, p.room)) && NoConflict(p, RecordCount(input, p.room), gmtoff)
    ensures Suits(p, input)
  {
    var ls := FileLines(AllRecords(p, input), p.zone);
    RecordsHaveStamps(p, Start(input));
    ClockStampsAscend(p, RecordCount(input, p.room), gmtoff);
    StampsAscend(ls, ShownAt(p));
  }

  /** An hour east of Greenwich, from the start of 1970 on, a microsecond for each record. */
  function MorningSetup(room: nat, fileSize: nat, keep: int): Setup
  {
    Setup(room, (k: nat) => if k < TWO63 then k as i64 else 0, fileSize, keep, (a: int) => 3600)
  }

  /** Such a setup suits every input, as far as the day lasts. */
  lemma MorningSuits(input: string, room: nat, fileSize: nat, keep: int)
    requires room > 0 && RecordCount(input, room) < 82800 * MEGA
    ensures Suits(MorningSetup(room, fileSize, keep), input)
  {
    var p, count := MorningSetup(room, fileSize, keep), RecordCount(input, room);
    forall i: nat | i < count ensures ClockOk(p.clock(i), p.zone) { FirstDayIsOk(p.clock(i), p.zone); }
    SuitsUnlessConflict(p, input, 3600);
  }

  // The theorem

  /** Lines whose texts are whole lines are told apart by their echo. */
  lemma EchoTells(ls: seq<Line>, ks: seq<Line>)
    requires OneLineEach(TextsOf(ls)) && OneLineEach(TextsOf(ks)) && Echoed(TextsOf(ls)) == Echoed(TextsOf(ks))
    ensures |ls| == |ks|
  {
    SplitEchoed(TextsOf(ls));
    SplitEchoed(TextsOf(ks));
    assert |TextsOf(ls)| == |ls| && |TextsOf(ks)| == |ks|;
  }

  lemma LogLinesAreLines(s: string, zone: int -> int, ls: seq<Line>)
    requires LogText(s, zone) && forall l :: l in ls ==> l in FileLines(s, zone)
    ensures OneLineEach(TextsOf(ls))
  {
    var raws, all := SplitLines(s), FileLines(s, zone);
    forall t | t in TextsOf(ls) ensures OneLine(t) {
      var i :| 0 <= i < |ls| && TextsOf(ls)[i] == t;
      assert ls[i] in ls;
      var j :| 0 <= j < |all| && all[j] == ls[i];
      assert raws[j] in raws && all[j] == Seen(raws[j], zone);
    }
  }

  lemma OutputOfRun(p: Setup, input: string, s: System, c: bool)
    requires p.room > 0 && Sound(p, input, s) && GoodIff(StateOf(p.zone, s), c)
    ensures Echoed(TextsOf(Moved(p, s, Run).output)) == ConvertLines(InZone(p.zone), GrepV(s.logged)) <==> c
  {
    var t, news := StateOf(p.zone, s), Filter(News(), FileLines(s.logged, p.zone));
    RunIsWatch(p, s);
    RunFulfils(t);
    ConvertGrepped(SplitLines(s.logged), p.zone);
    if !c && Echoed(TextsOf(Promised(t))) == Echoed(TextsOf(news)) {
      FilterMembers(News(), FileLines(s.logged, p.zone));
      LogLinesAreLines(s.logged, p.zone, Promised(t));
      LogLinesAreLines(s.logged, p.zone, news);
      EchoTells(Promised(t), news);
    }
  }

  lemma AllIsLogged(p: Setup, input: string, s: System)
    requires p.room > 0 && InputSplit(p, input, s) && s.rest == ""
    ensures s.logged == AllRecords(p, input)
  {
    assert s.logged + "" == s.logged;
  }

  /** However the input is cut into records and the records into files, and whenever the script runs: after a run,
      all that it has printed so far is what grep and taiconv would make of all that was logged so far, in one
      piece, if and only if all news of every file that was pushed out had been logged when the script ran last
      before that. */
  lemma WholePath(p: Setup, input: string, ms: seq<Move>)
    requires Suits(p, input)
    ensures var s := AllMoved(p, Start(input), ms);
      && s.logged + Ahead(p, s) == AllRecords(p, input)
      && (Echoed(TextsOf(Moved(p, s, Run).output)) == ConvertLines(InZone(p.zone), GrepV(s.logged)) <==>
            NothingUnreadGoes(p, Start(input), ms))
  {
    AlwaysSound(p, input, ms);
    OutputOfRun(p, input, AllMoved(p, Start(input), ms), NothingUnreadGoes(p, Start(input), ms));
  }

  /** Only non-information lines that were logged are ever printed: */
  lemma OnlyNewsPrinted(p: Setup, input: string, ms: seq<Move>)
    requires Suits(p, input)
    ensures var s := AllMoved(p, Start(input), ms);
      forall l :: l in s.output ==> !l.info && l in FileLines(s.logged, p.zone)
  {
    AlwaysSound(p, input, ms);
    var t := StateOf(p.zone, AllMoved(p, Start(input), ms));
    forall l | l in t.output ensures !l.info && l in t.written { assert l in Promised(t); }
  }

  /** in particular no line with the information words anywhere in its body. */
  lemma InformationNeverPrinted(p: Setup, input: string, ms: seq<Move>, e: Item, i: nat)
    requires Suits(p, input) && At(e.body, " information: ", i)
    ensures LineOf(e, p.zone) !in AllMoved(p, Start(input), ms).output
  {
    OnlyNewsPrinted(p, input, ms);
    MarkedIsInfo(e, i);
    assert LineOf(e, p.zone).info == IsInfo(e);
  }

  /** In particular when all of the input has been logged. */
  lemma WholeInput(p: Setup, input: string, ms: seq<Move>)
    requires Suits(p, input) && AllMoved(p, Start(input), ms).rest == ""
    ensures var output := Moved(p, AllMoved(p, Start(input), ms), Run).output;
      Echoed(TextsOf(output)) == ConvertLines(InZone(p.zone), GrepV(AllRecords(p, input))) <==>
      NothingUnreadGoes(p, Start(input), ms)
  {
    AlwaysSound(p, input, ms);
    AllIsLogged(p, input, AllMoved(p, Start(input), ms));
    OutputOfRun(p, input, AllMoved(p, Start(input), ms), NothingUnreadGoes(p, Start(input), ms));
  }

  /** At any time the commands of the script see the files of the directory line by line. */
  lemma DirectoryIsReadable(p: Setup, input: string, ms: seq<Move>)
    requires Suits(p, input)
    ensures var d := AllMoved(p, Start(input), ms).dir;
      && ShellSeesNews(d.current, p.zone) && TailSeesLast(d.current, p.zone)
      && forall f :: f in d.files ==> ShellSeesNews(f.text, p.zone) && TailSeesLast(f.text, p.zone)
  {
    AlwaysSound(p, input, ms);
    var d := AllMoved(p, Start(input), ms).dir;
    NewsAreSeenByShell(d.current, p.zone);
    LastIsSeenByTail(d.current, p.zone);
    forall f | f in d.files ensures ShellSeesNews(f.text, p.zone) && TailSeesLast(f.text, p.zone) {
      NewsAreSeenByShell(f.text, p.zone);
      LastIsSeenByTail(f.text, p.zone);
    }
  }

  /** When no number of files is set, nothing goes; */
  lemma {:induction false} NothingGoesUnlimited(p: Setup, s: System, ms: seq<Move>)
    requires p.room > 0 && p.keep < 0
    ensures NothingUnreadGoes(p, s, ms)
  {
    if ms != [] { NothingGoesUnlimited(p, s, ms[..|ms| - 1]); }
  }

  /** when no file is kept, and every record fills one, two records without a run lose the first if it is news. */
  lemma FirstOfTwoGoes(p: Setup, input: string)
    requires p.room > 0 && p.keep == 0 && p.fileSize == 0 && input != "" && Moved(p, Start(input), Log).rest != ""
    ensures NothingUnreadGoes(p, Start(input), [Log, Log]) <==> IsInfo(NextItem(p, Start(input)))
  {
    var s := Start(input);
    FirstPushesNothing(p, input);
    SecondPushesFirst(p, input);
    TwoMoves(p, s, Log, Log);
  }

  lemma OneMoreMove(p: Setup, s: System, ms: seq<Move>, m: Move)
    requires p.room > 0
    ensures AllMoved(p, s, ms + [m]) == Moved(p, AllMoved(p, s, ms), m)
    ensures NothingUnreadGoes(p, s, ms + [m]) <==> NothingUnreadGoes(p, s, ms) && LosesNothing(p, AllMoved(p, s, ms), m)
  {
    assert (ms + [m])[..|ms|] == ms;
  }

  lemma TwoMoves(p: Setup, s: System, m: Move, n: Move)
    requires p.room > 0
    ensures NothingUnreadGoes(p, s, [m, n]) <==> LosesNothing(p, s, m) && LosesNothing(p, Moved(p, s, m), n)
  {
    OneMoreMove(p, s, [], m);
    OneMoreMove(p, s, [m], n);
    assert [] + [m] == [m] && [m] + [n] == [m, n];
  }

  lemma FirstPushesNothing(p: Setup, input: string)
    requires p.room > 0 && p.keep == 0 && p.fileSize == 0 && input != ""
    ensures PushesOutRead(p, Start(input))
    ensures Moved(p, Start(input), Log).dir == LogDir([], NextRecord(p, Start(input)))
  {
    var s := Start(input);
    assert SplitLines("") == [];
    assert Archived(s.dir, StampAt(p.clock)(0))[1..] == [];
  }

  lemma SecondPushesFirst(p: Setup, input: string)
    requires p.room > 0 && p.keep == 0 && p.fileSize == 0 && input != "" && Moved(p, Start(input), Log).rest != ""
    requires Moved(p, Start(input), Log).dir == LogDir([], NextRecord(p, Start(input)))
    ensures PushesOutRead(p, Moved(p, Start(input), Log)) <==> IsInfo(NextItem(p, Start(input)))
  {
    var s := Start(input);
    var t, l := Moved(p, s, Log), LineOf(NextItem(p, s), p.zone);
    NextIsRaw(p, s);
    FirstLineState(Raw(NextItem(p, s)), p.zone);
    OneFileRead(LogFile(StampAt(p.clock)(t.k), t.dir.current), l, p.zone);
  }

  lemma OneFileRead(f: LogFile, l: Line, zone: int -> int)
    requires FileLines(f.text, zone) == [] + [l]
    ensures AllFilesRead(([] + [f])[..1], zone, "") <==> l.info
  {
    assert SplitLines("") == [];
    assert ([] + [f])[..1] == [f];
    assert f in [f] && l in FileLines(f.text, zone);
  }

  /** What tainlog's loop makes of the directory if nothing else happens. */
  function DirAtEnd(p: Setup, s: System): LogDir
    requires p.room > 0
  {
    LoggedTo(s.dir, s.rest, p.room, s.wrapped, StampAt(p.clock), s.k, p.fileSize, p.keep)
  }

  lemma MoveKeepsDirAtEnd(p: Setup, s: System, m: Move)
    requires p.room > 0
    ensures DirAtEnd(p, Moved(p, s, m)) == DirAtEnd(p, s)
  {
  }

  /** Whenever the script runs in between, the directory is the one that tainlog's loop leaves. */
  lemma {:induction false} DirectoryIsLogged(p: Setup, s: System, ms: seq<Move>)
    requires p.room > 0
    ensures DirAtEnd(p, AllMoved(p, s, ms)) == DirAtEnd(p, s)
  {
    if ms != [] {
      DirectoryIsLogged(p, s, ms[..|ms| - 1]);
      MoveKeepsDirAtEnd(p, AllMoved(p, s, ms[..|ms| - 1]), ms[|ms| - 1]);
    }
  }
}
