/** Histories of a log directory: lines are appended, files rotated and deleted, the script executed. */
module LogHistory {
  import opened TextOrder
  import opened TextLines
  import opened LogLines
  import opened LogWatch

  /** A rotated file: its rendered name stamp, its name, its lines. */
  datatype Rotated = Rotated(iso: string, name: string, lines: seq<Line>)

  /** The directory, the cursor and everything printed so far; and, for the specification only, all lines
      ever written, those of them that were above the cursor when written, and the latest rotated entry. */
  datatype State = State(rotated: seq<Rotated>, current: seq<Line>, cursor: string, output: seq<Line>,
                         written: seq<Line>, due: seq<Line>, lastEntry: string)

  datatype Event =
    | Append(line: Line)
    | Rotate(iso: string, name: string)
    | Delete(entry: string)
    | Execute

  const INITIAL: State := State([], [], "", [], [], [], "")

  function EntryOf(iso: string, name: string): string { iso + " " + name }

  function Entry(r: Rotated): string { EntryOf(r.iso, r.name) }

  function Sources(rs: seq<Rotated>): seq<Source>
  {
    seq(|rs|, i requires 0 <= i < |rs| => Source(Entry(rs[i]), rs[i].lines))
  }

  function Without(rs: seq<Rotated>, entry: string): seq<Rotated>
  {
    if rs == [] then []
    else
      var n := |rs| - 1;
      Without(rs[..n], entry) + if Entry(rs[n]) == entry then [] else [rs[n]]
  }

  /** The lines of the rotated files in order. */
  function Flat(rs: seq<Rotated>): seq<Line>
  {
    if rs == [] then [] else Flat(rs[..|rs| - 1]) + rs[|rs| - 1].lines
  }

  function Live(s: State): seq<Line> { Flat(s.rotated) + s.current }

  function Files(s: State): seq<Source> { Sort(Sources(s.rotated)) + [Source(CURRENT, s.current)] }

  function Step(s: State, e: Event): State
  {
    match e
    case Append(l) =>
      s.(current := s.current + [l], written := s.written + [l],
         due := s.due + if Less(s.cursor, l.stamp) then [l] else [])
    case Rotate(iso, name) =>
      s.(rotated := s.rotated + [Rotated(iso, name, s.current)], current := [], lastEntry := EntryOf(iso, name))
    case Delete(entry) =>
      s.(rotated := Without(s.rotated, entry))
    case Execute =>
      s.(output := s.output + Printed(Files(s), s.cursor), cursor := NextCursor(Files(s), s.cursor))
  }

  function After(s: State, es: seq<Event>): State
  {
    if es == [] then s else Step(After(s, es[..|es| - 1]), es[|es| - 1])
  }

  // What the environment is assumed to do

  /** A rendered stamp starts with a digit; this is all the script needs of its shape. */
  predicate StampShaped(stamp: string) { stamp != "" && Less(stamp, CURRENT) }

  ghost predicate Settled(lines: seq<Line>, cursor: string)
  {
    forall l :: l in lines ==> !Less(cursor, l.stamp)
  }

  /** Stamps never go back; a file is named no earlier than its lines and after the file before it;
      a file is deleted only when all its lines are at or before the cursor. */
  ghost predicate Allowed(s: State, e: Event)
  {
    match e
    case Append(l) => StampShaped(l.stamp) && forall w :: w in s.written ==> AtMost(w.stamp, l.stamp)
    case Rotate(iso, name) =>
      Less(s.lastEntry, EntryOf(iso, name)) && forall l :: l in s.current ==> AtMost(l.stamp, iso)
    case Delete(entry) => forall r :: r in s.rotated && Entry(r) == entry ==> Settled(r.lines, s.cursor)
    case Execute => true
  }

  ghost predicate Legal(s: State, es: seq<Event>)
  {
    es != [] ==> Legal(s, es[..|es| - 1]) && Allowed(After(s, es[..|es| - 1]), es[|es| - 1])
  }

  /** An execution that finds `current` empty finds nothing new anywhere. */
  predicate Quiet(s: State, e: Event)
  {
    e.Execute? && s.current == [] ==> Filter(Above(s.cursor), Live(s)) == []
  }

  ghost predicate AllQuiet(s: State, es: seq<Event>)
  {
    es != [] ==> AllQuiet(s, es[..|es| - 1]) && Quiet(After(s, es[..|es| - 1]), es[|es| - 1])
  }

  /** Each stamp is later than all before it. */
  ghost predicate Strict(s: State, es: seq<Event>)
  {
    es != [] ==>
      && Strict(s, es[..|es| - 1])
      && (es[|es| - 1].Append? ==>
            forall w :: w in After(s, es[..|es| - 1]).written ==> Less(w.stamp, es[|es| - 1].line.stamp))
  }

  // What every history keeps

  predicate Within(r: Rotated) { forall l :: l in r.lines ==> AtMost(l.stamp, r.iso) }

  /** Entries ascend up to the bound, and no line is later than the name of its file. */
  predicate Archive(rs: seq<Rotated>, bound: string)
  {
    rs != [] ==>
      var r := rs[|rs| - 1];
      AtMost(Entry(r), bound) && Within(r) && Archive(rs[..|rs| - 1], Entry(r))
  }

  ghost predicate WrittenOk(written: seq<Line>)
  {
    Ascending(written) && forall l :: l in written ==> StampShaped(l.stamp)
  }

  ghost predicate CursorOk(cursor: string, written: seq<Line>)
  {
    cursor == "" || exists w :: w in written && w.stamp == cursor
  }

  ghost predicate Inv(s: State)
  {
    && WrittenOk(s.written)
    && CursorOk(s.cursor, s.written)
    && EndsWith(s.written, s.current)
    && Ascending(s.due)
    && (forall l :: l in s.due ==> l in s.written)
    && (forall l :: l in Live(s) ==> l in s.written)
    && Archive(s.rotated, s.lastEntry)
    && Filter(Above(s.cursor), s.due) == Filter(Above(s.cursor), Live(s))
  }

  /** Exactly the lines due up to the cursor have been printed, once each and in order. */
  predicate Delivered(s: State)
  {
    s.output == Filter(News(), Filter(UpTo(s.cursor), s.due))
  }

  // The listing

  lemma {:induction false} ArchiveEntries(rs: seq<Rotated>, bound: string)
    requires Archive(rs, bound)
    ensures forall i :: 0 <= i < |rs| ==> AtMost(Entry(rs[i]), bound) && Within(rs[i])
    ensures forall i, j :: 0 <= i < j < |rs| ==> AtMost(Entry(rs[i]), Entry(rs[j]))
  {
    if rs != [] {
      var n := |rs| - 1;
      ArchiveEntries(rs[..n], Entry(rs[n]));
      forall i | 0 <= i < n ensures AtMost(Entry(rs[i]), bound) && AtMost(Entry(rs[i]), Entry(rs[n])) && Within(rs[i]) {
        assert rs[..n][i] == rs[i];
        AtMostTransitive(Entry(rs[i]), Entry(rs[n]), bound);
      }
      forall i, j | 0 <= i < j < n ensures AtMost(Entry(rs[i]), Entry(rs[j])) {
        assert rs[..n][i] == rs[i] && rs[..n][j] == rs[j];
      }
    }
  }

  /** The rotated files are listed in the order in which they were made. */
  lemma ListingInOrder(rs: seq<Rotated>, bound: string)
    requires Archive(rs, bound)
    ensures Sort(Sources(rs)) == Sources(rs)
  {
    ArchiveEntries(rs, bound);
    SortKeepsSorted(Sources(rs));
  }

  /** A skipped file has nothing to print. */
  lemma SkippedIsSettled(r: Rotated, cursor: string)
    requires Within(r) && Less(Entry(r), cursor)
    ensures Settled(r.lines, cursor)
    ensures FileNews(r.lines, cursor) == []
  {
    forall l | l in r.lines ensures !Less(cursor, l.stamp) {
      ExtensionAbove(r.iso, " " + r.name);
      assert r.iso + (" " + r.name) == Entry(r);
      AtMostTransitive(l.stamp, r.iso, Entry(r));
      AtMostThenLess(l.stamp, Entry(r), cursor);
      LessIsAtMost(l.stamp, cursor);
    }
    SettledPrintsNothing(r.lines, cursor);
  }

  lemma SettledPrintsNothing(lines: seq<Line>, cursor: string)
    requires Settled(lines, cursor)
    ensures FileNews(lines, cursor) == [] && Filter(Above(cursor), lines) == []
  {
    FilterMembers(News(), lines);
    FilterNone(Above(cursor), Filter(News(), lines));
    FilterNone(Above(cursor), lines);
  }

  lemma FileNewsConcat(s: seq<Line>, t: seq<Line>, cursor: string)
    ensures FileNews(s + t, cursor) == FileNews(s, cursor) + FileNews(t, cursor)
  {
    FilterConcat(News(), s, t);
    FilterConcat(Above(cursor), Filter(News(), s), Filter(News(), t));
  }

  lemma {:induction false} PrintedArchive(rs: seq<Rotated>, bound: string, cursor: string)
    requires Archive(rs, bound)
    ensures Printed(Sources(rs), cursor) == FileNews(Flat(rs), cursor)
  {
    if rs != [] {
      var n := |rs| - 1;
      PrintedArchive(rs[..n], Entry(rs[n]), cursor);
      assert Sources(rs)[..n] == Sources(rs[..n]);
      FileNewsConcat(Flat(rs[..n]), rs[n].lines, cursor);
      if Less(Entry(rs[n]), cursor) { SkippedIsSettled(rs[n], cursor); }
    }
  }

  lemma CurrentIsRead(s: State)
    requires WrittenOk(s.written) && CursorOk(s.cursor, s.written)
    ensures !Less(CURRENT, s.cursor)
  {
    if s.cursor != "" {
      var w :| w in s.written && w.stamp == s.cursor;
      LessIsAtMost(s.cursor, CURRENT);
    }
  }

  /** One execution prints the new non-information lines of the whole directory, in order:
      skipping files by name loses nothing. */
  lemma PrintedIsNews(s: State)
    requires Inv(s)
    ensures Printed(Files(s), s.cursor) == FileNews(Live(s), s.cursor)
    ensures NextStamp(Files(s), s.cursor) == LastStamp(s.current)
  {
    ListingInOrder(s.rotated, s.lastEntry);
    CurrentIsRead(s);
    var files := Files(s);
    assert files[..|files| - 1] == Sources(s.rotated);
    PrintedArchive(s.rotated, s.lastEntry, s.cursor);
    FileNewsConcat(Flat(s.rotated), s.current, s.cursor);
  }

  /** In terms of what is due: one execution prints it from the cursor on. */
  lemma PrintedIsDue(s: State)
    requires Inv(s)
    ensures Printed(Files(s), s.cursor) == Filter(News(), Filter(Above(s.cursor), s.due))
  {
    PrintedIsNews(s);
    FilterCommute(Above(s.cursor), News(), Live(s));
  }

  // Every event keeps the invariant

  lemma CursorBelowWritten(cursor: string, written: seq<Line>, next: string)
    requires CursorOk(cursor, written) && forall w :: w in written ==> AtMost(w.stamp, next)
    ensures AtMost(cursor, next)
  {
    if cursor == "" {
      Total("", next);
      Irreflexive("");
    }
  }

  /** The last line of `current` is the last line written, and none is later. */
  lemma LastLineIsLatest(s: State)
    requires Inv(s) && s.current != []
    ensures s.written != [] && LastStamp(s.current) == s.written[|s.written| - 1].stamp
    ensures forall w :: w in s.written ==> AtMost(w.stamp, LastStamp(s.current))
  {
    var n := |s.written| - 1;
    var last := s.written[n].stamp;
    assert s.written[|s.written| - |s.current|..][|s.current| - 1] == s.written[n];
    forall w | w in s.written ensures AtMost(w.stamp, last) {
      var i :| 0 <= i < |s.written| && s.written[i] == w;
      if i == n { Irreflexive(last); }
    }
  }

  lemma CursorAfterExecute(s: State)
    requires Inv(s)
    ensures Step(s, Execute).cursor == if Less(LastStamp(s.current), s.cursor) then s.cursor else LastStamp(s.current)
  {
    PrintedIsNews(s);
  }

  lemma NothingBelowEmpty(c: string)
    ensures AtMost(c, c) && (Less("", c) || c == "")
  {
    Irreflexive(c);
  }

  /** The cursor moves to the stamp of the last line written, unless `current` is empty. */
  lemma ExecuteCursor(s: State)
    requires Inv(s)
    ensures s.current == [] ==> Step(s, Execute).cursor == s.cursor
    ensures s.current != [] ==>
      && Step(s, Execute).cursor == s.written[|s.written| - 1].stamp
      && forall w :: w in s.written ==> AtMost(w.stamp, Step(s, Execute).cursor)
    ensures AtMost(s.cursor, Step(s, Execute).cursor)
  {
    CursorAfterExecute(s);
    NothingBelowEmpty(s.cursor);
    if s.current != [] {
      LastLineIsLatest(s);
      CursorBelowWritten(s.cursor, s.written, LastStamp(s.current));
    }
  }

  lemma FilterSnoc(p: Line -> bool, ls: seq<Line>, l: Line)
    ensures Filter(p, ls + [l]) == Filter(p, ls) + if p(l) then [l] else []
  {
    FilterConcat(p, ls, [l]);
    FilterOne(p, l);
  }

  /** A line above the cursor becomes due; one that is not is never seen by the filter. */
  lemma AppendPending(due: seq<Line>, live: seq<Line>, l: Line, c: string)
    requires Filter(Above(c), due) == Filter(Above(c), live)
    ensures var due' := due + if Less(c, l.stamp) then [l] else [];
      && Filter(Above(c), due') == Filter(Above(c), live + [l])
      && Filter(UpTo(c), due') == Filter(UpTo(c), due)
  {
    FilterSnoc(Above(c), live, l);
    if Less(c, l.stamp) {
      FilterSnoc(Above(c), due, l);
      FilterSnoc(UpTo(c), due, l);
    } else {
      assert due + [] == due;
    }
  }

  lemma WrittenSnoc(written: seq<Line>, l: Line, cursor: string)
    requires WrittenOk(written) && CursorOk(cursor, written) && StampShaped(l.stamp)
    requires forall w :: w in written ==> AtMost(w.stamp, l.stamp)
    ensures WrittenOk(written + [l]) && CursorOk(cursor, written + [l])
  {
    SnocAscending(written, written, l);
    if cursor != "" {
      var w :| w in written && w.stamp == cursor;
      assert w in written + [l];
    }
  }

  lemma DueSnoc(s: State, l: Line)
    requires Inv(s) && Allowed(s, Append(l))
    ensures var due := Step(s, Append(l)).due;
      Ascending(due) && forall k :: k in due ==> k in s.written + [l]
  {
    SnocAscending(s.due, s.written, l);
    assert s.due + [] == s.due;
  }

  lemma KeptByAppend(s: State, l: Line)
    requires Inv(s) && Allowed(s, Append(l))
    ensures Inv(Step(s, Append(l)))
    ensures Delivered(s) ==> Delivered(Step(s, Append(l)))
  {
    var s' := Step(s, Append(l));
    assert Live(s') == Live(s) + [l];
    AppendPending(s.due, Live(s), l, s.cursor);
    WrittenSnoc(s.written, l, s.cursor);
    DueSnoc(s, l);
    EndsWithConcat(s.written, s.current, [l]);
  }

  lemma ArchiveWeaken(rs: seq<Rotated>, bound: string, bound': string)
    requires Archive(rs, bound) && AtMost(bound, bound')
    ensures Archive(rs, bound')
  {
    if rs != [] { AtMostTransitive(Entry(rs[|rs| - 1]), bound, bound'); }
  }

  lemma KeptByRotate(s: State, iso: string, name: string)
    requires Inv(s) && Allowed(s, Rotate(iso, name))
    ensures Inv(Step(s, Rotate(iso, name)))
    ensures Delivered(s) ==> Delivered(Step(s, Rotate(iso, name)))
  {
    var r := Rotated(iso, name, s.current);
    var s' := Step(s, Rotate(iso, name));
    LessIsAtMost(s.lastEntry, Entry(r));
    ArchiveWeaken(s.rotated, s.lastEntry, Entry(r));
    Irreflexive(Entry(r));
    assert s'.rotated[..|s.rotated|] == s.rotated;
    assert Live(s') == Live(s);
    assert s.written[|s.written|..] == [];
  }

  lemma {:induction false} WithoutProperties(rs: seq<Rotated>, bound: string, entry: string, cursor: string)
    requires Archive(rs, bound)
    requires forall r :: r in rs && Entry(r) == entry ==> Settled(r.lines, cursor)
    ensures Archive(Without(rs, entry), bound)
    ensures forall l :: l in Flat(Without(rs, entry)) ==> l in Flat(rs)
    ensures Filter(Above(cursor), Flat(Without(rs, entry))) == Filter(Above(cursor), Flat(rs))
  {
    if rs != [] {
      var n := |rs| - 1;
      var r, kept := rs[n], Without(rs[..n], entry);
      WithoutProperties(rs[..n], Entry(r), entry, cursor);
      FilterConcat(Above(cursor), Flat(rs[..n]), r.lines);
      if Entry(r) == entry {
        SettledPrintsNothing(r.lines, cursor);
        assert Without(rs, entry) == kept;
        ArchiveWeaken(kept, Entry(r), bound);
      } else {
        FilterConcat(Above(cursor), Flat(kept), r.lines);
        assert (kept + [r])[..|kept|] == kept;
      }
    }
  }

  lemma KeptByDelete(s: State, entry: string)
    requires Inv(s) && Allowed(s, Delete(entry))
    ensures Inv(Step(s, Delete(entry)))
    ensures Delivered(s) ==> Delivered(Step(s, Delete(entry)))
  {
    var s' := Step(s, Delete(entry));
    WithoutProperties(s.rotated, s.lastEntry, entry, s.cursor);
    FilterConcat(Above(s.cursor), Flat(s.rotated), s.current);
    FilterConcat(Above(s.cursor), Flat(s'.rotated), s.current);
  }

  lemma AllSettled(ls: seq<Line>, cursor: string)
    requires forall l :: l in ls ==> AtMost(l.stamp, cursor)
    ensures Filter(Above(cursor), ls) == [] && Filter(UpTo(cursor), ls) == ls
  {
    FilterNone(Above(cursor), ls);
    FilterAll(UpTo(cursor), ls);
  }

  /** The cursor has reached the last line written. */
  lemma CursorAtEnd(s: State, cursor: string)
    requires Inv(s) && s.written != [] && cursor == s.written[|s.written| - 1].stamp
    requires forall w :: w in s.written ==> AtMost(w.stamp, cursor)
    ensures CursorOk(cursor, s.written)
    ensures Filter(Above(cursor), s.due) == Filter(Above(cursor), Live(s)) == []
  {
    assert s.written[|s.written| - 1] in s.written;
    AllSettled(s.due, cursor);
    AllSettled(Live(s), cursor);
  }

  lemma InvKeptByExecute(s: State)
    requires Inv(s)
    ensures Inv(Step(s, Execute))
  {
    var s' := Step(s, Execute);
    ExecuteCursor(s);
    assert Live(s') == Live(s);
    if s.current != [] { CursorAtEnd(s, s'.cursor); }
  }

  /** After a quiet execution nothing due is above the cursor. */
  lemma NothingLeft(s: State, cursor: string)
    requires Inv(s) && Quiet(s, Execute)
    requires s.current == [] ==> cursor == s.cursor
    requires s.current != [] ==> forall w :: w in s.written ==> AtMost(w.stamp, cursor)
    ensures Filter(UpTo(cursor), s.due) == s.due
  {
    if s.current != [] {
      AllSettled(s.due, cursor);
    } else {
      Split(s.cursor, s.due);
      assert s.due == Filter(UpTo(s.cursor), s.due) + [];
    }
  }

  lemma NewsInTwoParts(due: seq<Line>, c: string)
    requires Ascending(due)
    ensures Filter(News(), due) == Filter(News(), Filter(UpTo(c), due)) + Filter(News(), Filter(Above(c), due))
  {
    var past, next := Filter(UpTo(c), due), Filter(Above(c), due);
    Split(c, due);
    FilterConcat(News(), past, next);
    assert due == past + next;
  }

  /** What is printed completes the output, if it is what is due above the cursor. */
  lemma OutputCompleted(s: State)
    requires Ascending(s.due) && Delivered(s)
    requires Printed(Files(s), s.cursor) == Filter(News(), Filter(Above(s.cursor), s.due))
    ensures Step(s, Execute).output == Filter(News(), s.due)
  {
    NewsInTwoParts(s.due, s.cursor);
  }

  lemma ExecutionCompletes(s: State)
    requires Inv(s) && Delivered(s)
    ensures Step(s, Execute).output == Filter(News(), s.due)
  {
    PrintedIsDue(s);
    OutputCompleted(s);
  }

  lemma DeliveredByExecute(s: State)
    requires Inv(s) && Delivered(s) && Quiet(s, Execute)
    ensures Delivered(Step(s, Execute))
  {
    ExecutionCompletes(s);
    ExecuteCursor(s);
    NothingLeft(s, Step(s, Execute).cursor);
  }

  lemma Kept(s: State, e: Event)
    requires Inv(s) && Allowed(s, e)
    ensures Inv(Step(s, e))
    ensures Delivered(s) && Quiet(s, e) ==> Delivered(Step(s, e))
  {
    match e
    case Append(l) => KeptByAppend(s, l);
    case Rotate(iso, name) => KeptByRotate(s, iso, name);
    case Delete(entry) => KeptByDelete(s, entry);
    case Execute => InvKeptByExecute(s); if Delivered(s) && Quiet(s, e) { DeliveredByExecute(s); }
  }

  lemma InitialOk()
    ensures Inv(INITIAL) && Delivered(INITIAL)
  {
  }

  lemma {:induction false} Reachable(s: State, es: seq<Event>)
    requires Inv(s) && Legal(s, es)
    ensures Inv(After(s, es))
    ensures Delivered(s) && AllQuiet(s, es) ==> Delivered(After(s, es))
  {
    if es != [] {
      var n := |es| - 1;
      Reachable(s, es[..n]);
      Kept(After(s, es[..n]), es[n]);
    }
  }
}
