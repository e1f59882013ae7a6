/** Exactly once, or not: what the stamps of the lines must be like for the reader to print each line once,
    whenever it runs and however files are rotated. */
module LogDelivery {
  import opened TextOrder
  import opened TextLines
  import opened LogLines
  import opened LogWatch
  import opened LogHistory
  import opened LogTheorems

  /** A line is logged, as the first of a new file when the old one is full, which then gets its name from
      the stamp of the line; the script runs; a rotated file is removed. */
  datatype Act =
    | Write(line: Line, full: bool, name: string)
    | Watch
    | Remove(i: nat)

  function Do(s: State, a: Act): State
  {
    match a
    case Write(l, full, name) => Step(if full then Step(s, Rotate(l.stamp, name)) else s, Append(l))
    case Watch => Step(s, Execute)
    case Remove(i) => if i < |s.rotated| then s.(rotated := s.rotated[..i] + s.rotated[i + 1..]) else s
  }

  function DoAll(s: State, acts: seq<Act>): State
  {
    if acts == [] then s else Do(DoAll(s, acts[..|acts| - 1]), acts[|acts| - 1])
  }

  /** The lines logged. */
  function Logged(acts: seq<Act>): seq<Line>
  {
    if acts == [] then []
    else
      var a := acts[|acts| - 1];
      Logged(acts[..|acts| - 1]) + if a.Write? then [a.line] else []
  }

  /** A rendered time: it starts with a digit, and there is no blank after that behind the date. */
  predicate Timed(stamp: string)
  {
    StampShaped(stamp) && |stamp| > 10 && forall i :: 10 < i < |stamp| ==> ' ' < stamp[i]
  }

  /** All that a reader wants to see of these lines has been seen. */
  ghost predicate Finished(lines: seq<Line>, cursor: string)
  {
    forall l :: l in lines ==> l.info || !Less(cursor, l.stamp)
  }

  /** Names of files ascend. */
  ghost predicate CanDo(s: State, a: Act)
  {
    match a
    case Write(l, full, name) => Timed(l.stamp) && (full ==> forall r :: r in s.rotated ==> Less(r.name, name))
    case Watch => true
    case Remove(i) => i < |s.rotated|
  }

  /** And only finished files are removed. */
  ghost predicate MayDo(s: State, a: Act)
  {
    CanDo(s, a) && (a.Remove? ==> Finished(s.rotated[a.i].lines, s.cursor))
  }

  ghost predicate Possible(acts: seq<Act>)
  {
    acts != [] ==> Possible(acts[..|acts| - 1]) && CanDo(DoAll(INITIAL, acts[..|acts| - 1]), acts[|acts| - 1])
  }

  ghost predicate Proper(acts: seq<Act>)
  {
    acts != [] ==> Proper(acts[..|acts| - 1]) && MayDo(DoAll(INITIAL, acts[..|acts| - 1]), acts[|acts| - 1])
  }

  /** After each run of the script its output so far is exactly the non-information lines logged so far,
      once each and in order. */
  predicate Exact(acts: seq<Act>)
  {
    acts != [] ==>
      && Exact(acts[..|acts| - 1])
      && (acts[|acts| - 1].Watch? ==> DoAll(INITIAL, acts).output == Filter(News(), Logged(acts)))
  }

  /** Whenever the script runs, and whenever files are rotated and finished files removed. */
  ghost predicate AlwaysExact(ls: seq<Line>)
  {
    forall acts :: Proper(acts) && Logged(acts) == ls ==> Exact(acts)
  }

  /** The condition on a line k and a later line l: two information lines may have any stamps, otherwise
      stamps advance, except that an information line may share the stamp of a line before it. */
  predicate OneAfterOther(k: Line, l: Line)
  {
    (k.info || AtMost(k.stamp, l.stamp)) && (l.info || Less(k.stamp, l.stamp))
  }

  ghost predicate InOrder(ls: seq<Line>)
  {
    forall i, j :: 0 <= i < j < |ls| ==> OneAfterOther(ls[i], ls[j])
  }

  ghost predicate AllTimed(ls: seq<Line>) { forall l :: l in ls ==> Timed(l.stamp) }

  // What is kept as long as the lines are in order

  predicate HasNews(ls: seq<Line>) { exists l :: l in ls && !l.info }

  /** File q was made after file r. */
  ghost predicate MadeAfter(r: Rotated, q: Rotated)
  {
    Less(r.name, q.name) && NewsFrom(r.iso, q.lines)
  }

  /** The news among these lines are not earlier than the stamp, */
  ghost predicate NewsFrom(stamp: string, ls: seq<Line>) { forall l :: l in ls && !l.info ==> AtMost(stamp, l.stamp) }

  /** or not later. */
  ghost predicate NewsUpTo(stamp: string, ls: seq<Line>) { forall l :: l in ls && !l.info ==> AtMost(l.stamp, stamp) }

  ghost predicate Filed(rs: seq<Rotated>)
  {
    rs != [] ==>
      var n := |rs| - 1;
      && Filed(rs[..n])
      && Timed(rs[n].iso) && NewsUpTo(rs[n].iso, rs[n].lines)
      && forall r :: r in rs[..n] ==> MadeAfter(r, rs[n])
  }

  /** Every rotated file is named by the stamp of a line, and nothing new in `current` is earlier. */
  ghost predicate NamedByLines(s: State)
  {
    forall r :: r in s.rotated ==> (exists w :: w in s.written && w.stamp == r.iso) && NewsFrom(r.iso, s.current)
  }

  ghost predicate LinesOk(s: State)
  {
    && InOrder(s.written) && AllTimed(s.written) && CursorOk(s.cursor, s.written)
    && EndsWith(s.written, s.current) && (s.current == [] ==> s.written == [])
  }

  ghost predicate LiveOk(s: State) { forall l :: l in Live(s) ==> l in s.written }

  /** What has been printed, and what the next run will print. */
  function Promised(s: State): seq<Line> { s.output + FileNews(Live(s), s.cursor) }

  ghost predicate PromisedOk(promised: seq<Line>, written: seq<Line>)
  {
    StrictlyAscending(promised) && forall l :: l in promised ==> l in written && !l.info
  }

  /** What is kept whatever is removed. */
  ghost predicate Orderly(s: State)
  {
    LinesOk(s) && Filed(s.rotated) && NamedByLines(s) && LiveOk(s) && PromisedOk(Promised(s), s.written)
  }

  /** And as long as nothing unread is removed. */
  ghost predicate Good(s: State) { Orderly(s) && Promised(s) == Filter(News(), s.written) }

  // Lines in order

  lemma InOrderPrefix(ls: seq<Line>, n: nat)
    requires InOrder(ls) && n <= |ls|
    ensures InOrder(ls[..n])
  {
  }

  lemma InOrderLast(ls: seq<Line>, l: Line)
    requires InOrder(ls + [l])
    ensures InOrder(ls) && forall k :: k in ls ==> OneAfterOther(k, l)
  {
    var all := ls + [l];
    assert all[..|ls|] == ls;
    InOrderPrefix(all, |ls|);
    forall k | k in ls ensures OneAfterOther(k, l) {
      var i :| 0 <= i < |ls| && ls[i] == k;
      assert OneAfterOther(all[i], all[|ls|]);
    }
  }

  /** News of lines in order have advancing stamps. */
  lemma {:induction false} NewsAscend(ls: seq<Line>)
    requires InOrder(ls)
    ensures StrictlyAscending(Filter(News(), ls))
  {
    if ls != [] {
      var n := |ls| - 1;
      InOrderPrefix(ls, n);
      NewsAscend(ls[..n]);
      FilterMembers(News(), ls[..n]);
      if !ls[n].info {
        forall i | 0 <= i < n ensures Less(ls[..n][i].stamp, ls[n].stamp) { assert OneAfterOther(ls[i], ls[n]); }
        SnocStrict(Filter(News(), ls[..n]), ls[..n], ls[n]);
      }
    }
  }

  /** No news are later than the last line. */
  lemma LastIsLatest(ls: seq<Line>)
    requires InOrder(ls) && ls != []
    ensures NewsUpTo(ls[|ls| - 1].stamp, ls)
  {
    var n := |ls| - 1;
    Irreflexive(ls[n].stamp);
    forall l | l in ls && !l.info ensures AtMost(l.stamp, ls[n].stamp) {
      var i :| 0 <= i < |ls| && ls[i] == l;
      if i < n { assert OneAfterOther(ls[i], ls[n]); }
    }
  }

  // Files are listed in an order that does for their news

  lemma EntriesInOrder(s: string, t: string, m: string, n: string)
    requires Timed(s) && Timed(t) && AtMost(s, t) && Less(m, n)
    ensures Less(EntryOf(s, m), EntryOf(t, n))
  {
    Associative(s, " ", m);
    Associative(t, " ", n);
    Total(s, t);
    if s == t {
      CommonPrefix(s + " ", m, n);
    } else {
      LongerIsLater(s, " " + m, t, " " + n);
    }
  }

  /** A blank after a time decides nothing that the time itself does not. */
  lemma LongerIsLater(s: string, u: string, t: string, v: string)
    requires Timed(s) && Timed(t) && Less(s, t) && u != "" && u[0] == ' '
    ensures Less(s + u, t + v)
  {
    LessUnlessPrefix(s, u, t, v);
    if |s| < |t| && t[..|s|] == s {
      assert ' ' < t[|s|];
      var rest := t[|s|..];
      assert t == s + rest;
      Associative(s, rest, v);
      assert (rest + v)[0] == t[|s|];
      CommonPrefix(s, u, rest + v);
    }
  }

  lemma {:induction false} LessUnlessPrefix(s: string, u: string, t: string, v: string)
    requires Less(s, t)
    ensures (|s| < |t| && t[..|s|] == s) || Less(s + u, t + v)
  {
    if s == "" {
      assert t[..0] == s;
    } else {
      assert (s + u)[1..] == s[1..] + u && (t + v)[1..] == t[1..] + v;
      if s[0] == t[0] {
        LessUnlessPrefix(s[1..], u, t[1..], v);
        if |s| < |t| && t[1..][..|s| - 1] == s[1..] { assert t[..|s|] == [t[0]] + t[1..][..|s| - 1] == s; }
      }
    }
  }

  lemma MadeAfterIsListedAfter(r: Rotated, q: Rotated)
    requires Timed(r.iso) && Timed(q.iso) && MadeAfter(r, q) && HasNews(q.lines) && NewsUpTo(q.iso, q.lines)
    ensures AtMost(Entry(r), Entry(q))
  {
    var l :| l in q.lines && !l.info;
    AtMostTransitive(r.iso, l.stamp, q.iso);
    EntriesInOrder(r.iso, q.iso, r.name, q.name);
    LessIsAtMost(Entry(r), Entry(q));
  }

  lemma NoNewsNothingPrinted(lines: seq<Line>, cursor: string)
    requires Finished(lines, cursor)
    ensures FileNews(lines, cursor) == []
  {
    FilterMembers(News(), lines);
    FilterNone(Above(cursor), Filter(News(), lines));
  }

  /** A skipped file has nothing to print. */
  lemma SkippedIsFinished(r: Rotated, cursor: string)
    requires NewsUpTo(r.iso, r.lines) && Less(Entry(r), cursor)
    ensures FileNews(r.lines, cursor) == []
  {
    ExtensionAbove(r.iso, " " + r.name);
    Associative(r.iso, " ", r.name);
    forall l | l in r.lines && !l.info ensures !Less(cursor, l.stamp) {
      AtMostTransitive(l.stamp, r.iso, Entry(r));
      AtMostThenLess(l.stamp, Entry(r), cursor);
      LessIsAtMost(l.stamp, cursor);
    }
    NoNewsNothingPrinted(r.lines, cursor);
  }

  function PrintedOf(f: Source, cursor: string): seq<Line>
  {
    if Less(f.entry, cursor) then [] else FileNews(f.lines, cursor)
  }

  lemma PrintedSnoc(files: seq<Source>, f: Source, cursor: string)
    ensures Printed(files + [f], cursor) == Printed(files, cursor) + PrintedOf(f, cursor)
  {
    assert (files + [f])[..|files|] == files;
  }

  /** A file that is inserted before others has nothing to print. */
  lemma {:induction false} PrintedInsert(files: seq<Source>, f: Source, cursor: string)
    requires PrintedOf(f, cursor) == [] || forall g :: g in files ==> AtMost(g.entry, f.entry)
    ensures Printed(Insert(files, f), cursor) == Printed(files, cursor) + PrintedOf(f, cursor)
  {
    if files == [] || !Less(f.entry, files[|files| - 1].entry) {
      PrintedSnoc(files, f, cursor);
    } else {
      var n := |files| - 1;
      assert files[n] in files;
      PrintedInsert(files[..n], f, cursor);
      PrintedSnoc(Insert(files[..n], f), files[n], cursor);
    }
  }

  lemma SortedMembers(files: seq<Source>, g: Source)
    requires g in Sort(files)
    ensures g in files
  {
    SortSorts(files);
    assert g in multiset(Sort(files));
  }

  lemma {:induction false} FiledTimed(rs: seq<Rotated>, r: Rotated)
    requires Filed(rs) && r in rs
    ensures Timed(r.iso)
  {
    if r != rs[|rs| - 1] { FiledTimed(rs[..|rs| - 1], r); }
  }

  lemma ListedMember(rs: seq<Rotated>, g: Source) returns (r: Rotated)
    requires g in Sort(Sources(rs))
    ensures r in rs && g.entry == Entry(r)
  {
    SortedMembers(Sources(rs), g);
    var i :| 0 <= i < |rs| && Sources(rs)[i] == g;
    r := rs[i];
  }

  lemma LastListedLast(rs: seq<Rotated>, g: Source)
    requires rs != [] && Filed(rs) && HasNews(rs[|rs| - 1].lines) && g in Sort(Sources(rs[..|rs| - 1]))
    ensures AtMost(g.entry, Entry(rs[|rs| - 1]))
  {
    var r := ListedMember(rs[..|rs| - 1], g);
    FiledTimed(rs[..|rs| - 1], r);
    MadeAfterIsListedAfter(r, rs[|rs| - 1]);
  }

  /** Whatever the order of the list, what is printed of the rotated files is their news in order. */
  lemma {:induction false} PrintedOfFiled(rs: seq<Rotated>, cursor: string)
    requires Filed(rs)
    ensures Printed(Sort(Sources(rs)), cursor) == FileNews(Flat(rs), cursor)
  {
    if rs != [] {
      var n := |rs| - 1;
      var f := Source(Entry(rs[n]), rs[n].lines);
      PrintedOfFiled(rs[..n], cursor);
      assert Sources(rs)[..n] == Sources(rs[..n]) && Sources(rs)[n] == f;
      FileNewsConcat(Flat(rs[..n]), rs[n].lines, cursor);
      if Less(f.entry, cursor) { SkippedIsFinished(rs[n], cursor); }
      if HasNews(f.lines) {
        forall g | g in Sort(Sources(rs[..n])) ensures AtMost(g.entry, f.entry) { LastListedLast(rs, g); }
      } else {
        NoNewsNothingPrinted(f.lines, cursor);
      }
      PrintedInsert(Sort(Sources(rs[..n])), f, cursor);
    }
  }

  lemma CursorBelowCurrent(cursor: string, written: seq<Line>)
    requires AllTimed(written) && CursorOk(cursor, written)
    ensures !Less(CURRENT, cursor)
  {
    if cursor != "" {
      var w :| w in written && w.stamp == cursor;
      LessIsAtMost(cursor, CURRENT);
    }
  }

  /** `current` is read last. */
  lemma CurrentIsLast(s: State)
    requires !Less(CURRENT, s.cursor)
    ensures Printed(Files(s), s.cursor) == Printed(Sort(Sources(s.rotated)), s.cursor) + FileNews(s.current, s.cursor)
    ensures NextStamp(Files(s), s.cursor) == LastStamp(s.current)
  {
    PrintedSnoc(Sort(Sources(s.rotated)), Source(CURRENT, s.current), s.cursor);
  }

  lemma RunPrintsNews(s: State)
    requires LinesOk(s) && Filed(s.rotated)
    ensures Printed(Files(s), s.cursor) == FileNews(Live(s), s.cursor)
    ensures NextStamp(Files(s), s.cursor) == LastStamp(s.current)
  {
    CursorBelowCurrent(s.cursor, s.written);
    CurrentIsLast(s);
    PrintedOfFiled(s.rotated, s.cursor);
    FileNewsConcat(Flat(s.rotated), s.current, s.cursor);
  }

  /** A run keeps the promise. */
  lemma RunFulfils(s: State)
    requires LinesOk(s) && Filed(s.rotated)
    ensures Do(s, Watch).output == Promised(s)
  {
    RunPrintsNews(s);
  }

  /** A run completes the output. */
  lemma RunCompletes(s: State)
    requires Good(s)
    ensures Do(s, Watch).output == Filter(News(), s.written)
  {
    RunFulfils(s);
  }

  // Every act keeps it

  lemma LastIsLastWritten(s: State)
    requires LinesOk(s) && s.current != []
    ensures s.written != [] && LastStamp(s.current) == s.written[|s.written| - 1].stamp
  {
    assert s.written[|s.written| - |s.current|..][|s.current| - 1] == s.written[|s.written| - 1];
  }

  lemma CursorMoves(s: State)
    requires LinesOk(s) && Filed(s.rotated)
    ensures var last := LastStamp(s.current); Do(s, Watch).cursor == if Less(last, s.cursor) then s.cursor else last
  {
    RunPrintsNews(s);
  }

  lemma CursorAtLast(s: State)
    requires LinesOk(s) && s.current != []
    ensures CursorOk(LastStamp(s.current), s.written) && NewsUpTo(LastStamp(s.current), s.written)
  {
    LastIsLastWritten(s);
    LastIsLatest(s.written);
    assert s.written[|s.written| - 1] in s.written;
  }

  /** The cursor goes to the last line, unless it is further already. */
  lemma CursorAfterRun(s: State)
    requires LinesOk(s) && Filed(s.rotated)
    ensures CursorOk(Do(s, Watch).cursor, s.written)
    ensures NewsUpTo(Do(s, Watch).cursor, s.written)
  {
    CursorMoves(s);
    if s.current != [] {
      CursorAtLast(s);
      if Less(LastStamp(s.current), s.cursor) { UpToLater(s.written, LastStamp(s.current), s.cursor); }
    }
  }

  lemma UpToLater(ls: seq<Line>, s: string, t: string)
    requires NewsUpTo(s, ls) && Less(s, t)
    ensures NewsUpTo(t, ls)
  {
    LessIsAtMost(s, t);
    forall l | l in ls && !l.info ensures AtMost(l.stamp, t) { AtMostTransitive(l.stamp, s, t); }
  }

  lemma FinishedPrintsNothing(lines: seq<Line>, cursor: string)
    ensures FileNews(lines, cursor) == [] <==> Finished(lines, cursor)
  {
    FilterMembers(News(), lines);
    FilterMembers(Above(cursor), Filter(News(), lines));
    if Finished(lines, cursor) { NoNewsNothingPrinted(lines, cursor); }
  }

  lemma LiveIsFinished(s: State, cursor: string)
    requires LiveOk(s) && NewsUpTo(cursor, s.written)
    ensures FileNews(Live(s), cursor) == []
  {
    FinishedPrintsNothing(Live(s), cursor);
  }

  /** After a run nothing is left to promise, beyond what it has printed. */
  lemma PromisedAfterRun(s: State)
    requires LinesOk(s) && Filed(s.rotated) && LiveOk(s)
    ensures Promised(Do(s, Watch)) == Promised(s)
  {
    var s' := Do(s, Watch);
    RunFulfils(s);
    CursorAfterRun(s);
    LiveIsFinished(s, s'.cursor);
    assert Promised(s) + [] == Promised(s);
  }

  lemma OrderlyAfterRun(s: State)
    requires Orderly(s)
    ensures Orderly(Do(s, Watch))
  {
    PromisedAfterRun(s);
    CursorAfterRun(s);
    assert Live(Do(s, Watch)) == Live(s);
  }

  /** A line in order is above the cursor, unless it is an information line. */
  lemma AboveCursor(s: State, l: Line)
    requires LinesOk(s) && Timed(l.stamp) && InOrder(s.written + [l])
    ensures l.info || Less(s.cursor, l.stamp)
  {
    InOrderLast(s.written, l);
    if s.cursor != "" { var w :| w in s.written && w.stamp == s.cursor; }
  }

  lemma FileNewsSnoc(ls: seq<Line>, l: Line, c: string)
    ensures FileNews(ls + [l], c) == FileNews(ls, c) + if !l.info && Less(c, l.stamp) then [l] else []
  {
    FilterFiltered(Above(c), News(), ls, l);
  }

  lemma LinesOkAfter(s: State, l: Line)
    requires LinesOk(s) && Timed(l.stamp) && InOrder(s.written + [l])
    ensures LinesOk(Step(s, Append(l)))
  {
    EndsWithConcat(s.written, s.current, [l]);
    if s.cursor != "" {
      var w :| w in s.written && w.stamp == s.cursor;
      assert w in s.written + [l];
    }
  }

  lemma NamedByLinesAfter(s: State, l: Line)
    requires NamedByLines(s) && InOrder(s.written + [l])
    ensures NamedByLines(Step(s, Append(l)))
  {
    InOrderLast(s.written, l);
    forall r | r in s.rotated
      ensures (exists w :: w in s.written + [l] && w.stamp == r.iso) && NewsFrom(r.iso, s.current + [l])
    {
      var w :| w in s.written && w.stamp == r.iso;
      assert w in s.written + [l];
      if !l.info { LessIsAtMost(w.stamp, l.stamp); }
    }
  }

  lemma PromisedAfterWrite(s: State, s': State, l: Line)
    requires l.info || Less(s.cursor, l.stamp)
    requires s'.cursor == s.cursor && s'.output == s.output && Live(s') == Live(s) + [l]
    ensures Promised(s') == Promised(s) + Filter(News(), [l])
  {
    FileNewsSnoc(Live(s), l, s.cursor);
    FilterOne(News(), l);
    LinesAssociative(s.output, FileNews(Live(s), s.cursor), Filter(News(), [l]));
  }

  lemma LinesAssociative(k: seq<Line>, l: seq<Line>, m: seq<Line>)
    ensures k + (l + m) == (k + l) + m
  {
  }

  lemma PromisedOkSnoc(promised: seq<Line>, written: seq<Line>, l: Line)
    requires PromisedOk(promised, written) && InOrder(written + [l])
    ensures PromisedOk(promised + Filter(News(), [l]), written + [l])
  {
    FilterOne(News(), l);
    InOrderLast(written, l);
    if l.info {
      assert promised + [] == promised;
    } else {
      forall i | 0 <= i < |written| ensures Less(written[i].stamp, l.stamp) {
        assert OneAfterOther(written[i], l) by { assert written[i] in written; }
      }
      SnocStrict(promised, written, l);
    }
  }

  lemma LiveAfterAppend(s: State, l: Line)
    ensures Live(Step(s, Append(l))) == Live(s) + [l]
  {
  }

  lemma OrderlyAfterAppend(s: State, l: Line)
    requires Orderly(s) && Timed(l.stamp) && InOrder(s.written + [l])
    ensures Orderly(Step(s, Append(l))) && Promised(Step(s, Append(l))) == Promised(s) + Filter(News(), [l])
  {
    AboveCursor(s, l);
    LinesOkAfter(s, l);
    NamedByLinesAfter(s, l);
    LiveAfterAppend(s, l);
    PromisedAfterWrite(s, Step(s, Append(l)), l);
    PromisedOkSnoc(Promised(s), s.written, l);
  }

  lemma CurrentBefore(s: State, l: Line)
    requires LinesOk(s) && InOrder(s.written + [l])
    ensures NewsUpTo(l.stamp, s.current)
  {
    InOrderLast(s.written, l);
    forall k | k in s.current && !k.info ensures AtMost(k.stamp, l.stamp) {
      assert k in s.written[|s.written| - |s.current|..];
      assert k in s.written;
    }
  }

  lemma FiledAfter(s: State, l: Line, name: string)
    requires LinesOk(s) && Filed(s.rotated) && NamedByLines(s)
    requires CanDo(s, Write(l, true, name)) && InOrder(s.written + [l])
    ensures Filed(s.rotated + [Rotated(l.stamp, name, s.current)])
  {
    var q := Rotated(l.stamp, name, s.current);
    assert (s.rotated + [q])[..|s.rotated|] == s.rotated;
    CurrentBefore(s, l);
  }

  lemma NamedAfterRotate(s: State, l: Line, name: string)
    requires NamedByLines(s) && InOrder(s.written + [l])
    ensures NamedByLines(Do(s, Write(l, true, name)))
  {
    var s' := Do(s, Write(l, true, name));
    InOrderLast(s.written, l);
    Irreflexive(l.stamp);
    forall r | r in s'.rotated
      ensures (exists w :: w in s'.written && w.stamp == r.iso) && NewsFrom(r.iso, [l])
    {
      if r in s.rotated {
        var w :| w in s.written && w.stamp == r.iso;
        assert w in s'.written;
        if !l.info { LessIsAtMost(w.stamp, l.stamp); }
      } else {
        assert l in s'.written && r.iso == l.stamp;
      }
    }
  }

  lemma LiveAfterWrite(s: State, l: Line, name: string)
    ensures Live(Do(s, Write(l, true, name))) == Live(s) + [l]
  {
    LiveAfterRotate(s, l.stamp, name);
    assert [] + [l] == [l];
  }

  lemma LinesOkAfterFullWrite(s: State, l: Line, name: string)
    requires LinesOk(s) && Timed(l.stamp) && InOrder(s.written + [l])
    ensures LinesOk(Do(s, Write(l, true, name)))
  {
    LinesOkAfter(s, l);
    assert (s.written + [l])[|s.written|..] == [l];
  }

  lemma OrderlyAfterFullWrite(s: State, l: Line, name: string)
    requires Orderly(s) && CanDo(s, Write(l, true, name)) && InOrder(s.written + [l])
    ensures Orderly(Do(s, Write(l, true, name)))
    ensures Promised(Do(s, Write(l, true, name))) == Promised(s) + Filter(News(), [l])
  {
    AboveCursor(s, l);
    LinesOkAfterFullWrite(s, l, name);
    FiledAfter(s, l, name);
    NamedAfterRotate(s, l, name);
    LiveAfterWrite(s, l, name);
    PromisedAfterWrite(s, Do(s, Write(l, true, name)), l);
    PromisedOkSnoc(Promised(s), s.written, l);
  }

  lemma OrderlyAfterWrite(s: State, a: Act)
    requires Orderly(s) && a.Write? && CanDo(s, a) && InOrder(s.written + [a.line])
    ensures Orderly(Do(s, a)) && Promised(Do(s, a)) == Promised(s) + Filter(News(), [a.line])
  {
    if a.full { OrderlyAfterFullWrite(s, a.line, a.name); } else { OrderlyAfterAppend(s, a.line); }
  }

  lemma {:induction false} FiledWithout(rs: seq<Rotated>, i: nat)
    requires Filed(rs) && i < |rs|
    ensures Filed(rs[..i] + rs[i + 1..])
  {
    var n := |rs| - 1;
    var less := rs[..i] + rs[i + 1..];
    if i == n {
      assert less == rs[..n];
    } else {
      assert less[..n - 1] == rs[..n][..i] + rs[..n][i + 1..] && less[n - 1] == rs[n];
      FiledWithout(rs[..n], i);
    }
  }

  lemma {:induction false} FlatConcat(rs: seq<Rotated>, qs: seq<Rotated>)
    ensures Flat(rs + qs) == Flat(rs) + Flat(qs)
  {
    if qs == [] {
      assert rs + qs == rs;
    } else {
      var n := |qs| - 1;
      FlatConcat(rs, qs[..n]);
      assert (rs + qs)[..|rs + qs| - 1] == rs + qs[..n];
      LinesAssociative(Flat(rs), Flat(qs[..n]), qs[n].lines);
    }
  }

  lemma FlatOfThree(x: seq<Rotated>, y: seq<Rotated>, z: seq<Rotated>)
    ensures Flat(x + y + z) == Flat(x) + Flat(y) + Flat(z)
  {
    FlatConcat(x + y, z);
    FlatConcat(x, y);
  }

  lemma InThree(rs: seq<Rotated>, i: nat, j: nat) returns (x: seq<Rotated>, y: seq<Rotated>, z: seq<Rotated>)
    requires i <= j <= |rs|
    ensures rs == x + y + z && x == rs[..i] && y == rs[i..j] && z == rs[j..]
  {
    x, y, z := rs[..i], rs[i..j], rs[j..];
  }

  /** The lines before, in and behind some files. */
  lemma FlatInThree(rs: seq<Rotated>, i: nat, j: nat)
    requires i <= j <= |rs|
    ensures Flat(rs) == Flat(rs[..i]) + Flat(rs[i..j]) + Flat(rs[j..])
    ensures Flat(rs[..i] + rs[j..]) == Flat(rs[..i]) + Flat(rs[j..])
  {
    var x, y, z := InThree(rs, i, j);
    FlatConcat(x, z);
    FlatOfThree(x, y, z);
  }

  lemma NewsInFour(a: seq<Line>, b: seq<Line>, c: seq<Line>, d: seq<Line>, cursor: string)
    ensures FileNews(a + b + c + d, cursor)
         == FileNews(a, cursor) + FileNews(b, cursor) + FileNews(c, cursor) + FileNews(d, cursor)
  {
    FileNewsConcat(a + b + c, d, cursor);
    FileNewsConcat(a + b, c, cursor);
    FileNewsConcat(a, b, cursor);
  }

  lemma NewsInThree(a: seq<Line>, b: seq<Line>, c: seq<Line>, cursor: string)
    ensures FileNews(a + b + c, cursor) == FileNews(a, cursor) + FileNews(b, cursor) + FileNews(c, cursor)
  {
    FileNewsConcat(a + b, c, cursor);
    FileNewsConcat(a, b, cursor);
  }

  /** s without its files from i to j. */
  function Removed(s: State, i: nat, j: nat): State
    requires i <= j <= |s.rotated|
  {
    s.(rotated := s.rotated[..i] + s.rotated[j..])
  }

  /** What is promised without some files: all but what they would have printed. */
  lemma PromisedWithout(s: State, i: nat, j: nat) returns (front: seq<Line>, gone: seq<Line>, back: seq<Line>)
    requires i <= j <= |s.rotated|
    ensures Promised(s) == front + gone + back && Promised(Removed(s, i, j)) == front + back
    ensures gone == FileNews(Flat(s.rotated[i..j]), s.cursor)
  {
    var rs, c := s.rotated, s.cursor;
    var x, y, z := Flat(rs[..i]), Flat(rs[i..j]), Flat(rs[j..]);
    FlatInThree(rs, i, j);
    NewsInFour(x, y, z, s.current, c);
    NewsInThree(x, z, s.current, c);
    front, gone, back := s.output + FileNews(x, c), FileNews(y, c), FileNews(z, c) + FileNews(s.current, c);
    PartsOfPromise(s.output, FileNews(x, c), gone, FileNews(z, c), FileNews(s.current, c));
  }

  lemma PartsOfPromise(o: seq<Line>, x: seq<Line>, y: seq<Line>, z: seq<Line>, w: seq<Line>)
    ensures o + (x + y + z + w) == (o + x) + y + (z + w)
    ensures o + (x + z + w) == (o + x) + (z + w)
  {
  }

  lemma StrictWithout(x: seq<Line>, y: seq<Line>, z: seq<Line>)
    requires StrictlyAscending(x + y + z)
    ensures StrictlyAscending(x + z)
  {
    var all, some := x + y + z, x + z;
    forall i, j | 0 <= i < j < |some| ensures Less(some[i].stamp, some[j].stamp) {
      var i', j' := if i < |x| then i else i + |y|, if j < |x| then j else j + |y|;
      assert some[i] == all[i'] && some[j] == all[j'];
    }
  }

  lemma PromisedOkWithout(front: seq<Line>, gone: seq<Line>, back: seq<Line>, written: seq<Line>)
    requires PromisedOk(front + gone + back, written)
    ensures PromisedOk(front + back, written)
  {
    StrictWithout(front, gone, back);
    forall l | l in front + back ensures l in front + gone + back { }
  }

  lemma {:induction false} FiledFrom(rs: seq<Rotated>, i: nat, j: nat)
    requires Filed(rs) && i <= j <= |rs|
    ensures Filed(rs[..i] + rs[j..])
    decreases j
  {
    if i == j {
      assert rs[..i] + rs[j..] == rs;
    } else {
      var less := rs[..j - 1] + rs[j..];
      FiledWithout(rs, j - 1);
      FiledFrom(less, i, j - 1);
      assert less[..i] == rs[..i] && less[j - 1..] == rs[j..];
    }
  }

  lemma LiveWithout(s: State, i: nat, j: nat)
    requires i <= j <= |s.rotated| && LiveOk(s)
    ensures LiveOk(Removed(s, i, j))
  {
    FlatInThree(s.rotated, i, j);
  }

  /** Whatever files are removed, order is kept. */
  lemma OrderlyWithout(s: State, i: nat, j: nat)
    requires Orderly(s) && i <= j <= |s.rotated|
    ensures Orderly(Removed(s, i, j))
  {
    var front, gone, back := PromisedWithout(s, i, j);
    PromisedOkWithout(front, gone, back, s.written);
    FiledFrom(s.rotated, i, j);
    LiveWithout(s, i, j);
  }

  /** All that a reader wants to see of these files has been seen. */
  ghost predicate AllFinished(rs: seq<Rotated>, cursor: string)
  {
    forall r :: r in rs ==> Finished(r.lines, cursor)
  }

  lemma {:induction false} FlatFinished(rs: seq<Rotated>, cursor: string)
    ensures Finished(Flat(rs), cursor) <==> AllFinished(rs, cursor)
  {
    if rs != [] {
      var n := |rs| - 1;
      FlatFinished(rs[..n], cursor);
      assert rs == rs[..n] + [rs[n]];
      assert forall l :: l in Flat(rs) <==> l in Flat(rs[..n]) || l in rs[n].lines;
    }
  }

  /** A removal breaks no promise exactly if the files are finished; otherwise less is promised. */
  lemma RemovalCost(s: State, i: nat, j: nat)
    requires i <= j <= |s.rotated|
    ensures AllFinished(s.rotated[i..j], s.cursor) ==> Promised(Removed(s, i, j)) == Promised(s)
    ensures !AllFinished(s.rotated[i..j], s.cursor) ==> |Promised(Removed(s, i, j))| < |Promised(s)|
  {
    var front, gone, back := PromisedWithout(s, i, j);
    FlatFinished(s.rotated[i..j], s.cursor);
    FinishedPrintsNothing(Flat(s.rotated[i..j]), s.cursor);
    assert front + [] == front;
  }

  lemma OneRemoved(s: State, i: nat)
    requires i < |s.rotated|
    ensures Do(s, Remove(i)) == Removed(s, i, i + 1)
    ensures AllFinished(s.rotated[i..i + 1], s.cursor) <==> Finished(s.rotated[i].lines, s.cursor)
  {
    assert s.rotated[i..i + 1] == [s.rotated[i]];
  }

  lemma OrderlyAfterRemove(s: State, i: nat)
    requires Orderly(s) && i < |s.rotated|
    ensures Orderly(Do(s, Remove(i)))
  {
    OneRemoved(s, i);
    OrderlyWithout(s, i, i + 1);
  }

  /** Every act keeps order; */
  lemma OrderlyAfter(s: State, a: Act)
    requires Orderly(s) && CanDo(s, a) && (a.Write? ==> InOrder(s.written + [a.line]))
    ensures Orderly(Do(s, a))
  {
    if a.Write? {
      OrderlyAfterWrite(s, a);
    } else if a.Watch? {
      OrderlyAfterRun(s);
    } else {
      OrderlyAfterRemove(s, a.i);
    }
  }

  lemma PromisedAfterRemove(s: State, i: nat)
    requires i < |s.rotated|
    ensures Finished(s.rotated[i].lines, s.cursor) ==> Promised(Do(s, Remove(i))) == Promised(s)
    ensures !Finished(s.rotated[i].lines, s.cursor) ==> |Promised(Do(s, Remove(i)))| < |Promised(s)|
  {
    OneRemoved(s, i);
    RemovalCost(s, i, i + 1);
  }

  /** and all but the removal of an unfinished file keep the balance of what is promised and what was written. */
  lemma PromisedAfter(s: State, a: Act)
    requires Orderly(s) && CanDo(s, a) && (a.Write? ==> InOrder(s.written + [a.line]))
    ensures MayDo(s, a) ==>
      Promised(Do(s, a)) == Promised(s) + if a.Write? then Filter(News(), [a.line]) else []
    ensures !MayDo(s, a) ==> |Promised(Do(s, a))| < |Promised(s)|
  {
    assert Promised(s) + [] == Promised(s);
    if a.Write? {
      OrderlyAfterWrite(s, a);
    } else if a.Watch? {
      PromisedAfterRun(s);
    } else {
      PromisedAfterRemove(s, a.i);
    }
  }

  lemma NewsAfter(s: State, a: Act)
    ensures Filter(News(), Do(s, a).written)
         == Filter(News(), s.written) + if a.Write? then Filter(News(), [a.line]) else []
  {
    if a.Write? {
      FilterConcat(News(), s.written, [a.line]);
    } else {
      assert Filter(News(), s.written) + [] == Filter(News(), s.written);
    }
  }

  lemma GoodAfter(s: State, a: Act)
    requires Good(s) && MayDo(s, a) && (a.Write? ==> InOrder(s.written + [a.line]))
    ensures Good(Do(s, a))
  {
    OrderlyAfter(s, a);
    PromisedAfter(s, a);
    NewsAfter(s, a);
  }

  /** Something has been lost for good. */
  predicate Behind(s: State) { |Promised(s)| < |Filter(News(), s.written)| }

  lemma BehindAfter(s: State, a: Act)
    requires Orderly(s) && CanDo(s, a) && (a.Write? ==> InOrder(s.written + [a.line]))
    requires Behind(s) || (Good(s) && !MayDo(s, a))
    ensures Behind(Do(s, a))
  {
    PromisedAfter(s, a);
    NewsAfter(s, a);
  }

  lemma {:induction false} WrittenIsLogged(acts: seq<Act>)
    ensures DoAll(INITIAL, acts).written == Logged(acts)
  {
    if acts != [] {
      WrittenIsLogged(acts[..|acts| - 1]);
      assert Logged(acts[..|acts| - 1]) + [] == Logged(acts[..|acts| - 1]);
    }
  }

  lemma LoggedInOrder(acts: seq<Act>)
    requires acts != [] && InOrder(Logged(acts))
    ensures InOrder(Logged(acts[..|acts| - 1]))
  {
    var front := Logged(acts[..|acts| - 1]);
    assert Logged(acts)[..|front|] == front;
    InOrderPrefix(Logged(acts), |front|);
  }

  lemma InitialGood()
    ensures Good(INITIAL)
  {
    assert Promised(INITIAL) == [];
  }

  lemma {:induction false} ProperIsPossible(acts: seq<Act>)
    requires Proper(acts)
    ensures Possible(acts)
  {
    if acts != [] { ProperIsPossible(acts[..|acts| - 1]); }
  }

  /** If the lines are in order, the state stays orderly; and either no unread file is removed and nothing is
      lost, or something is lost for good. */
  lemma {:induction false} GoodOrBehind(acts: seq<Act>)
    requires Possible(acts) && InOrder(Logged(acts))
    ensures Orderly(DoAll(INITIAL, acts))
    ensures if Proper(acts) then Good(DoAll(INITIAL, acts)) else Behind(DoAll(INITIAL, acts))
  {
    if acts == [] {
      InitialGood();
    } else {
      var n := |acts| - 1;
      var s := DoAll(INITIAL, acts[..n]);
      LoggedInOrder(acts);
      GoodOrBehind(acts[..n]);
      WrittenIsLogged(acts[..n]);
      OrderlyAfter(s, acts[n]);
      if Proper(acts) { GoodAfter(s, acts[n]); } else { BehindAfter(s, acts[n]); }
    }
  }

  /** If lines are in order, a run after these acts completes the output if and only if no unread file was
      removed. */
  lemma CompleteIffProper(acts: seq<Act>)
    requires Possible(acts) && InOrder(Logged(acts))
    ensures DoAll(INITIAL, acts + [Watch]).output == Filter(News(), Logged(acts)) <==> Proper(acts)
  {
    var s := DoAll(INITIAL, acts);
    GoodOrBehind(acts);
    WrittenIsLogged(acts);
    RunFulfils(s);
    assert (acts + [Watch])[..|acts|] == acts;
  }

  // The same in terms of the schedule

  /** What had been logged when the script ran last. */
  function LoggedAtLastRun(acts: seq<Act>): seq<Line>
  {
    if acts == [] then []
    else if acts[|acts| - 1].Watch? then Logged(acts)
    else LoggedAtLastRun(acts[..|acts| - 1])
  }

  ghost predicate AllRead(lines: seq<Line>, read: seq<Line>) { forall l :: l in lines ==> l.info || l in read }

  /** The cursor stands between the news that were read and those that were not. */
  ghost predicate ReadTo(s: State, read: seq<Line>)
  {
    && NewsUpTo(s.cursor, read)
    && forall l :: l in s.written && !l.info && l !in read ==> Less(s.cursor, l.stamp)
  }

  function ReadAfter(s: State, a: Act, read: seq<Line>): seq<Line> { if a.Watch? then s.written else read }

  lemma ReadToAfter(s: State, a: Act, read: seq<Line>)
    requires Orderly(s) && CanDo(s, a) && (a.Write? ==> InOrder(s.written + [a.line])) && ReadTo(s, read)
    ensures ReadTo(Do(s, a), ReadAfter(s, a, read))
  {
    match a
    case Write(l, _, _) => AboveCursor(s, l);
    case Watch => CursorAfterRun(s);
    case Remove(i) =>
  }

  /** A file is finished exactly if all its news had been logged when the script ran last. */
  lemma FinishedIffRead(s: State, lines: seq<Line>, read: seq<Line>)
    requires ReadTo(s, read) && forall l :: l in lines ==> l in s.written
    ensures Finished(lines, s.cursor) <==> AllRead(lines, read)
  {
  }

  lemma {:induction false} ReadToLastRun(acts: seq<Act>)
    requires Possible(acts) && InOrder(Logged(acts))
    ensures ReadTo(DoAll(INITIAL, acts), LoggedAtLastRun(acts))
  {
    if acts != [] {
      var n := |acts| - 1;
      var s := DoAll(INITIAL, acts[..n]);
      LoggedInOrder(acts);
      ReadToLastRun(acts[..n]);
      GoodOrBehind(acts[..n]);
      WrittenIsLogged(acts[..n]);
      ReadToAfter(s, acts[n], LoggedAtLastRun(acts[..n]));
      if acts[n].Watch? { assert Logged(acts) == Logged(acts[..n]) + []; }
    }
  }

  lemma {:induction false} FlatMember(rs: seq<Rotated>, r: Rotated, l: Line)
    requires r in rs && l in r.lines
    ensures l in Flat(rs)
  {
    if r != rs[|rs| - 1] { FlatMember(rs[..|rs| - 1], r, l); }
  }

  lemma FileInWritten(s: State, r: Rotated)
    requires LiveOk(s) && r in s.rotated
    ensures forall l :: l in r.lines ==> l in s.written
  {
    forall l | l in r.lines ensures l in s.written {
      FlatMember(s.rotated, r, l);
      assert l in Live(s);
    }
  }

  /** Only files that had been read completely are removed: between the logging of the last non-information line of
      a file and its removal the script runs. */
  ghost predicate RunsInTime(acts: seq<Act>)
  {
    acts != [] ==>
      var front, a := acts[..|acts| - 1], acts[|acts| - 1];
      && RunsInTime(front)
      && (a.Remove? && a.i < |DoAll(INITIAL, front).rotated| ==>
            AllRead(DoAll(INITIAL, front).rotated[a.i].lines, LoggedAtLastRun(front)))
  }

  lemma {:induction false} ProperIffRunsInTime(acts: seq<Act>)
    requires Possible(acts) && InOrder(Logged(acts))
    ensures Proper(acts) <==> RunsInTime(acts)
  {
    if acts != [] {
      var front, a := acts[..|acts| - 1], acts[|acts| - 1];
      var s := DoAll(INITIAL, front);
      LoggedInOrder(acts);
      ProperIffRunsInTime(front);
      if a.Remove? {
        GoodOrBehind(front);
        ReadToLastRun(front);
        FileInWritten(s, s.rotated[a.i]);
        FinishedIffRead(s, s.rotated[a.i].lines, LoggedAtLastRun(front));
      }
    }
  }

  /** If lines are in order: a run completes the output if and only if each removed file had been read. */
  lemma CompleteIffRunsInTime(acts: seq<Act>)
    requires Possible(acts) && InOrder(Logged(acts))
    ensures DoAll(INITIAL, acts + [Watch]).output == Filter(News(), Logged(acts)) <==> RunsInTime(acts)
  {
    CompleteIffProper(acts);
    ProperIffRunsInTime(acts);
  }

  lemma RunIsExact(acts: seq<Act>)
    requires Proper(acts) && InOrder(Logged(acts))
    ensures Do(DoAll(INITIAL, acts), Watch).output == Filter(News(), Logged(acts))
  {
    ProperIsPossible(acts);
    GoodOrBehind(acts);
    WrittenIsLogged(acts);
    RunCompletes(DoAll(INITIAL, acts));
  }

  lemma LoggedByRun(acts: seq<Act>)
    requires acts != [] && acts[|acts| - 1].Watch?
    ensures Logged(acts) == Logged(acts[..|acts| - 1])
  {
    assert Logged(acts) == Logged(acts[..|acts| - 1]) + [];
  }

  /** If the lines are in order and no unread file is removed, nothing can go wrong. */
  lemma {:induction false} OrderIsEnough(acts: seq<Act>)
    requires Proper(acts) && InOrder(Logged(acts))
    ensures Exact(acts)
  {
    if acts != [] {
      LoggedInOrder(acts);
      OrderIsEnough(acts[..|acts| - 1]);
      if acts[|acts| - 1].Watch? {
        RunIsExact(acts[..|acts| - 1]);
        LoggedByRun(acts);
      }
    }
  }

  // What goes wrong otherwise

  lemma DoPrintsNothingOld(s: State, a: Act)
    ensures AddsOnlyNew(s, Do(s, a))
  {
    Irreflexive(s.cursor);
    if a.Watch? { StepPrintsNothingOld(s, Execute); }
  }

  lemma {:induction false} DoAllPrintsNothingOld(s: State, acts: seq<Act>)
    ensures AddsOnlyNew(s, DoAll(s, acts))
  {
    if acts == [] {
      Irreflexive(s.cursor);
    } else {
      var t := DoAll(s, acts[..|acts| - 1]);
      DoAllPrintsNothingOld(s, acts[..|acts| - 1]);
      DoPrintsNothingOld(t, acts[|acts| - 1]);
      AddsOnlyNewTransitive(s, t, DoAll(s, acts));
    }
  }

  /** The first failure: a line logged at or before the cursor is lost, whatever was and will be done. */
  lemma LostForGood(s: State, b: Line, full: bool, name: string, later: seq<Act>)
    requires !Less(s.cursor, b.stamp) && b !in s.output
    ensures b !in DoAll(Do(s, Write(b, full, name)), later).output
  {
    var t := Do(s, Write(b, full, name));
    DoAllPrintsNothingOld(t, later);
    var u := DoAll(t, later);
    assert u.output == t.output + u.output[|t.output|..];
  }

  lemma StrictOnce(x: seq<Line>, y: seq<Line>, z: seq<Line>, l: Line)
    requires StrictlyAscending(x + y + z) && l in y
    ensures l !in x + z
  {
    var all := x + y + z;
    var j :| 0 <= j < |y| && y[j] == l;
    Irreflexive(l.stamp);
    assert all[|x| + j] == l;
    forall i | 0 <= i < |x| ensures x[i] != l { assert all[i] == x[i]; }
    forall i | 0 <= i < |z| ensures z[i] != l { assert all[|x| + |y| + i] == z[i]; }
  }

  lemma InFileNews(lines: seq<Line>, l: Line, cursor: string)
    requires l in lines && !l.info && Less(cursor, l.stamp)
    ensures l in FileNews(lines, cursor)
  {
    FilterMembers(News(), lines);
    FilterMembers(Above(cursor), Filter(News(), lines));
  }

  /** An unread line goes with its file. */
  lemma GoesWithFile(s: State, i: nat, l: Line)
    requires Orderly(s) && i < |s.rotated| && l in s.rotated[i].lines && !l.info && Less(s.cursor, l.stamp)
    ensures l !in Promised(Do(s, Remove(i)))
  {
    var front, gone, back := PromisedWithout(s, i, i + 1);
    OneRemoved(s, i);
    FlatMember(s.rotated[i..i + 1], s.rotated[i], l);
    InFileNews(Flat(s.rotated[i..i + 1]), l, s.cursor);
    StrictOnce(front, gone, back, l);
  }

  lemma NotPromisedAgain(s: State, a: Act, l: Line)
    requires Orderly(s) && CanDo(s, a) && (a.Write? ==> InOrder(s.written + [a.line]))
    requires l in s.written && !l.info && l !in Promised(s)
    ensures l in Do(s, a).written && l !in Promised(Do(s, a))
  {
    match a
    case Write(k, _, _) =>
      OrderlyAfterWrite(s, a);
      InOrderLast(s.written, k);
      Irreflexive(l.stamp);
      FilterOne(News(), k);
    case Watch => PromisedAfterRun(s);
    case Remove(i) =>
      var front, gone, back := PromisedWithout(s, i, i + 1);
      OneRemoved(s, i);
  }

  lemma DoAllFurther(acts: seq<Act>, later: seq<Act>)
    requires later != []
    ensures (acts + later)[..|acts + later| - 1] == acts + later[..|later| - 1]
    ensures (acts + later)[|acts + later| - 1] == later[|later| - 1]
  {
  }

  lemma {:induction false} NeverPromisedAgain(acts: seq<Act>, later: seq<Act>, l: Line)
    requires Possible(acts + later) && InOrder(Logged(acts + later))
    requires var s := DoAll(INITIAL, acts); l in s.written && !l.info && l !in Promised(s)
    ensures var t := DoAll(INITIAL, acts + later); l in t.written && l !in Promised(t)
    decreases |later|
  {
    if later == [] {
      assert acts + later == acts;
    } else {
      var all, front, a := acts + later, acts + later[..|later| - 1], later[|later| - 1];
      DoAllFurther(acts, later);
      LoggedInOrder(all);
      NeverPromisedAgain(acts, later[..|later| - 1], l);
      GoodOrBehind(front);
      WrittenIsLogged(front);
      NotPromisedAgain(DoAll(INITIAL, front), a, l);
    }
  }

  lemma {:induction false} PossibleBefore(acts: seq<Act>, later: seq<Act>)
    requires Possible(acts + later) && InOrder(Logged(acts + later))
    ensures Possible(acts) && InOrder(Logged(acts))
    decreases |later|
  {
    if later == [] {
      assert acts + later == acts;
    } else {
      DoAllFurther(acts, later);
      LoggedInOrder(acts + later);
      PossibleBefore(acts, later[..|later| - 1]);
    }
  }

  /** A line that is in a removed file, but was not read, is never printed. */
  lemma LostWithFile(acts: seq<Act>, i: nat, l: Line, later: seq<Act>)
    requires Possible(acts + [Remove(i)] + later) && InOrder(Logged(acts + [Remove(i)] + later))
    requires i < |DoAll(INITIAL, acts).rotated| && l in DoAll(INITIAL, acts).rotated[i].lines
    requires !l.info && l !in LoggedAtLastRun(acts)
    ensures l !in DoAll(INITIAL, acts + [Remove(i)] + later).output
  {
    var s := DoAll(INITIAL, acts);
    PossibleBefore(acts + [Remove(i)], later);
    PossibleBefore(acts, [Remove(i)]);
    DoAllSnoc(INITIAL, acts, Remove(i));
    GoodOrBehind(acts);
    ReadToLastRun(acts);
    FileInWritten(s, s.rotated[i]);
    GoesWithFile(s, i, l);
    NeverPromisedAgain(acts + [Remove(i)], later, l);
  }

  /** A run moves the cursor at least to the line logged last. */
  lemma RunReaches(s: State, l: Line)
    requires Timed(l.stamp) && s.current != [] && s.current[|s.current| - 1] == l
    ensures AtMost(l.stamp, Do(s, Watch).cursor)
  {
    if Less(CURRENT, s.cursor) {
      Transitive(l.stamp, CURRENT, s.cursor);
      LessIsAtMost(l.stamp, s.cursor);
      NextCursorIsNotBelow(Files(s), s.cursor);
      AtMostTransitive(l.stamp, s.cursor, Do(s, Watch).cursor);
    } else {
      CurrentIsLast(s);
      Irreflexive(l.stamp);
      if Less(l.stamp, s.cursor) { LessIsAtMost(l.stamp, s.cursor); }
    }
  }

  lemma NewsInCurrent(s: State, l: Line)
    requires !Less(CURRENT, s.cursor) && l in s.current && !l.info && Less(s.cursor, l.stamp)
    ensures l in Printed(Files(s), s.cursor)
  {
    CurrentIsLast(s);
    FilterMembers(News(), s.current);
    FilterMembers(Above(s.cursor), Filter(News(), s.current));
  }

  /** The second: a new line in `current` that is later than the last line there is printed by this run, and
      again by the next. */
  lemma PrintedTwice(s: State, a: Line)
    requires !Less(CURRENT, s.cursor) && a in s.current && !a.info && Timed(a.stamp)
    requires Less(s.cursor, a.stamp) && Less(LastStamp(s.current), a.stamp)
    ensures a in Printed(Files(s), s.cursor) && a in Printed(Files(Do(s, Watch)), Do(s, Watch).cursor)
  {
    var s' := Do(s, Watch);
    NewsInCurrent(s, a);
    CurrentIsLast(s);
    assert Less(s'.cursor, a.stamp);
    if Less(CURRENT, s'.cursor) {
      Transitive(CURRENT, s'.cursor, a.stamp);
      Transitive(CURRENT, a.stamp, CURRENT);
      Irreflexive(CURRENT);
    }
    NewsInCurrent(s', a);
  }

  lemma DoTwo(s: State, a: Act, b: Act)
    ensures DoAll(s, [a, b]) == Do(Do(s, a), b)
  {
    DoAllSnoc(s, [], a);
    DoAllSnoc(s, [a], b);
    assert [] + [a] == [a] && [a] + [b] == [a, b];
  }

  /** Two lines, the first later than the second, and two runs after them. */
  lemma RepeatedByTwoRuns(s: State, k: Line, l: Line, full: bool, name: string)
    requires Timed(k.stamp) && !k.info && Less(l.stamp, k.stamp) && Less(s.cursor, k.stamp)
    ensures var t := DoAll(s, [Write(k, full, name), Write(l, false, "")]); var u := Do(t, Watch);
      k in Printed(Files(t), t.cursor) && k in Printed(Files(u), u.cursor)
  {
    DoTwo(s, Write(k, full, name), Write(l, false, ""));
    var t := Do(Do(s, Write(k, full, name)), Write(l, false, ""));
    if Less(CURRENT, s.cursor) {
      Transitive(CURRENT, s.cursor, k.stamp);
      LessIsAtMost(k.stamp, CURRENT);
    }
    PrintedTwice(t, k);
  }

  /** Lines logged one after the other, all into `current`. */
  function Writes(ls: seq<Line>): seq<Act>
  {
    if ls == [] then [] else Writes(ls[..|ls| - 1]) + [Write(ls[|ls| - 1], false, "")]
  }

  lemma DoAllSnoc(s: State, acts: seq<Act>, a: Act)
    ensures DoAll(s, acts + [a]) == Do(DoAll(s, acts), a)
    ensures Logged(acts + [a]) == Logged(acts) + if a.Write? then [a.line] else []
    ensures s == INITIAL ==> (Proper(acts + [a]) <==> Proper(acts) && MayDo(DoAll(s, acts), a))
    ensures Exact(acts + [a]) <==>
      Exact(acts) && (a.Watch? ==> DoAll(INITIAL, acts + [a]).output == Filter(News(), Logged(acts + [a])))
  {
    assert (acts + [a])[..|acts|] == acts;
  }

  /** s with these lines added to `current`. */
  ghost predicate Added(s: State, ls: seq<Line>, t: State)
  {
    t.rotated == s.rotated && t.current == s.current + ls && t.cursor == s.cursor && t.output == s.output
  }

  /** acts with these lines logged after them. */
  ghost predicate Extended(acts: seq<Act>, ls: seq<Line>, more: seq<Act>)
  {
    && Proper(more) && Logged(more) == Logged(acts) + ls && (Exact(more) <==> Exact(acts))
    && Added(DoAll(INITIAL, acts), ls, DoAll(INITIAL, more))
  }

  lemma ExtendedByOne(acts: seq<Act>, ls: seq<Line>, more: seq<Act>, l: Line)
    requires Extended(acts, ls, more) && Timed(l.stamp)
    ensures Extended(acts, ls + [l], more + [Write(l, false, "")])
  {
    DoAllSnoc(INITIAL, more, Write(l, false, ""));
    assert Logged(acts) + (ls + [l]) == Logged(acts) + ls + [l];
    var current := DoAll(INITIAL, acts).current;
    assert current + (ls + [l]) == current + ls + [l];
  }

  lemma ExtendedByNone(acts: seq<Act>)
    requires Proper(acts)
    ensures Extended(acts, [], acts)
  {
    assert Logged(acts) + [] == Logged(acts);
    assert DoAll(INITIAL, acts).current + [] == DoAll(INITIAL, acts).current;
  }

  lemma WritesSnoc(acts: seq<Act>, ls: seq<Line>, l: Line)
    ensures acts + Writes(ls + [l]) == acts + Writes(ls) + [Write(l, false, "")]
  {
    assert (ls + [l])[..|ls|] == ls;
  }

  lemma WritesExtendSnoc(acts: seq<Act>, ls: seq<Line>, l: Line)
    requires Extended(acts, ls, acts + Writes(ls)) && Timed(l.stamp)
    ensures Extended(acts, ls + [l], acts + Writes(ls + [l]))
  {
    ExtendedByOne(acts, ls, acts + Writes(ls), l);
    WritesSnoc(acts, ls, l);
  }

  lemma NoWrites(acts: seq<Act>)
    ensures acts + Writes([]) == acts
  {
  }

  lemma FrontAndLast(ls: seq<Line>) returns (front: seq<Line>, l: Line)
    requires ls != []
    ensures ls == front + [l] && |front| < |ls| && (AllTimed(ls) ==> AllTimed(front) && Timed(l.stamp))
  {
    front, l := ls[..|ls| - 1], ls[|ls| - 1];
  }

  lemma {:induction false} WritesExtend(acts: seq<Act>, ls: seq<Line>)
    requires Proper(acts) && AllTimed(ls)
    ensures Extended(acts, ls, acts + Writes(ls))
    decreases |ls|
  {
    if ls == [] {
      NoWrites(acts);
      ExtendedByNone(acts);
    } else {
      var front, l := FrontAndLast(ls);
      WritesExtend(acts, front);
      WritesExtendSnoc(acts, front, l);
    }
  }

  /** `current` holds these lines and nothing else has happened. */
  predicate OnlyWritten(s: State, ls: seq<Line>)
  {
    s.rotated == [] && s.current == ls && s.cursor == "" && s.output == []
  }

  lemma WritesFromStart(ls: seq<Line>)
    requires AllTimed(ls)
    ensures Proper(Writes(ls)) && Logged(Writes(ls)) == ls && OnlyWritten(DoAll(INITIAL, Writes(ls)), ls)
  {
    WritesExtend([], ls);
    assert [] + Writes(ls) == Writes(ls);
    assert [] + ls == ls;
  }

  lemma OneMoreRun(acts: seq<Act>)
    requires Proper(acts)
    ensures Proper(acts + [Watch]) && Logged(acts + [Watch]) == Logged(acts)
    ensures DoAll(INITIAL, acts + [Watch]) == Do(DoAll(INITIAL, acts), Watch)
  {
    DoAllSnoc(INITIAL, acts, Watch);
    assert Logged(acts) + [] == Logged(acts);
  }

  lemma AllNews(ls: seq<Line>)
    requires AllTimed(ls)
    ensures FileNews(ls, "") == Filter(News(), ls)
  {
    FilterMembers(News(), ls);
    FilterAll(Above(""), Filter(News(), ls));
  }

  /** These lines have been seen, by one run. */
  predicate RunOnce(s: State, ls: seq<Line>)
  {
    s.rotated == [] && s.current == ls && s.cursor == LastStamp(ls) && s.output == Filter(News(), ls)
  }

  lemma RunOnLines(s: State, ls: seq<Line>)
    requires AllTimed(ls) && ls != [] && OnlyWritten(s, ls)
    ensures RunOnce(Do(s, Watch), ls)
  {
    CurrentIsLast(s);
    AllNews(ls);
    assert Sort(Sources([])) == [];
    assert [] + Filter(News(), ls) == Filter(News(), ls);
  }

  /** The script runs for the first time after these lines. */
  lemma FirstRun(ls: seq<Line>) returns (acts: seq<Act>)
    requires AllTimed(ls) && ls != []
    ensures Proper(acts) && Logged(acts) == ls && RunOnce(DoAll(INITIAL, acts), ls)
  {
    WritesFromStart(ls);
    OneMoreRun(Writes(ls));
    RunOnLines(DoAll(INITIAL, Writes(ls)), ls);
    acts := Writes(ls) + [Watch];
  }

  lemma SameRest(s: seq<Line>, t: seq<Line>, u: seq<Line>)
    requires s + t == s + u
    ensures t == u
  {
    assert (s + t)[|s|..] == t && (s + u)[|s|..] == u;
  }

  /** A run does not print a line that is not above the cursor, and so does not complete the output. */
  lemma RunMisses(t: State, front: seq<Line>, back: seq<Line>, b: Line)
    requires t.output == Filter(News(), front) && b in back && !b.info && !Less(t.cursor, b.stamp)
    ensures Do(t, Watch).output != Filter(News(), front + back)
  {
    FilterConcat(News(), front, back);
    PrintedIsAbove(Files(t), t.cursor);
    FilterMembers(News(), back);
    if Do(t, Watch).output == Filter(News(), front + back) {
      SameRest(t.output, Printed(Files(t), t.cursor), Filter(News(), back));
    }
  }

  /** A run after the first of two lines, if the second is news and not later. */
  lemma SecondNotDelivered(front: seq<Line>, back: seq<Line>, b: Line) returns (acts: seq<Act>)
    requires AllTimed(front) && AllTimed(back) && front != []
    requires b in back && !b.info && !Less(LastStamp(front), b.stamp)
    ensures Proper(acts) && Logged(acts) == front + back && !Exact(acts)
  {
    var first := FirstRun(front);
    WritesExtend(first, back);
    var rest := first + Writes(back);
    DoAllSnoc(INITIAL, rest, Watch);
    RunMisses(DoAll(INITIAL, rest), front, back, b);
    acts := rest + [Watch];
    assert front + back + [] == front + back;
  }

  lemma RunChanges(s: State)
    requires Printed(Files(s), s.cursor) != []
    ensures Do(s, Watch).output != s.output
  {
    var p := Printed(Files(s), s.cursor);
    assert |s.output + p| > |s.output|;
  }

  /** No run between two lines, and two after them, if the first is news and later. */
  lemma FirstRepeated(front: seq<Line>, back: seq<Line>, a: Line) returns (acts: seq<Act>)
    requires AllTimed(front) && AllTimed(back) && front != []
    requires a in front && !a.info && Less(LastStamp(front), a.stamp)
    ensures Proper(acts) && Logged(acts) == front + back && !Exact(acts)
  {
    var first := FirstRun(front);
    var s := DoAll(INITIAL, first);
    assert Timed(front[|front| - 1].stamp);
    LessIsAtMost(LastStamp(front), CURRENT);
    NewsInCurrent(s, a);
    RunChanges(s);
    DoAllSnoc(INITIAL, first, Watch);
    OneMoreRun(first);
    WritesExtend(first + [Watch], back);
    acts := first + [Watch] + Writes(back);
  }

  /** Two lines out of order, and the rest. */
  lemma NotAlwaysExact(ls: seq<Line>, i: nat, j: nat) returns (acts: seq<Act>)
    requires AllTimed(ls) && i < j < |ls| && !OneAfterOther(ls[i], ls[j])
    ensures Proper(acts) && Logged(acts) == ls && !Exact(acts)
  {
    if !ls[j].info && !Less(ls[i].stamp, ls[j].stamp) {
      assert ls == ls[..i + 1] + ls[i + 1..] && ls[i + 1..][j - i - 1] == ls[j];
      acts := SecondNotDelivered(ls[..i + 1], ls[i + 1..], ls[j]);
    } else {
      assert ls == ls[..j + 1] + ls[j + 1..] && ls[..j + 1][i] == ls[i];
      acts := FirstRepeated(ls[..j + 1], ls[j + 1..], ls[i]);
    }
  }

  /** The lines reach the reader exactly once, in every placement of runs, rotations and removals of finished
      files, if and only if they are in order. */
  lemma AlwaysExactIffInOrder(ls: seq<Line>)
    requires AllTimed(ls)
    ensures AlwaysExact(ls) <==> InOrder(ls)
  {
    if InOrder(ls) {
      forall acts | Proper(acts) && Logged(acts) == ls ensures Exact(acts) { OrderIsEnough(acts); }
    } else {
      var i, j :| 0 <= i < j < |ls| && !OneAfterOther(ls[i], ls[j]);
      var acts := NotAlwaysExact(ls, i, j);
      assert Proper(acts) && Logged(acts) == ls && !Exact(acts);
    }
  }
}
