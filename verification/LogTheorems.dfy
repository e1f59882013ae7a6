/** What the log reader guarantees over whole histories. */
module LogTheorems {
  import opened TextOrder
  import opened LogLines
  import opened LogWatch
  import opened LogHistory

  // Exactly once

  /** Every line that was above the cursor when it was written is printed exactly once, in order, as soon
      as the cursor reaches it; nothing else is printed. */
  lemma ExactlyOnce(es: seq<Event>)
    requires Legal(INITIAL, es) && AllQuiet(INITIAL, es)
    ensures var s := After(INITIAL, es);
      s.output == Filter(News(), Filter(UpTo(s.cursor), s.due)) && Ascending(s.output)
  {
    InitialOk();
    Reachable(INITIAL, es);
    var s := After(INITIAL, es);
    FilterAscending(UpTo(s.cursor), s.due);
    FilterAscending(News(), Filter(UpTo(s.cursor), s.due));
  }

  /** With stamps that always advance every line is above the cursor when it is written. */
  lemma {:induction false} StrictMeansDue(es: seq<Event>)
    requires Legal(INITIAL, es) && Strict(INITIAL, es)
    ensures After(INITIAL, es).due == After(INITIAL, es).written
    ensures StrictlyAscending(After(INITIAL, es).written)
  {
    if es != [] {
      var n := |es| - 1;
      var s := After(INITIAL, es[..n]);
      StrictMeansDue(es[..n]);
      InitialOk();
      Reachable(INITIAL, es[..n]);
      if es[n].Append? {
        var l := es[n].line;
        SnocStrict(s.written, s.written, l);
        if s.cursor != "" {
          var w :| w in s.written && w.stamp == s.cursor;
          assert Less(s.cursor, l.stamp);
        }
      }
    }
  }

  /** Exactly once over every interleaving: the output is all non-information lines ever written, up to
      the cursor, in order and without repeats. */
  lemma ExactlyOnceStrict(es: seq<Event>)
    requires Legal(INITIAL, es) && AllQuiet(INITIAL, es) && Strict(INITIAL, es)
    ensures var s := After(INITIAL, es);
      s.output == Filter(News(), Filter(UpTo(s.cursor), s.written)) && StrictlyAscending(s.output)
  {
    ExactlyOnce(es);
    StrictMeansDue(es);
    var s := After(INITIAL, es);
    FilterAscending(UpTo(s.cursor), s.written);
    FilterAscending(News(), Filter(UpTo(s.cursor), s.written));
  }

  /** One more event. */
  lemma Snoc(s: State, es: seq<Event>, e: Event)
    ensures After(s, es + [e]) == Step(After(s, es), e)
    ensures Legal(s, es + [e]) <==> Legal(s, es) && Allowed(After(s, es), e)
    ensures AllQuiet(s, es + [e]) <==> AllQuiet(s, es) && Quiet(After(s, es), e)
  {
    assert (es + [e])[..|es|] == es;
  }

  /** Right after an execution all due lines have been printed, */
  lemma CompleteAfterExecution(es: seq<Event>)
    requires Legal(INITIAL, es) && AllQuiet(INITIAL, es)
    ensures After(INITIAL, es + [Execute]).output == Filter(News(), After(INITIAL, es).due)
  {
    Snoc(INITIAL, es, Execute);
    InitialOk();
    Reachable(INITIAL, es);
    ExecutionCompletes(After(INITIAL, es));
  }

  /** and if stamps always advance these are all lines ever written. */
  lemma CompleteAfterExecutionStrict(es: seq<Event>)
    requires Legal(INITIAL, es) && AllQuiet(INITIAL, es) && Strict(INITIAL, es)
    ensures After(INITIAL, es + [Execute]).output == Filter(News(), After(INITIAL, es).written)
  {
    CompleteAfterExecution(es);
    StrictMeansDue(es);
  }

  /** What t adds to the output of s is above the cursor of s, which is not above that of t. */
  ghost predicate AddsOnlyNew(s: State, t: State)
  {
    && AtMost(s.cursor, t.cursor) && s.output <= t.output
    && forall l :: l in t.output[|s.output|..] ==> Less(s.cursor, l.stamp)
  }

  lemma AddsOnlyNewTransitive(s: State, t: State, u: State)
    requires AddsOnlyNew(s, t) && AddsOnlyNew(t, u)
    ensures AddsOnlyNew(s, u)
  {
    AtMostTransitive(s.cursor, t.cursor, u.cursor);
    assert u.output[|s.output|..] == t.output[|s.output|..] + u.output[|t.output|..];
    forall l | l in u.output[|t.output|..] ensures Less(s.cursor, l.stamp) {
      AtMostThenLess(s.cursor, t.cursor, l.stamp);
    }
  }

  /** Whatever files the script is given, it prints only lines above the cursor, */
  lemma {:induction false} PrintedIsAbove(files: seq<Source>, last: string)
    ensures forall l :: l in Printed(files, last) ==> Less(last, l.stamp)
  {
    if files != [] {
      var n := |files| - 1;
      PrintedIsAbove(files[..n], last);
      FilterMembers(Above(last), Filter(News(), files[n].lines));
    }
  }

  /** and does not move the cursor back. */
  lemma NextCursorIsNotBelow(files: seq<Source>, last: string)
    ensures AtMost(last, NextCursor(files, last))
  {
    Irreflexive(last);
  }

  lemma StepPrintsNothingOld(s: State, e: Event)
    ensures AddsOnlyNew(s, Step(s, e))
  {
    Irreflexive(s.cursor);
    if e.Execute? {
      PrintedIsAbove(Files(s), s.cursor);
      NextCursorIsNotBelow(Files(s), s.cursor);
      assert Step(s, e).output[|s.output|..] == Printed(Files(s), s.cursor);
    }
  }

  /** Whatever the directory holds and whatever happens to it, the cursor never goes back, and nothing at or
      before it is ever printed again. */
  lemma {:induction false} NothingOldIsPrinted(s: State, es: seq<Event>)
    ensures AddsOnlyNew(s, After(s, es))
  {
    if es == [] {
      Irreflexive(s.cursor);
    } else {
      var n := |es| - 1;
      NothingOldIsPrinted(s, es[..n]);
      StepPrintsNothingOld(After(s, es[..n]), es[n]);
      AddsOnlyNewTransitive(s, After(s, es[..n]), After(s, es));
    }
  }

  /** A line at or before the cursor that has not been printed is lost for good. */
  lemma OldIsLost(s: State, l: Line, es: seq<Event>)
    requires !Less(s.cursor, l.stamp) && l !in s.output
    ensures l !in After(s, es).output
  {
    NothingOldIsPrinted(s, es);
    var t := After(s, es);
    assert t.output == s.output + t.output[|s.output|..];
  }

  /** A line that is written with a stamp the cursor has passed is never printed, in any directory and
      whatever happens later; and the cursor does not go back to it. */
  lemma BackwardIsLost(s: State, b: Line, more: seq<Event>)
    requires !Less(s.cursor, b.stamp) && b !in s.output
    ensures var t := After(Step(s, Append(b)), more); b !in t.output && AtMost(s.cursor, t.cursor)
  {
    OldIsLost(Step(s, Append(b)), b, more);
    NothingOldIsPrinted(Step(s, Append(b)), more);
  }

  /** A line that shares its stamp with the line the last execution stopped at may be written, but is
      never printed: this is why stamps must advance strictly. */
  lemma TieIsLost(s: State, b: Line, more: seq<Event>)
    requires Inv(s) && s.current != []
    requires b.stamp == Step(s, Execute).cursor && b !in Step(s, Execute).output
    ensures Allowed(Step(s, Execute), Append(b))
    ensures b !in After(Step(Step(s, Execute), Append(b)), more).output
  {
    ExecuteCursor(s);
    assert s.written[|s.written| - 1] in s.written;
    Irreflexive(b.stamp);
    BackwardIsLost(Step(s, Execute), b, more);
  }

  // When `current` may be empty

  /** The due non-information lines that the cursor has passed have been printed. */
  ghost predicate NoneMissed(s: State)
  {
    forall l :: l in s.due && !l.info && !Less(s.cursor, l.stamp) ==> l in s.output
  }

  lemma ExecutePrints(s: State, l: Line)
    requires Inv(s) && l in s.due && !l.info && Less(s.cursor, l.stamp)
    ensures l in Printed(Files(s), s.cursor)
  {
    PrintedIsDue(s);
    FilterMembers(News(), Filter(Above(s.cursor), s.due));
    FilterMembers(Above(s.cursor), s.due);
  }

  /** An execution completes this: whatever it finds, all due lines have been printed by its end. */
  lemma ExecutePrintsAll(s: State)
    requires Inv(s) && NoneMissed(s)
    ensures forall l :: l in s.due && !l.info ==> l in Step(s, Execute).output
  {
    forall l | l in s.due && !l.info ensures l in Step(s, Execute).output {
      if Less(s.cursor, l.stamp) { ExecutePrints(s, l); }
    }
  }

  lemma NoneMissedKept(s: State, e: Event)
    requires Inv(s) && NoneMissed(s)
    ensures NoneMissed(Step(s, e))
  {
    if e.Execute? {
      ExecutePrintsAll(s);
    } else {
      assert s.due + [] == s.due;
    }
  }

  lemma {:induction false} NeverMissed(es: seq<Event>)
    requires Legal(INITIAL, es)
    ensures NoneMissed(After(INITIAL, es))
  {
    if es != [] {
      var n := |es| - 1;
      NeverMissed(es[..n]);
      InitialOk();
      Reachable(INITIAL, es[..n]);
      NoneMissedKept(After(INITIAL, es[..n]), es[n]);
    }
  }

  /** No loss: whether `current` is empty or not, after an execution every due line has been printed. */
  lemma NoLoss(es: seq<Event>)
    requires Legal(INITIAL, es)
    ensures var s := After(INITIAL, es + [Execute]); forall l :: l in s.due && !l.info ==> l in s.output
  {
    NeverMissed(es);
    InitialOk();
    Reachable(INITIAL, es);
    assert (es + [Execute])[..|es|] == es;
    ExecutePrintsAll(After(INITIAL, es));
  }

  predicate FoundEmpty(s: State, e: Event, l: Line)
  {
    e.Execute? && s.current == [] && l in Live(s) && Less(s.cursor, l.stamp)
  }

  /** Some execution of the history found `current` empty and l newer than the cursor. */
  predicate SeenWithEmptyCurrent(es: seq<Event>, l: Line)
  {
    && es != []
    && (SeenWithEmptyCurrent(es[..|es| - 1], l) || FoundEmpty(After(INITIAL, es[..|es| - 1]), es[|es| - 1], l))
  }

  lemma PrintedIsLive(s: State, l: Line)
    requires Inv(s) && l in Printed(Files(s), s.cursor)
    ensures l in Live(s) && l in s.written && Less(s.cursor, l.stamp)
  {
    PrintedIsNews(s);
    FilterMembers(Above(s.cursor), Filter(News(), Live(s)));
    FilterMembers(News(), Live(s));
  }

  /** Printed, although the cursor has not reached it. */
  predicate IsEarly(s: State, l: Line) { l in s.output && Less(s.cursor, l.stamp) }

  lemma PrintedEarlyByExecute(s: State, l: Line)
    requires Inv(s) && IsEarly(Step(s, Execute), l)
    ensures FoundEmpty(s, Execute, l) || IsEarly(s, l)
  {
    ExecuteCursor(s);
    AtMostThenLess(s.cursor, Step(s, Execute).cursor, l.stamp);
    if l in Printed(Files(s), s.cursor) { PrintedIsLive(s, l); }
  }

  lemma PrintedEarlyStep(s: State, e: Event, l: Line)
    requires Inv(s) && IsEarly(Step(s, e), l)
    ensures FoundEmpty(s, e, l) || IsEarly(s, l)
  {
    if e.Execute? { PrintedEarlyByExecute(s, l); }
  }

  lemma {:induction false} PrintedEarly(es: seq<Event>, l: Line)
    requires Legal(INITIAL, es) && IsEarly(After(INITIAL, es), l)
    ensures SeenWithEmptyCurrent(es, l)
  {
    if es != [] {
      var n := |es| - 1;
      InitialOk();
      Reachable(INITIAL, es[..n]);
      PrintedEarlyStep(After(INITIAL, es[..n]), es[n], l);
      if IsEarly(After(INITIAL, es[..n]), l) { PrintedEarly(es[..n], l); }
    }
  }

  lemma LiveAfterRotate(s: State, iso: string, name: string)
    ensures Live(Step(s, Rotate(iso, name))) == Live(s)
  {
    assert Step(s, Rotate(iso, name)).rotated[..|s.rotated|] == s.rotated;
  }

  /** As long as the cursor has not reached it, a line stays in the directory. */
  lemma UnreadStays(s: State, e: Event, l: Line)
    requires Inv(s) && Allowed(s, e) && l in Live(s) && Less(s.cursor, l.stamp)
    ensures l in Live(Step(s, e))
  {
    match e
    case Append(k) => assert Live(Step(s, e)) == Live(s) + [k];
    case Rotate(iso, name) => LiveAfterRotate(s, iso, name);
    case Delete(entry) => UnreadKept(s, entry, l);
    case Execute =>
  }

  lemma UnreadKept(s: State, entry: string, l: Line)
    requires Inv(s) && Allowed(s, Delete(entry)) && l in Live(s) && Less(s.cursor, l.stamp)
    ensures l in Live(Step(s, Delete(entry)))
  {
    var s' := Step(s, Delete(entry));
    KeptByDelete(s, entry);
    FilterMembers(Above(s.cursor), Live(s));
    FilterMembers(Above(s.cursor), Live(s'));
  }

  lemma FoundEmptyPrints(s: State, l: Line)
    requires Inv(s) && !l.info && FoundEmpty(s, Execute, l)
    ensures l in Step(s, Execute).output && l in Live(Step(s, Execute))
  {
    NewsArePrinted(s, l);
  }

  lemma NewsArePrinted(s: State, l: Line)
    requires Inv(s) && !l.info && l in Live(s) && Less(s.cursor, l.stamp)
    ensures l in Printed(Files(s), s.cursor)
  {
    PrintedIsNews(s);
    FilterMembers(Above(s.cursor), Filter(News(), Live(s)));
    FilterMembers(News(), Live(s));
  }

  /** A line printed by an execution that found `current` empty is still in the directory, until the cursor
      reaches it. */
  lemma StillThereStep(s: State, e: Event, l: Line)
    requires Inv(s) && Allowed(s, e) && !l.info && Less(s.cursor, l.stamp)
    requires FoundEmpty(s, e, l) || (l in s.output && l in Live(s))
    ensures l in Step(s, e).output && l in Live(Step(s, e))
  {
    if FoundEmpty(s, e, l) { FoundEmptyPrints(s, l); } else { UnreadStays(s, e, l); }
  }

  lemma {:induction false} PrintedAndStillThere(es: seq<Event>, l: Line)
    requires Legal(INITIAL, es) && SeenWithEmptyCurrent(es, l) && !l.info && Less(After(INITIAL, es).cursor, l.stamp)
    ensures l in After(INITIAL, es).output && l in Live(After(INITIAL, es))
  {
    var n := |es| - 1;
    var s := After(INITIAL, es[..n]);
    InitialOk();
    Reachable(INITIAL, es[..n]);
    StepPrintsNothingOld(s, es[n]);
    AtMostThenLess(s.cursor, Step(s, es[n]).cursor, l.stamp);
    if !FoundEmpty(s, es[n], l) { PrintedAndStillThere(es[..n], l); }
    StillThereStep(s, es[n], l);
  }

  /** A non-information line is printed again exactly if an earlier execution found `current` empty and the
      line newer than the cursor, and the line is still newer. */
  lemma RepeatsIffEmptyCurrent(es: seq<Event>, l: Line)
    requires Legal(INITIAL, es) && !l.info
    ensures var s := After(INITIAL, es);
      l in s.output && l in Printed(Files(s), s.cursor) <==> SeenWithEmptyCurrent(es, l) && Less(s.cursor, l.stamp)
  {
    var s := After(INITIAL, es);
    InitialOk();
    Reachable(INITIAL, es);
    if l in s.output && l in Printed(Files(s), s.cursor) {
      PrintedIsLive(s, l);
      PrintedEarly(es, l);
    }
    if SeenWithEmptyCurrent(es, l) && Less(s.cursor, l.stamp) {
      PrintedAndStillThere(es, l);
      NewsArePrinted(s, l);
    }
  }

  // Skipping files

  /** The output of a script that reads every file. */
  function PrintedUnskipped(files: seq<Source>, last: string): seq<Line>
  {
    if files == [] then []
    else
      var n := |files| - 1;
      PrintedUnskipped(files[..n], last) + FileNews(files[n].lines, last)
  }

  /** And the cursor it leaves behind. */
  function NextCursorUnskipped(files: seq<Source>, last: string): string
  {
    var next := if files == [] then "" else LastStamp(files[|files| - 1].lines);
    if Less(next, last) then last else next
  }

  lemma {:induction false} UnskippedArchive(rs: seq<Rotated>, cursor: string)
    ensures PrintedUnskipped(Sources(rs), cursor) == FileNews(Flat(rs), cursor)
  {
    if rs != [] {
      var n := |rs| - 1;
      UnskippedArchive(rs[..n], cursor);
      assert Sources(rs)[..n] == Sources(rs[..n]);
      FileNewsConcat(Flat(rs[..n]), rs[n].lines, cursor);
    }
  }

  /** Skipping files by name stamp changes neither the output nor the cursor. */
  lemma SkipIsSound(es: seq<Event>)
    requires Legal(INITIAL, es)
    ensures var s := After(INITIAL, es);
      && Printed(Files(s), s.cursor) == PrintedUnskipped(Files(s), s.cursor)
      && NextCursor(Files(s), s.cursor) == NextCursorUnskipped(Files(s), s.cursor)
  {
    var s := After(INITIAL, es);
    InitialOk();
    Reachable(INITIAL, es);
    PrintedIsNews(s);
    ListingInOrder(s.rotated, s.lastEntry);
    UnskippedArchive(s.rotated, s.cursor);
    FileNewsConcat(Flat(s.rotated), s.current, s.cursor);
    var files := Files(s);
    assert files[..|files| - 1] == Sources(s.rotated);
  }
}
