/** Old rotated files can be deleted without anyone noticing. */
module LogForgetting {
  import opened TextOrder
  import opened LogWatch
  import opened LogHistory

  /** t is s with some rotated files missing. */
  ghost predicate Thinned(s: State, t: State)
  {
    t == s.(rotated := t.rotated) && forall r :: r in t.rotated ==> r in s.rotated
  }

  lemma {:induction false} WithoutMembers(rs: seq<Rotated>, entry: string)
    ensures forall r :: r in Without(rs, entry) <==> r in rs && Entry(r) != entry
  {
    if rs != [] {
      var n := |rs| - 1;
      WithoutMembers(rs[..n], entry);
      assert rs == rs[..n] + [rs[n]];
    }
  }

  lemma ThinnedExecute(s: State, t: State)
    requires Inv(s) && Inv(t) && Thinned(s, t)
    ensures Printed(Files(t), t.cursor) == Printed(Files(s), s.cursor)
    ensures Step(t, Execute).cursor == Step(s, Execute).cursor
  {
    PrintedIsDue(s);
    PrintedIsDue(t);
    ExecuteCursor(s);
    ExecuteCursor(t);
  }

  lemma ThinnedStep(s: State, t: State, e: Event)
    requires Inv(s) && Inv(t) && Thinned(s, t) && Allowed(s, e)
    ensures Allowed(t, e) && Thinned(Step(s, e), Step(t, e))
  {
    match e
    case Append(l) =>
    case Rotate(iso, name) =>
    case Delete(entry) =>
      WithoutMembers(s.rotated, entry);
      WithoutMembers(t.rotated, entry);
    case Execute => ThinnedExecute(s, t);
  }

  /** As long as nothing above the cursor is missing, a thinned directory is never told apart: whatever
      happens later, it prints the same and keeps the same cursor. */
  lemma {:induction false} ThinnedForever(s: State, t: State, es: seq<Event>)
    requires Inv(s) && Inv(t) && Thinned(s, t) && Legal(s, es)
    ensures Legal(t, es) && Thinned(After(s, es), After(t, es))
  {
    if es != [] {
      var n := |es| - 1;
      ThinnedForever(s, t, es[..n]);
      Reachable(s, es[..n]);
      Reachable(t, es[..n]);
      ThinnedStep(After(s, es[..n]), After(t, es[..n]), es[n]);
    }
  }

  /** Deleting a file that the script skips, because its name stamp is below the cursor, changes neither
      the output nor the cursor of any later history. */
  lemma ForgettingIsInvisible(history: seq<Event>, entry: string, later: seq<Event>)
    requires Legal(INITIAL, history)
    requires var s := After(INITIAL, history);
      Legal(s, later) && forall r :: r in s.rotated && Entry(r) == entry ==> Less(Entry(r), s.cursor)
    ensures var s := After(INITIAL, history); var t := Step(s, Delete(entry));
      && Allowed(s, Delete(entry)) && Legal(t, later)
      && After(t, later).output == After(s, later).output
      && After(t, later).cursor == After(s, later).cursor
  {
    var s := After(INITIAL, history);
    InitialOk();
    Reachable(INITIAL, history);
    ArchiveEntries(s.rotated, s.lastEntry);
    forall r | r in s.rotated && Entry(r) == entry ensures Settled(r.lines, s.cursor) {
      SkippedIsSettled(r, s.cursor);
    }
    KeptByDelete(s, entry);
    WithoutMembers(s.rotated, entry);
    ThinnedForever(s, Step(s, Delete(entry)), later);
  }
}
