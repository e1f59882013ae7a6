/** From clock readings to the output of the log reader: which lines reach it exactly once. */
module EndToEnd {
  import opened Machine
  import opened TaiLabels
  import opened AprTime
  import opened TextOrder
  import opened Stamps
  import opened LogFiles
  import opened LogLines
  import opened LogWatch
  import opened LogHistory
  import opened LogDelivery

  /** What tainlog stamps and logs: the clock value, and the line without its newline. */
  datatype Item = Item(now: i64, continued: bool, body: string)

  function Raw(e: Item): string { RawLine(e.now, e.continued, e.body) }

  function IsInfo(e: Item): bool { Contains(Raw(e), INFORMATION) }

  /** The line that the reader sees. */
  function LineOf(e: Item, zone: int -> int): Line { Seen(Raw(e), zone) }

  function LineIn(zone: int -> int): Item -> Line { (e: Item) => LineOf(e, zone) }

  function LinesOf(es: seq<Item>, zone: int -> int): seq<Line> { Each(LineIn(zone), es) }

  predicate Loggable(e: Item, zone: int -> int) { ClockOk(e.now, zone) && '\n' !in e.body }

  predicate AllLoggable(es: seq<Item>, zone: int -> int) { forall e :: e in es ==> Loggable(e, zone) }

  ghost predicate ClockAscends(es: seq<Item>) { forall i, j :: 0 <= i < j < |es| ==> es[i].now < es[j].now }

  /** An information line is one that has the words somewhere; */
  lemma InfoIsMarked(e: Item)
    ensures IsInfo(e) <==> exists i :: At(Raw(e), " information: ", i)
  {
    ContainsSomewhere(Raw(e), INFORMATION);
  }

  /** in particular, a line whose body has the words anywhere is an information line. */
  lemma MarkedIsInfo(e: Item, i: nat)
    requires At(e.body, " information: ", i)
    ensures IsInfo(e)
  {
    var stamp, sep := TextOfTain(FromApr(e.now)), [if e.continued then '\t' else ' '];
    AtBehind(sep, e.body, INFORMATION, i);
    AtBehind(stamp, sep + e.body, INFORMATION, |sep| + i);
    ContainsWhatIsThere(Raw(e), INFORMATION, |stamp| + (|sep| + i));
  }

  // What is asked of stamps

  lemma TwoWordsAreTimed(date: string, time: string)
    requires |date| == 10 && '0' <= date[0] <= '9' && Visible(time)
    ensures Timed(date + " " + time)
  {
    var stamp := date + " " + time;
    assert stamp[0] == date[0] && date[0] < CURRENT[0];
    forall i | 10 < i < |stamp| ensures ' ' < stamp[i] {
      assert stamp[i] == time[i - 11] && time[i - 11] in time;
    }
  }

  lemma StampIsTimed(now: i64, zone: int -> int)
    requires ClockOk(now, zone)
    ensures Timed(StampText(now, zone))
  {
    var date, time := StampWords(now, zone);
    TwoWordsAreTimed(date, time);
  }

  lemma LineIsTimed(e: Item, zone: int -> int)
    requires Loggable(e, zone)
    ensures LineOf(e, zone).stamp == StampText(e.now, zone) && Timed(LineOf(e, zone).stamp)
    ensures LineOf(e, zone).info == IsInfo(e)
  {
    SeenStamp(e.now, e.continued, e.body, zone);
    StampIsTimed(e.now, zone);
  }

  lemma LinesAreTimed(es: seq<Item>, zone: int -> int)
    requires AllLoggable(es, zone)
    ensures AllTimed(LinesOf(es, zone))
  {
    var ls := LinesOf(es, zone);
    forall l | l in ls ensures Timed(l.stamp) {
      var i :| 0 <= i < |ls| && ls[i] == l;
      LineIsTimed(es[i], zone);
    }
  }

  /** The stamps of a line and a later one, as the reader needs them. */
  predicate StampsFit(a: Item, b: Item, zone: int -> int)
  {
    var s, t := StampText(a.now, zone), StampText(b.now, zone);
    Less(s, t) || (IsInfo(b) && (IsInfo(a) || s == t))
  }

  lemma FitMeansInOrder(a: Item, b: Item, zone: int -> int)
    requires Loggable(a, zone) && Loggable(b, zone)
    ensures StampsFit(a, b, zone) <==> OneAfterOther(LineOf(a, zone), LineOf(b, zone))
  {
    LineIsTimed(a, zone);
    LineIsTimed(b, zone);
    var s, t := StampText(a.now, zone), StampText(b.now, zone);
    StampsFitExactly(s, t, IsInfo(a), IsInfo(b));
  }

  lemma StampsFitExactly(s: string, t: string, a: bool, b: bool)
    ensures Less(s, t) || (b && (a || s == t)) <==> (a || AtMost(s, t)) && (b || Less(s, t))
  {
    Total(s, t);
    if Less(s, t) { LessIsAtMost(s, t); }
    if s == t { Irreflexive(s); }
  }

  lemma FitAt(es: seq<Item>, zone: int -> int, i: nat, j: nat)
    requires AllLoggable(es, zone) && i < j < |es|
    ensures StampsFit(es[i], es[j], zone) <==> OneAfterOther(LinesOf(es, zone)[i], LinesOf(es, zone)[j])
  {
    assert LinesOf(es, zone)[i] == LineOf(es[i], zone) && LinesOf(es, zone)[j] == LineOf(es[j], zone);
    FitMeansInOrder(es[i], es[j], zone);
  }

  ghost predicate AllFit(es: seq<Item>, zone: int -> int)
  {
    forall i, j :: 0 <= i < j < |es| ==> StampsFit(es[i], es[j], zone)
  }

  lemma AllFitMeansInOrder(es: seq<Item>, zone: int -> int)
    requires AllLoggable(es, zone)
    ensures AllFit(es, zone) <==> InOrder(LinesOf(es, zone))
  {
    var ls := LinesOf(es, zone);
    if AllFit(es, zone) {
      forall i, j | 0 <= i < j < |ls| ensures OneAfterOther(ls[i], ls[j]) { FitAt(es, zone, i, j); }
    }
    if InOrder(ls) {
      forall i, j | 0 <= i < j < |es| ensures StampsFit(es[i], es[j], zone) { FitAt(es, zone, i, j); }
    }
  }

  /** In any zone, whatever the clock does: the lines reach the reader exactly once, in every placement of runs,
      rotations and removals, if and only if their stamps fit. */
  lemma EveryLineOnceIff(es: seq<Item>, zone: int -> int)
    requires AllLoggable(es, zone)
    ensures AlwaysExact(LinesOf(es, zone)) <==> forall i, j :: 0 <= i < j < |es| ==> StampsFit(es[i], es[j], zone)
  {
    LinesAreTimed(es, zone);
    AlwaysExactIffInOrder(LinesOf(es, zone));
    AllFitMeansInOrder(es, zone);
    assert AllFit(es, zone) <==> forall i, j :: 0 <= i < j < |es| ==> StampsFit(es[i], es[j], zone);
  }

  /** All these times have one offset. */
  ghost predicate SameOffset(es: seq<Item>, zone: int -> int, gmtoff: int)
  {
    forall e :: e in es ==> zone(e.now + 1) == gmtoff
  }

  lemma FitUnlessConflict(a: Item, b: Item, zone: int -> int, gmtoff: int)
    requires Loggable(a, zone) && Loggable(b, zone) && a.now < b.now && zone(a.now + 1) == zone(b.now + 1) == gmtoff
    ensures StampsFit(a, b, zone) <==> !Conflict(a.now, b.now, gmtoff) || (IsInfo(a) && IsInfo(b))
  {
    StampsInOrder(a.now, b.now, zone, gmtoff);
  }

  /** With an advancing clock and one offset, this fails only in UTC, and exactly if a line that shows a whole
      second is followed by another of that second, and not both are information lines. */
  lemma EveryLineOnceIffNoConflict(es: seq<Item>, zone: int -> int, gmtoff: int)
    requires AllLoggable(es, zone) && ClockAscends(es) && SameOffset(es, zone, gmtoff)
    ensures AlwaysExact(LinesOf(es, zone)) <==>
            forall i, j :: 0 <= i < j < |es| && Conflict(es[i].now, es[j].now, gmtoff) ==>
                             IsInfo(es[i]) && IsInfo(es[j])
  {
    EveryLineOnceIff(es, zone);
    forall i, j | 0 <= i < j < |es|
      ensures StampsFit(es[i], es[j], zone) <==>
              !Conflict(es[i].now, es[j].now, gmtoff) || (IsInfo(es[i]) && IsInfo(es[j]))
    {
      FitUnlessConflict(es[i], es[j], zone, gmtoff);
    }
  }

  /** No two lines are logged within a second of the wall clock. */
  ghost predicate SecondsDiffer(es: seq<Item>, zone: int -> int)
  {
    forall i, j :: 0 <= i < j < |es| ==> WallSecond(es[i].now, zone) != WallSecond(es[j].now, zone)
  }

  /** Where the offset changes, exactly the wall clock must not go back. */
  lemma EveryLineOnceIffWallClockAscends(es: seq<Item>, zone: int -> int)
    requires AllLoggable(es, zone) && SecondsDiffer(es, zone)
    ensures AlwaysExact(LinesOf(es, zone)) <==>
            forall i, j :: 0 <= i < j < |es| && WallSecond(es[j].now, zone) < WallSecond(es[i].now, zone) ==>
                             IsInfo(es[i]) && IsInfo(es[j])
  {
    EveryLineOnceIff(es, zone);
    forall i, j | 0 <= i < j < |es|
      ensures StampsFit(es[i], es[j], zone) <==>
              (WallSecond(es[j].now, zone) < WallSecond(es[i].now, zone) ==> IsInfo(es[i]) && IsInfo(es[j]))
    {
      FitUnlessWallClockBack(es[i], es[j], zone);
    }
  }

  lemma FitUnlessWallClockBack(a: Item, b: Item, zone: int -> int)
    requires Loggable(a, zone) && Loggable(b, zone) && WallSecond(a.now, zone) != WallSecond(b.now, zone)
    ensures StampsFit(a, b, zone) <==> (WallSecond(b.now, zone) < WallSecond(a.now, zone) ==> IsInfo(a) && IsInfo(b))
  {
    StampsFollowWallClock(a.now, b.now, zone);
    StampsFollowWallClock(b.now, a.now, zone);
    Irreflexive(StampText(a.now, zone));
  }

  // The two failures

  /** In UTC a line is in conflict with a later one exactly if it is logged in the last microsecond of a second,
      and the other less than a second after it. */
  lemma ConflictExactly(a: i64, b: i64)
    requires a < b
    ensures Conflict(a, b, 0) <==> a % MEGA == MEGA - 1 && b < a + MEGA
  {
  }

  /** For one, in the first two seconds of 1970. */
  lemma ConflictHappens(body: string, next: string)
    requires '\n' !in body && '\n' !in next
    ensures var a, b := Item(MEGA - 1, false, body), Item(MEGA, false, next);
      Loggable(a, Utc()) && Loggable(b, Utc()) && a.now < b.now && Conflict(a.now, b.now, 0)
  {
    FirstDayIsOk(MEGA - 1, Utc());
    FirstDayIsOk(MEGA, Utc());
    ConflictExactly(MEGA - 1, MEGA);
  }

  function Utc(): int -> int { (a: int) => 0 }

  lemma ConflictReversesStamps(a: Item, b: Item, zone: int -> int)
    requires Loggable(a, zone) && Loggable(b, zone) && a.now < b.now
    requires zone(a.now + 1) == zone(b.now + 1) == 0 && Conflict(a.now, b.now, 0)
    ensures Less(LineOf(b, zone).stamp, LineOf(a, zone).stamp)
  {
    StampsInOrder(a.now, b.now, zone, 0);
    LineIsTimed(a, zone);
    LineIsTimed(b, zone);
    Total(StampText(a.now, zone), StampText(b.now, zone));
  }

  /** If the script runs between two lines in conflict, the second is never printed, whatever was done before
      and is done later. */
  lemma ConflictLosesLine(s: State, a: Item, b: Item, zone: int -> int, full: bool, name: string, later: seq<Act>)
    requires Loggable(a, zone) && Loggable(b, zone) && a.now < b.now
    requires zone(a.now + 1) == zone(b.now + 1) == 0 && Conflict(a.now, b.now, 0)
    requires LineOf(b, zone) !in DoAll(s, [Write(LineOf(a, zone), full, name), Watch]).output
    ensures var t := DoAll(s, [Write(LineOf(a, zone), full, name), Watch]);
      forall full', name' :: LineOf(b, zone) !in DoAll(Do(t, Write(LineOf(b, zone), full', name')), later).output
  {
    var k, l := LineOf(a, zone), LineOf(b, zone);
    ConflictReversesStamps(a, b, zone);
    LineIsTimed(a, zone);
    var s' := Do(s, Write(k, full, name));
    RunReaches(s', k);
    DoTwo(s, Write(k, full, name), Watch);
    LessThenAtMost(l.stamp, k.stamp, Do(s', Watch).cursor);
    LessIsAtMost(l.stamp, Do(s', Watch).cursor);
    forall full', name' ensures l !in DoAll(Do(Do(s', Watch), Write(l, full', name')), later).output {
      LostForGood(Do(s', Watch), l, full', name', later);
    }
  }

  /** If it does not, and then runs twice, the first line is printed twice. */
  lemma ConflictRepeatsLine(s: State, a: Item, b: Item, zone: int -> int, full: bool, name: string)
    requires Loggable(a, zone) && Loggable(b, zone) && a.now < b.now && !IsInfo(a)
    requires zone(a.now + 1) == zone(b.now + 1) == 0 && Conflict(a.now, b.now, 0)
    requires Less(s.cursor, LineOf(a, zone).stamp)
    ensures var t := DoAll(s, [Write(LineOf(a, zone), full, name), Write(LineOf(b, zone), false, "")]);
      var u := Do(t, Watch);
      LineOf(a, zone) in Printed(Files(t), t.cursor) && LineOf(a, zone) in Printed(Files(u), u.cursor)
  {
    var k, l := LineOf(a, zone), LineOf(b, zone);
    ConflictReversesStamps(a, b, zone);
    LineIsTimed(a, zone);
    RepeatedByTwoRuns(s, k, l, full, name);
  }
}
