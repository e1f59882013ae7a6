/** Log lines as the script sees them, and the filters it applies. */
module LogLines {
  import opened TextOrder

  /** A line: its rendered stamp, whether grep takes it for an information line, and its text. */
  datatype Line = Line(stamp: string, info: bool, text: string)

  function Filter(p: Line -> bool, ls: seq<Line>): seq<Line>
  {
    if ls == [] then []
    else
      var n := |ls| - 1;
      Filter(p, ls[..n]) + if p(ls[n]) then [ls[n]] else []
  }

  /** Newer than the cursor. */
  function Above(cursor: string): Line -> bool { (l: Line) => Less(cursor, l.stamp) }

  /** At or before the cursor. */
  function UpTo(cursor: string): Line -> bool { (l: Line) => !Less(cursor, l.stamp) }

  /** Kept by grep -v. */
  function News(): Line -> bool { (l: Line) => !l.info }

  ghost predicate Ascending(ls: seq<Line>)
  {
    forall i, j :: 0 <= i < j < |ls| ==> AtMost(ls[i].stamp, ls[j].stamp)
  }

  ghost predicate StrictlyAscending(ls: seq<Line>)
  {
    forall i, j :: 0 <= i < j < |ls| ==> Less(ls[i].stamp, ls[j].stamp)
  }

  lemma {:induction false} FilterMembers(p: Line -> bool, ls: seq<Line>)
    ensures forall l :: l in Filter(p, ls) <==> l in ls && p(l)
  {
    if ls != [] {
      var n := |ls| - 1;
      FilterMembers(p, ls[..n]);
      assert ls == ls[..n] + [ls[n]];
    }
  }

  lemma {:induction false} FilterConcat(p: Line -> bool, s: seq<Line>, t: seq<Line>)
    ensures Filter(p, s + t) == Filter(p, s) + Filter(p, t)
  {
    if t == [] {
      assert s + t == s;
    } else {
      var n := |t| - 1;
      assert (s + t)[..|s + t| - 1] == s + t[..n];
      FilterConcat(p, s, t[..n]);
    }
  }

  lemma {:induction false} FilterAll(p: Line -> bool, ls: seq<Line>)
    requires forall l :: l in ls ==> p(l)
    ensures Filter(p, ls) == ls
  {
    if ls != [] {
      FilterAll(p, ls[..|ls| - 1]);
      assert ls == ls[..|ls| - 1] + [ls[|ls| - 1]];
    }
  }

  lemma FilterNone(p: Line -> bool, ls: seq<Line>)
    requires forall l :: l in ls ==> !p(l)
    ensures Filter(p, ls) == []
  {
    FilterMembers(p, ls);
    if Filter(p, ls) != [] { assert Filter(p, ls)[0] in Filter(p, ls); }
  }

  lemma {:induction false} FilterCommute(p: Line -> bool, q: Line -> bool, ls: seq<Line>)
    ensures Filter(p, Filter(q, ls)) == Filter(q, Filter(p, ls))
  {
    if ls != [] {
      var n := |ls| - 1;
      FilterCommute(p, q, ls[..n]);
      FilterFiltered(p, q, ls[..n], ls[n]);
      FilterFiltered(q, p, ls[..n], ls[n]);
      assert ls == ls[..n] + [ls[n]];
    }
  }

  /** Filtering twice, one line at a time. */
  lemma FilterFiltered(p: Line -> bool, q: Line -> bool, ls: seq<Line>, l: Line)
    ensures Filter(p, Filter(q, ls + [l])) == Filter(p, Filter(q, ls)) + if p(l) && q(l) then [l] else []
  {
    FilterConcat(q, ls, [l]);
    FilterOne(q, l);
    FilterOne(p, l);
    FilterConcat(p, Filter(q, ls), Filter(q, [l]));
  }

  lemma FilterOne(p: Line -> bool, l: Line)
    ensures Filter(p, [l]) == if p(l) then [l] else []
  {
    assert Filter(p, [l][..0]) == [];
  }

  /** An ascending sequence is what lies up to the cursor, followed by what lies above it. */
  lemma {:induction false} Split(c: string, ls: seq<Line>)
    requires Ascending(ls)
    ensures ls == Filter(UpTo(c), ls) + Filter(Above(c), ls)
  {
    if ls != [] {
      var n := |ls| - 1;
      var l := ls[n];
      Split(c, ls[..n]);
      assert ls == ls[..n] + [l];
      if !Less(c, l.stamp) {
        forall k | k in ls[..n] ensures !Above(c)(k) {
          var i :| 0 <= i < n && ls[..n][i] == k;
          AtMostTransitive(ls[i].stamp, l.stamp, c);
        }
        FilterNone(Above(c), ls[..n]);
      }
    }
  }

  lemma {:induction false} FilterAscending(p: Line -> bool, ls: seq<Line>)
    ensures Ascending(ls) ==> Ascending(Filter(p, ls))
    ensures StrictlyAscending(ls) ==> StrictlyAscending(Filter(p, ls))
  {
    if ls != [] {
      var n := |ls| - 1;
      FilterAscending(p, ls[..n]);
      FilterMembers(p, ls[..n]);
      if Ascending(ls) { SnocAscending(Filter(p, ls[..n]), ls[..n], ls[n]); }
      if StrictlyAscending(ls) { SnocStrict(Filter(p, ls[..n]), ls[..n], ls[n]); }
    }
  }

  lemma SnocAscending(s: seq<Line>, all: seq<Line>, l: Line)
    requires Ascending(s) && (forall k :: k in s ==> k in all)
    requires forall i :: 0 <= i < |all| ==> AtMost(all[i].stamp, l.stamp)
    ensures Ascending(s + [l])
  {
    forall i | 0 <= i < |s| ensures AtMost(s[i].stamp, l.stamp) { assert s[i] in all; }
  }

  lemma SnocStrict(s: seq<Line>, all: seq<Line>, l: Line)
    requires StrictlyAscending(s) && (forall k :: k in s ==> k in all)
    requires forall i :: 0 <= i < |all| ==> Less(all[i].stamp, l.stamp)
    ensures StrictlyAscending(s + [l])
  {
    forall i | 0 <= i < |s| ensures Less(s[i].stamp, l.stamp) { assert s[i] in all; }
  }
}
