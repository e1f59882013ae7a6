/** The incremental log reader: one execution of the script. */
module LogWatch {
  import opened TextOrder
  import opened LogLines

  /** A log file under its line in the sorted file list: rendered name stamp, space, name; or "current". */
  datatype Source = Source(entry: string, lines: seq<Line>)

  const CURRENT: string := "current"

  // What one execution computes

  /** The lines that grep and the per-line filter leave of one file. */
  function FileNews(lines: seq<Line>, last: string): seq<Line>
  {
    Filter(Above(last), Filter(News(), lines))
  }

  function LastStamp(lines: seq<Line>): string { if lines == [] then "" else lines[|lines| - 1].stamp }

  /** The lines printed for the listed files, given the cursor. */
  function Printed(files: seq<Source>, last: string): seq<Line>
  {
    if files == [] then []
    else
      var n := |files| - 1;
      Printed(files[..n], last) + if Less(files[n].entry, last) then [] else FileNews(files[n].lines, last)
  }

  /** The value of NEXTISO after the loop over the files. */
  function NextStamp(files: seq<Source>, last: string): string
  {
    if files == [] then ""
    else
      var n := |files| - 1;
      if Less(files[n].entry, last) then NextStamp(files[..n], last) else LastStamp(files[n].lines)
  }

  /** The cursor that an execution leaves behind. */
  function NextCursor(files: seq<Source>, last: string): string
  {
    var next := NextStamp(files, last);
    if Less(next, last) then last else next
  }

  // sort

  function Insert(files: seq<Source>, f: Source): (r: seq<Source>)
    ensures |r| == |files| + 1
  {
    if files == [] || !Less(f.entry, files[|files| - 1].entry) then files + [f]
    else Insert(files[..|files| - 1], f) + [files[|files| - 1]]
  }

  function Sort(files: seq<Source>): (r: seq<Source>)
    ensures |r| == |files|
  {
    if files == [] then [] else Insert(Sort(files[..|files| - 1]), files[|files| - 1])
  }

  /** The script with the contents of its cursor file, empty when there is none. */
  class Script {
    var lastSeen: string

    constructor ()
      ensures lastSeen == ""
    {
      lastSeen := "";
    }

    /** srvctl/doc/example-tainlog-logwatch:16-61; the rotated files are given in directory order */
    method Execute(rotated: seq<Source>, current: seq<Line>) returns (output: seq<Line>)
      modifies this
      ensures var files := Sort(rotated) + [Source("current", current)];
        output == Printed(files, old(lastSeen)) && lastSeen == NextCursor(files, old(lastSeen))
    {
      var lastIso, nextIso := "", "";
      if lastSeen != "" {
        lastIso := lastSeen;
      }
      var logFiles := Sort(rotated) + [Source(CURRENT, current)];
      output, nextIso := ReadFiles(logFiles, lastIso);
      if Less(nextIso, lastIso) {
        nextIso := lastIso;
      }
      lastSeen := nextIso;
    }
  }

  /** srvctl/doc/example-tainlog-logwatch:27-54 */
  method ReadFiles(logFiles: seq<Source>, lastIso: string) returns (output: seq<Line>, nextIso: string)
    ensures output == Printed(logFiles, lastIso) && nextIso == NextStamp(logFiles, lastIso)
  {
    output, nextIso := [], "";
    var i := 0;
    while i < |logFiles|
      invariant 0 <= i <= |logFiles|
      invariant output == Printed(logFiles[..i], lastIso)
      invariant nextIso == NextStamp(logFiles[..i], lastIso)
    {
      var f := logFiles[i];
      OneMoreFile(logFiles, i, lastIso);
      i := i + 1;
      if Less(f.entry, lastIso) {
        continue;
      }
      nextIso := LastStamp(f.lines);
      var lines := Grep(f.lines);
      var newer := PrintNewer(lines, lastIso);
      output := output + newer;
    }
    assert logFiles[..i] == logFiles;
  }

  /** What one more file of the list adds. */
  lemma OneMoreFile(files: seq<Source>, i: nat, last: string)
    requires i < |files|
    ensures Less(files[i].entry, last) ==>
      && Printed(files[..i + 1], last) == Printed(files[..i], last)
      && NextStamp(files[..i + 1], last) == NextStamp(files[..i], last)
    ensures !Less(files[i].entry, last) ==>
      && Printed(files[..i + 1], last) == Printed(files[..i], last) + FileNews(files[i].lines, last)
      && NextStamp(files[..i + 1], last) == LastStamp(files[i].lines)
  {
    assert files[..i + 1][..i] == files[..i];
    assert Printed(files[..i], last) + [] == Printed(files[..i], last);
  }

  /** srvctl/doc/example-tainlog-logwatch:39 */
  method Grep(lines: seq<Line>) returns (kept: seq<Line>)
    ensures kept == Filter(News(), lines)
  {
    kept := [];
    for j := 0 to |lines|
      invariant kept == Filter(News(), lines[..j])
    {
      assert lines[..j + 1][..j] == lines[..j];
      if !lines[j].info {
        kept := kept + [lines[j]];
      }
    }
    assert lines[..|lines|] == lines;
  }

  /** srvctl/doc/example-tainlog-logwatch:46-53 */
  method PrintNewer(lines: seq<Line>, last: string) returns (output: seq<Line>)
    ensures output == Filter(Above(last), lines)
  {
    output := [];
    var j := 0;
    while j < |lines|
      invariant 0 <= j <= |lines|
      invariant output == Filter(Above(last), lines[..j])
    {
      var line := lines[j];
      assert lines[..j + 1][..j] == lines[..j];
      j := j + 1;
      Total(line.stamp, last);
      if Less(line.stamp, last) || line.stamp == last {
        NotAbove(line.stamp, last);
        continue;
      }
      output := output + [line];
    }
    assert lines[..j] == lines;
  }

  lemma NotAbove(s: string, t: string)
    requires Less(s, t) || s == t
    ensures !Less(t, s)
  {
    if s == t { Irreflexive(s); } else { LessIsAtMost(s, t); }
  }

  // Properties of the sorted list

  ghost predicate AscendingEntries(files: seq<Source>)
  {
    forall i, j :: 0 <= i < j < |files| ==> AtMost(files[i].entry, files[j].entry)
  }

  lemma {:induction false} InsertAdds(files: seq<Source>, f: Source)
    ensures multiset(Insert(files, f)) == multiset(files) + multiset{f}
  {
    if files != [] && Less(f.entry, files[|files| - 1].entry) {
      InsertAdds(files[..|files| - 1], f);
      assert files == files[..|files| - 1] + [files[|files| - 1]];
    }
  }

  lemma InsertedIsOneOf(files: seq<Source>, f: Source, g: Source)
    requires g in Insert(files, f)
    ensures g == f || g in files
  {
    InsertAdds(files, f);
    assert g in multiset(Insert(files, f));
  }

  lemma AscendingSnoc(files: seq<Source>, f: Source)
    requires AscendingEntries(files) && forall g :: g in files ==> AtMost(g.entry, f.entry)
    ensures AscendingEntries(files + [f])
  {
  }

  lemma LastIsGreatest(files: seq<Source>, g: Source)
    requires AscendingEntries(files) && g in files
    ensures AtMost(g.entry, files[|files| - 1].entry)
  {
    Irreflexive(g.entry);
  }

  lemma {:induction false} InsertKeepsOrder(files: seq<Source>, f: Source)
    requires AscendingEntries(files)
    ensures AscendingEntries(Insert(files, f))
  {
    if files == [] || !Less(f.entry, files[|files| - 1].entry) {
      forall g | g in files ensures AtMost(g.entry, f.entry) {
        LastIsGreatest(files, g);
        AtMostTransitive(g.entry, files[|files| - 1].entry, f.entry);
      }
      AscendingSnoc(files, f);
    } else {
      var front, last := files[..|files| - 1], files[|files| - 1];
      InsertKeepsOrder(front, f);
      LessIsAtMost(f.entry, last.entry);
      forall g | g in Insert(front, f) ensures AtMost(g.entry, last.entry) {
        InsertedIsOneOf(front, f, g);
        if g != f { LastIsGreatest(files, g); }
      }
      AscendingSnoc(Insert(front, f), last);
    }
  }

  lemma InsertSorts(files: seq<Source>, all: seq<Source>, f: Source)
    requires AscendingEntries(files) && multiset(files) == multiset(all)
    ensures AscendingEntries(Insert(files, f)) && multiset(Insert(files, f)) == multiset(all + [f])
  {
    InsertKeepsOrder(files, f);
    InsertAdds(files, f);
  }

  /** The list is the directory in ascending order. */
  lemma {:induction false} SortSorts(files: seq<Source>)
    ensures AscendingEntries(Sort(files)) && multiset(Sort(files)) == multiset(files)
  {
    if files != [] {
      var n := |files| - 1;
      SortSorts(files[..n]);
      InsertSorts(Sort(files[..n]), files[..n], files[n]);
      assert files == files[..n] + [files[n]];
    }
  }

  lemma InsertAtEnd(files: seq<Source>, f: Source)
    requires forall i :: 0 <= i < |files| ==> AtMost(files[i].entry, f.entry)
    ensures Insert(files, f) == files + [f]
  {
  }

  /** A directory already in order is listed as it is. */
  lemma {:induction false} SortKeepsSorted(files: seq<Source>)
    requires AscendingEntries(files)
    ensures Sort(files) == files
  {
    if files != [] {
      var n := |files| - 1;
      SortKeepsSorted(files[..n]);
      InsertAtEnd(files[..n], files[n]);
      assert files == files[..n] + [files[n]];
    }
  }
}
