/** The log directory that tainlog writes: `current`, and an archive of full files named by labels. */
module LogDirectory {
  import opened Machine
  import opened TextOrder
  import opened TextLines
  import opened Hex
  import opened TaiLabels
  import opened AprTime
  import opened Tainlog

  /** Names of archived files. */
  predicate LogName(name: string) { |name| == TAIN_FORMAT && name[0] == '@' }

  ghost predicate AscendingNames(names: seq<string>)
  {
    forall i, j :: 0 <= i < j < |names| ==> Less(names[i], names[j])
  }

  /** names lists the archived files among those of the directory, oldest first. */
  ghost predicate Listed(names: seq<string>, archive: map<string, string>)
  {
    AscendingNames(names) && forall n :: n in names <==> n in archive && LogName(n)
  }

  /** The texts of the listed files, oldest first. */
  ghost function Texts(names: seq<string>, archive: map<string, string>): string
    requires forall n :: n in names ==> n in archive
  {
    if names == [] then "" else archive[names[0]] + Texts(names[1..], archive)
  }

  lemma {:induction false} DistinctSize(names: seq<string>, all: set<string>)
    requires AscendingNames(names) && (forall n :: n in names <==> n in all)
    ensures |all| == |names|
  {
    if names == [] {
      assert all == {};
    } else {
      var rest := all - {names[0]};
      assert forall i :: 0 < i < |names| ==> names[i] != names[0] by {
        Irreflexive(names[0]);
      }
      forall n ensures n in names[1..] <==> n in rest {
        if n in rest { assert n in names; }
      }
      DistinctSize(names[1..], rest);
    }
  }

  lemma {:induction false} TextsUnchanged(names: seq<string>, a: map<string, string>, b: map<string, string>)
    requires forall n :: n in names ==> n in a && n in b && a[n] == b[n]
    ensures Texts(names, a) == Texts(names, b)
  {
    if names != [] { TextsUnchanged(names[1..], a, b); }
  }

  lemma {:induction false} TextsSnoc(names: seq<string>, name: string, archive: map<string, string>)
    requires name in archive && forall n :: n in names ==> n in archive
    ensures Texts(names + [name], archive) == Texts(names, archive) + archive[name]
  {
    if names == [] {
      assert Texts([name], archive) == archive[name] + Texts([], archive);
      assert [] + [name] == [name];
    } else {
      assert (names + [name])[1..] == names[1..] + [name];
      TextsSnoc(names[1..], name, archive);
      Associative(archive[names[0]], Texts(names[1..], archive), archive[name]);
    }
  }

  lemma OldestIsFirst(names: seq<string>, oldest: string)
    requires AscendingNames(names) && oldest in names && forall n :: n in names ==> AtMost(oldest, n)
    ensures oldest == names[0]
  {
    assert AtMost(oldest, names[0]);
  }

  /** The directory without the d oldest listed files. */
  ghost function Dropped(names: seq<string>, d: nat, archive: map<string, string>): map<string, string>
    requires d <= |names|
  {
    map n | n in archive && n !in names[..d] :: archive[n]
  }

  /** How many files are too many. */
  function Surplus(files: nat, keep: int): nat
  {
    if keep < 0 || files <= keep then 0 else files - keep
  }

  lemma DropListed(names: seq<string>, d: nat, archive: map<string, string>)
    requires Listed(names, archive) && d <= |names|
    ensures Listed(names[d..], Dropped(names, d, archive))
    ensures d < |names| ==> Dropped(names, d + 1, archive) == Dropped(names, d, archive) - {names[d]}
  {
    forall i, j | 0 <= i < d <= j < |names| ensures names[i] != names[j] { Irreflexive(names[i]); }
    forall n ensures n in names[d..] <==> n in names && n !in names[..d] {
      assert names == names[..d] + names[d..];
    }
    if d < |names| { assert names[..d + 1] == names[..d] + [names[d]]; }
  }

  /** d of the listed files have been removed. */
  ghost predicate Flushed(names: seq<string>, archive: map<string, string>, d: nat,
                          names': seq<string>, archive': map<string, string>)
  {
    d <= |names| && names' == names[d..] && archive' == Dropped(names, d, archive)
  }

  lemma NoneFlushed(names: seq<string>, archive: map<string, string>)
    ensures Flushed(names, archive, 0, names, archive)
  {
  }

  lemma OneMoreFlushed(names: seq<string>, archive: map<string, string>, d: nat,
                       names': seq<string>, archive': map<string, string>)
    requires Listed(names, archive) && d < |names| && Flushed(names, archive, d, names', archive')
    ensures Flushed(names, archive, d + 1, names'[1..], archive' - {names'[0]})
  {
    DropListed(names, d, archive);
    assert names[d..][1..] == names[d + 1..];
  }

  lemma {:induction false} TextsDropped(names: seq<string>, d: nat, archive: map<string, string>)
    requires d <= |names| && forall n :: n in names ==> n in archive
    ensures EndsWith(Texts(names, archive), Texts(names[d..], archive))
  {
    if d == 0 {
      assert names[0..] == names;
    } else {
      TextsDropped(names[1..], d - 1, archive);
      assert names[1..][d - 1..] == names[d..];
      EndsWithTransitive(Texts(names, archive), Texts(names[1..], archive), Texts(names[d..], archive));
    }
  }

  /** What is left after dropping files is the end of what there was. */
  lemma DroppedContents(names: seq<string>, d: nat, archive: map<string, string>)
    requires Listed(names, archive) && d <= |names|
    ensures forall n :: n in names[d..] ==> n in Dropped(names, d, archive)
    ensures EndsWith(Texts(names, archive), Texts(names[d..], Dropped(names, d, archive)))
    ensures d == 0 ==> Texts(names, archive) == Texts(names[d..], Dropped(names, d, archive))
  {
    DropListed(names, d, archive);
    TextsDropped(names, d, archive);
    TextsUnchanged(names[d..], archive, Dropped(names, d, archive));
    assert names[0..] == names;
  }

  /** Everything a directory holds, in the order it was logged. */
  ghost function Contents(names: seq<string>, archive: map<string, string>, current: string): string
    requires forall n :: n in names ==> n in archive
  {
    Texts(names, archive) + current
  }

  lemma NewNameListed(names: seq<string>, archive: map<string, string>, name: string, text: string)
    requires Listed(names, archive) && LogName(name) && forall n :: n in names ==> Less(n, name)
    ensures Listed(names + [name], archive[name := text])
    ensures Texts(names + [name], archive[name := text]) == Texts(names, archive) + text
  {
    Irreflexive(name);
    assert name !in names;
    TextsUnchanged(names, archive, archive[name := text]);
    TextsSnoc(names, name, archive[name := text]);
  }

  /** Archiving the full file and dropping the surplus keeps the end of all that was logged; without a
      limit it keeps everything. */
  lemma RotationKeepsTheEnd(names: seq<string>, archive: map<string, string>, current: string, name: string,
                            keep: int, buffer: string)
    requires Listed(names, archive) && LogName(name) && forall n :: n in names ==> Less(n, name)
    ensures var all := names + [name]; var d := Surplus(|all|, keep);
      var kept := Dropped(all, d, archive[name := current]);
      && Listed(all[d..], kept)
      && EndsWith(Contents(names, archive, current + buffer), Contents(all[d..], kept, buffer))
      && (keep < 0 ==> Contents(names, archive, current + buffer) == Contents(all[d..], kept, buffer))
  {
    var all, archive' := names + [name], archive[name := current];
    var d := Surplus(|all|, keep);
    NewNameListed(names, archive, name, current);
    DropListed(all, d, archive');
    DroppedContents(all, d, archive');
    EndsWithConcat(Texts(all, archive'), Texts(all[d..], Dropped(all, d, archive')), buffer);
    Associative(Texts(names, archive), current, buffer);
  }

  // The directory as a value

  datatype LogFile = LogFile(name: string, text: string)

  /** The archived files, oldest first, and `current`. */
  datatype LogDir = LogDir(files: seq<LogFile>, current: string)

  /** A record goes to `current` if it fits there; otherwise `current` is archived, and the oldest files go. */
  function Appended(d: LogDir, record: string, name: string, fileSize: nat, keep: int): LogDir
  {
    if |d.current| + |record| > fileSize then
      var all := d.files + [LogFile(name, d.current)];
      LogDir(all[Surplus(|all|, keep)..], record)
    else
      d.(current := d.current + record)
  }

  /** All records of an input in turn. */
  function LoggedTo(d: LogDir, s: string, room: nat, continued: bool, stamps: nat -> string, k: nat,
                    fileSize: nat, keep: int): LogDir
    requires room > 0
    decreases |s|
  {
    if s == "" then d
    else
      var n := PieceLength(s, room);
      LoggedTo(Appended(d, Record(stamps(k), continued, s[..n]), stamps(k), fileSize, keep),
               s[n..], room, !EndsLine(s[..n]), stamps, k + 1, fileSize, keep)
  }

  /** How many records of an input do not fit into `current`, from its size on. */
  function Archivings(size: nat, s: string, room: nat, continued: bool, stamps: nat -> string, k: nat,
                      fileSize: nat): nat
    requires room > 0
    decreases |s|
  {
    if s == "" then 0
    else
      var n := PieceLength(s, room);
      var r := |Record(stamps(k), continued, s[..n])|;
      if size + r > fileSize then 1 + Archivings(r, s[n..], room, !EndsLine(s[..n]), stamps, k + 1, fileSize)
      else Archivings(size + r, s[n..], room, !EndsLine(s[..n]), stamps, k + 1, fileSize)
  }

  lemma FilesAfterAppend(d: LogDir, record: string, name: string, fileSize: nat, keep: int)
    ensures var d' := Appended(d, record, name, fileSize, keep);
      if |d.current| + |record| > fileSize then
        |d'.current| == |record| && |d'.files| == if keep < 0 || |d.files| < keep then |d.files| + 1 else keep
      else
        |d'.current| == |d.current| + |record| && d'.files == d.files
  {
  }

  /** The number of archived files: one more for each record that does not fit, as long as there is room for it, and
      then exactly as many as are kept. */
  lemma {:induction false} FilesAfterLogging(d: LogDir, s: string, room: nat, continued: bool,
                                             stamps: nat -> string, k: nat, fileSize: nat, keep: int)
    requires room > 0
    ensures var more := Archivings(|d.current|, s, room, continued, stamps, k, fileSize);
      |LoggedTo(d, s, room, continued, stamps, k, fileSize, keep).files| ==
      if more == 0 then |d.files| else if keep < 0 || |d.files| + more <= keep then |d.files| + more else keep
    decreases |s|
  {
    if s != "" {
      var n := PieceLength(s, room);
      var record := Record(stamps(k), continued, s[..n]);
      FilesAfterAppend(d, record, stamps(k), fileSize, keep);
      FilesAfterLogging(Appended(d, record, stamps(k), fileSize, keep), s[n..], room, !EndsLine(s[..n]), stamps, k + 1,
                        fileSize, keep);
    }
  }

  /** A directory with no more files than are kept never comes to hold more; and once a file has gone, it holds exactly
      as many. */
  lemma FilesStayBounded(d: LogDir, s: string, room: nat, continued: bool, stamps: nat -> string, k: nat,
                         fileSize: nat, keep: nat)
    requires room > 0 && |d.files| <= keep
    ensures var files := LoggedTo(d, s, room, continued, stamps, k, fileSize, keep).files;
      && |d.files| <= |files| <= keep
      && (|files| < |d.files| + Archivings(|d.current|, s, room, continued, stamps, k, fileSize) ==> |files| == keep)
  {
    FilesAfterLogging(d, s, room, continued, stamps, k, fileSize, keep);
  }

  /** The listed files. */
  ghost function FilesOf(names: seq<string>, archive: map<string, string>): seq<LogFile>
    requires forall n :: n in names ==> n in archive
  {
    seq(|names|, i requires 0 <= i < |names| => LogFile(names[i], archive[names[i]]))
  }

  lemma FilesAfterRotation(names: seq<string>, archive: map<string, string>, name: string, text: string, d: nat)
    requires Listed(names, archive) && LogName(name) && (forall n :: n in names ==> Less(n, name)) && d <= |names| + 1
    ensures var all, archive' := names + [name], archive[name := text];
      && (forall n :: n in all[d..] ==> n in Dropped(all, d, archive'))
      && FilesOf(all[d..], Dropped(all, d, archive')) == (FilesOf(names, archive) + [LogFile(name, text)])[d..]
  {
    var all, archive' := names + [name], archive[name := text];
    NewNameListed(names, archive, name, text);
    DroppedContents(all, d, archive');
    FilesKept(names, archive, name, text, d);
  }

  lemma FilesKept(names: seq<string>, archive: map<string, string>, name: string, text: string, d: nat)
    requires (forall n :: n in names ==> n in archive && Less(n, name)) && d <= |names| + 1
    requires forall n :: n in (names + [name])[d..] ==> n in Dropped(names + [name], d, archive[name := text])
    ensures FilesOf((names + [name])[d..], Dropped(names + [name], d, archive[name := text]))
         == (FilesOf(names, archive) + [LogFile(name, text)])[d..]
  {
    var all, kept := names + [name], Dropped(names + [name], d, archive[name := text]);
    forall i | 0 <= i < |all| - d
      ensures FilesOf(all[d..], kept)[i] == (FilesOf(names, archive) + [LogFile(name, text)])[d..][i]
    {
      assert all[d..][i] == all[d + i] && all[d..][i] in all[d..];
      if d + i < |names| { assert names[d + i] in names; Irreflexive(name); }
    }
  }

  class Directory {
    var archive: map<string, string>
    var current: Option<string>
    var isOpen: bool
    var currentSize: nat
    const fileSize: nat
    const keep: int
    ghost var names: seq<string>

    ghost predicate Valid()
      reads this
    {
      Listed(names, archive) && (isOpen ==> current.Some? && currentSize == |current.value|)
    }

    /** All texts, in the order they were logged. */
    ghost function Holds(): string
      requires Valid() && current.Some?
      reads this
    {
      Contents(names, archive, current.value)
    }

    ghost function Value(): LogDir
      requires Valid() && current.Some?
      reads this
    {
      LogDir(FilesOf(names, archive), current.value)
    }

    /** An empty directory, after setup_tainlog. */
    constructor (fileSize: nat, keep: int)
      ensures Valid() && isOpen && archive == map[] && names == [] && current == Some("")
      ensures this.fileSize == fileSize && this.keep == keep
    {
      this.fileSize, this.keep := fileSize, keep;
      archive, current, isOpen, currentSize, names := map[], Some(""), true, 0, [];
    }

    /** srvctl/src/tainlog.c:253-308, where opening succeeds */
    method OpenTainlog()
      requires Valid()
      modifies this`current, this`isOpen, this`currentSize
      ensures Valid() && isOpen
      ensures current == if old(current).Some? then old(current) else Some("")
    {
      if isOpen {
        return;
      }
      currentSize := 0;
      if current.None? {
        current := Some("");
      } else {
        currentSize := |current.value|;
      }
      isOpen := true;
    }

    /** srvctl/src/tainlog.c:330-357, where renaming succeeds */
    method CloseTainlog(stamp: Tain)
      requires Valid() && current.Some?
      requires forall n :: n in names ==> Less(n, TextOfTain(stamp.Value()))
      modifies this`current, this`isOpen, this`archive, this`names
      ensures Valid() && !isOpen && current == None
      ensures archive == old(archive)[TextOfTain(stamp.Value()) := old(current).value]
      ensures names == old(names) + [TextOfTain(stamp.Value())]
    {
      isOpen := false;
      var name := new char[TAIN_FORMAT + 1];
      TainFormat(name, stamp);
      name[TAIN_FORMAT] := '\0';
      var key := name[..TAIN_FORMAT];
      assert key == TextOfTain(stamp.Value());
      NewNameListed(names, archive, key, current.value);
      archive := archive[key := current.value];
      names := names + [key];
      current := None;
    }

    /** srvctl/src/tainlog.c:379-402: the directory is read in any order */
    method CountAndOldest() returns (files: nat, oldest: string)
      requires Valid()
      ensures files == |names| && (files > 0 ==> oldest == names[0])
    {
      files, oldest := 0, "";
      var todo := archive.Keys;
      ghost var seen: set<string> := {};
      while todo != {}
        invariant seen !! todo && files == |seen|
        invariant forall n :: n in seen || (n in todo && LogName(n)) <==> n in names
        invariant files > 0 ==> oldest in seen && forall n :: n in seen ==> AtMost(oldest, n)
        decreases todo
      {
        var n :| n in todo;
        todo := todo - {n};
        if LogName(n) {
          if files == 0 || Less(n, oldest) {
            if files > 0 { LessIsAtMost(n, oldest); }
            forall m | m in seen ensures AtMost(n, m) { AtMostTransitive(n, oldest, m); }
            Irreflexive(n);
            oldest := n;
          }
          files := files + 1;
          seen := seen + {n};
        }
      }
      DistinctSize(names, seen);
      if files > 0 {
        OldestIsFirst(names, oldest);
      }
    }

    /** apr_file_remove on the oldest file. */
    method RemoveOldest(oldest: string)
      requires Valid() && names != [] && oldest == names[0]
      modifies this`archive, this`names
      ensures Valid() && names == old(names)[1..] && archive == old(archive) - {oldest}
    {
      DropListed(names, 0, archive);
      DropListed(names, 1, archive);
      assert Dropped(names, 0, archive) == archive;
      archive := archive - {oldest};
      names := names[1..];
    }

    /** srvctl/src/tainlog.c:361-414, where removing succeeds: the oldest files go, and no more than needed */
    method FlushArchive()
      requires Valid()
      modifies this`archive, this`names
      ensures Valid()
      ensures var d := Surplus(old(|names|), keep);
        names == old(names)[d..] && archive == Dropped(old(names), d, old(archive))
      ensures keep >= 0 ==> |names| == if old(|names|) <= keep then old(|names|) else keep
      ensures keep < 0 ==> archive == old(archive)
      ensures forall n :: n in old(archive) && (n == "" || n[0] != '@' || |n| != 25) ==> n in archive
    {
      ghost var d := 0;
      NoneFlushed(names, archive);
      if keep < 0 {
        return;
      }
      while true
        invariant d <= Surplus(old(|names|), keep) && Valid()
        invariant Flushed(old(names), old(archive), d, names, archive)
        decreases |names|
      {
        var files, oldest := CountAndOldest();
        if files > keep {
          OneMoreFlushed(old(names), old(archive), d, names, archive);
          RemoveOldest(oldest);
          d := d + 1;
          files := files - 1;
        }
        if !(files > keep) {
          break;
        }
      }
    }

    /** srvctl/src/tainlog.c:448-476, where opening and writing succeed; the stamp is later than every name */
    method AppendTainlog(buffer: string, stamp: Tain)
      requires Valid() && isOpen && buffer != ""
      requires forall n :: n in names ==> Less(n, TextOfTain(stamp.Value()))
      modifies this
      ensures Valid() && isOpen
      ensures |current.value| <= fileSize || current == Some(buffer)
      ensures var all := old(names) + [TextOfTain(stamp.Value())];
        if old(currentSize) + |buffer| > fileSize then
          && current == Some(buffer)
          && names == all[Surplus(|all|, keep)..]
          && archive == Dropped(all, Surplus(|all|, keep),
                                old(archive)[TextOfTain(stamp.Value()) := old(current).value])
        else
          current == Some(old(current).value + buffer) && names == old(names) && archive == old(archive)
    {
      if currentSize + |buffer| > fileSize {
        CloseTainlog(stamp);
        FlushArchive();
      }
      OpenTainlog();
      assert "" + buffer == buffer;
      current := Some(current.value + buffer);
      currentSize := currentSize + |buffer|;
    }
  }

  // The whole program

  /** The stamps of the records, from the clock readings. */
  function StampAt(clock: nat -> i64): nat -> string { (k: nat) => TextOfTain(FromApr(clock(k))) }

  ghost predicate StampedBy(stamps: nat -> string, clock: nat -> i64)
  {
    forall k: nat {:trigger clock(k)} :: stamps(k) == TextOfTain(FromApr(clock(k)))
  }

  /** The first n readings of the clock advance. */
  ghost predicate AdvancingClock(clock: nat -> i64, n: nat)
  {
    && (forall i: nat :: i < n ==> 0 <= clock(i))
    && (forall i: nat, j: nat :: i < j < n ==> clock(i) < clock(j))
  }

  /** The first n stamps are in order, and fit for a log. */
  ghost predicate Advancing(stamps: nat -> string, n: nat)
  {
    && (forall i: nat, j: nat :: i < j < n ==> Less(stamps(i), stamps(j)))
    && (forall i: nat :: i < n ==> StampLike(stamps(i)) && LogName(stamps(i)))
  }

  lemma StampShape(l: Label)
    ensures StampLike(TextOfTain(l)) && LogName(TextOfTain(l))
  {
    HexTextShape(PackedTain(l));
  }

  lemma ClockStampOrder(a: i64, b: i64)
    requires 0 <= a < b
    ensures Less(TextOfTain(FromApr(a)), TextOfTain(FromApr(b)))
  {
    FromAprStrictOrder(a, b);
    TextOrderIsLabelOrder(FromApr(a), FromApr(b));
  }

  /** The stamps of an advancing clock advance. */
  lemma ClockAdvances(clock: nat -> i64, n: nat)
    requires AdvancingClock(clock, n)
    ensures Advancing(StampAt(clock), n) && StampedBy(StampAt(clock), clock)
  {
    forall i: nat | i < n ensures StampLike(StampAt(clock)(i)) && LogName(StampAt(clock)(i)) {
      StampShape(FromApr(clock(i)));
    }
    forall i: nat, j: nat | i < j < n ensures Less(StampAt(clock)(i), StampAt(clock)(j)) {
      ClockStampOrder(clock(i), clock(j));
    }
  }

  /** A clock can advance for as many readings as there are times from 1970 on, and no longer. */
  lemma ClockCanAdvance(n: nat)
    ensures (exists clock :: AdvancingClock(clock, n)) <==> n <= TWO63
  {
    if n <= TWO63 {
      var clock := (k: nat) => if k < TWO63 then k as i64 else 0;
      assert AdvancingClock(clock, n);
    }
    if exists clock :: AdvancingClock(clock, n) {
      var clock :| AdvancingClock(clock, n);
      if n > 0 { ClockIsAhead(clock, n, n - 1); }
    }
  }

  lemma {:induction false} ClockIsAhead(clock: nat -> i64, n: nat, i: nat)
    requires AdvancingClock(clock, n) && i < n
    ensures i <= clock(i)
  {
    if i > 0 {
      ClockIsAhead(clock, n, i - 1);
      assert clock(i - 1) < clock(i);
    }
  }

  /** Appending a record keeps the end of all that was logged. */
  lemma AppendKeepsTheEnd(names: seq<string>, archive: map<string, string>, current: string, record: string,
                          name: string, dir: Directory)
    requires Listed(names, archive) && LogName(name) && forall n :: n in names ==> Less(n, name)
    requires dir.Valid() && dir.current.Some?
    requires var all := names + [name]; var d := Surplus(|all|, dir.keep);
      || (dir.names == names && dir.archive == archive && dir.current == Some(current + record))
      || (dir.names == all[d..] && dir.archive == Dropped(all, d, archive[name := current])
          && dir.current == Some(record))
    ensures EndsWith(Contents(names, archive, current) + record, dir.Holds())
    ensures dir.keep < 0 ==> Contents(names, archive, current) + record == dir.Holds()
    ensures forall n :: n in dir.names ==> n == name || n in names
  {
    Associative(Texts(names, archive), current, record);
    if dir.names == names && dir.archive == archive && dir.current == Some(current + record) {
      assert Contents(names, archive, current) + record == dir.Holds();
    } else {
      RotationKeepsTheEnd(names, archive, current, name, dir.keep, record);
    }
  }

  ghost predicate NamesBelow(names: seq<string>, stamp: string)
  {
    forall n :: n in names ==> Less(n, stamp)
  }

  lemma NamesStayBehind(names: seq<string>, names': seq<string>, name: string, next: string)
    requires NamesBelow(names, name) && (forall n :: n in names' ==> n == name || n in names)
    requires Less(name, next)
    ensures NamesBelow(names', next)
  {
    forall n | n in names' ensures Less(n, next) {
      if n in names { Transitive(n, name, next); }
    }
  }

  lemma LoggedStep(was: string, logged: string, held: string, record: string, holds: string)
    requires EndsWith(was + logged, held) && EndsWith(held + record, holds)
    ensures EndsWith(was + (logged + record), holds)
    ensures was + logged == held && held + record == holds ==> was + (logged + record) == holds
  {
    EndsWithConcat(was + logged, held, record);
    EndsWithTransitive(was + logged + record, held + record, holds);
    Associative(was, logged, record);
  }

  /** Whatever the clock shows, the input can be read back. */
  lemma RecordsCanBeRestored(text: string, room: nat, clock: nat -> i64)
    requires room > 0
    ensures Restore(Records(text, room, false, StampAt(clock), 0)) == Complete(text)
  {
    forall i: nat ensures StampLike(StampAt(clock)(i)) { StampShape(FromApr(clock(i))); }
    RestoreUndoesRecords(text, room, false, StampAt(clock), 0);
  }

  /** Stamps for count more records, from the k-th on, all later than every name. */
  ghost predicate ReadyFor(names: seq<string>, stamps: nat -> string, k: nat, count: nat)
  {
    Advancing(stamps, k + count) && (count > 0 ==> NamesBelow(names, stamps(k)))
  }

  lemma AppendIsAppended(names: seq<string>, archive: map<string, string>, current: string, record: string,
                         name: string, dir: Directory)
    requires Listed(names, archive) && LogName(name) && NamesBelow(names, name)
    requires dir.Valid() && dir.current.Some?
    requires var all := names + [name]; var d := Surplus(|all|, dir.keep);
      if |current| + |record| > dir.fileSize then
        dir.names == all[d..] && dir.archive == Dropped(all, d, archive[name := current]) && dir.current == Some(record)
      else
        dir.names == names && dir.archive == archive && dir.current == Some(current + record)
    ensures dir.Value() == Appended(LogDir(FilesOf(names, archive), current), record, name, dir.fileSize, dir.keep)
  {
    var all := names + [name];
    if |current| + |record| > dir.fileSize {
      FilesAfterRotation(names, archive, name, current, Surplus(|all|, dir.keep));
    }
  }

  /** Appending the k-th record, with what it means for the contents. */
  method AppendRecord(record: string, stamp: Tain, dir: Directory, ghost stamps: nat -> string, ghost k: nat,
                      ghost count: nat)
    requires dir.Valid() && dir.isOpen && record != "" && count > 0 && ReadyFor(dir.names, stamps, k, count)
    requires TextOfTain(stamp.Value()) == stamps(k)
    modifies dir
    ensures dir.Valid() && dir.isOpen && ReadyFor(dir.names, stamps, k + 1, count - 1)
    ensures dir.Value() == Appended(old(dir.Value()), record, stamps(k), dir.fileSize, dir.keep)
    ensures EndsWith(old(dir.Holds()) + record, dir.Holds())
    ensures dir.keep < 0 ==> old(dir.Holds()) + record == dir.Holds()
  {
    ghost var names, archive, current := dir.names, dir.archive, dir.current.value;
    dir.AppendTainlog(record, stamp);
    AppendKeepsTheEnd(names, archive, current, record, stamps(k), dir);
    AppendIsAppended(names, archive, current, record, stamps(k), dir);
    if count > 1 { NamesStayBehind(names, dir.names, stamps(k), stamps(k + 1)); }
  }

  /** srvctl/src/tainlog.c:513-514: the piece in the buffer becomes the k-th record */
  method LogPiece(buffer: array<char>, len: nat, stamp: Tain, wrapped: bool, dir: Directory,
                  ghost stamps: nat -> string, ghost k: nat, ghost count: nat)
      returns (wrapped': bool, ghost record: string)
    requires BUFFER_START < len < buffer.Length && count > 0
    requires dir.Valid() && dir.isOpen && ReadyFor(dir.names, stamps, k, count)
    requires TextOfTain(stamp.Value()) == stamps(k)
    modifies buffer, dir
    ensures dir.Valid() && dir.isOpen && ReadyFor(dir.names, stamps, k + 1, count - 1)
    ensures record == Record(stamps(k), wrapped, old(buffer[BUFFER_START..len]))
    ensures wrapped' == !EndsLine(old(buffer[BUFFER_START..len]))
    ensures dir.Value() == Appended(old(dir.Value()), record, stamps(k), dir.fileSize, dir.keep)
    ensures EndsWith(old(dir.Holds()) + record, dir.Holds())
    ensures dir.keep < 0 ==> old(dir.Holds()) + record == dir.Holds()
  {
    var len' := len;
    len', wrapped' := FormatTainlog(buffer, len, stamp, wrapped);
    record := buffer[..len'];
    AppendRecord(buffer[..len'], stamp, dir, stamps, k, count);
  }

  /** srvctl/src/tainlog.c:512-515: one record, if there is any more input; now is the k-th clock reading */
  method LogOne(input: Stdin, buffer: array<char>, stamp: Tain, wrapped: bool, dir: Directory,
                ghost stamps: nat -> string, ghost k: nat, now: i64)
      returns (wrapped': bool, ghost record: string)
    requires BUFFER_START + 1 < buffer.Length && input.pos <= |input.text| && !input.eof
    requires dir.Valid() && dir.isOpen && stamps(k) == TextOfTain(FromApr(now))
    requires ReadyFor(dir.names, stamps, k, RecordCount(input.Rest(), buffer.Length - 1 - BUFFER_START))
    modifies input, buffer, stamp, stamp.sec, dir
    ensures dir.Valid() && dir.isOpen && input.pos <= |input.text| && (input.eof ==> input.Rest() == "")
    ensures old(input.Rest()) == "" ==>
      input.eof && record == "" && dir.Value() == old(dir.Value()) && wrapped' == wrapped
    ensures old(input.Rest()) != "" ==>
      var n := PieceLength(old(input.Rest()), buffer.Length - 1 - BUFFER_START);
      && input.Rest() == old(input.Rest())[n..]
      && record == Record(stamps(k), wrapped, old(input.Rest())[..n]) && wrapped' == !EndsLine(old(input.Rest())[..n])
      && dir.Value() == Appended(old(dir.Value()), record, stamps(k), dir.fileSize, dir.keep)
      && ReadyFor(dir.names, stamps, k + 1, RecordCount(input.Rest(), buffer.Length - 1 - BUFFER_START))
    ensures EndsWith(old(dir.Holds()) + record, dir.Holds())
    ensures dir.keep < 0 ==> old(dir.Holds()) + record == dir.Holds()
  {
    ghost var rest, room := input.Rest(), buffer.Length - 1 - BUFFER_START;
    record := "";
    wrapped' := wrapped;
    var len := Readline(input, buffer, BUFFER_START, buffer.Length - 1, stamp, now);
    if len > BUFFER_START {
      assert input.Rest() == rest[PieceLength(rest, room)..];
      wrapped', record := LogPiece(buffer, len, stamp, wrapped, dir, stamps, k, RecordCount(rest, room));
    } else {
      assert dir.Holds() + "" == dir.Holds();
    }
  }

  /** What the loop keeps: the records so far and those still to come make up all of them, and the
      directory holds the end of what it held before and of the records so far. */
  ghost predicate Logging(was: string, logged: string, ahead: string, all: string, holds: string, keepAll: bool)
  {
    logged + ahead == all && EndsWith(was + logged, holds) && (keepAll ==> was + logged == holds)
  }

  lemma LoggingStep(was: string, logged: string, record: string, ahead: string, all: string,
                    held: string, holds: string, keepAll: bool)
    requires Logging(was, logged, record + ahead, all, held, keepAll)
    requires EndsWith(held + record, holds) && (keepAll ==> held + record == holds)
    ensures Logging(was, logged + record, ahead, all, holds, keepAll)
  {
    LoggedStep(was, logged, held, record, holds);
    Associative(logged, record, ahead);
  }

  lemma LoggingStartsAndEnds(was: string, all: string, keepAll: bool)
    ensures Logging(was, "", all, all, was, keepAll)
    ensures forall logged, holds :: Logging(was, logged, "", all, holds, keepAll) ==> logged == all
  {
    assert was + "" == was && "" + all == all;
    forall logged, holds | Logging(was, logged, "", all, holds, keepAll) ensures logged == all {
      assert logged + "" == logged;
    }
  }

  /** srvctl/src/tainlog.c:511-516, from any state on: what is logged is the records of the input, each
      appended in turn, and the directory holds the end of it; all of it when no files are to be removed. */
  method LogInput(input: Stdin, buffer: array<char>, stamp: Tain, dir: Directory,
                  clock: nat -> i64, ghost stamps: nat -> string)
      returns (ghost logged: string)
    requires buffer.Length > BUFFER_START + 2 && input.pos <= |input.text| && !input.eof
    requires dir.Valid() && dir.isOpen && StampedBy(stamps, clock)
    requires ReadyFor(dir.names, stamps, 0, RecordCount(input.Rest(), buffer.Length - 1 - BUFFER_START))
    modifies input, buffer, stamp, stamp.sec, dir
    ensures dir.Valid() && dir.isOpen
    ensures logged == Records(old(input.Rest()), buffer.Length - 1 - BUFFER_START, false, stamps, 0)
    ensures dir.Value() == LoggedTo(old(dir.Value()), old(input.Rest()), buffer.Length - 1 - BUFFER_START, false,
                                    stamps, 0, dir.fileSize, dir.keep)
    ensures EndsWith(old(dir.Holds()) + logged, dir.Holds())
    ensures dir.keep < 0 ==> old(dir.Holds()) + logged == dir.Holds()
  {
    var wrapped, k := false, 0;
    ghost var room, was := buffer.Length - 1 - BUFFER_START, dir.Holds();
    ghost var all := Records(input.Rest(), room, false, stamps, 0);
    ghost var end := LoggedTo(dir.Value(), input.Rest(), room, false, stamps, 0, dir.fileSize, dir.keep);
    logged := "";
    LoggingStartsAndEnds(was, all, dir.keep < 0);
    while !input.eof
      invariant k >= 0 && dir.Valid() && dir.isOpen && input.pos <= |input.text| && (input.eof ==> input.Rest() == "")
      invariant input.eof || ReadyFor(dir.names, stamps, k, RecordCount(input.Rest(), room))
      invariant Logging(was, logged, Records(input.Rest(), room, wrapped, stamps, k), all, dir.Holds(), dir.keep < 0)
      invariant LoggedTo(dir.Value(), input.Rest(), room, wrapped, stamps, k, dir.fileSize, dir.keep) == end
      decreases |input.text| - input.pos, !input.eof
    {
      ghost var held, record := dir.Holds(), "";
      ghost var before := Records(input.Rest(), room, wrapped, stamps, k);
      wrapped, record := LogOne(input, buffer, stamp, wrapped, dir, stamps, k, clock(k));
      k := k + 1;
      assert before == record + Records(input.Rest(), room, wrapped, stamps, k);
      LoggingStep(was, logged, record, Records(input.Rest(), room, wrapped, stamps, k), all, held, dir.Holds(),
                  dir.keep < 0);
      logged := logged + record;
    }
  }
}
