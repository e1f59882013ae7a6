# Labels and logs of ngim

A Dafny model of the path that a log line takes through ngim: the clock value is turned into a TAI64N label,
the label is printed in front of the line, the line is kept in a rotated log directory, `taiconv` turns the label
into an ISO 8601 time, and the incremental log reader prints the line once. Each part of the path is modelled
after its source and proved; `Pipeline` proves the whole path, from the text on the standard input of `tainlog` to all
that the reader prints.

| module | models | proves |
|---|---|---|
| `Machine`, `TextOrder`, `TextLines`, `Bytes`, `Fields` | C integers, byte-wise text order, lines, base-256 digits, awk fields | the facts the others rest on |
| `Hex`, `TaiLabels` | `libbase/lib/tai.c`: printing, parsing, packing, order | parser and printer undo each other; text order is time order |
| `AprTime`, `LabelDiff` | `libbase/lib/tai.c`: APR times, rounded difference | exact rounding, exact drift, exact acceptance; error bounds, also along chains |
| `Iso8601`, `IsoReading` | `libbase/lib/iso8601.c` | when the order of rendered times is the order of time; reading a rendered time gives it back |
| `Taiconv`, `Conversions`, `Fixtures` | `srvctl/src/taiconv.c`: two readers in two modes | readers of a stream and of a mapped file compute the same text; what that is for labels and for what only looks like one; a line of the fixtures |
| `Tainlog`, `LogDirectory` | `srvctl/src/tainlog.c` | the log gives its input back; the directory holds the end of the log |
| `LogLines`, `LogWatch` | `srvctl/doc/example-tainlog-logwatch`: one execution | the loops compute a plain filter |
| `LogHistory`, `LogTheorems`, `LogForgetting` | all histories of a log directory and the script | exactly once, no loss, repeats, sound skipping, invisible forgetting |
| `LogDelivery` | the same, for any stamps | the exact condition on the stamps for delivery exactly once |
| `Stamps`, `LogFiles` | raw lines and files through `grep`, `taiconv`, the shell and `awk`, in any zone | what the script sees of a file |
| `EndToEnd` | clock values to output | which lines are delivered exactly once, and the two ways to fail |
| `Pipeline` | standard input to output | after each run, all that was printed is the whole log through `grep` and `taiconv` |

Label structures, buffers, the log directory and the script are classes and arrays changed in place, as in the
source; each method is tied to a function of its inputs, and the lemmas are about that function. Integer widths
are written out: unsigned arithmetic wraps, signed arithmetic that C leaves undefined is a precondition
(`AprTime.MakeDefined`), and division truncates toward zero. A plain `char` is signed.

## What the proofs show

- A clock value makes a label that can be parsed again exactly if it is not negative or is a whole second. A trip
  through a printed label then adds exactly one microsecond, because the label adds half a microsecond and the way
  back rounds half up. n trips add n; a whole second before 1970 survives one trip only (`AprTime.TripsDrift`).
  Labels are merged on the way back exactly if they round to one microsecond (`AprTime.ToAprMergesExactly`).
- `ngim_tain_diff` counts a further second from half a millisecond on, so its result lies up to a second above the
  true gap and less than half a millisecond below it. It is the nearest second only outside a band of nanosecond
  fields, which `LabelDiff.NearestSecond` states exactly. It is determined by the gap exactly if the gap is a number
  of whole seconds, or half a millisecond or more over one, or too long to be placed across the end of a second
  (`LabelDiff.DeterminedByGap`).
- The lines of a log reach the reader exactly once, in every placement of runs, rotations and removals of read files,
  if and only if they are in order: of two lines the later has the greater stamp, except that it may share the stamp if
  it is an information line, and that two information lines may have any stamps (`LogDelivery.AlwaysExactIffInOrder`).
- The renderer leaves out microseconds that are zero. In UTC, `Z` then stands where a later time has `.`, and `Z`
  is the greater character, so a whole second is ordered after its own fractions. In other zones `+` and `-` are
  smaller than `.`, and the order is right (`Iso8601.RenderOrder`). So with an advancing clock and one offset the
  condition fails only in UTC, and exactly if a line that shows a whole second is followed by one logged in that
  second, not both being information lines (`EndToEnd.EveryLineOnceIffNoConflict`). It fails in two ways: a run
  between the two loses the second line for good (`EndToEnd.ConflictLosesLine`), unless that is an information line;
  no run between them and two runs after them print the first line twice (`EndToEnd.ConflictRepeatsLine`), unless that
  is an information line.
- Where the offset changes, stamps follow the wall clock: if no two lines show the same second, delivery is exactly
  once if and only if the wall clock never goes back from one line to a later one, not both being information lines
  (`EndToEnd.EveryLineOnceIffWallClockAscends`).
- The rendered offset shows the offset exactly if the zone is not a minute or more west of Greenwich
  (`Iso8601.ZoneShowsOffset`), contrary to the format that `libbase/lib/base.h:678-685` describes: C's quotient and
  remainder of a negative number are negative, so that hours west come out in characters below `0`, and minutes not
  at all.
- A line whose stamp is not above the cursor when it is written is never printed, whatever else happens
  (`LogTheorems.BackwardIsLost`). With stamps that advance strictly there is none; with equal stamps there may be
  (`LogTheorems.TieIsLost`).
- When `current` is empty the script prints what is new but does not move the cursor. Nothing is lost by that. A line
  is then printed again exactly as long as the cursor has not reached it (`LogTheorems.RepeatsIffEmptyCurrent`).
- The limit on archived files may push out a file before it is read. Then its unread lines are never printed
  (`LogDelivery.LostWithFile`). With lines in order, the output of a run is complete if and only if every removed file
  had been read: the script ran between the logging of its last non-information line and the removal
  (`LogDelivery.CompleteIffRunsInTime`, and for the whole path `Pipeline.WholePath`).
- An advancing clock can stamp 2^63 records, and no more (`LogDirectory.ClockCanAdvance`).

## Assumptions about the environment

- `LogHistory.Allowed`: stamps never go back; a rotated file is named no earlier than its lines and later than the
  file before it; a file is deleted only when all its lines are at or before the cursor. `LogDelivery` and `Pipeline`
  ask only that names of files ascend, as those of labels of an advancing clock do; any file may go at any time.
- One execution of the script is one step: nothing is written or rotated while it runs.
- `sort`, `grep`, `awk` and `[[ < ]]` work on bytes. `apr_time_exp_gmt` and `apr_time_exp_lt` follow the Gregorian
  calendar from 1970 on, without leap seconds.
- The clock is an input, one value for each line.

## Model

| member | source | states |
|---|---|---|
| `Bytes.ValueOfBytes` | libbase/lib/tai.c:95-102 | a number that fits n bytes is the base-256 value of its n bytes |
| `Bytes.BytesOfValue` | libbase/lib/tai.c:111-118 | n bytes are the bytes of their base-256 value |
| `Hex.HexDigitTable` | libbase/lib/tai.c:26 | the arithmetic hex digit is the entry of the table, for all sixteen |
| `Hex.FormatTextual` | libbase/lib/tai.c:24-33 | the backward loop writes '@' and two hex digits a byte in exactly 1+2n cells and leaves all others alone |
| `Hex.UnformatTextual` | libbase/lib/tai.c:35-54 | without '@' fails and writes nothing; otherwise writes exactly n bytes, each from the low halves of what its two characters are read as |
| `Hex.UnhexOfHexText` | libbase/lib/tai.c:24-54 | the reader gives back the printed bytes, whatever follows the text |
| `Hex.HexTextOfUnhex` | libbase/lib/tai.c:24-54 | printing what was read from any '@' text gives its digit-by-digit normal form |
| `Hex.SameBytesIffSameNormal` | libbase/lib/tai.c:38-54 | two texts are read as the same bytes iff their normal forms agree |
| `Hex.NormalIsFixed` | libbase/lib/tai.c:35-54 | normalising is idempotent, and changes nothing iff every character is in 0-9a-f |
| `Hex.DigitRead` | libbase/lib/tai.c:35-54 | the digit that each byte is read as: its distance from 0, or from a and ten, modulo 16 |
| `Hex.HexOrder` | libbase/lib/tai.c:24-33 | equally long hex texts compare, and are equal, exactly as the numbers they show |
| `TaiLabels.TaiPack` | libbase/lib/tai.c:88-103 | the shift chain writes the eight big-endian bytes of the seconds at its place and nothing else |
| `TaiLabels.ShiftIn64` | libbase/lib/tai.c:111-118 | shifting in a byte of at most eight never wraps |
| `TaiLabels.TaiUnpack` | libbase/lib/tai.c:105-122 | reads the big-endian value of eight bytes, and accepts iff it is at most 2^63-1 |
| `TaiLabels.TaiFormat` | libbase/lib/tai.c:124-132 | writes the 17-character text of the label and nothing else |
| `TaiLabels.TaiUnformat` | libbase/lib/tai.c:134-141 | success and result are those of parsing the text; without '@' the label is left alone |
| `TaiLabels.TainPack` | libbase/lib/tai.c:212-226 | writes seconds and nanoseconds in twelve big-endian bytes and nothing else |
| `TaiLabels.TainUnpack` | libbase/lib/tai.c:228-246 | accepts iff both limits hold; leaves the nanoseconds alone when the seconds are not acceptable |
| `TaiLabels.TainFormat` | libbase/lib/tai.c:248-256 | writes the 25-character text of the label and nothing else |
| `TaiLabels.TainUnformat` | libbase/lib/tai.c:258-265 | success and label are those of parsing the text; the exact content of the label after every failure |
| `TaiLabels.TainLess` | libbase/lib/tai.c:181-192 | decides the lexicographic order of seconds and nanoseconds |
| `TaiLabels.LessIsTimeOrder` | libbase/lib/tai.c:181-192 | on valid labels that order, and equality, are those of the count of nanoseconds |
| `TaiLabels.ParserUndoesPrinter` | libbase/lib/tai.c:248-265 | for every 64-bit second and 32-bit nanosecond the printed label parses iff both limits hold, and then to itself |
| `TaiLabels.ParserUndoesPrinterTai` | libbase/lib/tai.c:124-141 | the same for labels of seconds |
| `TaiLabels.PrinterUndoesParser` | libbase/lib/tai.c:248-265 | printing a parsed text gives the text in normal form |
| `TaiLabels.TextOrderIsLabelOrder` | libbase/lib/tai.c:212-256 | printed labels compare as texts, and are equal, exactly as the labels, valid or not |
| `TaiLabels.TextOrderIsTimeOrder` | libbase/lib/tai.c:181-256 | on valid labels text order is time order |
| `AprTime.TainFromApr` | libbase/lib/tai.c:143-150 | for an acceptable clock value the label is valid and stands at 2^62 + 10 seconds, 1000 times the value and 500 nanoseconds; for any other the nanoseconds are too great and the seconds those after the value |
| `AprTime.TainToApr` | libbase/lib/tai.c:152-168 | where C defines it, the distance from the epoch in microseconds, half rounding up, for every label with valid nanoseconds |
| `AprTime.TaiFromApr` | libbase/lib/tai.c:70-74 | the label is 2^62 + 10 and the whole second of the clock value, truncated toward zero |
| `AprTime.TaiToApr` | libbase/lib/tai.c:64-68 | the true distance of the label from 2^62 + 10 in microseconds, also before it, where the unsigned difference wraps |
| `AprTime.ClockOnScale` | libbase/lib/tai.c:57-61 | the label of a clock value from 1970 on, in nanoseconds on the scale that begins 2^62 + 10 seconds before 1970 |
| `AprTime.LabelAsClock` | libbase/lib/tai.c:152-168 | the microseconds of every valid label that has them, from the same point |
| `Fixtures.EpochLabel` | libbase/lib/tai.c:143-150 | the clock value 0 is printed as @400000000000000a000001f4 |
| `AprTime.AcceptedClockValues` | libbase/lib/tai.c:143-150 | the printed label of a clock value parses iff the value is not negative or a whole second; its seconds are always acceptable |
| `AprTime.ToAprIsRounding` | libbase/lib/tai.c:152-168 | the result is the exact rounding, before the epoch and through the carry, iff the nanoseconds are at most 1000000499 |
| `AprTime.ToAprDefinedRange` | libbase/lib/tai.c:152-168 | for valid labels, the exact range of results in which the signed arithmetic does not overflow |
| `AprTime.TripAddsOne` | libbase/lib/tai.c:143-168 | from clock value through printed and parsed label and back: exactly one microsecond more, or no result, for every clock value |
| `AprTime.TripsDrift` | libbase/lib/tai.c:143-168 | what n trips give for every clock value: n more, or no result where there is no such clock value; before 1970 only one trip, and only for a whole second |
| `AprTime.FromAprOrder` | libbase/lib/tai.c:143-150 | labels keep the order of clock values except exactly where an unacceptable value shares its truncated second with an acceptable one |
| `AprTime.FromAprStrictOrder` | libbase/lib/tai.c:143-192 | on acceptable clock values labels keep order and distinctness |
| `AprTime.ToAprMonotone` | libbase/lib/tai.c:152-192 | going back to microseconds never reverses two valid labels |
| `AprTime.ToAprInjectiveOnClockLabels` | libbase/lib/tai.c:143-168 | labels made from different clock values stay different |
| `AprTime.ToAprMergesExactly` | libbase/lib/tai.c:152-168 | two valid labels give one result exactly if their nanoseconds, half a microsecond added, are in one microsecond |
| `AprTime.ToAprMergesLabels` | libbase/lib/tai.c:152-168 | there are such labels, at the epoch |
| `AprTime.SecondsPath` | libbase/lib/tai.c:57-74 | the second-precision path is defined for every clock value, truncates toward zero, and changes nothing the second time |
| `LabelDiff.TainDiff` | libbase/lib/tai.c:194-210 | reports the order; stores the difference iff the first label is less, and leaves the result alone otherwise |
| `LabelDiff.DiffBounded` | libbase/lib/tai.c:199-207 | the error of the difference lies strictly between -500000 ns and one second |
| `LabelDiff.DiffBoundsAttained` | libbase/lib/tai.c:199-207 | both bounds are attained to within a nanosecond, in every second |
| `LabelDiff.NearestSecond` | libbase/lib/tai.c:202-204 | the difference is the nearest second iff the nanosecond fields are outside the stated bands |
| `LabelDiff.EqualGaps` | libbase/lib/tai.c:199-207 | equal gaps give differences at most one apart |
| `LabelDiff.EqualGapsDiffer` | libbase/lib/tai.c:199-207 | for each gap less than half a millisecond over whole seconds, two placements, one across the end of a second, whose differences are one apart |
| `LabelDiff.DeterminedByGap` | libbase/lib/tai.c:199-207 | all placements of a gap have one difference exactly if the gap is whole seconds, or at least half a millisecond over, or too long to be placed across the end of a second |
| `LabelDiff.DiffOfGap` | libbase/lib/tai.c:199-207 | the difference is the whole seconds of the gap, and one more if at least half a millisecond is over or the end of a second is crossed |
| `LabelDiff.DiffSplit` | libbase/lib/tai.c:199-207 | splitting an interval changes the sum by at most one |
| `LabelDiff.DiffChain` | libbase/lib/tai.c:199-207 | along an ascending chain of n steps the sum stays within n-1 of the direct difference |
| `Iso8601.FormatIso8601` | srvctl/tests/taiconv.testall.results:1-2 | writes the text and a NUL, within 33 cells for every input, and nothing else |
| `Iso8601.RenderOrder` | srvctl/tests/taiconv.testall.results:1-2 | in one zone an earlier time has the smaller text, whatever follows, except exactly when the zone is UTC and the earlier time is the whole second of the later; texts are never equal |
| `Iso8601.WallClockOrder` | srvctl/tests/taiconv.testall.results:1-2 | texts that show different seconds order by local time, whatever the zones |
| `Iso8601.ZoneShowsOffset` | srvctl/tests/taiconv.testall.results:1-2 | of the zone that is Z there: in any other zone the offset is shown as it should be exactly if it is not a minute or more west |
| `IsoReading.ReadUndoesRender` | srvctl/tests/taiconv.testall.results:1-2 | a reader of dates, separators, digits and zones as they stand there, with a calendar of its own, gives back local time and offset from every rendered time, in whole minutes, except an hour or more west |
| `IsoReading.YearIsDecimal` | srvctl/tests/taiconv.testall.results:1-2 | a year up to 99999 is shown in its decimal digits |
| `IsoReading.DayOfDate` | srvctl/tests/taiconv.testall.results:1-2 | the date of a day has the number of that day, by a closed formula |
| `Taiconv.ConvertBuffer` | srvctl/tests/taiconv.testall:1-5 | a label of 25 characters is converted as such, one of 17 to 24 as one of 17 with the rest left over (as the 23 characters in line 1), anything shorter or unacceptable not at all |
| `Taiconv.TakeOneAll` | srvctl/tests/taiconv.testall:1-5 | all-labels mode: what one character does to output and buffer; an @ begins a new label anywhere |
| `Taiconv.FeedAllConverts` | srvctl/tests/taiconv.testall:1-5 | all-labels mode: fed any text from any state, the reader writes the conversion of all candidates |
| `Taiconv.ReadAll` | srvctl/tests/taiconv.testall:1-5 | all-labels mode: every candidate in a stream is converted, wherever it stands and even right after another; the buffer never overflows |
| `Taiconv.TakeOneLines` | srvctl/tests/taiconv.testnrm:1-7 | line mode: what one character does to output, buffer and start-of-line flag |
| `Taiconv.FeedLinesConverts` | srvctl/tests/taiconv.testnrm:1-7 | line mode: fed any text from any state, the reader writes the conversion of the lines |
| `Taiconv.ReadLines` | srvctl/tests/taiconv.testnrm:1-7 | line mode: only the candidate at the beginning of a line is converted, as in line 1; labels further on stay, as in lines 2 and 5 |
| `Taiconv.MapAll` | srvctl/tests/taiconv.testall:1-5 | all-labels mode: a mapped file gives the same text as a stream; nothing empty is flushed |
| `Taiconv.ScanCandidate` | srvctl/tests/taiconv.testnrm:1-7 | line mode on a mapped file: the scan may run one digit too far, and still shows what the stream reader shows |
| `Taiconv.SkipLine` | srvctl/tests/taiconv.testnrm:1-7 | line mode on a mapped file: the rest of the line is left alone |
| `Taiconv.MapLines` | srvctl/tests/taiconv.testnrm:1-7 | line mode: a mapped file gives the same text as a stream |
| `Taiconv.EachLineAlone` | srvctl/tests/taiconv.testnrm:1-7 | line mode: a text of several lines is converted line by line |
| `Conversions.TainIsShown` | srvctl/tests/taiconv.testall:1-5 | a printed valid label of 25 characters is shown as its time, and all that follows is kept |
| `Conversions.TaiIsShown` | srvctl/tests/taiconv.testall:1-5 | a printed valid label of 17 characters is shown as its time, and up to seven characters behind it are kept |
| `Conversions.ShortIsLeft` | srvctl/tests/taiconv.testall:1-5 | fewer than 17 characters are left alone |
| `Conversions.UnacceptableIsLeft` | srvctl/tests/taiconv.testall:1-5 | and so is a label that is not acceptable |
| `Conversions.AllAtTain` | srvctl/tests/taiconv.testall:1-5 | the first of these in a text, whatever follows |
| `Conversions.AllAtTai` | srvctl/tests/taiconv.testall:1-5 | the second in a text |
| `Conversions.AllAtShort` | srvctl/tests/taiconv.testall:1-5 | the third in a text |
| `Conversions.AllAtBadTain` | srvctl/tests/taiconv.testall:1-5 | the fourth in a text, with 25 characters |
| `Conversions.AllAtBadTai` | srvctl/tests/taiconv.testall:1-5 | the fourth in a text, with 17 |
| `Conversions.AllAtText` | srvctl/tests/taiconv.testall:1-5 | text without @ is left alone |
| `Conversions.LinesAtTain` | srvctl/tests/taiconv.testnrm:1-7 | in line mode: a label at the beginning of a line is shown as its time and the rest of the line is left alone |
| `Conversions.LinesAtTai` | srvctl/tests/taiconv.testnrm:1-7 | the same for a label of 17 characters |
| `Conversions.LinesAtShort` | srvctl/tests/taiconv.testnrm:1-7 | a line that begins with too short a label is left alone, as lines 3 and 7 |
| `Conversions.LinesAtText` | srvctl/tests/taiconv.testnrm:1-7 | a line that does not begin with @ is left alone, as lines 2, 4 and 5 |
| `Conversions.LinesAtBadTain` | srvctl/tests/taiconv.testnrm:1-7 | a line that begins with an unacceptable label of 25 characters is left alone |
| `Conversions.LinesAtBadTai` | srvctl/tests/taiconv.testnrm:1-7 | the same for one of 17 |
| `Fixtures.TainShown` | srvctl/tests/taiconv.testall.results:1 | the label with nanoseconds of the fixture is rendered in UTC as there |
| `Fixtures.TaiShown` | srvctl/tests/taiconv.testall.results:1 | and so is its label of seconds |
| `Fixtures.FixtureLine` | srvctl/tests/taiconv.testall:1 | line 1 of the file is converted to line 1 of its results |
| `Fixtures.FixtureLineAlone` | srvctl/tests/taiconv.testnrm:1 | in line mode only its first label is |
| `Tainlog.Readline` | srvctl/tests/tainlog.sh:15-16 | lines longer than the buffer are cut: the buffer gets the next line, or as much as fits, stamped at its first character; the end flag is set only at the end |
| `Tainlog.FormatTainlog` | srvctl/tests/tainlog.sh:15-16 | a record is stamp, separator, piece and newline; the separator is a tab exactly if the line before was cut |
| `Tainlog.PieceIsMaximal` | srvctl/tests/tainlog.sh:15-16 | a piece ends with its line, or with the input, or fills the room, and no sooner |
| `Tainlog.RecordsShowSeparator` | srvctl/tests/tainlog.sh:15-16 | behind the 25 characters of the stamp stands a tab exactly if the line before was cut, and otherwise a blank |
| `Tainlog.RestoreUndoesRecords` | srvctl/tests/tainlog.sh:12-16 | the log without its first column, cut lines joined at their tabs, is the input with a newline at its end |
| `LogDirectory.Directory.OpenTainlog` | srvctl/tests/tainlog.sh:17-19 | opening keeps an existing file and its size, or makes an empty one |
| `LogDirectory.Directory.CloseTainlog` | srvctl/tests/tainlog.sh:17-19 | closing archives the file under the label of the next line |
| `LogDirectory.Directory.CountAndOldest` | srvctl/tests/tainlog.sh:17-19 | in whatever order the directory is read, the number of archived files and the oldest by name |
| `LogDirectory.Directory.FlushArchive` | srvctl/tests/tainlog.sh:17-19 | the correct number of files is kept and the oldest go first: no more files than are kept remain, and exactly as many when there were more; files with other names stay |
| `LogDirectory.Directory.AppendTainlog` | srvctl/tests/tainlog.sh:17-19 | files are not too big: one exceeds its limit only when it is one record; the exact directory afterwards |
| `LogDirectory.FilesAfterLogging` | srvctl/tests/tainlog.sh:17-19 | the number of archived files after any input: one more for each record that does not fit, up to the number that is kept |
| `LogDirectory.FilesStayBounded` | srvctl/tests/tainlog.sh:17-19 | never more files than are kept, and exactly as many once one has gone |
| `LogDirectory.RotationKeepsTheEnd` | srvctl/tests/tainlog.sh:17-19 | archiving and removing the oldest keep the end of all that was logged; everything when no number is set |
| `LogDirectory.ClockAdvances` | srvctl/tests/tainlog.sh:20 | as many readings of a clock as advance give as many ascending stamps, which are names of files |
| `LogDirectory.ClockCanAdvance` | srvctl/tests/tainlog.sh:20 | ascending timestamps are possible for a number of records exactly if it is at most 2^63 |
| `LogDirectory.LogOne` | srvctl/tests/tainlog.sh:12-19 | one record of the input is logged, the directory is the one that appending it gives, and the rest of the input remains |
| `LogDirectory.LogInput` | srvctl/tests/tainlog.sh:12-19 | with stamps for as many records as the input takes, the whole input is logged as its records, each appended in turn; the directory holds the end of it, and all of it when no number of files is set |
| `LogDirectory.RecordsCanBeRestored` | srvctl/tests/tainlog.sh:12-16 | whatever the clock shows, the input can be read back from its records |
| `LogWatch.Script.Execute` | srvctl/doc/example-tainlog-logwatch:16-61 | output and new cursor of one execution, file by file with the skip, tied to the functions the lemmas are about |
| `LogWatch.Grep` | srvctl/doc/example-tainlog-logwatch:39 | keeps the non-information lines in order |
| `LogWatch.PrintNewer` | srvctl/doc/example-tainlog-logwatch:46-53 | prints the lines above the cursor in order |
| `LogWatch.SortSorts` | srvctl/doc/example-tainlog-logwatch:24 | the file list is the directory in ascending order |
| `LogWatch.SortKeepsSorted` | srvctl/doc/example-tainlog-logwatch:24 | a directory in order is listed as it is |
| `LogHistory.SkippedIsSettled` | srvctl/doc/example-tainlog-logwatch:30-32 | a skipped file has no line above the cursor |
| `LogHistory.PrintedIsNews` | srvctl/doc/example-tainlog-logwatch:24-54 | one execution prints the new non-information lines of the whole directory, in order of time |
| `LogHistory.ExecuteCursor` | srvctl/doc/example-tainlog-logwatch:35-61 | the cursor moves to the last line written unless `current` is empty, and never back |
| `LogHistory.Kept` | srvctl/doc/example-tainlog-logwatch:19-61 | every event keeps the invariant, and exact delivery |
| `LogHistory.Reachable` | srvctl/doc/example-tainlog-logwatch:19-61 | so does every history |
| `LogTheorems.ExactlyOnce` | srvctl/doc/example-tainlog-logwatch:19-61 | over every history the output is exactly the non-information lines that were above the cursor when written, up to the cursor, in order |
| `LogTheorems.ExactlyOnceStrict` | srvctl/doc/example-tainlog-logwatch:19-61 | with advancing stamps these are all lines ever written, and none is repeated |
| `LogTheorems.CompleteAfterExecution` | srvctl/doc/example-tainlog-logwatch:26-61 | right after an execution nothing due is left over |
| `LogTheorems.CompleteAfterExecutionStrict` | srvctl/doc/example-tainlog-logwatch:26-61 | right after an execution the output is all non-information lines ever written |
| `LogTheorems.NothingOldIsPrinted` | srvctl/doc/example-tainlog-logwatch:45-61 | whatever the directory holds and whatever happens to it, the cursor never goes back and nothing at or before it is printed again |
| `LogTheorems.TieIsLost` | srvctl/doc/example-tainlog-logwatch:48-50 | a line with the stamp the last execution stopped at may be written, but is never printed, whatever happens later |
| `LogTheorems.BackwardIsLost` | srvctl/doc/example-tainlog-logwatch:48-59 | in any directory, a line written with a stamp that the cursor has passed is never printed, whatever happens later, and the cursor does not go back |
| `LogTheorems.NoLoss` | srvctl/doc/example-tainlog-logwatch:34-59 | after any execution, `current` empty or not, every due non-information line has been printed |
| `LogTheorems.RepeatsIffEmptyCurrent` | srvctl/doc/example-tainlog-logwatch:34-59 | after any history, a non-information line is printed again exactly if an earlier execution found `current` empty and the line newer than the cursor, and the line is still newer |
| `LogTheorems.SkipIsSound` | srvctl/doc/example-tainlog-logwatch:24-54 | after any history, skipping files changes neither output nor cursor |
| `LogForgetting.ThinnedForever` | srvctl/doc/example-tainlog-logwatch:26-61 | a directory that lacks nothing above the cursor is never told apart from the full one |
| `LogForgetting.ForgettingIsInvisible` | srvctl/doc/example-tainlog-logwatch:27-32 | in any history, deleting a file that would be skipped changes neither output nor cursor of any later history |
| `LogDelivery.PrintedOfFiled` | srvctl/doc/example-tainlog-logwatch:24-54 | whatever order the names give files without news, what is printed of the listed files is their news in the order of logging |
| `LogDelivery.RunCompletes` | srvctl/doc/example-tainlog-logwatch:19-61 | as long as everything written has been printed or is in the directory, a run makes the output exactly the non-information lines logged so far |
| `LogDelivery.OrderIsEnough` | srvctl/doc/example-tainlog-logwatch:19-61 | lines in order are delivered exactly once in every placement of runs, rotations and removals of read files |
| `LogDelivery.AlwaysExactIffInOrder` | srvctl/doc/example-tainlog-logwatch:19-61 | and only such lines are: the exact condition, with information lines |
| `LogDelivery.LostForGood` | srvctl/doc/example-tainlog-logwatch:48-59 | from any state, a line logged at or before the cursor is never printed |
| `LogDelivery.PrintedTwice` | srvctl/doc/example-tainlog-logwatch:35-59 | from any state, a new line in `current` that is later than the last line there is printed by this run and by the next |
| `LogDelivery.GoodOrBehind` | srvctl/doc/example-tainlog-logwatch:19-61 | whatever files are removed: either no unread file was, and everything written has been printed or will be by the next run, or something is lost for good |
| `LogDelivery.CompleteIffProper` | srvctl/doc/example-tainlog-logwatch:19-61 | a run completes the output if and only if only finished files were removed |
| `LogDelivery.CompleteIffRunsInTime` | srvctl/doc/example-tainlog-logwatch:19-61 | in terms of the schedule: if and only if all news of each removed file had been logged when the script ran last |
| `LogDelivery.LostWithFile` | srvctl/doc/example-tainlog-logwatch:26-61 | a line in a removed file that was logged after the last run is never printed |
| `Stamps.LabelRoundTrip` | libbase/lib/tai.c:143-168 | the label of a clock value parses to itself and shows one microsecond more |
| `Stamps.StampsInOrder` | srvctl/doc/example-tainlog-logwatch:48 | while the offset is the same, later clock values have later stamps exactly if they are not in conflict |
| `Stamps.StampsFollowWallClock` | srvctl/doc/example-tainlog-logwatch:48 | where the offset changes, stamps that show different seconds compare as the wall clock did |
| `Stamps.StampIsRead` | srvctl/doc/example-tainlog-logwatch:47 | reading a stamp gives back the clock value, a microsecond later, plus the offset |
| `Stamps.TaiIsRead` | srvctl/tests/taiconv.testall.results:1 | reading the rendered form of a label of seconds gives back its time plus the offset |
| `Stamps.RawLineShown` | srvctl/tests/taiconv.testnrm:1-7 | `taiconv` replaces the label of a line by its stamp and leaves the rest alone |
| `Stamps.SeenStamp` | srvctl/doc/example-tainlog-logwatch:35-47 | the fields that awk picks before and after `taiconv` are both the rendered stamp |
| `Stamps.NameShown` | srvctl/doc/example-tainlog-logwatch:24 | a file name is listed under the rendered stamp |
| `LogFiles.PipelineSeesLines` | srvctl/doc/example-tainlog-logwatch:39-47 | grep and taiconv on a whole file whose lines are shown as single lines, split at newlines, give the texts of its non-information lines as seen one by one |
| `LogFiles.ContainsSomewhere` | srvctl/doc/example-tainlog-logwatch:39 | grep finds the words exactly if they stand at some place of the line |
| `LogFiles.SplitEchoed` | srvctl/doc/example-tainlog-logwatch:46-53 | splitting at newlines undoes echoing |
| `EndToEnd.EveryLineOnceIff` | srvctl/doc/example-tainlog-logwatch:19-61 | for any clock values in any zone: the lines are delivered exactly once in every placement of runs, rotations and removals, if and only if their stamps ascend, up to information lines |
| `EndToEnd.InfoIsMarked` | srvctl/doc/example-tainlog-logwatch:39 | information lines are exactly those with the words somewhere |
| `EndToEnd.MarkedIsInfo` | srvctl/doc/example-tainlog-logwatch:39 | in particular those with the words anywhere in the body |
| `EndToEnd.EveryLineOnceIffNoConflict` | srvctl/doc/example-tainlog-logwatch:19-61 | with an advancing clock and one offset: if and only if no two lines are in conflict, unless both are information lines |
| `EndToEnd.EveryLineOnceIffWallClockAscends` | srvctl/doc/example-tainlog-logwatch:19-61 | with a changing offset and no two lines in one second: if and only if the wall clock does not go back, unless between information lines |
| `EndToEnd.ConflictHappens` | srvctl/doc/example-tainlog-logwatch:48 | two lines in the first two seconds of 1970 that can be logged and rendered are in conflict |
| `EndToEnd.ConflictExactly` | srvctl/doc/example-tainlog-logwatch:48 | in UTC a line is in conflict with a later one exactly if it is logged in the last microsecond of a second and the other less than a second after it |
| `EndToEnd.ConflictLosesLine` | srvctl/doc/example-tainlog-logwatch:46-59 | from any state, if the script runs right after the first of two lines in conflict, the second is never printed, whatever happens later |
| `EndToEnd.ConflictRepeatsLine` | srvctl/doc/example-tainlog-logwatch:35-59 | from any state in which the first is new, if the second follows it in `current` and the script runs twice, both runs print the first |
| `Pipeline.WholePath` | srvctl/doc/example-tainlog-logwatch:19-61 | for any input, buffer, limits and placement of runs, with lines in order: after a run, all that was printed is what grep and taiconv make of all that was logged, in one piece, if and only if each file that was pushed out had been read |
| `Pipeline.WholeInput` | srvctl/doc/example-tainlog-logwatch:19-61 | once all input is logged, that is the log of the whole input, under the same condition |
| `Pipeline.OnlyNewsPrinted` | srvctl/doc/example-tainlog-logwatch:39-53 | at any time only non-information lines that were logged have been printed |
| `Pipeline.InformationNeverPrinted` | srvctl/doc/example-tainlog-logwatch:39 | a line with the words anywhere in its body is never printed |
| `Pipeline.DirectoryIsReadable` | srvctl/doc/example-tainlog-logwatch:35-47 | at any time, grep, taiconv and the shell see each file of the directory as its lines one by one, and tail, awk and taiconv its last stamp |
| `Pipeline.NothingGoesUnlimited` | srvctl/tests/tainlog.sh:17-19 | when no number of files is set, no unread file goes |
| `Pipeline.FirstOfTwoGoes` | srvctl/tests/tainlog.sh:17-19 | when no file is kept and each record fills one, two records without a run lose the first, unless it is an information line |
| `Pipeline.SuitsUnlessConflict` | srvctl/doc/example-tainlog-logwatch:48 | an advancing clock at one offset without conflicts puts the lines of every input in order |
| `Pipeline.MorningSuits` | srvctl/doc/example-tainlog-logwatch:48 | for every input of fewer than 82800 million records there is a clock and a zone that put its lines in order |
| `Pipeline.DirectoryIsLogged` | srvctl/tests/tainlog.sh:17-19 | however runs come in between, the directory ends as the one that logging the input leaves, the correct number of files included |

## Left out

- The branch of the script in which `taiconv` fails (srvctl/doc/example-tainlog-logwatch:41-43): `taiconv` is taken to succeed; by then the cursor candidate has already moved.
- Events during an execution of the script: an execution is one step.
- Directory checks, the mangled name of the cursor file, globbing and locale collation in the script.
- Failures of files and system calls: opening, renaming, writing and removing succeed, and reading from a stream fails only at its end.
- A name that is already taken in the archive: names are later than all before them, so renaming never overwrites.
- Labels so far from the epoch that converting them overflows in C: excluded by a precondition in `AprTime`, and rendered as nothing in `Stamps.InZone`.
- Years after 9999 and local times before 1970 in the theorems about rendered times; the renderer itself is modelled for all.
- `libbase/lib/priv.c`, command lines, `monitor`, `scanner`, `limiter`, `srvctl`: system calls, or not on the path of a log line.
- `ngim_tai_now`, `ngim_tain_now`, `ngim_tai_less` and `ngim_tain_to_tai`: the clock is an input, and the other two are one comparison and one copy.
- Null-pointer assertions: Dafny references are not null.
