# process-log-rs, modelled in Dafny

`process-log-rs` is a small command-line tool from a laboratory study of
ramp currents. It reads one comma-separated log file and writes two kinds of
file lists from it.

The log has a header line, then one record per line: `run,ramp,vped`. The
tool does the following:

1. Drops the header.
2. Parses every record. The run stays text, the ramp is a `u64` and the vped
   is an `isize`.
3. Removes consecutive duplicate ramps.
4. Marks each record `true` when the next record's vped is larger. The last
   record is always marked `true`.
5. Writes the calibration list `2021-12-22-ramplog-cal-list.txt`: one
   calibrated data path per run.
6. Walks the records again, buffering one transfer-function line (path and
   vped) per run. At every `false` it writes the buffer to the list named
   after the next de-duplicated ramp, then empties the buffer.

Every `unwrap` and index on the log's contents that can fail is an error
value here. The unwraps of file operations are not (see "## Left out"). The
program's run is an `Outcome`: the files written, in order, plus the error
that stopped it, if any. Files written before a failure are kept, because
the program creates them before it panics.

Modules, one file each:

- `wrappers.dfy`, module `Wrappers`: `Option` and `Result`.
- `errors.dfy`, module `LogErrors`: one `Error` constructor per place the
  tool can panic.
- `text.dfy`, module `Text`: the Rust string operations the tool uses.
  These are `split_once`, `split`, `lines`, `trim_end` and joining.
- `numbers.dfy`, module `Numbers`: parsing of `u64` and `isize`, and
  decimal formatting.
- `records.dfy`, module `Records`: header removal and `parse_log`.
- `ramps.dfy`, module `Ramps`: `Vec::dedup`.
- `grouping.dfy`, module `Grouping`: the transition mask, and the cutting of
  records into groups at each `false`.
- `process.dfy`, module `ProcessLog`: the two writing loops, and `main` as a
  whole.

The loops of `parse_log` and `main` are methods (`Records.ParseLog`,
`Grouping.TransitionMask`, `ProcessLog.CalList`, `ProcessLog.GroupFiles` and
`ProcessLog.Run`). Each method is proved equal to a specification function,
and the properties are proved about those functions.

Where the code is looser or stricter than its own comments suggest, the
model follows the code:

- A record line with more than three fields is accepted. The fields after
  the third are ignored, because only `l[0]`, `l[1]` and `l[2]` are read
  (`Records.ExtraFieldsIgnored`).
- The error depends on how much of the file is there:
  - A file with no newline at all fails at the header (`MissingHeader`).
  - A file that is only a header line fails when the mask is built
    (`NoRecords`), because `vpeds.len() - 1` underflows.
  - In both cases nothing is written.
- A vped that stays equal counts as "no rise", so it marks a `false`.
- With vpeds 1, 2, 1 and ramps 10, 10, 20, the mask is
  `[true, false, true]`. The first two runs go to the list of ramp 10. The
  third run is buffered and never written (`ProcessLog.ThreeRunsScenario`
  proves this for any vpeds that rise and then do not).
- `Vec::dedup` removes only adjacent repeats. With ramps 5, 3, 5, the first
  and third groups get the same list name (`ProcessLog.TfListNameInjective`),
  and on disk the later list replaces the earlier one. `Outcome.writes` keeps
  both writes, in order, so the file's final content is that of the last
  write to its name.
- The records after the last `false` are never written to a
  transfer-function list. The model keeps this behaviour as written
  (`ProcessLog.TrailingRecordsUnlisted`).

## Model

| member | source | states |
|---|---|---|
| Text.SplitOnce | src/main.rs:26 | `split_once("\n")` fails exactly when there is no newline. Otherwise the text is the first part, the newline and the rest, with no newline in the first part. |
| Text.IndexOf | src/main.rs:26 | The position found holds the character, and no earlier position does. No position is found only when the character is absent. |
| Text.Split | src/main.rs:74 | `split(",")` yields at least one field, and no field contains a comma. |
| Text.JoinSplit | src/main.rs:74 | Joining the fields of `split` with the separator gives the line back. |
| Text.SplitJoin | src/main.rs:74 | Splitting a join of comma-free fields gives the fields back. |
| Text.SplitCons | src/main.rs:74 | Splitting a field, a comma and a rest gives that field followed by the split of the rest. |
| Text.Lines | src/main.rs:73 | No line that `lines()` yields contains a newline. |
| Text.LinesTerminated | src/main.rs:73 | `lines()` of newline-terminated lines gives exactly those lines, with no empty trailing line. |
| Text.TerminatedLines | src/main.rs:73 | Re-terminating the lines of a text gives the text, plus a final newline when it lacked one. So `lines()` loses nothing but that newline. |
| Text.LinesTerminatedInjective | src/main.rs:73 | Two lists of lines that terminate to the same text are equal. |
| Text.LinesJoin | src/main.rs:73 | `lines()` of lines joined by newlines gives the lines back, when the last line is non-empty. |
| Text.AsciiWhitespace | src/main.rs:47-59 | `IsWhitespace`, the `char::is_whitespace` that `trim_end` uses, holds for an ASCII character exactly when it is a space, tab, line feed, vertical tab, form feed or carriage return. |
| Text.TrimEnd | src/main.rs:47 | `trim_end` returns a prefix that is empty or ends in a non-whitespace character. Everything it removes is whitespace. |
| Text.TrimTerminated | src/main.rs:47 | Trimming a buffer of newline-terminated lines whose last line ends in a non-whitespace character gives those lines joined by newlines. |
| Text.EndWithNewline | src/main.rs:73 | The text is kept as a prefix, at most one character is added, and a non-empty result ends in a newline. |
| Numbers.ParseU64 | src/main.rs:75 | A ramp parses only from an optional `+` and digits, and the value is below 2^64. |
| Numbers.ParseIsize | src/main.rs:77 | A vped parses only from an optional sign and digits, and the value is within the 64-bit `isize` range. |
| Numbers.NatToString | src/main.rs:58 | Formatting a ramp gives at least one digit, with no leading zero. |
| Numbers.IntToString | src/main.rs:55 | Formatting a vped gives a `-` exactly when it is negative. After the sign come decimal digits with no leading zero, whose value is the vped's magnitude. |
| Numbers.DigitsValueNatToString | src/main.rs:58 | The decimal digits of a ramp have its value. |
| Numbers.ParseU64NatToString | src/main.rs:75 | Every `u64` ramp, once formatted, parses back to itself. |
| Numbers.ParseIsizeIntToString | src/main.rs:77 | Every `isize` vped, once formatted, parses back to itself. |
| Numbers.IntToStringPlain | src/main.rs:55 | A formatted vped contains no comma, no space and no newline. |
| Records.StripHeader | src/main.rs:26-27 | Without a newline the header unwrap fails with `MissingHeader`. Otherwise the result is exactly the text after the first newline. |
| Records.ParseRecord | src/main.rs:74-77 | A line parses exactly when its comma split has at least three fields, field 1 parses as a `u64` and field 2 as an `isize`. The run is the text before the first comma, and the ramp and vped are the values of fields 1 and 2. Otherwise the error is the first problem in reading order: a missing field 1, a bad ramp, a missing field 2, then a bad vped. |
| Records.ExtraFieldsIgnored | src/main.rs:74-77 | A line with fields after the third parses exactly as its first three fields alone. |
| Records.ParseRecordFirstThree | src/main.rs:74-77 | Two lines with the same first three fields parse alike. |
| Records.SplitFirst | src/main.rs:76 | The run field is a prefix of the line. When a second field exists, the run is followed by a comma in the line. |
| Records.Collect | src/main.rs:73-80 | The columns exist exactly when every line parsed. They then have one entry per line, in order, equal to each line's record. |
| Records.CollectSucceeds | src/main.rs:73-80 | Lines that all parse to given records yield exactly those columns. |
| Records.CollectFailsAt | src/main.rs:75-77 | When every line before `k` parses and line `k` does not, the program stops with line `k`'s error. |
| Records.ParseLog | src/main.rs:69-80 | The parsing loop returns the columns of the lines, or the first line's error, as `ParseAll` specifies. |
| Records.ParseFormatRecord | src/main.rs:74-77 | A record in the log format parses back to itself. |
| Records.ParseAllFormatLines | src/main.rs:73-80 | Lines formatted from records parse back to the records' columns. |
| Records.ParseLogRoundTrip | src/main.rs:26-29 | For a log written from a header and records, the header is dropped, and parsing the rest gives the records' columns. |
| Records.ParseLogTestCase | src/main.rs:97-105 | `"300000,0,123\n300001,1,124"` parses to ramps `[0, 1]`, runs `["300000", "300001"]` and vpeds `[123, 124]`. |
| Ramps.Dedup | src/main.rs:30 | `dedup` never lengthens the ramps and empties only the empty list. It keeps the first and the last ramp. |
| Ramps.RunStarts | src/main.rs:30 | The start positions of the runs of equal ramps are in range and strictly increasing. |
| Ramps.RunStartsExact | src/main.rs:30 | A position is listed exactly when it starts a run: it is the first position, or its value differs from the one before. |
| Ramps.DedupKeepsRunStarts | src/main.rs:30 | `dedup` keeps exactly the first ramp of each run of equal ramps, in order. |
| Ramps.DedupNoAdjacentRepeats | src/main.rs:30 | After `dedup` no two neighbouring ramps are equal. |
| Ramps.NoAdjacentRepeatsAt | src/main.rs:30 | A list without adjacent repeats differs at every pair of neighbouring positions. |
| Ramps.NoAdjacentRepeatsFromPairs | src/main.rs:30 | Conversely, a list that differs at every pair of neighbouring positions has no adjacent repeats. |
| Ramps.DedupFixpoint | src/main.rs:30 | `dedup` leaves a list without adjacent repeats unchanged. |
| Ramps.DedupIdempotent | src/main.rs:30 | Applying `dedup` twice is the same as applying it once. |
| Ramps.DedupSameValues | src/main.rs:30 | `dedup` keeps the set of ramp values. |
| Grouping.MaskOfRises | src/main.rs:32-36 | `MaskOf` has one entry per record, a final `true`, and `true` at `i` exactly when vped `i + 1` exceeds vped `i`. |
| Grouping.TransitionMask | src/main.rs:32-36 | Without records the mask fails with `NoRecords`. Otherwise the mask has one entry per record, its last entry is `true`, and entry `i` is `true` exactly when vped `i + 1` exceeds vped `i`. |
| Grouping.Boundaries | src/main.rs:56 | Every flush position is a position marked `false`, and the positions strictly increase. That every `false` is listed is `Grouping.FalseIsBoundary`. |
| Grouping.GroupsPartition | src/main.rs:49-62 | There is one group per `false`. The groups, followed by what is still buffered, are all the records in order. |
| Grouping.CutPartition | src/main.rs:49-62 | Cutting records at increasing positions loses nothing and reorders nothing. |
| Grouping.FlattenPrefix | src/main.rs:49-62 | The first `g` groups are exactly the records before group `g` starts. |
| Grouping.GroupsAreRuns | src/main.rs:54-57 | Each group is a stretch of `true` entries closed by one `false`. |
| Grouping.PendingHasNoBoundary | src/main.rs:51-62 | Every record still buffered at the end is marked `true`. |
| Grouping.LastItemPending | src/main.rs:36 | Because the last entry is `true`, the last record is still buffered at the end. |
| Grouping.BoundariesPrefix | src/main.rs:51-56 | The flushes seen in a prefix of the records are a prefix of all the flushes. |
| Grouping.FalseIsBoundary | src/main.rs:56-57 | A `false` at position `i` is the flush that takes the ramp with the number of earlier flushes as its index. |
| Grouping.BoundariesSnoc | src/main.rs:54-56 | One more record adds a flush exactly when that record is marked `false`. |
| Grouping.CutSnocTrue | src/main.rs:55 | A record marked `true` joins the buffer and leaves the flushed groups unchanged. |
| Grouping.CutSnocFalse | src/main.rs:55-60 | A record marked `false` closes the buffer as a new group and empties the buffer. |
| Grouping.CutPrefix | src/main.rs:51-62 | The groups flushed before position `i` are the same whether the whole log is cut or only its first `i` records. |
| ProcessLog.LinesEndInPrintable | src/main.rs:42-55 | Every calibration path and every transfer-function line ends in a non-whitespace character. So `trim_end` removes only the final newline. |
| ProcessLog.CalPathRun | src/main.rs:42 | `CalPath` is the data directory, `cal`, the run, then `.r1`, so the run can be read back from the path. |
| ProcessLog.CalPathInjective | src/main.rs:42 | Two runs have the same data path exactly when they are the same run. |
| ProcessLog.TfLineFields | src/main.rs:55 | `TfLine` is the run's data path, a space, then text that parses back to the vped. |
| ProcessLog.TfListNameRamp | src/main.rs:58 | `TfListName` is a fixed 24-character prefix, the ramp's decimal digits, then a fixed 16-character suffix. |
| ProcessLog.TfListNameInjective | src/main.rs:58 | Two ramps get the same list name exactly when they are equal. |
| ProcessLog.CalListNameDistinct | src/main.rs:46-58 | No transfer-function list is named like the calibration list `CAL_LIST_NAME`, so the calibration list is never overwritten. |
| ProcessLog.CalList | src/main.rs:38-47 | The calibration list's content is the runs' calibration paths, one per line, with no trailing newline. |
| ProcessLog.GroupFiles | src/main.rs:49-62 | The writes and the failure of the grouping loop are as `GroupWrites` specifies. Group `g` goes to the list of ramp `g`. The loop stops with `RampsExhausted` at the first group with no ramp left. |
| ProcessLog.GroupsDone | src/main.rs:51-62 | When every flush found a ramp, the writes are all the groups' contents under their ramps' names, with no failure. |
| ProcessLog.StopsAt | src/main.rs:57 | A flush at position `i` with every ramp used up ends the run with `RampsExhausted(i)`, after writing the earlier groups. |
| ProcessLog.FailurePoint | src/main.rs:57 | The flush at which the ramps run out is the one numbered by the ramp count. The groups before it are exactly the written ones. |
| ProcessLog.BufferKeep | src/main.rs:55 | A `true` record appends its line and a newline to the buffer and flushes nothing. |
| ProcessLog.BufferFlush | src/main.rs:55-60 | A `false` record writes the trimmed buffer, with its own line, to the next ramp's list, then empties the buffer. |
| ProcessLog.KeepStep | src/main.rs:55 | The same as `BufferKeep`, for the transfer-function line of run `i` and vped `i`. |
| ProcessLog.FlushStep | src/main.rs:55-60 | The same as `BufferFlush`, for the transfer-function line of run `i` and vped `i`. |
| ProcessLog.NamedSnoc | src/main.rs:57-59 | One more group's content is written under the name of the next ramp. |
| ProcessLog.Run | src/main.rs:26-62 | The whole program's writes and failure are as `Process` specifies. |
| ProcessLog.ProcessParsed | src/main.rs:26-62 | For a log that parses to at least one record, the program writes the calibration list first, then the grouping loop's writes, and ends with the grouping loop's failure. |
| ProcessLog.NoHeaderNoWrites | src/main.rs:26 | A file without a newline writes nothing and fails with `MissingHeader`. |
| ProcessLog.HeaderOnlyNoWrites | src/main.rs:33 | A file with only a header line writes nothing and fails with `NoRecords`. |
| ProcessLog.FirstBadLineNoWrites | src/main.rs:73-77 | When line `k` is the first record that does not parse, nothing is written and the run fails with that line's error. |
| ProcessLog.BadRampRow | src/main.rs:75 | A file whose one record has a ramp that is not a number, such as `r1,abc,1`, writes nothing and fails with `BadRamp(0)`. |
| ProcessLog.AbcIsNoRamp | src/main.rs:75 | `abc` does not parse as a `u64`. |
| ProcessLog.DataDirPlain | src/main.rs:42 | The data directory contains no newline. |
| ProcessLog.PlainLines | src/main.rs:42-55 | The path and the transfer-function line of a newline-free run contain no newline. |
| ProcessLog.CalListLines | src/main.rs:38-47 | Reading the calibration list back line by line gives one calibration path per run. |
| ProcessLog.GroupListLines | src/main.rs:55-59 | Reading a transfer-function list back line by line gives exactly its group's lines. |
| ProcessLog.TfLinesPlain | src/main.rs:55 | Every transfer-function line of newline-free runs is non-empty and has no newline. |
| ProcessLog.GroupLinesJoin | src/main.rs:55-59 | A group of non-empty, newline-free lines, joined as the program writes it, reads back line by line as that group. |
| ProcessLog.TrailingRecordsUnlisted | src/main.rs:36-62 | The groups plus the final buffer are all the transfer-function lines. The final buffer always holds the last run's line, which no list receives. |
| ProcessLog.WellFormedLog | src/main.rs:26-62 | For any log written from a header and at least one record, the program first writes the calibration list, holding one path per run. It then writes one list per group, up to the number of distinct consecutive ramps. It fails exactly when there are more groups than ramps. Writes are counted in order; two groups whose ramps are equal but not adjacent write to the same name. |
| ProcessLog.ThreeRunsScenario | src/main.rs:32-62 | Vpeds that rise and then do not, with ramps `r, r, r2`, give the mask `[true, false, true]` and the ramps `[r, r2]`. Exactly one list is written: ramp `r`'s, with the first two runs' lines. |
| ProcessLog.ScenarioGroups | src/main.rs:51-62 | Three records cut by `[true, false, true]` form one group, of the first two records. |
| ProcessLog.ScenarioMask | src/main.rs:32-36 | Vpeds `a < b` then `c <= b` give the mask `[true, false, true]`, whose only flush is at position 1. |
| ProcessLog.ScenarioRamps | src/main.rs:30 | Ramps `r, r, r2` with `r != r2` de-duplicate to `[r, r2]`. |

## Left out

- Command-line handling and the usage text (`src/main.rs:16-21`, `83-90`): the file's contents are the model's input.
- File I/O: opening and reading the log, and the `File::create` and `write_all` calls, become the list of `FileWrite` values. Failures of the file system (permissions, a full disk) are not modelled, and neither is the failure of `read_to_string` on a file that is not valid UTF-8.
- `Text.Lines`: `str::lines` also strips a `\r` before each newline. The model splits on `\n` only, so CRLF logs are not modelled.
- `Grouping.TransitionMask`: the vped subtraction `vpeds[i + 1] - vpeds[i]` uses unbounded integers. The `isize` overflow (a panic in debug builds, wrap-around in release builds) for vpeds more than `isize::MAX` apart is not modelled.
- `Grouping.TransitionMask`: a log with a header but no records fails with `NoRecords`, whatever the build. A debug build panics on the `usize` underflow. A release build panics on the out-of-bounds index that follows it. Neither writes a file.
- `Ramps.Dedup`: `Vec::dedup` works in place on the vector; the model computes the de-duplicated sequence as a value.
- `Records.Collect`: the error at the first failing line is stated by the `Records.CollectFailsAt` lemma, not in `Collect`'s own contract.
- `Numbers.ParseIsize`: `isize` is taken to be 64 bits wide.
- Text encoding: strings are sequences of characters. `IsWhitespace` lists the Unicode `White_Space` characters, which is what `trim_end` removes.
