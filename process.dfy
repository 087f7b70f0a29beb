/**
 * The body of the program's `main`: drop the header, parse the records,
 * de-duplicate the ramps, build the transition mask, then write the
 * calibration file list and one transfer-function list per group. Files are
 * modelled as the sequence of (name, content) writes, in the order the
 * program performs them.
 */
module ProcessLog {
  import opened Wrappers
  import opened Text
  import opened Numbers
  import opened LogErrors
  import opened Records
  import opened Ramps
  import opened Grouping

  /** One `File::create` followed by `write_all`. */
  datatype FileWrite = FileWrite(name: string, content: string)

  /** The files written, in order, and the error that stopped the program, if any. */
  datatype Outcome = Outcome(writes: seq<FileWrite>, failure: Option<Error>)

  /**
   * The directory of the calibrated run files. It is written as three
   * literals joined together: the verifier then checks the shorter pieces for
   * a newline one at a time (`DataDirPlain`), which it does not manage on the
   * single 59-character literal.
   */
  const DATA_DIR: string := "/data/wipac/CTA/" + "target5and7data/" + "runs_320000_through_329999/"
  const CAL_LIST_NAME: string := "2021-12-22-ramplog-cal-list.txt"

  /** The calibrated data file of a run. */
  function CalPath(run: string): string
  {
    DATA_DIR + "cal" + run + ".r1"
  }

  /** A line of a transfer-function list: the run's file and its vped. */
  function TfLine(run: string, vped: int): string
  {
    CalPath(run) + " " + IntToString(vped)
  }

  /** The name of the transfer-function list of a ramp. */
  function TfListName(ramp: nat): string
  {
    "2021-12-22-ramplog-ramp-" + NatToString(ramp) + "-tf-dac-list.txt"
  }

  /** The run's name sits between the data directory's `cal` prefix and `.r1`, so the path determines the run. */
  lemma CalPathRun(run: string)
    ensures var p := CalPath(run);
      && |p| == |DATA_DIR| + 3 + |run| + 3
      && p[..|DATA_DIR|] == DATA_DIR && p[|DATA_DIR|..|DATA_DIR| + 3] == "cal"
      && p[|DATA_DIR| + 3..|p| - 3] == run && p[|p| - 3..] == ".r1"
  {
  }

  /** Different runs have different data files. */
  lemma CalPathInjective(a: string, b: string)
    ensures CalPath(a) == CalPath(b) <==> a == b
  {
    CalPathRun(a);
    CalPathRun(b);
  }

  /** A transfer-function line is the run's data file, a space, and text that parses back to the vped. */
  lemma TfLineFields(run: string, vped: int)
    requires ISIZE_MIN <= vped <= ISIZE_MAX
    ensures var t, p := TfLine(run, vped), CalPath(run);
      && |t| > |p| && t[..|p|] == p && t[|p|] == ' '
      && ParseIsize(t[|p| + 1..]) == Some(vped)
  {
    SpaceJoined(CalPath(run), IntToString(vped));
    ParseIsizeIntToString(vped);
  }

  /** The two halves of a text joined by a space. */
  lemma SpaceJoined(p: string, d: string)
    ensures var t := p + " " + d;
      |t| > |p| && t[..|p|] == p && t[|p|] == ' ' && t[|p| + 1..] == d
  {
  }

  /** The ramp's digits sit between the fixed prefix and suffix of its list's name. */
  lemma TfListNameRamp(ramp: nat)
    ensures var t := TfListName(ramp);
      && |t| == 24 + |NatToString(ramp)| + 16
      && t[24..|t| - 16] == NatToString(ramp)
  {
  }

  /** Two ramps share a transfer-function list name exactly when they are equal. */
  lemma TfListNameInjective(a: nat, b: nat)
    ensures TfListName(a) == TfListName(b) <==> a == b
  {
    TfListNameRamp(a);
    TfListNameRamp(b);
    if TfListName(a) == TfListName(b) {
      DigitsValueNatToString(a);
      DigitsValueNatToString(b);
    }
  }

  /** No transfer-function list has the calibration list's name. */
  lemma CalListNameDistinct(ramp: nat)
    ensures TfListName(ramp) != CAL_LIST_NAME
  {
    assert TfListName(ramp)[19] == 'r';
    assert CAL_LIST_NAME[19] == 'c';
  }

  function CalLines(runs: seq<string>): (lines: seq<string>)
    ensures |lines| == |runs|
  {
    seq(|runs|, i requires 0 <= i < |runs| => CalPath(runs[i]))
  }

  function TfLines(runs: seq<string>, vpeds: seq<int>): (lines: seq<string>)
    requires |runs| == |vpeds|
    ensures |lines| == |runs|
  {
    seq(|runs|, i requires 0 <= i < |runs| => TfLine(runs[i], vpeds[i]))
  }

  function Min(a: nat, b: nat): nat
  {
    if a <= b then a else b
  }

  /** The content of each flushed group: its lines joined by newlines. */
  function Contents(groups: seq<seq<string>>): (contents: seq<string>)
    ensures |contents| == |groups|
  {
    seq(|groups|, g requires 0 <= g < |groups| => Join(groups[g], "\n"))
  }

  /** The `g`-th content written to the list named after the `g`-th ramp. */
  function Named(ramps: seq<nat>, contents: seq<string>): (writes: seq<FileWrite>)
    requires |contents| <= |ramps|
    ensures |writes| == |contents|
  {
    seq(|contents|, g requires 0 <= g < |contents| => FileWrite(TfListName(ramps[g]), contents[g]))
  }

  /**
   * The grouping loop's writes: the `g`-th group of transfer-function lines
   * goes to the list named after the `g`-th de-duplicated ramp. With more
   * groups than ramps the program stops at the first group that finds no ramp.
   */
  function GroupWrites(runs: seq<string>, vpeds: seq<int>, mask: seq<bool>, ramps: seq<nat>): Outcome
    requires |runs| == |vpeds| == |mask|
  {
    var b := Boundaries(mask);
    var contents := Contents(Groups(TfLines(runs, vpeds), mask));
    Outcome(Named(ramps, contents[..Min(|b|, |ramps|)]),
            if |b| <= |ramps| then None else Some(RampsExhausted(b[|ramps|])))
  }

  /** What one run of the program does with the text of a log file. */
  function Process(contents: string): Outcome
  {
    match StripHeader(contents)
    case Failure(e) => Outcome([], Some(e))
    case Success(body) =>
      match ParseAll(Lines(body))
      case Failure(e) => Outcome([], Some(e))
      case Success(log) =>
        if log.vpeds == [] then Outcome([], Some(NoRecords))
        else
          var cal := FileWrite(CAL_LIST_NAME, Join(CalLines(log.runs), "\n"));
          var tf := GroupWrites(log.runs, log.vpeds, MaskOf(log.vpeds), Dedup(log.ramps));
          Outcome([cal] + tf.writes, tf.failure)
  }

  /** The last character of a run's file name and of a transfer-function line is not a space. */
  lemma LinesEndInPrintable(run: string, vped: int)
    ensures CalPath(run)[|CalPath(run)| - 1] == '1'
    ensures !IsWhitespace(TfLine(run, vped)[|TfLine(run, vped)| - 1])
  {
  }

  /**
   * The calibration list: every run's file, one per line, in run order; the
   * buffer's trailing newline is trimmed.
   */
  method CalList(runs: seq<string>) returns (content: string)
    ensures content == Join(CalLines(runs), "\n")
  {
    ghost var lines := CalLines(runs);
    var output: string := [];
    for i := 0 to |runs|
      invariant output == Terminated(lines[..i])
    {
      TerminatedSnoc(lines[..i], CalPath(runs[i]));
      assert lines[..i + 1] == lines[..i] + [CalPath(runs[i])];
      output := output + CalPath(runs[i]) + "\n";
    }
    assert lines[..|runs|] == lines;
    if runs != [] {
      LinesEndInPrintable(runs[|runs| - 1], 0);
      TrimTerminated(lines);
    }
    content := TrimEnd(output);
  }

  /**
   * The grouping loop: each record's line is appended to the buffer; at every
   * `false` of the mask the next de-duplicated ramp is taken and the trimmed
   * buffer written as that ramp's list, and the buffer is emptied.
   */
  method GroupFiles(runs: seq<string>, vpeds: seq<int>, mask: seq<bool>, ramps: seq<nat>)
    returns (writes: seq<FileWrite>, failure: Option<Error>)
    requires |runs| == |vpeds| == |mask|
    ensures Outcome(writes, failure) == GroupWrites(runs, vpeds, mask, ramps)
  {
    ghost var items := TfLines(runs, vpeds);
    ghost var bs: seq<nat> := [];
    var output: string := [];
    var next := 0;
    writes := [];
    for i := 0 to |runs|
      invariant bs == Boundaries(mask[..i])
      invariant ValidCuts(bs, i)
      invariant next == |bs| <= |ramps|
      invariant writes == Named(ramps, Contents(Cut(items[..i], bs)))
      invariant output == Terminated(Tail(items[..i], bs))
    {
      output := output + TfLine(runs[i], vpeds[i]) + "\n";
      if !mask[i] {
        if next == |ramps| {
          StopsAt(runs, vpeds, mask, ramps, i, bs);
          failure := Some(RampsExhausted(i));
          return;
        }
        var ramp := ramps[next];
        next := next + 1;
        FlushStep(runs, vpeds, mask, ramps, i, bs);
        writes := writes + [FileWrite(TfListName(ramp), TrimEnd(output))];
        output := [];
        bs := bs + [i];
      } else {
        KeepStep(runs, vpeds, mask, i, bs);
      }
    }
    failure := None;
    GroupsDone(runs, vpeds, mask, ramps, bs);
  }

  /** The grouping loop ran to the end: every group found a ramp and was written. */
  lemma GroupsDone(runs: seq<string>, vpeds: seq<int>, mask: seq<bool>, ramps: seq<nat>, bs: seq<nat>)
    requires |runs| == |vpeds| == |mask|
    requires bs == Boundaries(mask[..|mask|]) && ValidCuts(bs, |mask|) && |bs| <= |ramps|
    ensures GroupWrites(runs, vpeds, mask, ramps)
      == Outcome(Named(ramps, Contents(Cut(TfLines(runs, vpeds)[..|mask|], bs))), None)
  {
    var items := TfLines(runs, vpeds);
    assert mask[..|mask|] == mask;
    assert items[..|mask|] == items;
    assert Contents(Cut(items, bs))[..|bs|] == Contents(Cut(items, bs));
  }

  /** The grouping loop stops at boundary `i` for want of a ramp, having written the groups before it. */
  lemma StopsAt(runs: seq<string>, vpeds: seq<int>, mask: seq<bool>, ramps: seq<nat>, i: nat, bs: seq<nat>)
    requires |runs| == |vpeds| == |mask|
    requires i < |mask| && !mask[i] && bs == Boundaries(mask[..i]) && |bs| == |ramps|
    ensures ValidCuts(bs, i)
    ensures GroupWrites(runs, vpeds, mask, ramps)
      == Outcome(Named(ramps, Contents(Cut(TfLines(runs, vpeds)[..i], bs))), Some(RampsExhausted(i)))
  {
    FailurePoint(TfLines(runs, vpeds), mask, ramps, i, bs);
  }

  /** A record whose mask entry is `true` only joins the buffer. */
  lemma KeepStep(runs: seq<string>, vpeds: seq<int>, mask: seq<bool>, i: nat, bs: seq<nat>)
    requires |runs| == |vpeds| == |mask| && i < |mask| && mask[i]
    requires bs == Boundaries(mask[..i]) && ValidCuts(bs, i)
    ensures Boundaries(mask[..i + 1]) == bs && ValidCuts(bs, i + 1)
    ensures var items := TfLines(runs, vpeds);
      && Cut(items[..i + 1], bs) == Cut(items[..i], bs)
      && Terminated(Tail(items[..i + 1], bs)) == Terminated(Tail(items[..i], bs)) + TfLine(runs[i], vpeds[i]) + "\n"
  {
    var items := TfLines(runs, vpeds);
    assert items[i] == TfLine(runs[i], vpeds[i]);
    BufferKeep(items, mask, i, bs);
  }

  /**
   * A record whose mask entry is `false` joins the buffer, and the trimmed
   * buffer becomes the next ramp's list.
   */
  lemma FlushStep(runs: seq<string>, vpeds: seq<int>, mask: seq<bool>, ramps: seq<nat>, i: nat, bs: seq<nat>)
    requires |runs| == |vpeds| == |mask| && i < |mask| && !mask[i]
    requires bs == Boundaries(mask[..i]) && ValidCuts(bs, i) && |bs| < |ramps|
    ensures Boundaries(mask[..i + 1]) == bs + [i] && ValidCuts(bs + [i], i + 1)
    ensures var items := TfLines(runs, vpeds);
      && Named(ramps, Contents(Cut(items[..i + 1], bs + [i])))
         == Named(ramps, Contents(Cut(items[..i], bs)))
            + [FileWrite(TfListName(ramps[|bs|]), TrimEnd(Terminated(Tail(items[..i], bs)) + TfLine(runs[i], vpeds[i]) + "\n"))]
      && Tail(items[..i + 1], bs + [i]) == []
  {
    var items := TfLines(runs, vpeds);
    assert items[i] == TfLine(runs[i], vpeds[i]);
    LinesEndInPrintable(runs[i], vpeds[i]);
    BufferFlush(items, mask, ramps, i, bs);
  }

  /** `KeepStep` for any lines: the buffer grows by one line and no group closes. */
  lemma BufferKeep(items: seq<string>, mask: seq<bool>, i: nat, bs: seq<nat>)
    requires |items| == |mask| && i < |mask| && mask[i]
    requires bs == Boundaries(mask[..i]) && ValidCuts(bs, i)
    ensures Boundaries(mask[..i + 1]) == bs && ValidCuts(bs, i + 1)
    ensures Cut(items[..i + 1], bs) == Cut(items[..i], bs)
    ensures Terminated(Tail(items[..i + 1], bs)) == Terminated(Tail(items[..i], bs)) + items[i] + "\n"
  {
    assert items[..i + 1] == items[..i] + [items[i]];
    BoundariesSnoc(mask, i);
    CutSnocTrue(items[..i], bs, items[i]);
    TerminatedSnoc(Tail(items[..i], bs), items[i]);
  }

  /** `FlushStep` for any lines whose last character is not whitespace. */
  lemma BufferFlush(items: seq<string>, mask: seq<bool>, ramps: seq<nat>, i: nat, bs: seq<nat>)
    requires |items| == |mask| && i < |mask| && !mask[i]
    requires bs == Boundaries(mask[..i]) && ValidCuts(bs, i) && |bs| < |ramps|
    requires items[i] != [] && !IsWhitespace(items[i][|items[i]| - 1])
    ensures Boundaries(mask[..i + 1]) == bs + [i] && ValidCuts(bs + [i], i + 1)
    ensures Named(ramps, Contents(Cut(items[..i + 1], bs + [i])))
      == Named(ramps, Contents(Cut(items[..i], bs)))
         + [FileWrite(TfListName(ramps[|bs|]), TrimEnd(Terminated(Tail(items[..i], bs)) + items[i] + "\n"))]
    ensures Tail(items[..i + 1], bs + [i]) == []
  {
    var line := items[i];
    var pending := Tail(items[..i], bs);
    assert items[..i + 1] == items[..i] + [line];
    BoundariesSnoc(mask, i);
    CutSnocFalse(items[..i], bs, line);
    TerminatedSnoc(pending, line);
    TrimTerminated(pending + [line]);
    var before := Contents(Cut(items[..i], bs));
    assert Contents(Cut(items[..i + 1], bs + [i])) == before + [Join(pending + [line], "\n")];
    NamedSnoc(ramps, before, Join(pending + [line], "\n"));
  }

  /** Naming one more content extends the writes by one. */
  lemma NamedSnoc(ramps: seq<nat>, contents: seq<string>, c: string)
    requires |contents| < |ramps|
    ensures Named(ramps, contents + [c]) == Named(ramps, contents) + [FileWrite(TfListName(ramps[|contents|]), c)]
  {
  }

  /**
   * The early stop of the grouping loop at boundary `i`: the groups written
   * so far are the first `|ramps|` groups, and `i` is boundary number `|ramps|`.
   */
  lemma FailurePoint(items: seq<string>, mask: seq<bool>, ramps: seq<nat>, i: nat, bs: seq<nat>)
    requires |items| == |mask|
    requires i < |mask| && !mask[i] && bs == Boundaries(mask[..i]) && |bs| == |ramps|
    ensures var b := Boundaries(mask);
      && |ramps| < |b| && b[|ramps|] == i
      && Contents(Cut(items[..i], bs)) == Contents(Groups(items, mask))[..|ramps|]
  {
    BoundariesSnoc(mask, i);
    BoundariesPrefix(mask, i + 1);
    var b := Boundaries(mask);
    assert b[..|ramps| + 1] == bs + [i];
    assert b[..|ramps|] == bs;
    CutPrefix(items, b, |ramps|, i);
  }

  /**
   * The program's `main` after reading the file: each step's failure stops it,
   * and the calibration list is written before the grouping loop, so a
   * missing ramp leaves the lists written so far in place.
   */
  method Run(contents: string) returns (out: Outcome)
    ensures out == Process(contents)
  {
    var body := StripHeader(contents);
    if body.Failure? {
      return Outcome([], Some(body.error));
    }
    var parsed := ParseLog(body.value);
    if parsed.Failure? {
      return Outcome([], Some(parsed.error));
    }
    var log := parsed.value;
    var ramps := Dedup(log.ramps);
    var bools := TransitionMask(log.vpeds);
    if bools.Failure? {
      return Outcome([], Some(bools.error));
    }
    var cal := CalList(log.runs);
    var writes, failure := GroupFiles(log.runs, log.vpeds, bools.value, ramps);
    out := Outcome([FileWrite(CAL_LIST_NAME, cal)] + writes, failure);
  }

  /** A file with no newline has no header line to drop, and nothing is written. */
  lemma NoHeaderNoWrites(contents: string)
    requires '\n' !in contents
    ensures Process(contents) == Outcome([], Some(MissingHeader))
  {
  }

  /** A header with no records stops at the mask, before anything is written. */
  lemma HeaderOnlyNoWrites(header: string)
    requires '\n' !in header
    ensures Process(header + "\n") == Outcome([], Some(NoRecords))
  {
    IndexOfAfter(header, '\n', []);
    assert (header + "\n")[|header| + 1..] == [];
  }

  /**
   * A log whose line `k` is the first that does not parse writes nothing:
   * `parse_log` panics before the calibration list is created.
   */
  lemma FirstBadLineNoWrites(contents: string, body: string, k: nat)
    requires StripHeader(contents) == Success(body)
    requires k < |Lines(body)|
    requires forall j :: 0 <= j < k ==> ParseRecord(Lines(body)[j], j).Success?
    requires ParseRecord(Lines(body)[k], k).Failure?
    ensures Process(contents) == Outcome([], Some(ParseRecord(Lines(body)[k], k).error))
  {
    CollectFailsAt(ParseEach(Lines(body)), k);
  }

  /**
   * A file whose only record has a ramp field that is not a number (such as
   * `r1,abc,1`) writes nothing and fails with `BadRamp(0)`.
   */
  lemma BadRampRow(header: string, run: string, ramp: string, vped: string)
    requires '\n' !in header && '\n' !in run && '\n' !in ramp && '\n' !in vped
    requires ',' !in run && ',' !in ramp
    requires ParseU64(ramp).None?
    ensures Process(header + "\n" + run + "," + ramp + "," + vped) == Outcome([], Some(BadRamp(0)))
  {
    var line := run + "," + ramp + "," + vped;
    assert header + "\n" + run + "," + ramp + "," + vped == header + "\n" + line;
    OneLineFile(header, line);
    BadRampRecord(run, ramp, vped);
    FirstBadLineNoWrites(header + "\n" + line, line, 0);
  }

  /** A header and one newline-free line: the body is that line, and it is the only line. */
  lemma OneLineFile(header: string, line: string)
    requires '\n' !in header && '\n' !in line && line != []
    ensures StripHeader(header + "\n" + line) == Success(line)
    ensures Lines(line) == [line]
  {
    IndexOfAfter(header, '\n', line);
    assert (header + "\n" + line)[|header| + 1..] == line;
  }

  /** A record whose ramp field does not parse fails with `BadRamp`. */
  lemma BadRampRecord(run: string, ramp: string, vped: string)
    requires ',' !in run && ',' !in ramp
    requires ParseU64(ramp).None?
    ensures ParseRecord(run + "," + ramp + "," + vped, 0) == Failure(BadRamp(0))
  {
    var rest := ramp + [','] + vped;
    assert run + "," + ramp + "," + vped == run + [','] + rest;
    SplitCons(ramp, ',', vped);
    SplitCons(run, ',', rest);
  }

  /** `abc` is not a ramp number. */
  lemma AbcIsNoRamp(ramp: string)
    requires ramp == "abc"
    ensures ParseU64(ramp).None?
  {
    assert !IsDigit(ramp[0]);
  }

  /** The data directory holds no newline. */
  lemma DataDirPlain()
    ensures '\n' !in DATA_DIR
  {
    assert '\n' !in "/data/wipac/CTA/";
    assert '\n' !in "target5and7data/";
    assert '\n' !in "runs_320000_through_329999/";
  }

  /** A run without a newline gives file names and list lines without one. */
  lemma PlainLines(run: string, vped: int)
    requires '\n' !in run
    ensures '\n' !in CalPath(run) && '\n' !in TfLine(run, vped)
  {
    DataDirPlain();
    IntToStringPlain(vped);
    assert '\n' !in "cal" && '\n' !in ".r1" && '\n' !in " ";
  }

  /** The calibration list holds one line per run, the run's data file, in run order. */
  lemma CalListLines(runs: seq<string>)
    requires runs != []
    requires forall i :: 0 <= i < |runs| ==> '\n' !in runs[i]
    ensures Lines(Join(CalLines(runs), "\n")) == CalLines(runs)
  {
    var lines := CalLines(runs);
    forall i | 0 <= i < |lines|
      ensures '\n' !in lines[i]
    {
      PlainLines(runs[i], 0);
    }
    LinesEndInPrintable(runs[|runs| - 1], 0);
    LinesJoin(lines);
  }

  /** The list written for group `g` holds, line by line, the transfer-function lines of that group's records. */
  lemma GroupListLines(runs: seq<string>, vpeds: seq<int>, mask: seq<bool>, g: nat)
    requires |runs| == |vpeds| == |mask|
    requires forall i :: 0 <= i < |runs| ==> '\n' !in runs[i]
    requires g < |Boundaries(mask)|
    ensures var groups := Groups(TfLines(runs, vpeds), mask);
      Lines(Contents(groups)[g]) == groups[g]
  {
    TfLinesPlain(runs, vpeds);
    GroupLinesJoin(TfLines(runs, vpeds), mask, g);
  }

  /** Every transfer-function line of newline-free runs is a non-empty line without a newline. */
  lemma TfLinesPlain(runs: seq<string>, vpeds: seq<int>)
    requires |runs| == |vpeds|
    requires forall i :: 0 <= i < |runs| ==> '\n' !in runs[i]
    ensures forall i :: 0 <= i < |runs| ==> TfLines(runs, vpeds)[i] != [] && '\n' !in TfLines(runs, vpeds)[i]
  {
    forall i | 0 <= i < |runs|
      ensures TfLines(runs, vpeds)[i] != [] && '\n' !in TfLines(runs, vpeds)[i]
    {
      PlainLines(runs[i], vpeds[i]);
    }
  }

  /** A group of non-empty, newline-free lines reads back, line by line, as itself. */
  lemma GroupLinesJoin(items: seq<string>, mask: seq<bool>, g: nat)
    requires |items| == |mask| && g < |Boundaries(mask)|
    requires forall i :: 0 <= i < |items| ==> items[i] != [] && '\n' !in items[i]
    ensures Lines(Contents(Groups(items, mask))[g]) == Groups(items, mask)[g]
  {
    var b := Boundaries(mask);
    var group := items[GroupStart(b, g) .. b[g] + 1];
    assert Groups(items, mask)[g] == group;
    assert group[|group| - 1] == items[b[g]];
    LinesJoin(group);
  }

  /**
   * With the program's mask the records after the last `false` are never
   * listed: the group lists and the final buffer split all lines between
   * them, and the final buffer is never empty and holds the last record.
   */
  lemma TrailingRecordsUnlisted(runs: seq<string>, vpeds: seq<int>)
    requires |runs| == |vpeds| && vpeds != []
    ensures var items := TfLines(runs, vpeds);
      var mask := MaskOf(vpeds);
      && Flatten(Groups(items, mask)) + Pending(items, mask) == items
      && Pending(items, mask) != []
      && Pending(items, mask)[|Pending(items, mask)| - 1] == TfLine(runs[|runs| - 1], vpeds[|vpeds| - 1])
  {
    var items := TfLines(runs, vpeds);
    var mask := MaskOf(vpeds);
    assert mask[|mask| - 1];
    assert items[|items| - 1] == TfLine(runs[|runs| - 1], vpeds[|vpeds| - 1]);
    GroupsPartition(items, mask);
    LastItemPending(items, mask);
  }

  /** On a log that parses and has records, the program writes the calibration list and then the group lists. */
  lemma ProcessParsed(contents: string, body: string, log: ParsedLog)
    requires StripHeader(contents) == Success(body)
    requires ParseAll(Lines(body)) == Success(log) && log.vpeds != []
    ensures var tf := GroupWrites(log.runs, log.vpeds, MaskOf(log.vpeds), Dedup(log.ramps));
      Process(contents) == Outcome([FileWrite(CAL_LIST_NAME, Join(CalLines(log.runs), "\n"))] + tf.writes, tf.failure)
  {
  }

  /**
   * End to end on a well-formed log: the calibration list comes first and
   * holds one data file per record in order; then one list per group is
   * written as long as de-duplicated ramps last, and the program stops with
   * an error exactly when the groups outnumber them.
   */
  lemma WellFormedLog(header: string, recs: seq<Record>)
    requires '\n' !in header && recs != []
    requires forall i :: 0 <= i < |recs| ==> Writable(recs[i])
    ensures var log := Columns(recs);
      var out := Process(LogText(header, recs));
      var groups := |Boundaries(MaskOf(log.vpeds))|;
      var ramps := |Dedup(log.ramps)|;
      && out.writes != []
      && out.writes[0].name == CAL_LIST_NAME
      && Lines(out.writes[0].content) == CalLines(log.runs)
      && |out.writes| == 1 + Min(groups, ramps)
      && (out.failure == None <==> groups <= ramps)
  {
    var log := Columns(recs);
    ParseLogRoundTrip(header, recs);
    ProcessParsed(LogText(header, recs), Terminated(FormatLines(recs)), log);
    assert forall i :: 0 <= i < |log.runs| ==> '\n' !in log.runs[i];
    CalListLines(log.runs);
  }

  /**
   * Three runs whose vped rises and then does not (vpeds 1, 2, 1, say) and
   * whose ramps are one value twice and then another (10, 10, 20): the mask
   * is `[true, false, true]`, the first two runs go to the first ramp's list,
   * and the third stays in the buffer and is never written to a list.
   */
  lemma ThreeRunsScenario(runs: seq<string>, a: int, b: int, c: int, r: nat, r2: nat)
    requires |runs| == 3 && a < b && c <= b && r != r2
    ensures MaskOf([a, b, c]) == [true, false, true]
    ensures Dedup([r, r, r2]) == [r, r2]
    ensures GroupWrites(runs, [a, b, c], MaskOf([a, b, c]), Dedup([r, r, r2]))
      == Outcome([FileWrite(TfListName(r), TfLine(runs[0], a) + "\n" + TfLine(runs[1], b))], None)
  {
    ScenarioMask(a, b, c);
    ScenarioRamps(r, r2);
    var items := TfLines(runs, [a, b, c]);
    ScenarioGroups(items);
    ScenarioWrites(items[..2], r, r2);
    assert items[..2] == [items[0], items[1]];
    JoinTwo(items[0], items[1], "\n");
  }

  /** Any three items cut by the scenario's mask: one group of the first two. */
  lemma ScenarioGroups<T>(items: seq<T>)
    requires |items| == 3
    ensures Groups(items, [true, false, true]) == [items[..2]]
  {
    ScenarioMask(0, 1, 0);
    assert GroupStart([1], 0) == 0;
  }

  /** One group and two ramps: the group goes to the first ramp's list. */
  lemma ScenarioWrites(group: seq<string>, r: nat, r2: nat)
    ensures Named([r, r2], Contents([group])[..Min(1, 2)])
      == [FileWrite(TfListName(r), Join(group, "\n"))]
  {
    var contents := Contents([group]);
    assert contents[..Min(1, 2)] == contents == [Join(group, "\n")];
  }

  /** The scenario's mask has its one `false` at the second run. */
  lemma ScenarioMask(a: int, b: int, c: int)
    requires a < b && c <= b
    ensures MaskOf([a, b, c]) == [true, false, true]
    ensures Boundaries([true, false, true]) == [1]
  {
    var mask := [true, false, true];
    assert mask[..2] == [true, false] && mask[..2][..1] == [true] && [true][..0] == [];
  }

  /** The scenario's ramps lose their repeat. */
  lemma ScenarioRamps(r: nat, r2: nat)
    requires r != r2
    ensures Dedup([r, r, r2]) == [r, r2]
  {
    var ramps := [r, r, r2];
    assert ramps[..2] == [r, r] && ramps[..2][..1] == [r];
  }
}
