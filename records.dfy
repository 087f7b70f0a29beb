/**
 * Reading the lab log: dropping the header line and parsing each remaining
 * `run,ramp,vped` line into three parallel columns (`parse_log`).
 */
module Records {
  import opened Wrappers
  import opened Text
  import opened Numbers
  import opened LogErrors

  /** One line of the log. */
  datatype Record = Record(run: string, ramp: nat, vped: int)

  /** The three parallel vectors `parse_log` returns, in file order. */
  datatype ParsedLog = ParsedLog(ramps: seq<nat>, runs: seq<string>, vpeds: seq<int>)

  /** `contents.split_once("\n").unwrap()`, keeping the part after the header line. */
  function StripHeader(contents: string): (r: Result<string, Error>)
    ensures r.Failure? <==> '\n' !in contents
    ensures r.Failure? ==> r.error == MissingHeader
    ensures r.Success? ==>
      var k := |contents| - |r.value| - 1;
      0 <= k && contents[k] == '\n' && '\n' !in contents[..k] && contents[k + 1..] == r.value
  {
    match SplitOnce(contents, '\n')
    case None => Failure(MissingHeader)
    case Some((header, body)) =>
      assert contents[..|header|] == header;
      assert contents[|header| + 1..] == body;
      Success(body)
  }

  /**
   * One log line, numbered `k`: field 0 is the run, field 1 must parse as a
   * `u64` ramp and field 2 as an `isize` vped, checked in that order; fields
   * after the third are ignored. The error names the first field, in the
   * order the program reads them, that is missing or does not parse.
   */
  function ParseRecord(line: string, k: nat): (r: Result<Record, Error>)
    ensures var l := Split(line, ',');
      r.Success? <==> |l| >= 3 && ParseU64(l[1]).Some? && ParseIsize(l[2]).Some?
    ensures var l := Split(line, ',');
      r.Success? ==>
        && r.value.run + "," <= line && ',' !in r.value.run
        && Some(r.value.ramp) == ParseU64(l[1]) && Some(r.value.vped) == ParseIsize(l[2])
        && r.value.ramp < U64_LIMIT && ISIZE_MIN <= r.value.vped <= ISIZE_MAX
    ensures var l := Split(line, ',');
      && (|l| < 2 ==> r == Failure(MissingField(k, 1)))
      && (|l| >= 2 && ParseU64(l[1]).None? ==> r == Failure(BadRamp(k)))
      && (|l| == 2 && ParseU64(l[1]).Some? ==> r == Failure(MissingField(k, 2)))
      && (|l| >= 3 && ParseU64(l[1]).Some? && ParseIsize(l[2]).None? ==> r == Failure(BadVped(k)))
  {
    var l := Split(line, ',');
    if |l| < 2 then Failure(MissingField(k, 1))
    else
      match ParseU64(l[1])
      case None => Failure(BadRamp(k))
      case Some(ramp) =>
        if |l| < 3 then Failure(MissingField(k, 2))
        else
          match ParseIsize(l[2])
          case None => Failure(BadVped(k))
          case Some(vped) =>
            SplitFirst(line);
            Success(Record(l[0], ramp, vped))
  }

  /** The first field of a split is a prefix of the text; when a second field follows, so is the first field and its comma. */
  lemma SplitFirst(line: string)
    ensures Split(line, ',')[0] <= line
    ensures |Split(line, ',')| >= 2 ==> Split(line, ',')[0] + "," <= line
  {
    match IndexOf(line, ',')
    case None =>
    case Some(k) =>
      assert line[..k] + "," == line[..k + 1];
  }

  /**
   * Only the first three fields are read: a line with more fields parses as
   * its first three fields alone would.
   */
  lemma ExtraFieldsIgnored(run: string, ramp: string, vped: string, rest: string, k: nat)
    requires ',' !in run && ',' !in ramp && ',' !in vped
    ensures ParseRecord(run + "," + ramp + "," + vped + "," + rest, k)
      == ParseRecord(run + "," + ramp + "," + vped, k)
  {
    var fields := [run, ramp, vped];
    var long := run + "," + ramp + "," + vped + "," + rest;
    var short := run + "," + ramp + "," + vped;
    SplitThreeAndRest(run, ramp, vped, rest);
    SplitThree(run, ramp, vped);
    assert (fields + Split(rest, ','))[..3] == fields;
    ParseRecordFirstThree(long, short, k);
  }

  /** The fields of three comma-free texts and a rest, joined by commas. */
  lemma SplitThreeAndRest(run: string, ramp: string, vped: string, rest: string)
    requires ',' !in run && ',' !in ramp && ',' !in vped
    ensures Split(run + "," + ramp + "," + vped + "," + rest, ',') == [run, ramp, vped] + Split(rest, ',')
  {
    var long2 := vped + [','] + rest;
    var long1 := ramp + [','] + long2;
    assert run + "," + ramp + "," + vped + "," + rest == run + [','] + long1;
    var tail := Split(rest, ',');
    SplitCons(vped, ',', rest);
    SplitCons(ramp, ',', long2);
    SplitCons(run, ',', long1);
    calc {
      Split(run + [','] + long1, ',');
      [run] + Split(long1, ',');
      [run] + ([ramp] + Split(long2, ','));
      [run] + ([ramp] + ([vped] + tail));
      { ConsThree(run, ramp, vped, tail); }
      [run, ramp, vped] + tail;
    }
  }

  /** Three elements put in front one at a time. */
  lemma ConsThree<T>(a: T, b: T, c: T, t: seq<T>)
    ensures [a] + ([b] + ([c] + t)) == [a, b, c] + t
  {
    assert [a] + ([b] + ([c] + t)) == [a, b, c] + t;
  }

  /** The fields of three comma-free texts joined by commas. */
  lemma SplitThree(run: string, ramp: string, vped: string)
    requires ',' !in run && ',' !in ramp && ',' !in vped
    ensures Split(run + "," + ramp + "," + vped, ',') == [run, ramp, vped]
  {
    var short1 := ramp + [','] + vped;
    assert run + "," + ramp + "," + vped == run + [','] + short1;
    assert Split(vped, ',') == [vped];
    SplitCons(ramp, ',', vped);
    SplitCons(run, ',', short1);
  }

  /** A line's parse depends on its first three fields only. */
  lemma ParseRecordFirstThree(a: string, b: string, k: nat)
    requires |Split(a, ',')| >= 3 && |Split(b, ',')| >= 3
    requires Split(a, ',')[..3] == Split(b, ',')[..3]
    ensures ParseRecord(a, k) == ParseRecord(b, k)
  {
    var la, lb := Split(a, ','), Split(b, ',');
    assert la[0] == lb[0] && la[1] == lb[1] && la[2] == lb[2] by {
      assert la[..3][0] == la[0] && la[..3][1] == la[1] && la[..3][2] == la[2];
      assert lb[..3][0] == lb[0] && lb[..3][1] == lb[1] && lb[..3][2] == lb[2];
    }
  }

  /**
   * The outcomes of parsing each line, gathered in order into the three
   * columns; the first failure, if any, is the result (a panic in
   * `parse_log` ends the program at the first bad line), as
   * `CollectFailsAt` states.
   */
  function Collect(results: seq<Result<Record, Error>>): (r: Result<ParsedLog, Error>)
    ensures r.Success? <==> forall k :: 0 <= k < |results| ==> results[k].Success?
    ensures r.Success? ==>
      && |r.value.ramps| == |r.value.runs| == |r.value.vpeds| == |results|
      && forall k :: 0 <= k < |results| ==>
           results[k] == Success(Record(r.value.runs[k], r.value.ramps[k], r.value.vpeds[k]))
  {
    if results == [] then Success(ParsedLog([], [], []))
    else
      var n := |results| - 1;
      var front := results[..n];
      assert forall k :: 0 <= k < n ==> front[k] == results[k];
      match Collect(front)
      case Failure(e) => Failure(e)
      case Success(log) =>
        match results[n]
        case Failure(e) => Failure(e)
        case Success(rec) =>
          Success(ParsedLog(log.ramps + [rec.ramp], log.runs + [rec.run], log.vpeds + [rec.vped]))
  }

  /** The outcome of parsing each of `lines`, numbered from 0. */
  function ParseEach(lines: seq<string>): (results: seq<Result<Record, Error>>)
    ensures |results| == |lines|
  {
    seq(|lines|, k requires 0 <= k < |lines| => ParseRecord(lines[k], k))
  }

  /** What `parse_log` computes from the lines of a log body. */
  function ParseAll(lines: seq<string>): Result<ParsedLog, Error>
  {
    Collect(ParseEach(lines))
  }

  /** `parse_log`: one loop over `contents.lines()`, pushing onto three vectors. */
  method ParseLog(contents: string) returns (r: Result<ParsedLog, Error>)
    ensures r == ParseAll(Lines(contents))
  {
    var lines := Lines(contents);
    ghost var results := ParseEach(lines);
    var ramps: seq<nat> := [];
    var runs: seq<string> := [];
    var vpeds: seq<int> := [];
    for k := 0 to |lines|
      invariant |ramps| == |runs| == |vpeds| == k
      invariant forall j :: 0 <= j < k ==> results[j] == Success(Record(runs[j], ramps[j], vpeds[j]))
    {
      assert results[k] == ParseRecord(lines[k], k);
      var l := Split(lines[k], ',');
      if |l| < 2 {
        CollectFailsAt(results, k);
        return Failure(MissingField(k, 1));
      }
      var ramp := ParseU64(l[1]);
      if ramp.None? {
        CollectFailsAt(results, k);
        return Failure(BadRamp(k));
      }
      ramps := ramps + [ramp.value];
      runs := runs + [l[0]];
      if |l| < 3 {
        CollectFailsAt(results, k);
        return Failure(MissingField(k, 2));
      }
      var vped := ParseIsize(l[2]);
      if vped.None? {
        CollectFailsAt(results, k);
        return Failure(BadVped(k));
      }
      vpeds := vpeds + [vped.value];
    }
    CollectSucceeds(results, ParsedLog(ramps, runs, vpeds));
    r := Success(ParsedLog(ramps, runs, vpeds));
  }

  /** When every line parses, `Collect` yields exactly their columns. */
  lemma {:induction false} CollectSucceeds(results: seq<Result<Record, Error>>, log: ParsedLog)
    requires |log.ramps| == |log.runs| == |log.vpeds| == |results|
    requires forall j :: 0 <= j < |results| ==>
      results[j] == Success(Record(log.runs[j], log.ramps[j], log.vpeds[j]))
    ensures Collect(results) == Success(log)
  {
    if results != [] {
      var n := |results| - 1;
      var prev := ParsedLog(log.ramps[..n], log.runs[..n], log.vpeds[..n]);
      CollectSucceeds(results[..n], prev);
      CollectSucceedsStep(results, log);
    }
  }

  /** The inductive step of `CollectSucceeds`: the last line's record extends each column. */
  lemma CollectSucceedsStep(results: seq<Result<Record, Error>>, log: ParsedLog)
    requires results != []
    requires |log.ramps| == |log.runs| == |log.vpeds| == |results|
    requires var n := |results| - 1;
      && results[n] == Success(Record(log.runs[n], log.ramps[n], log.vpeds[n]))
      && Collect(results[..n]) == Success(ParsedLog(log.ramps[..n], log.runs[..n], log.vpeds[..n]))
    ensures Collect(results) == Success(log)
  {
    LastSplit(log.ramps);
    LastSplit(log.runs);
    LastSplit(log.vpeds);
  }

  /** A non-empty sequence is its front followed by its last element. */
  lemma LastSplit<T>(s: seq<T>)
    requires s != []
    ensures s == s[..|s| - 1] + [s[|s| - 1]]
  {
  }

  /** `Collect` reports the error of the first line that does not parse. */
  lemma {:induction false} CollectFailsAt(results: seq<Result<Record, Error>>, k: nat)
    requires k < |results|
    requires forall j :: 0 <= j < k ==> results[j].Success?
    requires results[k].Failure?
    ensures Collect(results) == Failure(results[k].error)
  {
    var n := |results| - 1;
    var front := results[..n];
    assert forall j :: 0 <= j < n ==> front[j] == results[j];
    if k < n {
      CollectFailsAt(front, k);
    } else {
      assert Collect(front).Success?;
    }
  }

  /** A record the log could hold: a run with no comma or newline, and in-range numbers. */
  predicate Writable(rec: Record)
  {
    ',' !in rec.run && '\n' !in rec.run && rec.ramp < U64_LIMIT && ISIZE_MIN <= rec.vped <= ISIZE_MAX
  }

  /** The log line that holds `rec`. */
  function FormatRecord(rec: Record): string
  {
    rec.run + "," + NatToString(rec.ramp) + "," + IntToString(rec.vped)
  }

  /** The columns of a list of records. */
  function Columns(recs: seq<Record>): ParsedLog
  {
    ParsedLog(seq(|recs|, i requires 0 <= i < |recs| => recs[i].ramp),
              seq(|recs|, i requires 0 <= i < |recs| => recs[i].run),
              seq(|recs|, i requires 0 <= i < |recs| => recs[i].vped))
  }

  /** Parsing the line that holds a record gives the record back. */
  lemma ParseFormatRecord(rec: Record, k: nat)
    requires Writable(rec)
    ensures ParseRecord(FormatRecord(rec), k) == Success(rec)
    ensures '\n' !in FormatRecord(rec)
  {
    IntToStringPlain(rec.vped);
    IntToStringPlain(rec.ramp);
    assert NatToString(rec.ramp) == IntToString(rec.ramp);
    SplitThree(rec.run, NatToString(rec.ramp), IntToString(rec.vped));
    ParseU64NatToString(rec.ramp);
    ParseIsizeIntToString(rec.vped);
  }

  /** The lines that hold `recs`, in order. */
  function FormatLines(recs: seq<Record>): (lines: seq<string>)
    ensures |lines| == |recs|
  {
    seq(|recs|, i requires 0 <= i < |recs| => FormatRecord(recs[i]))
  }

  /** A log file: a header line, then one line per record, each ended by a newline. */
  function LogText(header: string, recs: seq<Record>): string
  {
    header + "\n" + Terminated(FormatLines(recs))
  }

  /** The lines of well-formed records parse back to those records' columns. */
  lemma ParseAllFormatLines(recs: seq<Record>)
    requires forall i :: 0 <= i < |recs| ==> Writable(recs[i])
    ensures forall i :: 0 <= i < |recs| ==> '\n' !in FormatLines(recs)[i]
    ensures ParseAll(FormatLines(recs)) == Success(Columns(recs))
  {
    var lines := FormatLines(recs);
    forall i | 0 <= i < |recs|
      ensures ParseRecord(lines[i], i) == Success(recs[i]) && '\n' !in lines[i]
    {
      ParseFormatRecord(recs[i], i);
    }
    CollectSucceeds(ParseEach(lines), Columns(recs));
  }

  /**
   * Round trip of the whole reader: a header line followed by the lines of
   * some records, each ended by a newline, parses back to those records'
   * columns.
   */
  lemma ParseLogRoundTrip(header: string, recs: seq<Record>)
    requires '\n' !in header
    requires forall i :: 0 <= i < |recs| ==> Writable(recs[i])
    ensures StripHeader(LogText(header, recs)) == Success(Terminated(FormatLines(recs)))
    ensures ParseAll(Lines(Terminated(FormatLines(recs)))) == Success(Columns(recs))
  {
    var lines := FormatLines(recs);
    var body := Terminated(lines);
    IndexOfAfter(header, '\n', body);
    var contents := header + "\n" + body;
    assert contents[|header| + 1..] == body;
    ParseAllFormatLines(recs);
    LinesTerminated(lines);
  }

  /**
   * The repository's unit test of `parse_log`: two lines without a header or
   * a final newline give two entries in each column, the first being run
   * `300000`, ramp 0 and vped 123. The test's text is a parameter fixed by
   * the precondition rather than a literal in the conclusion, so that the
   * verifier reasons about it through the lemmas below instead of unfolding
   * `Lines` and `Split` over every character of the literal.
   */
  lemma ParseLogTestCase(text: string)
    requires text == "300000,0,123" + "\n" + "300001,1,124"
    ensures ParseAll(Lines(text)) == Success(ParsedLog([0, 1], ["300000", "300001"], [123, 124]))
  {
    var recs := [Record("300000", 0, 123), Record("300001", 1, 124)];
    TestLines(recs);
    ParseAllFormatLines(recs);
    JoinTwo(FormatLines(recs)[0], FormatLines(recs)[1], "\n");
    LinesJoin(FormatLines(recs));
  }

  /** The lines of the test's two records. */
  lemma TestLines(recs: seq<Record>)
    requires recs == [Record("300000", 0, 123), Record("300001", 1, 124)]
    ensures forall i :: 0 <= i < |recs| ==> Writable(recs[i])
    ensures FormatLines(recs) == ["300000,0,123", "300001,1,124"]
    ensures Columns(recs) == ParsedLog([0, 1], ["300000", "300001"], [123, 124])
  {
    TestDigits();
    assert FormatLines(recs)[0] == "300000,0,123";
    assert FormatLines(recs)[1] == "300001,1,124";
  }

  /** How the test's numbers print. */
  lemma TestDigits()
    ensures NatToString(0) == "0" && NatToString(1) == "1"
    ensures IntToString(123) == "123" && IntToString(124) == "124"
  {
    assert NatToString(12) == NatToString(1) + [Digit(2)];
    assert NatToString(123) == NatToString(12) + [Digit(3)];
    assert NatToString(124) == NatToString(12) + [Digit(4)];
  }
}
